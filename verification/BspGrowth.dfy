/** The shape a tree takes as windows join it: which split a new window makes, and the frames that gives. */
module BspGrowth {
  import opened Basics
  import opened Geometry
  import opened BspNode
  import opened BspSync
  import opened BspAlgebra
  import opened BspResize

  /** How many splits are above a window. */
  function Depth(n: Node, w: WindowId): nat
    requires Contains(n, w)
  {
    match n
    case Leaf(_) => 0
    case Branch(_, _, l, r) => 1 + if Contains(l, w) then Depth(l, w) else Depth(r, w)
  }

  /** Two windows sit side by side under an even split of their own, upright exactly at an even depth. */
  ghost predicate Halve(n: Node, a: WindowId, b: WindowId) {
    && Contains(n, a) && Depth(n, a) > 0
    && PartingOf(n, a, b).Some?
    && var p := PartingOf(n, a, b).value;
       p.ratio == 0.5 && p.firstIsLeft && (p.axis == Vertical <==> (Depth(n, a) - 1) % 2 == 0)
  }

  function LastLeaf(n: Node): WindowId { Leaves(n)[|Leaves(n)| - 1] }

  // --------------------------------------------------------------- one insertion

  /** A new window halves the last one's place. */
  lemma {:induction false} InsertHalves(n: Node, w: WindowId, depth: nat)
    requires Distinct(n) && w !in Leaves(n)
    ensures var r, last := InsertRightmost(n, w, depth), LastLeaf(n);
            && Contains(r, last) && Contains(r, w) && Depth(r, last) == Depth(n, last) + 1 && Depth(r, w) == Depth(n, last) + 1
            && PartingOf(r, last, w) == Some(Parting(if (depth + Depth(n, last)) % 2 == 0 then Vertical else Horizontal, 0.5, true))
  {
    InsertLeaves(n, w, depth);
    if n.Branch? {
      PartsApart(n);
      InsertLeaves(n.right, w, depth + 1);
      assert LastLeaf(n) == LastLeaf(n.right) && LastLeaf(n) in Leaves(n.right);
      InsertHalves(n.right, w, depth + 1);
    }
  }

  /** Nobody else's place changes. */
  lemma {:induction false} InsertKeepsDepth(n: Node, w: WindowId, depth: nat, a: WindowId)
    requires Distinct(n) && w !in Leaves(n) && a in Leaves(n) && a != LastLeaf(n)
    ensures Contains(InsertRightmost(n, w, depth), a) && Depth(InsertRightmost(n, w, depth), a) == Depth(n, a)
  {
    InsertLeaves(n, w, depth);
    if n.Branch? {
      PartsApart(n);
      InsertLeaves(n.right, w, depth + 1);
      assert LastLeaf(n) == LastLeaf(n.right);
      if a in Leaves(n.right) {
        InsertKeepsDepth(n.right, w, depth + 1, a);
      }
    }
  }

  // ------------------------------------------------------------ many insertions

  lemma {:induction false} InsertAllKeepsDepth(root: Node, ws: seq<WindowId>, a: WindowId)
    requires NoDup(Leaves(root) + ws) && a in Leaves(root) && a != LastLeaf(root)
    ensures InsertAll(Some(root), ws).Some? && Contains(InsertAll(Some(root), ws).value, a)
    ensures Depth(InsertAll(Some(root), ws).value, a) == Depth(root, a)
    decreases |ws|
  {
    if ws != [] {
      FirstIsNew(root, ws);
      InsertLeaves(root, ws[0], 0);
      InsertKeepsDepth(root, ws[0], 0, a);
      InsertAllKeepsDepth(InsertRightmost(root, ws[0], 0), ws[1..], a);
    }
  }

  lemma {:induction false} FirstIsNew(root: Node, ws: seq<WindowId>)
    requires NoDup(Leaves(root) + ws) && ws != []
    ensures Distinct(root) && ws[0] !in Leaves(root) && NoDup((Leaves(root) + [ws[0]]) + ws[1..]) && ws[0] !in ws[1..]
    ensures InsertTree(Some(root), ws[0]) == Some(InsertRightmost(root, ws[0], 0))
  {
    NoDupConcat(Leaves(root), ws);
    assert ws[0] in Elements(ws);
    assert forall v :: v in Leaves(root) <==> v in Elements(Leaves(root));
    assert (Leaves(root) + [ws[0]]) + ws[1..] == Leaves(root) + ws;
    assert forall i | 0 <= i < |ws[1..]| :: ws[1..][i] == ws[i + 1];
  }

  /** Windows join one after another, each halving the place of the one before it. */
  lemma {:induction false} InsertAllHalves(root: Node, ws: seq<WindowId>, i: nat)
    requires NoDup(Leaves(root) + ws) && i < |ws|
    ensures InsertAll(Some(root), ws).Some?
    ensures Halve(InsertAll(Some(root), ws).value, if i == 0 then LastLeaf(root) else ws[i - 1], ws[i])
    decreases |ws|
  {
    FirstIsNew(root, ws);
    InsertLeaves(root, ws[0], 0);
    var root' := InsertRightmost(root, ws[0], 0);
    assert LastLeaf(root') == ws[0];
    if i == 0 {
      var last := LastLeaf(root);
      InsertHalves(root, ws[0], 0);
      InsertAllKeepsParting(Some(root'), ws[1..], last, ws[0]);
      InsertAllKeepsDepth(root', ws[1..], last);
    } else {
      InsertAllHalves(root', ws[1..], i - 1);
    }
  }

  /**
   * After a sync every new window but the first of a tree shares an even split with the leaf before
   * it, on its right or below it: beside it exactly when that split is at an even depth.
   */
  lemma {:induction false} SyncedHalves(root: Option<Node>, windows: set<WindowId>, i: nat)
    requires NoDup(TreeLeaves(root)) && i + 1 < |TreeLeaves(Synced(root, windows))| && i + 1 >= |Keep(TreeLeaves(root), windows)|
    ensures var ls := TreeLeaves(Synced(root, windows));
            Synced(root, windows).Some? && ls[i + 1] in windows && Halve(Synced(root, windows).value, ls[i], ls[i + 1])
  {
    hide Halve, InsertAll, Keep, Missing, Elements, NoDup, PruneTree;
    SyncedParts(root, windows);
    SyncedLeaves(root, windows);
    SyncedHas(root, windows, i + 1);
    JoinHalves(PruneTree(root, Elements(TreeLeaves(root)) - windows), Missing(root, windows), i);
  }

  lemma {:induction false} SyncedHas(root: Option<Node>, windows: set<WindowId>, i: nat)
    requires i < |TreeLeaves(Synced(root, windows))|
    ensures TreeLeaves(Synced(root, windows))[i] in windows
  {
    hide Synced, TreeLeaves;
    SyncedLeaves(root, windows);
    assert TreeLeaves(Synced(root, windows))[i] in Elements(TreeLeaves(Synced(root, windows)));
  }

  lemma {:induction false} SyncedParts(root: Option<Node>, windows: set<WindowId>)
    requires NoDup(TreeLeaves(root))
    ensures TreeLeaves(PruneTree(root, Elements(TreeLeaves(root)) - windows)) == Keep(TreeLeaves(root), windows)
    ensures NoDup(Keep(TreeLeaves(root), windows) + Missing(root, windows))
  {
    hide PruneTree, TreeLeaves, NoDup, Keep;
    PrunedLeaves(root, windows);
    MissingIsNew(root, windows);
    KeepNoDup(TreeLeaves(root), windows);
    NoDupConcat(Keep(TreeLeaves(root), windows), Missing(root, windows));
  }

  lemma {:induction false} JoinHalves(root: Option<Node>, ws: seq<WindowId>, i: nat)
    requires NoDup(TreeLeaves(root) + ws) && |TreeLeaves(root)| <= i + 1 < |TreeLeaves(root) + ws|
    ensures var ls := TreeLeaves(root) + ws; InsertAll(root, ws).Some? && Halve(InsertAll(root, ws).value, ls[i], ls[i + 1])
  {
    hide Halve, NoDup;
    if root.Some? {
      InsertAllHalves(root.value, ws, i + 1 - |Leaves(root.value)|);
    } else {
      assert ws == [ws[0]] + ws[1..] && TreeLeaves(root) + ws == ws;
      InsertAllHalves(Leaf(ws[0]), ws[1..], i);
    }
  }

  // ---------------------------------------------------------- trees grown anew

  /** Halving again and again: beside, below, beside; each half without the gap between. */
  function Spiral(ws: seq<WindowId>, area: Rect, gap: real, beside: bool): seq<Placement> {
    if ws == [] then []
    else if |ws| == 1 then [Placement(ws[0], area)]
    else if beside then
      var half := if area.width > gap then (area.width - gap) / 2.0 else 0.0;
      [Placement(ws[0], Rect(area.x, area.y, half, area.height))]
      + Spiral(ws[1..], Rect(area.x + half + gap, area.y, half, area.height), gap, false)
    else
      var half := if area.height > gap then (area.height - gap) / 2.0 else 0.0;
      [Placement(ws[0], Rect(area.x, area.y, area.width, half))]
      + Spiral(ws[1..], Rect(area.x, area.y + half + gap, area.width, half), gap, true)
  }

  function Spine(ws: seq<WindowId>, depth: nat): Node
    requires ws != []
  {
    if |ws| == 1 then Leaf(ws[0]) else Branch(ParityAxis(depth), 0.5, Leaf(ws[0]), Spine(ws[1..], depth + 1))
  }

  lemma {:induction false} SpineLeaves(ws: seq<WindowId>, depth: nat)
    requires ws != []
    ensures Leaves(Spine(ws, depth)) == ws
    decreases |ws|
  {
    if |ws| > 1 {
      SpineLeaves(ws[1..], depth + 1);
    }
  }

  lemma {:induction false} SpineGrows(ws: seq<WindowId>, w: WindowId, depth: nat)
    requires ws != []
    ensures InsertRightmost(Spine(ws, depth), w, depth) == Spine(ws + [w], depth)
    decreases |ws|
  {
    if |ws| == 1 {
      assert (ws + [w])[1..] == [w];
    } else {
      SpineGrows(ws[1..], w, depth + 1);
      assert (ws + [w])[1..] == ws[1..] + [w];
    }
  }

  lemma {:induction false} GrownIsSpine(ws: seq<WindowId>, more: seq<WindowId>)
    requires ws != [] && NoDup(ws + more)
    ensures InsertAll(Some(Spine(ws, 0)), more) == Some(Spine(ws + more, 0))
    decreases |more|
  {
    SpineLeaves(ws, 0);
    if more == [] {
      assert ws + more == ws;
    } else {
      FirstIsNew(Spine(ws, 0), more);
      SpineGrows(ws, more[0], 0);
      assert (ws + [more[0]]) + more[1..] == ws + more;
      GrownIsSpine(ws + [more[0]], more[1..]);
    }
  }

  lemma {:induction false} SpineSpirals(ws: seq<WindowId>, depth: nat, area: Rect, gap: real)
    requires ws != []
    ensures Placements(Spine(ws, depth), area, gap) == Spiral(ws, area, gap, depth % 2 == 0)
    decreases |ws|
  {
    if |ws| > 1 {
      SpineSpirals(ws[1..], depth + 1, Split(area, gap, ParityAxis(depth), 0.5).1, gap);
    }
  }

  /** A tree grown from nothing spirals: the first window has the left half, the next the upper half of the rest, and so on. */
  lemma {:induction false} GrownSpirals(windows: set<WindowId>, area: Rect, gap: real)
    ensures TreePlacements(Synced(None, windows), area, gap) == Spiral(Ascending(windows), area, gap, true)
  {
    var ws := Missing(None, windows);
    assert windows - Elements(TreeLeaves(None)) == windows;
    if ws != [] {
      assert InsertAll(None, ws) == InsertAll(Some(Spine([ws[0]], 0)), ws[1..]);
      assert ws == [ws[0]] + ws[1..];
      GrownIsSpine([ws[0]], ws[1..]);
      SpineSpirals(ws, 0, area, gap);
    }
  }

  // -------------------------------------------------------------------- warping

  lemma {:induction false} SiblingHalves(n: Node, w: WindowId, target: WindowId, before: bool, depth: nat)
    requires Distinct(n) && w !in Leaves(n) && Contains(n, target)
    ensures var r := InsertSibling(n, w, target, before, depth);
            && Contains(r, target) && Contains(r, w) && Depth(r, target) == Depth(n, target) + 1 && Depth(r, w) == Depth(r, target)
            && PartingOf(r, target, w) == Some(Parting(if (depth + Depth(n, target)) % 2 == 0 then Vertical else Horizontal, 0.5, !before))
  {
    hide *;
    SiblingDeepens(n, w, target, before, depth);
    SiblingParts(n, w, target, before, depth);
  }

  lemma {:induction false} SiblingDeepens(n: Node, w: WindowId, target: WindowId, before: bool, depth: nat)
    requires Distinct(n) && w !in Leaves(n) && Contains(n, target)
    ensures var r := InsertSibling(n, w, target, before, depth);
            Contains(r, target) && Contains(r, w) && Depth(r, target) == Depth(n, target) + 1 && Depth(r, w) == Depth(r, target)
  {
    hide Elements, NoDup, Distinct, ParityAxis, Leaves;
    if n.Branch? {
      PartsApart(n);
      BranchHas(n, w);
      if Contains(n.left, target) {
        SiblingDeepens(n.left, w, target, before, depth + 1);
      } else {
        SiblingDeepens(n.right, w, target, before, depth + 1);
      }
    }
  }

  lemma BranchHas(n: Node, w: WindowId)
    requires n.Branch?
    ensures w in Leaves(n) <==> w in Leaves(n.left) || w in Leaves(n.right)
  {
  }

  lemma {:induction false} SiblingParts(n: Node, w: WindowId, target: WindowId, before: bool, depth: nat)
    requires Distinct(n) && w !in Leaves(n) && Contains(n, target)
    ensures PartingOf(InsertSibling(n, w, target, before, depth), target, w)
            == Some(Parting(if (depth + Depth(n, target)) % 2 == 0 then Vertical else Horizontal, 0.5, !before))
  {
    hide Elements, NoDup, Distinct, Leaves;
    if n.Branch? {
      PartsApart(n);
      BranchHas(n, w);
      if Contains(n.left, target) {
        SiblingHas(n.left, w, target, before, depth + 1);
        SiblingParts(n.left, w, target, before, depth + 1);
      } else {
        SiblingHas(n.right, w, target, before, depth + 1);
        SiblingParts(n.right, w, target, before, depth + 1);
      }
    } else {
      assert n.window == target;
    }
  }

  lemma {:induction false} SiblingHas(n: Node, w: WindowId, target: WindowId, before: bool, depth: nat)
    ensures var r := InsertSibling(n, w, target, before, depth);
            forall v :: v in Leaves(r) <==> v in Leaves(n) || (v == w && target in Leaves(n))
  {
    if n.Branch? {
      SiblingHas(n.left, w, target, before, depth + 1);
      SiblingHas(n.right, w, target, before, depth + 1);
    }
  }

  lemma {:induction false} SiblingKeepsParting(n: Node, w: WindowId, target: WindowId, before: bool, depth: nat, a: WindowId, b: WindowId)
    requires Distinct(n) && w !in Leaves(n) && Contains(n, target) && a in Leaves(n) && b in Leaves(n) && a != b
    ensures PartingOf(InsertSibling(n, w, target, before, depth), a, b) == PartingOf(n, a, b)
  {
    hide Elements, NoDup, Distinct, ParityAxis;
    if n.Branch? {
      PartsApart(n);
      SiblingHas(n.left, w, target, before, depth + 1);
      SiblingHas(n.right, w, target, before, depth + 1);
      if Contains(n.left, target) {
        if a in Leaves(n.left) && b in Leaves(n.left) {
          SiblingKeepsParting(n.left, w, target, before, depth + 1, a, b);
        }
      } else if a in Leaves(n.right) && b in Leaves(n.right) {
        SiblingKeepsParting(n.right, w, target, before, depth + 1, a, b);
      }
    }
  }

  /**
   * A warped window shares an even split with its target, on the side asked for, beside it exactly
   * when that split is at an even depth; any other two windows part where they did.
   */
  lemma {:induction false} WarpedHalves(n: Node, w: WindowId, target: WindowId, before: bool, a: WindowId, b: WindowId)
    requires Distinct(n) && w != target && Contains(n, target)
    ensures Warped(n, w, target, before).Some?
    ensures var r := Warped(n, w, target, before).value;
            && Contains(r, target) && Contains(r, w) && Depth(r, target) == Depth(r, w) > 0
            && PartingOf(r, target, w) == Some(Parting(if (Depth(r, w) - 1) % 2 == 0 then Vertical else Horizontal, 0.5, !before))
            && (a in Leaves(n) && b in Leaves(n) && a != b && a != w && b != w ==> PartingOf(r, a, b) == PartingOf(n, a, b))
  {
    hide Distinct, Remove, InsertSibling, Depth, PartingOf;
    WarpRest(n, w, target);
    var rest := if Contains(n, w) then Remove(n, w) else Some(n);
    SiblingHalves(rest.value, w, target, before, 0);
    if a in Leaves(n) && b in Leaves(n) && a != b && a != w && b != w {
      RestKeepsParting(n, w, a, b);
      SiblingKeepsParting(rest.value, w, target, before, 0, a, b);
    }
  }

  lemma {:induction false} WarpRest(n: Node, w: WindowId, target: WindowId)
    requires Distinct(n) && w != target && Contains(n, target)
    ensures var rest := if Contains(n, w) then Remove(n, w) else Some(n);
            rest.Some? && Distinct(rest.value) && w !in Leaves(rest.value) && Contains(rest.value, target)
  {
    if Contains(n, w) {
      RemoveLeaves(n, w);
      var keep := Elements(Leaves(n)) - {w};
      KeepNoDup(Leaves(n), keep);
      assert target in Keep(Leaves(n), keep);
    }
  }

  lemma {:induction false} RestKeepsParting(n: Node, w: WindowId, a: WindowId, b: WindowId)
    requires Distinct(n) && a in Leaves(n) && b in Leaves(n) && a != b && a != w && b != w
    ensures var rest := if Contains(n, w) then Remove(n, w) else Some(n);
            rest.Some? && a in Leaves(rest.value) && b in Leaves(rest.value) && PartingOf(rest.value, a, b) == PartingOf(n, a, b)
  {
    if Contains(n, w) {
      RemoveIsPrune(n, w);
      PruneKeepsParting(n, {w}, a, b);
    }
  }

  // ---------------------------------------------------- what edits do to a split

  /** Balancing changes no way down the tree and no axis; every split becomes even. */
  lemma {:induction false} BalanceEvensInPlace(n: Node, p: Path)
    requires IsPath(n, p)
    ensures var b := Balance(n);
            && IsPath(b, p) && NodeAt(b, p).Branch? == NodeAt(n, p).Branch?
            && (NodeAt(n, p).Leaf? ==> NodeAt(b, p) == NodeAt(n, p))
            && (NodeAt(n, p).Branch? ==> NodeAt(b, p).axis == NodeAt(n, p).axis && NodeAt(b, p).ratio == 0.5)
    decreases |p|
  {
    if p != [] {
      BalanceEvensInPlace(Child(n, p[0]), p[1..]);
    }
  }
}
