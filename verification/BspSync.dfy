/** What synchronising a tree with an observed window set leaves behind. */
module BspSync {
  import opened Basics
  import opened Geometry
  import opened BspNode

  /** The tree without the windows in `drop`; a split survives when both its sides do. */
  function Prune(n: Node, drop: set<WindowId>): Option<Node> {
    match n
    case Leaf(w) => if w in drop then None else Some(n)
    case Branch(axis, ratio, l, r) =>
      match (Prune(l, drop), Prune(r, drop))
      case (None, None) => None
      case (None, Some(r')) => Some(r')
      case (Some(l'), None) => Some(l')
      case (Some(l'), Some(r')) => Some(Branch(axis, ratio, l', r'))
  }

  function PruneTree(root: Option<Node>, drop: set<WindowId>): Option<Node> {
    if root.None? then None else Prune(root.value, drop)
  }

  /** One insertion: a known window changes nothing, a new one joins the rightmost leaf. */
  function InsertTree(root: Option<Node>, w: WindowId): Option<Node> {
    if root.None? then Some(Leaf(w))
    else if Contains(root.value, w) then root
    else Some(InsertRightmost(root.value, w, 0))
  }

  function InsertAll(root: Option<Node>, ws: seq<WindowId>): Option<Node>
    decreases |ws|
  {
    if ws == [] then root else InsertAll(InsertTree(root, ws[0]), ws[1..])
  }

  ghost function Missing(root: Option<Node>, windows: set<WindowId>): seq<WindowId> {
    Ascending(windows - Elements(TreeLeaves(root)))
  }

  /** The synchronised tree: a function of the window set alone. */
  ghost function Synced(root: Option<Node>, windows: set<WindowId>): Option<Node> {
    InsertAll(PruneTree(root, Elements(TreeLeaves(root)) - windows), Missing(root, windows))
  }

  /** The split at which two windows part: its axis, its ratio and which of them is on the left. */
  datatype Parting = Parting(axis: Axis, ratio: real, firstIsLeft: bool)

  function PartingOf(n: Node, a: WindowId, b: WindowId): Option<Parting> {
    match n
    case Leaf(_) => None
    case Branch(axis, ratio, l, r) =>
      if Contains(l, a) && Contains(r, b) then Some(Parting(axis, ratio, true))
      else if Contains(r, a) && Contains(l, b) then Some(Parting(axis, ratio, false))
      else if Contains(l, a) then PartingOf(l, a, b)
      else PartingOf(r, a, b)
  }

  // ------------------------------------------------------------------ pruning

  lemma RemoveIsPrune(n: Node, w: WindowId)
    ensures Remove(n, w) == Prune(n, {w})
  {
  }

  lemma {:induction false} PruneCompose(n: Node, a: set<WindowId>, b: set<WindowId>)
    ensures PruneTree(Prune(n, a), b) == Prune(n, a + b)
  {
    if n.Branch? {
      PruneCompose(n.left, a, b);
      PruneCompose(n.right, a, b);
    }
  }

  lemma {:induction false} PruneLeaves(n: Node, drop: set<WindowId>)
    ensures TreeLeaves(Prune(n, drop)) == Keep(Leaves(n), Elements(Leaves(n)) - drop)
  {
    var keep := Elements(Leaves(n)) - drop;
    if n.Branch? {
      PruneLeaves(n.left, drop);
      PruneLeaves(n.right, drop);
      KeepAppend(Leaves(n.left), Leaves(n.right), keep);
      KeepAgree(Leaves(n.left), keep, Elements(Leaves(n.left)) - drop);
      KeepAgree(Leaves(n.right), keep, Elements(Leaves(n.right)) - drop);
    }
  }

  lemma {:induction false} PruneNothing(n: Node, drop: set<WindowId>)
    requires Elements(Leaves(n)) !! drop
    ensures Prune(n, drop) == Some(n)
  {
    if n.Branch? {
      assert forall w | w in Leaves(n.left) || w in Leaves(n.right) :: w in Elements(Leaves(n));
      PruneNothing(n.left, drop);
      PruneNothing(n.right, drop);
    } else {
      assert n.window in Elements(Leaves(n));
    }
  }

  lemma {:induction false} PruneKeepsParting(n: Node, drop: set<WindowId>, a: WindowId, b: WindowId)
    requires a in Leaves(n) && b in Leaves(n) && a !in drop && b !in drop
    requires Distinct(n) && a != b
    ensures Prune(n, drop).Some?
    ensures a in Leaves(Prune(n, drop).value) && b in Leaves(Prune(n, drop).value)
    ensures PartingOf(Prune(n, drop).value, a, b) == PartingOf(n, a, b)
  {
    hide Elements, Keep, Distinct, TreeLeaves;
    if n.Branch? {
      PartsApart(n);
      PruneHas(n.left, drop, a);
      PruneHas(n.left, drop, b);
      PruneHas(n.right, drop, a);
      PruneHas(n.right, drop, b);
      if a in Leaves(n.left) && b in Leaves(n.left) {
        PruneKeepsParting(n.left, drop, a, b);
      } else if a in Leaves(n.right) && b in Leaves(n.right) {
        PruneKeepsParting(n.right, drop, a, b);
      }
    } else {
      OnlyLeaf(n, a, b);
    }
  }

  lemma OnlyLeaf(n: Node, a: WindowId, b: WindowId)
    requires n.Leaf? && a in Leaves(n) && b in Leaves(n)
    ensures a == b
  {
  }

  lemma PartsApart(n: Node)
    requires n.Branch? && Distinct(n)
    ensures Distinct(n.left) && Distinct(n.right) && forall w | w in Leaves(n.left) :: w !in Leaves(n.right)
  {
    DistinctParts(n);
    assert forall w :: w in Leaves(n.left) <==> w in Elements(Leaves(n.left));
    assert forall w :: w in Leaves(n.right) <==> w in Elements(Leaves(n.right));
  }

  /** A window that is not dropped stays exactly where it was. */
  lemma {:induction false} PruneHas(n: Node, drop: set<WindowId>, a: WindowId)
    requires a !in drop
    ensures a in Leaves(n) <==> Prune(n, drop).Some? && a in Leaves(Prune(n, drop).value)
  {
    PruneLeaves(n, drop);
    assert a in Elements(Leaves(n)) <==> a in Leaves(n);
    hide Keep;
  }

  // ---------------------------------------------------------------- insertion

  lemma {:induction false} InsertLeaves(n: Node, w: WindowId, depth: nat)
    ensures Leaves(InsertRightmost(n, w, depth)) == Leaves(n) + [w]
  {
    if n.Branch? {
      InsertLeaves(n.right, w, depth + 1);
      assert Leaves(n.left) + (Leaves(n.right) + [w]) == Leaves(n) + [w];
    }
  }

  lemma {:induction false} InsertKeepsParting(n: Node, w: WindowId, depth: nat, a: WindowId, b: WindowId)
    requires a in Leaves(n) && b in Leaves(n) && w !in Leaves(n) && a != b && Distinct(n)
    ensures PartingOf(InsertRightmost(n, w, depth), a, b) == PartingOf(n, a, b)
  {
    if n.Branch? {
      DistinctParts(n);
      assert forall v :: v in Leaves(n.left) <==> v in Elements(Leaves(n.left));
      assert forall v :: v in Leaves(n.right) <==> v in Elements(Leaves(n.right));
      InsertLeaves(n.right, w, depth + 1);
      if a in Leaves(n.right) && b in Leaves(n.right) {
        InsertKeepsParting(n.right, w, depth + 1, a, b);
      }
    }
  }

  lemma {:induction false} InsertAllLeaves(root: Option<Node>, ws: seq<WindowId>)
    requires NoDup(ws) && Elements(ws) !! Elements(TreeLeaves(root))
    ensures TreeLeaves(InsertAll(root, ws)) == TreeLeaves(root) + ws
    decreases |ws|
  {
    if ws != [] {
      hide NoDup, Elements;
      FirstApart(ws, TreeLeaves(root));
      var root' := InsertTree(root, ws[0]);
      InsertTreeLeaves(root, ws[0]);
      InsertAllLeaves(root', ws[1..]);
      assert (TreeLeaves(root) + [ws[0]]) + ws[1..] == TreeLeaves(root) + ws;
    }
  }

  lemma {:induction false} InsertTreeLeaves(root: Option<Node>, w: WindowId)
    requires w !in TreeLeaves(root)
    ensures TreeLeaves(InsertTree(root, w)) == TreeLeaves(root) + [w]
  {
    if root.Some? {
      InsertLeaves(root.value, w, 0);
    }
  }

  /** Windows not yet in a list, taken one at a time: the first is not in it, the rest are not once it is. */
  lemma {:induction false} FirstApart(ws: seq<WindowId>, ls: seq<WindowId>)
    requires ws != [] && NoDup(ws) && Elements(ws) !! Elements(ls)
    ensures ws[0] !in ls && NoDup(ws[1..]) && Elements(ws[1..]) !! Elements(ls + [ws[0]])
  {
    assert ws[0] in Elements(ws);
    assert forall w | w in ls :: w in Elements(ls);
    assert forall x | x in ws[1..] :: x in Elements(ws) && x != ws[0];
  }

  lemma {:induction false} InsertAllKeepsParting(root: Option<Node>, ws: seq<WindowId>, a: WindowId, b: WindowId)
    requires root.Some? && a in Leaves(root.value) && b in Leaves(root.value) && a != b
    requires NoDup(Leaves(root.value) + ws)
    ensures InsertAll(root, ws).Some?
    ensures PartingOf(InsertAll(root, ws).value, a, b) == PartingOf(root.value, a, b)
    decreases |ws|
  {
    if ws != [] {
      NoDupConcat(Leaves(root.value), ws);
      assert ws[0] in Elements(ws);
      assert forall v :: v in Leaves(root.value) <==> v in Elements(Leaves(root.value));
      InsertLeaves(root.value, ws[0], 0);
      InsertKeepsParting(root.value, ws[0], 0, a, b);
      var root' := InsertTree(root, ws[0]);
      assert Leaves(root'.value) + ws[1..] == Leaves(root.value) + ws;
      InsertAllKeepsParting(root', ws[1..], a, b);
    }
  }

  // ------------------------------------------------------------ main theorems

  /**
   * Leaf order after a sync: the old leaves that are still observed, in their old order,
   * then every newly observed window in ascending order.
   */
  lemma {:induction false} SyncedLeaves(root: Option<Node>, windows: set<WindowId>)
    ensures TreeLeaves(Synced(root, windows)) == Keep(TreeLeaves(root), windows) + Missing(root, windows)
    ensures Elements(TreeLeaves(Synced(root, windows))) == windows
    ensures NoDup(TreeLeaves(root)) ==> NoDup(TreeLeaves(Synced(root, windows)))
  {
    var old_ := TreeLeaves(root);
    var kept := Keep(old_, windows);
    var missing := Missing(root, windows);
    PrunedLeaves(root, windows);
    MissingIsNew(root, windows);
    InsertAllLeaves(PruneTree(root, Elements(old_) - windows), missing);
    assert forall w :: w in Elements(kept + missing) <==> w in kept || w in missing;
    if NoDup(old_) {
      KeepNoDup(old_, windows);
      NoDupConcat(kept, missing);
    }
  }

  lemma {:induction false} PrunedLeaves(root: Option<Node>, windows: set<WindowId>)
    ensures TreeLeaves(PruneTree(root, Elements(TreeLeaves(root)) - windows)) == Keep(TreeLeaves(root), windows)
  {
    if root.Some? {
      var old_ := Leaves(root.value);
      PruneLeaves(root.value, Elements(old_) - windows);
      KeepAgree(old_, Elements(old_) - (Elements(old_) - windows), windows);
    }
  }

  lemma {:induction false} MissingIsNew(root: Option<Node>, windows: set<WindowId>)
    ensures Elements(Missing(root, windows)) !! Elements(Keep(TreeLeaves(root), windows))
    ensures NoDup(Missing(root, windows))
    ensures forall w :: w in windows <==> w in Keep(TreeLeaves(root), windows) || w in Missing(root, windows)
  {
    var missing := Missing(root, windows);
    assert forall w :: w in missing <==> w in Elements(missing);
    assert forall w :: w in TreeLeaves(root) <==> w in Elements(TreeLeaves(root));
  }

  /** Two windows that both survive still part at a split with the same axis, ratio and sides. */
  lemma {:induction false} SyncedKeepsPartings(root: Option<Node>, windows: set<WindowId>, a: WindowId, b: WindowId)
    requires root.Some? && Distinct(root.value) && a != b
    requires a in Leaves(root.value) && b in Leaves(root.value) && a in windows && b in windows
    ensures Synced(root, windows).Some?
    ensures PartingOf(Synced(root, windows).value, a, b) == PartingOf(root.value, a, b)
  {
    var drop := Elements(Leaves(root.value)) - windows;
    PruneKeepsParting(root.value, drop, a, b);
    PrunedLeaves(root, windows);
    MissingIsNew(root, windows);
    KeepNoDup(Leaves(root.value), windows);
    NoDupConcat(Keep(Leaves(root.value), windows), Missing(root, windows));
    InsertAllKeepsParting(PruneTree(root, drop), Missing(root, windows), a, b);
  }

  /** The tree is left alone exactly when the window set already equals its leaves. */
  lemma {:induction false} SyncedUntouched(root: Option<Node>, windows: set<WindowId>)
    ensures Synced(root, windows) == root <==> windows == Elements(TreeLeaves(root))
  {
    if windows == Elements(TreeLeaves(root)) {
      assert Elements(TreeLeaves(root)) - windows == {};
      assert windows - Elements(TreeLeaves(root)) == {};
      assert Missing(root, windows) == [];
      if root.Some? {
        PruneNothing(root.value, Elements(TreeLeaves(root)) - windows);
      }
    }
    SyncedLeaves(root, windows);
  }

  lemma {:induction false} SyncedTwice(root: Option<Node>, windows: set<WindowId>)
    ensures Synced(Synced(root, windows), windows) == Synced(root, windows)
  {
    SyncedLeaves(root, windows);
    SyncedUntouched(Synced(root, windows), windows);
  }
}
