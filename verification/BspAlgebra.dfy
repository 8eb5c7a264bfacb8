/** The tree commands: swap, warp, mirror, rotate and what each does to order and frames. */
module BspAlgebra {
  import opened Basics
  import opened Geometry
  import opened BspNode
  import opened BspGeometry
  import opened BspResize

  // --------------------------------------------------------------------- swap

  function Exchanged(w: WindowId, a: WindowId, b: WindowId): WindowId {
    if w == a then b else if w == b then a else w
  }

  lemma {:induction false} SwapPlacements(n: Node, a: WindowId, b: WindowId, area: Rect, gap: real, i: nat)
    requires i < |Leaves(n)|
    ensures |Leaves(Swap(n, a, b))| == |Leaves(n)|
    ensures Leaves(Swap(n, a, b))[i] == Exchanged(Leaves(n)[i], a, b)
    ensures Placements(Swap(n, a, b), area, gap)[i]
            == Placement(Exchanged(Leaves(n)[i], a, b), Placements(n, area, gap)[i].frame)
    decreases n
  {
    hide Split;
    if n.Branch? {
      var (first, second) := Split(area, gap, n.axis, n.ratio);
      SwapSize(n.left, a, b);
      SwapSize(n.right, a, b);
      if i < |Leaves(n.left)| {
        SwapPlacements(n.left, a, b, first, gap, i);
      } else {
        SwapPlacements(n.right, a, b, second, gap, i - |Leaves(n.left)|);
      }
    }
  }

  lemma SwapSize(n: Node, a: WindowId, b: WindowId)
    ensures |Leaves(Swap(n, a, b))| == |Leaves(n)|
  {
  }

  lemma SwapTwice(n: Node, a: WindowId, b: WindowId)
    ensures Swap(Swap(n, a, b), a, b) == n
  {
  }

  lemma {:induction false} SwapDistinct(n: Node, a: WindowId, b: WindowId)
    requires Distinct(n)
    ensures Distinct(Swap(n, a, b))
  {
    var area := Rect(0.0, 0.0, 0.0, 0.0);
    SwapSize(n, a, b);
    forall i, j | 0 <= i < j < |Leaves(n)| ensures Leaves(Swap(n, a, b))[i] != Leaves(Swap(n, a, b))[j] {
      SwapPlacements(n, a, b, area, 0.0, i);
      SwapPlacements(n, a, b, area, 0.0, j);
    }
  }

  /** Swapping two windows exchanges their two frames and leaves every other window where it was. */
  lemma {:induction false} SwapExchangesFrames(n: Node, a: WindowId, b: WindowId, w: WindowId, area: Rect, gap: real)
    requires Distinct(n) && Contains(n, a) && Contains(n, b) && Contains(n, w)
    ensures Contains(Swap(n, a, b), Exchanged(w, a, b))
    ensures FrameOf(Swap(n, a, b), Exchanged(w, a, b), area, gap) == FrameOf(n, w, area, gap)
  {
    var i :| 0 <= i < |Leaves(n)| && Leaves(n)[i] == w;
    SwapPlacements(n, a, b, area, gap, i);
    SwapDistinct(n, a, b);
    PlacementIsFrame(n, area, gap, i);
    PlacementIsFrame(Swap(n, a, b), area, gap, i);
  }

  // --------------------------------------------------------------------- warp

  /** `s` with `w` put immediately before or after the first `target`. */
  function Beside(s: seq<WindowId>, target: WindowId, w: WindowId, before: bool): seq<WindowId> {
    if s == [] then []
    else if s[0] != target then [s[0]] + Beside(s[1..], target, w, before)
    else if before then [w] + s
    else [target, w] + s[1..]
  }

  lemma {:induction false} BesideLeft(a: seq<WindowId>, b: seq<WindowId>, target: WindowId, w: WindowId, before: bool)
    requires target in a
    ensures Beside(a + b, target, w, before) == Beside(a, target, w, before) + b
  {
    assert a + b == [a[0]] + (a[1..] + b);
    if a[0] != target {
      BesideLeft(a[1..], b, target, w, before);
    }
  }

  lemma {:induction false} BesideRight(a: seq<WindowId>, b: seq<WindowId>, target: WindowId, w: WindowId, before: bool)
    requires target !in a
    ensures Beside(a + b, target, w, before) == a + Beside(b, target, w, before)
  {
    if a == [] {
      assert a + b == b;
    } else {
      assert a + b == [a[0]] + (a[1..] + b);
      BesideRight(a[1..], b, target, w, before);
    }
  }

  lemma {:induction false} InsertSiblingLeaves(n: Node, w: WindowId, target: WindowId, before: bool, depth: nat)
    requires Contains(n, target)
    ensures Leaves(InsertSibling(n, w, target, before, depth)) == Beside(Leaves(n), target, w, before)
    decreases n
  {
    match n
    case Leaf(_) =>
      assert Leaves(n)[1..] == [];
    case Branch(_, _, l, r) =>
      if Contains(l, target) {
        InsertSiblingLeaves(l, w, target, before, depth + 1);
        BesideLeft(Leaves(l), Leaves(r), target, w, before);
      } else {
        InsertSiblingLeaves(r, w, target, before, depth + 1);
        BesideRight(Leaves(l), Leaves(r), target, w, before);
      }
  }

  lemma {:induction false} RemoveLeaves(n: Node, w: WindowId)
    ensures TreeLeaves(Remove(n, w)) == Keep(Leaves(n), Elements(Leaves(n)) - {w})
  {
    var keep := Elements(Leaves(n)) - {w};
    if n.Branch? {
      RemoveLeaves(n.left, w);
      RemoveLeaves(n.right, w);
      KeepAppend(Leaves(n.left), Leaves(n.right), keep);
      KeepAgree(Leaves(n.left), keep, Elements(Leaves(n.left)) - {w});
      KeepAgree(Leaves(n.right), keep, Elements(Leaves(n.right)) - {w});
    }
  }

  /** The tree a warp builds: `w` leaves its place, if it had one, and joins `target`. */
  function Warped(n: Node, w: WindowId, target: WindowId, before: bool): Option<Node> {
    var rest := if Contains(n, w) then Remove(n, w) else Some(n);
    if rest.None? then None else Some(InsertSibling(rest.value, w, target, before, 0))
  }

  /** Warping yields the old order without `w`, with `w` put right beside `target`. */
  lemma {:induction false} WarpedLeaves(n: Node, w: WindowId, target: WindowId, before: bool)
    requires w != target && Contains(n, target)
    ensures Warped(n, w, target, before).Some?
    ensures Leaves(Warped(n, w, target, before).value)
            == Beside(Keep(Leaves(n), Elements(Leaves(n)) - {w}), target, w, before)
  {
    RemoveLeaves(n, w);
    if !Contains(n, w) {
      KeepAll(Leaves(n), Elements(Leaves(n)) - {w});
    }
    var rest := if Contains(n, w) then Remove(n, w) else Some(n);
    assert target in Keep(Leaves(n), Elements(Leaves(n)) - {w});
    InsertSiblingLeaves(rest.value, w, target, before, 0);
  }

  // ------------------------------------------------------------------- rotate

  /** Placing the rotated tree in the transposed area transposes every frame. */
  lemma {:induction false} RotateTransposes(n: Node, area: Rect, gap: real)
    ensures Leaves(Rotate(n)) == Leaves(n)
    ensures forall i | 0 <= i < |Leaves(n)| ::
              Placements(Rotate(n), area.Transposed(), gap)[i]
              == Placement(Leaves(n)[i], Placements(n, area, gap)[i].frame.Transposed())
  {
    if n.Branch? {
      var (first, second) := Split(area, gap, n.axis, n.ratio);
      SplitTransposes(area, gap, n.axis, n.ratio);
      RotateTransposes(n.left, first, gap);
      RotateTransposes(n.right, second, gap);
    }
  }

  lemma SplitTransposes(area: Rect, gap: real, axis: Axis, ratio: real)
    ensures var (first, second) := Split(area, gap, axis, ratio);
            Split(area.Transposed(), gap, axis.Other(), ratio) == (first.Transposed(), second.Transposed())
  {
  }

  // ------------------------------------------------------------------- mirror

  function Reversed<T>(s: seq<T>): (r: seq<T>)
    ensures |r| == |s| && forall i | 0 <= i < |s| :: r[i] == s[|s| - 1 - i]
  {
    if s == [] then [] else Reversed(s[1..]) + [s[0]]
  }

  lemma ReversedAppend<T>(a: seq<T>, b: seq<T>)
    ensures Reversed(a + b) == Reversed(b) + Reversed(a)
  {
  }

  lemma {:induction false} MirrorLeaves(n: Node)
    ensures Leaves(Mirror(n)) == Reversed(Leaves(n))
  {
    if n.Branch? {
      MirrorLeaves(n.left);
      MirrorLeaves(n.right);
      ReversedAppend(Leaves(n.left), Leaves(n.right));
    }
  }

  lemma MirrorTwice(n: Node)
    ensures Mirror(Mirror(n)) == n
  {
  }

  ghost predicate AllHalves(n: Node) {
    n.Branch? ==> n.ratio == 0.5 && AllHalves(n.left) && AllHalves(n.right)
  }

  /** Every split of the tree shares out a positive length. */
  ghost predicate Roomy(n: Node, area: Rect, gap: real) {
    n.Branch? ==>
      var (first, second) := Split(area, gap, n.axis, n.ratio);
      Total(area, gap, n.axis) > 0.0 && Roomy(n.left, first, gap) && Roomy(n.right, second, gap)
  }

  /** The mirrored tree shows leaf `i` where half a turn about the area's centre takes its frame. */
  ghost predicate TurnsAt(n: Node, area: Rect, gap: real, i: nat)
    requires i < |Leaves(n)|
  {
    var m := |Leaves(n)|;
    && |Placements(Mirror(n), area, gap)| == m
    && Placements(Mirror(n), area, gap)[m - 1 - i]
       == Placement(Leaves(n)[i], Placements(n, area, gap)[i].frame.Turned(area))
  }

  /** The mirrored tree shows the old picture turned by 180 degrees. */
  ghost predicate MirrorTurns(n: Node, area: Rect, gap: real) {
    forall i: nat | i < |Leaves(n)| :: TurnsAt(n, area, gap, i)
  }

  ghost function Shifted(f: Rect, dx: real, dy: real): Rect { f.(x := f.x + dx, y := f.y + dy) }

  lemma {:induction false} PlacementsShift(n: Node, area: Rect, gap: real, dx: real, dy: real, i: nat)
    requires i < |Leaves(n)|
    ensures Placements(n, Shifted(area, dx, dy), gap)[i].frame == Shifted(Placements(n, area, gap)[i].frame, dx, dy)
    ensures Placements(n, Shifted(area, dx, dy), gap)[i].window == Placements(n, area, gap)[i].window
    decreases n
  {
    if n.Branch? {
      var (first, second) := Split(area, gap, n.axis, n.ratio);
      SplitShifts(area, gap, n.axis, n.ratio, dx, dy);
      hide Split;
      if i < |Leaves(n.left)| {
        PlacementsShift(n.left, first, gap, dx, dy, i);
      } else {
        PlacementsShift(n.right, second, gap, dx, dy, i - |Leaves(n.left)|);
      }
    }
  }

  lemma SplitShifts(area: Rect, gap: real, axis: Axis, ratio: real, dx: real, dy: real)
    ensures var (first, second) := Split(area, gap, axis, ratio);
            Split(Shifted(area, dx, dy), gap, axis, ratio) == (Shifted(first, dx, dy), Shifted(second, dx, dy))
  {
  }

  /** How far apart the parts of an even split lie. */
  ghost function Stride(area: Rect, gap: real, axis: Axis, along: Axis): real {
    if along == axis then FirstShare(Total(area, gap, axis), 0.5) + gap else 0.0
  }

  /** An even split makes two equal parts, and turning within the area is turning within a part, shifted. */
  lemma {:induction false} EvenSplit(area: Rect, gap: real, axis: Axis, q: Rect)
    requires Total(area, gap, axis) >= 0.0
    ensures var (first, second) := Split(area, gap, axis, 0.5);
            var dx, dy := Stride(area, gap, axis, Vertical), Stride(area, gap, axis, Horizontal);
            && second == Shifted(first, dx, dy) && first == Shifted(second, -dx, -dy)
            && q.Turned(area) == Shifted(q.Turned(first), dx, dy)
            && q.Turned(area) == Shifted(q.Turned(second), -dx, -dy)
  {
    SplitFits(area, gap, axis, 0.5);
  }

  lemma {:induction false} SameShift(a: Rect, b: Rect, dx: real, dy: real)
    ensures Shifted(a, dx, dy) == Shifted(b, dx, dy) <==> a == b
  {
    assert Shifted(Shifted(a, dx, dy), -dx, -dy) == a;
    assert Shifted(Shifted(b, dx, dy), -dx, -dy) == b;
  }

  lemma {:induction false} MirrorParts(n: Node, area: Rect, gap: real)
    requires n.Branch?
    ensures var (first, second) := Split(area, gap, n.axis, n.ratio);
            && Placements(n, area, gap) == Placements(n.left, first, gap) + Placements(n.right, second, gap)
            && Placements(Mirror(n), area, gap)
               == Placements(Mirror(n.right), first, gap) + Placements(Mirror(n.left), second, gap)
            && |Placements(Mirror(n.left), second, gap)| == |Placements(Mirror(n.left), first, gap)| == |Leaves(n.left)|
            && |Placements(Mirror(n.right), first, gap)| == |Placements(Mirror(n.right), second, gap)| == |Leaves(n.right)|
  {
    MirrorLeaves(n.left);
    MirrorLeaves(n.right);
  }

  lemma {:induction false} EvenTurnsLeft(n: Node, area: Rect, gap: real, i: nat)
    requires n.Branch? && n.ratio == 0.5 && Total(area, gap, n.axis) >= 0.0 && i < |Leaves(n.left)|
    ensures TurnsAt(n, area, gap, i) <==> TurnsAt(n.left, Split(area, gap, n.axis, n.ratio).0, gap, i)
  {
    hide Split, Rect.Turned, Stride, Shifted;
    var (first, second) := Split(area, gap, n.axis, n.ratio);
    var dx, dy := Stride(area, gap, n.axis, Vertical), Stride(area, gap, n.axis, Horizontal);
    var k := |Leaves(n.left)| - 1 - i;
    var f := Placements(n.left, first, gap)[i].frame;
    EvenSplit(area, gap, n.axis, f);
    MirrorParts(n, area, gap);
    PlacementsShift(Mirror(n.left), first, gap, dx, dy, k);
    SameShift(Placements(Mirror(n.left), first, gap)[k].frame, f.Turned(first), dx, dy);
  }

  lemma {:induction false} EvenTurnsRight(n: Node, area: Rect, gap: real, i: nat)
    requires n.Branch? && n.ratio == 0.5 && Total(area, gap, n.axis) >= 0.0 && i < |Leaves(n.right)|
    ensures TurnsAt(n, area, gap, i + |Leaves(n.left)|)
            <==> TurnsAt(n.right, Split(area, gap, n.axis, n.ratio).1, gap, i)
  {
    hide Split, Rect.Turned, Stride, Shifted, Placements, Mirror;
    var (first, second) := Split(area, gap, n.axis, n.ratio);
    var dx, dy := Stride(area, gap, n.axis, Vertical), Stride(area, gap, n.axis, Horizontal);
    var k := |Leaves(n.right)| - 1 - i;
    var f := Placements(n.right, second, gap)[i].frame;
    EvenSplit(area, gap, n.axis, f);
    RightParts(n, area, gap, i);
    PlacementsShift(Mirror(n.right), second, gap, -dx, -dy, k);
    SameShift(Placements(Mirror(n.right), second, gap)[k].frame, f.Turned(second), -dx, -dy);
  }

  /** Where a leaf of the right part is listed, in the tree and in its mirror. */
  lemma {:induction false} RightParts(n: Node, area: Rect, gap: real, i: nat)
    requires n.Branch? && i < |Leaves(n.right)|
    ensures var (first, second) := Split(area, gap, n.axis, n.ratio);
            var l, r := |Leaves(n.left)|, |Leaves(n.right)|;
            && |Leaves(n)| == l + r && Leaves(n)[l + i] == Leaves(n.right)[i]
            && |Placements(n, area, gap)| == |Placements(Mirror(n), area, gap)| == l + r
            && |Placements(Mirror(n.right), second, gap)| == r && |Leaves(Mirror(n.right))| == r
            && Placements(n, area, gap)[l + i] == Placements(n.right, second, gap)[i]
            && Placements(Mirror(n), area, gap)[r - 1 - i] == Placements(Mirror(n.right), first, gap)[r - 1 - i]
            && Placements(Mirror(n.right), first, gap)[r - 1 - i].window == Placements(Mirror(n.right), second, gap)[r - 1 - i].window
  {
    hide Split;
    var (first, second) := Split(area, gap, n.axis, n.ratio);
    MirrorParts(n, area, gap);
    MirrorLeaves(n.right);
    SameWindows(Mirror(n.right), first, second, gap);
  }

  /** Which windows are placed, and in what order, does not depend on the area. */
  lemma {:induction false} SameWindows(n: Node, a: Rect, b: Rect, gap: real)
    ensures |Placements(n, a, gap)| == |Placements(n, b, gap)| == |Leaves(n)|
    ensures forall i | 0 <= i < |Leaves(n)| :: Placements(n, a, gap)[i].window == Placements(n, b, gap)[i].window == Leaves(n)[i]
  {
    PlacementsListLeaves(n, a, gap);
    PlacementsListLeaves(n, b, gap);
  }

  /** For an even split, the whole turns exactly when both parts do. */
  lemma {:induction false} EvenTurns(n: Node, area: Rect, gap: real)
    requires n.Branch? && n.ratio == 0.5 && Total(area, gap, n.axis) >= 0.0
    ensures var (first, second) := Split(area, gap, n.axis, n.ratio);
            MirrorTurns(n, area, gap) <==> MirrorTurns(n.left, first, gap) && MirrorTurns(n.right, second, gap)
  {
    hide Split, TurnsAt;
    var (first, second) := Split(area, gap, n.axis, n.ratio);
    var l := |Leaves(n.left)|;
    if MirrorTurns(n, area, gap) {
      forall i: nat | i < l ensures TurnsAt(n.left, first, gap, i) {
        EvenTurnsLeft(n, area, gap, i);
      }
      forall i: nat | i < |Leaves(n.right)| ensures TurnsAt(n.right, second, gap, i) {
        EvenTurnsRight(n, area, gap, i);
        assert TurnsAt(n, area, gap, i + l);
      }
    }
    if MirrorTurns(n.left, first, gap) && MirrorTurns(n.right, second, gap) {
      forall i: nat | i < |Leaves(n)| ensures TurnsAt(n, area, gap, i) {
        if i < l {
          EvenTurnsLeft(n, area, gap, i);
        } else {
          EvenTurnsRight(n, area, gap, i - l);
        }
      }
    }
  }

  lemma {:induction false} FirstCorner(n: Node, area: Rect, gap: real)
    ensures Placements(n, area, gap)[0].frame.x == area.x && Placements(n, area, gap)[0].frame.y == area.y
  {
    if n.Branch? {
      FirstCorner(n.left, Split(area, gap, n.axis, n.ratio).0, gap);
    }
  }

  lemma {:induction false} LastCorner(n: Node, area: Rect, gap: real)
    requires Roomy(n, area, gap)
    ensures var last := Placements(n, area, gap)[|Leaves(n)| - 1].frame;
            last.Right() == area.Right() && last.Bottom() == area.Bottom()
  {
    if n.Branch? {
      SplitFits(area, gap, n.axis, n.ratio);
      LastCorner(n.right, Split(area, gap, n.axis, n.ratio).1, gap);
    }
  }

  /** An uneven split shows: the left part's last window does not land where the turn takes it. */
  lemma {:induction false} TurningEvensRoot(n: Node, area: Rect, gap: real)
    requires n.Branch? && Roomy(n, area, gap) && MirrorTurns(n, area, gap)
    ensures n.ratio == 0.5
  {
    var (first, second) := Split(area, gap, n.axis, n.ratio);
    var l, r := |Leaves(n.left)|, |Leaves(n.right)|;
    MirrorLeaves(n.left);
    MirrorLeaves(n.right);
    LastCorner(n.left, first, gap);
    FirstCorner(Mirror(n.left), second, gap);
    assert TurnsAt(n, area, gap, l - 1);
    assert Placements(n, area, gap)[l - 1] == Placements(n.left, first, gap)[l - 1];
    assert Placements(Mirror(n), area, gap)[r] == Placements(Mirror(n.left), second, gap)[0];
    UnevenSplit(area, gap, n.axis, n.ratio);
  }

  lemma {:induction false} UnevenSplit(area: Rect, gap: real, axis: Axis, ratio: real)
    requires Total(area, gap, axis) > 0.0
    ensures var (first, second) := Split(area, gap, axis, ratio);
            (axis == Vertical && second.x == area.x + area.Right() - first.Right())
            || (axis == Horizontal && second.y == area.y + area.Bottom() - first.Bottom())
            ==> ratio == 0.5
  {
    SplitFits(area, gap, axis, ratio);
    var total, c := Total(area, gap, axis), ClampRatio(ratio);
    var share := FirstShare(total, ratio);
    if share + share == total {
      EvenShare(total, c);
    }
  }

  lemma {:induction false} EvenShare(total: real, c: real)
    requires total > 0.0 && 0.1 <= c <= 0.9 && Times(total, c) + Times(total, c) == total
    ensures c == 0.5
  {
    assert total * (2.0 * c - 1.0) == 0.0;
  }

  /**
   * Mirroring keeps the ratios, so on a tree with room everywhere it is a half turn of the whole
   * picture if and only if every split is even.
   */
  lemma {:induction false} MirrorTurnsIffHalves(n: Node, area: Rect, gap: real)
    requires Roomy(n, area, gap)
    ensures MirrorTurns(n, area, gap) <==> AllHalves(n)
  {
    if n.Branch? {
      hide MirrorTurns, Split;
      var (first, second) := Split(area, gap, n.axis, n.ratio);
      MirrorTurnsIffHalves(n.left, first, gap);
      MirrorTurnsIffHalves(n.right, second, gap);
      if MirrorTurns(n, area, gap) {
        TurningEvensRoot(n, area, gap);
      }
      if n.ratio == 0.5 {
        EvenTurns(n, area, gap);
      }
    } else {
      assert TurnsAt(n, area, gap, 0);
    }
  }
}
