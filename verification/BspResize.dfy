/** Resizing one edge of a tiled window: which split moves, and where every edge ends up. */
module BspResize {
  import opened Basics
  import opened Geometry
  import opened BspNode

  /** A way down the tree; `true` goes to the left child. */
  type Path = seq<bool>

  function Child(n: Node, goLeft: bool): Node
    requires n.Branch?
  {
    if goLeft then n.left else n.right
  }

  function ChildArea(n: Node, goLeft: bool, area: Rect, gap: real): Rect
    requires n.Branch?
  {
    var (first, second) := Split(area, gap, n.axis, n.ratio);
    if goLeft then first else second
  }

  predicate IsPath(n: Node, p: Path) {
    p == [] || (n.Branch? && IsPath(Child(n, p[0]), p[1..]))
  }

  function NodeAt(n: Node, p: Path): Node
    requires IsPath(n, p)
  {
    if p == [] then n else NodeAt(Child(n, p[0]), p[1..])
  }

  function AreaAt(n: Node, p: Path, area: Rect, gap: real): Rect
    requires IsPath(n, p)
  {
    if p == [] then area else AreaAt(Child(n, p[0]), p[1..], ChildArea(n, p[0], area, gap), gap)
  }

  function PathTo(n: Node, w: WindowId): (p: Path)
    requires Contains(n, w)
    ensures IsPath(n, p) && NodeAt(n, p) == Leaf(w)
  {
    match n
    case Leaf(_) => []
    case Branch(_, _, l, r) =>
      if Contains(l, w) then [true] + PathTo(l, w) else [false] + PathTo(r, w)
  }

  /** The frame a window gets. */
  function FrameOf(n: Node, w: WindowId, area: Rect, gap: real): Rect
    requires Contains(n, w)
  {
    AreaAt(n, PathTo(n, w), area, gap)
  }

  /** The placement list gives every leaf its frame. */
  lemma {:induction false} PlacementIsFrame(n: Node, area: Rect, gap: real, i: nat)
    requires Distinct(n) && i < |Leaves(n)|
    ensures Placements(n, area, gap)[i] == Placement(Leaves(n)[i], FrameOf(n, Leaves(n)[i], area, gap))
    decreases n
  {
    hide Split;
    if n.Branch? {
      DistinctParts(n);
      var w := Leaves(n)[i];
      if i < |Leaves(n.left)| {
        PlacementIsFrame(n.left, ChildArea(n, true, area, gap), gap, i);
        assert w in Elements(Leaves(n.left));
        assert PathTo(n, w)[1..] == PathTo(n.left, w);
      } else {
        PlacementIsFrame(n.right, ChildArea(n, false, area, gap), gap, i - |Leaves(n.left)|);
        assert w in Elements(Leaves(n.right));
        assert forall v :: v in Leaves(n.left) <==> v in Elements(Leaves(n.left));
        assert PathTo(n, w)[1..] == PathTo(n.right, w);
      }
    }
  }

  function WithRatioAt(n: Node, p: Path, ratio: real): Node
    requires IsPath(n, p) && NodeAt(n, p).Branch?
  {
    if p == [] then n.(ratio := ratio)
    else if p[0] then n.(left := WithRatioAt(n.left, p[1..], ratio))
    else n.(right := WithRatioAt(n.right, p[1..], ratio))
  }

  function LeavesBefore(n: Node, p: Path): nat
    requires IsPath(n, p)
  {
    if p == [] then 0
    else (if p[0] then 0 else |Leaves(n.left)|) + LeavesBefore(Child(n, p[0]), p[1..])
  }

  lemma {:induction false} PrefixIsPath(n: Node, p: Path, k: nat)
    requires IsPath(n, p) && k <= |p|
    ensures IsPath(n, p[..k])
    ensures k < |p| ==> NodeAt(n, p[..k]).Branch?
    decreases k
  {
    if k > 0 {
      PrefixIsPath(Child(n, p[0]), p[1..], k - 1);
      assert p[..k][1..] == p[1..][..k - 1];
    }
  }

  /** The first `k` steps from the root to `w`. */
  function Prefix(n: Node, w: WindowId, k: nat): (p: Path)
    requires Contains(n, w) && k < |PathTo(n, w)|
    ensures IsPath(n, p) && NodeAt(n, p).Branch?
  {
    PrefixIsPath(n, PathTo(n, w), k);
    PathTo(n, w)[..k]
  }

  /** The k-th split on the way from the root to `w`. */
  function SplitAbove(n: Node, w: WindowId, k: nat): (s: Node)
    requires Contains(n, w) && k < |PathTo(n, w)|
    ensures s.Branch?
  {
    NodeAt(n, Prefix(n, w, k))
  }

  /** What that split has to share out. */
  function SplitTotal(n: Node, w: WindowId, area: Rect, gap: real, k: nat): real
    requires Contains(n, w) && k < |PathTo(n, w)|
  {
    Total(AreaAt(n, Prefix(n, w, k), area, gap), gap, SplitAbove(n, w, k).axis)
  }

  /** The k-th split above `w` can take the resize: `edge` is its boundary and it has room. */
  predicate CanTake(n: Node, w: WindowId, edge: Direction, area: Rect, gap: real, k: nat)
    requires Contains(n, w)
  {
    && k < |PathTo(n, w)|
    && OnBoundary(SplitAbove(n, w, k).axis, PathTo(n, w)[k], edge)
    && SplitTotal(n, w, area, gap, k) > 0.0
  }

  /** The nearest one: no split closer to the window can. */
  ghost predicate Nearest(n: Node, w: WindowId, edge: Direction, area: Rect, gap: real, k: nat)
    requires Contains(n, w)
  {
    CanTake(n, w, edge, area, gap, k) && forall j: nat | k < j :: !CanTake(n, w, edge, area, gap, j)
  }

  /** The ratio a resize asks of the k-th split, before clamping. */
  function Asked(n: Node, w: WindowId, delta: real, area: Rect, gap: real, k: nat): real
    requires Contains(n, w) && k < |PathTo(n, w)| && SplitTotal(n, w, area, gap, k) > 0.0
  {
    var total := SplitTotal(n, w, area, gap, k);
    SplitAbove(n, w, k).ratio + if PathTo(n, w)[k] then delta / total else -delta / total
  }

  /** The splits above `w` in its child's subtree are those above it in the tree, one step on. */
  lemma {:induction false} BelowChild(n: Node, w: WindowId, area: Rect, gap: real, k: nat)
    requires n.Branch? && Contains(n, w)
    ensures var inLeft := Contains(n.left, w);
            var c, a := Child(n, inLeft), ChildArea(n, inLeft, area, gap);
            && PathTo(n, w) == [inLeft] + PathTo(c, w)
            && (k < |PathTo(c, w)| ==>
                  && Prefix(n, w, k + 1) == [inLeft] + Prefix(c, w, k)
                  && SplitAbove(n, w, k + 1) == SplitAbove(c, w, k)
                  && SplitTotal(n, w, area, gap, k + 1) == SplitTotal(c, w, a, gap, k)
                  && PathTo(n, w)[k + 1] == PathTo(c, w)[k])
  {
    var inLeft := Contains(n.left, w);
    var p, q := PathTo(n, w), PathTo(Child(n, inLeft), w);
    assert p == [inLeft] + q && p[1..] == q;
    if k < |q| {
      assert p[..k + 1] == [inLeft] + q[..k];
      assert Prefix(n, w, k + 1)[1..] == q[..k];
    }
  }

  lemma {:induction false} AtRoot(n: Node, w: WindowId, area: Rect, gap: real)
    requires n.Branch? && Contains(n, w)
    ensures PathTo(n, w) != [] && PathTo(n, w)[0] == Contains(n.left, w)
    ensures Prefix(n, w, 0) == [] && SplitAbove(n, w, 0) == n
    ensures SplitTotal(n, w, area, gap, 0) == Total(area, gap, n.axis)
  {
    assert PathTo(n, w)[..0] == [];
  }

  lemma {:induction false} CanTakeBelow(n: Node, w: WindowId, edge: Direction, area: Rect, gap: real)
    requires n.Branch? && Contains(n, w)
    ensures var inLeft := Contains(n.left, w);
            forall k: nat :: CanTake(n, w, edge, area, gap, k + 1) <==>
                             CanTake(Child(n, inLeft), w, edge, ChildArea(n, inLeft, area, gap), gap, k)
  {
    var inLeft := Contains(n.left, w);
    forall k: nat
      ensures CanTake(n, w, edge, area, gap, k + 1) <==>
              CanTake(Child(n, inLeft), w, edge, ChildArea(n, inLeft, area, gap), gap, k)
    {
      BelowChild(n, w, area, gap, k);
    }
  }

  /** Which split a resize moves: the nearest that can take it, or none. */
  lemma {:induction false} ResizeFindsNearest(n: Node, w: WindowId, edge: Direction, delta: real, area: Rect, gap: real)
    returns (k: nat)
    requires Contains(n, w)
    ensures var (n', changed) := ResizeEdge(n, w, edge, delta, area, gap);
            && (!changed ==> n' == n && forall j: nat :: !CanTake(n, w, edge, area, gap, j))
            && (changed ==>
                  && Nearest(n, w, edge, area, gap, k)
                  && n' == WithRatioAt(n, Prefix(n, w, k), ClampRatio(Asked(n, w, delta, area, gap, k))))
    decreases n
  {
    hide Split, Total, ClampRatio, Prefix, SplitAbove, SplitTotal, PathTo, Nearest;
    k := 0;
    if n.Branch? {
      var inLeft := Contains(n.left, w);
      var c, a := Child(n, inLeft), ChildArea(n, inLeft, area, gap);
      var j := ResizeFindsNearest(c, w, edge, delta, a, gap);
      if ResizeEdge(c, w, edge, delta, a, gap).1 {
        k := j + 1;
        NearestTakes(c, w, edge, a, gap, j);
        NearestAbove(n, w, edge, area, gap, j);
        BelowChild(n, w, area, gap, j);
      } else {
        NoneBelow(n, w, edge, area, gap);
        AtRoot(n, w, area, gap);
      }
    } else {
      LeafHasNoSplit(n, w);
    }
  }

  lemma NearestTakes(n: Node, w: WindowId, edge: Direction, area: Rect, gap: real, k: nat)
    requires Contains(n, w) && Nearest(n, w, edge, area, gap, k)
    ensures k < |PathTo(n, w)| && SplitTotal(n, w, area, gap, k) > 0.0
  {
    hide SplitTotal, PathTo;
  }

  /** The nearest split of the child's subtree is the nearest of the tree, one step on. */
  lemma {:induction false} NearestAbove(n: Node, w: WindowId, edge: Direction, area: Rect, gap: real, j: nat)
    requires n.Branch? && Contains(n, w)
    requires var inLeft := Contains(n.left, w); Nearest(Child(n, inLeft), w, edge, ChildArea(n, inLeft, area, gap), gap, j)
    ensures Nearest(n, w, edge, area, gap, j + 1)
  {
    hide CanTake, ChildArea, PathTo;
    var inLeft := Contains(n.left, w);
    CanTakeBelow(n, w, edge, area, gap);
    assert CanTake(n, w, edge, area, gap, j + 1);
    forall i: nat | j + 1 < i ensures !CanTake(n, w, edge, area, gap, i) {
      assert !CanTake(Child(n, inLeft), w, edge, ChildArea(n, inLeft, area, gap), gap, i - 1);
    }
  }

  ghost predicate NoneTakes(n: Node, w: WindowId, edge: Direction, area: Rect, gap: real)
    requires Contains(n, w)
  {
    forall i: nat :: !CanTake(n, w, edge, area, gap, i)
  }

  /** With no split for it in the child's subtree, only the root can take the resize. */
  lemma {:induction false} NoneBelow(n: Node, w: WindowId, edge: Direction, area: Rect, gap: real)
    requires n.Branch? && Contains(n, w)
    requires var inLeft := Contains(n.left, w); NoneTakes(Child(n, inLeft), w, edge, ChildArea(n, inLeft, area, gap), gap)
    ensures forall i: nat | 0 < i :: !CanTake(n, w, edge, area, gap, i)
    ensures CanTake(n, w, edge, area, gap, 0) ==> Nearest(n, w, edge, area, gap, 0)
  {
    hide CanTake, ChildArea, PathTo;
    var c, a := Child(n, Contains(n.left, w)), ChildArea(n, Contains(n.left, w), area, gap);
    assert NoneTakes(c, w, edge, a, gap);
    CanTakeBelow(n, w, edge, area, gap);
    forall i: nat | 0 < i ensures !CanTake(n, w, edge, area, gap, i) {
      assert !CanTake(c, w, edge, a, gap, i - 1);
    }
  }

  lemma LeafHasNoSplit(n: Node, w: WindowId)
    requires n.Leaf? && Contains(n, w)
    ensures PathTo(n, w) == []
  {
  }

  /**
   * Resizing changes exactly one ratio, the nearest split whose boundary is that edge and that
   * has room, to its clamped new value; without such a split it changes nothing.
   */
  lemma {:induction false} ResizeMovesNearest(n: Node, w: WindowId, edge: Direction, delta: real, area: Rect, gap: real, k: nat)
    requires Contains(n, w)
    ensures ResizeEdge(n, w, edge, delta, area, gap).1 <==> exists j: nat :: Nearest(n, w, edge, area, gap, j)
    ensures !ResizeEdge(n, w, edge, delta, area, gap).1 ==> ResizeEdge(n, w, edge, delta, area, gap).0 == n
    ensures Nearest(n, w, edge, area, gap, k) ==>
            ResizeEdge(n, w, edge, delta, area, gap).0
            == WithRatioAt(n, Prefix(n, w, k), ClampRatio(Asked(n, w, delta, area, gap, k)))
  {
    var j := ResizeFindsNearest(n, w, edge, delta, area, gap);
    if Nearest(n, w, edge, area, gap, k) && ResizeEdge(n, w, edge, delta, area, gap).1 {
      assert j == k;
    }
  }

  // ---------------------------------------------------------- what else moves

  ghost predicate RatiosInRange(n: Node) {
    n.Branch? ==> 0.1 <= n.ratio <= 0.9 && RatiosInRange(n.left) && RatiosInRange(n.right)
  }

  lemma {:induction false} WithRatioShape(n: Node, p: Path, ratio: real)
    requires IsPath(n, p) && NodeAt(n, p).Branch?
    ensures Leaves(WithRatioAt(n, p, ratio)) == Leaves(n)
    ensures RatiosInRange(n) && 0.1 <= ratio <= 0.9 ==> RatiosInRange(WithRatioAt(n, p, ratio))
    decreases p
  {
    if p != [] {
      WithRatioShape(Child(n, p[0]), p[1..], ratio);
    }
  }

  /** Frames outside a split's subtree do not depend on its ratio. */
  lemma {:induction false} WithRatioElsewhere(n: Node, p: Path, ratio: real, area: Rect, gap: real, i: nat)
    requires IsPath(n, p) && NodeAt(n, p).Branch? && i < |Leaves(n)|
    requires i < LeavesBefore(n, p) || LeavesBefore(n, p) + |Leaves(NodeAt(n, p))| <= i
    ensures |Placements(WithRatioAt(n, p, ratio), area, gap)| == |Leaves(n)|
    ensures Placements(WithRatioAt(n, p, ratio), area, gap)[i] == Placements(n, area, gap)[i]
    decreases p
  {
    hide Split;
    WithRatioShape(n, p, ratio);
    if p != [] {
      var (first, second) := Split(area, gap, n.axis, n.ratio);
      WithRatioShape(Child(n, p[0]), p[1..], ratio);
      if p[0] && i < |Leaves(n.left)| {
        WithRatioElsewhere(n.left, p[1..], ratio, first, gap, i);
      } else if !p[0] && |Leaves(n.left)| <= i {
        WithRatioElsewhere(n.right, p[1..], ratio, second, gap, i - |Leaves(n.left)|);
      }
    }
  }

  /** A resize keeps the windows and their order, keeps ratios in range, and moves nobody outside the split. */
  lemma {:induction false} ResizeIsLocal(n: Node, w: WindowId, edge: Direction, delta: real, area: Rect, gap: real)
    ensures var n' := ResizeEdge(n, w, edge, delta, area, gap).0;
            && Leaves(n') == Leaves(n)
            && (RatiosInRange(n) ==> RatiosInRange(n'))
            && (forall k: nat, i: nat | Contains(n, w) && Nearest(n, w, edge, area, gap, k) && i < |Leaves(n)|
                  && (i < LeavesBefore(n, Prefix(n, w, k))
                      || LeavesBefore(n, Prefix(n, w, k)) + |Leaves(SplitAbove(n, w, k))| <= i) ::
                  Placements(n', area, gap)[i] == Placements(n, area, gap)[i])
  {
    if Contains(n, w) {
      ResizeMovesNearest(n, w, edge, delta, area, gap, 0);
      forall k: nat | Nearest(n, w, edge, area, gap, k)
        ensures && Leaves(ResizeEdge(n, w, edge, delta, area, gap).0) == Leaves(n)
                && (RatiosInRange(n) ==> RatiosInRange(ResizeEdge(n, w, edge, delta, area, gap).0))
      {
        ResizeMovesNearest(n, w, edge, delta, area, gap, k);
        WithRatioShape(n, Prefix(n, w, k), ClampRatio(Asked(n, w, delta, area, gap, k)));
      }
      forall k: nat, i: nat | Nearest(n, w, edge, area, gap, k) && i < |Leaves(n)|
                  && (i < LeavesBefore(n, Prefix(n, w, k))
                      || LeavesBefore(n, Prefix(n, w, k)) + |Leaves(SplitAbove(n, w, k))| <= i)
        ensures |Placements(ResizeEdge(n, w, edge, delta, area, gap).0, area, gap)| == |Leaves(n)|
        ensures Placements(ResizeEdge(n, w, edge, delta, area, gap).0, area, gap)[i] == Placements(n, area, gap)[i]
      {
        ResizeMovesNearest(n, w, edge, delta, area, gap, k);
        WithRatioElsewhere(n, Prefix(n, w, k), ClampRatio(Asked(n, w, delta, area, gap, k)), area, gap, i);
      }
    } else {
      ResizeOfStranger(n, w, edge, delta, area, gap);
    }
  }

  lemma ResizeOfStranger(n: Node, w: WindowId, edge: Direction, delta: real, area: Rect, gap: real)
    requires !Contains(n, w)
    ensures ResizeEdge(n, w, edge, delta, area, gap) == (n, false)
  {
  }

  // ------------------------------------------------- how far the edge travels

  /** The position of one edge of a frame, measured outward. */
  function Outward(edge: Direction, f: Rect): real {
    match edge
    case East => f.Right()
    case West => -f.x
    case South => f.Bottom()
    case North => -f.y
  }

  /** Every split above `w` has something to share out. */
  ghost predicate RoomAbove(n: Node, w: WindowId, area: Rect, gap: real)
    requires Contains(n, w)
  {
    n.Branch? ==>
      var inLeft := Contains(n.left, w);
      Total(area, gap, n.axis) > 0.0 && RoomAbove(Child(n, inLeft), w, ChildArea(n, inLeft, area, gap), gap)
  }

  lemma {:induction false} FrameBelow(n: Node, w: WindowId, area: Rect, gap: real)
    requires n.Branch? && Contains(n, w)
    ensures var inLeft := Contains(n.left, w);
            FrameOf(n, w, area, gap) == FrameOf(Child(n, inLeft), w, ChildArea(n, inLeft, area, gap), gap)
  {
    var inLeft := Contains(n.left, w);
    assert PathTo(n, w)[1..] == PathTo(Child(n, inLeft), w);
  }

  lemma LeafFrame(n: Node, w: WindowId, area: Rect, gap: real)
    requires n.Leaf? && Contains(n, w)
    ensures FrameOf(n, w, area, gap) == area
  {
  }

  /** A child keeps every edge of its area but the split's own boundary. */
  lemma {:induction false} ChildKeepsEdge(n: Node, inLeft: bool, edge: Direction, area: Rect, gap: real)
    requires n.Branch? && Total(area, gap, n.axis) >= 0.0 && !OnBoundary(n.axis, inLeft, edge)
    ensures Outward(edge, ChildArea(n, inLeft, area, gap)) == Outward(edge, area)
  {
    SplitFits(area, gap, n.axis, n.ratio);
  }

  lemma {:induction false} EdgeFollows(n: Node, w: WindowId, edge: Direction, area: Rect, gap: real)
    requires Contains(n, w) && RoomAbove(n, w, area, gap)
    requires forall k: nat :: !CanTake(n, w, edge, area, gap, k)
    ensures Outward(edge, FrameOf(n, w, area, gap)) == Outward(edge, area)
    decreases n
  {
    hide Split, Outward, FrameOf, PathTo, Prefix, SplitAbove, SplitTotal;
    if n.Branch? {
      var inLeft := Contains(n.left, w);
      var c, a := Child(n, inLeft), ChildArea(n, inLeft, area, gap);
      AtRoot(n, w, area, gap);
      CanTakeBelow(n, w, edge, area, gap);
      assert !CanTake(n, w, edge, area, gap, 0);
      forall k: nat ensures !CanTake(c, w, edge, a, gap, k) {
        assert !CanTake(n, w, edge, area, gap, k + 1);
      }
      EdgeFollows(c, w, edge, a, gap);
      ChildKeepsEdge(n, inLeft, edge, area, gap);
      FrameBelow(n, w, area, gap);
    } else {
      LeafFrame(n, w, area, gap);
    }
  }

  /** What a change of ratio amounts to on the axis. */
  function Shift(before: real, after: real, total: real): real {
    (after - before) * total
  }

  /** Moving a split's own ratio moves its boundary by the change times what it shares out. */
  lemma {:induction false} BoundaryMoves(n: Node, ratio: real, edge: Direction, inLeft: bool, area: Rect, gap: real)
    requires n.Branch? && Total(area, gap, n.axis) > 0.0 && OnBoundary(n.axis, inLeft, edge)
    requires 0.1 <= n.ratio <= 0.9 && 0.1 <= ratio <= 0.9
    ensures var moved := Shift(n.ratio, ratio, Total(area, gap, n.axis));
            Outward(edge, ChildArea(n.(ratio := ratio), inLeft, area, gap))
            == Outward(edge, ChildArea(n, inLeft, area, gap)) + if inLeft then moved else -moved
  {
    var total := Total(area, gap, n.axis);
    SplitFits(area, gap, n.axis, n.ratio);
    SplitFits(area, gap, n.axis, ratio);
    assert total * ratio - total * n.ratio == (ratio - n.ratio) * total;
  }

  /** The nearest split is the root: the window's edge lies on its boundary, before and after. */
  lemma {:induction false} RootEdgeTravels(n: Node, w: WindowId, edge: Direction, ratio: real, area: Rect, gap: real)
    requires n.Branch? && Contains(n, w) && Nearest(n, w, edge, area, gap, 0)
    requires RoomAbove(n, w, area, gap) && RoomAbove(n.(ratio := ratio), w, area, gap)
    requires 0.1 <= n.ratio <= 0.9 && 0.1 <= ratio <= 0.9
    ensures var moved := Shift(n.ratio, ratio, Total(area, gap, n.axis));
            Outward(edge, FrameOf(n.(ratio := ratio), w, area, gap))
            == Outward(edge, FrameOf(n, w, area, gap)) + if Contains(n.left, w) then moved else -moved
  {
    hide Split, Outward, FrameOf, PathTo, Prefix, SplitAbove, SplitTotal, ChildArea;
    var n' := n.(ratio := ratio);
    var inLeft := Contains(n.left, w);
    var c, a, a' := Child(n, inLeft), ChildArea(n, inLeft, area, gap), ChildArea(n', inLeft, area, gap);
    AtRoot(n, w, area, gap);
    FrameBelow(n, w, area, gap);
    FrameBelow(n', w, area, gap);
    CanTakeBelow(n, w, edge, area, gap);
    forall j: nat ensures !CanTake(c, w, edge, a, gap, j) {
      assert !CanTake(n, w, edge, area, gap, j + 1);
    }
    EdgeFollows(c, w, edge, a, gap);
    NoBoundaryAnywhere(c, w, edge, a, a', gap);
    EdgeFollows(c, w, edge, a', gap);
    BoundaryMoves(n, ratio, edge, inLeft, area, gap);
  }

  lemma {:induction false} NearestBelow(n: Node, w: WindowId, edge: Direction, area: Rect, gap: real, k: nat)
    requires n.Branch? && Contains(n, w) && Nearest(n, w, edge, area, gap, k + 1)
    ensures var inLeft := Contains(n.left, w);
            Nearest(Child(n, inLeft), w, edge, ChildArea(n, inLeft, area, gap), gap, k)
  {
    var inLeft := Contains(n.left, w);
    var c, a := Child(n, inLeft), ChildArea(n, inLeft, area, gap);
    BelowChild(n, w, area, gap, k);
    forall j: nat | k < j ensures !CanTake(c, w, edge, a, gap, j) {
      BelowChild(n, w, area, gap, j);
      assert !CanTake(n, w, edge, area, gap, j + 1);
    }
  }

  /** The distance the window's own edge travels, outward, when its nearest split is re-set. */
  lemma {:induction false} EdgeTravels(n: Node, w: WindowId, edge: Direction, ratio: real, area: Rect, gap: real, k: nat)
    requires Contains(n, w) && Nearest(n, w, edge, area, gap, k) && RoomAbove(n, w, area, gap)
    requires RatiosInRange(n) && 0.1 <= ratio <= 0.9
    requires var n' := WithRatioAt(n, Prefix(n, w, k), ratio);
             Contains(n', w) && RoomAbove(n', w, area, gap)
    ensures var n' := WithRatioAt(n, Prefix(n, w, k), ratio);
            var moved := Shift(SplitAbove(n, w, k).ratio, ratio, SplitTotal(n, w, area, gap, k));
            Outward(edge, FrameOf(n', w, area, gap))
            == Outward(edge, FrameOf(n, w, area, gap)) + if PathTo(n, w)[k] then moved else -moved
    decreases n
  {
    hide Split, Outward, FrameOf, PathTo, Prefix, SplitAbove, SplitTotal, ChildArea, Total, Shift;
    if n.Leaf? {
      LeafHasNoSplit(n, w);
    } else if k == 0 {
      AtRoot(n, w, area, gap);
      RootEdgeTravels(n, w, edge, ratio, area, gap);
    } else {
      var inLeft := Contains(n.left, w);
      var c, a := Child(n, inLeft), ChildArea(n, inLeft, area, gap);
      var n' := WithRatioAt(n, Prefix(n, w, k), ratio);
      NearestBelow(n, w, edge, area, gap, k - 1);
      BelowChild(n, w, area, gap, k - 1);
      DescendWithRatio(n, inLeft, Prefix(c, w, k - 1), ratio);
      WithRatioShape(c, Prefix(c, w, k - 1), ratio);
      SameChildArea(n, n', inLeft, area, gap);
      FrameBelow(n, w, area, gap);
      FrameBelow(n', w, area, gap);
      EdgeTravels(c, w, edge, ratio, a, gap, k - 1);
    }
  }

  lemma SameChildArea(n: Node, m: Node, inLeft: bool, area: Rect, gap: real)
    requires n.Branch? && m.Branch? && n.axis == m.axis && n.ratio == m.ratio
    ensures ChildArea(n, inLeft, area, gap) == ChildArea(m, inLeft, area, gap)
  {
  }

  lemma {:induction false} DescendWithRatio(n: Node, inLeft: bool, p: Path, ratio: real)
    requires n.Branch? && IsPath(Child(n, inLeft), p) && NodeAt(Child(n, inLeft), p).Branch?
    ensures IsPath(n, [inLeft] + p) && NodeAt(n, [inLeft] + p).Branch?
    ensures WithRatioAt(n, [inLeft] + p, ratio) ==
            if inLeft then n.(left := WithRatioAt(n.left, p, ratio))
            else n.(right := WithRatioAt(n.right, p, ratio))
  {
    assert ([inLeft] + p)[1..] == p;
  }

  /** With room everywhere, whether a split can take the resize does not depend on the area. */
  lemma {:induction false} NoBoundaryAnywhere(n: Node, w: WindowId, edge: Direction, a: Rect, b: Rect, gap: real)
    requires Contains(n, w) && RoomAbove(n, w, a, gap) && RoomAbove(n, w, b, gap)
    requires forall k: nat :: !CanTake(n, w, edge, a, gap, k)
    ensures forall k: nat :: !CanTake(n, w, edge, b, gap, k)
    decreases n
  {
    hide Split, PathTo, Prefix, SplitAbove, SplitTotal;
    if n.Branch? {
      var inLeft := Contains(n.left, w);
      var c, ca, cb := Child(n, inLeft), ChildArea(n, inLeft, a, gap), ChildArea(n, inLeft, b, gap);
      AtRoot(n, w, a, gap);
      AtRoot(n, w, b, gap);
      CanTakeBelow(n, w, edge, a, gap);
      CanTakeBelow(n, w, edge, b, gap);
      assert !CanTake(n, w, edge, a, gap, 0);
      forall k: nat ensures !CanTake(c, w, edge, ca, gap, k) {
        assert !CanTake(n, w, edge, a, gap, k + 1);
      }
      NoBoundaryAnywhere(c, w, edge, ca, cb, gap);
      forall k: nat ensures !CanTake(n, w, edge, b, gap, k) {
        if k > 0 {
          assert !CanTake(c, w, edge, cb, gap, k - 1);
          assert CanTake(n, w, edge, b, gap, (k - 1) + 1) <==> CanTake(c, w, edge, cb, gap, k - 1);
        }
      }
    } else {
      LeafHasNoSplit(n, w);
    }
  }

  /**
   * The edge the user drags follows the request: with room on the window's path before and
   * after, it moves outward by exactly `delta` if and only if the clamp does not bind.
   */
  lemma {:induction false} ResizeMovesEdge(n: Node, w: WindowId, edge: Direction, delta: real, area: Rect, gap: real, k: nat)
    requires Contains(n, w) && Nearest(n, w, edge, area, gap, k)
    requires RatiosInRange(n) && RoomAbove(n, w, area, gap)
    requires var n' := ResizeEdge(n, w, edge, delta, area, gap).0;
             Contains(n', w) && RoomAbove(n', w, area, gap)
    ensures var n' := ResizeEdge(n, w, edge, delta, area, gap).0;
            var moved := Outward(edge, FrameOf(n', w, area, gap)) - Outward(edge, FrameOf(n, w, area, gap));
            var asked := Asked(n, w, delta, area, gap, k);
            && (moved == delta <==> 0.1 <= asked <= 0.9)
            && (delta >= 0.0 ==> 0.0 <= moved <= delta)
            && (delta <= 0.0 ==> delta <= moved <= 0.0)
  {
    hide Split, Outward, FrameOf, PathTo, Prefix, SplitAbove, SplitTotal, RoomAbove, ResizeEdge, Shift;
    ResizeMovesNearest(n, w, edge, delta, area, gap, k);
    var asked := Asked(n, w, delta, area, gap, k);
    EdgeTravels(n, w, edge, ClampRatio(asked), area, gap, k);
    RatioAbove(n, w, k);
    Travelled(SplitAbove(n, w, k).ratio, ClampRatio(asked), asked, SplitTotal(n, w, area, gap, k), delta, PathTo(n, w)[k]);
  }

  lemma {:induction false} RatioAbove(n: Node, w: WindowId, k: nat)
    requires Contains(n, w) && k < |PathTo(n, w)| && RatiosInRange(n)
    ensures 0.1 <= SplitAbove(n, w, k).ratio <= 0.9
  {
    RatioAt(n, Prefix(n, w, k));
  }

  lemma {:induction false} RatioAt(n: Node, p: Path)
    requires IsPath(n, p) && NodeAt(n, p).Branch? && RatiosInRange(n)
    ensures 0.1 <= NodeAt(n, p).ratio <= 0.9
    decreases p
  {
    if p != [] {
      RatioAt(Child(n, p[0]), p[1..]);
    }
  }

  /** Clamping cuts a move short without reversing it. */
  lemma {:induction false} Travelled(ratio: real, clamped: real, asked: real, total: real, delta: real, inLeft: bool)
    requires total > 0.0 && 0.1 <= ratio <= 0.9 && clamped == ClampRatio(asked)
    requires asked == ratio + if inLeft then delta / total else -delta / total
    ensures var change := Shift(ratio, clamped, total);
            var moved := if inLeft then change else -change;
            && (moved == delta <==> 0.1 <= asked <= 0.9)
            && (delta >= 0.0 ==> 0.0 <= moved <= delta)
            && (delta <= 0.0 ==> delta <= moved <= 0.0)
  {
    var wanted := if inLeft then delta else -delta;
    assert (asked - ratio) * total == wanted by {
      assert (wanted / total) * total == wanted;
    }
    assert (asked - ratio) * total == (asked - clamped) * total + (clamped - ratio) * total;
    if asked > 0.9 {
      SameSign(asked - clamped, total);
      SameSign(clamped - ratio, total);
    } else if asked < 0.1 {
      SameSign(clamped - asked, total);
      SameSign(ratio - clamped, total);
    }
  }

  lemma SameSign(v: real, total: real)
    requires v >= 0.0 && total > 0.0
    ensures v * total >= 0.0 && -v * total <= 0.0 && (v > 0.0 ==> v * total > 0.0)
  {
  }
}
