/** Where a tiling tree puts its windows: containment, separation and conservation of area. */
module BspGeometry {
  import opened Basics
  import opened Geometry
  import opened BspNode

  function Height(n: Node): nat {
    match n
    case Leaf(_) => 0
    case Branch(_, _, l, r) => 1 + if Height(l) < Height(r) then Height(r) else Height(l)
  }

  /** Every split has room for its gap. */
  ghost predicate Fits(n: Node, area: Rect, gap: real) {
    n.Branch? ==>
      var (first, second) := Split(area, gap, n.axis, n.ratio);
      Total(area, gap, n.axis) >= 0.0 && Fits(n.left, first, gap) && Fits(n.right, second, gap)
  }

  /** The frames of a placement list, summed. */
  ghost function CoveredArea(ps: seq<Placement>): real {
    if ps == [] then 0.0 else ps[0].frame.Area() + CoveredArea(ps[1..])
  }

  /** The strip a split leaves between its children. */
  ghost function Strip(area: Rect, gap: real, axis: Axis): real {
    gap * if axis == Vertical then area.height else area.width
  }

  /** One strip as wide as the gap for every split, across the area that split divides. */
  ghost function GapArea(n: Node, area: Rect, gap: real): real {
    match n
    case Leaf(_) => 0.0
    case Branch(axis, ratio, l, r) =>
      var (first, second) := Split(area, gap, axis, ratio);
      Strip(area, gap, axis) + GapArea(l, first, gap) + GapArea(r, second, gap)
  }

  ghost predicate AllInside(ps: seq<Placement>, area: Rect) {
    forall i | 0 <= i < |ps| :: ps[i].frame.NonNegative() && ps[i].frame.Inside(area)
  }

  ghost predicate AllApart(ps: seq<Placement>, gap: real) {
    forall i, j | 0 <= i < j < |ps| :: ps[i].frame.Apart(ps[j].frame, gap)
  }

  /** What a tiling promises: nothing outside, everything a gap apart, no area lost. */
  ghost predicate Tiles(n: Node, area: Rect, gap: real) {
    var ps := Placements(n, area, gap);
    && AllInside(ps, area)
    && AllApart(ps, gap)
    && CoveredArea(ps) + GapArea(n, area, gap) == area.Area()
  }

  lemma {:induction false} PlacementsListLeaves(n: Node, area: Rect, gap: real)
    ensures |Placements(n, area, gap)| == |Leaves(n)|
    ensures forall i | 0 <= i < |Leaves(n)| :: Placements(n, area, gap)[i].window == Leaves(n)[i]
  {
    if n.Branch? {
      var (first, second) := Split(area, gap, n.axis, n.ratio);
      PlacementsListLeaves(n.left, first, gap);
      PlacementsListLeaves(n.right, second, gap);
    }
  }

  lemma {:induction false} CoveredAppend(a: seq<Placement>, b: seq<Placement>)
    ensures CoveredArea(a + b) == CoveredArea(a) + CoveredArea(b)
  {
    if a == [] {
      assert a + b == b;
    } else {
      assert (a + b)[1..] == a[1..] + b;
      CoveredAppend(a[1..], b);
    }
  }

  /** Two tilings side by side with a gap between their areas tile what encloses both. */
  lemma {:induction false} JoinSpread(a: seq<Placement>, first: Rect, b: seq<Placement>, second: Rect, area: Rect, gap: real)
    requires AllInside(a, first) && AllApart(a, gap) && AllInside(b, second) && AllApart(b, gap)
    requires first.Inside(area) && second.Inside(area)
    requires first.Right() + gap <= second.x || first.Bottom() + gap <= second.y
    ensures AllInside(a + b, area) && AllApart(a + b, gap)
  {
    var ps := a + b;
    forall i, j | 0 <= i < j < |ps| ensures ps[i].frame.Apart(ps[j].frame, gap) {
      if j < |a| {
        assert ps[i] == a[i] && ps[j] == a[j];
      } else if |a| <= i {
        assert ps[i] == b[i - |a|] && ps[j] == b[j - |a|];
      } else {
        assert ps[i] == a[i] && ps[j] == b[j - |a|];
        assert a[i].frame.Inside(first) && b[j - |a|].frame.Inside(second);
      }
    }
  }

  /** Cutting a side into two lengths and a gap cuts the area the same way. */
  lemma CutArea(side: real, across: real, first: real, gap: real)
    ensures first * across + (side - gap - first) * across + gap * across == side * across
  {
  }

  lemma {:induction false} SplitConserves(area: Rect, gap: real, axis: Axis, ratio: real)
    requires Total(area, gap, axis) >= 0.0
    ensures var (first, second) := Split(area, gap, axis, ratio);
            first.Area() + second.Area() + Strip(area, gap, axis)
            == area.Area()
  {
    SplitFits(area, gap, axis, ratio);
    var share := FirstShare(Total(area, gap, axis), ratio);
    CutArea(area.width, area.height, share, gap);
    CutArea(area.height, area.width, share, gap);
  }

  lemma {:induction false} SplitSpreads(area: Rect, gap: real, axis: Axis, ratio: real)
    requires area.NonNegative() && gap >= 0.0 && Total(area, gap, axis) >= 0.0
    ensures var (first, second) := Split(area, gap, axis, ratio);
            && first.NonNegative() && second.NonNegative()
            && first.Inside(area) && second.Inside(area)
            && (first.Right() + gap <= second.x || first.Bottom() + gap <= second.y)
  {
    SplitFits(area, gap, axis, ratio);
  }

  lemma {:induction false} FitsSpreads(n: Node, area: Rect, gap: real)
    requires area.NonNegative() && gap >= 0.0 && Fits(n, area, gap)
    ensures AllInside(Placements(n, area, gap), area) && AllApart(Placements(n, area, gap), gap)
  {
    if n.Branch? {
      var (first, second) := Split(area, gap, n.axis, n.ratio);
      SplitSpreads(area, gap, n.axis, n.ratio);
      FitsSpreads(n.left, first, gap);
      FitsSpreads(n.right, second, gap);
      JoinSpread(Placements(n.left, first, gap), first, Placements(n.right, second, gap), second, area, gap);
    }
  }

  lemma {:induction false} LeafCovers(w: WindowId, area: Rect, gap: real)
    ensures CoveredArea(Placements(Leaf(w), area, gap)) == area.Area()
  {
    var p := Placement(w, area);
    assert Placements(Leaf(w), area, gap) == [p];
    assert CoveredArea([p]) == p.frame.Area() + CoveredArea([]);
  }

  lemma {:induction false} BranchCovers(n: Node, area: Rect, gap: real)
    requires n.Branch?
    ensures var (first, second) := Split(area, gap, n.axis, n.ratio);
            CoveredArea(Placements(n, area, gap)) ==
            CoveredArea(Placements(n.left, first, gap)) + CoveredArea(Placements(n.right, second, gap))
  {
    var (first, second) := Split(area, gap, n.axis, n.ratio);
    CoveredAppend(Placements(n.left, first, gap), Placements(n.right, second, gap));
  }

  lemma {:induction false} FitsConserves(n: Node, area: Rect, gap: real)
    requires Fits(n, area, gap)
    ensures CoveredArea(Placements(n, area, gap)) + GapArea(n, area, gap) == area.Area()
  {
    hide Rect.Area, Strip;
    if n.Branch? {
      var (first, second) := Split(area, gap, n.axis, n.ratio);
      FitsConserves(n.left, first, gap);
      FitsConserves(n.right, second, gap);
      BranchCovers(n, area, gap);
      SplitConserves(area, gap, n.axis, n.ratio);
    } else {
      LeafCovers(n.window, area, gap);
    }
  }

  /** A tree whose splits fit tiles its area: inside, a gap apart, and nothing lost. */
  lemma {:induction false} FitsTiles(n: Node, area: Rect, gap: real)
    requires area.NonNegative() && gap >= 0.0 && Fits(n, area, gap)
    ensures Tiles(n, area, gap)
  {
    FitsSpreads(n, area, gap);
    FitsConserves(n, area, gap);
  }

  // ------------------------------------------------- how much room is enough

  function Pow10(d: nat): nat
    ensures Pow10(d) >= 1
  {
    if d == 0 then 1 else 10 * Pow10(d - 1)
  }

  /** The side every tree of height `d` needs: gap * (10^d - 1) / 9. */
  function Enough(gap: real, d: nat): real {
    gap * ((Pow10(d) - 1) as real / 9.0)
  }

  lemma {:induction false} EnoughStep(gap: real, d: nat)
    ensures Enough(gap, 0) == 0.0
    ensures Enough(gap, d + 1) == gap + 10.0 * Enough(gap, d)
  {
    var p := Pow10(d) as real;
    assert Pow10(d + 1) as real == 10.0 * p;
    assert (10.0 * p - 1.0) / 9.0 == 1.0 + 10.0 * ((p - 1.0) / 9.0);
  }

  lemma {:induction false} EnoughNonNegative(gap: real, d: nat)
    requires gap >= 0.0
    ensures Enough(gap, d) >= 0.0
  {
    EnoughStep(gap, d);
    if d > 0 {
      EnoughNonNegative(gap, d - 1);
      EnoughStep(gap, d - 1);
    }
  }

  lemma {:induction false} EnoughFits(n: Node, area: Rect, gap: real, d: nat)
    requires gap >= 0.0 && Height(n) <= d
    requires area.width >= Enough(gap, d) && area.height >= Enough(gap, d)
    ensures Fits(n, area, gap)
  {
    if n.Branch? {
      EnoughStep(gap, d - 1);
      EnoughNonNegative(gap, d - 1);
      SplitFits(area, gap, n.axis, n.ratio);
      var (first, second) := Split(area, gap, n.axis, n.ratio);
      EnoughFits(n.left, first, gap, d - 1);
      EnoughFits(n.right, second, gap, d - 1);
    }
  }

  /** The hungriest tree: every split along one axis, the deep child always taking one tenth. */
  function Comb(axis: Axis, d: nat): (n: Node)
    ensures Height(n) == d
  {
    if d == 0 then Leaf(0) else Branch(axis, 0.1, Comb(axis, d - 1), Leaf(d))
  }

  ghost function Side(area: Rect, axis: Axis): real {
    if axis == Vertical then area.width else area.height
  }

  lemma {:induction false} OverflowExceeds(area: Rect, gap: real, axis: Axis)
    requires Total(area, gap, axis) < 0.0 && Side(area, axis.Other()) > 0.0
    ensures var (first, second) := Split(area, gap, axis, 0.1);
            && first.Area() == 0.0 && second.Area() == 0.0
            && Strip(area, gap, axis) > area.Area()
  {
    SplitOverflows(area, gap, axis, 0.1);
    assert (gap - Side(area, axis)) * Side(area, axis.Other()) > 0.0;
  }

  /** The deep child inherits the shortage. */
  lemma {:induction false} CombChild(area: Rect, gap: real, axis: Axis, d: nat)
    requires gap >= 0.0 && d > 0
    ensures var (first, second) := Split(area, gap, axis, 0.1);
            && Side(first, axis) >= 0.0 && Side(first, axis.Other()) == Side(area, axis.Other())
            && (Total(area, gap, axis) >= 0.0 && Side(area, axis) < Enough(gap, d) ==>
                  Side(first, axis) < Enough(gap, d - 1))
  {
    hide Enough;
    EnoughStep(gap, d - 1);
    if Total(area, gap, axis) >= 0.0 {
      SplitFits(area, gap, axis, 0.1);
    } else {
      SplitOverflows(area, gap, axis, 0.1);
    }
  }

  /** Short of room, the comb's frames and strips add up to more than the area. */
  lemma {:induction false} CombOverflows(axis: Axis, area: Rect, gap: real, d: nat)
    requires gap >= 0.0 && Side(area, axis) >= 0.0 && Side(area, axis.Other()) > 0.0
    ensures CoveredArea(Placements(Comb(axis, d), area, gap)) + GapArea(Comb(axis, d), area, gap) >= area.Area()
    ensures Side(area, axis) < Enough(gap, d) ==>
            CoveredArea(Placements(Comb(axis, d), area, gap)) + GapArea(Comb(axis, d), area, gap) > area.Area()
    decreases d
  {
    hide Rect.Area, Enough, Strip;
    var n := Comb(axis, d);
    if d == 0 {
      EnoughStep(gap, 0);
      LeafCovers(0, area, gap);
    } else {
      CombChild(area, gap, axis, d);
      var (first, second) := Split(area, gap, axis, 0.1);
      CombOverflows(axis, first, gap, d - 1);
      BranchCovers(n, area, gap);
      LeafCovers(d, second, gap);
      if Total(area, gap, axis) >= 0.0 {
        SplitConserves(area, gap, axis, 0.1);
      } else {
        OverflowExceeds(area, gap, axis);
      }
    }
  }

  /**
   * The room a tiling needs, exactly: every tree of height at most `d` tiles a (non-degenerate)
   * area if and only if both its sides are at least gap * (10^d - 1) / 9.
   */
  lemma {:induction false} TilesIffEnough(area: Rect, gap: real, d: nat)
    requires area.width > 0.0 && area.height > 0.0 && gap >= 0.0
    ensures (forall n: Node | Height(n) <= d :: Tiles(n, area, gap))
            <==> area.width >= Enough(gap, d) && area.height >= Enough(gap, d)
  {
    if area.width >= Enough(gap, d) && area.height >= Enough(gap, d) {
      forall n: Node | Height(n) <= d ensures Tiles(n, area, gap) {
        EnoughFits(n, area, gap, d);
        FitsTiles(n, area, gap);
      }
    } else {
      var axis := if area.width < Enough(gap, d) then Vertical else Horizontal;
      CombOverflows(axis, area, gap, d);
      assert !Tiles(Comb(axis, d), area, gap);
    }
  }
}
