/** The built-in layouts that keep no state between passes. */
module StatelessLayout {
  import opened Basics
  import opened Geometry
  import opened BspNode
  import opened BspGeometry
  import opened BspAlgebra

  datatype LayoutKind = Bsp | Stack | Master | Columns | Monocle | Float

  datatype LayoutError = NegativeSpacing | InvalidSplitRatio | AreaTooSmall

  datatype Computed = Placed(placements: seq<Placement>) | Refused(error: LayoutError)

  /** The area left after padding, if any is. */
  function Inset(area: Rect, padding: real): Option<Rect> {
    var w, h := area.width - padding * 2.0, area.height - padding * 2.0;
    if w <= 0.0 || h <= 0.0 then None else Some(Rect(area.x + padding, area.y + padding, w, h))
  }

  function Overlay(windows: seq<WindowId>, area: Rect): seq<Placement> {
    seq(|windows|, i requires 0 <= i < |windows| => Placement(windows[i], area))
  }

  /** The length each of `count` windows gets along a side. */
  function Even(side: real, gap: real, count: nat): real
    requires count > 0
  {
    AtLeastZero((side - gap * (count - 1) as real) / count as real)
  }

  /** `i` times a length. */
  function Offset(i: nat, step: real): real { i as real * step }

  function ColumnsOf(windows: seq<WindowId>, area: Rect, gap: real): (ps: seq<Placement>)
    requires windows != []
  {
    var width := Even(area.width, gap, |windows|);
    seq(|windows|, i requires 0 <= i < |windows| =>
      Placement(windows[i], Rect(area.x + Offset(i, width + gap), area.y, width, area.height)))
  }

  function MasterOf(windows: seq<WindowId>, area: Rect, gap: real, ratio: real): seq<Placement>
    requires windows != [] && 0.1 <= ratio <= 0.9
  {
    if |windows| == 1 then Overlay(windows, area)
    else
      var masterWidth := Times(area.width - gap, ratio);
      var stackWidth := area.width - gap - masterWidth;
      var stack := windows[1..];
      var height := Even(area.height, gap, |stack|);
      [Placement(windows[0], area.(width := masterWidth))]
      + seq(|stack|, i requires 0 <= i < |stack| =>
          Placement(stack[i], Rect(area.x + masterWidth + gap, area.y + Offset(i, height + gap), stackWidth, height)))
  }

  function Halved(area: Rect, gap: real, vertical: bool): (Rect, Rect) {
    if vertical then
      var first := AtLeastZero((area.width - gap) / 2.0);
      var second := AtLeastZero(area.width - gap - first);
      (area.(width := first), Rect(area.x + first + gap, area.y, second, area.height))
    else
      var first := AtLeastZero((area.height - gap) / 2.0);
      var second := AtLeastZero(area.height - gap - first);
      (area.(height := first), Rect(area.x, area.y + first + gap, area.width, second))
  }

  function Midpoint(windows: seq<WindowId>): nat { (|windows| + 1) / 2 }

  function BspOf(windows: seq<WindowId>, area: Rect, gap: real, vertical: bool): seq<Placement>
    decreases |windows|
  {
    if windows == [] then []
    else if |windows| == 1 then [Placement(windows[0], area)]
    else
      var (first, second) := Halved(area, gap, vertical);
      BspOf(windows[..Midpoint(windows)], first, gap, !vertical)
      + BspOf(windows[Midpoint(windows)..], second, gap, !vertical)
  }

  function Compute(kind: LayoutKind, area: Rect, windows: seq<WindowId>, gap: real, padding: real, ratio: real): Computed {
    if gap < 0.0 || padding < 0.0 then Refused(NegativeSpacing)
    else if !(0.1 <= ratio <= 0.9) then Refused(InvalidSplitRatio)
    else match Inset(area, padding)
      case None => Refused(AreaTooSmall)
      case Some(inner) =>
        if windows == [] then Placed([])
        else match kind
          case Bsp => Placed(BspOf(windows, inner, gap, true))
          case Stack => Placed(Overlay(windows, inner))
          case Monocle => Placed(Overlay(windows, inner))
          case Master => Placed(MasterOf(windows, inner, gap, ratio))
          case Columns => Placed(ColumnsOf(windows, inner, gap))
          case Float => Placed([])
  }

  // -------------------------------------------- the stateless and the persistent bsp

  /** The persistent tree with the same shape: halved in the middle, axes alternating, ratios even. */
  function BalancedTree(windows: seq<WindowId>, vertical: bool): (n: Node)
    requires windows != []
    ensures Leaves(n) == windows && AllHalves(n)
    decreases |windows|
  {
    if |windows| == 1 then Leaf(windows[0])
    else
      Branch(if vertical then Vertical else Horizontal, 0.5,
             BalancedTree(windows[..Midpoint(windows)], !vertical),
             BalancedTree(windows[Midpoint(windows)..], !vertical))
  }

  lemma {:induction false} HalvedIsSplit(area: Rect, gap: real, vertical: bool)
    ensures Halved(area, gap, vertical) == Split(area, gap, if vertical then Vertical else Horizontal, 0.5)
  {
    var total := if vertical then area.width - gap else area.height - gap;
    assert total >= 0.0 ==> Times(total, 0.5) == total / 2.0;
  }

  /** For every area and gap, fitting or not, the stateless layout is the balanced tree's placements. */
  lemma {:induction false} BspIsBalancedTree(windows: seq<WindowId>, area: Rect, gap: real, vertical: bool)
    requires windows != []
    ensures BspOf(windows, area, gap, vertical) == Placements(BalancedTree(windows, vertical), area, gap)
    decreases |windows|
  {
    if |windows| > 1 {
      HalvedIsSplit(area, gap, vertical);
      var (first, second) := Halved(area, gap, vertical);
      BspIsBalancedTree(windows[..Midpoint(windows)], first, gap, !vertical);
      BspIsBalancedTree(windows[Midpoint(windows)..], second, gap, !vertical);
    }
  }

  /** Axes alternate, ratios are even, and every left side holds as many windows as the right or one more. */
  ghost predicate EvenlyDivided(n: Node, vertical: bool) {
    n.Branch? ==>
      && n.axis == (if vertical then Vertical else Horizontal) && n.ratio == 0.5
      && |Leaves(n.right)| <= |Leaves(n.left)| <= |Leaves(n.right)| + 1
      && EvenlyDivided(n.left, !vertical) && EvenlyDivided(n.right, !vertical)
  }

  /** Every such tree is placed as the stateless layout places its windows, so there is but one for each list of windows. */
  lemma {:induction false} BspIsEvenlyDivided(n: Node, area: Rect, gap: real, vertical: bool)
    requires EvenlyDivided(n, vertical)
    ensures BspOf(Leaves(n), area, gap, vertical) == Placements(n, area, gap)
    ensures n == BalancedTree(Leaves(n), vertical)
    decreases n
  {
    if n.Branch? {
      var ws, l, r := Leaves(n), Leaves(n.left), Leaves(n.right);
      assert ws == l + r && ws[..|l|] == l && ws[|l|..] == r && Midpoint(ws) == |l|;
      HalvedIsSplit(area, gap, vertical);
      var (first, second) := Halved(area, gap, vertical);
      BspIsEvenlyDivided(n.left, first, gap, !vertical);
      BspIsEvenlyDivided(n.right, second, gap, !vertical);
    }
  }

  /** And there is one. */
  lemma {:induction false} BalancedIsEvenlyDivided(windows: seq<WindowId>, vertical: bool)
    requires windows != []
    ensures EvenlyDivided(BalancedTree(windows, vertical), vertical)
    decreases |windows|
  {
    if |windows| > 1 {
      BalancedIsEvenlyDivided(windows[..Midpoint(windows)], !vertical);
      BalancedIsEvenlyDivided(windows[Midpoint(windows)..], !vertical);
    }
  }

  // ------------------------------------------------------- columns and master

  ghost predicate ListsWindows(ps: seq<Placement>, windows: seq<WindowId>) {
    |ps| == |windows| && forall i | 0 <= i < |windows| :: ps[i].window == windows[i]
  }

  /** Side by side from the left edge of `area` to its right edge, one gap between neighbours. */
  ghost predicate FillsAcross(ps: seq<Placement>, area: Rect, gap: real) {
    && ps != []
    && ps[0].frame.x == area.x && ps[|ps| - 1].frame.Right() == area.Right()
    && (forall i | 0 <= i < |ps| ::
          ps[i].frame.y == area.y && ps[i].frame.height == area.height && ps[i].frame.width >= 0.0)
    && (forall i | 0 <= i < |ps| - 1 :: ps[i].frame.Right() + gap == ps[i + 1].frame.x)
  }

  ghost predicate FillsDown(ps: seq<Placement>, area: Rect, gap: real) {
    && ps != []
    && ps[0].frame.y == area.y && ps[|ps| - 1].frame.Bottom() == area.Bottom()
    && (forall i | 0 <= i < |ps| ::
          ps[i].frame.x == area.x && ps[i].frame.width == area.width && ps[i].frame.height >= 0.0)
    && (forall i | 0 <= i < |ps| - 1 :: ps[i].frame.Bottom() + gap == ps[i + 1].frame.y)
  }

  /** A run of `count` equal lengths reaches the far end exactly when the gaps alone fit the side. */
  lemma {:induction false} EvenReaches(side: real, gap: real, count: nat)
    requires count > 0
    ensures var each := Even(side, gap, count);
            each >= 0.0 && (Offset(count - 1, each + gap) + each == side <==> Offset(count - 1, gap) <= side)
  {
    var n, each := count as real, Even(side, gap, count);
    var left := side - gap * (n - 1.0);
    assert (n - 1.0) * (each + gap) + each == n * each + gap * (n - 1.0);
    if left >= 0.0 {
      assert each == left / n && n * (left / n) == left;
    } else {
      assert left / n < 0.0 by {
        assert n * (left / n) == left;
      }
      assert each == 0.0 && n * each == 0.0;
    }
  }

  lemma OffsetSteps(step: real, i: nat)
    ensures Offset(0, step) == 0.0 && Offset(i + 1, step) == Offset(i, step) + step
  {
  }

  /** Columns place every window once, in order, and partition the area exactly when the gaps fit. */
  lemma {:induction false} ColumnsPartition(windows: seq<WindowId>, area: Rect, gap: real)
    requires windows != []
    ensures ListsWindows(ColumnsOf(windows, area, gap), windows)
    ensures FillsAcross(ColumnsOf(windows, area, gap), area, gap) <==> Offset(|windows| - 1, gap) <= area.width
  {
    EvenReaches(area.width, gap, |windows|);
    hide Even, Offset;
    var ps := ColumnsOf(windows, area, gap);
    var width := Even(area.width, gap, |windows|);
    OffsetSteps(width + gap, 0);
    forall i | 0 <= i < |ps| - 1 ensures ps[i].frame.Right() + gap == ps[i + 1].frame.x {
      OffsetSteps(width + gap, i);
    }
  }

  /** Windows stacked down a column, as the master layout stacks all but the first. */
  lemma {:induction false} StackFills(stack: seq<WindowId>, ps: seq<Placement>, rest: Rect, gap: real)
    requires stack != [] && |ps| == |stack|
    requires forall i | 0 <= i < |stack| ::
               var height := Even(rest.height, gap, |stack|);
               ps[i] == Placement(stack[i], Rect(rest.x, rest.y + Offset(i, height + gap), rest.width, height))
    ensures FillsDown(ps, rest, gap) <==> Offset(|stack| - 1, gap) <= rest.height
  {
    EvenReaches(rest.height, gap, |stack|);
    hide Even, Offset;
    var height := Even(rest.height, gap, |stack|);
    OffsetSteps(height + gap, 0);
    forall i | 0 <= i < |ps| - 1 ensures ps[i].frame.Bottom() + gap == ps[i + 1].frame.y {
      OffsetSteps(height + gap, i);
    }
  }

  /** What the master leaves of the area, past one gap. Too narrow an area leaves less than nothing. */
  function Beyond(master: Rect, area: Rect, gap: real): Rect {
    Rect(master.Right() + gap, area.y, area.Right() - master.Right() - gap, area.height)
  }

  /** A full-height window on the left and a stack in what is left, covering the area but for the gaps. */
  ghost predicate FillsBeside(ps: seq<Placement>, area: Rect, gap: real) {
    && |ps| > 1
    && ps[0].frame == area.(width := ps[0].frame.width) && ps[0].frame.width >= 0.0
    && Beyond(ps[0].frame, area, gap).width >= 0.0
    && FillsDown(ps[1..], Beyond(ps[0].frame, area, gap), gap)
  }

  lemma {:induction false} MasterShape(windows: seq<WindowId>, area: Rect, gap: real, ratio: real)
    requires |windows| > 1 && 0.1 <= ratio <= 0.9
    ensures var ps := MasterOf(windows, area, gap, ratio);
            var master := area.(width := Times(area.width - gap, ratio));
            var rest, height := Beyond(master, area, gap), Even(area.height, gap, |windows[1..]|);
            && |ps| == |windows| && ps[0] == Placement(windows[0], master)
            && forall i | 0 <= i < |windows[1..]| :: ps[1..][i]
                 == Placement(windows[1..][i], Rect(rest.x, rest.y + Offset(i, height + gap), rest.width, height))
  {
    hide Even, Offset, Times;
  }

  /** Sharing out a width in a ratio gives two widths exactly when there is one to share. */
  lemma {:induction false} SharesWidth(total: real, ratio: real)
    requires 0.1 <= ratio <= 0.9
    ensures Times(total, ratio) >= 0.0 && total - Times(total, ratio) >= 0.0 <==> total >= 0.0
  {
    if total < 0.0 {
      assert total * ratio < 0.0;
    }
  }

  /** Beside a master of some width, a stack fills what is left exactly when both fit. */
  lemma {:induction false} BesideFills(ps: seq<Placement>, stack: seq<WindowId>, area: Rect, gap: real)
    requires stack != [] && |ps| == |stack| + 1 && ps[0].frame == area.(width := ps[0].frame.width)
    requires var rest, height := Beyond(ps[0].frame, area, gap), Even(area.height, gap, |stack|);
             forall i | 0 <= i < |stack| ::
               ps[1..][i] == Placement(stack[i], Rect(rest.x, rest.y + Offset(i, height + gap), rest.width, height))
    ensures FillsBeside(ps, area, gap) <==>
              ps[0].frame.width >= 0.0 && area.width - gap - ps[0].frame.width >= 0.0 && Offset(|stack| - 1, gap) <= area.height
  {
    hide Even, Offset, FillsDown;
    StackFills(stack, ps[1..], Beyond(ps[0].frame, area, gap), gap);
  }

  lemma {:induction false} MasterLists(windows: seq<WindowId>, area: Rect, gap: real, ratio: real)
    requires |windows| > 1 && 0.1 <= ratio <= 0.9
    ensures var ps := MasterOf(windows, area, gap, ratio);
            ListsWindows(ps, windows) && ps[0].frame == area.(width := Times(area.width - gap, ratio))
  {
    MasterShape(windows, area, gap, ratio);
    hide Even, Offset, Times, MasterOf, Beyond;
    var ps := MasterOf(windows, area, gap, ratio);
    forall i | 0 <= i < |windows| ensures ps[i].window == windows[i] {
      if i > 0 {
        assert ps[1..][i - 1].window == windows[1..][i - 1];
      }
    }
  }

  /**
   * The master takes its share of the width and the stack the rest: every window once, in order, and
   * together they partition the area exactly when the one gap across and the stack's gaps down fit.
   */
  lemma {:induction false} MasterPartition(windows: seq<WindowId>, area: Rect, gap: real, ratio: real)
    requires |windows| > 1 && 0.1 <= ratio <= 0.9
    ensures var ps := MasterOf(windows, area, gap, ratio);
            && ListsWindows(ps, windows) && ps[0].frame.width == Times(area.width - gap, ratio)
            && (FillsBeside(ps, area, gap) <==> gap <= area.width && Offset(|windows| - 2, gap) <= area.height)
  {
    hide *;
    MasterLists(windows, area, gap, ratio);
    MasterShape(windows, area, gap, ratio);
    SharesWidth(area.width - gap, ratio);
    assert |windows[1..]| == |windows| - 1;
    BesideFills(MasterOf(windows, area, gap, ratio), windows[1..], area, gap);
  }

  // ------------------------------------------------------------------- by kind

  /** All of them, each on the whole area. */
  ghost predicate AllOver(ps: seq<Placement>, windows: seq<WindowId>, area: Rect) {
    ListsWindows(ps, windows) && forall i | 0 <= i < |ps| :: ps[i].frame == area
  }

  /**
   * With sound settings and room, stack and monocle give every window the whole area within the
   * padding, float places none, and bsp is the balanced tree, cut upright first; with none the
   * request is refused, and the first unsound setting says why.
   */
  lemma {:induction false} WhatKindsDo(kind: LayoutKind, area: Rect, windows: seq<WindowId>, gap: real, padding: real, ratio: real)
    ensures var c := Compute(kind, area, windows, gap, padding, ratio);
            var inner := Rect(area.x + padding, area.y + padding, area.width - padding * 2.0, area.height - padding * 2.0);
            if gap < 0.0 || padding < 0.0 then c == Refused(NegativeSpacing)
            else if ratio < 0.1 || ratio > 0.9 then c == Refused(InvalidSplitRatio)
            else if inner.width <= 0.0 || inner.height <= 0.0 then c == Refused(AreaTooSmall)
            else
              && c.Placed? && (windows == [] ==> c.placements == [])
              && (kind == Stack || kind == Monocle ==> AllOver(c.placements, windows, inner))
              && (kind == Float ==> c.placements == [])
              && (kind == Bsp && windows != [] ==> c.placements == Placements(BalancedTree(windows, true), inner, gap))
              && (kind == Columns && windows != [] ==> c.placements == ColumnsOf(windows, inner, gap))
              && (kind == Master && windows != [] ==> c.placements == MasterOf(windows, inner, gap, ratio))
  {
    hide ColumnsOf, MasterOf, BspOf, Placements, BalancedTree, Overlay, AllOver;
    InsetMeans(area, padding);
    if windows != [] && Inset(area, padding).Some? {
      var inner := Inset(area, padding).value;
      BspIsBalancedTree(windows, inner, gap, true);
      OverlayIsAllOver(windows, inner);
    } else {
      OverlayIsAllOver([], area);
      NothingAllOver(area, padding);
    }
  }

  lemma InsetMeans(area: Rect, padding: real)
    ensures var inner := Rect(area.x + padding, area.y + padding, area.width - padding * 2.0, area.height - padding * 2.0);
            Inset(area, padding) == if inner.width <= 0.0 || inner.height <= 0.0 then None else Some(inner)
  {
  }

  lemma OverlayIsAllOver(windows: seq<WindowId>, area: Rect)
    ensures AllOver(Overlay(windows, area), windows, area)
  {
  }

  lemma NothingAllOver(area: Rect, padding: real)
    ensures forall inner: Rect :: AllOver([], [], inner)
  {
  }
}
