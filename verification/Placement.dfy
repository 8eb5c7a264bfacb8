/** The reserved native order, reached on a platform that carries every MoveSpace out. */
module Placement {
  import opened Basics
  import opened Geometry
  import opened Observed
  import opened SpaceOrder
  import opened Lifecycle

  // ------------------------------------------------------------ native order

  function Before(view: View): (SpaceId, SpaceId) -> bool {
    (a, b) => a in view.spaces && b in view.spaces && BeforeInView(view, a, b)
  }

  function SpacesOn(view: View, d: DisplayId): set<SpaceId> {
    set x | x in view.spaces && view.spaces[x].display == d
  }

  lemma BeforeTotal(view: View, xs: set<SpaceId>)
    requires xs <= view.spaces.Keys
    ensures TotalOn(Before(view), xs)
  {
  }

  /** Every Space of a display, as Mission Control lists them. */
  ghost function Native(view: View, d: DisplayId): (q: seq<SpaceId>)
    ensures NoDup(q) && SortedBy(q, Before(view)) && Elements(q) == SpacesOn(view, d)
  {
    BeforeTotal(view, SpacesOn(view, d));
    SortedIsOrdered(SpacesOn(view, d), Before(view));
    Sorted(SpacesOn(view, d), Before(view))
  }

  lemma {:induction false} InsertSorts(view: View, x: SpaceId, q: seq<SpaceId>)
    requires x in view.spaces && (forall y | y in q :: y in view.spaces)
    requires SortedBy(q, Before(view)) && NoDup(q) && x !in q
    ensures var r := InsertByPosition(view, x, q); SortedBy(r, Before(view)) && NoDup(r) && forall y :: y in r <==> y == x || y in q
  {
    if q != [] && !BeforeInView(view, x, q[0]) {
      assert q == [q[0]] + q[1..];
      assert SortedBy(q[1..], Before(view)) && NoDup(q[1..]);
      InsertSorts(view, x, q[1..]);
      var r := InsertByPosition(view, x, q[1..]);
      HeadSorts(view, q[0], r);
    } else {
      HeadSorts(view, x, q);
    }
  }

  lemma HeadSorts(view: View, x: SpaceId, q: seq<SpaceId>)
    requires x in view.spaces && SortedBy(q, Before(view)) && NoDup(q) && x !in q && forall y | y in q :: Before(view)(x, y)
    ensures SortedBy([x] + q, Before(view)) && NoDup([x] + q)
  {
  }

  lemma {:induction false} ByPositionSorts(view: View, q: seq<SpaceId>)
    requires NoDup(q) && forall y | y in q :: y in view.spaces
    ensures var r := ByPosition(view, q); SortedBy(r, Before(view)) && NoDup(r) && forall y :: y in r <==> y in q
  {
    if q != [] {
      assert q == [q[0]] + q[1..] && NoDup(q[1..]) && q[0] !in q[1..];
      ByPositionSorts(view, q[1..]);
      InsertSorts(view, q[0], ByPosition(view, q[1..]));
    }
  }

  lemma {:induction false} ProjectedSorted(native: seq<SpaceId>, desired: seq<SpaceId>, le: (SpaceId, SpaceId) -> bool)
    requires SortedBy(native, le)
    ensures SortedBy(Projected(native, desired), le)
  {
    if native != [] {
      ProjectedSorted(native[1..], desired, le);
      ProjectedMembers(native[1..], desired);
      var p := Projected(native[1..], desired);
      forall y | y in p ensures le(native[0], y) {
        var i :| 0 <= i < |native[1..]| && native[1..][i] == y;
        assert native[i + 1] == y;
      }
    }
  }

  /** The engine's own sort of the reserved Spaces is the native list seen through the reservation. */
  lemma {:induction false} ByPositionIsProjection(view: View, d: DisplayId, q: seq<SpaceId>)
    requires NoDup(q) && forall y | y in q :: y in view.spaces && view.spaces[y].display == d
    ensures ByPosition(view, q) == Projected(Native(view, d), q)
    ensures forall y | y in q :: y in Native(view, d)
  {
    var p, b := Projected(Native(view, d), q), ByPosition(view, q);
    ProjectedSorted(Native(view, d), q, Before(view));
    ProjectedMembers(Native(view, d), q);
    ByPositionSorts(view, q);
    assert forall y :: y in Native(view, d) <==> y in Elements(Native(view, d));
    assert Elements(p) == Elements(q) == Elements(b);
    BeforeTotal(view, Elements(q));
    SortedUnique(p, Elements(q), Before(view));
    SortedUnique(b, Elements(q), Before(view));
  }

  // --------------------------------------------------------------- one pass

  lemma {:induction false} DesiredOnce(order: seq<SpaceId>, view: View, d: DisplayId)
    requires NoDup(order)
    ensures NoDup(DesiredOn(order, view, d))
    ensures forall x :: x in DesiredOn(order, view, d) <==> x in order && x in view.spaces && view.spaces[x].display == d
  {
    if order != [] {
      assert order == [order[0]] + order[1..] && NoDup(order[1..]) && order[0] !in order[1..];
      DesiredOnce(order[1..], view, d);
    }
  }

  /** The display shows its reserved Spaces in the reserved order. */
  predicate Matches(order: seq<SpaceId>, view: View, d: DisplayId) {
    DesiredObserved(order, view, d);
    ByPosition(view, DesiredOn(order, view, d)) == DesiredOn(order, view, d)
  }

  /** Corrections a display can still need. */
  ghost function BudgetOn(order: seq<SpaceId>, view: View, d: DisplayId): (b: int)
    requires NoDup(order)
    ensures 0 <= b && (b == 0 <==> Matches(order, view, d))
    ensures |DesiredOn(order, view, d)| <= 1 ==> b == 0
    ensures |DesiredOn(order, view, d)| >= 2 ==> b <= 2 * |DesiredOn(order, view, d)| - 3
  {
    var q := DesiredOn(order, view, d);
    DesiredOnce(order, view, d);
    ByPositionSorts(view, q);
    BudgetBounds(ByPosition(view, q), q);
    Budget(ByPosition(view, q), q)
  }

  predicate AllMatch(order: seq<SpaceId>, view: View) {
    forall d | d in OrderedDisplays(order, view) :: Matches(order, view, d)
  }

  /** The correction belongs to one display, and is the next step of that display's sorting. */
  predicate CorrectsOn(order: seq<SpaceId>, view: View, d: DisplayId, m: Move) {
    !Matches(order, view, d) && MoveOn(order, view, d) == Some(m)
  }

  ghost predicate Corrects(order: seq<SpaceId>, view: View, m: Move) {
    exists d :: d in OrderedDisplays(order, view) && CorrectsOn(order, view, d, m)
  }

  lemma {:induction false} FirstMoveCorrects(order: seq<SpaceId>, view: View, ds: seq<DisplayId>)
    ensures FirstMove(order, view, ds).None? <==> forall d | d in ds :: Matches(order, view, d)
    ensures FirstMove(order, view, ds).Some? ==> exists d :: d in ds && CorrectsOn(order, view, d, FirstMove(order, view, ds).value)
  {
    hide Matches, MoveOn;
    if ds != [] {
      FirstMoveCorrects(order, view, ds[1..]);
      assert ds == [ds[0]] + ds[1..];
      MismatchMoves(order, view, ds[0]);
      if MoveOn(order, view, ds[0]).Some? {
        assert ds[0] in ds && CorrectsOn(order, view, ds[0], FirstMove(order, view, ds).value);
      } else if FirstMove(order, view, ds).Some? {
        var d :| d in ds[1..] && CorrectsOn(order, view, d, FirstMove(order, view, ds).value);
        assert d in ds;
      }
    }
  }

  lemma MismatchMoves(order: seq<SpaceId>, view: View, d: DisplayId)
    ensures MoveOn(order, view, d).None? <==> Matches(order, view, d)
  {
    hide NextMove, ByPosition, DesiredOn;
    DesiredObserved(order, view, d);
    var q := DesiredOn(order, view, d);
    MoveWhenDifferent(ByPosition(view, q), q);
  }

  lemma MoveWhenDifferent(a: seq<SpaceId>, d: seq<SpaceId>)
    requires |a| == |d|
    ensures NextMove(a, d).None? <==> a == d
  {
  }

  /**
   * One pass: the reservation ends exactly when every display matches, the platform cannot reorder
   * or time is up; otherwise, once the retry time has come, one correction goes out.
   */
  lemma {:induction false} PassReleasesIffMatched(p: Reservation, view: View, canReorder: bool, now: Instant)
    ensures var (q, actions) := PlacementPass(p, view, canReorder, now);
            && (q == None <==> AllMatch(p.order, view) || !canReorder || now >= p.deadline)
            && (actions != [] <==> !AllMatch(p.order, view) && canReorder && p.retryAt <= now < p.deadline)
            && (actions != [] ==>
                  && actions == [MoveSpace(actions[0].space, actions[0].after)]
                  && Corrects(p.order, view, Move(actions[0].space, actions[0].after)))
  {
    NextCorrects(p.order, view);
    hide NextPlacementMove, AllMatch, Corrects;
  }

  lemma {:induction false} NextCorrects(order: seq<SpaceId>, view: View)
    ensures var m := NextPlacementMove(order, view);
            && (m.None? <==> AllMatch(order, view))
            && (m.Some? ==> Corrects(order, view, Move(m.value.space, m.value.after)))
  {
    hide FirstMove, Matches, CorrectsOn, OrderedDisplays;
    var ds := Ascending(OrderedDisplays(order, view));
    FirstMoveCorrects(order, view, ds);
    assert forall d :: d in ds <==> d in Elements(ds);
    var m := FirstMove(order, view, ds);
    if m.Some? {
      var d :| d in ds && CorrectsOn(order, view, d, m.value);
      assert d in OrderedDisplays(order, view) && m.value == Move(m.value.space, m.value.after);
    }
  }

  // ------------------------------------------------------- an ideal platform

  /** The platform took the Space out of its display's list and put it back right after the other. */
  ghost predicate Carried(before: View, after: View, m: Move) {
    && after.spaces.Keys == before.spaces.Keys
    && (forall x | x in before.spaces :: after.spaces[x].display == before.spaces[x].display)
    && (forall d :: Native(after, d) ==
          if m.space != m.after && m.space in Native(before, d) && m.after in Native(before, d) then MoveAfter(Native(before, d), m)
          else Native(before, d))
  }

  lemma {:induction false} DesiredStays(order: seq<SpaceId>, before: View, after: View, d: DisplayId)
    requires after.spaces.Keys == before.spaces.Keys && forall x | x in before.spaces :: after.spaces[x].display == before.spaces[x].display
    ensures DesiredOn(order, after, d) == DesiredOn(order, before, d)
  {
    if order != [] {
      DesiredStays(order[1..], before, after, d);
    }
  }

  /** A correction carried out lowers its own display's budget and leaves every other display alone. */
  lemma {:induction false} CorrectionLowersBudget(order: seq<SpaceId>, before: View, after: View, d: DisplayId, m: Move, e: DisplayId)
    requires NoDup(order) && CorrectsOn(order, before, d, m) && Carried(before, after, m)
    ensures e == d ==> BudgetOn(order, after, e) < BudgetOn(order, before, e)
    ensures e != d ==> BudgetOn(order, after, e) == BudgetOn(order, before, e)
  {
    var q := DesiredOn(order, before, d);
    DesiredOnce(order, before, d);
    DesiredObserved(order, before, d);
    ByPositionSorts(before, q);
    var actual := ByPosition(before, q);
    CorrectionMakesProgress(actual, q);
    ByPositionIsProjection(before, d, q);
    DesiredStays(order, before, after, d);
    ByPositionIsProjection(after, d, q);
    if e == d {
      MoveCommutesWithProjection(Native(before, d), q, m);
    } else {
      var o := DesiredOn(order, before, e);
      DesiredStays(order, before, after, e);
      DesiredOnce(order, before, e);
      ByPositionIsProjection(before, e, o);
      ByPositionIsProjection(after, e, o);
      NativeElsewhere(before, d, e, m.space);
    }
  }

  lemma NativeElsewhere(view: View, d: DisplayId, e: DisplayId, x: SpaceId)
    requires d != e && x in Native(view, d)
    ensures x !in Native(view, e)
  {
    assert x in Elements(Native(view, d));
    assert x in Native(view, e) <==> x in Elements(Native(view, e));
  }

  // --------------------------------------------------------------- whole runs

  ghost function Total(order: seq<SpaceId>, view: View, ds: seq<DisplayId>): int
    requires NoDup(order)
  {
    if ds == [] then 0 else BudgetOn(order, view, ds[0]) + Total(order, view, ds[1..])
  }

  /** 2n - 3 for every display with n >= 2 reserved Spaces. */
  ghost function MoveBound(order: seq<SpaceId>, view: View, ds: seq<DisplayId>): int {
    if ds == [] then 0
    else
      var n := |DesiredOn(order, view, ds[0])|;
      (if n >= 2 then 2 * n - 3 else 0) + MoveBound(order, view, ds[1..])
  }

  lemma {:induction false} TotalWithinBound(order: seq<SpaceId>, view: View, ds: seq<DisplayId>)
    requires NoDup(order)
    ensures 0 <= Total(order, view, ds) <= MoveBound(order, view, ds)
  {
    hide BudgetOn, DesiredOn, Matches;
    if ds != [] {
      TotalWithinBound(order, view, ds[1..]);
    }
  }

  lemma {:induction false} CorrectionLowersTotal(order: seq<SpaceId>, before: View, after: View, ds: seq<DisplayId>, d: DisplayId, m: Move)
    requires NoDup(order) && NoDup(ds) && CorrectsOn(order, before, d, m) && Carried(before, after, m)
    ensures d in ds ==> Total(order, after, ds) < Total(order, before, ds)
    ensures d !in ds ==> Total(order, after, ds) == Total(order, before, ds)
  {
    hide BudgetOn, CorrectsOn, Carried, Matches, DesiredOn;
    if ds != [] {
      assert ds == [ds[0]] + ds[1..] && NoDup(ds[1..]) && ds[0] !in ds[1..];
      CorrectionLowersBudget(order, before, after, d, m, ds[0]);
      CorrectionLowersTotal(order, before, after, ds[1..], d, m);
    }
  }

  /** A snapshot pass at `now`, and what the next snapshot shows. */
  datatype Tick = Tick(now: Instant, view: View)

  /** With time left and a platform that carries each MoveSpace out before it is looked at again. */
  ghost predicate Ideal(s: State, t: Tick)
    requires s.placement.Some?
  {
    && s.caps.reorderSpace && t.now < s.placement.value.deadline
    && var actions := ReconcilePlacement(s, t.now).1;
       if actions == [] then t.view == s.view else Carried(s.view, t.view, Move(actions[0].space, actions[0].after))
  }

  ghost function Ticked(s: State, t: Tick): (r: State)
    ensures r.placement == ReconcilePlacement(s, t.now).0.placement && r.view == t.view && r.caps == s.caps
  {
    ReconcilePlacement(s, t.now).0.(view := t.view)
  }

  ghost predicate IdealRun(s: State, ticks: seq<Tick>)
    decreases |ticks|
  {
    ticks == [] || s.placement.None? || (Ideal(s, ticks[0]) && IdealRun(Ticked(s, ticks[0]), ticks[1..]))
  }

  /** Every pass comes no earlier than the retry time the one before it set. */
  ghost predicate Patient(s: State, ticks: seq<Tick>)
    decreases |ticks|
  {
    ticks == [] || s.placement.None? || (ticks[0].now >= s.placement.value.retryAt && Patient(Ticked(s, ticks[0]), ticks[1..]))
  }

  ghost function MovesMade(s: State, ticks: seq<Tick>): nat
    decreases |ticks|
  {
    if ticks == [] || s.placement.None? then 0
    else |ReconcilePlacement(s, ticks[0].now).1| + MovesMade(Ticked(s, ticks[0]), ticks[1..])
  }

  ghost function Finally(s: State, ticks: seq<Tick>): State
    decreases |ticks|
  {
    if ticks == [] || s.placement.None? then s else Finally(Ticked(s, ticks[0]), ticks[1..])
  }

  /** The reservation as the run finds it: still `order`, over displays `ds`. */
  ghost predicate Sorting(s: State, order: seq<SpaceId>, ds: seq<DisplayId>) {
    && NoDup(order) && NoDup(ds) && (s.placement.Some? ==> s.placement.value.order == order)
    && forall d | d in OrderedDisplays(order, s.view) :: d in ds
  }

  lemma PassIsReconcile(s: State, now: Instant)
    requires s.placement.Some?
    ensures var pass := PlacementPass(s.placement.value, s.view, s.caps.reorderSpace, now);
            ReconcilePlacement(s, now).0.placement == pass.0 && ReconcilePlacement(s, now).1 == pass.1
  {
    hide PlacementPass;
  }

  lemma {:induction false} TickLowersTotal(s: State, t: Tick, order: seq<SpaceId>, ds: seq<DisplayId>)
    requires s.placement.Some? && Sorting(s, order, ds) && Ideal(s, t)
    ensures |ReconcilePlacement(s, t.now).1| + Total(order, t.view, ds) <= Total(order, s.view, ds)
    ensures OrderedDisplays(order, t.view) == OrderedDisplays(order, s.view)
  {
    PassIsReconcile(s, t.now);
    PassReleasesIffMatched(s.placement.value, s.view, true, t.now);
    hide ReconcilePlacement, PlacementPass, AllMatch, Corrects, Carried, Total, OrderedDisplays, NoDup;
    var actions := ReconcilePlacement(s, t.now).1;
    if actions != [] {
      CorrectionCarried(order, s.view, t.view, ds, Move(actions[0].space, actions[0].after));
    }
  }

  /** The reservation lives on unchanged, sends a correction when it may, and ends on a match. */
  lemma {:induction false} TickEndsOnMatch(s: State, t: Tick)
    requires s.placement.Some? && Ideal(s, t)
    ensures var q := Ticked(s, t).placement;
            && (q.Some? ==> q.value.order == s.placement.value.order)
            && (q.Some? && t.now >= s.placement.value.retryAt ==> |ReconcilePlacement(s, t.now).1| == 1)
            && (q.None? ==> t.view == s.view && AllMatch(s.placement.value.order, s.view))
  {
    PassIsReconcile(s, t.now);
    PassReleasesIffMatched(s.placement.value, s.view, true, t.now);
    hide ReconcilePlacement, PlacementPass, AllMatch, Corrects, Carried, Ticked;
  }

  lemma {:induction false} CorrectionCarried(order: seq<SpaceId>, before: View, after: View, ds: seq<DisplayId>, m: Move)
    requires NoDup(order) && NoDup(ds) && Corrects(order, before, m) && Carried(before, after, m)
    requires forall d | d in OrderedDisplays(order, before) :: d in ds
    ensures Total(order, after, ds) < Total(order, before, ds)
    ensures OrderedDisplays(order, after) == OrderedDisplays(order, before)
  {
    hide CorrectsOn, Total, Native;
    var d :| d in OrderedDisplays(order, before) && CorrectsOn(order, before, d, m);
    CorrectionLowersTotal(order, before, after, ds, d, m);
  }

  lemma {:induction false} RunLowersTotal(s: State, ticks: seq<Tick>, order: seq<SpaceId>, ds: seq<DisplayId>)
    requires Sorting(s, order, ds) && IdealRun(s, ticks)
    ensures MovesMade(s, ticks) <= Total(order, s.view, ds)
    ensures s.placement.Some? && Patient(s, ticks) && |ticks| > Total(order, s.view, ds) ==>
              Finally(s, ticks).placement == None && AllMatch(order, Finally(s, ticks).view)
    decreases |ticks|
  {
    hide Ticked, Ideal, Total, AllMatch, ReconcilePlacement, OrderedDisplays, NoDup;
    TotalNonNegative(order, s, ds);
    if ticks != [] && s.placement.Some? {
      TickLowersTotal(s, ticks[0], order, ds);
      TickEndsOnMatch(s, ticks[0]);
      RunLowersTotal(Ticked(s, ticks[0]), ticks[1..], order, ds);
    }
  }

  lemma TotalNonNegative(order: seq<SpaceId>, s: State, ds: seq<DisplayId>)
    requires Sorting(s, order, ds)
    ensures NoDup(order) && Total(order, s.view, ds) >= 0
  {
    TotalWithinBound(order, s.view, ds);
  }

  /**
   * On an ideal platform the corrections of a whole run number at most 2n - 3 for each display
   * with n >= 2 reserved Spaces, and once the passes outnumber that bound, with none coming before
   * its retry time, every display shows its Spaces in logical order and the reservation is gone.
   */
  lemma {:induction false} PlacementSettles(s: State, ticks: seq<Tick>)
    requires s.placement.Some? && NoDup(s.placement.value.order) && IdealRun(s, ticks)
    ensures var order := s.placement.value.order;
            var bound := MoveBound(order, s.view, Ascending(OrderedDisplays(order, s.view)));
            && MovesMade(s, ticks) <= bound
            && (Patient(s, ticks) && |ticks| > bound ==>
                  Finally(s, ticks).placement == None && AllMatch(order, Finally(s, ticks).view))
  {
    hide AllMatch, Total, MoveBound, IdealRun, Patient, Finally, MovesMade;
    var order := s.placement.value.order;
    var ds := Ascending(OrderedDisplays(order, s.view));
    assert forall d :: d in ds <==> d in Elements(ds);
    TotalWithinBound(order, s.view, ds);
    RunLowersTotal(s, ticks, order, ds);
  }
}
