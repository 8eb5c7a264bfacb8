/** The order the engine reserves, and that sorting into it puts every display's workspaces in name order. */
module StripOrder {
  import opened Basics
  import opened Geometry
  import opened Observed
  import opened Workspace
  import opened SpaceOrder
  import opened Lifecycle
  import opened Placement
  import opened Homes

  // ------------------------------------------------------------ what is reserved

  /** The Space a workspace shows, when it shows its own. */
  ghost predicate ShowsOwn(reg: Registry, k: Key, x: SpaceId) { k in reg && reg[k].backing == Some(Normal(x)) }

  lemma OneShows(reg: Registry, j: Key, k: Key, x: SpaceId)
    requires Distinct(reg) && j != k && ShowsOwn(reg, j, x)
    ensures !ShowsOwn(reg, k, x)
  {
    assert reg[j].Home() == Some(x);
  }

  lemma {:induction false} NormalSpacesList(reg: Registry, ks: seq<Key>)
    requires Distinct(reg) && NoDup(ks) && forall k | k in ks :: k in reg
    ensures NoDup(NormalSpaces(reg, ks))
    ensures forall x :: x in NormalSpaces(reg, ks) <==> exists k :: k in ks && ShowsOwn(reg, k, x)
  {
    if ks != [] {
      var rest := ks[1..];
      assert ks == [ks[0]] + rest && ks[0] !in rest;
      NormalSpacesList(reg, rest);
      forall x ensures x in NormalSpaces(reg, ks) <==> exists k :: k in ks && ShowsOwn(reg, k, x) {
        if k :| k in rest && ShowsOwn(reg, k, x) {
          assert k in ks;
        }
        if ShowsOwn(reg, ks[0], x) {
          assert ks[0] in ks;
        }
      }
      forall x: SpaceId | ShowsOwn(reg, ks[0], x) ensures x !in NormalSpaces(reg, rest) {
        forall k | k in rest ensures !ShowsOwn(reg, k, x) {
          OneShows(reg, ks[0], k, x);
        }
      }
      assert reg[ks[0]].backing.Some? && reg[ks[0]].backing.value.Normal? ==> ShowsOwn(reg, ks[0], reg[ks[0]].backing.value.space);
    }
  }

  lemma {:induction false} OrderLists(reg: Registry, strips: seq<DisplayId>)
    requires Distinct(reg) && NoDup(strips)
    ensures NoDup(LogicalOrder(reg, strips))
    ensures forall x :: x in LogicalOrder(reg, strips) <==> exists k :: ShowsOwn(reg, k, x) && reg[k].display in strips
  {
    if strips != [] {
      var d, rest := strips[0], strips[1..];
      assert strips == [d] + rest && d !in rest;
      OrderLists(reg, rest);
      KeysForLists(reg, d);
      NormalSpacesList(reg, KeysFor(reg, d));
      hide NormalSpaces, KeysFor;
      var a, b := NormalSpaces(reg, KeysFor(reg, d)), LogicalOrder(reg, rest);
      forall x | x in a ensures x !in b {
        var k :| k in KeysFor(reg, d) && ShowsOwn(reg, k, x);
        forall j | ShowsOwn(reg, j, x) ensures j == k {
          if j != k {
            OneShows(reg, k, j, x);
          }
        }
      }
      NoDupConcat(a, b);
      forall x ensures x in a + b <==> exists k :: ShowsOwn(reg, k, x) && reg[k].display in strips {
        if k :| ShowsOwn(reg, k, x) && reg[k].display in strips {
          assert reg[k].display == d ==> k in KeysFor(reg, d);
        }
      }
    }
  }

  // --------------------------------------------------------------- name order

  lemma {:induction false} DesiredConcat(a: seq<SpaceId>, b: seq<SpaceId>, view: View, d: DisplayId)
    ensures DesiredOn(a + b, view, d) == DesiredOn(a, view, d) + DesiredOn(b, view, d)
  {
    if a == [] {
      assert a + b == b;
    } else {
      assert (a + b)[1..] == a[1..] + b;
      DesiredConcat(a[1..], b, view, d);
    }
  }

  lemma {:induction false} DesiredNone(order: seq<SpaceId>, view: View, d: DisplayId)
    requires forall x | x in order && x in view.spaces :: view.spaces[x].display != d
    ensures DesiredOn(order, view, d) == []
  {
    if order != [] {
      DesiredNone(order[1..], view, d);
    }
  }

  /** The Spaces a display's workspaces show as their own and that are on it, in the order of their names. */
  ghost function InNameOrder(reg: Registry, view: View, d: DisplayId): seq<SpaceId> {
    KeysForLists(reg, d);
    DesiredOn(NormalSpaces(reg, KeysFor(reg, d)), view, d)
  }

  /** Only its own workspaces' Spaces are on the display. */
  ghost predicate OwnStrip(reg: Registry, view: View, d: DisplayId) {
    forall k, x | ShowsOwn(reg, k, x) && x in view.spaces && view.spaces[x].display == d :: reg[k].display == d
  }

  lemma {:induction false} OthersElsewhere(reg: Registry, view: View, d: DisplayId, e: DisplayId)
    requires Distinct(reg) && OwnStrip(reg, view, d) && e != d
    ensures forall k | k in KeysFor(reg, e) :: k in reg
    ensures DesiredOn(NormalSpaces(reg, KeysFor(reg, e)), view, d) == []
  {
    KeysForLists(reg, e);
    NormalSpacesList(reg, KeysFor(reg, e));
    hide NormalSpaces, KeysFor;
    forall x | x in NormalSpaces(reg, KeysFor(reg, e)) && x in view.spaces ensures view.spaces[x].display != d {
      var k :| k in KeysFor(reg, e) && ShowsOwn(reg, k, x);
    }
    DesiredNone(NormalSpaces(reg, KeysFor(reg, e)), view, d);
  }

  /** What the reservation wants of a display is its own workspaces in the order of their names. */
  lemma {:induction false} ReservedIsNameOrder(reg: Registry, strips: seq<DisplayId>, view: View, d: DisplayId)
    requires Distinct(reg) && NoDup(strips) && OwnStrip(reg, view, d)
    ensures DesiredOn(LogicalOrder(reg, strips), view, d) == if d in strips then InNameOrder(reg, view, d) else []
  {
    if strips != [] {
      var e, rest := strips[0], strips[1..];
      assert strips == [e] + rest && e !in rest;
      ReservedIsNameOrder(reg, rest, view, d);
      KeysForLists(reg, e);
      DesiredConcat(NormalSpaces(reg, KeysFor(reg, e)), LogicalOrder(reg, rest), view, d);
      hide NormalSpaces, KeysFor;
      if e != d {
        OthersElsewhere(reg, view, d, e);
      }
    }
  }

  // -------------------------------------------------------------------- runs

  lemma {:induction false} RunKeepsSpaces(s: State, ticks: seq<Tick>, order: seq<SpaceId>, d: DisplayId)
    requires IdealRun(s, ticks)
    ensures DesiredOn(order, Finally(s, ticks).view, d) == DesiredOn(order, s.view, d)
    decreases |ticks|
  {
    hide ReconcilePlacement, Ticked, DesiredOn, Native;
    if ticks != [] && s.placement.Some? {
      DesiredStays(order, s.view, ticks[0].view, d);
      RunKeepsSpaces(Ticked(s, ticks[0]), ticks[1..], order, d);
    }
  }

  /** The display's native list, seen through its own workspaces' Spaces, is in name order. */
  ghost predicate InOrderOn(reg: Registry, shown: View, view: View, d: DisplayId) {
    Projected(Native(view, d), InNameOrder(reg, shown, d)) == InNameOrder(reg, shown, d)
  }

  lemma {:induction false} MatchedIsNameOrder(reg: Registry, strips: seq<DisplayId>, shown: View, view: View, d: DisplayId)
    requires Distinct(reg) && NoDup(strips) && OwnStrip(reg, shown, d) && d in strips
    requires var order := LogicalOrder(reg, strips); DesiredOn(order, view, d) == DesiredOn(order, shown, d) && AllMatch(order, view)
    ensures InOrderOn(reg, shown, view, d)
  {
    var order := LogicalOrder(reg, strips);
    ReservedIsNameOrder(reg, strips, shown, d);
    OrderLists(reg, strips);
    hide LogicalOrder, InNameOrder, Native;
    var q := DesiredOn(order, view, d);
    DesiredOnce(order, view, d);
    hide DesiredOn;
    ByPositionIsProjection(view, d, q);
    if q == [] {
      ProjectedNone(Native(view, d));
    } else {
      assert q[0] in q;
      assert d in OrderedDisplays(order, view);
    }
  }

  lemma {:induction false} ProjectedNone(native: seq<SpaceId>)
    ensures Projected(native, []) == []
  {
    if native != [] {
      ProjectedNone(native[1..]);
    }
  }

  /** The reservation's order, taken on its own: it lists each Space once, display by display. */
  lemma {:induction false} ReservedOnce(s: State, now: Instant, visit: Visit)
    requires Distinct(s.reg) && StripWalk(s.view.displays, visit.strips)
    ensures var r := ReserveOrder(s, now, visit);
            && r.placement.value.order == LogicalOrder(s.reg, visit.strips) && NoDup(r.placement.value.order)
            && r.reg == s.reg && r.view == s.view
  {
    OrderLists(s.reg, visit.strips);
    hide LogicalOrder;
  }

  /**
   * What the engine reserves gets done: on an ideal platform it takes at most 2n - 3 moves for each
   * display with n >= 2 reserved Spaces, and once the passes outnumber that bound every display with
   * only its own workspaces' Spaces on it shows them in the order of their names.
   */
  lemma {:induction false} StripsSettle(s: State, now: Instant, visit: Visit, ticks: seq<Tick>)
    requires Distinct(s.reg) && StripWalk(s.view.displays, visit.strips) && IdealRun(ReserveOrder(s, now, visit), ticks)
    ensures var r := ReserveOrder(s, now, visit);
            var order := LogicalOrder(s.reg, visit.strips);
            var bound := MoveBound(order, s.view, Ascending(OrderedDisplays(order, s.view)));
            && MovesMade(r, ticks) <= bound
            && (Patient(r, ticks) && |ticks| > bound ==>
                  && Finally(r, ticks).placement == None
                  && forall d | d in s.view.displays && OwnStrip(s.reg, s.view, d) :: InOrderOn(s.reg, s.view, Finally(r, ticks).view, d))
  {
    ReservedOnce(s, now, visit);
    hide ReserveOrder, LogicalOrder, IdealRun, Patient, MovesMade, Finally, MoveBound, AllMatch, OwnStrip, InOrderOn, Distinct;
    var r := ReserveOrder(s, now, visit);
    PlacementSettles(r, ticks);
    var order := LogicalOrder(s.reg, visit.strips);
    if Patient(r, ticks) && |ticks| > MoveBound(order, s.view, Ascending(OrderedDisplays(order, s.view))) {
      forall d | d in s.view.displays && OwnStrip(s.reg, s.view, d) ensures InOrderOn(s.reg, s.view, Finally(r, ticks).view, d) {
        RunKeepsSpaces(r, ticks, order, d);
        MatchedIsNameOrder(s.reg, visit.strips, s.view, Finally(r, ticks).view, d);
      }
    }
  }
}
