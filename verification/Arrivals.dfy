/** A workspace that gets its Space back, or a new one: it is left in peace for a while and the strip is put in order. */
module Arrivals {
  import opened Basics
  import opened Geometry
  import opened Observed
  import opened Workspace
  import opened Remap
  import opened Lifecycle
  import opened Runs
  import opened Creation
  import opened Homes
  import opened Staying
  import opened RestoreSpace
  import opened ParkedTrees
  import opened Spared
  import opened Intents
  import opened Memory

  /** The strip is reserved from this moment, to be corrected at once and for ten seconds at most. */
  ghost predicate JustReserved(s: State, now: Instant) {
    s.placement.Some? && s.placement.value.retryAt == now && s.placement.value.deadline == now + 10_000
  }

  /** In grace for two seconds from now, with the strip reserved. */
  ghost predicate Arrived(s: State, k: Key, now: Instant) {
    k in s.grace && s.grace[k] == now + 2_000 && JustReserved(s, now)
  }

  lemma ReservingReserves(s: State, now: Instant, visit: Visit)
    ensures JustReserved(ReserveOrder(s, now, visit), now)
  {
    hide LogicalOrder;
  }

  // ------------------------------------------------------- back from fullscreen

  lemma {:induction false} RestoredArrives(s: State, previous: map<WindowId, Window>, now: Instant, visit: Visit, k: Key)
    requires k in Restored(s)
    ensures Arrived(ReconcileFullscreen(s, previous, now, visit), k, now)
  {
    hide FullscreenRegistry, Restored, ReserveOrder, JustReserved;
    var s1 := s.(reg := FullscreenRegistry(s, previous, now), grace := s.grace + map k | k in Restored(s) :: now + DYNAMIC_GRACE);
    ReservingReserves(s1, now, visit);
  }

  lemma {:induction false} LostIsRestored(s: State, snap: Snapshot, k: Key)
    requires k in s.reg && s.reg[k].IsFullscreen() && LostIn(s.reg[k].backing.value, snap)
    requires s.view.spaces == snap.spaces && s.view.windows == snap.windows
    ensures k in Restored(s)
  {
  }

  lemma {:induction false} ArrivedUpheld(s: State, r: State, k: Key, now: Instant)
    requires k in s.reg && Upheld(s, r, k, now) && Arrived(s, k, now)
    ensures k in r.grace && r.grace[k] == now + 2_000
  {
    hide Steadfast;
  }

  lemma BindingReserves(s: State, a: Awaited, now: Instant, visit: Visit)
    requires s.view.WellKeyed() && JustReserved(s, now)
    ensures JustReserved(BindOne(s, a, now, visit), now)
  {
    hide Released, ReserveOrder, Candidates, View.WellKeyed, Expired, Aged, JustReserved;
    var b := Aged(a, now);
    SameReservation(s, Released(s, b.key), now);
    SameReservation(s, s.(awaited := s.awaited + [b]), now);
    if b.key in s.reg {
      CandidatesKeyed(s, b);
      if Candidates(s, b) != {} {
        BoundReserves(s, b.key, FirstSlot(Candidates(s, b)), now, visit);
      }
    }
  }

  lemma SameReservation(s: State, r: State, now: Instant)
    requires JustReserved(s, now) && r.placement == s.placement
    ensures JustReserved(r, now)
  {
  }

  lemma BoundReserves(s: State, k: Key, x: Space, now: Instant, visit: Visit)
    requires k in s.reg
    ensures JustReserved(BindTo(s, k, x, now, visit), now)
  {
    hide LogicalOrder;
  }

  lemma {:induction false} BindAllReserves(s: State, todo: seq<Awaited>, now: Instant, visit: Visit)
    requires s.view.WellKeyed() && JustReserved(s, now)
    ensures JustReserved(BindAll(s, todo, now, visit), now)
    decreases |todo|
  {
    hide BindOne, View.WellKeyed, JustReserved;
    if todo != [] {
      BindingReserves(s, todo[0], now, visit);
      BindAllReserves(BindOne(s, todo[0], now, visit), todo[1..], now, visit);
    }
  }

  lemma FullscreenIsBacked(e: Entry)
    ensures e.IsFullscreen() ==> !ShowsNormal(e) && e.backing.Some? && e.backing.value.Fullscreen?
  {
  }

  /**
   * A workspace whose fullscreen window or Space is gone: whatever it is left with, once bindings
   * settle it is in grace for two seconds and the strip is being put back in order.
   */
  lemma {:induction false} ReturningArrives(s: State, snap: Snapshot, now: Instant, visit: Visit, k: Key)
    requires snap.complete && snap.WellKeyed() && Tame(s) && k in s.reg && s.reg[k].IsFullscreen() && LostIn(s.reg[k].backing.value, snap)
    requires s.reg[k].display in snap.displays && !BeingForgotten(s, snap, k)
    ensures var r := Settled(s, snap, now, visit); k in r.reg && Arrived(r, k, now)
  {
    hide *;
    FullscreenIsBacked(s.reg[k]);
    TakenInSubstitutes(s, snap, now, visit, k);
    var q, t := Synced(s, snap, visit), TakenIn(s, snap, now, visit);
    TakenInIs(s, snap, now, visit);
    SameFullscreen(s.reg[k], q.reg[k]);
    LostIsRestored(q, snap, k);
    RestoredArrives(q, s.view.windows, now, visit, k);
    SubstitutedIsThere(q, s.view.windows, now, q.reg[k]);
    StillThere(q, t, Substituted(q, s.view.windows, now, q.reg[k]));
    TakenInKeyed(s, snap, now, visit);
    OwnsSoNotAwaited(s, t, k);
    ArrivesThrough(t, now, IsReset(s.view, snap), visit, k);
    SettledIs(s, snap, now, visit);
  }

  lemma SameFullscreen(e: Entry, f: Entry)
    requires e.IsFullscreen() && f.backing == e.backing
    ensures f.IsFullscreen() && !ShowsNormal(f)
  {
  }

  lemma StillThere(a: State, b: State, e: Entry)
    requires a.view.spaces == b.view.spaces && !Vanished(a, e)
    ensures !Vanished(b, e)
  {
  }

  lemma OwnsSoNotAwaited(s: State, t: State, k: Key)
    requires Tame(s) && k in s.reg && s.reg[k].backing.Some? && (t.awaited == s.awaited || t.awaited == [])
    ensures forall a | a in t.awaited :: a.key != k
  {
    assert !s.Expecting(k);
  }

  lemma TakenInIs(s: State, snap: Snapshot, now: Instant, visit: Visit)
    ensures TakenIn(s, snap, now, visit) == ReconcileFullscreen(Synced(s, snap, visit), s.view.windows, now, visit)
  {
    hide IsReset, SyncConfig, ReconcileFullscreen, VoidReservations, Observe;
  }

  lemma SettledIs(s: State, snap: Snapshot, now: Instant, visit: Visit)
    requires snap.complete && snap.WellKeyed()
    ensures TakenIn(s, snap, now, visit).view.WellKeyed()
    ensures Settled(s, snap, now, visit) ==
              ObserveExternal(BindAwaited(WithoutVanished(TakenIn(s, snap, now, visit), now, IsReset(s.view, snap), visit), now, visit), now)
  {
    TakenInKeyed(s, snap, now, visit);
    hide IsReset, TakenIn, WithoutVanished, BindAwaited, ObserveExternal, View.WellKeyed;
  }

  lemma {:induction false} ArrivesThrough(s: State, now: Instant, reset: bool, visit: Visit, k: Key)
    requires s.view.WellKeyed() && k in s.reg && Arrived(s, k, now) && !Vanished(s, s.reg[k]) && k !in Confirmed(s)
    requires forall a | a in s.awaited :: a.key != k
    ensures var r := ObserveExternal(BindAwaited(WithoutVanished(s, now, reset, visit), now, visit), now); k in r.reg && Arrived(r, k, now)
  {
    hide WithoutVanished, BindAll, ObserveExternal, View.WellKeyed, Upheld, Confirmed, Vanished, JustReserved;
    VanishingUpholds(s, now, reset, visit, k);
    var s4 := WithoutVanished(s, now, reset, visit);
    UpheldIsThere(s, s4, k, now);
    SameReservation(s, s4, now);
    var s5 := s4.(awaited := []);
    SameReservation(s4, s5, now);
    SameProtection(s4, s5, k, now);
    BindAllUpholds(s5, s4.awaited, now, visit, k);
    BindAllReserves(s5, s4.awaited, now, visit);
    var s6 := BindAwaited(s4, now, visit);
    UpheldIsThere(s5, s6, k, now);
    ObserveUpholds(s6, now, k);
    SameReservation(s6, ObserveExternal(s6, now), now);
    UpheldOn(s, s4, s5, k, now);
    UpheldOn(s, s5, s6, k, now);
    UpheldOn(s, s6, ObserveExternal(s6, now), k, now);
    UpheldIsThere(s, ObserveExternal(s6, now), k, now);
    ArrivedUpheld(s, ObserveExternal(s6, now), k, now);
  }

  // ------------------------------------------------------------- newly created

  lemma {:induction false} BindOneArrives(s: State, a: Awaited, now: Instant, visit: Visit, k: Key)
    requires s.view.WellKeyed() && k in BindOne(s, a, now, visit).reg && k in s.reg
    ensures var r := BindOne(s, a, now, visit); r.reg[k].backing == s.reg[k].backing || Arrived(r, k, now)
  {
    hide Released, BindTo, Candidates, View.WellKeyed, Expired, Aged, Arrived;
    var b := Aged(a, now);
    if b.key in s.reg {
      CandidatesKeyed(s, b);
      if Candidates(s, b) != {} {
        BoundArrives(s, b.key, FirstSlot(Candidates(s, b)), now, visit);
      }
    }
  }

  lemma BoundArrives(s: State, k: Key, x: Space, now: Instant, visit: Visit)
    requires k in s.reg
    ensures Arrived(BindTo(s, k, x, now, visit), k, now)
  {
    hide LogicalOrder;
  }

  /** A workspace bound to the Space created for it is in grace for two seconds, and the strip is reserved. */
  lemma {:induction false} BindingArrives(s: State, now: Instant, visit: Visit, k: Key)
    requires s.view.WellKeyed() && |s.awaited| <= 1 && k in s.reg && k in BindAwaited(s, now, visit).reg
    ensures var r := BindAwaited(s, now, visit); r.reg[k].backing == s.reg[k].backing || Arrived(r, k, now)
  {
    hide BindOne, View.WellKeyed, Arrived;
    if s.awaited != [] {
      var start := s.(awaited := []);
      assert s.awaited[1..] == [];
      assert BindAll(start, s.awaited, now, visit) == BindOne(start, s.awaited[0], now, visit);
      BindOneArrives(start, s.awaited[0], now, visit, k);
    }
  }

  // ------------------------------------------------- the creation in flight, exactly

  /** A Space the creation may be given: ordinary, on its display, not there when it was asked for, and shown by nobody. */
  ghost predicate Takeable(s: State, a: Awaited, x: SpaceId) {
    && x in s.view.spaces && s.view.spaces[x].Ordinary() && s.view.spaces[x].display == a.display && x !in a.before
    && forall k | k in s.reg :: s.reg[k].ActiveSpace() != Some(x)
  }

  /** The first of them in slot order. */
  ghost predicate FirstTakeable(s: State, a: Awaited, x: SpaceId) {
    Takeable(s, a, x) && forall y | y in s.view.spaces && Takeable(s, a, y) :: x in s.view.spaces && SlotLe(s.view.spaces[x], s.view.spaces[y])
  }

  /** It was given up ten seconds after it had become uncertain. */
  predicate RanOut(a: Awaited, now: Instant) { a.observation.Uncertain? && now >= a.observation.since + 10_000 }

  /** Past its deadline it becomes uncertain. */
  function Waited(a: Awaited, now: Instant): Awaited {
    if a.observation.Awaiting? && now >= a.observation.deadline then a.(observation := Uncertain(now)) else a
  }

  lemma {:induction false} TakeableIff(s: State, a: Awaited)
    requires s.view.WellKeyed()
    ensures forall x | x in s.view.spaces :: s.view.spaces[x] in Candidates(s, a) <==> Takeable(s, a, x)
  {
    forall x | x in s.view.spaces ensures s.view.spaces[x] in Candidates(s, a) <==> Takeable(s, a, x) {
      UnclaimedMeans(s, x);
    }
  }

  lemma {:induction false} TakesFirst(s: State, a: Awaited)
    requires s.view.WellKeyed()
    ensures (exists x :: Takeable(s, a, x)) <==> Candidates(s, a) != {}
    ensures Candidates(s, a) != {} ==>
              (forall p, q | p in Candidates(s, a) && q in Candidates(s, a) && p.id == q.id :: p == q)
              && (var x := FirstSlot(Candidates(s, a)); x.id in s.view.spaces && s.view.spaces[x.id] == x && FirstTakeable(s, a, x.id))
  {
    hide Takeable, Candidates, MayTake, SlotLe;
    TakeableIff(s, a);
    CandidatesKeyed(s, a);
    TakeableIsThere(s, a);
    if c :| c in Candidates(s, a) {
      assert Takeable(s, a, c.id);
      var x := FirstSlot(Candidates(s, a));
      assert Takeable(s, a, x.id);
    }
  }

  lemma TakeableIsThere(s: State, a: Awaited)
    ensures forall x | Takeable(s, a, x) :: x in s.view.spaces
  {
  }

  lemma WaitedIsAged(a: Awaited, now: Instant)
    ensures Aged(a, now) == Waited(a, now) && (Expired(Aged(a, now), now) <==> RanOut(a, now))
    ensures Aged(a, now).key == a.key && Aged(a, now).display == a.display && Aged(a, now).before == a.before
  {
  }

  lemma SameTakeable(s: State, r: State, a: Awaited, b: Awaited, x: SpaceId)
    requires r.view == s.view && r.reg == s.reg && b.display == a.display && b.before == a.before
    ensures Takeable(s, a, x) == Takeable(r, b, x) && FirstTakeable(s, a, x) == FirstTakeable(r, b, x)
  {
  }

  /** What one look does with the creation in flight. */
  ghost predicate Decided(s: State, a: Awaited, r: State, now: Instant) {
    if RanOut(a, now) then
      r.awaited == [] && r.reg == if a.key in s.reg && s.reg[a.key].dynamic && s.reg[a.key].backing == None then s.reg - {a.key} else s.reg
    else if a.key !in s.reg || s.reg[a.key].backing.Some? then r == s.(awaited := [])
    else if exists x :: Takeable(s, a, x) then
      r.awaited == [] && exists x :: FirstTakeable(s, a, x) && x in s.view.spaces
                           && r.reg == s.reg[a.key := s.reg[a.key].(backing := Some(Normal(x)), lastPosition := Some(s.view.spaces[x].position))]
    else r == s.(awaited := [Waited(a, now)])
  }

  lemma {:induction false} BindOneDecides(s: State, a: Awaited, now: Instant, visit: Visit)
    requires s.view.WellKeyed() && s.awaited == []
    ensures Decided(s, a, BindOne(s, a, now, visit), now)
  {
    hide Released, BindTo, Candidates, View.WellKeyed, Expired, Aged, RanOut, Waited, Takeable, FirstTakeable;
    WaitedIsAged(a, now);
    var b := Aged(a, now);
    ReleasedForgets(s, b.key);
    forall x ensures Takeable(s, a, x) == Takeable(s, b, x) && FirstTakeable(s, a, x) == FirstTakeable(s, b, x) {
      SameTakeable(s, s, a, b, x);
    }
    TakesFirst(s, b);
    if Candidates(s, b) != {} {
      var x := FirstSlot(Candidates(s, b));
      assert FirstTakeable(s, a, x.id);
    }
  }

  lemma ReleasedForgets(s: State, k: Key)
    ensures var r := Released(s, k);
            r.awaited == s.awaited && r.reg == if k in s.reg && s.reg[k].dynamic && s.reg[k].backing == None then s.reg - {k} else s.reg
  {
    hide RemoveAll;
  }

  /**
   * A look decides the one creation in flight: given up ten seconds after becoming uncertain, along
   * with a dynamic workspace still without a Space; dropped when its workspace needs none; bound to
   * the first Space it may be given, if there is one; and otherwise kept, uncertain once past its
   * deadline.
   */
  lemma {:induction false} CreationDecided(s: State, now: Instant, visit: Visit)
    requires s.view.WellKeyed() && |s.awaited| == 1
    ensures Decided(s.(awaited := []), s.awaited[0], BindAwaited(s, now, visit), now)
  {
    hide BindOne, View.WellKeyed, Decided;
    var start := s.(awaited := []);
    assert s.awaited[1..] == [];
    assert BindAll(start, s.awaited, now, visit) == BindOne(start, s.awaited[0], now, visit);
    BindOneDecides(start, s.awaited[0], now, visit);
  }
}
