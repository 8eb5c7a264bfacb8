/**
 * Exactly what a snapshot pass clears away: which workspaces it forgets, which one Space it gives
 * up, and which leftovers it heals.
 */
module Collecting {
  import opened Basics
  import opened Geometry
  import opened Observed
  import opened Workspace
  import opened Remap
  import opened Lifecycle
  import opened Runs
  import opened LastSpace
  import opened Homes
  import opened Staying
  import opened TreeOwnership
  import opened ParkedTrees
  import opened Spared
  import opened Intents

  // -------------------------------------------------------- who is left in peace

  lemma NormalAfter(reg: Registry, spaces: map<SpaceId, Space>, displays: set<DisplayId>, k: Key)
    requires KeyedSpaces(spaces) && k in reg && ShowsNormal(Remapped(reg, spaces, displays)[k])
    ensures reg[k].display in displays && !reg[k].IsFullscreen()
  {
    hide FreeSlots, Claimants, IndexOfKey;
  }

  /** The remap reports a workspace exactly if it gave it another Space. */
  lemma {:induction false} MovedIff(s: State, visit: Visit, k: Key)
    requires s.view.WellKeyed() && WaitersUnbacked(s) && s.placement == None && Walks(visit, s.view.displays.Keys)
    requires k in s.reg && k in RemapSlots(s, visit).0.reg && ShowsNormal(RemapSlots(s, visit).0.reg[k])
    ensures k in MovedKeys(RemapSlots(s, visit).1) <==> s.reg[k].backing != RemapSlots(s, visit).0.reg[k].backing
    ensures RemapSlots(s, visit).0.reg[k].backing.value.space in s.view.spaces
  {
    RemapGives(s, visit, k);
    var r := RemapSlots(s, visit);
    if m :| m in r.1 && m.key == k {
      MovesFromOwn(s, visit, m);
    } else if s.reg[k].backing != r.0.reg[k].backing {
      UnreportedStays(s, visit, k);
    }
  }

  lemma {:induction false} UnreportedStays(s: State, visit: Visit, k: Key)
    requires s.view.WellKeyed() && s.placement == None && Walks(visit, s.view.displays.Keys) && k in s.reg && !s.Expecting(k)
    requires k in RemapSlots(s, visit).0.reg && ShowsNormal(RemapSlots(s, visit).0.reg[k])
    requires k !in MovedKeys(RemapSlots(s, visit).1)
    ensures s.reg[k].backing == RemapSlots(s, visit).0.reg[k].backing
  {
    var free := s.reg - Held(s);
    RemapPieces(s, visit);
    assert forall d :: d in visit.displays <==> d in Elements(visit.displays);
    hide Remapped, RemapMoves, State.Expecting;
    Unreported(free, SlotSpaces(s), s.view.displays.Keys, visit.displays, k);
  }

  lemma {:induction false} Unreported(
      reg: Registry, spaces: map<SpaceId, Space>, displays: set<DisplayId>, order: seq<DisplayId>, k: Key)
    requires KeyedSpaces(spaces) && NoDup(order) && (forall d :: d in order <==> d in displays) && k in reg
    requires Remapped(reg, spaces, displays).Keys == reg.Keys && ShowsNormal(Remapped(reg, spaces, displays)[k])
    requires k !in MovedKeys(RemapMoves(reg, Remapped(reg, spaces, displays), order))
    ensures reg[k].backing == Remapped(reg, spaces, displays)[k].backing
  {
    var after := Remapped(reg, spaces, displays);
    NormalAfter(reg, spaces, displays, k);
    forall j | j in reg && reg[j].IsFullscreen() && reg[j].display in displays ensures after[j] == reg[j] {
    }
    hide Remapped;
    MovesAreChanges(reg, after, order);
    if MoveOf(k, reg[k], after[k]) != [] {
      ChangeIsReported(reg, after, order, k);
    }
  }

  lemma ChangeIsReported(before: Registry, after: Registry, order: seq<DisplayId>, k: Key)
    requires before.Keys == after.Keys && k in before && before[k].display in order && MoveOf(k, before[k], after[k]) != []
    requires forall m :: m in RemapMoves(before, after, order) <==>
               m.key in before && before[m.key].display in order && MoveOf(m.key, before[m.key], after[m.key]) == [m]
    ensures k in MovedKeys(RemapMoves(before, after, order))
  {
    hide RemapMoves;
    var m := MoveOf(k, before[k], after[k])[0];
    assert m.key == k && m in RemapMoves(before, after, order);
  }

  /** Volatile, showing as its own a Space it already showed when bindings settled, and asked for by nobody. */
  ghost predicate Idle(s: State, at: State, k: Key, now: Instant) {
    && k in s.reg && k in at.reg && !at.reg[k].persistent
    && ShowsNormal(at.reg[k]) && s.reg[k].backing == at.reg[k].backing && !Wanted(s, k, now)
  }

  /** Nothing happens on the Space: no focus, no window, and none seen there in the last ten seconds. */
  ghost predicate Deserted(s: State, x: SpaceId, now: Instant) {
    && x in s.view.spaces && s.view.spaces[x].Ordinary() && !s.view.spaces[x].focused
    && (forall w | w in s.view.windows :: s.view.windows[w].space != Some(x))
    && (forall w | w in s.lastSpace && s.lastSpace[w].0 == x :: now >= s.lastSpace[w].1 + 10_000)
  }

  /** The display shows another ordinary Space. */
  ghost predicate HasAnother(view: View, x: SpaceId) {
    x in view.spaces && exists y :: y in view.spaces && y != x && view.spaces[y].Ordinary() && view.spaces[y].display == view.spaces[x].display
  }

  lemma {:induction false} AnotherIffTwo(view: View, x: SpaceId)
    requires view.Ordinary(x)
    ensures HasAnother(view, x) <==> |view.OrdinaryOn(view.spaces[x].display)| > 1
  {
    var all := view.OrdinaryOn(view.spaces[x].display);
    assert x in all;
    if HasAnother(view, x) {
      var y :| y in view.spaces && y != x && view.spaces[y].Ordinary() && view.spaces[y].display == view.spaces[x].display;
      assert y in all;
      SubsetSize({x, y}, all);
    } else {
      assert all == {x};
    }
  }

  lemma EmptyIffDeserted(s: State, k: Key, now: Instant)
    requires k in s.reg && ShowsNormal(s.reg[k])
    ensures Empty(s, k, now) <==> Deserted(s, s.reg[k].backing.value.space, now)
  {
  }

  lemma QuietRebind(s: State, now: Instant, visit: Visit)
    requires s.view.WellKeyed() && ReconcilePlacement(s, now).0.placement == None
    ensures var s1 := ReconcilePlacement(s, now).0;
            var b, r := AtCollection(s, now, visit), RemapSlots(s1, visit);
            && s1 == s.(placement := None)
            && MovedKeys(Rebind(s1, visit).1) == MovedKeys(r.1)
            && b.reg == r.0.reg && b.view == s.view && b.lastSpace == s.lastSpace
            && b.focusQueue == s.focusQueue && b.moveQueue == s.moveQueue && b.grace == s.grace
  {
    hide RemapSlots, MoveTrees, Reattach, View.WellKeyed, Strangers, ReconcilePlacement;
  }

  lemma JudgedMeans(b: State, moved: set<Key>, k: Key, now: Instant)
    requires k in b.reg
    ensures Judged(b, moved, k, now) <==> !b.reg[k].persistent && ShowsNormal(b.reg[k]) && k !in moved && !Wanted(b, k, now)
  {
  }

  lemma SameWanted(s: State, b: State, k: Key, now: Instant)
    requires b.focusQueue == s.focusQueue && b.moveQueue == s.moveQueue && b.grace == s.grace
    ensures Wanted(b, k, now) == Wanted(s, k, now)
  {
  }

  /** With the strip settled, a pass judges exactly the idle workspaces. */
  lemma {:induction false} JudgedIff(s: State, now: Instant, visit: Visit, k: Key)
    requires s.view.WellKeyed() && WaitersUnbacked(s) && ReconcilePlacement(s, now).0.placement == None
    requires Walks(visit, s.view.displays.Keys) && k in s.reg
    ensures var b, moved := AtCollection(s, now, visit), MovedKeys(Rebind(ReconcilePlacement(s, now).0, visit).1);
            && k in b.reg && (Judged(b, moved, k, now) <==> Idle(s, b, k, now))
            && (Idle(s, b, k, now) ==> b.reg[k].backing.value.space in b.view.spaces)
  {
    hide AtCollection, RemapSlots, Rebind, ReconcilePlacement, MovedKeys, View.WellKeyed, WaitersUnbacked, Walks, Judged, Wanted, State.Quiet;
    QuietRebind(s, now, visit);
    var s1 := ReconcilePlacement(s, now).0;
    StillWaiting(s, s1);
    RemapKeys(s1, visit);
    var b := AtCollection(s, now, visit);
    JudgedMeans(b, MovedKeys(RemapSlots(s1, visit).1), k, now);
    SameWanted(s, b, k, now);
    if ShowsNormal(b.reg[k]) {
      MovedIff(s1, visit, k);
    }
  }

  lemma StillWaiting(s: State, r: State)
    requires WaitersUnbacked(s) && r == s.(placement := r.placement)
    ensures WaitersUnbacked(r)
  {
    assert forall k :: r.Expecting(k) == s.Expecting(k);
  }

  // --------------------------------------------------------------- who is forgotten

  /** The workspace a pass looks at, idle on a deserted Space. */
  ghost predicate IdleOnDeserted(s: State, at: State, k: Key, now: Instant) {
    Idle(s, at, k, now) && Deserted(at, at.reg[k].backing.value.space, now)
  }

  lemma AdvanceRegistry(s: State, now: Instant, visit: Visit)
    requires s.view.WellKeyed()
    ensures Advance(s, now, visit).0.reg == AtQueues(s, now, visit).reg
    ensures AtQueues(s, now, visit) == DestroyEmpty(AtCollection(s, now, visit), MovedKeys(Rebind(ReconcilePlacement(s, now).0, visit).1), now).0
  {
    hide *;
    QueuesDecide(s, now, visit);
    FulfillKeepsBindings(AtQueues(s, now, visit), now);
    AgreeOnBindings(FulfillQueues(AtQueues(s, now, visit), now).0, Advance(s, now, visit).0);
    AtQueuesIs(s, now, visit);
  }

  lemma AtQueuesIs(s: State, now: Instant, visit: Visit)
    requires s.view.WellKeyed()
    ensures AtQueues(s, now, visit) == DestroyEmpty(AtCollection(s, now, visit), MovedKeys(Rebind(ReconcilePlacement(s, now).0, visit).1), now).0
  {
    hide Rebind, ReconcilePlacement, AtCollection, DestroyEmpty, View.WellKeyed;
  }

  lemma CollectedRegistry(b: State, moved: set<Key>, now: Instant)
    ensures DestroyEmpty(b, moved, now).0.reg == if b.caps.destroySpace && b.Quiet() then b.reg - Stale(b, moved, now) else b.reg
  {
    hide Swept, Stale, Condemned, State.Quiet;
  }

  lemma {:induction false} StaleIff(b: State, moved: set<Key>, now: Instant, k: Key)
    requires k in b.reg && (Judged(b, moved, k, now) ==> b.reg[k].backing.value.space in b.view.spaces)
    ensures k in Stale(b, moved, now) <==>
              Judged(b, moved, k, now) && Deserted(b, b.reg[k].backing.value.space, now) && !HasAnother(b.view, b.reg[k].backing.value.space)
  {
    hide Deserted, HasAnother, Empty, View.OrdinaryOn, Wanted;
    JudgedMeans(b, moved, k, now);
    if Judged(b, moved, k, now) {
      EmptyIffDeserted(b, k, now);
      if Deserted(b, b.reg[k].backing.value.space, now) {
        DesertedIsOrdinary(b, b.reg[k].backing.value.space, now);
        AnotherIffTwo(b.view, b.reg[k].backing.value.space);
      }
    }
  }

  lemma DesertedIsOrdinary(s: State, x: SpaceId, now: Instant)
    requires Deserted(s, x, now)
    ensures s.view.Ordinary(x)
  {
  }

  /**
   * With nothing in flight, the strip seen to included, and the means to destroy, a look forgets,
   * of the workspaces there when bindings settle, exactly the idle ones on a deserted Space that is
   * their display's last; the Space stays. Otherwise it forgets none.
   */
  lemma {:induction false} WhoGoes(s: State, now: Instant, visit: Visit, k: Key)
    requires s.view.WellKeyed() && WaitersUnbacked(s) && Walks(visit, s.view.displays.Keys) && k in s.reg
    ensures var at := AtCollection(s, now, visit);
            k !in Advance(s, now, visit).0.reg <==>
              at.Quiet() && s.caps.destroySpace && IdleOnDeserted(s, at, k, now) && !HasAnother(at.view, at.reg[k].backing.value.space)
  {
    hide *;
    var b := AtCollection(s, now, visit);
    var moved := MovedKeys(Rebind(ReconcilePlacement(s, now).0, visit).1);
    RestUpholds(s, now, visit, k);
    UpheldIsThere(s, b, k, now);
    AdvanceRegistry(s, now, visit);
    CollectedRegistry(b, moved, now);
    AtCollectionFlight(s, now, visit);
    IdleParts(s, b, k, now);
    if b.Quiet() {
      JudgedIff(s, now, visit, k);
      StaleIff(b, moved, now, k);
    }
  }

  lemma IdleParts(s: State, b: State, k: Key, now: Instant)
    requires k in b.reg
    ensures Idle(s, b, k, now) ==> ShowsNormal(b.reg[k]) && b.reg[k].backing.Some? && b.reg[k].backing.value.Normal?
    ensures IdleOnDeserted(s, b, k, now) <==> Idle(s, b, k, now) && Deserted(b, b.reg[k].backing.value.space, now)
  {
    hide Deserted, Wanted;
  }

  lemma AtCollectionFlight(s: State, now: Instant, visit: Visit)
    requires s.view.WellKeyed()
    ensures var b := AtCollection(s, now, visit);
            b.view == s.view && b.caps == s.caps && (b.Quiet() ==> ReconcilePlacement(s, now).0.placement == None)
  {
    hide Rebind, PlacementPass, Strangers, View.WellKeyed;
  }

  // --------------------------------------------------------------- what is destroyed

  /** Idle on a deserted Space its display can spare. */
  ghost predicate GivesUp(s: State, at: State, k: Key, now: Instant) {
    IdleOnDeserted(s, at, k, now) && HasAnother(at.view, at.reg[k].backing.value.space)
  }

  lemma GivesUpParts(s: State, b: State, k: Key, now: Instant)
    ensures GivesUp(s, b, k, now) ==> k in b.reg && ShowsNormal(b.reg[k]) && k in s.reg
    ensures k in b.reg ==> (GivesUp(s, b, k, now) <==>
              Idle(s, b, k, now) && Deserted(b, b.reg[k].backing.value.space, now) && HasAnother(b.view, b.reg[k].backing.value.space))
  {
    hide Deserted, Wanted, HasAnother;
  }

  lemma {:induction false} DoomedIff(b: State, moved: set<Key>, now: Instant, k: Key)
    requires k in b.reg
    ensures k in Doomed(b, moved, now) <==>
              Judged(b, moved, k, now) && Deserted(b, b.reg[k].backing.value.space, now) && HasAnother(b.view, b.reg[k].backing.value.space)
  {
    hide Deserted, HasAnother, Empty, View.OrdinaryOn, Wanted;
    JudgedMeans(b, moved, k, now);
    if Judged(b, moved, k, now) {
      EmptyIffDeserted(b, k, now);
      if Deserted(b, b.reg[k].backing.value.space, now) {
        DesertedIsOrdinary(b, b.reg[k].backing.value.space, now);
        AnotherIffTwo(b.view, b.reg[k].backing.value.space);
      }
    }
  }

  predicate TextFirst(k: Key, j: Key) { TextLe((KeyText(k), k), (KeyText(j), j)) }

  lemma FirstIsFirst(ks: set<Key>)
    requires ks != {}
    ensures var k := FirstByText(ks); k in ks && forall j | j in ks :: TextFirst(k, j)
  {
    hide KeyText, TextLe;
    var ts := set k | k in ks :: (KeyText(k), k);
    TextTotal(ts);
    forall j | j in ks ensures (KeyText(j), j) in ts {
    }
    var k0 :| k0 in ks;
    assert (KeyText(k0), k0) in ts;
    assert FirstByText(ks) == Least(ts, TextLe).1;
  }

  lemma {:induction false} CollectsFirst(b: State, moved: set<Key>, now: Instant)
    ensures var (r, a), doomed := DestroyEmpty(b, moved, now), Doomed(b, moved, now);
            if b.caps.destroySpace && b.Quiet() && doomed != {} then
              var k := FirstByText(doomed);
              k in doomed && k in b.reg && ShowsNormal(b.reg[k]) && var x := b.reg[k].backing.value.space; a == [DestroySpace(x)] && r.pendingDestroy == map[x := k]
            else a == []
  {
    hide Swept, Stale, Doomed, State.Quiet, FirstByText;
  }

  /** Besides the one collected, only Spaces nobody knows are destroyed. */
  lemma {:induction false} OnlyCollectedOrUnknown(s: State, now: Instant, visit: Visit)
    requires s.view.WellKeyed()
    ensures var c := DestroyEmpty(AtCollection(s, now, visit), MovedKeys(Rebind(ReconcilePlacement(s, now).0, visit).1), now);
            var r := Advance(s, now, visit);
            && r.0.pendingDestroy == c.0.pendingDestroy && (forall a | a in c.1 :: a in r.1)
            && forall x: SpaceId | DestroySpace(x) in r.1 :: DestroySpace(x) in c.1 || !r.0.Known(x)
  {
    hide ReconcilePlacement, Rebind, GraceSurplus, DestroyEmpty, FulfillQueues, RequestMissing, TryStart, HealIfIdle, NextHeal, MovedKeys, Ascending;
    hide View.WellKeyed, State.Quiet, NoTopology, Strangers, State.Known;
    var (s1, a1) := ReconcilePlacement(s, now);
    var (s2, moves) := Rebind(s1, visit);
    var (s3, a3) := DestroyEmpty(GraceSurplus(s2, now), MovedKeys(moves), now);
    var (s4, a4) := FulfillQueues(s3, now);
    var s5 := RequestMissing(s4, Ascending(s4.view.displays.Keys));
    var (s6, a6) := TryStart(s5, now);
    HealTarget(s6, a1 + a3 + a4 + a6, now);
    var r := Advance(s, now, visit);
    forall x: SpaceId | DestroySpace(x) in r.1 ensures DestroySpace(x) in a3 || !r.0.Known(x) {
      WhoDestroys(a1, a3, a4, a6, if r.1 == a1 + a3 + a4 + a6 then None else NextHeal(s6, now), x);
      if !(a3 != [] && a3[0].space == x) {
        OrphanIsExpendable(s6, now);
        SameKnown(s6, r.0, x);
      }
    }
  }

  lemma SameKnown(a: State, b: State, x: SpaceId)
    requires a.reg == b.reg
    ensures a.Known(x) == b.Known(x)
  {
  }

  /** The first by text of the workspaces that give up their Space. */
  ghost predicate GivesUpFirst(s: State, at: State, k: Key, now: Instant) {
    GivesUp(s, at, k, now) && forall j | GivesUp(s, at, j, now) :: TextFirst(k, j)
  }

  lemma {:induction false} DoomedIsGivesUp(s: State, now: Instant, visit: Visit)
    requires s.view.WellKeyed() && WaitersUnbacked(s) && Walks(visit, s.view.displays.Keys)
    requires AtCollection(s, now, visit).Quiet()
    ensures var b, moved := AtCollection(s, now, visit), MovedKeys(Rebind(ReconcilePlacement(s, now).0, visit).1);
            forall k :: k in Doomed(b, moved, now) <==> GivesUp(s, b, k, now)
  {
    hide *;
    var b := AtCollection(s, now, visit);
    var moved := MovedKeys(Rebind(ReconcilePlacement(s, now).0, visit).1);
    AtCollectionFlight(s, now, visit);
    SameWorkspaces(s, now, visit);
    forall k ensures k in Doomed(b, moved, now) <==> GivesUp(s, b, k, now) {
      GivesUpParts(s, b, k, now);
      DoomedAreThere(b, moved, now);
      if k in b.reg {
        JudgedIff(s, now, visit, k);
        DoomedIff(b, moved, now, k);
      }
    }
  }

  lemma DoomedAreThere(b: State, moved: set<Key>, now: Instant)
    ensures forall k | k in Doomed(b, moved, now) :: k in b.reg
  {
    hide Judged, Empty, View.OrdinaryOn;
  }

  lemma {:induction false} SameWorkspaces(s: State, now: Instant, visit: Visit)
    requires s.view.WellKeyed() && ReconcilePlacement(s, now).0.placement == None
    ensures AtCollection(s, now, visit).reg.Keys == s.reg.Keys
  {
    hide AtCollection, RemapSlots, Rebind, ReconcilePlacement, MovedKeys, View.WellKeyed;
    QuietRebind(s, now, visit);
    RemapKeys(ReconcilePlacement(s, now).0, visit);
  }

  /**
   * With nothing in flight, the strip seen to included, and the means to destroy: if idle workspaces
   * stand on deserted Spaces their displays can spare, the first of them by the text of its key
   * has its Space destroyed, and that one only; if there is none, or something is in flight, no
   * Space any workspace knows is destroyed.
   */
  lemma {:induction false} WhatGoes(s: State, now: Instant, visit: Visit)
    requires s.view.WellKeyed() && WaitersUnbacked(s) && Walks(visit, s.view.displays.Keys)
    ensures var at, r := AtCollection(s, now, visit), Advance(s, now, visit);
            if at.Quiet() && s.caps.destroySpace && exists k :: GivesUp(s, at, k, now)
            then exists k :: GivesUpFirst(s, at, k, now) && k in at.reg && at.reg[k].ActiveSpace().Some?
                             && DestroySpace(at.reg[k].ActiveSpace().value) in r.1 && r.0.pendingDestroy == map[at.reg[k].ActiveSpace().value := k]
            else forall x: SpaceId | DestroySpace(x) in r.1 :: !r.0.Known(x)
  {
    hide *;
    var b := AtCollection(s, now, visit);
    var moved := MovedKeys(Rebind(ReconcilePlacement(s, now).0, visit).1);
    var r := Advance(s, now, visit);
    OnlyCollectedOrUnknown(s, now, visit);
    CollectsFirst(b, moved, now);
    AtCollectionFlight(s, now, visit);
    if b.Quiet() && b.caps.destroySpace {
      DoomedIsGivesUp(s, now, visit);
      SomeDoomed(Doomed(b, moved, now));
      if Doomed(b, moved, now) != {} {
        var k := FirstByText(Doomed(b, moved, now));
        FirstIsFirst(Doomed(b, moved, now));
        IsFirst(s, b, k, now);
        ShownSpace(b.reg[k]);
        assert DestroySpace(b.reg[k].ActiveSpace().value) in r.1;
      }
    }
  }

  lemma SomeDoomed(ks: set<Key>)
    ensures ks != {} <==> exists k :: k in ks
  {
  }

  lemma IsFirst(s: State, at: State, k: Key, now: Instant)
    requires GivesUp(s, at, k, now) && forall j | GivesUp(s, at, j, now) :: TextFirst(k, j)
    ensures GivesUpFirst(s, at, k, now)
  {
    hide GivesUp, TextFirst;
  }

  lemma ShownSpace(e: Entry)
    ensures ShowsNormal(e) ==> e.ActiveSpace() == Some(e.backing.value.space)
  {
  }

  // --------------------------------------------------------------------- healing

  /** A deserted Space nobody knows, past whatever grace it was given, that its display can spare. */
  ghost predicate Leftover(s: State, x: SpaceId, now: Instant) {
    && x in s.view.spaces && s.view.spaces[x].Ordinary() && !s.view.spaces[x].focused
    && (forall w | w in s.view.windows :: s.view.windows[w].space != Some(x))
    && (forall k | k in s.reg :: !s.reg[k].Holds(x))
    && (x in s.external ==> s.external[x] <= now) && HasAnother(s.view, x)
  }

  /** The leftover furthest along the strip. */
  ghost predicate LastLeftover(s: State, x: SpaceId, now: Instant) {
    && Leftover(s, x, now)
    && forall y | y in s.view.spaces && Leftover(s, y, now) :: x in s.view.spaces && SlotLe(s.view.spaces[y], s.view.spaces[x])
  }

  lemma {:induction false} OrphanIff(s: State, now: Instant, x: SpaceId)
    requires x in s.view.spaces
    ensures Leftover(s, x, now) ==> s.view.spaces[x] in Orphans(s, now)
    ensures s.view.spaces[x] in Orphans(s, now) && s.view.WellKeyed() ==> Leftover(s, x, now)
  {
    hide HasAnother;
    if s.view.Ordinary(x) {
      AnotherIffTwo(s.view, x);
    }
  }

  lemma {:induction false} HealTargetIs(s: State, now: Instant)
    requires s.view.WellKeyed()
    ensures var h := NextHeal(s, now);
            if s.caps.destroySpace && s.Quiet() && s.requests == [] && exists x :: x in s.view.spaces && Leftover(s, x, now)
            then h.Some? && LastLeftover(s, h.value, now) else h == None
  {
    hide Leftover, State.Quiet, Orphans, SlotLe, State.Known, View.OrdinaryOn;
    var xs := Orphans(s, now);
    OrphansAreThere(s, now);
    forall x | x in s.view.spaces ensures s.view.spaces[x] in xs <==> Leftover(s, x, now) {
      OrphanIff(s, now, x);
    }
    if xs != {} {
      SlotGeTotal(xs);
      var o :| o in xs;
      assert Leftover(s, o.id, now);
    }
  }

  lemma OrphansAreThere(s: State, now: Instant)
    requires s.view.WellKeyed()
    ensures forall o | o in Orphans(s, now) :: o.id in s.view.spaces && s.view.spaces[o.id] == o
  {
    hide State.Known, View.OrdinaryOn, View.Occupied;
  }

  /** The pass up to where it looks for leftovers. */
  ghost function BeforeHealing(s: State, now: Instant, visit: Visit): Outcome
    requires s.view.WellKeyed()
  {
    hide ReconcilePlacement, Rebind, GraceSurplus, DestroyEmpty, FulfillQueues, RequestMissing, TryStart, View.WellKeyed, MovedKeys, Ascending;
    var (s1, a1) := ReconcilePlacement(s, now);
    var (s3, a3) := DestroyEmpty(AtCollection(s, now, visit), MovedKeys(Rebind(s1, visit).1), now);
    var (s4, a4) := FulfillQueues(s3, now);
    var (s6, a6) := TryStart(RequestMissing(s4, Ascending(s4.view.displays.Keys)), now);
    (s6, a1 + a3 + a4 + a6)
  }

  lemma AdvanceHeals(s: State, now: Instant, visit: Visit)
    requires s.view.WellKeyed()
    ensures var b := BeforeHealing(s, now, visit); b.0.view == s.view && Advance(s, now, visit) == HealIfIdle(b.0, b.1, now)
  {
    hide ReconcilePlacement, Rebind, GraceSurplus, DestroyEmpty, FulfillQueues, RequestMissing, TryStart, HealIfIdle, MovedKeys, Ascending, View.WellKeyed, Strangers, State.Quiet, NoTopology;
  }

  lemma HealIfIdleIs(s: State, actions: seq<Action>, now: Instant)
    requires s.view.WellKeyed()
    ensures HealIfIdle(s, actions, now) ==
              if actions == [] && NextHeal(s, now).Some?
              then (s.(topologyDestroy := NextHeal(s, now)), [DestroySpace(NextHeal(s, now).value)]) else (s, actions)
  {
    hide NextHeal, State.Quiet, View.WellKeyed;
  }

  /**
   * A pass that has nothing else to do, with nothing in flight or queued and the means to destroy,
   * heals away the leftover furthest along the strip, if there is one; every other pass heals none.
   */
  lemma {:induction false} HealsLastLeftover(s: State, now: Instant, visit: Visit)
    requires s.view.WellKeyed()
    ensures var (b, actions) := BeforeHealing(s, now, visit);
            var r := Advance(s, now, visit);
            if actions == [] && b.caps.destroySpace && b.Quiet() && b.requests == [] && exists x :: x in b.view.spaces && Leftover(b, x, now)
            then exists x :: LastLeftover(b, x, now) && r == (b.(topologyDestroy := Some(x)), [DestroySpace(x)])
            else r == (b, actions)
  {
    hide *;
    AdvanceHeals(s, now, visit);
    var (b, actions) := BeforeHealing(s, now, visit);
    SameKeyed(s, b);
    HealTargetIs(b, now);
    HealIfIdleIs(b, actions, now);
    if NextHeal(b, now).Some? {
      var x := NextHeal(b, now).value;
      assert NextHeal(b, now) == Some(x);
    }
  }

  lemma SameKeyed(a: State, b: State)
    requires a.view.WellKeyed() && b.view == a.view
    ensures b.view.WellKeyed()
  {
  }

  // --------------------------------------------------------- strangers' own time

  lemma DoomedNotStale(b: State, moved: set<Key>, now: Instant, k: Key)
    requires k in Doomed(b, moved, now)
    ensures k !in Stale(b, moved, now)
  {
    hide Judged, View.OrdinaryOn, View.Occupied, RecentlyLeft;
  }

  /** The Space collected is still its workspace's. */
  lemma {:induction false} CollectedIsKnown(s: State, now: Instant, visit: Visit, x: SpaceId)
    requires s.view.WellKeyed()
    requires DestroySpace(x) in DestroyEmpty(AtCollection(s, now, visit), MovedKeys(Rebind(ReconcilePlacement(s, now).0, visit).1), now).1
    ensures Advance(s, now, visit).0.Known(x)
  {
    hide *;
    var b, moved := AtCollection(s, now, visit), MovedKeys(Rebind(ReconcilePlacement(s, now).0, visit).1);
    CollectsFirst(b, moved, now);
    CollectedRegistry(b, moved, now);
    AdvanceRegistry(s, now, visit);
    var k := FirstByText(Doomed(b, moved, now));
    DoomedNotStale(b, moved, now, k);
    KnownByOwner(Advance(s, now, visit).0, k, x);
  }

  lemma KnownByOwner(s: State, k: Key, x: SpaceId)
    requires k in s.reg && s.reg[k].backing == Some(Normal(x))
    ensures s.Known(x)
  {
    assert s.reg[k].Holds(x);
  }

  /** What is unknown after the pass was set aside before it collected, unless its display cannot spare it. */
  lemma {:induction false} UnknownWasSetAside(s: State, now: Instant, visit: Visit, x: SpaceId)
    requires s.view.WellKeyed() && WaitersUnbacked(s) && Walks(visit, s.view.displays.Keys)
    requires s.view.Ordinary(x) && HasAnother(s.view, x) && !Advance(s, now, visit).0.Known(x)
    ensures x in AtCollection(s, now, visit).external
  {
    hide *;
    var at, r := AtCollection(s, now, visit), Advance(s, now, visit).0;
    AtCollectionFlight(s, now, visit);
    AdvanceRegistry(s, now, visit);
    CollectedRegistry(at, MovedKeys(Rebind(ReconcilePlacement(s, now).0, visit).1), now);
    if at.Known(x) {
      var k := OneHolder(at, x);
      if k in r.reg {
        KnownByHolder(at, r, k, x);
      } else {
        SameWorkspaces(s, now, visit);
        WhoGoes(s, now, visit, k);
        HoldsOwnOnly(s, at, k, x, now);
      }
    } else {
      StrangersAreSetAside(s, now, visit, x);
    }
  }

  lemma OneHolder(s: State, x: SpaceId) returns (k: Key)
    requires s.Known(x)
    ensures k in s.reg && s.reg[k].Holds(x)
  {
    k :| k in s.reg && s.reg[k].Holds(x);
  }

  lemma KnownByHolder(a: State, b: State, k: Key, x: SpaceId)
    requires k in a.reg && a.reg[k].Holds(x) && k in b.reg && b.reg[k] == a.reg[k]
    ensures b.Known(x)
  {
  }

  lemma HoldsOwnOnly(s: State, at: State, k: Key, x: SpaceId, now: Instant)
    requires k in at.reg && at.reg[k].Holds(x) && IdleOnDeserted(s, at, k, now)
    ensures at.reg[k].backing == Some(Normal(x))
  {
    hide Wanted, Deserted;
  }

  lemma {:induction false} StrangersAreSetAside(s: State, now: Instant, visit: Visit, x: SpaceId)
    requires s.view.WellKeyed() && s.view.Ordinary(x) && !AtCollection(s, now, visit).Known(x)
    ensures x in AtCollection(s, now, visit).external
  {
    hide Rebind, ReconcilePlacement, View.WellKeyed, State.Known;
    var s2 := Rebind(ReconcilePlacement(s, now).0, visit).0;
    SameKnown(s2, GraceSurplus(s2, now), x);
  }

  lemma BeforeHealingExternal(s: State, now: Instant, visit: Visit)
    requires s.view.WellKeyed()
    ensures var b := BeforeHealing(s, now, visit).0;
            b.external == AtCollection(s, now, visit).external && b.view == s.view && b.reg == Advance(s, now, visit).0.reg
  {
    AdvanceHeals(s, now, visit);
    hide ReconcilePlacement, Rebind, GraceSurplus, DestroyEmpty, FulfillQueues, RequestMissing, TryStart, MovedKeys, Ascending, View.WellKeyed, State.Quiet, NoTopology, Advance, Strangers;
    CollectingKeepsExternal(AtCollection(s, now, visit), MovedKeys(Rebind(ReconcilePlacement(s, now).0, visit).1), now);
  }

  lemma CollectingKeepsExternal(b: State, moved: set<Key>, now: Instant)
    ensures DestroyEmpty(b, moved, now).0.external == b.external
  {
    hide *;
    CollectedShape(b, moved, now);
    SweepKeepsExternal(b, Stale(b, moved, now));
  }

  lemma SweepKeepsExternal(s: State, stale: set<Key>)
    ensures Swept(s, stale).external == s.external
  {
    hide SpacesOf, KeepFocus, KeepMoves;
  }

  /** What is set aside keeps the grace it has; what is new gets three seconds from now. */
  ghost predicate GraceKept(a: map<SpaceId, Instant>, b: map<SpaceId, Instant>, now: Instant) {
    forall x | x in b :: (x in a && b[x] == a[x]) || b[x] == now + 3_000
  }

  lemma GraceOn(a: map<SpaceId, Instant>, b: map<SpaceId, Instant>, c: map<SpaceId, Instant>, now: Instant)
    requires GraceKept(a, b, now) && GraceKept(b, c, now)
    ensures GraceKept(a, c, now)
  {
  }

  lemma {:induction false} BindKeepsGrace(s: State, todo: seq<Awaited>, now: Instant, visit: Visit)
    requires s.view.WellKeyed()
    ensures GraceKept(s.external, BindAll(s, todo, now, visit).external, now)
    decreases |todo|
  {
    hide BindOne, View.WellKeyed;
    if todo != [] {
      BindOneKeepsGrace(s, todo[0], now, visit);
      BindKeepsGrace(BindOne(s, todo[0], now, visit), todo[1..], now, visit);
      GraceOn(s.external, BindOne(s, todo[0], now, visit).external, BindAll(s, todo, now, visit).external, now);
    }
  }

  lemma BindOneKeepsGrace(s: State, a: Awaited, now: Instant, visit: Visit)
    requires s.view.WellKeyed()
    ensures GraceKept(s.external, BindOne(s, a, now, visit).external, now)
  {
    hide Released, BindTo, Candidates, View.WellKeyed, Expired, Aged;
    var b := Aged(a, now);
    ReleasedKeepsExternal(s, b.key);
    if b.key in s.reg && s.reg[b.key].backing.None? {
      CandidatesKeyed(s, b);
      if Candidates(s, b) != {} {
        BoundKeepsGrace(s, b.key, FirstSlot(Candidates(s, b)), now, visit);
      }
    }
  }

  lemma BoundKeepsGrace(s: State, k: Key, x: Space, now: Instant, visit: Visit)
    requires k in s.reg
    ensures GraceKept(s.external, BindTo(s, k, x, now, visit).external, now)
  {
    hide LogicalOrder;
  }

  lemma {:induction false} AdoptAllKeepsGrace(s: State, xs: seq<SpaceId>, now: Instant)
    requires forall x | x in xs :: x in s.view.spaces
    ensures GraceKept(s.external, AdoptAll(s, xs).external, now)
    decreases |xs|
  {
    hide AdoptOne;
    if xs != [] {
      AdoptOneKeepsGrace(s, xs[0], now);
      AdoptAllKeepsGrace(AdoptOne(s, xs[0]), xs[1..], now);
      GraceOn(s.external, AdoptOne(s, xs[0]).external, AdoptAll(s, xs).external, now);
    }
  }

  lemma AdoptOneKeepsGrace(s: State, x: SpaceId, now: Instant)
    requires x in s.view.spaces
    ensures GraceKept(s.external, AdoptOne(s, x).external, now)
  {
    hide NextName, NextOrdinal;
  }

  lemma SurplusKeepsGrace(s: State, now: Instant)
    ensures GraceKept(s.external, GraceSurplus(s, now).external, now)
  {
    hide Strangers;
  }

  lemma {:induction false} ObserveKeepsGrace(s: State, now: Instant)
    requires s.view.WellKeyed()
    ensures GraceKept(s.external, ObserveExternal(s, now).external, now)
  {
    hide View.WellKeyed, GraceSurplus, AdoptAll, Adoptable, State.Known;
    var s1 := s.(external := StillExternal(s));
    SurplusKeepsGrace(s1, now);
    var s2 := GraceSurplus(s1, now);
    GraceOn(s.external, s1.external, s2.external, now);
    if s.initialized && s.awaited == [] {
      AdoptAllKeepsGrace(s2, Adoptable(s2), now);
      GraceOn(s.external, s2.external, AdoptAll(s2, Adoptable(s2)).external, now);
    }
  }

  lemma FullscreenKeepsExternal(s: State, previous: map<WindowId, Window>, now: Instant, visit: Visit)
    ensures ReconcileFullscreen(s, previous, now, visit).external == s.external
  {
    hide FullscreenRegistry, Restored, ReserveOrder, SameFlight;
  }

  lemma {:induction false} SettledKeepsGrace(s: State, snap: Snapshot, now: Instant, visit: Visit)
    requires snap.complete && snap.WellKeyed()
    ensures GraceKept(s.external, Settled(s, snap, now, visit).external, now)
  {
    hide IsReset, SyncConfig, ReconcileFullscreen, WithoutVanished, BindAll, ObserveExternal, Settled, GraceKept, Snapshot.WellKeyed, View.WellKeyed;
    SettledAfterSync(s, snap, now, visit);
    var start := if IsReset(s.view, snap) then VoidReservations(s) else s;
    SyncKeepsExternal(start, snap, visit);
    var q := SyncConfig(Observe(start, snap), visit);
    NoneOrSame(s.external, q.external, now);
    FullscreenKeepsExternal(q, s.view.windows, now, visit);
    var s2 := ReconcileFullscreen(q, s.view.windows, now, visit);
    VanishedKeepsExternal(s2, now, IsReset(s.view, snap), visit);
    var s4 := WithoutVanished(s2, now, IsReset(s.view, snap), visit);
    BindKeepsGrace(s4.(awaited := []), s4.awaited, now, visit);
    var s6 := BindAwaited(s4, now, visit);
    GraceOn(s.external, s4.external, s6.external, now);
    ObserveKeepsGrace(s6, now);
    GraceOn(s.external, s6.external, ObserveExternal(s6, now).external, now);
  }

  lemma NoneOrSame(a: map<SpaceId, Instant>, b: map<SpaceId, Instant>, now: Instant)
    requires b == a || b == map[]
    ensures GraceKept(a, b, now)
  {
  }

  lemma CollectionKeepsGrace(s: State, now: Instant, visit: Visit)
    requires s.view.WellKeyed()
    ensures GraceKept(s.external, AtCollection(s, now, visit).external, now)
  {
    hide Rebind, ReconcilePlacement, View.WellKeyed, GraceKept, GraceSurplus;
    SurplusKeepsGrace(Rebind(ReconcilePlacement(s, now).0, visit).0, now);
  }

  lemma BeenThreeSeconds(a: map<SpaceId, Instant>, b: map<SpaceId, Instant>, now: Instant, x: SpaceId)
    requires GraceKept(a, b, now) && x in b && b[x] <= now
    ensures x in a && a[x] <= now
  {
  }

  lemma {:induction false} HealedOrCollected(s: State, now: Instant, visit: Visit, x: SpaceId)
    requires s.view.WellKeyed() && DestroySpace(x) in Advance(s, now, visit).1 && !Advance(s, now, visit).0.Known(x)
    ensures Leftover(BeforeHealing(s, now, visit).0, x, now)
  {
    hide *;
    HealsLastLeftover(s, now, visit);
    OnlyCollectedOrUnknown(s, now, visit);
    var (b, actions) := BeforeHealing(s, now, visit);
    OnlyOneDestroyer(s, now, visit, x);
    if y :| LastLeftover(b, y, now) && Advance(s, now, visit) == (b.(topologyDestroy := Some(y)), [DestroySpace(y)]) {
      LastIsLeftover(b, y, now);
    }
  }

  lemma LastIsLeftover(s: State, x: SpaceId, now: Instant)
    requires LastLeftover(s, x, now)
    ensures Leftover(s, x, now)
  {
    hide Leftover;
  }

  /** Before healing, the only Space a pass destroys is the one it collects. */
  lemma {:induction false} OnlyOneDestroyer(s: State, now: Instant, visit: Visit, x: SpaceId)
    requires s.view.WellKeyed() && !Advance(s, now, visit).0.Known(x)
    ensures DestroySpace(x) !in BeforeHealing(s, now, visit).1
  {
    hide ReconcilePlacement, Rebind, GraceSurplus, DestroyEmpty, FulfillQueues, RequestMissing, TryStart, MovedKeys, Ascending, View.WellKeyed, State.Quiet, NoTopology, Advance, Strangers, State.Known;
    if DestroySpace(x) in DestroyEmpty(AtCollection(s, now, visit), MovedKeys(Rebind(ReconcilePlacement(s, now).0, visit).1), now).1 {
      CollectedIsKnown(s, now, visit, x);
    }
    var (s1, a1) := ReconcilePlacement(s, now);
    var (s3, a3) := DestroyEmpty(AtCollection(s, now, visit), MovedKeys(Rebind(s1, visit).1), now);
    var (s4, a4) := FulfillQueues(s3, now);
    var (s6, a6) := TryStart(RequestMissing(s4, Ascending(s4.view.displays.Keys)), now);
    NotAmong(a1, a3, a4, a6, x);
  }

  lemma NotAmong(a1: seq<Action>, a3: seq<Action>, a4: seq<Action>, a6: seq<Action>, x: SpaceId)
    requires a1 == [] || (|a1| == 1 && a1[0].MoveSpace?)
    requires DestroySpace(x) !in a3 && NoTopology(a4) && (a6 == [] || (|a6| == 1 && a6[0].CreateSpace?))
    ensures DestroySpace(x) !in a1 + a3 + a4 + a6
  {
    assert DestroySpace(x).IsTopology() && DestroySpace(x) !in a4;
  }

  /** A look gives three seconds to what it sets aside anew, and never extends or cuts short what others have. */
  lemma {:induction false} LookKeepsGrace(s: State, snap: Snapshot, now: Instant, visit: Visit)
    requires snap.complete && snap.WellKeyed()
    ensures GraceKept(s.external, SnapshotStep(s, snap, now, visit).0.external, now)
  {
    hide *;
    CompleteStep(s, snap, now, visit);
    SettledKeepsGrace(s, snap, now, visit);
    var s0 := Settled(s, snap, now, visit);
    CollectionKeepsGrace(s0, now, visit);
    GraceOn(s.external, s0.external, AtCollection(s0, now, visit).external, now);
    AdvanceExternal(s0, now, visit);
  }

  lemma AdvanceExternal(s: State, now: Instant, visit: Visit)
    requires s.view.WellKeyed()
    ensures Advance(s, now, visit).0.external == AtCollection(s, now, visit).external
  {
    hide *;
    AdvanceHeals(s, now, visit);
    BeforeHealingExternal(s, now, visit);
    var (b, actions) := BeforeHealing(s, now, visit);
    SameKeyed(s, b);
    HealIfIdleIs(b, actions, now);
  }

  /** The Space is ordinary and its display shows another. */
  lemma LeftoverIsSpare(s: State, x: SpaceId, now: Instant)
    requires Leftover(s, x, now)
    ensures s.view.Ordinary(x) && HasAnother(s.view, x) && (x in s.external ==> s.external[x] <= now)
  {
    hide HasAnother;
  }

  lemma ViewOnly(a: State, b: State, x: SpaceId)
    requires b.view == a.view
    ensures a.view.Ordinary(x) == b.view.Ordinary(x) && HasAnother(a.view, x) == HasAnother(b.view, x)
  {
    hide HasAnother;
  }

  /** A Space nobody knows is destroyed only once it has been set aside and its time is over. */
  lemma {:induction false} StrangersGetTheirTime(s: State, snap: Snapshot, now: Instant, visit: Visit, x: SpaceId)
    requires snap.complete && snap.WellKeyed() && Tame(s) && (s.initialized || s.awaited == []) && Orderly(s, snap)
    requires Walks(visit, snap.displays.Keys)
    requires DestroySpace(x) in SnapshotStep(s, snap, now, visit).1 && !SnapshotStep(s, snap, now, visit).0.Known(x)
    ensures x in s.external && s.external[x] <= now
  {
    hide *;
    CompleteStep(s, snap, now, visit);
    var s0 := Settled(s, snap, now, visit);
    SettleKeepsTame(s, snap, now, visit);
    TameWaits(s0);
    SettledShows(s, snap, now, visit);
    HealedOrCollected(s0, now, visit, x);
    var b := BeforeHealing(s0, now, visit).0;
    BeforeHealingExternal(s0, now, visit);
    LeftoverIsSpare(b, x, now);
    ViewOnly(s0, b, x);
    UnknownWasSetAside(s0, now, visit, x);
    SettledKeepsGrace(s, snap, now, visit);
    CollectionKeepsGrace(s0, now, visit);
    GraceOn(s.external, s0.external, AtCollection(s0, now, visit).external, now);
    BeenThreeSeconds(s.external, AtCollection(s0, now, visit).external, now, x);
  }

  lemma SettledShows(s: State, snap: Snapshot, now: Instant, visit: Visit)
    requires snap.complete && snap.WellKeyed()
    ensures Settled(s, snap, now, visit).view.displays == snap.displays
  {
    hide Settled;
  }

  // -------------------------------------------------------- a grace runs out once

  /** The Space's time stays as it was, unless some workspace shows the Space now. */
  ghost predicate TimeStays(a: State, b: State, x: SpaceId) {
    x in a.external ==> (x in b.external && b.external[x] == a.external[x]) || b.Known(x)
  }

  lemma {:induction false} BindOneTime(s: State, a: Awaited, now: Instant, visit: Visit, x: SpaceId)
    requires s.view.WellKeyed()
    ensures TimeStays(s, BindOne(s, a, now, visit), x)
  {
    hide Released, BindTo, Candidates, View.WellKeyed, Expired, Aged, State.Known;
    var b := Aged(a, now);
    ReleasedKeepsExternal(s, b.key);
    if b.key in s.reg && s.reg[b.key].backing.None? {
      CandidatesKeyed(s, b);
      if Candidates(s, b) != {} {
        BoundTime(s, b.key, FirstSlot(Candidates(s, b)), now, visit, x);
      }
    }
  }

  lemma BoundTime(s: State, k: Key, y: Space, now: Instant, visit: Visit, x: SpaceId)
    requires k in s.reg
    ensures TimeStays(s, BindTo(s, k, y, now, visit), x)
  {
    hide LogicalOrder, State.Known;
    if x == y.id {
      KnownByOwner(BindTo(s, k, y, now, visit), k, x);
    }
  }

  lemma AdoptOneShows(s: State, y: SpaceId)
    requires y in s.view.spaces
    ensures var k, r := NextName(s.reg, s.view.spaces[y].display), AdoptOne(s, y);
            && (k.None? ==> r == s)
            && (k.Some? ==> k.value !in s.reg && k.value in r.reg && r.reg[k.value].backing == Some(Normal(y)) && r.external == s.external - {y})
            && forall j | j in s.reg :: j in r.reg && r.reg[j] == s.reg[j]
  {
    hide NextName, NextOrdinal, State.Known;
  }

  lemma KnownGrows(a: State, b: State, x: SpaceId)
    requires a.Known(x) && forall j | j in a.reg :: j in b.reg && b.reg[j] == a.reg[j]
    ensures b.Known(x)
  {
    var k := OneHolder(a, x);
    KnownByHolder(a, b, k, x);
  }

  lemma {:induction false} AdoptOneTime(s: State, y: SpaceId, x: SpaceId)
    requires y in s.view.spaces
    ensures TimeStays(s, AdoptOne(s, y), x) && (s.Known(x) ==> AdoptOne(s, y).Known(x))
  {
    hide AdoptOne, NextName, State.Known;
    AdoptOneShows(s, y);
    var k := NextName(s.reg, s.view.spaces[y].display);
    if k.Some? && x == y {
      KnownByOwner(AdoptOne(s, y), k.value, x);
    }
    if s.Known(x) {
      KnownGrows(s, AdoptOne(s, y), x);
    }
  }

  lemma {:induction false} AdoptAllTime(s: State, ys: seq<SpaceId>, x: SpaceId)
    requires forall y | y in ys :: y in s.view.spaces
    ensures TimeStays(s, AdoptAll(s, ys), x) && (s.Known(x) ==> AdoptAll(s, ys).Known(x))
    decreases |ys|
  {
    hide AdoptOne, State.Known;
    if ys != [] {
      AdoptOneTime(s, ys[0], x);
      AdoptAllTime(AdoptOne(s, ys[0]), ys[1..], x);
    }
  }

  lemma {:induction false} ObserveTime(s: State, now: Instant, x: SpaceId)
    requires s.view.WellKeyed() && x in s.view.spaces && !s.Known(x)
    ensures TimeStays(s, ObserveExternal(s, now), x)
  {
    hide View.WellKeyed, AdoptAll, Adoptable, State.Known, Strangers;
    var s2 := GraceSurplus(s.(external := StillExternal(s)), now);
    if s.initialized && s.awaited == [] {
      AdoptAllTime(s2, Adoptable(s2), x);
    }
  }

  lemma {:induction false} GatheredTime(s: State, snap: Snapshot, now: Instant, visit: Visit, x: SpaceId)
    requires snap.complete && snap.WellKeyed() && !IsReset(s.view, snap) && |s.awaited| <= 1
    ensures TimeStays(s, Gathered(s, snap, now, visit), x)
  {
    hide IsReset, SyncConfig, ReconcileFullscreen, WithoutVanished, BindOne, TimeStays, Snapshot.WellKeyed, View.WellKeyed;
    TakenInKeyed(s, snap, now, visit);
    SyncKeepsExternal(s, snap, visit);
    var q := SyncConfig(Observe(s, snap), visit);
    FullscreenKeepsExternal(q, s.view.windows, now, visit);
    var t := TakenIn(s, snap, now, visit);
    VanishedKeepsExternal(t, now, false, visit);
    var s4 := WithoutVanished(t, now, false, visit);
    var s5 := s4.(awaited := []);
    if s4.awaited == [] {
      SameTime(s, s5, x);
    } else {
      assert s4.awaited[1..] == [];
      assert BindAll(s5, s4.awaited, now, visit) == BindOne(s5, s4.awaited[0], now, visit);
      BindOneTime(s5, s4.awaited[0], now, visit, x);
      TimeFrom(s, s5, BindOne(s5, s4.awaited[0], now, visit), x);
    }
  }

  lemma SameTime(a: State, b: State, x: SpaceId)
    requires b.external == a.external
    ensures TimeStays(a, b, x)
  {
    hide State.Known;
  }

  lemma TimeFrom(a: State, b: State, c: State, x: SpaceId)
    requires b.external == a.external && TimeStays(b, c, x)
    ensures TimeStays(a, c, x)
  {
    hide State.Known;
  }

  /**
   * A Space set aside that is still there, in a topology that was not replaced, keeps the time it was
   * given, unless some workspace comes to show it as bindings settle.
   */
  lemma {:induction false} TimeRunsOut(s: State, snap: Snapshot, now: Instant, visit: Visit, x: SpaceId)
    requires snap.complete && snap.WellKeyed() && !IsReset(s.view, snap) && |s.awaited| <= 1 && x in s.external && x in snap.spaces
    requires !Gathered(s, snap, now, visit).Known(x) && !Settled(s, snap, now, visit).Known(x)
    ensures var r := SnapshotStep(s, snap, now, visit).0; x in r.external && r.external[x] == s.external[x]
  {
    hide *;
    CompleteStep(s, snap, now, visit);
    GatheredTime(s, snap, now, visit, x);
    SettledFromGathered(s, snap, now, visit);
    var g, s0 := Gathered(s, snap, now, visit), Settled(s, snap, now, visit);
    TimeMeans(s, g, x);
    ObserveTime(g, now, x);
    TimeMeans(g, s0, x);
    AdvanceExternal(s0, now, visit);
    CollectionTime(s0, now, visit, x);
  }

  lemma TimeMeans(a: State, b: State, x: SpaceId)
    requires TimeStays(a, b, x) && x in a.external && !b.Known(x)
    ensures x in b.external && b.external[x] == a.external[x]
  {
    hide State.Known;
  }

  lemma SettledFromGathered(s: State, snap: Snapshot, now: Instant, visit: Visit)
    requires snap.complete && snap.WellKeyed()
    ensures var g := Gathered(s, snap, now, visit);
            g.view.WellKeyed() && g.view.spaces == snap.spaces && Settled(s, snap, now, visit) == ObserveExternal(g, now)
  {
    hide Gathered, ObserveExternal, View.WellKeyed;
  }

  lemma CollectionTime(s: State, now: Instant, visit: Visit, x: SpaceId)
    requires s.view.WellKeyed() && x in s.external
    ensures var r := AtCollection(s, now, visit).external; x in r && r[x] == s.external[x]
  {
    hide Rebind, ReconcilePlacement, View.WellKeyed, Strangers;
  }
}
