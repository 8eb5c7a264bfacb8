/** A tree parked for a workspace without a Space comes back on the Space the workspace is bound to next. */
module ParkedTrees {
  import opened Basics
  import opened Geometry
  import opened Observed
  import opened Workspace
  import opened Remap
  import opened Lifecycle
  import opened Homes
  import opened Staying
  import opened TreeOwnership
  import opened TreeSurvival

  /** The workspace's tree is parked; it has no Space, or has just been bound to an ordinary one. */
  ghost predicate Waiting(s: State, k: Key, tree: Layout) {
    && k in s.reg && k in s.parked && s.parked[k] == tree
    && (s.reg[k].backing.Some? ==> s.reg[k].backing.value.Normal? && s.view.Ordinary(s.reg[k].backing.value.space))
  }

  /** The tree is parked while the workspace has no Space, and on its Space, no longer parked, when it has one. */
  ghost predicate WaitsOrLives(s: State, k: Key, tree: Layout)
    requires k in s.reg
  {
    if s.reg[k].backing.None? then k in s.parked && s.parked[k] == tree
    else
      var x := s.reg[k].ActiveSpace().value;
      k !in s.parked && x in s.layouts && s.layouts[x] == tree
  }

  /** The snapshot gives no cause to forget a workspace: not its display, not a destroy, not a creation that ran out. */
  ghost predicate Remembered(s: State, snap: Snapshot, now: Instant, k: Key) {
    && k in s.reg && s.reg[k].display in snap.displays && !BeingForgotten(s, snap, k)
    && (IsReset(s.view, snap) || SurvivesWait(s, now, k))
  }

  ghost predicate SurvivesWait(s: State, now: Instant, k: Key)
    requires k in s.reg
  {
    forall a | a in s.awaited && a.key == k :: !s.reg[k].dynamic || !Expired(Aged(a, now), now)
  }

  // ------------------------------------------------------- up to the bindings

  lemma {:induction false} InstantiateLowers(reg: Registry, next: nat, t: Template, targets: seq<DisplayId>, k: Key)
    requires k in reg
    ensures var r := Instantiate(reg, next, t, targets).0; k in r && (r[k].dynamic ==> reg[k].dynamic)
    decreases |targets|
  {
    if targets != [] {
      var j := Key(targets[0], t.name);
      var (reg', next') :=
        if j in reg then (reg[j := reg[j].(persistent := t.persistent, dynamic := false)], next)
        else (reg[j := Entry(t.name, targets[0], t.persistent, false, next, None, None)], next + 1);
      InstantiateLowers(reg', next', t, targets[1..], k);
    }
  }

  lemma {:induction false} InstantiateAllLowers(reg: Registry, next: nat, ts: seq<Template>, view: View, order: seq<DisplayId>, k: Key)
    requires k in reg
    ensures var r := InstantiateAll(reg, next, ts, view, order); k in r && (r[k].dynamic ==> reg[k].dynamic)
    decreases |ts|
  {
    hide Instantiate, TargetsOf;
    if ts != [] {
      InstantiateLowers(reg, next, ts[0], TargetsOf(ts[0], view, order), k);
      var (reg', next') := Instantiate(reg, next, ts[0], TargetsOf(ts[0], view, order));
      InstantiateAllLowers(reg', next', ts[1..], view, order, k);
    }
  }

  lemma {:induction false} SyncLowers(s: State, visit: Visit, k: Key)
    requires k in s.reg
    ensures var r := SyncConfig(s, visit); k in r.reg && r.reg[k].dynamic ==> s.reg[k].dynamic
  {
    hide NextOrdinal, InstantiateAll;
    InstantiateAllLowers(s.reg, NextOrdinal(s.reg), s.templates, s.view, visit.displays, k);
  }

  lemma {:induction false} TakenInWaits(s: State, snap: Snapshot, now: Instant, visit: Visit, k: Key)
    requires snap.complete && Remembered(s, snap, now, k) && k in s.parked && s.reg[k].backing == None
    ensures var r := TakenIn(s, snap, now, visit);
            && Waiting(r, k, s.parked[k]) && r.reg[k].backing == None && k !in Confirmed(r) && SurvivesWait(r, now, k)
  {
    hide IsReset, SyncConfig, FullscreenRegistry, Restored, ReserveOrder, Requeue, Expired, Aged;
    var s1 := Observe(if IsReset(s.view, snap) then VoidReservations(s) else s, snap);
    assert s1.reg == s.reg && s1.parked == s.parked;
    SyncKeeps(s1, visit, k);
    SyncLowers(s1, visit, k);
    var s2 := SyncConfig(s1, visit);
    FullscreenEntry(s2, s.view.windows, now, k);
  }

  lemma {:induction false} ForgetWaits(s: State, ks: set<Key>, k: Key, tree: Layout)
    requires Waiting(s, k, tree) && k !in ks
    ensures Waiting(RemoveAll(s, ks), k, tree) && RemoveAll(s, ks).reg[k] == s.reg[k]
  {
    hide SpacesOf, KeepFocus, KeepMoves;
  }

  lemma {:induction false} ParkWaits(s: State, ks: seq<Key>, k: Key, tree: Layout)
    requires Waiting(s, k, tree) && s.reg[k].backing == None
    ensures var r := ParkVanished(s, ks); Waiting(r, k, tree) && r.reg[k] == s.reg[k]
    decreases |ks|
  {
    hide ParkOne;
    if ks != [] {
      ParkOneWaits(s, ks[0], k, tree);
      ParkWaits(ParkOne(s, ks[0]), ks[1..], k, tree);
    }
  }

  lemma ParkOneWaits(s: State, j: Key, k: Key, tree: Layout)
    requires Waiting(s, k, tree) && s.reg[k].backing == None
    ensures Waiting(ParkOne(s, j), k, tree) && ParkOne(s, j).reg[k] == s.reg[k]
  {
    hide Requested;
  }

  lemma {:induction false} WithoutVanishedWaits(s: State, now: Instant, reset: bool, visit: Visit, k: Key, tree: Layout)
    requires Waiting(s, k, tree) && s.reg[k].backing == None && k !in Confirmed(s)
    ensures var r := WithoutVanished(s, now, reset, visit); Waiting(r, k, tree) && r.reg[k] == s.reg[k]
  {
    hide RemoveAll, Retire, ConfirmDestroys, ParkVanished, LastSeen;
    var s2 := NoteWindowSpaces(s, now);
    ConfirmWaits(s2, k, tree);
    var s3 := ConfirmDestroys(s2);
    if !reset {
      RetireWaits(s3, k, tree);
      ParkWaits(Retire(s3), visit.keys, k, tree);
    }
  }

  lemma RetireWaits(s: State, k: Key, tree: Layout)
    requires Waiting(s, k, tree) && s.reg[k].backing == None
    ensures Waiting(Retire(s), k, tree) && Retire(s).reg[k] == s.reg[k]
  {
    hide SpacesOf, KeepFocus, KeepMoves;
  }

  lemma ConfirmWaits(s: State, k: Key, tree: Layout)
    requires Waiting(s, k, tree) && k !in Confirmed(s)
    ensures Waiting(ConfirmDestroys(s), k, tree) && ConfirmDestroys(s).reg[k] == s.reg[k]
  {
    hide SpacesOf, KeepFocus, KeepMoves;
  }

  lemma {:induction false} BindOneWaits(s: State, a: Awaited, now: Instant, visit: Visit, k: Key, tree: Layout)
    requires s.view.WellKeyed() && Waiting(s, k, tree)
    requires a.key == k ==> !s.reg[k].dynamic || !Expired(Aged(a, now), now)
    ensures var r := BindOne(s, a, now, visit); Waiting(r, k, tree) && r.reg[k].dynamic == s.reg[k].dynamic
  {
    hide Released, BindTo, Candidates, View.WellKeyed, Waiting, Expired, Aged;
    var b := Aged(a, now);
    SameKey(a, now);
    WaitingIsThere(s, k, tree);
    if Expired(b, now) {
      ReleasedWaits(s, b.key, k, tree);
    } else if b.key in s.reg && s.reg[b.key].backing.None? {
      CandidatesKeyed(s, b);
      if Candidates(s, b) == {} {
        SameWaiting(s, s.(awaited := s.awaited + [b]), k, tree);
      } else {
        TakeableIsOrdinary(s, b, FirstSlot(Candidates(s, b)).id);
        BoundWaits(s, b.key, FirstSlot(Candidates(s, b)), now, visit, k, tree);
      }
    }
  }

  lemma SameKey(a: Awaited, now: Instant)
    ensures Aged(a, now).key == a.key
  {
  }

  lemma ReleasedWaits(s: State, j: Key, k: Key, tree: Layout)
    requires Waiting(s, k, tree) && (j == k ==> !s.reg[k].dynamic)
    ensures Waiting(Released(s, j), k, tree) && Released(s, j).reg[k] == s.reg[k]
  {
    hide RemoveAll;
    if j != k {
      ForgetWaits(s, {j}, k, tree);
    }
  }

  lemma BoundWaits(s: State, j: Key, x: Space, now: Instant, visit: Visit, k: Key, tree: Layout)
    requires Waiting(s, k, tree) && j in s.reg && s.view.Ordinary(x.id)
    ensures var r := BindTo(s, j, x, now, visit); Waiting(r, k, tree) && r.reg[k].dynamic == s.reg[k].dynamic
  {
    hide LogicalOrder;
  }

  lemma TakeableIsOrdinary(s: State, a: Awaited, x: SpaceId)
    requires MayTake(s, a, x)
    ensures s.view.Ordinary(x)
  {
  }

  lemma {:induction false} BindAllWaits(s: State, todo: seq<Awaited>, now: Instant, visit: Visit, k: Key, tree: Layout)
    requires s.view.WellKeyed() && Waiting(s, k, tree)
    requires forall a | a in todo && a.key == k :: !s.reg[k].dynamic || !Expired(Aged(a, now), now)
    ensures Waiting(BindAll(s, todo, now, visit), k, tree)
    decreases |todo|
  {
    hide BindOne, View.WellKeyed, Waiting, Expired, Aged;
    if todo != [] {
      WaitingIsThere(s, k, tree);
      BindOneWaits(s, todo[0], now, visit, k, tree);
      WaitingIsThere(BindOne(s, todo[0], now, visit), k, tree);
      BindAllWaits(BindOne(s, todo[0], now, visit), todo[1..], now, visit, k, tree);
    }
  }

  lemma WaitingIsThere(s: State, k: Key, tree: Layout)
    requires Waiting(s, k, tree)
    ensures k in s.reg
  {
  }

  lemma {:induction false} AdoptAllWaits(s: State, xs: seq<SpaceId>, k: Key, tree: Layout)
    requires (forall x | x in xs :: x in s.view.spaces) && Waiting(s, k, tree)
    ensures Waiting(AdoptAll(s, xs), k, tree)
    decreases |xs|
  {
    hide AdoptOne, Waiting;
    if xs != [] {
      AdoptOneWaits(s, xs[0], k, tree);
      AdoptAllWaits(AdoptOne(s, xs[0]), xs[1..], k, tree);
    }
  }

  lemma {:induction false} AdoptOneWaits(s: State, x: SpaceId, k: Key, tree: Layout)
    requires x in s.view.spaces && Waiting(s, k, tree)
    ensures Waiting(AdoptOne(s, x), k, tree)
  {
    hide NextName, NextOrdinal;
  }

  /** Bindings settle with the tree still parked, whether or not its workspace has been bound by then. */
  lemma {:induction false} SettledWaits(s: State, snap: Snapshot, now: Instant, visit: Visit, k: Key)
    requires snap.complete && snap.WellKeyed() && Remembered(s, snap, now, k) && k in s.parked && s.reg[k].backing == None
    ensures Waiting(Settled(s, snap, now, visit), k, s.parked[k])
  {
    hide IsReset, TakenIn, WithoutVanished, BindAll, View.WellKeyed, Snapshot.WellKeyed, Remembered, Confirmed, Expired, Aged, ObserveExternal, Waiting;
    TakenInWaits(s, snap, now, visit, k);
    TakenInKeyed(s, snap, now, visit);
    var tree := s.parked[k];
    var reset := IsReset(s.view, snap);
    var s2 := TakenIn(s, snap, now, visit);
    WithoutVanishedWaits(s2, now, reset, visit, k, tree);
    var s4 := WithoutVanished(s2, now, reset, visit);
    SameWaiting(s4, s4.(awaited := []), k, tree);
    WaitingIsThere(s4, k, tree);
    BindAllWaits(s4.(awaited := []), s4.awaited, now, visit, k, tree);
    ObserveWaits(BindAwaited(s4, now, visit), now, k, tree);
  }

  lemma SameWaiting(s: State, r: State, k: Key, tree: Layout)
    requires Waiting(s, k, tree) && r.reg == s.reg && r.parked == s.parked && r.view == s.view
    ensures Waiting(r, k, tree)
  {
  }

  lemma {:induction false} ObserveWaits(s: State, now: Instant, k: Key, tree: Layout)
    requires s.view.WellKeyed() && Waiting(s, k, tree)
    ensures Waiting(ObserveExternal(s, now), k, tree)
  {
    hide View.WellKeyed, StillExternal, AdoptAll, Adoptable, Waiting, Strangers;
    var s1 := s.(external := StillExternal(s));
    var s2 := GraceSurplus(s1, now);
    SameWaiting(s, s1.(initialized := true), k, tree);
    SameWaiting(s, s2, k, tree);
    if s.initialized && s.awaited == [] {
      AdoptAllWaits(s2, Adoptable(s2), k, tree);
    }
  }

  // ------------------------------------------------------------ the remap stage

  lemma {:induction false} MovesSpareParked(t: Trees, spaces: set<SpaceId>, moves: seq<RemapMove>, k: Key)
    requires k in t.parked && forall i | 0 <= i < |moves| && moves[i].key == k :: moves[i].from.None? || moves[i].from.value in spaces
    ensures var r := MoveTrees(t, spaces, moves); k in r.parked && r.parked[k] == t.parked[k]
    decreases |moves|
  {
    if moves != [] {
      MovesSpareParked(MoveTree(t, spaces, moves[0]), spaces, moves[1..], k);
    }
  }

  /** What is reported for a workspace is where it was and where it is. */
  lemma {:induction false} MovesFromOwn(s: State, visit: Visit, m: RemapMove)
    requires s.view.WellKeyed() && Walks(visit, s.view.displays.Keys) && m in RemapSlots(s, visit).1
    ensures m.key in s.reg && m.key in RemapSlots(s, visit).0.reg && !s.reg[m.key].IsFullscreen()
    ensures MoveOf(m.key, s.reg[m.key], RemapSlots(s, visit).0.reg[m.key]) == [m]
  {
    if s.placement.None? {
      assert forall d :: d in visit.displays <==> d in Elements(visit.displays);
      var free := s.reg - Held(s);
      var after := Remapped(free, SlotSpaces(s), s.view.displays.Keys);
      RemapSameKeys(free, SlotSpaces(s), s.view.displays.Keys);
      forall j | j in free && free[j].IsFullscreen() && free[j].display in s.view.displays ensures after[j] == free[j] {
      }
      assert m.key in free && free[m.key].IsFullscreen() ==> MoveOf(m.key, free[m.key], free[m.key]) == [];
      hide Remapped, Held;
      MovesAreChanges(free, after, visit.displays);
    }
  }

  /** Where a waiting workspace is shown after the remap, nobody else is. */
  lemma {:induction false} ShownAlone(s: State, visit: Visit, k: Key, tree: Layout, j: Key)
    requires s.view.WellKeyed() && Tame(s) && FullscreenShown(s) && Waiting(s, k, tree) && j != k
    ensures var r := RemapSlots(s, visit).0; ShownOn(r.reg, j).Some? ==> ShownOn(r.reg, j) != ShownOn(r.reg, k)
  {
    hide RemapSlots, View.WellKeyed, Distinct, WaitsOnce, Predates;
    if s.placement.None? {
      RemapKeys(s, visit);
      RemapGives(s, visit, k);
      if j in s.reg {
        RemapGives(s, visit, j);
        RemapSeparates(s, visit, j, k);
      }
    } else {
      PlacedStay(s, visit);
      TameIsDistinct(s);
      if j in s.reg {
        OwnApart(s, j, k);
      }
    }
  }

  lemma PlacedStay(s: State, visit: Visit)
    requires s.view.WellKeyed() && s.placement.Some?
    ensures RemapSlots(s, visit) == (s, [])
  {
  }

  lemma OwnApart(s: State, j: Key, k: Key)
    requires Distinct(s.reg) && j in s.reg && k in s.reg && j != k
    ensures ShowsNormal(s.reg[j]) && ShowsNormal(s.reg[k]) ==> s.reg[j].ActiveSpace() != s.reg[k].ActiveSpace()
  {
    assert s.reg[j].Home().Some? ==> s.reg[j].Home() != s.reg[k].Home();
  }

  /** A waiting workspace that ends up with a Space gets its tree back on it, whoever else is reattached first. */
  lemma {:induction false} RebindReturns(s: State, visit: Visit, k: Key, tree: Layout)
    requires s.view.WellKeyed() && Tame(s) && FullscreenShown(s) && Waiting(s, k, tree)
    requires Walks(visit, s.view.displays.Keys) && Meets(s, visit, k)
    ensures var r := Rebind(s, visit).0;
            k in r.reg && !r.reg[k].IsFullscreen() && WaitsOrLives(r, k, tree)
  {
    hide RemapSlots, MoveTrees, Reattach, View.WellKeyed, Tame, FullscreenShown, Waiting, Walks;
    var (s1, moves) := RemapSlots(s, visit);
    var spaces := s1.view.spaces.Keys;
    WaitingRemapped(s, visit, k, tree);
    WaitingMovesNothing(s, visit, k, tree);
    MovesSpareParked(s1.AllTrees(), spaces, moves, k);
    var t1 := MoveTrees(s1.AllTrees(), spaces, moves);
    forall j | j in t1.parked && j != k && ShownOn(s1.reg, j).Some? ensures ShownOn(s1.reg, j) != ShownOn(s1.reg, k) {
      ShownAlone(s, visit, k, tree, j);
    }
    if ShownOn(s1.reg, k).Some? {
      ReattachServes(t1, s1.reg, visit.parked, k);
    } else {
      ReattachSpares(t1, s1.reg, visit.parked, {}, k);
    }
  }

  lemma {:induction false} WaitingRemapped(s: State, visit: Visit, k: Key, tree: Layout)
    requires s.view.WellKeyed() && Tame(s) && Waiting(s, k, tree)
    ensures var r := RemapSlots(s, visit).0; k in r.reg && !r.reg[k].IsFullscreen() && k in r.parked && r.parked[k] == tree
  {
    hide RemapSlots, View.WellKeyed, Distinct, WaitsOnce, Predates;
    if s.placement.None? {
      RemapGives(s, visit, k);
    } else {
      PlacedStay(s, visit);
    }
  }

  lemma {:induction false} WaitingMovesNothing(s: State, visit: Visit, k: Key, tree: Layout)
    requires s.view.WellKeyed() && Waiting(s, k, tree) && Walks(visit, s.view.displays.Keys)
    ensures var moves := RemapSlots(s, visit).1;
            forall i | 0 <= i < |moves| && moves[i].key == k :: moves[i].from.None? || moves[i].from.value in s.view.spaces
  {
    hide RemapSlots, View.WellKeyed, Walks;
    var moves := RemapSlots(s, visit).1;
    forall i | 0 <= i < |moves| && moves[i].key == k ensures moves[i].from.None? || moves[i].from.value in s.view.spaces {
      MovesFromOwn(s, visit, moves[i]);
    }
  }

  // ------------------------------------------------------------- what follows

  lemma {:induction false} CollectReturns(s: State, moved: set<Key>, now: Instant, k: Key, tree: Layout)
    requires Distinct(s.reg) && k in s.reg && !s.reg[k].IsFullscreen() && WaitsOrLives(s, k, tree)
    ensures var r := DestroyEmpty(s, moved, now).0; k in r.reg ==> WaitsOrLives(r, k, tree)
  {
    hide Stale, Swept, Condemned, Distinct, WaitsOrLives, State.Quiet;
    var s1 := Swept(s, Stale(s, moved, now));
    StaleAreShown(s, moved, now);
    SweptReturns(s, Stale(s, moved, now), k, tree);
    var r := DestroyEmpty(s, moved, now).0;
    if s.caps.destroySpace && s.Quiet() && k in s1.reg {
      SameLives(s1, r, k, tree);
    }
  }

  lemma SameLives(s: State, r: State, k: Key, tree: Layout)
    requires k in s.reg && r.reg == s.reg && r.AllTrees() == s.AllTrees() && WaitsOrLives(s, k, tree)
    ensures WaitsOrLives(r, k, tree)
  {
  }

  lemma StaleAreShown(s: State, moved: set<Key>, now: Instant)
    ensures forall j | j in Stale(s, moved, now) :: j in s.reg && !s.reg[j].IsFullscreen()
  {
    hide Empty, View.OrdinaryOn;
  }

  lemma {:induction false} SweptReturns(s: State, stale: set<Key>, k: Key, tree: Layout)
    requires Distinct(s.reg) && k in s.reg && !s.reg[k].IsFullscreen() && WaitsOrLives(s, k, tree)
    requires forall j | j in stale :: j in s.reg && !s.reg[j].IsFullscreen()
    ensures var r := Swept(s, stale); k in r.reg ==> WaitsOrLives(r, k, tree)
  {
    hide KeepFocus, KeepMoves, SpacesOf, Distinct;
    if k !in stale && s.reg[k].backing.Some? {
      NotTheirSpace(s.reg, stale, k);
    }
  }

  lemma NotTheirSpace(reg: Registry, ks: set<Key>, k: Key)
    requires Distinct(reg) && k in reg && k !in ks && !reg[k].IsFullscreen() && reg[k].backing.Some?
    requires forall j | j in ks :: j in reg && !reg[j].IsFullscreen()
    ensures reg[k].ActiveSpace().value !in SpacesOf(reg, ks)
  {
    assert forall j | j in ks :: reg[j].Home() != reg[k].Home();
  }

  lemma {:induction false} AdvanceReturns(s: State, now: Instant, visit: Visit, k: Key, tree: Layout)
    requires s.view.WellKeyed() && Tame(s) && FullscreenShown(s) && (s.awaited != [] ==> StrangersSetAside(s)) && Waiting(s, k, tree)
    requires Walks(visit, s.view.displays.Keys) && Meets(ReconcilePlacement(s, now).0, visit, k)
    ensures var r := Advance(s, now, visit).0; k in r.reg ==> WaitsOrLives(r, k, tree)
  {
    hide ReconcilePlacement, Rebind, GraceSurplus, DestroyEmpty, FulfillQueues, RequestMissing, TryStart, HealIfIdle, MovedKeys, Ascending;
    hide View.WellKeyed, Tame, FullscreenShown, StrangersSetAside, NoTopology, Strangers, Walks, Waiting, WaitsOrLives, Meets;
    var s1 := ReconcilePlacement(s, now).0;
    OnlyPlacement(s, s1);
    SameWaiting(s, s1, k, tree);
    RebindReturns(s1, visit, k, tree);
    RebindKeepsTame(s1, visit);
    var (s2, moves) := Rebind(s1, visit);
    TameIsDistinct(s2);
    var g := GraceSurplus(s2, now);
    SameLives(s2, g, k, tree);
    CollectReturns(g, MovedKeys(moves), now, k, tree);
    var s3 := DestroyEmpty(g, MovedKeys(moves), now).0;
    var r := Advance(s, now, visit).0;
    assert r.reg == s3.reg && r.AllTrees() == s3.AllTrees();
    if k in r.reg {
      SameLives(s3, r, k, tree);
    }
  }

  /**
   * A tree parked for a workspace without a Space: after a complete snapshot that gives no cause
   * to forget the workspace, whether an awaited creation, the positional remap or nothing bound
   * it, and whether or not the strip is being put in order, the tree is on the Space the
   * workspace shows and no longer parked, or still parked while it shows none.
   */
  lemma {:induction false} ParkedTreeReturns(s: State, snap: Snapshot, now: Instant, visit: Visit, k: Key)
    requires snap.complete && snap.WellKeyed() && Tame(s) && (s.initialized || s.awaited == []) && Orderly(s, snap)
    requires WalksAll(s, snap, now, visit)
    requires Remembered(s, snap, now, k) && k in s.parked && s.reg[k].backing == None
    ensures var r := SnapshotStep(s, snap, now, visit).0; k in r.reg ==> WaitsOrLives(r, k, s.parked[k])
  {
    hide Settled, Advance, Tame, Orderly, FullscreenShown, StrangersSetAside, Waiting, WaitsOrLives, Walks, WalksAll, Meets, Snapshot.WellKeyed, View.WellKeyed;
    SettledWaits(s, snap, now, visit, k);
    SettleKeepsTame(s, snap, now, visit);
    WalksMeet(s, snap, now, visit, k);
    var s0 := Settled(s, snap, now, visit);
    AdvanceReturns(s0, now, visit, k, s.parked[k]);
  }
}
