/** The tree of a workspace that goes native fullscreen across a topology reset: kept, then out of reach. */
module StrandedTree {
  import opened Basics
  import opened Geometry
  import opened Observed
  import opened Workspace
  import opened Remap
  import opened Lifecycle
  import opened Homes
  import opened Staying
  import opened TreeOwnership
  import opened TreeSurvival
  import opened ParkedTrees

  // ---------------------------------------------------------- leaving fullscreen

  /** A workspace leaving fullscreen keeps its tree if and only if its own Space is there to come back to. */
  lemma {:induction false} LeavingKeepsTreeIff(s: State, previous: map<WindowId, Window>, now: Instant, visit: Visit, k: Key)
    requires k in s.reg && s.reg[k].IsFullscreen() && FullscreenLost(s, s.reg[k].backing.value)
    requires k !in s.parked && Owned(s, k).Some?
    ensures var r := ReconcileFullscreen(s, previous, now, visit);
            && r.layouts == s.layouts && r.parked == s.parked && k in r.reg
            && Owned(r, k) == (if s.view.Ordinary(s.reg[k].backing.value.restoreSpace) then Owned(s, k) else None)
  {
    hide Restored, ReserveOrder, FullscreenLost;
    FullscreenEntry(s, previous, now, k);
    hide FullscreenRegistry;
  }

  // --------------------------------------------------------- entering it, reset

  /** The workspace is fullscreen away from a Space that is gone, and its tree is where it was. */
  ghost predicate Away(s: State, r: State, k: Key, home: SpaceId) {
    && k in r.reg && r.reg[k].IsFullscreen() && r.reg[k].backing.value.restoreSpace == home && r.reg[k].display in r.view.displays
    && home !in r.view.spaces && k !in r.parked
    && (home in r.layouts <==> home in s.layouts) && (home in r.layouts ==> r.layouts[home] == s.layouts[home])
  }

  /** In a snapshot of all-new Spaces a window the workspace's Space held shows a native fullscreen Space nobody shows. */
  ghost predicate Enters(s: State, snap: Snapshot, now: Instant, k: Key, w: WindowId)
    requires k in s.reg
  {
    && s.reg[k].backing.Some? && s.reg[k].backing.value.Normal? && s.view.Ordinary(s.reg[k].backing.value.space)
    && ShowsFullscreen(snap, w) && !s.Claimed(snap.windows[w].space.value)
    && CameFrom(s, s.view.windows, w, s.reg[k].backing.value.space, now)
  }

  ghost predicate NobodyShows(reg: Registry, x: SpaceId) {
    forall j | j in reg :: reg[j].ActiveSpace() != Some(x)
  }

  lemma {:induction false} AwayNobodyShows(s: State, r: State, k: Key, home: SpaceId)
    requires Tame(r) && FullscreenShown(r) && Away(s, r, k, home)
    ensures NobodyShows(r.reg, home)
  {
    hide WaitersUnbacked, WaitsOnce, Predates;
    forall j | j in r.reg ensures r.reg[j].ActiveSpace() != Some(home) {
      if j != k {
        assert r.reg[k].Home() != r.reg[j].Home();
      }
    }
  }

  lemma {:induction false} TakenInAway(s: State, snap: Snapshot, now: Instant, visit: Visit, k: Key, w: WindowId, home: SpaceId)
    requires snap.complete && IsReset(s.view, snap) && k in s.reg && s.reg[k].display in snap.displays && k !in s.parked
    requires Enters(s, snap, now, k, w) && s.reg[k].Home() == Some(home)
    ensures Away(s, TakenIn(s, snap, now, visit), k, home)
  {
    hide IsReset, SyncConfig, ReconcileFullscreen, Substituted, FullscreenRegistry, Requeue, CameFrom, Entering, OwnedFullscreen;
    ResetIsGone(s, snap, home);
    var s1 := Observe(VoidReservations(s), snap);
    SyncKeeps(s1, visit, k);
    var s2 := SyncConfig(s1, visit);
    StillEnters(s, snap, s1, s2, now, visit, k, w, home);
    FullscreenEntry(s2, s.view.windows, now, k);
    EnteredEntry(s2, s.view.windows, now, s2.reg[k], home);
    FullscreenKeepsTrees(s2, s.view.windows, now, visit);
  }

  lemma ResetIsGone(s: State, snap: Snapshot, home: SpaceId)
    requires IsReset(s.view, snap) && s.view.Ordinary(home)
    ensures home !in snap.spaces
  {
  }

  lemma EnteredEntry(s: State, previous: map<WindowId, Window>, now: Instant, e: Entry, home: SpaceId)
    requires e.backing == Some(Normal(home)) && Entering(s, previous, home, now) != {}
    ensures var r := Substituted(s, previous, now, e);
            r.IsFullscreen() && r.backing.value.restoreSpace == home && r.display == e.display
  {
    hide Entering;
  }

  lemma FullscreenKeepsTrees(s: State, previous: map<WindowId, Window>, now: Instant, visit: Visit)
    ensures ReconcileFullscreen(s, previous, now, visit).AllTrees() == s.AllTrees()
  {
    hide Restored, ReserveOrder, FullscreenRegistry;
  }

  lemma {:induction false} StillEnters(
      s: State, snap: Snapshot, s1: State, s2: State, now: Instant, visit: Visit, k: Key, w: WindowId, home: SpaceId)
    requires snap.complete && s1 == Observe(VoidReservations(s), snap) && s2 == SyncConfig(s1, visit)
    requires k in s.reg && Enters(s, snap, now, k, w) && s.reg[k].Home() == Some(home)
    ensures Entering(s2, s.view.windows, home, now) != {}
  {
    hide SyncConfig, Requeue, Entering, OwnedFullscreen;
    var f := snap.windows[w].space.value;
    assert s1.Claimed(f) == s.Claimed(f);
    SyncSeesTheSame(s1, visit);
    StillUnclaimed(s1, s2, visit, f);
    EnteringHas(s2, s.view.windows, home, now, w);
  }

  lemma {:induction false} StillUnclaimed(s: State, r: State, visit: Visit, f: SpaceId)
    requires r == SyncConfig(s, visit) && !s.Claimed(f)
    ensures !r.Claimed(f)
  {
    hide SyncConfig;
    SyncShrinks(s, visit);
    forall j | j in r.reg ensures r.reg[j].ActiveSpace() != Some(f) {
      if j in s.reg {
        SyncKeeps(s, visit, j);
        assert s.reg[j].ActiveSpace() != Some(f);
      }
    }
  }

  lemma EnteringHas(s: State, previous: map<WindowId, Window>, home: SpaceId, now: Instant, w: WindowId)
    requires w in s.view.windows && s.view.windows[w].space.Some? && CameFrom(s, previous, w, home, now)
    requires var f := s.view.windows[w].space.value;
             f in s.view.spaces && s.view.spaces[f].isFullscreen && !s.view.spaces[f].isSystem && !s.Claimed(f)
    ensures Entering(s, previous, home, now) != {}
  {
    hide CameFrom;
    assert w in Entering(s, previous, home, now);
  }

  // ------------------------------------------------------ the rest of the pass

  lemma {:induction false} SettledAway(s: State, snap: Snapshot, now: Instant, visit: Visit, k: Key, w: WindowId, home: SpaceId)
    requires snap.complete && snap.WellKeyed() && IsReset(s.view, snap) && Tame(s) && StaysGone(s, snap)
    requires k in s.reg && s.reg[k].display in snap.displays && k !in s.parked
    requires Enters(s, snap, now, k, w) && s.reg[k].Home() == Some(home)
    ensures var r := Settled(s, snap, now, visit); k in r.reg ==> Away(s, r, k, home)
  {
    hide IsReset, TakenIn, WithoutVanished, Tame, FullscreenShown, Away, Enters, Snapshot.WellKeyed, View.WellKeyed, StaysGone, StillExternal;
    TakenInAway(s, snap, now, visit, k, w, home);
    TakenInStaysTame(s, snap, now, visit);
    TakenInKeyed(s, snap, now, visit);
    var s2 := TakenIn(s, snap, now, visit);
    AwayNobodyShows(s, s2, k, home);
    var s4 := WithoutVanished(s2, now, true, visit);
    ConfirmedAway(s, s2, now, visit, k, home);
    BindsNobody(s4, now, visit);
    var r := Settled(s, snap, now, visit);
    assert r.reg == s4.reg && r.AllTrees() == s4.AllTrees() && r.view == s4.view;
    if k in r.reg {
      SameAway(s, s4, r, k, home);
    }
  }

  lemma SameAway(s: State, a: State, b: State, k: Key, home: SpaceId)
    requires Away(s, a, k, home) && b.reg == a.reg && b.AllTrees() == a.AllTrees() && b.view == a.view
    ensures Away(s, b, k, home)
  {
  }

  lemma {:induction false} ConfirmedAway(s: State, r: State, now: Instant, visit: Visit, k: Key, home: SpaceId)
    requires Away(s, r, k, home) && NobodyShows(r.reg, home)
    ensures var q := WithoutVanished(r, now, true, visit); k in q.reg ==> Away(s, q, k, home)
  {
    hide LastSeen, KeepFocus, KeepMoves;
  }

  lemma {:induction false} RemapLeavesAway(s: State, visit: Visit, k: Key, r: State, home: SpaceId)
    requires r.view.WellKeyed() && Tame(r) && Away(s, r, k, home)
    ensures k in RemapSlots(r, visit).0.reg && RemapSlots(r, visit).0.reg[k] == r.reg[k]
  {
    if r.placement.None? {
      RemapPieces(r, visit);
      HeldUnbacked(r);
    } else {
      PlacedStay(r, visit);
    }
    hide RemapSlots, Tame, FreeSlots, Claimants;
  }

  lemma {:induction false} RemapKeepsHidden(s: State, visit: Visit, x: SpaceId, j: Key)
    requires s.view.WellKeyed() && Tame(s) && FullscreenShown(s) && NobodyShows(s.reg, x) && x !in s.view.spaces
    ensures ShownOn(RemapSlots(s, visit).0.reg, j) != Some(x)
  {
    hide RemapSlots, View.WellKeyed, Distinct, WaitsOnce, Predates;
    if s.placement.Some? {
      PlacedStay(s, visit);
    } else {
      RemapKeys(s, visit);
      if j in s.reg {
        RemapGives(s, visit, j);
      }
    }
  }

  lemma {:induction false} MovesSpareHidden(s: State, visit: Visit, x: SpaceId, k: Key)
    requires s.view.WellKeyed() && Tame(s) && FullscreenShown(s) && NobodyShows(s.reg, x) && x !in s.view.spaces
    requires Walks(visit, s.view.displays.Keys) && k in s.reg && s.reg[k].IsFullscreen()
    ensures Spares(RemapSlots(s, visit).1, {x}, k)
  {
    hide RemapSlots, View.WellKeyed, Tame, FullscreenShown, Walks;
    var (r, moves) := RemapSlots(s, visit);
    forall i | 0 <= i < |moves| ensures SparesOne(moves[i], {x}, k) {
      MovesFromOwn(s, visit, moves[i]);
      RemapKeepsHidden(s, visit, x, moves[i].key);
    }
  }

  lemma {:induction false} RebindAway(s: State, r: State, visit: Visit, k: Key, home: SpaceId)
    requires r.view.WellKeyed() && Tame(r) && FullscreenShown(r) && Away(s, r, k, home) && Walks(visit, r.view.displays.Keys)
    ensures Away(s, Rebind(r, visit).0, k, home)
  {
    hide RemapSlots, View.WellKeyed, Tame, FullscreenShown, Walks, MoveTrees, Reattach, Spares;
    AwayNobodyShows(s, r, k, home);
    RemapLeavesAway(s, visit, k, r, home);
    MovesSpareHidden(r, visit, home, k);
    var (r1, moves) := RemapSlots(r, visit);
    MovesSpare(r1.AllTrees(), r1.view.spaces.Keys, moves, {home}, k);
    var t := MoveTrees(r1.AllTrees(), r1.view.spaces.Keys, moves);
    forall j | j in t.parked && j != k && ShownOn(r1.reg, j).Some? ensures ShownOn(r1.reg, j).value !in {home} {
      RemapKeepsHidden(r, visit, home, j);
    }
    ReattachSpares(t, r1.reg, visit.parked, {home}, k);
  }

  lemma {:induction false} CollectAway(s: State, r: State, moved: set<Key>, now: Instant, k: Key, home: SpaceId)
    requires Away(s, r, k, home) && NobodyShows(r.reg, home)
    ensures var q := DestroyEmpty(r, moved, now).0; k in q.reg ==> Away(s, q, k, home)
  {
    hide Stale, Condemned, KeepFocus, KeepMoves, State.Quiet;
  }

  lemma {:induction false} AdvanceAway(s: State, r: State, now: Instant, visit: Visit, k: Key, home: SpaceId)
    requires r.view.WellKeyed() && Tame(r) && FullscreenShown(r) && (r.awaited != [] ==> StrangersSetAside(r))
    requires Away(s, r, k, home) && Walks(visit, r.view.displays.Keys)
    ensures var q := Advance(r, now, visit).0; k in q.reg ==> Away(s, q, k, home)
  {
    hide ReconcilePlacement, Rebind, GraceSurplus, DestroyEmpty, FulfillQueues, RequestMissing, TryStart, HealIfIdle, MovedKeys, Ascending;
    hide View.WellKeyed, Tame, FullscreenShown, StrangersSetAside, NoTopology, Strangers, Walks, Away, NobodyShows;
    var r1 := ReconcilePlacement(r, now).0;
    OnlyPlacement(r, r1);
    SameAway(s, r, r1, k, home);
    RebindAway(s, r1, visit, k, home);
    var (r2, moves) := Rebind(r1, visit);
    StillNobodyShows(r1, visit, k, home, s);
    var g := GraceSurplus(r2, now);
    SameAway(s, r2, g, k, home);
    CollectAway(s, g, MovedKeys(moves), now, k, home);
    var r3 := DestroyEmpty(g, MovedKeys(moves), now).0;
    var q := Advance(r, now, visit).0;
    assert q.reg == r3.reg && q.AllTrees() == r3.AllTrees() && q.view == r3.view;
    if k in q.reg {
      SameAway(s, r3, q, k, home);
    }
  }

  lemma {:induction false} StillNobodyShows(r: State, visit: Visit, k: Key, home: SpaceId, s: State)
    requires r.view.WellKeyed() && Tame(r) && FullscreenShown(r) && Away(s, r, k, home)
    ensures NobodyShows(Rebind(r, visit).0.reg, home)
  {
    hide RemapSlots, View.WellKeyed, Tame, FullscreenShown, MoveTrees, Reattach;
    AwayNobodyShows(s, r, k, home);
    var q := RemapSlots(r, visit).0;
    forall j | j in q.reg ensures q.reg[j].ActiveSpace() != Some(home) {
      RemapKeepsHidden(r, visit, home, j);
    }
  }

  /**
   * A topology reset in which a window of the workspace shows native fullscreen: the workspace is
   * left in fullscreen, with its tree still on the Space it had, which is gone. By
   * `LeavingKeepsTreeIff` it loses that tree when it leaves.
   */
  lemma {:induction false} EnteredTreeIsLeftBehind(s: State, snap: Snapshot, now: Instant, visit: Visit, k: Key, w: WindowId, home: SpaceId)
    requires snap.complete && snap.WellKeyed() && IsReset(s.view, snap) && Tame(s) && StaysGone(s, snap) && (s.initialized || s.awaited == [])
    requires NoDup(visit.displays) && Elements(visit.displays) == snap.displays.Keys
    requires k in s.reg && s.reg[k].display in snap.displays && k !in s.parked
    requires Enters(s, snap, now, k, w) && s.reg[k].Home() == Some(home)
    ensures var r := SnapshotStep(s, snap, now, visit).0;
            k in r.reg ==> Away(s, r, k, home) && Owned(r, k) == Owned(s, k)
  {
    hide Settled, Advance, Tame, FullscreenShown, StrangersSetAside, Away, Enters, Snapshot.WellKeyed, View.WellKeyed, StaysGone, IsReset;
    hide QueuedLast, InUseOwned;
    SettledAway(s, snap, now, visit, k, w, home);
    SettleKeepsTame(s, snap, now, visit);
    var s0 := Settled(s, snap, now, visit);
    OnlyKept(s0, now, visit, k);
    if k in s0.reg {
      AdvanceAway(s, s0, now, visit, k, home);
    }
    var r := SnapshotStep(s, snap, now, visit).0;
    if k in r.reg {
      AwayOwns(s, r, k, home);
    }
  }

  lemma AwayOwns(s: State, r: State, k: Key, home: SpaceId)
    requires Away(s, r, k, home) && k in s.reg && k !in s.parked && s.reg[k].Home() == Some(home)
    ensures Owned(r, k) == Owned(s, k)
  {
  }
}
