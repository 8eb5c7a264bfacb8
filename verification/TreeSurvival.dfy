/** Trees through a whole snapshot pass after a topology reset, and through a restart. */
module TreeSurvival {
  import opened Basics
  import opened Geometry
  import opened Observed
  import opened Workspace
  import opened Remap
  import opened Lifecycle
  import opened Homes
  import opened Staying
  import opened RestoreSpace
  import opened TreeOwnership

  // -------------------------------------------------------- forgetting others

  /** Workspaces may be forgotten; the rest keep their entries and trees. */
  ghost predicate KeepsTrees(s: State, r: State) {
    && (forall k | k in r.reg :: k in s.reg && r.reg[k] == s.reg[k] && Owned(r, k) == Owned(s, k))
    && (forall x | x in r.layouts :: x in s.layouts)
    && (forall k | k in r.parked :: k in s.parked)
  }

  lemma {:induction false} KeepsTwice(a: State, b: State, c: State)
    requires KeepsTrees(a, b) && KeepsTrees(b, c)
    ensures KeepsTrees(a, c)
  {
  }

  lemma {:induction false} RemoveKeepsTrees(s: State, ks: set<Key>)
    requires Distinct(s.reg) && NoneFullscreen(s.reg)
    ensures KeepsTrees(s, RemoveAll(s, ks))
  {
    var r := RemoveAll(s, ks);
    forall k | k in r.reg ensures k in s.reg && r.reg[k] == s.reg[k] && Owned(r, k) == Owned(s, k) {
      RemoveKeepsOne(s, ks, k);
    }
    hide Owned, KeepFocus, KeepMoves, Distinct, NoneFullscreen;
  }

  lemma {:induction false} RemoveKeepsOne(s: State, ks: set<Key>, k: Key)
    requires Distinct(s.reg) && NoneFullscreen(s.reg) && k in s.reg - ks
    ensures var r := RemoveAll(s, ks); r.reg[k] == s.reg[k] && Owned(r, k) == Owned(s, k)
  {
    DropSparesOne(s.AllTrees(), s.reg, ks, k);
    hide KeepFocus, KeepMoves, OwnedIn, SpacesOf, Distinct, NoneFullscreen;
  }

  lemma {:induction false} DropSparesOne(t: Trees, reg: Registry, ks: set<Key>, k: Key)
    requires Distinct(reg) && NoneFullscreen(reg) && k in reg - ks
    ensures OwnedIn(Trees(t.layouts - SpacesOf(reg, ks), t.parked - ks), reg - ks, k) == OwnedIn(t, reg, k)
  {
    if reg[k].Home().Some? {
      var h := reg[k].Home().value;
      assert forall j | j in ks && j in reg :: reg[j].Home() != Some(h);
    }
  }

  lemma SameTrees(s: State, r: State)
    requires r.reg == s.reg && r.AllTrees() == s.AllTrees()
    ensures KeepsTrees(s, r)
  {
  }

  // ------------------------------------------------------------ stage by stage

  ghost predicate NoneBacked(reg: Registry) { forall k | k in reg :: reg[k].backing == None }

  lemma {:induction false} ParkNothing(s: State, ks: seq<Key>)
    requires NoneBacked(s.reg)
    ensures ParkVanished(s, ks) == s
  {
    if ks != [] {
      ParkNothing(s, ks[1..]);
    }
  }

  lemma SeenKeepsTrees(s: State, now: Instant)
    ensures NoteWindowSpaces(s, now).AllTrees() == s.AllTrees()
  {
    hide LastSeen;
  }

  lemma {:induction false} VanishedKeepTrees(s: State, now: Instant, reset: bool, visit: Visit)
    requires Distinct(s.reg) && NoneFullscreen(s.reg) && (reset || NoneBacked(s.reg))
    ensures KeepsTrees(s, WithoutVanished(s, now, reset, visit))
  {
    hide NoteWindowSpaces, RemoveAll, Distinct;
    var s1 := NoteWindowSpaces(s, now);
    SeenKeepsTrees(s, now);
    SameTrees(s, s1);
    ConfirmKeepsTrees(s1);
    var s2 := ConfirmDestroys(s1);
    hide ConfirmDestroys;
    KeepsTwice(s, s1, s2);
    if !reset {
      FewerDistinct(s, s2);
      RetireKeepsTrees(s2);
      KeepsTwice(s, s2, Retire(s2));
      ParkNothing(Retire(s2), visit.keys);
    }
  }

  lemma FewerDistinct(s: State, r: State)
    requires KeepsTrees(s, r) && Distinct(s.reg) && NoneFullscreen(s.reg)
    ensures Distinct(r.reg) && NoneFullscreen(r.reg) && (NoneBacked(s.reg) ==> NoneBacked(r.reg))
  {
  }

  lemma {:induction false} ConfirmKeepsTrees(s: State)
    requires Distinct(s.reg) && NoneFullscreen(s.reg)
    ensures KeepsTrees(s, ConfirmDestroys(s))
  {
    var gone := set p | p in s.pendingDestroy && p !in s.view.spaces;
    var s1 := s.(pendingDestroy := s.pendingDestroy - gone,
                 topologyDestroy := if s.topologyDestroy.Some? && s.topologyDestroy.value !in s.view.spaces then None else s.topologyDestroy);
    SameTrees(s, s1);
    RemoveKeepsTrees(s1, Confirmed(s));
    hide RemoveAll, Confirmed;
    KeepsTwice(s, s1, ConfirmDestroys(s));
  }

  lemma {:induction false} RetireKeepsTrees(s: State)
    requires Distinct(s.reg) && NoneFullscreen(s.reg)
    ensures KeepsTrees(s, Retire(s))
  {
    RemoveKeepsTrees(s, set k | k in s.reg && !s.reg[k].persistent && Vanished(s, s.reg[k]));
    hide RemoveAll;
  }

  lemma {:induction false} SweptKeepsTrees(s: State, stale: set<Key>)
    requires Distinct(s.reg) && NoneFullscreen(s.reg)
    ensures KeepsTrees(s, Swept(s, stale))
  {
    RemoveKeepsTrees(s, stale);
    hide RemoveAll;
    SameTrees(RemoveAll(s, stale), Swept(s, stale));
    KeepsTwice(s, RemoveAll(s, stale), Swept(s, stale));
  }

  lemma {:induction false} CollectKeepsTrees(s: State, moved: set<Key>, now: Instant)
    requires Distinct(s.reg) && NoneFullscreen(s.reg)
    ensures KeepsTrees(s, DestroyEmpty(s, moved, now).0)
  {
    SweptKeepsTrees(s, Stale(s, moved, now));
    hide Swept, Stale, Condemned;
    var s1 := Swept(s, Stale(s, moved, now));
    var r := DestroyEmpty(s, moved, now).0;
    SameTrees(s, s);
    if r.pendingDestroy != s1.pendingDestroy {
      SameTrees(s1, r);
      KeepsTwice(s, s1, r);
    }
  }

  // ------------------------------------------------- up to where slots are given

  /** Workspaces keep their displays and Spaces; new ones are on observed displays and have none. */
  ghost predicate EntriesStand(before: Registry, after: Registry, displays: set<DisplayId>) {
    && NoneFullscreen(after)
    && (forall k | k in after && k in before :: after[k].display == before[k].display && after[k].backing == before[k].backing)
    && (forall k | k in after && k !in before :: after[k].display in displays && after[k].backing == None)
  }

  /** Trees and owners as they were, give or take workspaces registered without a Space or dropped. */
  ghost predicate TreesStand(s: State, r: State) {
    && EntriesStand(s.reg, r.reg, r.view.displays.Keys)
    && (forall k | k in r.reg :: Owned(r, k) == Owned(s, k))
    && (forall x | x in r.layouts :: x in s.layouts)
    && (forall k | k in r.parked :: k in s.parked)
  }

  lemma {:induction false} StandThenKeep(a: State, b: State, c: State)
    requires TreesStand(a, b) && KeepsTrees(b, c) && b.view.displays == c.view.displays
    ensures TreesStand(a, c)
  {
    hide Owned;
  }

  lemma {:induction false} InstancesStand(s: State, order: seq<DisplayId>, displays: set<DisplayId>)
    requires NoneFullscreen(s.reg)
    ensures EntriesStand(s.reg, OnDisplays(InstantiateAll(s.reg, NextOrdinal(s.reg), s.templates, s.view, order), displays), displays)
  {
    var all := InstantiateAll(s.reg, NextOrdinal(s.reg), s.templates, s.view, order);
    InstantiateAllKeepsBackings(s.reg, NextOrdinal(s.reg), s.templates, s.view, order);
    forall k | k in s.reg ensures k in all && all[k].backing == s.reg[k].backing && all[k].display == s.reg[k].display {
      InstantiateAllKeeps(s.reg, NextOrdinal(s.reg), s.templates, s.view, order, k);
    }
    hide NextOrdinal, InstantiateAll;
    forall k | k in OnDisplays(all, displays) ensures all[k].display in displays {
    }
  }

  lemma {:induction false} SyncEntriesStand(s: State, visit: Visit)
    requires NoneFullscreen(s.reg)
    ensures EntriesStand(s.reg, SyncConfig(s, visit).reg, s.view.displays.Keys)
  {
    InstancesStand(s, visit.displays, s.view.displays.Keys);
    SameEntriesStand(s.reg, s.view.displays.Keys);
    hide NextOrdinal, InstantiateAll, OnDisplays, EntriesStand, NoneFullscreen, SameFlight;
  }

  lemma SameEntriesStand(reg: Registry, displays: set<DisplayId>)
    requires NoneFullscreen(reg)
    ensures EntriesStand(reg, reg, displays)
  {
  }

  lemma {:induction false} SyncStands(s: State, visit: Visit)
    requires NoneFullscreen(s.reg)
    ensures TreesStand(s, SyncConfig(s, visit)) && SyncConfig(s, visit).external == s.external
  {
    SyncEntriesStand(s, visit);
    hide SyncConfig;
  }

  /** No window shows native fullscreen that came, as far as the engine can tell, out of a workspace's own Space. */
  ghost predicate NobodyEntered(s: State, snap: Snapshot, now: Instant) {
    forall w, k | ShowsFullscreen(snap, w) && k in s.reg && s.reg[k].Home().Some? ::
      !CameFrom(s, s.view.windows, w, s.reg[k].Home().value, now)
  }

  predicate ShowsFullscreen(snap: Snapshot, w: WindowId) {
    && w in snap.windows && snap.windows[w].space.Some? && snap.windows[w].space.value in snap.spaces
    && snap.spaces[snap.windows[w].space.value].isFullscreen && !snap.spaces[snap.windows[w].space.value].isSystem
  }

  /** Nothing enters fullscreen out of this Space. */
  ghost predicate NoneEntering(s: State, previous: map<WindowId, Window>, now: Instant) {
    forall k | k in s.reg && s.reg[k].Home().Some? :: Entering(s, previous, s.reg[k].Home().value, now) == {}
  }

  lemma {:induction false} EnteredNowhere(s: State, snap: Snapshot, now: Instant, r: State)
    requires NobodyEntered(s, snap, now) && r.view.windows == snap.windows && r.view.spaces == snap.spaces && r.lastSpace == s.lastSpace
    requires forall k | k in r.reg && r.reg[k].Home().Some? :: k in s.reg && s.reg[k].Home() == r.reg[k].Home()
    ensures NoneEntering(r, s.view.windows, now)
  {
    hide OwnedFullscreen;
    forall k | k in r.reg && r.reg[k].Home().Some? ensures Entering(r, s.view.windows, r.reg[k].Home().value, now) == {} {
      var home := r.reg[k].Home().value;
      assert forall w | w in Entering(r, s.view.windows, home, now) :: ShowsFullscreen(snap, w) && CameFrom(s, s.view.windows, w, home, now);
    }
  }

  lemma {:induction false} FullscreenStageStands(s: State, previous: map<WindowId, Window>, now: Instant, visit: Visit)
    requires NoneFullscreen(s.reg) && NoneEntering(s, previous, now)
    ensures var r := ReconcileFullscreen(s, previous, now, visit);
            r.reg == s.reg && r.AllTrees() == s.AllTrees() && r.placement == s.placement && r.external == s.external
  {
    hide Substituted, Restored, FullscreenRegistry, ReserveOrder, NoneFullscreen, NoneEntering;
    NobodySubstituted(s, previous, now);
  }

  lemma {:induction false} NobodySubstituted(s: State, previous: map<WindowId, Window>, now: Instant)
    requires NoneFullscreen(s.reg) && NoneEntering(s, previous, now)
    ensures FullscreenRegistry(s, previous, now) == s.reg && Restored(s) == {}
  {
    hide Substituted, Entering, FullscreenLost, NoneEntering;
    forall k | k in s.reg ensures Substituted(s, previous, now, s.reg[k]) == s.reg[k] {
      NotSubstituted(s, previous, now, k);
    }
  }

  lemma NotSubstituted(s: State, previous: map<WindowId, Window>, now: Instant, k: Key)
    requires NoneFullscreen(s.reg) && NoneEntering(s, previous, now) && k in s.reg
    ensures Substituted(s, previous, now, s.reg[k]) == s.reg[k]
  {
    hide Entering, FullscreenLost;
  }

  /** The world has just begun anew for the engine: after a reset, or on its first snapshot. */
  ghost predicate Anew(s: State, snap: Snapshot, now: Instant) {
    && Tame(s) && NoneFullscreen(s.reg) && NobodyEntered(s, snap, now)
    && (IsReset(s.view, snap) || (NoneBacked(s.reg) && s.awaited == [] && !s.initialized && s.external == map[]))
  }

  lemma {:induction false} GatherStands(s: State, snap: Snapshot, now: Instant, visit: Visit)
    requires snap.complete && snap.WellKeyed() && Anew(s, snap, now)
    ensures var r := Gathered(s, snap, now, visit);
            TreesStand(s, r) && r.placement == s.placement && !r.initialized && r.awaited == []
  {
    var reset := IsReset(s.view, snap);
    var start := if reset then VoidReservations(s) else s;
    assert Observe(start, snap).view.WellKeyed();
    AnewSpaces(s, snap, now);
    hide IsReset, SyncConfig, ReconcileFullscreen, WithoutVanished, BindAwaited, Requeue, View.WellKeyed, Snapshot.WellKeyed;
    hide Tame, NobodyEntered, NoneEntering, TreesStand, KeepsTrees, EntriesStand, HomesShrink;
    var s1 := Observe(start, snap);
    assert s1.reg == s.reg && s1.AllTrees() == s.AllTrees() && s1.awaited == [] && !s1.initialized && s1.placement == s.placement;
    SyncStands(s1, visit);
    SyncShrinks(s1, visit);
    var s2 := SyncConfig(s1, visit);
    StillNormal(s1, s2);
    SyncSeesTheSame(s1, visit);
    HomesOf(s1, s2);
    EnteredNowhere(s, snap, now, s2);
    FullscreenStageStands(s2, s.view.windows, now, visit);
    var s3 := ReconcileFullscreen(s2, s.view.windows, now, visit);
    GatherDistinct(s, s2);
    VanishedKeepTrees(s3, now, reset, visit);
    var s4 := WithoutVanished(s3, now, reset, visit);
    BindsNobody(s4, now, visit);
    SameTrees(s2, s3);
    StandThenKeep(s1, s2, s3);
    StandThenKeep(s1, s3, s4);
    StandFrom(s, s1, s4);
  }

  lemma AnewSpaces(s: State, snap: Snapshot, now: Instant)
    requires Anew(s, snap, now)
    ensures IsReset(s.view, snap) || (NoneBacked(s.reg) && s.awaited == [] && !s.initialized)
    ensures NobodyEntered(s, snap, now)
  {
  }

  lemma SyncSeesTheSame(s: State, visit: Visit)
    ensures SyncConfig(s, visit).lastSpace == s.lastSpace
  {
    hide NextOrdinal, InstantiateAll, OnDisplays;
  }

  lemma HomesOf(s: State, r: State)
    requires HomesShrink(s.reg, r.reg)
    ensures forall k | k in r.reg && r.reg[k].Home().Some? :: k in s.reg && s.reg[k].Home() == r.reg[k].Home()
  {
  }

  lemma StillNormal(s: State, r: State)
    requires TreesStand(s, r)
    ensures NoneFullscreen(r.reg)
  {
  }

  lemma BindsNobody(s: State, now: Instant, visit: Visit)
    requires s.view.WellKeyed() && s.awaited == []
    ensures BindAwaited(s, now, visit) == s
  {
  }

  lemma StandFrom(s: State, s1: State, r: State)
    requires s1.reg == s.reg && s1.AllTrees() == s.AllTrees() && TreesStand(s1, r)
    ensures TreesStand(s, r)
  {
    forall k | k in r.reg ensures Owned(r, k) == Owned(s, k) {
      assert Owned(s1, k) == Owned(s, k);
    }
  }

  lemma GatherDistinct(s: State, r: State)
    requires Tame(s) && HomesShrink(s.reg, r.reg)
    ensures Distinct(r.reg) && (NoneBacked(s.reg) ==> NoneBacked(r.reg))
  {
  }

  // ------------------------------------------------------------ the whole pass

  /** A world begun anew, on Spaces that carry no trees and that nobody owned. */
  ghost predicate AllBegunAnew(s: State, snap: Snapshot, now: Instant) {
    && Anew(s, snap, now) && AllNew(s, snap.spaces.Keys) && OneTree(s)
    && (s.placement.Some? ==> forall x | x in s.placement.value.order :: x !in snap.spaces)
  }

  /** A reservation all of whose Spaces are gone is released at once. */
  lemma {:induction false} DeadPlacementEnds(s: State, now: Instant)
    requires s.placement.Some? ==> forall x | x in s.placement.value.order :: x !in s.view.spaces
    ensures ReconcilePlacement(s, now) == (s.(placement := None), [])
  {
    if s.placement.Some? {
      var order := s.placement.value.order;
      assert OrderedDisplays(order, s.view) == {};
      assert NextPlacementMove(order, s.view) == None;
      hide NextPlacementMove;
    }
  }

  /** With no strangers adopted, the pass reaches the remap with every tree still owned. */
  lemma {:induction false} SettledStands(s: State, snap: Snapshot, now: Instant, visit: Visit)
    requires snap.complete && snap.WellKeyed() && AllBegunAnew(s, snap, now)
    ensures var r := Settled(s, snap, now, visit);
            TreesStand(s, r) && r.placement == s.placement && OneTree(r) && AllNew(r, snap.spaces.Keys)
  {
    GatherStands(s, snap, now, visit);
    hide Gathered, TreesStand, Anew, AllNew, OneTree, View.WellKeyed, Snapshot.WellKeyed;
    var g := Gathered(s, snap, now, visit);
    var r := Settled(s, snap, now, visit);
    assert r.reg == g.reg && r.AllTrees() == g.AllTrees() && r.view == g.view;
    StandOnto(s, g, r);
    StillNew(s, r, snap.spaces.Keys);
  }

  lemma StandOnto(s: State, g: State, r: State)
    requires r.reg == g.reg && r.AllTrees() == g.AllTrees() && r.view == g.view && TreesStand(s, g)
    ensures TreesStand(s, r)
  {
    forall k | k in r.reg ensures Owned(r, k) == Owned(s, k) {
      assert Owned(r, k) == Owned(g, k);
    }
  }

  lemma StillNew(s: State, r: State, spaces: set<SpaceId>)
    requires TreesStand(s, r) && OneTree(s) && AllNew(s, spaces)
    ensures OneTree(r) && AllNew(r, spaces)
  {
    hide Owned;
  }

  /** Beginning anew is orderly: nothing comes back, and no stranger's Space is adopted yet. */
  lemma AnewIsOrderly(s: State, snap: Snapshot, now: Instant)
    requires snap.complete && snap.WellKeyed() && AllBegunAnew(s, snap, now)
    ensures Orderly(s, snap)
  {
    hide Tame, OneTree, Snapshot.WellKeyed, Lasting, NobodyEntered;
  }

  lemma {:induction false} AnewSettlesTame(s: State, snap: Snapshot, now: Instant, visit: Visit)
    requires snap.complete && snap.WellKeyed() && AllBegunAnew(s, snap, now) && (s.initialized || s.awaited == [])
    ensures var r := Settled(s, snap, now, visit); Tame(r) && FullscreenShown(r) && (r.awaited != [] ==> StrangersSetAside(r))
  {
    AnewIsOrderly(s, snap, now);
    TameAnew(s, snap, now);
    hide Settled, Orderly, Tame, AllBegunAnew, FullscreenShown, StrangersSetAside;
    SettleKeepsTame(s, snap, now, visit);
  }

  lemma TameAnew(s: State, snap: Snapshot, now: Instant)
    requires AllBegunAnew(s, snap, now)
    ensures Tame(s) && NoneFullscreen(s.reg) && OneTree(s)
    ensures (s.placement.Some? ==> forall x | x in s.placement.value.order :: x !in snap.spaces)
  {
  }

  /** The rest of the pass, once bindings have settled with every Space new. */
  lemma {:induction false} AdvanceKeepsTree(s: State, now: Instant, visit: Visit, k: Key)
    requires s.view.WellKeyed() && Tame(s) && FullscreenShown(s) && (s.awaited != [] ==> StrangersSetAside(s))
    requires NoneFullscreen(s.reg) && AllNew(s, s.view.spaces.Keys) && OneTree(s) && Walks(visit, s.view.displays.Keys)
    requires s.placement.Some? ==> forall x | x in s.placement.value.order :: x !in s.view.spaces
    requires Meets(ReconcilePlacement(s, now).0, visit, k) && (k in s.reg ==> s.reg[k].display in s.view.displays)
    ensures var r := Advance(s, now, visit).0;
            k in r.reg ==> Owned(r, k) == Owned(s, k) && (k in r.parked ==> r.reg[k].backing == None)
  {
    DeadPlacementEnds(s, now);
    hide ReconcilePlacement, Rebind, GraceSurplus, DestroyEmpty, FulfillQueues, RequestMissing, TryStart, HealIfIdle, MovedKeys, Ascending;
    hide View.WellKeyed, State.Quiet, Tame, FullscreenShown, StrangersSetAside, NoTopology, Strangers, AllNew, OneTree, NoneFullscreen, Walks, Owned;
    var s1 := s.(placement := None);
    OnlyPlacement(s, s1);
    SameFacts(s, s1, k);
    RebindKeepsTrees(s1, visit, k);
    RebindKeepsTame(s1, visit);
    RebindStaysNormal(s1, visit);
    var (s2, moves) := Rebind(s1, visit);
    var g := GraceSurplus(s2, now);
    TameIsDistinct(s2);
    CollectKeepsTrees(g, MovedKeys(moves), now);
    var s3 := DestroyEmpty(g, MovedKeys(moves), now).0;
    var s4 := FulfillQueues(s3, now).0;
    var s5 := RequestMissing(s4, Ascending(s4.view.displays.Keys));
    var s6 := TryStart(s5, now).0;
    var r := Advance(s, now, visit).0;
    assert r.reg == s3.reg && r.AllTrees() == s3.AllTrees();
    OwnedSame(s3, r, k);
    OwnedSame(s2, g, k);
  }

  lemma OwnedSame(a: State, b: State, k: Key)
    requires a.reg == b.reg && a.AllTrees() == b.AllTrees()
    ensures Owned(a, k) == Owned(b, k)
  {
  }

  lemma SameFacts(s: State, r: State, k: Key)
    requires r == s.(placement := None)
    ensures AllNew(s, s.view.spaces.Keys) ==> AllNew(r, r.view.spaces.Keys)
    ensures OneTree(s) ==> OneTree(r)
    ensures Owned(r, k) == Owned(s, k)
  {
  }

  lemma {:induction false} RebindStaysNormal(s: State, visit: Visit)
    requires s.view.WellKeyed() && Tame(s) && NoneFullscreen(s.reg) && s.placement == None
    ensures NoneFullscreen(Rebind(s, visit).0.reg)
  {
    RemapKeys(s, visit);
    hide RemapSlots, MoveTrees, Reattach, View.WellKeyed, Distinct, WaitsOnce, Predates;
    var r := Rebind(s, visit).0;
    forall k | k in r.reg ensures !r.reg[k].IsFullscreen() {
      RemapGives(s, visit, k);
    }
  }

  /**
   * After a topology reset onto all-new Spaces, every workspace the pass keeps still owns the tree
   * it owned: on the Space it got, or parked under its own key while it has none.
   */
  lemma {:induction false} TreesSurviveReset(s: State, snap: Snapshot, now: Instant, visit: Visit, k: Key)
    requires snap.complete && snap.WellKeyed() && AllBegunAnew(s, snap, now) && (s.initialized || s.awaited == [])
    requires k in s.reg && s.reg[k].display in snap.displays && WalksAll(s, snap, now, visit)
    ensures var r := SnapshotStep(s, snap, now, visit).0;
            k in r.reg ==> Owned(r, k) == Owned(s, k) && (k in r.parked <==> Owned(s, k).Some? && r.reg[k].backing == None)
  {
    hide *;
    WalksMeet(s, snap, now, visit, k);
    SettledStands(s, snap, now, visit);
    AnewSettlesTame(s, snap, now, visit);
    TameAnew(s, snap, now);
    var s0 := Settled(s, snap, now, visit);
    StandsFor(s, s0, k);
    AdvanceKeepsTree(s0, now, visit, k);
    OnlyKept(s0, now, visit, k);
    ParkedOrShown(Advance(s0, now, visit).0, k);
    CompleteLooks(s, snap, now, visit);
  }

  lemma WalksMeet(s: State, snap: Snapshot, now: Instant, visit: Visit, k: Key)
    requires snap.complete && snap.WellKeyed() && WalksAll(s, snap, now, visit)
    ensures Walks(visit, snap.displays.Keys) && Meets(ReconcilePlacement(Settled(s, snap, now, visit), now).0, visit, k)
  {
    hide Settled, ReconcilePlacement, Meets, StripWalk, ParksAll, TakenIn, IsReset, Snapshot.WellKeyed;
  }

  lemma CompleteLooks(s: State, snap: Snapshot, now: Instant, visit: Visit)
    requires snap.complete && snap.WellKeyed()
    ensures SnapshotStep(s, snap, now, visit) == Advance(Settled(s, snap, now, visit), now, visit)
  {
    hide Settled, Advance;
  }

  lemma StandsFor(s: State, r: State, k: Key)
    requires TreesStand(s, r) && k in s.reg
    ensures NoneFullscreen(r.reg) && (k in r.reg ==> r.reg[k].display == s.reg[k].display && Owned(r, k) == Owned(s, k))
  {
  }

  lemma ParkedOrShown(r: State, k: Key)
    ensures k in r.parked ==> Owned(r, k).Some?
    ensures k in r.reg && k !in r.parked && Owned(r, k).Some? ==> r.reg[k].backing.Some?
  {
  }

  /** No stage after the bindings settle registers a workspace. */
  lemma {:induction false} OnlyKept(s: State, now: Instant, visit: Visit, k: Key)
    requires s.view.WellKeyed()
    ensures k in Advance(s, now, visit).0.reg ==> k in s.reg
  {
    hide ReconcilePlacement, GraceSurplus, DestroyEmpty, FulfillQueues, RequestMissing, TryStart, HealIfIdle, MovedKeys, Ascending, NoTopology, Strangers;
    var s1 := ReconcilePlacement(s, now).0;
    if s1.placement.None? {
      RemapKeys(s1, visit);
    }
    hide RemapSlots, MoveTrees, Reattach, View.WellKeyed;
    var s2 := Rebind(s1, visit).0;
    assert s2.reg.Keys == s.reg.Keys;
  }
}
