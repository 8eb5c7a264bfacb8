/**
 * Where windows were last seen: what is remembered and for how long, and what the memory is for,
 * finding the workspace a native fullscreen window came from and sparing Spaces just left.
 */
module Memory {
  import opened Basics
  import opened Geometry
  import opened Observed
  import opened Workspace
  import opened Remap
  import opened Lifecycle
  import opened Runs
  import opened LastSpace
  import opened Homes
  import opened Staying
  import opened TreeOwnership
  import opened ParkedTrees
  import opened Spared
  import opened Intents
  import opened Collecting

  type Sightings = map<WindowId, (SpaceId, Instant)>

  // ----------------------------------------------------- stages that do not look

  lemma SyncKeepsMemory(s: State, visit: Visit)
    ensures SyncConfig(s, visit).lastSpace == s.lastSpace
  {
    hide NextOrdinal, InstantiateAll, OnDisplays, SameFlight;
  }

  lemma FullscreenKeepsMemory(s: State, previous: map<WindowId, Window>, now: Instant, visit: Visit)
    ensures ReconcileFullscreen(s, previous, now, visit).lastSpace == s.lastSpace
  {
    hide FullscreenRegistry, Restored, ReserveOrder, SameFlight;
  }

  lemma ForgettingKeepsMemory(s: State, ks: set<Key>)
    ensures RemoveAll(s, ks).lastSpace == s.lastSpace
  {
    hide SpacesOf, KeepFocus, KeepMoves;
  }

  lemma ConfirmKeepsMemory(s: State)
    ensures ConfirmDestroys(s).lastSpace == s.lastSpace
  {
    hide SpacesOf, KeepFocus, KeepMoves, Confirmed;
  }

  lemma {:induction false} ParkKeepsMemory(s: State, ks: seq<Key>)
    ensures ParkVanished(s, ks).lastSpace == s.lastSpace
    decreases |ks|
  {
    hide ParkOne;
    if ks != [] {
      ParkOneKeepsMemory(s, ks[0]);
      ParkKeepsMemory(ParkOne(s, ks[0]), ks[1..]);
    }
  }

  lemma ParkOneKeepsMemory(s: State, k: Key)
    ensures ParkOne(s, k).lastSpace == s.lastSpace
  {
    hide Requested;
  }

  lemma RetireKeepsMemory(s: State)
    ensures Retire(s).lastSpace == s.lastSpace
  {
    hide RemoveAll, Vanished;
    ForgettingKeepsMemory(s, (set k | k in s.reg && !s.reg[k].persistent && Vanished(s, s.reg[k])));
  }

  /** The one stage that looks at windows. */
  lemma {:induction false} VanishingLooks(s: State, now: Instant, reset: bool, visit: Visit)
    ensures WithoutVanished(s, now, reset, visit).lastSpace == LastSeen(s.view, s.lastSpace, now)
  {
    hide ConfirmDestroys, Retire, ParkVanished, LastSeen;
    var s2 := NoteWindowSpaces(s, now);
    ConfirmKeepsMemory(s2);
    if !reset {
      RetireKeepsMemory(ConfirmDestroys(s2));
      ParkKeepsMemory(Retire(ConfirmDestroys(s2)), visit.keys);
    }
  }

  lemma {:induction false} BindKeepsMemory(s: State, todo: seq<Awaited>, now: Instant, visit: Visit)
    requires s.view.WellKeyed()
    ensures BindAll(s, todo, now, visit).lastSpace == s.lastSpace
    decreases |todo|
  {
    hide BindOne, View.WellKeyed;
    if todo != [] {
      BindOneKeepsMemory(s, todo[0], now, visit);
      BindKeepsMemory(BindOne(s, todo[0], now, visit), todo[1..], now, visit);
    }
  }

  lemma BindOneKeepsMemory(s: State, a: Awaited, now: Instant, visit: Visit)
    requires s.view.WellKeyed()
    ensures BindOne(s, a, now, visit).lastSpace == s.lastSpace
  {
    hide Released, BindTo, Candidates, View.WellKeyed, Expired, Aged;
    var b := Aged(a, now);
    ReleasedKeepsMemory(s, b.key);
    if b.key in s.reg && s.reg[b.key].backing.None? {
      CandidatesKeyed(s, b);
      if Candidates(s, b) != {} {
        BoundKeepsMemory(s, b.key, FirstSlot(Candidates(s, b)), now, visit);
      }
    }
  }

  lemma ReleasedKeepsMemory(s: State, k: Key)
    ensures Released(s, k).lastSpace == s.lastSpace
  {
    hide RemoveAll;
    ForgettingKeepsMemory(s, {k});
  }

  lemma BoundKeepsMemory(s: State, k: Key, x: Space, now: Instant, visit: Visit)
    requires k in s.reg
    ensures BindTo(s, k, x, now, visit).lastSpace == s.lastSpace
  {
    hide LogicalOrder;
  }

  lemma {:induction false} AdoptKeepsMemory(s: State, xs: seq<SpaceId>)
    requires forall x | x in xs :: x in s.view.spaces
    ensures AdoptAll(s, xs).lastSpace == s.lastSpace
    decreases |xs|
  {
    hide AdoptOne;
    if xs != [] {
      AdoptOneKeepsMemory(s, xs[0]);
      AdoptKeepsMemory(AdoptOne(s, xs[0]), xs[1..]);
    }
  }

  lemma AdoptOneKeepsMemory(s: State, x: SpaceId)
    requires x in s.view.spaces
    ensures AdoptOne(s, x).lastSpace == s.lastSpace
  {
    hide NextName, NextOrdinal;
  }

  lemma {:induction false} ObserveKeepsMemory(s: State, now: Instant)
    requires s.view.WellKeyed()
    ensures ObserveExternal(s, now).lastSpace == s.lastSpace
  {
    hide View.WellKeyed, GraceSurplus, StillExternal, AdoptAll, Adoptable;
    var s2 := GraceSurplus(s.(external := StillExternal(s)), now);
    if s.initialized && s.awaited == [] {
      AdoptKeepsMemory(s2, Adoptable(s2));
    }
  }

  lemma {:induction false} SettlingLooks(s: State, previous: map<WindowId, Window>, now: Instant, reset: bool, visit: Visit)
    requires s.view.WellKeyed()
    ensures SettledFrom(s, previous, now, reset, visit).lastSpace == LastSeen(s.view, s.lastSpace, now)
  {
    hide ReconcileFullscreen, WithoutVanished, BindAll, ObserveExternal, View.WellKeyed, LastSeen;
    FullscreenKeepsMemory(s, previous, now, visit);
    var s2 := ReconcileFullscreen(s, previous, now, visit);
    VanishingLooks(s2, now, reset, visit);
    var s4 := WithoutVanished(s2, now, reset, visit);
    BindKeepsMemory(s4.(awaited := []), s4.awaited, now, visit);
    ObserveKeepsMemory(BindAwaited(s4, now, visit), now);
  }

  lemma {:induction false} SettledLooks(s: State, snap: Snapshot, now: Instant, visit: Visit)
    requires snap.complete && snap.WellKeyed()
    ensures Settled(s, snap, now, visit).lastSpace == LastSeen(s.view.(windows := snap.windows), s.lastSpace, now)
  {
    hide IsReset, SyncConfig, Settled, SettledFrom, LastSeen, Snapshot.WellKeyed, View.WellKeyed;
    SettledAfterSync(s, snap, now, visit);
    var s1 := Observe(if IsReset(s.view, snap) then VoidReservations(s) else s, snap);
    SyncKeepsMemory(s1, visit);
    var q := SyncConfig(s1, visit);
    SettlingLooks(q, s.view.windows, now, IsReset(s.view, snap), visit);
    SameWindowsSeen(q.view, s.view.(windows := snap.windows), s.lastSpace, now);
  }

  lemma SameWindowsSeen(a: View, b: View, before: Sightings, now: Instant)
    requires a.windows == b.windows
    ensures LastSeen(a, before, now) == LastSeen(b, before, now)
  {
  }

  lemma CollectingKeepsMemory(b: State, moved: set<Key>, now: Instant)
    ensures DestroyEmpty(b, moved, now).0.lastSpace == b.lastSpace
  {
    hide *;
    CollectedShape(b, moved, now);
    SweepKeepsMemory(b, Stale(b, moved, now));
  }

  lemma SweepKeepsMemory(s: State, stale: set<Key>)
    ensures Swept(s, stale).lastSpace == s.lastSpace
  {
    hide SpacesOf, KeepFocus, KeepMoves;
  }

  lemma {:induction false} AdvanceKeepsMemory(s: State, now: Instant, visit: Visit)
    requires s.view.WellKeyed()
    ensures Advance(s, now, visit).0.lastSpace == s.lastSpace && AtCollection(s, now, visit).lastSpace == s.lastSpace
  {
    hide ReconcilePlacement, Rebind, GraceSurplus, DestroyEmpty, FulfillQueues, RequestMissing, TryStart, HealIfIdle, MovedKeys, Ascending;
    hide View.WellKeyed, State.Quiet, NoTopology, Strangers;
    CollectingKeepsMemory(AtCollection(s, now, visit), MovedKeys(Rebind(ReconcilePlacement(s, now).0, visit).1), now);
  }

  // --------------------------------------------------------- what is remembered

  /** A window seen on a Space is remembered there; otherwise what was known stays, for ten seconds once the window is gone. */
  ghost predicate Remembers(windows: map<WindowId, Window>, before: Sightings, after: Sightings, now: Instant) {
    forall w: WindowId ::
      if w in windows && windows[w].space.Some? then w in after && after[w] == (windows[w].space.value, now)
      else
        && (w in after <==> w in before && (w in windows || now < before[w].1 + 10_000))
        && (w in after ==> after[w] == before[w])
  }

  lemma LastSeenRemembers(view: View, before: Sightings, now: Instant)
    ensures Remembers(view.windows, before, LastSeen(view, before, now), now)
  {
  }

  /** A complete look remembers exactly that, and nothing later in the pass touches it. */
  lemma {:induction false} LookRemembers(s: State, snap: Snapshot, now: Instant, visit: Visit)
    requires snap.complete && snap.WellKeyed()
    ensures Remembers(snap.windows, s.lastSpace, SnapshotStep(s, snap, now, visit).0.lastSpace, now)
  {
    hide *;
    CompleteStep(s, snap, now, visit);
    SettledLooks(s, snap, now, visit);
    AdvanceKeepsMemory(Settled(s, snap, now, visit), now, visit);
    LastSeenRemembers(s.view.(windows := snap.windows), s.lastSpace, now);
  }

  lemma DesertedSince(s: State, x: SpaceId, now: Instant)
    requires Deserted(s, x, now)
    ensures forall w | w in s.lastSpace && s.lastSpace[w].0 == x :: now >= s.lastSpace[w].1 + 10_000
  {
  }

  lemma StillRemembered(windows: map<WindowId, Window>, before: Sightings, after: Sightings, now: Instant, w: WindowId)
    requires Remembers(windows, before, after, now) && w in before && (w in windows ==> windows[w].space.None?)
    ensures now < before[w].1 + 10_000 ==> w in after && after[w] == before[w]
  {
  }

  /**
   * A workspace's Space on which a window was seen less than ten seconds ago, and that has not been
   * seen anywhere since, is not destroyed.
   */
  lemma {:induction false} JustLeftIsSpared(s: State, snap: Snapshot, now: Instant, visit: Visit, x: SpaceId, w: WindowId)
    requires snap.complete && snap.WellKeyed()
    requires DestroySpace(x) in SnapshotStep(s, snap, now, visit).1 && SnapshotStep(s, snap, now, visit).0.Known(x)
    requires w in s.lastSpace && s.lastSpace[w].0 == x && (w in snap.windows ==> snap.windows[w].space.None?)
    ensures now >= s.lastSpace[w].1 + 10_000
  {
    hide *;
    CompleteStep(s, snap, now, visit);
    var s0 := Settled(s, snap, now, visit);
    SettledLooks(s, snap, now, visit);
    AdvanceKeepsMemory(s0, now, visit);
    LastSeenRemembers(s.view.(windows := snap.windows), s.lastSpace, now);
    OnlyCollectedOrUnknown(s0, now, visit);
    CollectedIsDeserted(AtCollection(s0, now, visit), MovedKeys(Rebind(ReconcilePlacement(s0, now).0, visit).1), now, x);
    DesertedSince(AtCollection(s0, now, visit), x, now);
    StillRemembered(snap.windows, s.lastSpace, s0.lastSpace, now, w);
  }

  lemma {:induction false} CollectedIsDeserted(b: State, moved: set<Key>, now: Instant, x: SpaceId)
    requires DestroySpace(x) in DestroyEmpty(b, moved, now).1
    ensures Deserted(b, x, now)
  {
    hide *;
    CollectsFirst(b, moved, now);
    DoomedIff(b, moved, now, FirstByText(Doomed(b, moved, now)));
  }

  // ------------------------------------------------------------ entering fullscreen

  /** The window was on the Space at the last look, or had no place then and was seen there in the last ten seconds. */
  ghost predicate WasOn(memory: Sightings, previous: map<WindowId, Window>, w: WindowId, home: SpaceId, now: Instant) {
    || (w in previous && previous[w].space == Some(home))
    || ((w in previous ==> previous[w].space.None?) && w in memory && memory[w].0 == home && now < memory[w].1 + 10_000)
  }

  /** The window is now on a native fullscreen Space no workspace shows, and was on `home` before. */
  ghost predicate Enters(s: State, previous: map<WindowId, Window>, home: SpaceId, now: Instant, w: WindowId) {
    && w in s.view.windows && s.view.windows[w].space.Some?
    && (var f := s.view.windows[w].space.value;
        f in s.view.spaces && s.view.spaces[f].isFullscreen && !s.view.spaces[f].isSystem
        && forall j | j in s.reg :: s.reg[j].ActiveSpace() != Some(f))
    && WasOn(s.lastSpace, previous, w, home, now)
  }

  lemma {:induction false} EnteringIff(s: State, previous: map<WindowId, Window>, home: SpaceId, now: Instant)
    ensures forall w :: w in Entering(s, previous, home, now) <==> Enters(s, previous, home, now, w)
  {
    forall w ensures w in Entering(s, previous, home, now) <==> Enters(s, previous, home, now, w) {
      if w in s.view.windows && s.view.windows[w].space.Some? {
        UnclaimedMeans(s, s.view.windows[w].space.value);
      }
    }
  }

  lemma UnclaimedMeans(s: State, f: SpaceId)
    ensures s.Claimed(f) <==> !(forall j | j in s.reg :: s.reg[j].ActiveSpace() != Some(f))
  {
  }

  /** The first of the windows that enter. */
  ghost predicate EntersFirst(s: State, previous: map<WindowId, Window>, home: SpaceId, now: Instant, w: WindowId) {
    Enters(s, previous, home, now, w) && forall v | Enters(s, previous, home, now, v) :: w <= v
  }

  /** The configuration a look starts from. */
  ghost function Synced(s: State, snap: Snapshot, visit: Visit): State {
    hide IsReset, VoidReservations, Observe, SyncConfig;
    SyncConfig(Observe(if IsReset(s.view, snap) then VoidReservations(s) else s, snap), visit)
  }

  lemma {:induction false} SubstitutedShows(s: State, previous: map<WindowId, Window>, now: Instant, e: Entry)
    requires ShowsNormal(e)
    ensures var home, r := e.backing.value.space, Substituted(s, previous, now, e);
            if exists w :: Enters(s, previous, home, now, w)
            then exists w :: EntersFirst(s, previous, home, now, w) && w in s.view.windows && s.view.windows[w].space.Some?
                             && r.backing == Some(Fullscreen(s.view.windows[w].space.value, home, w))
            else r == e
  {
    hide Entering, Enters;
    var home := e.backing.value.space;
    EnteringIff(s, previous, home, now);
    var ws := Entering(s, previous, home, now);
    if ws != {} {
      var w := LeastWindow(ws);
      assert Enters(s, previous, home, now, w) && EntersFirst(s, previous, home, now, w);
      EntersOn(s, previous, home, now, w);
    } else {
      forall w ensures !Enters(s, previous, home, now, w) {
        assert w !in ws;
      }
    }
  }

  lemma EntersOn(s: State, previous: map<WindowId, Window>, home: SpaceId, now: Instant, w: WindowId)
    requires Enters(s, previous, home, now, w)
    ensures w in s.view.windows && s.view.windows[w].space.Some?
  {
  }

  lemma {:induction false} TakenInSubstitutes(s: State, snap: Snapshot, now: Instant, visit: Visit, k: Key)
    requires snap.complete && k in s.reg && s.reg[k].display in snap.displays && !BeingForgotten(s, snap, k)
    ensures var q, t := Synced(s, snap, visit), TakenIn(s, snap, now, visit);
            && k in q.reg && q.reg[k].backing == s.reg[k].backing && q.view.spaces == snap.spaces && q.view.windows == snap.windows
            && k in t.reg && t.reg[k] == Substituted(q, s.view.windows, now, q.reg[k]) && k !in Confirmed(t)
            && t.view.spaces == snap.spaces && (t.awaited == s.awaited || t.awaited == [])
  {
    hide IsReset, SyncConfig, FullscreenRegistry, Substituted, ReserveOrder, Restored, Requeue;
    var s1 := Observe(if IsReset(s.view, snap) then VoidReservations(s) else s, snap);
    SyncKeeps(s1, visit, k);
    var q := SyncConfig(s1, visit);
    FullscreenEntry(q, s.view.windows, now, k);
  }

  lemma {:induction false} GatheredKeepsShown(s: State, snap: Snapshot, now: Instant, visit: Visit, k: Key)
    requires snap.complete && snap.WellKeyed()
    requires var t := TakenIn(s, snap, now, visit);
             k in t.reg && t.reg[k].backing.Some? && t.reg[k].ActiveSpace().value in t.view.spaces && k !in Confirmed(t)
    ensures var g := Gathered(s, snap, now, visit); k in g.reg && g.reg[k] == TakenIn(s, snap, now, visit).reg[k]
  {
    hide IsReset, TakenIn, WithoutVanished, BindAwaited, View.WellKeyed, Snapshot.WellKeyed, Confirmed;
    TakenInKeyed(s, snap, now, visit);
    var t := TakenIn(s, snap, now, visit);
    WithoutVanishedKeeps(t, now, IsReset(s.view, snap), visit, k);
    BindKeeps(WithoutVanished(t, now, IsReset(s.view, snap), visit), now, visit, k);
  }

  /**
   * Windows going native fullscreen are found: a workspace showing its own Space shows, after a
   * complete look, the fullscreen Space of the first window that went there from its Space and that
   * nobody shows yet, with its own Space to come back to; if there is none it goes on showing its own.
   */
  lemma {:induction false} FullscreenFound(s: State, snap: Snapshot, now: Instant, visit: Visit, k: Key)
    requires snap.complete && snap.WellKeyed() && k in s.reg && ShowsNormal(s.reg[k])
    requires s.reg[k].display in snap.displays && !BeingForgotten(s, snap, k)
    ensures var home, q, g := s.reg[k].backing.value.space, Synced(s, snap, visit), Gathered(s, snap, now, visit);
            if exists w :: Enters(q, s.view.windows, home, now, w)
            then k in g.reg && exists w :: EntersFirst(q, s.view.windows, home, now, w) && w in snap.windows && snap.windows[w].space.Some?
                                           && g.reg[k].backing == Some(Fullscreen(snap.windows[w].space.value, home, w))
            else home in snap.spaces ==> k in g.reg && g.reg[k].backing == s.reg[k].backing
  {
    hide *;
    NormalShows(s.reg[k]);
    var home, q := s.reg[k].backing.value.space, Synced(s, snap, visit);
    TakenInSubstitutes(s, snap, now, visit, k);
    SameBackingShows(s.reg[k], q.reg[k]);
    SubstitutedShows(q, s.view.windows, now, q.reg[k]);
    var t := TakenIn(s, snap, now, visit);
    if exists w :: Enters(q, s.view.windows, home, now, w) {
      var w :| EntersFirst(q, s.view.windows, home, now, w) && w in q.view.windows && q.view.windows[w].space.Some?
               && t.reg[k].backing == Some(Fullscreen(q.view.windows[w].space.value, home, w));
      EntersThere(q, s.view.windows, home, now, w);
      FullscreenActive(t.reg[k]);
      GatheredKeepsShown(s, snap, now, visit, k);
    } else if home in snap.spaces {
      NormalShows(t.reg[k]);
      GatheredKeepsShown(s, snap, now, visit, k);
    }
  }

  lemma NormalShows(e: Entry)
    ensures ShowsNormal(e) ==> e.backing.Some? && e.backing.value.Normal? && e.ActiveSpace() == Some(e.backing.value.space)
  {
  }

  lemma SameBackingShows(e: Entry, f: Entry)
    requires ShowsNormal(e) && f.backing == e.backing
    ensures ShowsNormal(f)
  {
  }

  lemma FullscreenActive(e: Entry)
    ensures e.backing.Some? && e.backing.value.Fullscreen? ==> e.ActiveSpace() == Some(e.backing.value.fullscreenSpace)
  {
  }

  lemma EntersThere(s: State, previous: map<WindowId, Window>, home: SpaceId, now: Instant, w: WindowId)
    requires EntersFirst(s, previous, home, now, w)
    ensures w in s.view.windows && s.view.windows[w].space.Some? && s.view.windows[w].space.value in s.view.spaces
  {
    hide WasOn;
  }
}
