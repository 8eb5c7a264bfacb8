/**
 * What becomes of a workspace whose Space has vanished: forgotten, given a new Space, or, when the
 * whole topology was replaced, kept for the remap to place.
 */
module Vanishing {
  import opened Basics
  import opened Geometry
  import opened Observed
  import opened Workspace
  import opened Remap
  import opened Lifecycle
  import opened Runs
  import opened Creation
  import opened Homes
  import opened Staying
  import opened ParkedTrees
  import opened Spared
  import opened RestoreSpace
  import opened Intents
  import opened Memory

  function OrdinaryIds(spaces: map<SpaceId, Space>): set<SpaceId> {
    set x | x in spaces && spaces[x].Ordinary()
  }

  /** The topology was replaced: there were ordinary Spaces and there are, but none of those there were is left. */
  predicate Replaced(view: View, snap: Snapshot) {
    OrdinaryIds(view.spaces) != {} && OrdinaryIds(snap.spaces) != {} && OrdinaryIds(view.spaces) !! snap.spaces.Keys
  }

  lemma {:induction false} ResetIff(view: View, snap: Snapshot)
    requires snap.complete
    ensures IsReset(view, snap) <==> Replaced(view, snap)
  {
    if x :| x in view.spaces && view.spaces[x].Ordinary() {
      assert x in OrdinaryIds(view.spaces);
    }
    if x :| x in snap.spaces && snap.spaces[x].Ordinary() {
      assert x in OrdinaryIds(snap.spaces);
    }
  }

  /** A replaced topology costs no workspace of an observed display its registration. */
  lemma {:induction false} ReplacementForgetsNobody(s: State, snap: Snapshot, now: Instant, visit: Visit, k: Key)
    requires snap.complete && snap.WellKeyed() && Replaced(s.view, snap)
    requires k in s.reg && s.reg[k].display in snap.displays && !BeingForgotten(s, snap, k)
    ensures k in Settled(s, snap, now, visit).reg
  {
    hide Settled, Replaced, IsReset, Upheld, Snapshot.WellKeyed;
    ResetIff(s.view, snap);
    SettledUpholds(s, snap, now, visit, k);
    UpheldIsThere(s, Settled(s, snap, now, visit), k, now);
  }

  /** The workspace shows a Space of its own that the snapshot does not show, and no window has taken it to fullscreen. */
  ghost predicate LostItsSpace(s: State, snap: Snapshot, now: Instant, visit: Visit, k: Key) {
    && k in s.reg && ShowsNormal(s.reg[k]) && s.reg[k].backing.value.space !in snap.spaces
    && s.reg[k].display in snap.displays && !BeingForgotten(s, snap, k) && !Replaced(s.view, snap)
    && forall w :: !Enters(Synced(s, snap, visit), s.view.windows, s.reg[k].backing.value.space, now, w)
  }

  lemma {:induction false} TakenInWithoutSpace(s: State, snap: Snapshot, now: Instant, visit: Visit, k: Key)
    requires snap.complete && LostItsSpace(s, snap, now, visit, k)
    ensures var q, t := Synced(s, snap, visit), TakenIn(s, snap, now, visit);
            && k in q.reg && k in t.reg && t.reg[k] == q.reg[k] && Vanished(t, t.reg[k]) && k !in Confirmed(t)
            && t.reg[k].display == s.reg[k].display && (t.awaited == s.awaited || t.awaited == [])
  {
    hide TakenIn, Synced, Substituted, Confirmed, Replaced, Enters;
    TakenInSubstitutes(s, snap, now, visit, k);
    var q := Synced(s, snap, visit);
    SubstitutedShows(q, s.view.windows, now, q.reg[k]);
    SyncedDisplay(s, snap, visit, k);
  }

  lemma {:induction false} SyncedDisplay(s: State, snap: Snapshot, visit: Visit, k: Key)
    requires k in s.reg
    ensures var q := Synced(s, snap, visit); k in q.reg ==> q.reg[k].display == s.reg[k].display
  {
    hide IsReset, SyncConfig, Requeue;
    SyncKeeps(Observe(if IsReset(s.view, snap) then VoidReservations(s) else s, snap), visit, k);
  }

  lemma RetiresVolatile(s: State, k: Key)
    requires k in s.reg && Vanished(s, s.reg[k])
    ensures k in Retire(s).reg <==> s.reg[k].persistent
    ensures k in Retire(s).reg ==> Retire(s).reg[k] == s.reg[k]
  {
    hide SpacesOf, KeepFocus, KeepMoves;
  }

  /** Parked once the walk gets to it: no Space, and one asked for. */
  lemma {:induction false} ParksWhenMet(s: State, ks: seq<Key>, k: Key)
    requires k in s.reg && s.reg[k].persistent && Vanished(s, s.reg[k]) && k in ks
    ensures var r := ParkVanished(s, ks);
            k in r.reg && r.reg[k].backing == None && r.reg[k].display == s.reg[k].display && exists q :: q in r.requests && q.key == k
    decreases |ks|
  {
    hide ParkOne;
    if ks[0] == k {
      ParksNow(s, k);
      ParkedStays(ParkOne(s, k), ks[1..], k);
    } else {
      ParkOneEntries(s, ks[0]);
      ParkOneKeepsVanished(s, ks[0], k);
      ParksWhenMet(ParkOne(s, ks[0]), ks[1..], k);
    }
  }

  lemma ParkOneKeepsVanished(s: State, j: Key, k: Key)
    requires j != k && k in s.reg
    ensures var r := ParkOne(s, j); k in r.reg && r.reg[k] == s.reg[k] && r.view == s.view
  {
    hide Requested;
  }

  lemma ParksNow(s: State, k: Key)
    requires k in s.reg && s.reg[k].persistent && Vanished(s, s.reg[k])
    ensures var r := ParkOne(s, k);
            k in r.reg && r.reg[k].backing == None && r.reg[k].display == s.reg[k].display && exists q :: q in r.requests && q.key == k
  {
    hide ClearStale;
    RequestedHolds(s.requests, k, s.reg[k].display);
  }

  lemma RequestedHolds(q: seq<Request>, k: Key, d: DisplayId)
    ensures exists r :: r in Requested(q, k, d) && r.key == k
  {
    if !exists r :: r in q && r.key == k {
      assert Request(k, d) in q + [Request(k, d)];
    }
  }

  lemma {:induction false} ParkedStays(s: State, ks: seq<Key>, k: Key)
    requires k in s.reg && s.reg[k].backing == None && exists q :: q in s.requests && q.key == k
    ensures var r := ParkVanished(s, ks); k in r.reg && r.reg[k] == s.reg[k] && exists q :: q in r.requests && q.key == k
    decreases |ks|
  {
    hide ParkOne;
    if ks != [] {
      ParkOneKeepsParked(s, ks[0], k);
      ParkedStays(ParkOne(s, ks[0]), ks[1..], k);
    }
  }

  lemma ParkOneKeepsParked(s: State, j: Key, k: Key)
    requires k in s.reg && s.reg[k].backing == None && exists q :: q in s.requests && q.key == k
    ensures var r := ParkOne(s, j); k in r.reg && r.reg[k] == s.reg[k] && exists q :: q in r.requests && q.key == k
  {
    hide ClearStale;
    var q :| q in s.requests && q.key == k;
    assert q in s.requests + [Request(j, if j in s.reg then s.reg[j].display else 0)];
  }

  lemma {:induction false} VanishedOutcome(s: State, now: Instant, visit: Visit, k: Key)
    requires k in s.reg && Vanished(s, s.reg[k]) && k !in Confirmed(s)
    ensures var r := WithoutVanished(s, now, false, visit);
            && (!s.reg[k].persistent ==> k !in r.reg)
            && (s.reg[k].persistent && k in visit.keys ==>
                  k in r.reg && r.reg[k].backing == None && r.reg[k].display == s.reg[k].display && exists q :: q in r.requests && q.key == k)
  {
    hide RemoveAll, Retire, ConfirmDestroys, ParkVanished, LastSeen;
    var s2 := NoteWindowSpaces(s, now);
    ConfirmUpholds(s2, k, now);
    var s3 := ConfirmDestroys(s2);
    RetiresVolatile(s3, k);
    ParkAddsNone(Retire(s3), visit.keys);
    if s.reg[k].persistent && k in visit.keys {
      ParksWhenMet(Retire(s3), visit.keys, k);
    }
  }

  /** The Space is asked for again, and until it comes the workspace shows none. */
  ghost predicate AsksAgain(s: State, k: Key) {
    k in s.reg && s.reg[k].backing == None && exists q :: q in s.requests && q.key == k
  }

  lemma {:induction false} NotBound(s: State, now: Instant, visit: Visit, k: Key)
    requires s.view.WellKeyed() && forall a | a in s.awaited :: a.key != k
    ensures var r := BindAwaited(s, now, visit);
            && (k !in s.reg ==> k !in r.reg) && (AsksAgain(s, k) ==> AsksAgain(r, k))
  {
    hide BindAwaited, View.WellKeyed, BindsOnly;
    AwaitedBindsOnlyNewSpaces(s, now, visit);
    OthersKeep(s, BindAwaited(s, now, visit), k);
    if k in s.reg {
      BindKeeps(s, now, visit, k);
    }
  }

  /**
   * A workspace whose Space is gone, in a topology that was not replaced: a volatile one is
   * forgotten; a persistent one, as soon as the walk meets it, stays without a Space and has one
   * queued to be created.
   */
  lemma {:induction false} VanishedGoesOrAsks(s: State, snap: Snapshot, now: Instant, visit: Visit, k: Key)
    requires snap.complete && snap.WellKeyed() && Tame(s) && LostItsSpace(s, snap, now, visit, k)
    ensures var q, g := Synced(s, snap, visit), Gathered(s, snap, now, visit);
            && k in q.reg && (!q.reg[k].persistent ==> k !in g.reg)
            && (q.reg[k].persistent && k in visit.keys ==> AsksAgain(g, k))
  {
    hide IsReset, TakenIn, WithoutVanished, BindAwaited, Replaced, Synced, Enters, Tame, Confirmed, Vanished, AsksAgain, Snapshot.WellKeyed, View.WellKeyed;
    ResetIff(s.view, snap);
    TakenInWithoutSpace(s, snap, now, visit, k);
    TakenInKeyed(s, snap, now, visit);
    var t := TakenIn(s, snap, now, visit);
    VanishedOutcome(t, now, visit, k);
    var s4 := WithoutVanished(t, now, false, visit);
    OwnerIsNotAwaited(s, t, k);
    if k in s4.reg && s4.reg[k].backing == None && exists q :: q in s4.requests && q.key == k {
      DoesAskAgain(s4, k);
    }
    NotBound(s4, now, visit, k);
  }

  lemma DoesAskAgain(s: State, k: Key)
    requires k in s.reg && s.reg[k].backing == None && exists q :: q in s.requests && q.key == k
    ensures AsksAgain(s, k)
  {
  }

  lemma OwnerIsNotAwaited(s: State, t: State, k: Key)
    requires Tame(s) && k in s.reg && ShowsNormal(s.reg[k]) && (t.awaited == s.awaited || t.awaited == [])
    ensures forall a | a in t.awaited :: a.key != k
  {
    assert !s.Expecting(k);
  }

  // ------------------------------------------------------------- seen to be destroyed

  /** Nothing is left of the workspace: no registration, no intent, no grace. */
  ghost predicate Forgotten(s: State, k: Key) {
    && k !in s.reg && (forall f | f in s.focusQueue :: f.0 != k) && (forall m | m in s.moveQueue :: m.1 != k)
  }

  lemma {:induction false} FocusDropped(q: seq<(Key, nat)>, gone: set<Key>)
    ensures forall f | f in KeepFocus(q, gone) :: f.0 !in gone
  {
    if q != [] {
      FocusDropped(q[1..], gone);
    }
  }

  lemma {:induction false} MovesDropped(q: seq<(WindowId, Key)>, gone: set<Key>)
    ensures forall m | m in KeepMoves(q, gone) :: m.1 !in gone
  {
    if q != [] {
      MovesDropped(q[1..], gone);
    }
  }

  lemma ConfirmForgets(s: State, k: Key)
    requires k in Confirmed(s)
    ensures Forgotten(ConfirmDestroys(s), k)
  {
    hide SpacesOf, KeepFocus, KeepMoves, Confirmed;
    FocusDropped(s.focusQueue, Confirmed(s));
    MovesDropped(s.moveQueue, Confirmed(s));
  }

  lemma StaysForgotten(s: State, r: State, k: Key)
    requires Forgotten(s, k) && (k in r.reg ==> k in s.reg) && Within(s, r)
    ensures Forgotten(r, k)
  {
    WithinMembers(s, r);
    hide Within;
  }

  lemma RetireAddsNone(s: State, k: Key)
    ensures k in Retire(s).reg ==> k in s.reg
  {
    hide RemoveAll, Vanished;
  }

  lemma {:induction false} VanishingForgets(s: State, now: Instant, reset: bool, visit: Visit, k: Key)
    requires k in Confirmed(s)
    ensures Forgotten(WithoutVanished(s, now, reset, visit), k)
  {
    hide ConfirmDestroys, Retire, ParkVanished, LastSeen, Forgotten, Within;
    var s2 := NoteWindowSpaces(s, now);
    ConfirmForgets(s2, k);
    var s3 := ConfirmDestroys(s2);
    if !reset {
      RetireAddsNone(s3, k);
      RetireWithin(s3);
      StaysForgotten(s3, Retire(s3), k);
      ParkAddsNone(Retire(s3), visit.keys);
      ParkWithin(Retire(s3), visit.keys);
      StaysForgotten(Retire(s3), ParkVanished(Retire(s3), visit.keys), k);
    }
  }

  /**
   * Once the Space a workspace was condemned with is seen to be gone, the workspace is forgotten,
   * with whatever was queued for it.
   */
  lemma {:induction false} DestroyedIsForgotten(s: State, snap: Snapshot, now: Instant, visit: Visit, x: SpaceId)
    requires snap.complete && snap.WellKeyed() && x in s.pendingDestroy && x !in snap.spaces
    requires forall a | a in s.awaited :: a.key != s.pendingDestroy[x]
    ensures Forgotten(Gathered(s, snap, now, visit), s.pendingDestroy[x])
    ensures x !in Gathered(s, snap, now, visit).pendingDestroy
  {
    hide IsReset, TakenIn, WithoutVanished, BindAll, Forgotten, Within, Confirmed, Snapshot.WellKeyed, View.WellKeyed;
    var k := s.pendingDestroy[x];
    TakenInKeyed(s, snap, now, visit);
    TakenInFlight(s, snap, now, visit);
    var t := TakenIn(s, snap, now, visit);
    IsConfirmed(t, x);
    VanishingForgets(t, now, IsReset(s.view, snap), visit, k);
    var s4 := WithoutVanished(t, now, IsReset(s.view, snap), visit);
    NotBound(s4, now, visit, k);
    BindAllWithin(s4.(awaited := []), s4.awaited, now, visit);
    SameQueues(s4, s4.(awaited := []));
    WithinOn(s4, s4.(awaited := []), BindAwaited(s4, now, visit));
    NotThere(s4, k);
    StaysForgotten(s4, BindAwaited(s4, now, visit), k);
  }

  lemma NotThere(s: State, k: Key)
    requires Forgotten(s, k)
    ensures k !in s.reg
  {
  }

  lemma IsConfirmed(s: State, x: SpaceId)
    requires x in s.pendingDestroy && x !in s.view.spaces
    ensures s.pendingDestroy[x] in Confirmed(s)
  {
  }

  lemma {:induction false} TakenInFlight(s: State, snap: Snapshot, now: Instant, visit: Visit)
    requires snap.complete
    ensures var t := TakenIn(s, snap, now, visit);
            t.pendingDestroy == s.pendingDestroy && t.view.spaces == snap.spaces && (t.awaited == s.awaited || t.awaited == [])
  {
    hide IsReset, SyncConfig, ReconcileFullscreen, Requeue;
  }

  // ------------------------------------------------------------ the tree it leaves

  /** The workspace alone shows the Space, which is gone, and its tree is there. */
  ghost predicate LeftATree(s: State, k: Key, x: SpaceId, tree: Layout) {
    && k in s.reg && s.reg[k].persistent && s.reg[k].backing == Some(Normal(x)) && x !in s.view.spaces
    && x in s.layouts && s.layouts[x] == tree && forall j | j in s.reg && j != k :: s.reg[j].ActiveSpace() != Some(x)
  }

  ghost predicate TreeParked(s: State, k: Key, tree: Layout) { k in s.reg && s.reg[k].backing == None && k in s.parked && s.parked[k] == tree }

  lemma {:induction false} GoneIsShownOnce(s: State, k: Key, x: SpaceId)
    requires Tame(s) && FullscreenShown(s) && k in s.reg && s.reg[k].backing == Some(Normal(x)) && x !in s.view.spaces
    ensures forall j | j in s.reg && j != k :: s.reg[j].ActiveSpace() != Some(x)
  {
    forall j | j in s.reg && j != k ensures s.reg[j].ActiveSpace() != Some(x) {
      assert s.reg[j].Home().Some? ==> s.reg[j].Home() != s.reg[k].Home();
    }
  }

  lemma {:induction false} ForgettingLeavesTree(s: State, ks: set<Key>, k: Key, x: SpaceId, tree: Layout)
    requires LeftATree(s, k, x, tree) && k !in ks
    ensures LeftATree(RemoveAll(s, ks), k, x, tree)
  {
    hide KeepFocus, KeepMoves;
  }

  lemma ConfirmLeavesTree(s: State, k: Key, x: SpaceId, tree: Layout)
    requires LeftATree(s, k, x, tree) && k !in Confirmed(s)
    ensures LeftATree(ConfirmDestroys(s), k, x, tree)
  {
    hide KeepFocus, KeepMoves, Confirmed;
  }

  lemma RetireLeavesTree(s: State, k: Key, x: SpaceId, tree: Layout)
    requires LeftATree(s, k, x, tree)
    ensures LeftATree(Retire(s), k, x, tree)
  {
    hide RemoveAll, Vanished;
    ForgettingLeavesTree(s, (set j | j in s.reg && !s.reg[j].persistent && Vanished(s, s.reg[j])), k, x, tree);
  }

  lemma ParkingTakesTree(s: State, k: Key, x: SpaceId, tree: Layout)
    requires LeftATree(s, k, x, tree)
    ensures TreeParked(ParkOne(s, k), k, tree)
  {
    hide Requested;
  }

  lemma ParkingOthersLeavesTree(s: State, j: Key, k: Key, x: SpaceId, tree: Layout)
    requires LeftATree(s, k, x, tree) && j != k
    ensures LeftATree(ParkOne(s, j), k, x, tree)
  {
    hide Requested, Vanished;
  }

  lemma ParkingKeepsParked(s: State, j: Key, k: Key, tree: Layout)
    requires TreeParked(s, k, tree)
    ensures TreeParked(ParkOne(s, j), k, tree)
  {
    hide Requested;
  }

  lemma {:induction false} StaysParked(s: State, ks: seq<Key>, k: Key, tree: Layout)
    requires TreeParked(s, k, tree)
    ensures TreeParked(ParkVanished(s, ks), k, tree)
    decreases |ks|
  {
    hide ParkOne, TreeParked;
    if ks != [] {
      ParkingKeepsParked(s, ks[0], k, tree);
      StaysParked(ParkOne(s, ks[0]), ks[1..], k, tree);
    }
  }

  lemma {:induction false} WalkParksTree(s: State, ks: seq<Key>, k: Key, x: SpaceId, tree: Layout)
    requires LeftATree(s, k, x, tree) && k in ks
    ensures TreeParked(ParkVanished(s, ks), k, tree)
    decreases |ks|
  {
    hide ParkOne, TreeParked, LeftATree;
    if ks[0] == k {
      ParkingTakesTree(s, k, x, tree);
      StaysParked(ParkOne(s, k), ks[1..], k, tree);
    } else {
      ParkingOthersLeavesTree(s, ks[0], k, x, tree);
      WalkParksTree(ParkOne(s, ks[0]), ks[1..], k, x, tree);
    }
  }

  lemma {:induction false} VanishingParksTree(s: State, now: Instant, visit: Visit, k: Key, x: SpaceId, tree: Layout)
    requires LeftATree(s, k, x, tree) && k !in Confirmed(s) && k in visit.keys
    ensures TreeParked(WithoutVanished(s, now, false, visit), k, tree)
  {
    hide ConfirmDestroys, Retire, ParkVanished, LastSeen, TreeParked;
    var s2 := NoteWindowSpaces(s, now);
    assert LeftATree(s2, k, x, tree);
    ConfirmLeavesTree(s2, k, x, tree);
    RetireLeavesTree(ConfirmDestroys(s2), k, x, tree);
    WalkParksTree(Retire(ConfirmDestroys(s2)), visit.keys, k, x, tree);
  }

  lemma {:induction false} BindLeavesParked(s: State, todo: seq<Awaited>, now: Instant, visit: Visit, k: Key, tree: Layout)
    requires s.view.WellKeyed() && TreeParked(s, k, tree) && forall a | a in todo :: a.key != k
    ensures TreeParked(BindAll(s, todo, now, visit), k, tree)
    decreases |todo|
  {
    hide BindOne, View.WellKeyed, TreeParked;
    if todo != [] {
      BindOneLeavesParked(s, todo[0], now, visit, k, tree);
      BindLeavesParked(BindOne(s, todo[0], now, visit), todo[1..], now, visit, k, tree);
    }
  }

  lemma BindOneLeavesParked(s: State, a: Awaited, now: Instant, visit: Visit, k: Key, tree: Layout)
    requires s.view.WellKeyed() && TreeParked(s, k, tree) && a.key != k
    ensures TreeParked(BindOne(s, a, now, visit), k, tree)
  {
    hide Released, BindTo, Candidates, View.WellKeyed, Expired, Aged, TreeParked;
    var b := Aged(a, now);
    SameKey(a, now);
    ReleasedLeavesParked(s, b.key, k, tree);
    SameParked(s, s.(awaited := s.awaited + [b]), k, tree);
    if b.key in s.reg {
      CandidatesKeyed(s, b);
      if Candidates(s, b) != {} {
        BoundLeavesParked(s, b.key, FirstSlot(Candidates(s, b)), now, visit, k, tree);
      }
    }
  }

  lemma SameParked(s: State, r: State, k: Key, tree: Layout)
    requires TreeParked(s, k, tree) && r.reg == s.reg && r.parked == s.parked
    ensures TreeParked(r, k, tree)
  {
  }

  lemma ReleasedLeavesParked(s: State, j: Key, k: Key, tree: Layout)
    requires TreeParked(s, k, tree) && j != k
    ensures TreeParked(Released(s, j), k, tree)
  {
    hide SpacesOf, KeepFocus, KeepMoves;
  }

  lemma BoundLeavesParked(s: State, j: Key, x: Space, now: Instant, visit: Visit, k: Key, tree: Layout)
    requires TreeParked(s, k, tree) && j != k && j in s.reg
    ensures TreeParked(BindTo(s, j, x, now, visit), k, tree)
  {
    hide LogicalOrder;
  }

  lemma {:induction false} TakenInKeepsTrees(s: State, snap: Snapshot, now: Instant, visit: Visit)
    ensures TakenIn(s, snap, now, visit).layouts == s.layouts
  {
    hide IsReset, SyncConfig, FullscreenRegistry, Restored, ReserveOrder, Requeue;
    var s1 := Observe(if IsReset(s.view, snap) then VoidReservations(s) else s, snap);
    assert SyncConfig(s1, visit).AllTrees() == s1.AllTrees();
  }

  /** And the tree of a persistent workspace whose Space is gone is parked under its name. */
  lemma {:induction false} VanishedTreeIsParked(s: State, snap: Snapshot, now: Instant, visit: Visit, k: Key)
    requires snap.complete && snap.WellKeyed() && Tame(s) && StaysGone(s, snap) && LostItsSpace(s, snap, now, visit, k)
    requires s.reg[k].backing.value.space in s.layouts && k in visit.keys
    requires k in Synced(s, snap, visit).reg && Synced(s, snap, visit).reg[k].persistent
    ensures TreeParked(Gathered(s, snap, now, visit), k, s.layouts[s.reg[k].backing.value.space])
  {
    hide IsReset, TakenIn, WithoutVanished, BindAll, Replaced, Synced, Enters, Tame, Confirmed, Vanished, TreeParked, FullscreenShown, StaysGone, Snapshot.WellKeyed, View.WellKeyed;
    ResetIff(s.view, snap);
    TakenInWithoutSpace(s, snap, now, visit, k);
    TakenInSubstitutes(s, snap, now, visit, k);
    TakenInStaysTame(s, snap, now, visit);
    TakenInKeepsTrees(s, snap, now, visit);
    TakenInKeyed(s, snap, now, visit);
    var x := s.reg[k].backing.value.space;
    var t := TakenIn(s, snap, now, visit);
    GoneIsShownOnce(t, k, x);
    VanishingParksTree(t, now, visit, k, x, s.layouts[x]);
    var s4 := WithoutVanished(t, now, false, visit);
    OwnerIsNotAwaited(s, t, k);
    SameParked(s4, s4.(awaited := []), k, s.layouts[x]);
    BindLeavesParked(s4.(awaited := []), s4.awaited, now, visit, k, s.layouts[x]);
  }
}
