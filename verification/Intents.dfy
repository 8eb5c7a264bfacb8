/**
 * Focus and window intents: what a command asks for is answered with the Space its workspace
 * shows, at once or from the queue, and nothing else is ever focused or moved on its account.
 */
module Intents {
  import opened Basics
  import opened Geometry
  import opened Observed
  import opened Workspace
  import opened Remap
  import opened Lifecycle
  import opened Runs
  import opened LastSpace
  import opened Homes
  import opened Staying
  import opened ParkedTrees
  import opened Spared

  // ------------------------------------------------------ nothing is invented

  /** Nothing is queued that was not, or more often than it was. */
  ghost predicate Within(s: State, r: State) {
    multiset(r.focusQueue) <= multiset(s.focusQueue) && multiset(r.moveQueue) <= multiset(s.moveQueue)
  }

  lemma WithinOn(a: State, b: State, c: State)
    requires Within(a, b) && Within(b, c)
    ensures Within(a, c)
  {
  }

  lemma SameQueues(s: State, r: State)
    requires r.focusQueue == s.focusQueue && r.moveQueue == s.moveQueue
    ensures Within(s, r)
  {
  }

  lemma FrontAndRest<T>(q: seq<T>)
    requires q != []
    ensures multiset(q) == multiset{q[0]} + multiset(q[1..])
  {
    assert q == [q[0]] + q[1..];
  }

  lemma {:induction false} FocusWithin(q: seq<(Key, nat)>, gone: set<Key>)
    ensures multiset(KeepFocus(q, gone)) <= multiset(q)
  {
    if q != [] {
      FocusWithin(q[1..], gone);
      FrontAndRest(q);
    }
  }

  lemma {:induction false} MovesWithin(q: seq<(WindowId, Key)>, gone: set<Key>)
    ensures multiset(KeepMoves(q, gone)) <= multiset(q)
  {
    if q != [] {
      MovesWithin(q[1..], gone);
      FrontAndRest(q);
    }
  }

  lemma ForgettingWithin(s: State, ks: set<Key>)
    ensures Within(s, RemoveAll(s, ks))
  {
    hide SpacesOf, KeepFocus, KeepMoves;
    FocusWithin(s.focusQueue, ks);
    MovesWithin(s.moveQueue, ks);
  }

  lemma ParkOneWithin(s: State, k: Key)
    ensures Within(s, ParkOne(s, k))
  {
    hide Requested, Within;
    SameQueues(s, ParkOne(s, k));
  }

  lemma {:induction false} ParkWithin(s: State, ks: seq<Key>)
    ensures Within(s, ParkVanished(s, ks))
    decreases |ks|
  {
    hide ParkOne, Within;
    SameQueues(s, s);
    if ks != [] {
      ParkOneWithin(s, ks[0]);
      ParkWithin(ParkOne(s, ks[0]), ks[1..]);
      WithinOn(s, ParkOne(s, ks[0]), ParkVanished(s, ks));
    }
  }

  lemma ConfirmWithin(s: State)
    ensures Within(s, ConfirmDestroys(s))
  {
    hide SpacesOf, KeepFocus, KeepMoves, Confirmed;
    FocusWithin(s.focusQueue, Confirmed(s));
    MovesWithin(s.moveQueue, Confirmed(s));
  }

  lemma RetireWithin(s: State)
    ensures Within(s, Retire(s))
  {
    hide RemoveAll, Within, Vanished;
    ForgettingWithin(s, (set k | k in s.reg && !s.reg[k].persistent && Vanished(s, s.reg[k])));
  }

  lemma {:induction false} VanishingWithin(s: State, now: Instant, reset: bool, visit: Visit)
    ensures Within(s, WithoutVanished(s, now, reset, visit))
  {
    hide ConfirmDestroys, Retire, ParkVanished, LastSeen, Within;
    var s2 := NoteWindowSpaces(s, now);
    SameQueues(s, s2);
    ConfirmWithin(s2);
    var s3 := ConfirmDestroys(s2);
    WithinOn(s, s2, s3);
    if !reset {
      RetireWithin(s3);
      ParkWithin(Retire(s3), visit.keys);
      WithinOn(s, s3, Retire(s3));
      WithinOn(s, Retire(s3), WithoutVanished(s, now, reset, visit));
    }
  }

  lemma {:induction false} BindOneWithin(s: State, a: Awaited, now: Instant, visit: Visit)
    requires s.view.WellKeyed()
    ensures Within(s, BindOne(s, a, now, visit))
  {
    hide Released, BindTo, Candidates, View.WellKeyed, Expired, Aged, Within;
    var b := Aged(a, now);
    SameQueues(s, s);
    ReleasedWithin(s, b.key);
    SameQueues(s, s.(awaited := s.awaited + [b]));
    if b.key in s.reg {
      CandidatesKeyed(s, b);
      if Candidates(s, b) != {} {
        BoundWithin(s, b.key, FirstSlot(Candidates(s, b)), now, visit);
      }
    }
  }

  lemma ReleasedWithin(s: State, k: Key)
    ensures Within(s, Released(s, k))
  {
    hide RemoveAll, Within;
    SameQueues(s, s);
    ForgettingWithin(s, {k});
  }

  lemma BoundWithin(s: State, k: Key, x: Space, now: Instant, visit: Visit)
    requires k in s.reg
    ensures Within(s, BindTo(s, k, x, now, visit))
  {
    hide LogicalOrder;
  }

  lemma {:induction false} BindAllWithin(s: State, todo: seq<Awaited>, now: Instant, visit: Visit)
    requires s.view.WellKeyed()
    ensures Within(s, BindAll(s, todo, now, visit))
    decreases |todo|
  {
    hide BindOne, View.WellKeyed, Within;
    SameQueues(s, s);
    if todo != [] {
      BindOneWithin(s, todo[0], now, visit);
      BindAllWithin(BindOne(s, todo[0], now, visit), todo[1..], now, visit);
      WithinOn(s, BindOne(s, todo[0], now, visit), BindAll(s, todo, now, visit));
    }
  }

  lemma AdoptOneWithin(s: State, x: SpaceId)
    requires x in s.view.spaces
    ensures Within(s, AdoptOne(s, x))
  {
    hide NextName, NextOrdinal;
  }

  lemma {:induction false} AdoptAllWithin(s: State, xs: seq<SpaceId>)
    requires forall x | x in xs :: x in s.view.spaces
    ensures Within(s, AdoptAll(s, xs))
    decreases |xs|
  {
    hide AdoptOne, Within;
    SameQueues(s, s);
    if xs != [] {
      AdoptOneWithin(s, xs[0]);
      AdoptAllWithin(AdoptOne(s, xs[0]), xs[1..]);
      WithinOn(s, AdoptOne(s, xs[0]), AdoptAll(s, xs));
    }
  }

  lemma {:induction false} ObserveWithin(s: State, now: Instant)
    requires s.view.WellKeyed()
    ensures Within(s, ObserveExternal(s, now))
  {
    hide View.WellKeyed, StillExternal, AdoptAll, Adoptable, Within, Strangers;
    var s1 := s.(external := StillExternal(s));
    var s2 := GraceSurplus(s1, now);
    SameQueues(s, s1.(initialized := true));
    SameQueues(s, s2);
    if s.initialized && s.awaited == [] {
      AdoptAllWithin(s2, Adoptable(s2));
      WithinOn(s, s2, AdoptAll(s2, Adoptable(s2)));
    }
  }

  lemma {:induction false} SettlingWithin(s: State, previous: map<WindowId, Window>, now: Instant, reset: bool, visit: Visit)
    requires s.view.WellKeyed()
    ensures Within(s, SettledFrom(s, previous, now, reset, visit))
  {
    hide ReconcileFullscreen, WithoutVanished, BindAll, ObserveExternal, View.WellKeyed, Within;
    FullscreenKeepsQueues(s, previous, now, visit, Key(0, ""));
    var s2 := ReconcileFullscreen(s, previous, now, visit);
    SameQueues(s, s2);
    VanishingWithin(s2, now, reset, visit);
    var s4 := WithoutVanished(s2, now, reset, visit);
    var s5 := s4.(awaited := []);
    SameQueues(s4, s5);
    BindAllWithin(s5, s4.awaited, now, visit);
    var s6 := BindAwaited(s4, now, visit);
    ObserveWithin(s6, now);
    WithinOn(s, s2, s4);
    WithinOn(s, s4, s5);
    WithinOn(s, s5, s6);
    WithinOn(s, s6, ObserveExternal(s6, now));
  }

  lemma {:induction false} SettledWithin(s: State, snap: Snapshot, now: Instant, visit: Visit)
    requires snap.complete && snap.WellKeyed()
    ensures Within(s, Settled(s, snap, now, visit))
  {
    hide IsReset, SyncConfig, Settled, SettledFrom, Within, Snapshot.WellKeyed, View.WellKeyed;
    SettledAfterSync(s, snap, now, visit);
    var s1 := Observe(if IsReset(s.view, snap) then VoidReservations(s) else s, snap);
    SameQueues(s, s1);
    SyncKeepsQueues(s1, visit);
    var q := SyncConfig(s1, visit);
    SameQueues(s1, q);
    SettlingWithin(q, s.view.windows, now, IsReset(s.view, snap), visit);
    WithinOn(s, s1, q);
    WithinOn(s, q, Settled(s, snap, now, visit));
  }

  lemma {:induction false} CollectingWithin(s: State, moved: set<Key>, now: Instant)
    ensures Within(s, DestroyEmpty(s, moved, now).0)
  {
    hide *;
    CollectedShape(s, moved, now);
    SweepWithin(s, Stale(s, moved, now));
    var r := DestroyEmpty(s, moved, now).0;
    if r == s {
      SameQueues(s, s);
    } else {
      SameQueues(Swept(s, Stale(s, moved, now)), r);
      WithinOn(s, Swept(s, Stale(s, moved, now)), r);
    }
  }

  lemma SweepWithin(s: State, stale: set<Key>)
    ensures Within(s, Swept(s, stale))
  {
    hide RemoveAll, Within;
    ForgettingWithin(s, stale);
    SameQueues(RemoveAll(s, stale), Swept(s, stale));
    WithinOn(s, RemoveAll(s, stale), Swept(s, stale));
  }

  // ------------------------------------------------------------ the queue answers

  /** Just used: in grace from now on. */
  ghost predicate Fresh(s: State, k: Key, now: Instant) { k in s.grace && s.grace[k] == now + DYNAMIC_GRACE }

  /** The workspace's Space is focused, whichever it shows, and the workspace is in grace. */
  ghost predicate Focused(r: Outcome, k: Key, now: Instant) {
    && k in r.0.reg && r.0.reg[k].ActiveSpace().Some? && FocusSpace(r.0.reg[k].ActiveSpace().value) in r.1 && Fresh(r.0, k, now)
  }

  /** The window goes to the Space the workspace shows, and the workspace is in grace. */
  ghost predicate Sent(r: Outcome, w: WindowId, k: Key, now: Instant) {
    && k in r.0.reg && r.0.reg[k].ActiveSpace().Some? && Fresh(r.0, k, now)
    && (w in r.0.view.windows ==> MoveWindowToSpace(w, r.0.reg[k].ActiveSpace().value) in r.1)
  }

  /** No reservation holds intents up and the workspace shows a Space. */
  predicate Ready(s: State, k: Key) { s.placement.None? && k in s.reg && s.reg[k].ActiveSpace().Some? }

  /** The focus in front is answered exactly when it can be. */
  lemma {:induction false} FulfillFront(s: State, now: Instant, k: Key)
    requires s.focusQueue != [] && s.focusQueue[0] == (k, 0) && k in s.reg
    ensures var r := FulfillQueues(s, now);
            if Ready(s, k) then Focused(r, k, now) && r.0.focusQueue == s.focusQueue[1..] else r.0.focusQueue == s.focusQueue
  {
  }

  /** A queued focus stays queued until it is answered. */
  lemma {:induction false} FulfillFocusKeeps(s: State, now: Instant, k: Key)
    requires (k, 0) in s.focusQueue && k in s.reg
    ensures var r := FulfillQueues(s, now); (k, 0) in r.0.focusQueue || Focused(r, k, now)
  {
    if s.focusQueue[0] == (k, 0) {
      FulfillFront(s, now, k);
    } else {
      assert (k, 0) in s.focusQueue[1..];
    }
  }

  lemma {:induction false} FulfillMoveFront(s: State, now: Instant, w: WindowId, k: Key)
    requires s.moveQueue != [] && s.moveQueue[0] == (w, k) && k in s.reg
    ensures var r := FulfillQueues(s, now);
            if Ready(s, k) then Sent(r, w, k, now) && r.0.moveQueue == s.moveQueue[1..] else r.0.moveQueue == s.moveQueue
  {
  }

  lemma {:induction false} FulfillMoveKeeps(s: State, now: Instant, w: WindowId, k: Key)
    requires (w, k) in s.moveQueue && k in s.reg
    ensures var r := FulfillQueues(s, now); (w, k) in r.0.moveQueue || Sent(r, w, k, now)
  {
    if s.moveQueue[0] == (w, k) {
      FulfillMoveFront(s, now, w, k);
    } else {
      assert (w, k) in s.moveQueue[1..];
    }
  }

  lemma FocusActs(s: State, now: Instant, a: Action)
    requires a in FulfillFocus(s, now).1
    ensures s.focusQueue != [] && s.focusQueue[0].1 == 0 && s.BackingOf(s.focusQueue[0].0).Some?
    ensures a == FocusSpace(s.BackingOf(s.focusQueue[0].0).value)
  {
  }

  lemma MoveActs(s: State, now: Instant, a: Action)
    requires a in FulfillMove(s, now).1
    ensures s.moveQueue != [] && s.moveQueue[0].0 in s.view.windows && s.BackingOf(s.moveQueue[0].1).Some?
    ensures a == MoveWindowToSpace(s.moveQueue[0].0, s.BackingOf(s.moveQueue[0].1).value)
  {
  }

  /** The queued focus or move an action answers. */
  ghost predicate AsksFor(s: State, r: State, a: Action) {
    || (a.FocusSpace? && exists f :: f in s.focusQueue && f.0 in r.reg && r.reg[f.0].ActiveSpace() == Some(a.space))
    || (a.MoveWindowToSpace? && a.window in r.view.windows
        && exists m :: m in s.moveQueue && m.0 == a.window && m.1 in r.reg && r.reg[m.1].ActiveSpace() == Some(a.space))
  }

  /** What is focused or moved is what was asked for. */
  lemma {:induction false} FulfillOnlyQueued(s: State, now: Instant, a: Action)
    requires a in FulfillQueues(s, now).1
    ensures AsksFor(s, s, a)
  {
    hide FulfillFocus, FulfillMove;
    var (s1, a1) := FulfillFocus(s, now);
    if a in a1 {
      FocusActs(s, now, a);
      assert s.focusQueue[0] in s.focusQueue;
    } else {
      MoveActs(s1, now, a);
      assert s.moveQueue[0] in s.moveQueue;
    }
  }

  lemma FocusPops(s: State, now: Instant)
    ensures var r := FulfillFocus(s, now).0; r.focusQueue == s.focusQueue || (s.focusQueue != [] && r.focusQueue == s.focusQueue[1..])
  {
  }

  lemma MovePops(s: State, now: Instant)
    ensures var r := FulfillMove(s, now).0; r.moveQueue == s.moveQueue || (s.moveQueue != [] && r.moveQueue == s.moveQueue[1..])
  {
  }

  lemma RestWithin<T>(q: seq<T>)
    requires q != []
    ensures multiset(q[1..]) <= multiset(q)
  {
    FrontAndRest(q);
  }

  lemma FocusStageWithin(s: State, now: Instant)
    ensures Within(s, FulfillFocus(s, now).0)
  {
    hide FulfillFocus;
    FocusPops(s, now);
    if s.focusQueue != [] {
      RestWithin(s.focusQueue);
    }
  }

  lemma MoveStageWithin(s: State, now: Instant)
    ensures Within(s, FulfillMove(s, now).0)
  {
    hide FulfillMove;
    MovePops(s, now);
    if s.moveQueue != [] {
      RestWithin(s.moveQueue);
    }
  }

  lemma {:induction false} FulfillWithin(s: State, now: Instant)
    ensures Within(s, FulfillQueues(s, now).0)
  {
    hide FulfillFocus, FulfillMove, Within;
    SameQueues(s, s);
    var s1 := FulfillFocus(s, now).0;
    FocusStageWithin(s, now);
    MoveStageWithin(s1, now);
    WithinOn(s, s1, FulfillMove(s1, now).0);
  }

  // ------------------------------------------------------------- one whole look

  /** Where the queues are looked at: bindings settled, slots handed out, the empty collected. */
  ghost function AtQueues(s: State, now: Instant, visit: Visit): State
    requires s.view.WellKeyed()
  {
    hide Rebind, ReconcilePlacement, AtCollection, DestroyEmpty, View.WellKeyed;
    DestroyEmpty(AtCollection(s, now, visit), MovedKeys(Rebind(ReconcilePlacement(s, now).0, visit).1), now).0
  }

  /** What two states agree on as far as intents go. */
  ghost predicate SameIntents(a: State, b: State) {
    && b.reg == a.reg && b.view == a.view && b.placement == a.placement && b.grace == a.grace
    && b.focusQueue == a.focusQueue && b.moveQueue == a.moveQueue
  }

  lemma WindowActions(a1: seq<Action>, a3: seq<Action>, a4: seq<Action>, a6: seq<Action>, actions: seq<Action>)
    requires a1 == [] || (|a1| == 1 && a1[0].MoveSpace?)
    requires a3 == [] || (|a3| == 1 && a3[0].DestroySpace?)
    requires a6 == [] || (|a6| == 1 && a6[0].CreateSpace?)
    requires actions == a1 + a3 + a4 + a6 || (a1 + a3 + a4 + a6 == [] && |actions| == 1 && actions[0].DestroySpace?)
    ensures (forall a | a in a4 :: a in actions) && forall a | a in actions && !a.IsTopology() :: a in a4
  {
  }

  /** The rest of the pass adds neither intents nor window actions. */
  lemma {:induction false} QueuesDecide(s: State, now: Instant, visit: Visit)
    requires s.view.WellKeyed()
    ensures var q, r := FulfillQueues(AtQueues(s, now, visit), now), Advance(s, now, visit);
            && SameIntents(q.0, r.0)
            && (forall a | a in q.1 :: a in r.1) && (forall a | a in r.1 && !a.IsTopology() :: a in q.1)
  {
    hide ReconcilePlacement, Rebind, GraceSurplus, DestroyEmpty, FulfillQueues, RequestMissing, TryStart, HealIfIdle, MovedKeys, Ascending;
    hide View.WellKeyed, State.Quiet, NoTopology, Strangers;
    var (s1, a1) := ReconcilePlacement(s, now);
    var (s2, moves) := Rebind(s1, visit);
    var (s3, a3) := DestroyEmpty(GraceSurplus(s2, now), MovedKeys(moves), now);
    var (s4, a4) := FulfillQueues(s3, now);
    var s5 := RequestMissing(s4, Ascending(s4.view.displays.Keys));
    var (s6, a6) := TryStart(s5, now);
    WindowActions(a1, a3, a4, a6, HealIfIdle(s6, a1 + a3 + a4 + a6, now).1);
  }

  lemma {:induction false} QueuesUphold(s: State, now: Instant, visit: Visit, k: Key)
    requires s.view.WellKeyed() && k in s.reg && Wanted(s, k, now)
    ensures Upheld(s, AtQueues(s, now, visit), k, now)
  {
    hide Rebind, ReconcilePlacement, AtCollection, DestroyEmpty, View.WellKeyed, Upheld, Wanted;
    RestUpholds(s, now, visit, k);
    var g := AtCollection(s, now, visit);
    UpheldFully(s, g, k, now);
    var moved := MovedKeys(Rebind(ReconcilePlacement(s, now).0, visit).1);
    CollectingUpholds(g, moved, now, k);
    UpheldOn(s, g, DestroyEmpty(g, moved, now).0, k, now);
  }

  lemma {:induction false} QueuesWithin(s: State, now: Instant, visit: Visit)
    requires s.view.WellKeyed()
    ensures Within(s, AtQueues(s, now, visit)) && AtQueues(s, now, visit).view == s.view
  {
    hide Rebind, ReconcilePlacement, GraceSurplus, DestroyEmpty, View.WellKeyed, Within, Strangers;
    var g := AtCollection(s, now, visit);
    SameQueues(s, g);
    var moved := MovedKeys(Rebind(ReconcilePlacement(s, now).0, visit).1);
    CollectingWithin(g, moved, now);
    WithinOn(s, g, DestroyEmpty(g, moved, now).0);
  }

  lemma WithinMembers(s: State, r: State)
    requires Within(s, r)
    ensures (forall f | f in r.focusQueue :: f in s.focusQueue) && forall m | m in r.moveQueue :: m in s.moveQueue
  {
    forall f | f in r.focusQueue ensures f in s.focusQueue {
      assert f in multiset(r.focusQueue);
      assert f in multiset(s.focusQueue);
    }
    forall m | m in r.moveQueue ensures m in s.moveQueue {
      assert m in multiset(r.moveQueue);
      assert m in multiset(s.moveQueue);
    }
  }

  lemma AskedBefore(s: State, q: State, r: State, a: Action)
    requires AsksFor(q, q, a) && r.reg == q.reg && r.view == q.view
    requires (forall f | f in q.focusQueue :: f in s.focusQueue) && forall m | m in q.moveQueue :: m in s.moveQueue
    ensures AsksFor(s, r, a)
  {
  }

  /** A look focuses and moves only what was queued, to the Space the workspace shows by then. */
  lemma {:induction false} LookAnswersOnlyQueued(s: State, snap: Snapshot, now: Instant, visit: Visit, a: Action)
    requires snap.complete && snap.WellKeyed()
    requires a in SnapshotStep(s, snap, now, visit).1 && !a.IsTopology()
    ensures AsksFor(s, SnapshotStep(s, snap, now, visit).0, a)
  {
    hide Settled, Advance, AtQueues, FulfillQueues, Within, AsksFor, Snapshot.WellKeyed, View.WellKeyed;
    var s0 := Settled(s, snap, now, visit);
    SettledWithin(s, snap, now, visit);
    QueuesWithin(s0, now, visit);
    var q := AtQueues(s0, now, visit);
    WithinOn(s, s0, q);
    WithinMembers(s, q);
    QueuesDecide(s0, now, visit);
    FulfillOnlyQueued(q, now, a);
    AskedBefore(s, q, SnapshotStep(s, snap, now, visit).0, a);
  }

  // -------------------------------------------------------- answered in its turn

  lemma FrontIsWanted(s: State, k: Key, now: Instant)
    requires (k, 0) in s.focusQueue || exists w: WindowId :: (w, k) in s.moveQueue
    ensures Wanted(s, k, now)
  {
  }

  lemma UpheldIntents(s: State, r: State, k: Key, now: Instant)
    requires k in s.reg && Upheld(s, r, k, now)
    ensures IntentsUpheld(s, r, k, now) && k in r.reg
  {
    hide Steadfast;
  }

  /** Bindings settle, and the pass gets to its queues, with whatever was queued for a workspace still there. */
  lemma {:induction false} LookReachesQueues(s: State, snap: Snapshot, now: Instant, visit: Visit, k: Key)
    requires snap.complete && snap.WellKeyed() && NoCause(s, snap, now, k) && Wanted(s, k, now)
    ensures var q := AtQueues(Settled(s, snap, now, visit), now, visit);
            k in s.reg && k in q.reg && IntentsUpheld(s, q, k, now) && Within(s, q)
  {
    hide *;
    CauseIsThere(s, snap, now, k);
    SettledUpholds(s, snap, now, visit, k);
    SettledWithin(s, snap, now, visit);
    SettledKeyed(s, snap, now, visit);
    var s0 := Settled(s, snap, now, visit);
    UpheldFully(s, s0, k, now);
    QueuesUphold(s0, now, visit, k);
    QueuesWithin(s0, now, visit);
    UpheldOn(s, s0, AtQueues(s0, now, visit), k, now);
    UpheldIntents(s, AtQueues(s0, now, visit), k, now);
    WithinOn(s, s0, AtQueues(s0, now, visit));
  }

  lemma SettledKeyed(s: State, snap: Snapshot, now: Instant, visit: Visit)
    requires snap.complete && snap.WellKeyed()
    ensures Settled(s, snap, now, visit).view.WellKeyed()
  {
    hide Settled, View.WellKeyed;
  }

  lemma CompleteStep(s: State, snap: Snapshot, now: Instant, visit: Visit)
    requires snap.complete && snap.WellKeyed()
    ensures Settled(s, snap, now, visit).view.WellKeyed()
    ensures SnapshotStep(s, snap, now, visit) == Advance(Settled(s, snap, now, visit), now, visit)
  {
    hide Settled, Advance, View.WellKeyed;
  }

  /** The focus in front is answered, and no longer queued as often. */
  ghost predicate FocusDone(s: State, r: Outcome, k: Key, now: Instant) {
    Focused(r, k, now) && multiset(r.0.focusQueue)[(k, 0)] < multiset(s.focusQueue)[(k, 0)]
  }

  ghost predicate MoveDone(s: State, r: Outcome, w: WindowId, k: Key, now: Instant) {
    Sent(r, w, k, now) && multiset(r.0.moveQueue)[(w, k)] < multiset(s.moveQueue)[(w, k)]
  }

  lemma FocusOutcome(s: State, q: State, f: Outcome, r: Outcome, k: Key, now: Instant)
    requires SameIntents(f.0, r.0) && forall a | a in f.1 :: a in r.1
    requires Within(s, q) && q.focusQueue != [] && q.focusQueue[0] == (k, 0) && f.0.reg == q.reg && f.0.placement == q.placement
    requires if Ready(q, k) then Focused(f, k, now) && f.0.focusQueue == q.focusQueue[1..] else f.0.focusQueue == q.focusQueue
    ensures if Ready(r.0, k) then FocusDone(s, r, k, now) else r.0.focusQueue != [] && r.0.focusQueue[0] == (k, 0)
  {
    FrontAndRest(q.focusQueue);
  }

  lemma MoveOutcome(s: State, q: State, f: Outcome, r: Outcome, w: WindowId, k: Key, now: Instant)
    requires SameIntents(f.0, r.0) && forall a | a in f.1 :: a in r.1
    requires Within(s, q) && q.moveQueue != [] && q.moveQueue[0] == (w, k) && f.0.reg == q.reg && f.0.placement == q.placement
    requires if Ready(q, k) then Sent(f, w, k, now) && f.0.moveQueue == q.moveQueue[1..] else f.0.moveQueue == q.moveQueue
    ensures if Ready(r.0, k) then MoveDone(s, r, w, k, now) else r.0.moveQueue != [] && r.0.moveQueue[0] == (w, k)
  {
    FrontAndRest(q.moveQueue);
  }

  lemma FulfillKeepsBindings(s: State, now: Instant)
    ensures var r := FulfillQueues(s, now).0; r.reg == s.reg && r.placement == s.placement && r.view == s.view
  {
    hide FulfillFocus, FulfillMove;
  }

  /**
   * The focus in front of the queue, for a workspace the snapshot gives no cause to forget: it is
   * answered, once, with the Space the workspace shows, exactly when it shows one and the strip is
   * not being put in order; otherwise it stays in front.
   */
  lemma {:induction false} FrontFocusAnswered(s: State, snap: Snapshot, now: Instant, visit: Visit, k: Key)
    requires snap.complete && snap.WellKeyed() && NoCause(s, snap, now, k) && s.focusQueue != [] && s.focusQueue[0] == (k, 0)
    ensures var r := SnapshotStep(s, snap, now, visit);
            && k in r.0.reg
            && if Ready(r.0, k) then FocusDone(s, r, k, now) else r.0.focusQueue != [] && r.0.focusQueue[0] == (k, 0)
  {
    hide *;
    CompleteStep(s, snap, now, visit);
    assert s.focusQueue[0] in s.focusQueue;
    FrontIsWanted(s, k, now);
    LookReachesQueues(s, snap, now, visit, k);
    var s0 := Settled(s, snap, now, visit);
    var q := AtQueues(s0, now, visit);
    FrontUpheld(s, q, k, now);
    FulfillFront(q, now, k);
    FulfillKeepsBindings(q, now);
    QueuesDecide(s0, now, visit);
    FocusOutcome(s, q, FulfillQueues(q, now), SnapshotStep(s, snap, now, visit), k, now);
    AgreeOnBindings(FulfillQueues(q, now).0, SnapshotStep(s, snap, now, visit).0);
  }

  lemma AgreeOnBindings(a: State, b: State)
    requires SameIntents(a, b)
    ensures b.reg == a.reg
  {
  }

  lemma FrontUpheld(s: State, r: State, k: Key, now: Instant)
    requires IntentsUpheld(s, r, k, now)
    ensures s.focusQueue != [] && s.focusQueue[0].0 == k ==> r.focusQueue != [] && r.focusQueue[0] == s.focusQueue[0]
    ensures s.moveQueue != [] && s.moveQueue[0].1 == k ==> r.moveQueue != [] && r.moveQueue[0] == s.moveQueue[0]
  {
  }

  /** The same for a window on its way to a workspace. */
  lemma {:induction false} FrontMoveAnswered(s: State, snap: Snapshot, now: Instant, visit: Visit, w: WindowId, k: Key)
    requires snap.complete && snap.WellKeyed() && NoCause(s, snap, now, k) && s.moveQueue != [] && s.moveQueue[0] == (w, k)
    ensures var r := SnapshotStep(s, snap, now, visit);
            && k in r.0.reg
            && if Ready(r.0, k) then MoveDone(s, r, w, k, now) else r.0.moveQueue != [] && r.0.moveQueue[0] == (w, k)
  {
    hide *;
    CompleteStep(s, snap, now, visit);
    assert s.moveQueue[0] in s.moveQueue;
    FrontIsWanted(s, k, now);
    LookReachesQueues(s, snap, now, visit, k);
    var s0 := Settled(s, snap, now, visit);
    var q := AtQueues(s0, now, visit);
    FrontUpheld(s, q, k, now);
    FulfillMoveFront(q, now, w, k);
    FulfillKeepsBindings(q, now);
    QueuesDecide(s0, now, visit);
    MoveOutcome(s, q, FulfillQueues(q, now), SnapshotStep(s, snap, now, visit), w, k, now);
    AgreeOnBindings(FulfillQueues(q, now).0, SnapshotStep(s, snap, now, visit).0);
  }

  // ------------------------------------------------------------------- commands

  /** The Space the workspace shows is observed. */
  predicate ShowsObserved(s: State, k: Key) {
    k in s.reg && s.reg[k].ActiveSpace().Some? && s.reg[k].ActiveSpace().value in s.view.spaces
  }

  lemma EnsureKeepsQueues(s: State, k: Key)
    ensures var r := EnsureDynamic(s, k);
            r.focusQueue == s.focusQueue && r.moveQueue == s.moveQueue && k in r.reg && r.reg.Keys == s.reg.Keys + {k}
  {
    hide NextOrdinal;
  }

  lemma StartOnlyCreates(s: State, now: Instant)
    requires s.view.WellKeyed()
    ensures var r := TryStart(s, now);
            r.0.focusQueue == s.focusQueue && r.0.moveQueue == s.moveQueue && r.0.reg == s.reg && forall a | a in r.1 :: a.CreateSpace?
  {
    hide TryStart, State.Quiet, View.WellKeyed;
  }

  lemma RequestOnlyCreates(s: State, d: DisplayId, name: string, now: Instant)
    requires s.view.WellKeyed()
    ensures var r := RequestCreation(s, d, name, now);
            && r.0.focusQueue == s.focusQueue && r.0.moveQueue == s.moveQueue && Key(d, name) in r.0.reg
            && (forall k | k in s.reg :: k in r.0.reg) && forall a | a in r.1 :: a.CreateSpace?
  {
    hide *;
    EnsureKeepsQueues(s, Key(d, name));
    RequestIsStart(s, d, name, now);
    var s1 := EnsureDynamic(s, Key(d, name));
    if RequestCreation(s, d, name, now) != (s1, []) {
      StartOnlyCreates(s1, now);
      StartOnlyCreates(s1.(requests := s1.requests + [Request(Key(d, name), d)]), now);
    }
  }

  lemma RequestIsStart(s: State, d: DisplayId, name: string, now: Instant)
    requires s.view.WellKeyed()
    ensures var s1, r := EnsureDynamic(s, Key(d, name)), RequestCreation(s, d, name, now);
            && s1.view == s.view
            && (r == (s1, []) || r == TryStart(s1, now) || r == TryStart(s1.(requests := s1.requests + [Request(Key(d, name), d)]), now))
  {
    hide EnsureDynamic, Anchor, TryStart, State.Expecting, View.WellKeyed;
  }

  lemma ClearKeepsQueues(s: State, k: Key)
    ensures var r := ClearStale(s, k); r.focusQueue == s.focusQueue && r.moveQueue == s.moveQueue && r.reg.Keys == s.reg.Keys
  {
  }

  /** A focus command is answered at once exactly when its workspace shows an observed Space and the strip is settled; else it is queued. */
  lemma {:induction false} FocusAnsweredOrQueued(s: State, d: DisplayId, name: string, now: Instant)
    requires s.view.WellKeyed()
    ensures var k, r := Key(d, name), FocusWorkspace(s, d, name, now);
            && k in r.0.reg
            && (if ShowsObserved(s, k) && s.placement.None? then r == (s, [FocusSpace(s.reg[k].ActiveSpace().value)])
                else (exists f :: f in r.0.focusQueue && f.0 == k) && forall a | a in r.1 :: a.CreateSpace?)
  {
    hide RequestCreation, ClearStale, View.WellKeyed;
    var k := Key(d, name);
    var queued := s.(focusQueue := QueuedFocus(s.focusQueue, k));
    QueuedFocusHolds(s.focusQueue, k);
    if !Reachable(s, k) {
      ClearKeepsQueues(queued, k);
      RequestOnlyCreates(if k in s.reg then ClearStale(queued, k) else queued, d, name, now);
    }
  }

  lemma QueuedFocusHolds(q: seq<(Key, nat)>, k: Key)
    ensures var r := QueuedFocus(q, k); q <= r && exists f :: f in r && f.0 == k
    ensures (forall f | f in q :: f.1 == 0) ==> forall f | f in QueuedFocus(q, k) :: f.1 == 0
  {
    if !exists f :: f in q && f.0 == k {
      assert (k, 0) in q + [(k, 0)];
    }
  }

  lemma QueuedMoveHolds(q: seq<(WindowId, Key)>, w: WindowId, k: Key)
    ensures var r := QueuedMove(q, w, k); q <= r && (w, k) in r
  {
    assert (w, k) in q + [(w, k)];
  }

  /**
   * A window sent to a workspace goes there at once exactly when that shows an observed ordinary
   * Space, or a system one, and the strip is settled; a fullscreen Space takes no window; else it is queued.
   */
  lemma {:induction false} SendAnsweredOrQueued(s: State, w: WindowId, d: DisplayId, name: string, now: Instant)
    requires s.view.WellKeyed()
    ensures var k, r := Key(d, name), MoveToWorkspace(s, w, d, name, now);
            && k in r.0.reg && r.0.focusQueue == s.focusQueue
            && (if ShowsObserved(s, k) && s.view.spaces[s.reg[k].ActiveSpace().value].isFullscreen then r == (s, [])
                else if ShowsObserved(s, k) && s.placement.None? then
                  r.1 == [MoveWindowToSpace(w, s.reg[k].ActiveSpace().value)] && Fresh(r.0, k, now) && r.0 == s.(grace := r.0.grace)
                else (w, k) in r.0.moveQueue && forall a | a in r.1 :: a.CreateSpace?)
  {
    hide RequestCreation, ClearStale, View.WellKeyed;
    var k := Key(d, name);
    var queued := s.(moveQueue := QueuedMove(s.moveQueue, w, k));
    QueuedMoveHolds(s.moveQueue, w, k);
    if !Reachable(s, k) {
      ClearKeepsQueues(queued, k);
      RequestOnlyCreates(if k in s.reg then ClearStale(queued, k) else queued, d, name, now);
    }
  }

  // ----------------------------------------------------------------------- runs

  /** Something asked of a workspace that the engine has queued. */
  datatype Intent = ToFocus(key: Key) | ToSend(window: WindowId, key: Key) {
    predicate QueuedIn(s: State) {
      && key in s.reg
      && match this
         case ToFocus(k) => (k, 0) in s.focusQueue
         case ToSend(w, k) => (w, k) in s.moveQueue
    }

    ghost predicate AnsweredBy(r: Outcome, now: Instant) {
      match this
      case ToFocus(k) => Focused(r, k, now)
      case ToSend(w, k) => Sent(r, w, k, now)
    }
  }

  lemma {:induction false} FulfillKeeps(s: State, now: Instant, i: Intent)
    requires i.QueuedIn(s)
    ensures var r := FulfillQueues(s, now); i.QueuedIn(r.0) || i.AnsweredBy(r, now)
  {
    hide FulfillQueues, Focused, Sent;
    FulfillKeepsBindings(s, now);
    match i
    case ToFocus(k) => FulfillFocusKeeps(s, now, k);
    case ToSend(w, k) => FulfillMoveKeeps(s, now, w, k);
  }

  lemma SameAnswer(f: Outcome, r: Outcome, i: Intent, now: Instant)
    requires SameIntents(f.0, r.0) && (forall a | a in f.1 :: a in r.1) && (i.QueuedIn(f.0) || i.AnsweredBy(f, now))
    ensures i.QueuedIn(r.0) || i.AnsweredBy(r, now)
  {
  }

  lemma QueuedIsWanted(s: State, i: Intent, now: Instant)
    requires i.QueuedIn(s)
    ensures Wanted(s, i.key, now) && i.key in s.reg
  {
  }

  lemma QueuedUpheld(s: State, r: State, i: Intent, now: Instant)
    requires i.QueuedIn(s) && IntentsUpheld(s, r, i.key, now) && i.key in r.reg
    ensures i.QueuedIn(r)
  {
  }

  lemma {:induction false} LookKeepsIntent(s: State, snap: Snapshot, now: Instant, visit: Visit, i: Intent)
    requires snap.complete && snap.WellKeyed() && NoCause(s, snap, now, i.key) && i.QueuedIn(s)
    ensures var r := SnapshotStep(s, snap, now, visit); i.QueuedIn(r.0) || i.AnsweredBy(r, now)
  {
    hide *;
    CompleteStep(s, snap, now, visit);
    QueuedIsWanted(s, i, now);
    LookReachesQueues(s, snap, now, visit, i.key);
    var s0 := Settled(s, snap, now, visit);
    var q := AtQueues(s0, now, visit);
    QueuedUpheld(s, q, i, now);
    FulfillKeeps(q, now, i);
    QueuesDecide(s0, now, visit);
    SameAnswer(FulfillQueues(q, now), SnapshotStep(s, snap, now, visit), i, now);
  }

  /** The event gives no cause to forget the workspace. */
  ghost predicate Harmless(s: State, t: Turn, k: Key) {
    && (CompleteLook(t) ==> NoCause(s, t.event.snap, t.now, k))
    && (t.event.SpaceGone? && t.event.space in s.pendingDestroy ==> s.pendingDestroy[t.event.space] != k)
  }

  /** The queues have at most grown at their ends, and everybody is still there. */
  ghost predicate QueuesGrow(s: State, r: State) {
    s.focusQueue <= r.focusQueue && s.moveQueue <= r.moveQueue && forall k | k in s.reg :: k in r.reg
  }

  lemma {:induction false} FocusGrowsQueue(s: State, d: DisplayId, name: string, now: Instant)
    requires s.view.WellKeyed()
    ensures QueuesGrow(s, FocusWorkspace(s, d, name, now).0)
  {
    hide RequestCreation, ClearStale, QueuedFocus, View.WellKeyed;
    var k := Key(d, name);
    var queued := s.(focusQueue := QueuedFocus(s.focusQueue, k));
    QueuedFocusHolds(s.focusQueue, k);
    if !Reachable(s, k) {
      ClearKeepsQueues(queued, k);
      RequestOnlyCreates(if k in s.reg then ClearStale(queued, k) else queued, d, name, now);
    }
  }

  lemma {:induction false} SendGrowsQueue(s: State, w: WindowId, d: DisplayId, name: string, now: Instant)
    requires s.view.WellKeyed()
    ensures QueuesGrow(s, MoveToWorkspace(s, w, d, name, now).0)
  {
    hide RequestCreation, ClearStale, QueuedMove, View.WellKeyed;
    var k := Key(d, name);
    var queued := s.(moveQueue := QueuedMove(s.moveQueue, w, k));
    QueuedMoveHolds(s.moveQueue, w, k);
    if !Reachable(s, k) {
      ClearKeepsQueues(queued, k);
      RequestOnlyCreates(if k in s.reg then ClearStale(queued, k) else queued, d, name, now);
    }
  }

  lemma GrownStillQueued(s: State, r: State, i: Intent)
    requires QueuesGrow(s, r) && i.QueuedIn(s)
    ensures i.QueuedIn(r)
  {
    match i
    case ToFocus(k) => assert r.focusQueue[..|s.focusQueue|] == s.focusQueue;
    case ToSend(w, k) => assert r.moveQueue[..|s.moveQueue|] == s.moveQueue;
  }

  lemma SpaceGoneKeepsIntent(s: State, x: SpaceId, i: Intent)
    requires i.QueuedIn(s) && (x in s.pendingDestroy ==> s.pendingDestroy[x] != i.key)
    ensures i.QueuedIn(SpaceDestroyed(s, x))
  {
    hide SpacesOf, KeepFocus, KeepMoves;
    if x in s.pendingDestroy {
      match i
      case ToFocus(k) => FocusKept(s.focusQueue, {s.pendingDestroy[x]}, (k, 0));
      case ToSend(w, k) => MoveKept(s.moveQueue, {s.pendingDestroy[x]}, (w, k));
    }
  }

  lemma {:induction false} AnswerKeepsIntent(s: State, e: Event, now: Instant, i: Intent)
    requires s.view.WellKeyed() && e.WellKeyed() && i.QueuedIn(s) && !e.Look?
    requires e.SpaceGone? && e.space in s.pendingDestroy ==> s.pendingDestroy[e.space] != i.key
    ensures i.QueuedIn(Respond(s, e, now).0)
  {
    hide SnapshotStep, FocusWorkspace, MoveToWorkspace, SpaceDestroyed, Intent.QueuedIn, View.WellKeyed, Snapshot.WellKeyed;
    var r := Respond(s, e, now).0;
    match e
    case Focus(d, name) =>
      FocusGrowsQueue(s, d, name, now);
      GrownStillQueued(s, r, i);
    case Send(w, d, name) =>
      SendGrowsQueue(s, w, d, name, now);
      GrownStillQueued(s, r, i);
    case SpaceGone(x) => SpaceGoneKeepsIntent(s, x, i);
    case WindowGone(w) => GrownStillQueued(s, r, i);
    case DisplayGone(d) => GrownStillQueued(s, r, i);
    case Woken => GrownStillQueued(s, r, i);
  }

  lemma PartialLookKeepsIntent(s: State, snap: Snapshot, now: Instant, visit: Visit, i: Intent)
    requires snap.WellKeyed() && !snap.complete && i.QueuedIn(s)
    ensures i.QueuedIn(SnapshotStep(s, snap, now, visit).0)
  {
    hide Settled, Advance;
  }

  lemma HarmlessMeans(s: State, t: Turn, k: Key)
    requires Harmless(s, t, k)
    ensures t.event.Look? && t.event.snap.complete ==> NoCause(s, t.event.snap, t.now, k)
    ensures t.event.SpaceGone? && t.event.space in s.pendingDestroy ==> s.pendingDestroy[t.event.space] != k
  {
    hide NoCause;
  }

  lemma {:induction false} RespondKeepsIntent(s: State, t: Turn, i: Intent)
    requires s.view.WellKeyed() && t.Valid() && i.QueuedIn(s) && Harmless(s, t, i.key)
    ensures var r := Respond(s, t.event, t.now); i.QueuedIn(r.0) || i.AnsweredBy(r, t.now)
  {
    hide *;
    AnyEvent(t);
    HarmlessMeans(s, t, i.key);
    if t.event.Look? {
      LookAnswer(s, t.event, t.now);
      if t.event.snap.complete {
        LookKeepsIntent(s, t.event.snap, t.now, t.event.visit, i);
      } else {
        PartialLookKeepsIntent(s, t.event.snap, t.now, t.event.visit, i);
      }
    } else {
      AnswerKeepsIntent(s, t.event, t.now, i);
    }
  }

  lemma {:induction false} TurnKeepsIntent(s: State, t: Turn, i: Intent)
    requires s.view.WellKeyed() && t.Valid() && i.QueuedIn(s) && Harmless(s, t, i.key)
    ensures i.QueuedIn(After(s, t)) || i.AnsweredBy(Respond(s, t.event, t.now), t.now)
  {
    hide Respond, Batch, Harmless, Intent.AnsweredBy;
    RespondKeepsIntent(s, t, i);
  }

  ghost predicate HarmlessRun(s: State, turns: seq<Turn>, k: Key)
    requires s.view.WellKeyed() && ValidTurns(turns)
    decreases |turns|
  {
    hide After, Harmless;
    turns == []
    || (var n := |turns| - 1;
        assert (forall t | t in turns[..n] :: t in turns) && turns[n] in turns;
        HarmlessRun(s, turns[..n], k) && Harmless(AfterAll(s, turns[..n]), turns[n], k))
  }

  /** Some turn of the run answers the intent. */
  ghost predicate AnsweredIn(s: State, turns: seq<Turn>, i: Intent)
    requires s.view.WellKeyed() && ValidTurns(turns)
  {
    exists n :: 0 <= n < |turns| && AnsweredAt(s, turns, n, i)
  }

  ghost predicate AnsweredAt(s: State, turns: seq<Turn>, n: nat, i: Intent)
    requires s.view.WellKeyed() && ValidTurns(turns) && n < |turns|
  {
    hide After, Intent.AnsweredBy;
    assert forall t | t in turns[..n] :: t in turns;
    assert turns[n] in turns;
    i.AnsweredBy(Respond(AfterAll(s, turns[..n]), turns[n].event, turns[n].now), turns[n].now)
  }

  /**
   * Over any run that gives no cause to forget the workspace, whatever the platform refuses: what
   * was asked of it stays queued until some turn answers it, with the Space the workspace shows then.
   */
  lemma {:induction false} IntentsAreNotLost(s: State, turns: seq<Turn>, i: Intent)
    requires s.view.WellKeyed() && ValidTurns(turns) && i.QueuedIn(s) && HarmlessRun(s, turns, i.key)
    ensures i.QueuedIn(AfterAll(s, turns)) || AnsweredIn(s, turns, i)
    decreases |turns|
  {
    hide After, Harmless, Intent.QueuedIn, Intent.AnsweredBy, Respond, Turn.Valid;
    if turns != [] {
      var n := |turns| - 1;
      var before := turns[..n];
      assert forall t | t in before :: t in turns;
      IntentsAreNotLost(s, before, i);
      if AnsweredIn(s, before, i) {
        var m :| 0 <= m < n && AnsweredAt(s, before, m, i);
        assert before[..m] == turns[..m];
        assert AnsweredAt(s, turns, m, i);
      } else {
        TurnKeepsIntent(AfterAll(s, before), turns[n], i);
        if !i.QueuedIn(AfterAll(s, turns)) {
          assert AnsweredAt(s, turns, n, i);
        }
      }
    }
  }
}
