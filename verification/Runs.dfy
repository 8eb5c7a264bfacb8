/**
 * Runs of the lifecycle machine, and the rule that only one Space is ever being created or
 * destroyed at a time.
 */
module Runs {
  import opened Basics
  import opened Geometry
  import opened Observed
  import opened Workspace
  import opened Remap
  import opened Lifecycle

  // ------------------------------------------------------------ reservations

  /** Reservations for Spaces being created or destroyed. */
  function InFlight(s: State): nat {
    |s.awaited| + |s.pendingDestroy| + if s.topologyDestroy.Some? then 1 else 0
  }

  predicate SameReservations(a: State, b: State) {
    a.awaited == b.awaited && a.pendingDestroy == b.pendingDestroy && a.topologyDestroy == b.topologyDestroy
  }

  /** The actions of a batch that change Spaces. */
  function Topology(actions: seq<Action>): seq<Action> {
    if actions == [] then []
    else if actions[0].IsTopology() then [actions[0]] + Topology(actions[1..])
    else Topology(actions[1..])
  }

  lemma {:induction false} TopologyNone(actions: seq<Action>)
    ensures Topology(actions) == [] <==> NoTopology(actions)
  {
    if actions != [] {
      TopologyNone(actions[1..]);
      assert actions == [actions[0]] + actions[1..];
    }
  }

  lemma {:induction false} TopologyConcat(a: seq<Action>, b: seq<Action>)
    ensures Topology(a + b) == Topology(a) + Topology(b)
  {
    if a == [] {
      assert a + b == b;
    } else {
      TopologyConcat(a[1..], b);
      assert (a + b)[0] == a[0] && (a + b)[1..] == a[1..] + b;
    }
  }

  /** The only action of a batch that changes Spaces can be told from the rest. */
  lemma {:induction false} TopologyOnce(actions: seq<Action>, m: nat)
    requires |Topology(actions)| <= 1 && m < |actions| && actions[m].IsTopology()
    ensures Topology(actions) == [actions[m]]
    ensures forall i | 0 <= i < |actions| && i != m :: !actions[i].IsTopology()
  {
    var rest := actions[1..];
    TopologyNone(rest);
    if m == 0 {
      assert Topology(rest) == [];
      forall i | 0 < i < |actions| ensures !actions[i].IsTopology() {
        assert actions[i] in rest;
      }
    } else {
      assert rest[m - 1] == actions[m];
      TopologyOnce(rest, m - 1);
      forall i | 0 < i < |actions| && i != m ensures !actions[i].IsTopology() {
        assert actions[i] == rest[i - 1];
      }
    }
  }

  /**
   * A step's actions match its reservations: at most one action changes Spaces; one that creates
   * or destroys starts from nothing in flight and leaves exactly its own reservation.
   */
  ghost predicate Accounts(before: State, after: State, actions: seq<Action>) {
    var t := Topology(actions);
    && |t| <= 1
    && (t == [] || t[0].MoveSpace? ==> SameReservations(before, after))
    && (t != [] && t[0].CreateSpace? ==> InFlight(before) == 0 && AwaitsOne(after))
    && (t != [] && t[0].DestroySpace? ==> InFlight(before) == 0 && DestroysOne(after, t[0].space))
  }

  predicate AwaitsOne(s: State) {
    |s.awaited| == 1 && s.pendingDestroy == map[] && s.topologyDestroy == None
  }

  /** The only reservation is for destroying `x`. */
  predicate DestroysOne(s: State, x: SpaceId) {
    && s.awaited == []
    && (|| (s.pendingDestroy.Keys == {x} && s.topologyDestroy == None)
        || (s.pendingDestroy == map[] && s.topologyDestroy == Some(x)))
  }

  lemma {:induction false} SubsetSize<T>(small: set<T>, big: set<T>)
    requires small <= big
    ensures |small| <= |big|
    decreases |small|
  {
    if small != {} {
      var x :| x in small;
      SubsetSize(small - {x}, big - {x});
    }
  }

  // ------------------------------------------------------------ one snapshot

  /** Bindings settle without starting anything new. */
  lemma {:induction false} SettlingFreesFlight(s: State, snap: Snapshot, now: Instant, visit: Visit)
    requires snap.complete && snap.WellKeyed()
    ensures var r := Settled(s, snap, now, visit);
            && InFlight(r) <= InFlight(s)
            && |r.awaited| <= |s.awaited| && |r.pendingDestroy| <= |s.pendingDestroy|
            && (r.topologyDestroy.Some? ==> s.topologyDestroy == r.topologyDestroy)
  {
    hide IsReset, SyncConfig, ReconcileFullscreen, WithoutVanished, BindAwaited, ObserveExternal;
    hide View.WellKeyed, Snapshot.WellKeyed, Requeue;
    var reset := IsReset(s.view, snap);
    var s1 := Observe(if reset then VoidReservations(s) else s, snap);
    var s2 := ReconcileFullscreen(SyncConfig(s1, visit), s.view.windows, now, visit);
    var s3 := WithoutVanished(s2, now, reset, visit);
    SubsetSize(s3.pendingDestroy.Keys, s.pendingDestroy.Keys);
    assert |s3.pendingDestroy.Keys| == |s3.pendingDestroy| && |s.pendingDestroy.Keys| == |s.pendingDestroy|;
  }

  /** Whatever one stage starts shuts the later ones out. */
  lemma {:induction false} StagesAccount(
      s0: State, s1: State, s3: State, s5: State, s6: State, r: State,
      a1: seq<Action>, a3: seq<Action>, a4: seq<Action>, a6: seq<Action>, actions: seq<Action>)
    requires s1 == s0.(placement := s1.placement)
    requires a1 == [] || (s1.placement.Some? && |a1| == 1 && a1[0].MoveSpace?)
    requires s3.awaited == s1.awaited && s3.topologyDestroy == s1.topologyDestroy && s3.placement == s1.placement
    requires a3 == [] ==> s3.pendingDestroy == s1.pendingDestroy
    requires a3 != [] ==> s1.Quiet() && |a3| == 1 && a3[0].DestroySpace? && s3.pendingDestroy.Keys == {a3[0].space}
    requires NoTopology(a4)
    requires SameReservations(s3, s5) && s5.placement == s3.placement
    requires SameReservations(s5, s6.(awaited := s5.awaited)) && s6.placement == s5.placement
    requires a6 == [] ==> s6.awaited == s5.awaited
    requires a6 != [] ==> s5.Quiet() && |a6| == 1 && a6[0].CreateSpace? && |s6.awaited| == 1
    requires r == s6.(topologyDestroy := r.topologyDestroy)
    requires (r == s6 && actions == a1 + a3 + a4 + a6)
             || (a1 + a3 + a4 + a6 == [] && s6.Quiet() && r.topologyDestroy.Some? && actions == [DestroySpace(r.topologyDestroy.value)])
    ensures Accounts(s0, r, actions)
  {
    TopologyConcat(a1 + a3 + a4, a6);
    TopologyConcat(a1 + a3, a4);
    TopologyConcat(a1, a3);
    TopologyNone(a4);
    assert |a1| == 1 ==> a1 == [a1[0]];
    assert |a3| == 1 ==> a3 == [a3[0]];
    assert |a6| == 1 ==> a6 == [a6[0]];
  }

  /** After bindings settle, a snapshot starts at most one mutation, and only from nothing in flight. */
  lemma {:induction false} AdvanceAccounts(s: State, now: Instant, visit: Visit)
    requires s.view.WellKeyed()
    ensures var r := Advance(s, now, visit); Accounts(s, r.0, r.1) && r.0.view == s.view
  {
    hide ReconcilePlacement, Rebind, GraceSurplus, DestroyEmpty, FulfillQueues, RequestMissing, TryStart, HealIfIdle, MovedKeys, Ascending;
    hide View.WellKeyed, State.Quiet, Accounts, Topology, Strangers;
    var (s1, a1) := ReconcilePlacement(s, now);
    var (s2, moves) := Rebind(s1, visit);
    var g := GraceSurplus(s2, now);
    var (s3, a3) := DestroyEmpty(g, MovedKeys(moves), now);
    QuietAgrees(g, s1);
    var (s4, a4) := FulfillQueues(s3, now);
    var s5 := RequestMissing(s4, Ascending(s4.view.displays.Keys));
    var (s6, a6) := TryStart(s5, now);
    var (r, actions) := HealIfIdle(s6, a1 + a3 + a4 + a6, now);
    StagesAccount(s, s1, s3, s5, s6, r, a1, a3, a4, a6, actions);
  }

  lemma QuietAgrees(a: State, b: State)
    requires SameReservations(a, b) && a.placement == b.placement
    ensures a.Quiet() <==> b.Quiet()
  {
  }

  // ---------------------------------------------------------------- commands

  /** Starting a creation accounts for it. */
  lemma {:induction false} StartAccounts(s: State, now: Instant)
    requires s.view.WellKeyed()
    ensures var r := TryStart(s, now); r.0.view == s.view && Accounts(s, r.0, r.1)
  {
    hide TryStart, View.WellKeyed;
    var (r, actions) := TryStart(s, now);
    if actions != [] {
      assert actions == [actions[0]] && Topology(actions) == actions;
    }
  }

  lemma AccountsFrom(a: State, b: State, r: State, actions: seq<Action>)
    requires SameReservations(a, b) && Accounts(b, r, actions)
    ensures Accounts(a, r, actions)
  {
  }

  lemma {:induction false} RequestAccounts(s: State, d: DisplayId, name: string, now: Instant)
    requires s.view.WellKeyed()
    ensures var r := RequestCreation(s, d, name, now); r.0.view == s.view && Accounts(s, r.0, r.1)
  {
    hide EnsureDynamic, Anchor, TryStart, View.WellKeyed, State.Expecting, Accounts, Topology;
    var s1 := EnsureDynamic(s, Key(d, name));
    var s2 := if s1.Expecting(Key(d, name)) then s1 else s1.(requests := s1.requests + [Request(Key(d, name), d)]);
    StartAccounts(s2, now);
    AccountsFrom(s, s2, TryStart(s2, now).0, TryStart(s2, now).1);
    NothingAccounts(s, s1);
  }

  lemma NothingAccounts(s: State, r: State)
    requires SameReservations(s, r)
    ensures Accounts(s, r, [])
  {
  }

  lemma WindowActionAccounts(s: State, r: State, a: Action)
    requires SameReservations(s, r) && !a.IsTopology()
    ensures Accounts(s, r, [a])
  {
  }

  lemma ReachableShows(s: State, k: Key)
    ensures Reachable(s, k) ==> s.BackingOf(k).Some?
  {
  }

  lemma {:induction false} FocusAccounts(s: State, d: DisplayId, name: string, now: Instant)
    requires s.view.WellKeyed()
    ensures var r := FocusWorkspace(s, d, name, now); r.0.view == s.view && Accounts(s, r.0, r.1)
  {
    hide RequestCreation, ClearStale, QueuedFocus, Reachable, View.WellKeyed, Accounts, Topology;
    var k := Key(d, name);
    var queued := s.(focusQueue := QueuedFocus(s.focusQueue, k));
    var s1 := if k in s.reg then ClearStale(queued, k) else queued;
    RequestAccounts(s1, d, name, now);
    AccountsFrom(s, s1, RequestCreation(s1, d, name, now).0, RequestCreation(s1, d, name, now).1);
    NothingAccounts(s, queued);
    ReachableShows(s, k);
    if Reachable(s, k) {
      WindowActionAccounts(s, s, FocusSpace(s.BackingOf(k).value));
    }
  }

  lemma {:induction false} SendAccounts(s: State, w: WindowId, d: DisplayId, name: string, now: Instant)
    requires s.view.WellKeyed()
    ensures var r := MoveToWorkspace(s, w, d, name, now); r.0.view == s.view && Accounts(s, r.0, r.1)
  {
    hide RequestCreation, ClearStale, QueuedMove, Reachable, View.WellKeyed, Accounts, Topology;
    var k := Key(d, name);
    var queued := s.(moveQueue := QueuedMove(s.moveQueue, w, k));
    var s1 := if k in s.reg then ClearStale(queued, k) else queued;
    RequestAccounts(s1, d, name, now);
    AccountsFrom(s, s1, RequestCreation(s1, d, name, now).0, RequestCreation(s1, d, name, now).1);
    NothingAccounts(s, queued);
    NothingAccounts(s, s);
    ReachableShows(s, k);
    if Reachable(s, k) {
      var graced := s.(grace := s.grace[k := now + DYNAMIC_GRACE]);
      WindowActionAccounts(s, graced, MoveWindowToSpace(w, s.BackingOf(k).value));
    }
  }

  // -------------------------------------------------------------------- runs

  /** What can happen to the engine between two looks at it. */
  datatype Event =
    | Look(snap: Snapshot, visit: Visit)
    | Focus(display: DisplayId, name: string)
    | Send(window: WindowId, display: DisplayId, name: string)
    | SpaceGone(space: SpaceId)
    | WindowGone(window: WindowId)
    | DisplayGone(display: DisplayId)
    | Woken
  {
    ghost predicate WellKeyed() { Look? ==> snap.WellKeyed() }
  }

  /** Topology may have changed unseen: observation is stale until the next snapshot. */
  function NoteWake(s: State): State {
    s.(view := s.view.(generation := s.view.generation + 1, refreshRequired := true))
  }

  /** The engine's answer to one event. */
  ghost function Respond(s: State, e: Event, now: Instant): Outcome
    requires s.view.WellKeyed() && e.WellKeyed()
  {
    hide SnapshotStep, FocusWorkspace, MoveToWorkspace, SpaceDestroyed;
    match e
    case Look(snap, visit) => SnapshotStep(s, snap, now, visit)
    case Focus(d, name) => FocusWorkspace(s, d, name, now)
    case Send(w, d, name) => MoveToWorkspace(s, w, d, name, now)
    case SpaceGone(x) => (SpaceDestroyed(s, x), [])
    case WindowGone(w) => (WindowDestroyed(s, w), [])
    case DisplayGone(d) => (DisplayRemoved(s, d), [])
    case Woken => (NoteWake(s), [])
  }

  /** Where an event starts from once what has vanished is dealt with. */
  ghost function Base(s: State, e: Event, now: Instant): State
    requires e.WellKeyed()
  {
    match e
    case Look(snap, visit) => if snap.complete then Settled(s, snap, now, visit) else s
    case SpaceGone(x) => SpaceDestroyed(s, x)
    case _ => s
  }

  lemma {:induction false} SpaceGoneFlight(s: State, x: SpaceId)
    ensures InFlight(SpaceDestroyed(s, x)) <= InFlight(s)
  {
    hide SpaceDestroyed;
    var r := SpaceDestroyed(s, x);
    SubsetSize(r.pendingDestroy.Keys, s.pendingDestroy.Keys);
    assert |r.pendingDestroy.Keys| == |r.pendingDestroy| && |s.pendingDestroy.Keys| == |s.pendingDestroy|;
  }

  lemma {:induction false} LookAccounts(s: State, snap: Snapshot, now: Instant, visit: Visit)
    requires s.view.WellKeyed() && snap.WellKeyed()
    ensures var b, r := Base(s, Look(snap, visit), now), SnapshotStep(s, snap, now, visit);
            Accounts(b, r.0, r.1) && InFlight(b) <= InFlight(s) && r.0.view.WellKeyed()
  {
    hide Settled, InFlight, Accounts;
    if snap.complete {
      hide Advance;
      SettlingFreesFlight(s, snap, now, visit);
      AdvanceAccounts(Settled(s, snap, now, visit), now, visit);
    } else {
      NothingAccounts(s, Observe(s, snap));
    }
  }

  /** Commands never destroy. */
  lemma {:induction false} CommandsDestroyNothing(s: State, e: Event, now: Instant)
    requires s.view.WellKeyed() && e.WellKeyed() && !e.Look?
    ensures forall a | a in Respond(s, e, now).1 :: !a.DestroySpace?
  {
    hide SnapshotStep, TryStart, SpaceDestroyed, EnsureDynamic, ClearStale, Anchor, Reachable, State.Expecting, View.WellKeyed;
  }

  /** Every answer accounts for itself. */
  lemma {:induction false} RespondAccounts(s: State, e: Event, now: Instant)
    requires s.view.WellKeyed() && e.WellKeyed()
    ensures InFlight(Base(s, e, now)) <= InFlight(s)
    ensures var r := Respond(s, e, now); Accounts(Base(s, e, now), r.0, r.1) && r.0.view.WellKeyed()
  {
    hide Settled, SnapshotStep, FocusWorkspace, MoveToWorkspace, SpaceDestroyed, InFlight, Accounts;
    match e
    case Look(snap, visit) => LookAccounts(s, snap, now, visit);
    case Focus(d, name) => FocusAccounts(s, d, name, now);
    case Send(w, d, name) => SendAccounts(s, w, d, name, now);
    case SpaceGone(x) =>
      SpaceGoneFlight(s, x);
      NothingAccounts(SpaceDestroyed(s, x), SpaceDestroyed(s, x));
    case WindowGone(w) => NothingAccounts(s, WindowDestroyed(s, w));
    case DisplayGone(d) => NothingAccounts(s, DisplayRemoved(s, d));
    case Woken => NothingAccounts(s, NoteWake(s));
  }

  /**
   * One turn: an event, the window actions its batch also carries, and the index of the action
   * the platform refused, if any. Everything from there on never ran.
   */
  datatype Turn = Turn(event: Event, now: Instant, before: seq<Action>, after: seq<Action>, refused: Option<nat>)
  {
    ghost predicate Valid() { event.WellKeyed() && NoTopology(before) && NoTopology(after) }
  }

  lemma AnyEvent(t: Turn)
    requires t.Valid()
    ensures t.event.WellKeyed()
  {
    hide NoTopology;
  }

  lemma LookAnswer(s: State, e: Event, now: Instant)
    requires s.view.WellKeyed() && e.WellKeyed() && e.Look?
    ensures e.snap.WellKeyed() && Respond(s, e, now) == SnapshotStep(s, e.snap, now, e.visit)
  {
    hide SnapshotStep, Snapshot.WellKeyed, View.WellKeyed;
  }

  predicate CompleteLook(t: Turn) { t.event.Look? && t.event.snap.complete }

  ghost function Batch(s: State, t: Turn): seq<Action>
    requires s.view.WellKeyed() && t.Valid()
  {
    t.before + Respond(s, t.event, t.now).1 + t.after
  }

  /** How much of the batch the platform carried out. */
  ghost function Done(s: State, t: Turn): (n: nat)
    requires s.view.WellKeyed() && t.Valid()
    ensures n <= |Batch(s, t)|
  {
    hide Respond;
    if t.refused.Some? && t.refused.value < |Batch(s, t)| then t.refused.value else |Batch(s, t)|
  }

  ghost function After(s: State, t: Turn): (r: State)
    requires s.view.WellKeyed() && t.Valid()
    ensures r.view == Respond(s, t.event, t.now).0.view
  {
    hide Respond;
    var r := Respond(s, t.event, t.now).0;
    if Done(s, t) < |Batch(s, t)| then NoteBatchFailed(r, Batch(s, t)[Done(s, t)..]) else r
  }

  predicate IsMutation(a: Action) { a.CreateSpace? || a.DestroySpace? }

  /** The batch holds as many topology actions as the engine put there. */
  lemma {:induction false} BatchTopology(s: State, t: Turn)
    requires s.view.WellKeyed() && t.Valid()
    ensures Topology(Batch(s, t)) == Topology(Respond(s, t.event, t.now).1)
  {
    hide Respond, Topology;
    TopologyConcat(t.before + Respond(s, t.event, t.now).1, t.after);
    TopologyConcat(t.before, Respond(s, t.event, t.now).1);
    TopologyNone(t.before);
    TopologyNone(t.after);
  }

  /**
   * When a batch is refused partway, the reservation its mutation made is kept exactly if the
   * mutation ran: refused at or before it, nothing is in flight and nothing else changes;
   * refused after it, or with no mutation in the batch, the engine's answer stands untouched.
   */
  lemma {:induction false} RefusalReleasesUnrun(s: State, t: Turn, m: nat)
    requires s.view.WellKeyed() && t.Valid() && m < |Batch(s, t)| && IsMutation(Batch(s, t)[m])
    ensures var r := Respond(s, t.event, t.now).0;
            InFlight(r) == 1
            && After(s, t) == if m < Done(s, t) then r else r.(awaited := [], pendingDestroy := map[], topologyDestroy := None)
  {
    hide Respond, Batch, Base;
    RespondAccounts(s, t.event, t.now);
    BatchTopology(s, t);
    TopologyOnce(Batch(s, t), m);
    RefusedAfter(Respond(s, t.event, t.now).0, Batch(s, t), m, Done(s, t));
  }

  /** What the unrun rest of a batch with one mutation would have changed. */
  lemma {:induction false} RestOfBatch(batch: seq<Action>, m: nat, n: nat)
    requires n <= |batch| && m < |batch| && forall i | 0 <= i < |batch| && i != m :: !batch[i].IsTopology()
    ensures Creates(batch[n..]) <==> m >= n && batch[m].CreateSpace?
    ensures Destroys(batch[n..]) == if m >= n && batch[m].DestroySpace? then {batch[m].space} else {}
  {
    var rest := batch[n..];
    forall a | a in rest && a.IsTopology() ensures m >= n && a == batch[m] {
      var i :| 0 <= i < |rest| && rest[i] == a;
      assert batch[n + i] == a;
    }
    if m >= n {
      assert rest[m - n] == batch[m];
    }
  }

  lemma {:induction false} RefusedAfter(r: State, batch: seq<Action>, m: nat, n: nat)
    requires n <= |batch| && m < |batch| && IsMutation(batch[m])
    requires forall i | 0 <= i < |batch| && i != m :: !batch[i].IsTopology()
    requires batch[m].CreateSpace? ==> AwaitsOne(r)
    requires batch[m].DestroySpace? ==> DestroysOne(r, batch[m].space)
    ensures InFlight(r) == 1
    ensures (if n < |batch| then NoteBatchFailed(r, batch[n..]) else r)
         == if m < n then r else r.(awaited := [], pendingDestroy := map[], topologyDestroy := None)
  {
    RestOfBatch(batch, m, n);
    if batch[m].CreateSpace? {
      CreateRefused(r, batch[n..], m < n);
    } else {
      DestroyRefused(r, batch[n..], batch[m].space, m < n);
    }
  }

  lemma {:induction false} CreateRefused(r: State, rest: seq<Action>, ran: bool)
    requires AwaitsOne(r) && Destroys(rest) == {} && (Creates(rest) <==> !ran)
    ensures InFlight(r) == 1
    ensures NoteBatchFailed(r, rest) == if ran then r else r.(awaited := [], pendingDestroy := map[], topologyDestroy := None)
  {
    hide Creates, Destroys;
    assert r.pendingDestroy - {} == r.pendingDestroy;
  }

  lemma {:induction false} DestroyRefused(r: State, rest: seq<Action>, x: SpaceId, ran: bool)
    requires DestroysOne(r, x) && !Creates(rest) && Destroys(rest) == if ran then {} else {x}
    ensures InFlight(r) == 1
    ensures NoteBatchFailed(r, rest) == if ran then r else r.(awaited := [], pendingDestroy := map[], topologyDestroy := None)
  {
    hide Creates, Destroys;
    OnlyKey(r.pendingDestroy, x);
    assert r.pendingDestroy - {} == r.pendingDestroy;
    assert r.pendingDestroy - {x} == map[];
  }

  lemma OnlyKey(m: map<SpaceId, Key>, x: SpaceId)
    ensures m.Keys == {x} ==> |m| == 1
    ensures |m| == |m.Keys|
  {
  }

  /** A batch that creates and destroys nothing leaves every reservation alone, refused or not. */
  lemma {:induction false} RefusalKeepsOthers(s: State, t: Turn)
    requires s.view.WellKeyed() && t.Valid() && forall a | a in Batch(s, t) :: !IsMutation(a)
    ensures After(s, t) == Respond(s, t.event, t.now).0
  {
    hide Respond, Batch;
    var rest := Batch(s, t)[Done(s, t)..];
    assert forall a | a in rest :: a in Batch(s, t);
    assert !Creates(rest) && Destroys(rest) == {};
    var r := Respond(s, t.event, t.now).0;
    assert r.pendingDestroy - {} == r.pendingDestroy;
  }

  ghost predicate ValidTurns(turns: seq<Turn>) { forall t | t in turns :: t.Valid() }

  /** The engine after a whole run. */
  ghost function AfterAll(s: State, turns: seq<Turn>): (r: State)
    requires s.view.WellKeyed() && ValidTurns(turns)
    ensures r.view.WellKeyed()
    decreases |turns|
  {
    hide After;
    if turns == [] then s
    else
      var last := turns[|turns| - 1];
      assert forall t | t in turns[..|turns| - 1] :: t in turns;
      var before := AfterAll(s, turns[..|turns| - 1]);
      assert last in turns;
      RespondAccounts(before, last.event, last.now);
      After(before, last)
  }

  lemma {:induction false} AfterOneMore(s: State, turns: seq<Turn>, n: nat)
    requires s.view.WellKeyed() && ValidTurns(turns) && n < |turns|
    ensures AfterAll(s, turns[..n + 1]) == After(AfterAll(s, turns[..n]), turns[n])
  {
    hide After, Turn.Valid;
    assert turns[..n + 1][..n] == turns[..n] && turns[..n + 1][n] == turns[n];
  }

  lemma {:induction false} TurnKeepsSingleFlight(s: State, t: Turn)
    requires s.view.WellKeyed() && t.Valid() && InFlight(s) <= 1
    ensures InFlight(After(s, t)) <= 1 && OneAtATime(s, t)
  {
    hide Batch, After, Respond, Base, InFlight;
    BatchTopology(s, t);
    RespondAccounts(s, t.event, t.now);
    var batch := Batch(s, t);
    if forall a | a in batch :: !IsMutation(a) {
      RefusalKeepsOthers(s, t);
      NoMutationNoReservation(s, t);
    } else {
      var m :| 0 <= m < |batch| && IsMutation(batch[m]);
      TopologyOnce(batch, m);
      RefusalReleasesUnrun(s, t, m);
      NothingHeld(Respond(s, t.event, t.now).0);
    }
  }

  lemma NothingHeld(s: State)
    ensures InFlight(s.(awaited := [], pendingDestroy := map[], topologyDestroy := None)) == 0
  {
  }

  lemma {:induction false} NoMutationNoReservation(s: State, t: Turn)
    requires s.view.WellKeyed() && t.Valid() && forall a | a in Batch(s, t) :: !IsMutation(a)
    ensures InFlight(Respond(s, t.event, t.now).0) <= InFlight(s)
  {
    hide Batch, Respond, Base;
    RespondAccounts(s, t.event, t.now);
    BatchTopology(s, t);
    var tops := Topology(Batch(s, t));
    if tops != [] {
      TopologyMembers(Batch(s, t));
      assert tops[0] in Batch(s, t);
    }
  }

  lemma {:induction false} TopologyMembers(actions: seq<Action>)
    ensures forall a | a in Topology(actions) :: a in actions && a.IsTopology()
  {
    if actions != [] {
      TopologyMembers(actions[1..]);
    }
  }

  /** One turn changes Spaces at most once, and only when every earlier mutation is settled. */
  ghost predicate OneAtATime(s: State, t: Turn)
    requires s.view.WellKeyed() && t.Valid()
  {
    && |Topology(Batch(s, t))| <= 1
    && forall a | a in Batch(s, t) && IsMutation(a) :: InFlight(Base(s, t.event, t.now)) == 0
  }

  /**
   * Over any run, whatever the platform refuses: at most one Space is being created or destroyed,
   * each batch changes Spaces at most once, and a Space is created or destroyed only when every
   * earlier mutation has been seen through or released.
   */
  lemma {:induction false} SingleFlight(s: State, turns: seq<Turn>)
    requires s.view.WellKeyed() && ValidTurns(turns) && InFlight(s) <= 1
    ensures InFlight(AfterAll(s, turns)) <= 1
    ensures forall i | 0 <= i < |turns| :: OneAtATime(AfterAll(s, turns[..i]), turns[i])
  {
    hide After, AfterAll, InFlight, Turn.Valid, OneAtATime;
    FlightAfter(s, turns);
    forall i | 0 <= i < |turns| ensures OneAtATime(AfterAll(s, turns[..i]), turns[i]) {
      assert forall t | t in turns[..i] :: t in turns;
      FlightAfter(s, turns[..i]);
      TurnKeepsSingleFlight(AfterAll(s, turns[..i]), turns[i]);
    }
  }

  lemma {:induction false} FlightAfter(s: State, turns: seq<Turn>)
    requires s.view.WellKeyed() && ValidTurns(turns) && InFlight(s) <= 1
    ensures InFlight(AfterAll(s, turns)) <= 1
    decreases |turns|
  {
    hide After, InFlight, Turn.Valid, OneAtATime;
    if turns != [] {
      var n := |turns| - 1;
      assert forall t | t in turns[..n] :: t in turns;
      FlightAfter(s, turns[..n]);
      TurnKeepsSingleFlight(AfterAll(s, turns[..n]), turns[n]);
    }
  }
}
