/** Configured persistent workspaces over whole runs: never forgotten, and their Spaces never destroyed. */
module PersistentRuns {
  import opened Basics
  import opened Geometry
  import opened Observed
  import opened Workspace
  import opened Remap
  import opened Lifecycle
  import opened Runs
  import opened LastSpace
  import opened Homes
  import opened Staying
  import opened ParkedTrees
  import opened TreeSurvival
  import opened Persistence
  import opened Start
  import opened Spared

  /** Persistent for good: configured so on its display, and with no destroy under way. */
  ghost predicate Permanent(s: State, k: Key) {
    && Steadfast(s, k) && !s.reg[k].dynamic && s.reg[k].display == k.display
    && forall p | p in s.pendingDestroy :: s.pendingDestroy[p] != k
  }

  /** An event leaves the workspace's standing alone and begins no destroy for it. */
  ghost predicate SameStanding(s: State, r: State, k: Key)
    requires k in s.reg
  {
    && k in r.reg && r.templates == s.templates
    && r.reg[k] == s.reg[k].(backing := r.reg[k].backing)
    && forall p | p in r.pendingDestroy :: p in s.pendingDestroy && r.pendingDestroy[p] == s.pendingDestroy[p]
  }

  lemma StandingKeepsPermanent(s: State, r: State, k: Key)
    requires Permanent(s, k) && SameStanding(s, r, k)
    ensures Permanent(r, k)
  {
  }

  lemma PermanentIsThere(s: State, k: Key)
    requires Permanent(s, k)
    ensures k in s.reg && Steadfast(s, k)
  {
  }

  // --------------------------------------------------------------- one answer

  lemma {:induction false} LookKeepsPermanent(s: State, snap: Snapshot, now: Instant, visit: Visit, k: Key)
    requires snap.WellKeyed() && Permanent(s, k) && (snap.complete ==> k.display in snap.displays)
    ensures Permanent(SnapshotStep(s, snap, now, visit).0, k)
  {
    hide *;
    PermanentIsThere(s, k);
    if snap.complete {
      NoCauseForPermanent(s, snap, now, k);
      ProtectedStay(s, snap, now, visit, k);
      RemainsPermanent(s, SnapshotStep(s, snap, now, visit).0, k);
    } else {
      ObservedKeepsPermanent(s, snap, k);
      LookedInPart(s, snap, now, visit);
    }
  }

  lemma LookedInPart(s: State, snap: Snapshot, now: Instant, visit: Visit)
    requires snap.WellKeyed() && !snap.complete
    ensures SnapshotStep(s, snap, now, visit) == (Observe(s, snap), [])
  {
    hide Observe, Settled, Advance;
  }

  lemma ObservedKeepsPermanent(s: State, snap: Snapshot, k: Key)
    requires Permanent(s, k)
    ensures Permanent(Observe(s, snap), k)
  {
  }

  lemma NoCauseForPermanent(s: State, snap: Snapshot, now: Instant, k: Key)
    requires Permanent(s, k) && k.display in snap.displays
    ensures NoCause(s, snap, now, k)
  {
    hide IsReset, Aged, Expired;
  }

  lemma RemainsPermanent(s: State, r: State, k: Key)
    requires Permanent(s, k) && Remains(s, r, k)
    ensures Permanent(r, k)
  {
    forall p | p in r.pendingDestroy ensures r.pendingDestroy[p] != k {
    }
  }

  lemma EnsureKeepsStanding(s: State, j: Key, k: Key)
    requires k in s.reg
    ensures SameStanding(s, EnsureDynamic(s, j), k)
  {
    hide NextOrdinal;
  }

  lemma {:induction false} RequestKeepsStanding(s: State, d: DisplayId, name: string, now: Instant, k: Key)
    requires s.view.WellKeyed() && k in s.reg
    ensures SameStanding(s, RequestCreation(s, d, name, now).0, k)
  {
    hide EnsureDynamic, Anchor, TryStart, State.Expecting, View.WellKeyed;
    EnsureKeepsStanding(s, Key(d, name), k);
  }

  lemma ClearedKeepsStanding(s: State, j: Key, k: Key)
    requires k in s.reg
    ensures var r := if j in s.reg then ClearStale(s, j) else s; SameStanding(s, r, k)
  {
    hide ClearStale;
  }

  lemma StandingOn(a: State, b: State, c: State, k: Key)
    requires k in a.reg && SameStanding(a, b, k) && SameStanding(b, c, k)
    ensures SameStanding(a, c, k)
  {
  }

  lemma StandingIsThere(s: State, r: State, k: Key)
    requires k in s.reg && SameStanding(s, r, k)
    ensures k in r.reg
  {
  }

  lemma OnlyIntents(s: State, r: State, k: Key)
    requires k in s.reg && r.reg == s.reg && r.templates == s.templates && r.pendingDestroy == s.pendingDestroy
    ensures SameStanding(s, r, k)
  {
  }

  lemma {:induction false} FocusKeepsStanding(s: State, d: DisplayId, name: string, now: Instant, k: Key)
    requires s.view.WellKeyed() && k in s.reg
    ensures SameStanding(s, FocusWorkspace(s, d, name, now).0, k)
  {
    hide RequestCreation, ClearStale, QueuedFocus, Reachable, View.WellKeyed, SameStanding;
    var j := Key(d, name);
    var queued := s.(focusQueue := QueuedFocus(s.focusQueue, j));
    OnlyIntents(s, queued, k);
    OnlyIntents(s, s, k);
    ClearedKeepsStanding(queued, j, k);
    if !Reachable(s, j) {
      var s1 := if j in s.reg then ClearStale(queued, j) else queued;
      StandingOn(s, queued, s1, k);
      StandingIsThere(s, s1, k);
      RequestKeepsStanding(s1, d, name, now, k);
      StandingOn(s, s1, FocusWorkspace(s, d, name, now).0, k);
    }
  }

  lemma {:induction false} SendKeepsStanding(s: State, w: WindowId, d: DisplayId, name: string, now: Instant, k: Key)
    requires s.view.WellKeyed() && k in s.reg
    ensures SameStanding(s, MoveToWorkspace(s, w, d, name, now).0, k)
  {
    hide RequestCreation, ClearStale, QueuedMove, Reachable, View.WellKeyed, SameStanding;
    var j := Key(d, name);
    var queued := s.(moveQueue := QueuedMove(s.moveQueue, w, j));
    OnlyIntents(s, queued, k);
    OnlyIntents(s, s, k);
    OnlyIntents(s, s.(grace := s.grace[j := now + DYNAMIC_GRACE]), k);
    ClearedKeepsStanding(queued, j, k);
    if !Reachable(s, j) {
      var s1 := if j in s.reg then ClearStale(queued, j) else queued;
      StandingOn(s, queued, s1, k);
      StandingIsThere(s, s1, k);
      RequestKeepsStanding(s1, d, name, now, k);
      StandingOn(s, s1, MoveToWorkspace(s, w, d, name, now).0, k);
    }
  }

  lemma {:induction false} SpaceGoneKeepsPermanent(s: State, x: SpaceId, k: Key)
    requires Permanent(s, k)
    ensures Permanent(SpaceDestroyed(s, x), k)
  {
    hide SpacesOf, KeepFocus, KeepMoves;
  }

  lemma {:induction false} AnswerKeepsPermanent(s: State, e: Event, now: Instant, k: Key)
    requires s.view.WellKeyed() && e.WellKeyed() && Permanent(s, k) && !e.Look?
    ensures Permanent(Respond(s, e, now).0, k)
  {
    hide SnapshotStep, FocusWorkspace, MoveToWorkspace, SpaceDestroyed, Permanent, SameStanding, View.WellKeyed, Snapshot.WellKeyed;
    PermanentIsThere(s, k);
    var r := Respond(s, e, now).0;
    match e
    case Focus(d, name) =>
      FocusKeepsStanding(s, d, name, now, k);
      StandingKeepsPermanent(s, r, k);
    case Send(w, d, name) =>
      SendKeepsStanding(s, w, d, name, now, k);
      StandingKeepsPermanent(s, r, k);
    case SpaceGone(x) => SpaceGoneKeepsPermanent(s, x, k);
    case WindowGone(w) =>
      OnlyIntents(s, r, k);
      StandingKeepsPermanent(s, r, k);
    case DisplayGone(d) =>
      OnlyIntents(s, r, k);
      StandingKeepsPermanent(s, r, k);
    case Woken =>
      OnlyIntents(s, r, k);
      StandingKeepsPermanent(s, r, k);
  }

  // --------------------------------------------------------------------- runs

  /** A complete look shows the display. */
  predicate Shows(t: Turn, d: DisplayId) { CompleteLook(t) ==> d in t.event.snap.displays }

  lemma {:induction false} RespondKeepsPermanent(s: State, t: Turn, k: Key)
    requires s.view.WellKeyed() && t.Valid() && Permanent(s, k) && Shows(t, k.display)
    ensures Permanent(Respond(s, t.event, t.now).0, k)
  {
    hide *;
    AnyEvent(t);
    if t.event.Look? {
      LookAnswer(s, t.event, t.now);
      LookShows(t, k.display);
      LookKeepsPermanent(s, t.event.snap, t.now, t.event.visit, k);
    } else {
      AnswerKeepsPermanent(s, t.event, t.now, k);
    }
  }

  lemma LookShows(t: Turn, d: DisplayId)
    requires Shows(t, d) && t.event.Look?
    ensures t.event.snap.complete ==> d in t.event.snap.displays
  {
  }

  lemma {:induction false} TurnKeepsPermanent(s: State, t: Turn, k: Key)
    requires s.view.WellKeyed() && t.Valid() && Permanent(s, k) && Shows(t, k.display)
    ensures Permanent(After(s, t), k)
  {
    hide Respond, Batch, Permanent;
    RespondKeepsPermanent(s, t, k);
    var r := Respond(s, t.event, t.now).0;
    if Done(s, t) < |Batch(s, t)| {
      RefusalKeepsPermanent(r, Batch(s, t)[Done(s, t)..], k);
    }
  }

  lemma RefusalKeepsPermanent(s: State, unexecuted: seq<Action>, k: Key)
    requires Permanent(s, k)
    ensures Permanent(NoteBatchFailed(s, unexecuted), k)
  {
    hide Creates, Destroys;
  }

  /**
   * Over any run whose complete looks show its display, whatever the platform refuses: a workspace
   * configured persistent is never forgotten, and stays so.
   */
  lemma {:induction false} PersistentNeverForgotten(s: State, turns: seq<Turn>, k: Key)
    requires s.view.WellKeyed() && ValidTurns(turns) && Permanent(s, k)
    requires forall t | t in turns :: Shows(t, k.display)
    ensures Permanent(AfterAll(s, turns), k) && k in AfterAll(s, turns).reg
    decreases |turns|
  {
    hide After, Permanent, Shows, Turn.Valid;
    if turns != [] {
      var n := |turns| - 1;
      assert forall t | t in turns[..n] :: t in turns;
      PersistentNeverForgotten(s, turns[..n], k);
      TurnKeepsPermanent(AfterAll(s, turns[..n]), turns[n], k);
    }
    PermanentIsThere(AfterAll(s, turns), k);
  }

  /** The turn asks for no Space of the workspace's to be destroyed. */
  ghost predicate KeepsSpaces(s: State, t: Turn, k: Key)
    requires s.view.WellKeyed() && t.Valid()
  {
    forall x | DestroySpace(x) in Batch(s, t) :: k in After(s, t).reg && !After(s, t).reg[k].Holds(x)
  }

  lemma {:induction false} AnswerKeepsSpaces(s: State, t: Turn, k: Key, x: SpaceId)
    requires s.view.WellKeyed() && t.Valid() && Tame(s) && s.initialized && OrderlyTurn(s, t)
    requires Permanent(s, k) && Shows(t, k.display) && DestroySpace(x) in Respond(s, t.event, t.now).1
    ensures var r := Respond(s, t.event, t.now).0; k in r.reg && !r.reg[k].Holds(x)
  {
    hide *;
    AnyEvent(t);
    PermanentIsThere(s, k);
    if t.event.Look? {
      LookAnswer(s, t.event, t.now);
      OrderlyLook(s, t);
      LookShows(t, k.display);
      DestroysSpare(s, t.event.snap, t.now, t.event.visit, x);
      NoCauseForPermanent(s, t.event.snap, t.now, k);
      ProtectedKeepSpaces(s, t.event.snap, t.now, t.event.visit, k, x);
    } else {
      CommandsDestroyNothing(s, t.event, t.now);
      assert false;
    }
  }

  lemma BatchAnswer(s: State, t: Turn, x: SpaceId)
    requires s.view.WellKeyed() && t.Valid() && DestroySpace(x) in Batch(s, t)
    ensures DestroySpace(x) in Respond(s, t.event, t.now).1
  {
    hide Respond;
    assert DestroySpace(x).IsTopology();
  }

  lemma SameRegistryAfter(s: State, t: Turn)
    requires s.view.WellKeyed() && t.Valid()
    ensures After(s, t).reg == Respond(s, t.event, t.now).0.reg
  {
    hide Respond, Batch;
  }

  lemma {:induction false} TurnKeepsSpaces(s: State, t: Turn, k: Key)
    requires s.view.WellKeyed() && t.Valid() && Tame(s) && s.initialized && OrderlyTurn(s, t)
    requires Permanent(s, k) && Shows(t, k.display)
    ensures KeepsSpaces(s, t, k)
  {
    hide Respond, Batch, After, Tame, Permanent, OrderlyTurn, Shows, Turn.Valid;
    SameRegistryAfter(s, t);
    forall x | DestroySpace(x) in Batch(s, t) ensures k in After(s, t).reg && !After(s, t).reg[k].Holds(x) {
      BatchAnswer(s, t, x);
      AnswerKeepsSpaces(s, t, k, x);
    }
  }

  /** Every part of an orderly run is orderly. */
  lemma {:induction false} OrderlySoFar(s: State, turns: seq<Turn>, n: nat)
    requires s.view.WellKeyed() && ValidTurns(turns) && OrderlyRun(s, turns) && n < |turns|
    ensures ValidTurns(turns[..n]) && OrderlyRun(s, turns[..n]) && OrderlyTurn(AfterAll(s, turns[..n]), turns[n])
    decreases |turns|
  {
    hide AfterAll, OrderlyTurn, Turn.Valid;
    var m := |turns| - 1;
    assert forall t | t in turns[..m] :: t in turns;
    assert forall t | t in turns[..n] :: t in turns;
    if n < m {
      OrderlySoFar(s, turns[..m], n);
      assert turns[..m][..n] == turns[..n];
    }
  }

  /** Over any orderly run whose complete looks show its display, no turn asks for its Space to be destroyed. */
  lemma {:induction false} PersistentNeverDestroyed(s: State, turns: seq<Turn>, k: Key)
    requires s.view.WellKeyed() && ValidTurns(turns) && Tame(s) && s.initialized && OrderlyRun(s, turns)
    requires Permanent(s, k) && forall t | t in turns :: Shows(t, k.display)
    ensures forall i | 0 <= i < |turns| :: KeepsSpaces(AfterAll(s, turns[..i]), turns[i], k)
  {
    hide AfterAll, OrderlyRun, OrderlyTurn, Turn.Valid, Tame, Permanent, Shows, KeepsSpaces, Distinct;
    forall i | 0 <= i < |turns| ensures KeepsSpaces(AfterAll(s, turns[..i]), turns[i], k) {
      assert forall t | t in turns[..i] :: t in turns;
      OrderlySoFar(s, turns, i);
      HomesStayDistinct(s, turns[..i]);
      PersistentNeverForgotten(s, turns[..i], k);
      TurnKeepsSpaces(AfterAll(s, turns[..i]), turns[i], k);
    }
  }

  // ------------------------------------------------------------ configuration

  /** The template puts its name on the display. */
  ghost predicate AimsAt(t: Template, displays: map<DisplayId, Display>, d: DisplayId) {
    && d in displays
    && match t.display
       case EveryDisplay => true
       case MainDisplay => displays[d].isMain && forall e | e in displays && displays[e].isMain :: e == d
       case OneDisplay(id) => id == d
       case NoDisplay => false
  }

  lemma {:induction false} OnlyMain(view: View, order: seq<DisplayId>, d: DisplayId)
    requires d in order && d in view.displays && view.displays[d].isMain
    requires forall e | e in view.displays && view.displays[e].isMain :: e == d
    ensures FirstMain(view, order) == [d]
  {
    if order[0] != d {
      OnlyMain(view, order[1..], d);
    }
  }

  lemma {:induction false} AimIsTarget(t: Template, view: View, order: seq<DisplayId>, d: DisplayId)
    requires AimsAt(t, view.displays, d) && d in order
    ensures d in TargetsOf(t, view, order)
  {
    if t.display.MainDisplay? {
      OnlyMain(view, order, d);
    }
  }

  /** Configured on its display: registered there, persistent as the template says, and not dynamic. */
  ghost predicate Configured(reg: Registry, k: Key) {
    k in reg && reg[k].persistent && !reg[k].dynamic && reg[k].display == k.display
  }

  lemma {:induction false} InstantiateConfigures(reg: Registry, next: nat, t: Template, targets: seq<DisplayId>, k: Key)
    requires (k in reg ==> reg[k].display == k.display) && (Configured(reg, k) || (t.name == k.name && k.display in targets))
    requires t.name == k.name ==> t.persistent
    ensures Configured(Instantiate(reg, next, t, targets).0, k)
    decreases |targets|
  {
    if targets != [] {
      var j := Key(targets[0], t.name);
      var (reg', next') :=
        if j in reg then (reg[j := reg[j].(persistent := t.persistent, dynamic := false)], next)
        else (reg[j := Entry(t.name, targets[0], t.persistent, false, next, None, None)], next + 1);
      InstantiateConfigures(reg', next', t, targets[1..], k);
    }
  }

  lemma {:induction false} InstantiateKeepsDisplay(reg: Registry, next: nat, t: Template, targets: seq<DisplayId>, k: Key)
    requires k in reg ==> reg[k].display == k.display
    ensures var r := Instantiate(reg, next, t, targets).0; k in r ==> r[k].display == k.display
    decreases |targets|
  {
    if targets != [] {
      var j := Key(targets[0], t.name);
      var (reg', next') :=
        if j in reg then (reg[j := reg[j].(persistent := t.persistent, dynamic := false)], next)
        else (reg[j := Entry(t.name, targets[0], t.persistent, false, next, None, None)], next + 1);
      InstantiateKeepsDisplay(reg', next', t, targets[1..], k);
    }
  }

  lemma {:induction false} AllConfigure(reg: Registry, next: nat, ts: seq<Template>, view: View, order: seq<DisplayId>, k: Key)
    requires (k in reg ==> reg[k].display == k.display) && forall t | t in ts && t.name == k.name :: t.persistent
    requires Configured(reg, k) || (k.display in order && exists t :: t in ts && t.name == k.name && AimsAt(t, view.displays, k.display))
    ensures Configured(InstantiateAll(reg, next, ts, view, order), k)
    decreases |ts|
  {
    hide Instantiate, TargetsOf, AimsAt;
    if ts != [] {
      var targets := TargetsOf(ts[0], view, order);
      InstantiateKeepsDisplay(reg, next, ts[0], targets, k);
      if !Configured(reg, k) && ts[0].name == k.name && AimsAt(ts[0], view.displays, k.display) {
        AimIsTarget(ts[0], view, order, k.display);
      }
      if Configured(reg, k) || (ts[0].name == k.name && k.display in targets) {
        InstantiateConfigures(reg, next, ts[0], targets, k);
      }
      var (reg', next') := Instantiate(reg, next, ts[0], targets);
      AllConfigure(reg', next', ts[1..], view, order, k);
    }
  }

  /** A persistent template puts a permanent workspace on every display it aims at. */
  ghost predicate Asks(s: State, snap: Snapshot, k: Key) {
    && (exists t :: t in s.templates && t.name == k.name && AimsAt(t, snap.displays, k.display))
    && (forall t | t in s.templates && t.name == k.name :: t.persistent)
    && (k in s.reg ==> s.reg[k].display == k.display) && (forall p | p in s.pendingDestroy :: s.pendingDestroy[p] != k)
  }

  lemma {:induction false} SyncConfigures(s: State, visit: Visit, k: Key)
    requires s.synced != Some(s.view.displays.Keys) && k.display in visit.displays
    requires (exists t :: t in s.templates && t.name == k.name && AimsAt(t, s.view.displays, k.display))
    requires forall t | t in s.templates && t.name == k.name :: t.persistent
    requires k in s.reg ==> s.reg[k].display == k.display
    ensures Configured(SyncConfig(s, visit).reg, k)
  {
    hide NextOrdinal, InstantiateAll, AimsAt;
    AllConfigure(s.reg, NextOrdinal(s.reg), s.templates, s.view, visit.displays, k);
    var t :| t in s.templates && t.name == k.name && AimsAt(t, s.view.displays, k.display);
    AimIsThere(t, s.view.displays, k.display);
  }

  lemma AimIsThere(t: Template, displays: map<DisplayId, Display>, d: DisplayId)
    requires AimsAt(t, displays, d)
    ensures d in displays
  {
  }

  lemma ConfiguredIsSteadfast(s: State, q: State, k: Key)
    requires Configured(q.reg, k) && q.templates == s.templates && q.pendingDestroy == s.pendingDestroy
    requires (forall t | t in s.templates && t.name == k.name :: t.persistent) && forall p | p in s.pendingDestroy :: s.pendingDestroy[p] != k
    ensures Permanent(q, k)
  {
  }

  lemma PermanentIsSecured(s: State, now: Instant, reset: bool, k: Key)
    requires Permanent(s, k)
    ensures Secured(s, now, reset, k)
  {
    hide Aged, Expired;
  }

  lemma UpheldIsPermanent(s: State, r: State, k: Key, now: Instant)
    requires Permanent(s, k) && Upheld(s, r, k, now) && forall p | p in r.pendingDestroy :: p in s.pendingDestroy && r.pendingDestroy[p] == s.pendingDestroy[p]
    ensures Permanent(r, k)
  {
    hide IntentsUpheld;
  }

  /**
   * The first look at a set of displays: every persistent template has a permanent workspace on
   * every display it aims at, known before or not.
   */
  lemma {:induction false} ConfiguredIsPermanent(s: State, snap: Snapshot, now: Instant, visit: Visit, k: Key)
    requires snap.complete && snap.WellKeyed() && s.synced != Some(snap.displays.Keys) && k.display in visit.displays && Asks(s, snap, k)
    ensures Permanent(SnapshotStep(s, snap, now, visit).0, k)
  {
    hide IsReset, SyncConfig, Settled, SettledFrom, Advance, AimsAt, Snapshot.WellKeyed, View.WellKeyed, Permanent, Upheld, Configured;
    SettledAfterSync(s, snap, now, visit);
    var s1 := Observe(if IsReset(s.view, snap) then VoidReservations(s) else s, snap);
    SyncConfigures(s1, visit, k);
    var q := SyncConfig(s1, visit);
    ConfiguredIsSteadfast(s1, q, k);
    PermanentIsSecured(q, now, IsReset(s.view, snap), k);
    PermanentIsThere(q, k);
    SettlingUpholds(q, s.view.windows, now, IsReset(s.view, snap), visit, k);
    SettlingDestroysLess(s, snap, now, visit);
    var s0 := Settled(s, snap, now, visit);
    UpheldIsPermanent(q, s0, k, now);
    PermanentIsThere(s0, k);
    AdvanceKeeps(s0, now, visit, k);
    RemainsPermanent(s0, Advance(s0, now, visit).0, k);
  }

  lemma LoadedAsks(p: Persisted, caps: Capabilities, templates: seq<Template>)
    ensures var s := LoadState(p, caps, templates);
            s.synced == None && s.templates == templates && s.pendingDestroy == map[] && s.reg == p.workspaces
  {
  }

  /**
   * However the engine is started, once its first turn is a complete look: a workspace some
   * persistent template puts on an observed display is there after every run whose complete looks
   * show that display, and if the run is orderly no turn asks for a Space of its to be destroyed.
   */
  lemma {:induction false} PersistentFromStart(
      p: Persisted, caps: Capabilities, templates: seq<Template>, first: Turn, turns: seq<Turn>, k: Key)
    requires NoneBacked(p.workspaces) && first.Valid() && CompleteLook(first) && ValidTurns(turns)
    requires var s := LoadState(p, caps, templates);
             && s.view.WellKeyed() && After(s, first).view.WellKeyed()
             && k.display in first.event.visit.displays && Asks(s, first.event.snap, k)
    requires forall t | t in turns :: Shows(t, k.display)
    ensures var s1 := After(LoadState(p, caps, templates), first);
            && k in AfterAll(s1, turns).reg
            && (OrderlyRun(s1, turns) ==> forall i | 0 <= i < |turns| :: KeepsSpaces(AfterAll(s1, turns[..i]), turns[i], k))
  {
    StartsClean(p, caps, templates);
    LoadedAsks(p, caps, templates);
    hide *;
    var s := LoadState(p, caps, templates);
    FirstLookConfigures(s, first, k);
    FirstTurnKeepsTame(s, first);
    var s1 := After(s, first);
    PersistentNeverForgotten(s1, turns, k);
    if OrderlyRun(s1, turns) {
      PersistentNeverDestroyed(s1, turns, k);
    }
  }

  lemma {:induction false} FirstLookConfigures(s: State, first: Turn, k: Key)
    requires s.view.WellKeyed() && first.Valid() && CompleteLook(first) && s.synced == None
    requires k.display in first.event.visit.displays && Asks(s, first.event.snap, k)
    ensures Permanent(After(s, first), k)
  {
    hide Respond, Batch, SnapshotStep, Permanent, Asks;
    LookIsStep(s, first);
    ConfiguredIsPermanent(s, first.event.snap, first.now, first.event.visit, k);
    var r := Respond(s, first.event, first.now).0;
    if Done(s, first) < |Batch(s, first)| {
      RefusalKeepsPermanent(r, Batch(s, first)[Done(s, first)..], k);
    }
  }
}
