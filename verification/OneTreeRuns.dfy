/** Over any run in which looks meet every parked tree, no workspace has a parked tree and a Space at once. */
module OneTreeRuns {
  import opened Basics
  import opened Geometry
  import opened Observed
  import opened Workspace
  import opened Remap
  import opened Lifecycle
  import opened Runs
  import opened TreeOwnership
  import opened TreeSurvival
  import opened Persistence
  import opened TreeLosses

  // -------------------------------------------------------------------- looks

  /** Trees and workspaces may go, and workspaces may come or be left without a Space. */
  ghost predicate OnlyLoses(a: State, b: State) {
    && (forall k | k in b.reg && b.reg[k].backing.Some? :: k in a.reg && a.reg[k].backing.Some?)
    && (forall k | k in b.parked :: k in a.parked || (k in b.reg ==> b.reg[k].backing == None))
  }

  lemma LosingKeepsOneTree(a: State, b: State)
    requires OneTree(a) && OnlyLoses(a, b)
    ensures OneTree(b)
  {
  }

  /** Whatever was parked before: once every parked tree has been met, none is left whose workspace has a Space. */
  lemma {:induction false} RebindLeavesOneTree(s: State, visit: Visit)
    requires s.view.WellKeyed() && MeetsAll(s, visit)
    ensures OneTree(Rebind(s, visit).0)
  {
    hide RemapSlots, MoveTrees, Reattach, View.WellKeyed;
    var (s1, moves) := RemapSlots(s, visit);
    var t := MoveTrees(s1.AllTrees(), s1.view.spaces.Keys, moves);
    var r := Rebind(s, visit).0;
    forall k | k in r.parked && k in r.reg ensures r.reg[k].backing == None {
      assert Meets(s, visit, k);
      if ShownOn(s1.reg, k).Some? {
        ReattachedIsNotParked(t, s1.reg, visit.parked, k);
      }
    }
  }

  lemma {:induction false} CollectOnlyLoses(s: State, moved: set<Key>, now: Instant)
    ensures OnlyLoses(s, DestroyEmpty(s, moved, now).0)
  {
    hide Stale, Condemned, SpacesOf, KeepFocus, KeepMoves, State.Quiet;
  }

  lemma {:induction false} AdvanceLeavesOneTree(s: State, now: Instant, visit: Visit)
    requires s.view.WellKeyed() && MeetsAll(ReconcilePlacement(s, now).0, visit)
    ensures OneTree(Advance(s, now, visit).0)
  {
    hide ReconcilePlacement, Rebind, GraceSurplus, DestroyEmpty, FulfillQueues, RequestMissing, TryStart, HealIfIdle, MovedKeys, Ascending;
    hide View.WellKeyed, MeetsAll, Strangers, NoTopology, State.Quiet, OnlyLoses;
    var s1 := ReconcilePlacement(s, now).0;
    RebindLeavesOneTree(s1, visit);
    var (s2, moves) := Rebind(s1, visit);
    var g := GraceSurplus(s2, now);
    CollectOnlyLoses(g, MovedKeys(moves), now);
    var s3 := DestroyEmpty(g, MovedKeys(moves), now).0;
    LosingKeepsOneTree(g, s3);
    var r := Advance(s, now, visit).0;
    assert r.reg == s3.reg && r.parked == s3.parked;
  }

  /** A look taken in whole meets every display, workspace and parked tree there is. */
  ghost predicate LooksAround(s: State, t: Turn)
    requires t.Valid()
  {
    CompleteLook(t) ==> WalksAll(s, t.event.snap, t.now, t.event.visit)
  }

  lemma {:induction false} LookKeepsOneTree(s: State, snap: Snapshot, now: Instant, visit: Visit)
    requires s.view.WellKeyed() && snap.WellKeyed() && OneTree(s) && (snap.complete ==> WalksAll(s, snap, now, visit))
    ensures OneTree(SnapshotStep(s, snap, now, visit).0)
  {
    hide Settled, Advance, OneTree, ParksAll, TakenIn, IsReset, StripWalk, ReconcilePlacement, MeetsAll, View.WellKeyed, Snapshot.WellKeyed;
    if snap.complete {
      AdvanceLeavesOneTree(Settled(s, snap, now, visit), now, visit);
    } else {
      SameKeepsOneTree(s, Observe(s, snap));
    }
  }

  lemma SameKeepsOneTree(a: State, b: State)
    requires OneTree(a) && b.reg == a.reg && b.parked == a.parked
    ensures OneTree(b)
  {
  }

  // ----------------------------------------------------------------- commands

  lemma {:induction false} ClearKeepsOneTree(s: State, k: Key)
    requires OneTree(s)
    ensures OneTree(ClearStale(s, k))
  {
  }

  lemma {:induction false} EnsureOnlyAdds(s: State, k: Key)
    ensures OnlyLoses(s, EnsureDynamic(s, k)) && EnsureDynamic(s, k).parked == s.parked
  {
    hide NextOrdinal;
  }

  lemma {:induction false} RequestKeepsOneTree(s: State, d: DisplayId, name: string, now: Instant)
    requires s.view.WellKeyed() && OneTree(s)
    ensures OneTree(RequestCreation(s, d, name, now).0)
  {
    hide *;
    var s1 := EnsureDynamic(s, Key(d, name));
    EnsureOnlyAdds(s, Key(d, name));
    LosingKeepsOneTree(s, s1);
    OnlyRequests(s, d, name, now);
    SameKeepsOneTree(s1, RequestCreation(s, d, name, now).0);
  }

  lemma OnlyRequests(s: State, d: DisplayId, name: string, now: Instant)
    requires s.view.WellKeyed()
    ensures var r, s1 := RequestCreation(s, d, name, now).0, EnsureDynamic(s, Key(d, name)); r.reg == s1.reg && r.parked == s1.parked
  {
    hide EnsureDynamic, Anchor, TryStart, State.Expecting, View.WellKeyed;
  }

  lemma {:induction false} AskKeepsOneTree(s: State, queued: State, k: Key, now: Instant)
    requires s.view.WellKeyed() && OneTree(s) && queued.reg == s.reg && queued.parked == s.parked && queued.view == s.view
    ensures var q := if k in s.reg then ClearStale(queued, k) else queued;
            q.view.WellKeyed() && OneTree(RequestCreation(q, k.display, k.name, now).0)
  {
    hide RequestCreation, ClearStale, OneTree;
    SameKeepsOneTree(s, queued);
    ClearKeepsOneTree(queued, k);
    RequestKeepsOneTree(if k in s.reg then ClearStale(queued, k) else queued, k.display, k.name, now);
  }

  lemma {:induction false} FocusKeepsOneTree(s: State, d: DisplayId, name: string, now: Instant)
    requires s.view.WellKeyed() && OneTree(s)
    ensures OneTree(FocusWorkspace(s, d, name, now).0)
  {
    hide RequestCreation, ClearStale, QueuedFocus, Reachable, View.WellKeyed, OneTree;
    var queued := s.(focusQueue := QueuedFocus(s.focusQueue, Key(d, name)));
    AskKeepsOneTree(s, queued, Key(d, name), now);
    SameKeepsOneTree(s, queued);
  }

  lemma {:induction false} SendKeepsOneTree(s: State, w: WindowId, d: DisplayId, name: string, now: Instant)
    requires s.view.WellKeyed() && OneTree(s)
    ensures OneTree(MoveToWorkspace(s, w, d, name, now).0)
  {
    hide RequestCreation, ClearStale, QueuedMove, Reachable, View.WellKeyed, OneTree;
    var k := Key(d, name);
    var queued := s.(moveQueue := QueuedMove(s.moveQueue, w, k));
    AskKeepsOneTree(s, queued, k, now);
    SameKeepsOneTree(s, queued);
    SameKeepsOneTree(s, s.(grace := s.grace[k := now + DYNAMIC_GRACE]));
  }

  lemma {:induction false} GoneKeepsOneTree(s: State, x: SpaceId)
    requires OneTree(s)
    ensures OneTree(SpaceDestroyed(s, x))
  {
    hide SpaceDestroyed, OneTree;
    GoneParksNothing(s, x);
    LosingKeepsOneTree(s, SpaceDestroyed(s, x));
  }

  lemma GoneParksNothing(s: State, x: SpaceId)
    ensures forall k | k in SpaceDestroyed(s, x).parked :: k in s.parked
  {
    hide SpacesOf, KeepFocus, KeepMoves;
  }

  lemma {:induction false} AnswerKeepsOneTree(s: State, e: Event, now: Instant)
    requires s.view.WellKeyed() && e.WellKeyed() && OneTree(s) && !e.Look?
    ensures OneTree(Respond(s, e, now).0)
  {
    hide SnapshotStep, FocusWorkspace, MoveToWorkspace, SpaceDestroyed, OneTree, View.WellKeyed, Snapshot.WellKeyed;
    match e
    case Focus(d, name) => FocusKeepsOneTree(s, d, name, now);
    case Send(w, d, name) => SendKeepsOneTree(s, w, d, name, now);
    case SpaceGone(x) => GoneKeepsOneTree(s, x);
    case WindowGone(w) => SameKeepsOneTree(s, WindowDestroyed(s, w));
    case DisplayGone(d) => SameKeepsOneTree(s, DisplayRemoved(s, d));
    case Woken => SameKeepsOneTree(s, NoteWake(s));
  }

  lemma LookWalks(s: State, t: Turn)
    requires t.Valid() && LooksAround(s, t) && t.event.Look? && t.event.snap.complete
    ensures t.event.snap.WellKeyed() && WalksAll(s, t.event.snap, t.now, t.event.visit)
  {
    hide WalksAll, NoTopology, Snapshot.WellKeyed;
  }

  lemma {:induction false} RespondKeepsOneTree(s: State, t: Turn)
    requires s.view.WellKeyed() && t.Valid() && OneTree(s) && LooksAround(s, t)
    ensures OneTree(Respond(s, t.event, t.now).0)
  {
    hide *;
    AnyEvent(t);
    if t.event.Look? {
      LookAnswer(s, t.event, t.now);
      if t.event.snap.complete {
        LookWalks(s, t);
      }
      LookKeepsOneTree(s, t.event.snap, t.now, t.event.visit);
    } else {
      AnswerKeepsOneTree(s, t.event, t.now);
    }
  }

  // --------------------------------------------------------------------- runs

  lemma {:induction false} TurnKeepsOneTree(s: State, t: Turn)
    requires s.view.WellKeyed() && t.Valid() && OneTree(s) && LooksAround(s, t)
    ensures OneTree(After(s, t))
  {
    hide Respond, Batch, OneTree, LooksAround, NoteBatchFailed;
    RespondKeepsOneTree(s, t);
    SameKeepsOneTree(Respond(s, t.event, t.now).0, After(s, t));
  }

  ghost predicate LookingAround(s: State, turns: seq<Turn>)
    requires s.view.WellKeyed() && ValidTurns(turns)
    decreases |turns|
  {
    hide After, LooksAround;
    turns == []
    || (var n := |turns| - 1;
        assert (forall t | t in turns[..n] :: t in turns) && turns[n] in turns;
        LookingAround(s, turns[..n]) && LooksAround(AfterAll(s, turns[..n]), turns[n]))
  }

  /**
   * From any start, over any run whose complete looks walk all there is to walk, whatever the
   * platform refuses: a tree is parked only for a workspace that has no Space.
   */
  lemma {:induction false} OneTreeAlways(p: Persisted, caps: Capabilities, templates: seq<Template>, turns: seq<Turn>)
    requires NoneBacked(p.workspaces) && ValidTurns(turns) && LoadState(p, caps, templates).view.WellKeyed()
    requires LookingAround(LoadState(p, caps, templates), turns)
    ensures OneTree(AfterAll(LoadState(p, caps, templates), turns))
  {
    LoadedOneTree(p, caps, templates);
    hide LoadState, AfterAll, LookingAround, OneTree, NoneBacked;
    RunKeepsOneTree(LoadState(p, caps, templates), turns);
  }

  lemma LoadedOneTree(p: Persisted, caps: Capabilities, templates: seq<Template>)
    requires NoneBacked(p.workspaces)
    ensures OneTree(LoadState(p, caps, templates))
  {
  }

  lemma {:induction false} RunKeepsOneTree(s: State, turns: seq<Turn>)
    requires s.view.WellKeyed() && ValidTurns(turns) && OneTree(s) && LookingAround(s, turns)
    ensures OneTree(AfterAll(s, turns))
    decreases |turns|
  {
    hide After, LooksAround, OneTree;
    if turns != [] {
      var n := |turns| - 1;
      assert forall t | t in turns[..n] :: t in turns;
      RunKeepsOneTree(s, turns[..n]);
      TurnKeepsOneTree(AfterAll(s, turns[..n]), turns[n]);
    }
  }
}
