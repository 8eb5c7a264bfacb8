/** Every run of the engine, from the moment it is started on an empty or a saved state. */
module Start {
  import opened Basics
  import opened Geometry
  import opened Observed
  import opened Workspace
  import opened Lifecycle
  import opened Runs
  import opened LastSpace
  import opened Homes
  import opened TreeSurvival
  import opened Persistence

  /** Nothing is in flight, nothing observed and nobody has a Space. */
  lemma {:induction false} StartsClean(p: Persisted, caps: Capabilities, templates: seq<Template>)
    requires NoneBacked(p.workspaces)
    ensures var s := LoadState(p, caps, templates);
            InFlight(s) == 0 && s.view.WellKeyed() && Tame(s) && s.awaited == [] && !s.initialized && NoneBacked(s.reg)
  {
  }

  /** No stranger's Space is adopted on the first look, and nothing can have come back. */
  lemma FirstLookIsOrderly(s: State, snap: Snapshot)
    requires NoneBacked(s.reg) && !s.initialized
    ensures Orderly(s, snap)
  {
    hide IsReset, QueuedLast, InUseOwned;
  }

  lemma {:induction false} FirstLookKeepsTame(s: State, snap: Snapshot, now: Instant, visit: Visit)
    requires snap.complete && snap.WellKeyed() && Tame(s) && s.awaited == [] && Orderly(s, snap)
    ensures var r := SnapshotStep(s, snap, now, visit).0; Tame(r) && r.initialized
  {
    CompleteLooks(s, snap, now, visit);
    SettleKeepsTame(s, snap, now, visit);
    hide SnapshotStep, Settled, Advance, Tame, Orderly, FullscreenShown, StrangersSetAside;
    AdvanceKeepsTame(Settled(s, snap, now, visit), now, visit);
  }

  lemma {:induction false} FirstTurnKeepsTame(s: State, t: Turn)
    requires s.view.WellKeyed() && t.Valid() && CompleteLook(t)
    requires Tame(s) && s.awaited == [] && !s.initialized && NoneBacked(s.reg)
    ensures Tame(After(s, t)) && After(s, t).initialized
  {
    LookIsStep(s, t);
    var snap, visit := t.event.snap, t.event.visit;
    hide *;
    FirstLookIsOrderly(s, snap);
    FirstLookKeepsTame(s, snap, t.now, visit);
    RefusalKeepsTame(s, t);
  }

  lemma LookIsStep(s: State, t: Turn)
    requires s.view.WellKeyed() && t.Valid() && CompleteLook(t)
    ensures t.event.Look? && t.event.snap.complete && t.event.snap.WellKeyed()
    ensures Respond(s, t.event, t.now) == SnapshotStep(s, t.event.snap, t.now, t.event.visit)
  {
    hide SnapshotStep, Snapshot.WellKeyed, View.WellKeyed, NoTopology;
  }

  /**
   * However the engine is started, once its first turn is a complete look, over any orderly run
   * after that no two workspaces ever own the same Space.
   */
  lemma {:induction false} OwnersStayApart(p: Persisted, caps: Capabilities, templates: seq<Template>, first: Turn, turns: seq<Turn>)
    requires NoneBacked(p.workspaces) && first.Valid() && CompleteLook(first) && ValidTurns(turns)
    requires LoadState(p, caps, templates).view.WellKeyed() && After(LoadState(p, caps, templates), first).view.WellKeyed()
    requires OrderlyRun(After(LoadState(p, caps, templates), first), turns)
    ensures Distinct(AfterAll(After(LoadState(p, caps, templates), first), turns).reg)
  {
    var s := LoadState(p, caps, templates);
    StartsClean(p, caps, templates);
    hide LoadState, After, AfterAll, OrderlyRun, Tame, Distinct, NoneBacked;
    FirstTurnKeepsTame(s, first);
    HomesStayDistinct(After(s, first), turns);
  }

  /** From any start, any run with any refusals has at most one Space being created or destroyed. */
  lemma {:induction false} OneMutationAtATime(p: Persisted, caps: Capabilities, templates: seq<Template>, turns: seq<Turn>)
    requires NoneBacked(p.workspaces) && ValidTurns(turns) && LoadState(p, caps, templates).view.WellKeyed()
    ensures InFlight(AfterAll(LoadState(p, caps, templates), turns)) <= 1
  {
    var s := LoadState(p, caps, templates);
    StartsClean(p, caps, templates);
    hide LoadState, AfterAll;
    SingleFlight(s, turns);
  }

  /** From any start, in any world with no destroy outstanding, no display loses its last ordinary Space. */
  lemma {:induction false} EveryDisplayKeepsOne(p: Persisted, caps: Capabilities, templates: seq<Template>, w: World, steps: seq<Step>, d: DisplayId)
    requires NoneBacked(p.workspaces) && w.doomed == {} && w.OrdinaryOn(d) != {}
    requires LoadState(p, caps, templates).view.WellKeyed() && AllowedRun(LoadState(p, caps, templates), w, steps)
    ensures Reached(LoadState(p, caps, templates), w, steps).1.OrdinaryOn(d) != {}
  {
    var s := LoadState(p, caps, templates);
    StartsClean(p, caps, templates);
    assert Safe(s, w);
    hide LoadState, Reached, AllowedRun, Safe;
    NoDisplayLosesLastSpace(s, w, steps, d);
  }
}
