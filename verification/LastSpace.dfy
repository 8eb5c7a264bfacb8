/**
 * What the engine destroys, and why no display is ever left without an ordinary Space, however
 * late the platform carries its destroys out.
 */
module LastSpace {
  import opened Basics
  import opened Geometry
  import opened Observed
  import opened Workspace
  import opened Lifecycle
  import opened Runs

  // ------------------------------------------------------- what is destroyed

  /** A Space fit to go: ordinary, unfocused, empty, and not its display's last. */
  predicate Expendable(view: View, x: SpaceId) {
    view.Ordinary(x) && !view.spaces[x].focused && !view.Occupied(x) && |view.OrdinaryOn(view.spaces[x].display)| >= 2
  }

  lemma {:induction false} EmptyTargetIsExpendable(s: State, moved: set<Key>, now: Instant)
    requires DestroyEmpty(s, moved, now).1 != []
    ensures var x := DestroyEmpty(s, moved, now).1[0].space; Expendable(s.view, x) && !RecentlyLeft(s, x, now)
  {
    hide Swept, Stale, Condemned, View.Occupied, View.OrdinaryOn, RecentlyLeft;
    var k := Condemned(s, moved, now).value.0;
    assert k in Doomed(s, moved, now) && Empty(s, k, now);
  }

  lemma {:induction false} OrphanIsExpendable(s: State, now: Instant)
    requires s.view.WellKeyed() && NextHeal(s, now).Some?
    ensures var x := NextHeal(s, now).value; Expendable(s.view, x) && !s.Known(x)
  {
    hide State.Quiet, View.Occupied, View.OrdinaryOn, State.Known;
  }

  /** Only two stages destroy. */
  lemma {:induction false} WhoDestroys(
      a1: seq<Action>, a3: seq<Action>, a4: seq<Action>, a6: seq<Action>, heal: Option<SpaceId>, x: SpaceId)
    requires DestroySpace(x) in a1 + a3 + a4 + a6 || heal == Some(x)
    requires a1 == [] || (|a1| == 1 && a1[0].MoveSpace?)
    requires a3 == [] || (|a3| == 1 && a3[0].DestroySpace?)
    requires NoTopology(a4) && (a6 == [] || (|a6| == 1 && a6[0].CreateSpace?))
    ensures (a3 != [] && a3[0].space == x) || heal == Some(x)
  {
    assert DestroySpace(x).IsTopology() && DestroySpace(x) !in a4;
  }

  lemma {:induction false} AdvanceDestroysExpendable(s: State, now: Instant, visit: Visit, x: SpaceId)
    requires s.view.WellKeyed() && DestroySpace(x) in Advance(s, now, visit).1
    ensures Expendable(s.view, x)
  {
    hide ReconcilePlacement, Rebind, GraceSurplus, DestroyEmpty, FulfillQueues, RequestMissing, TryStart, HealIfIdle, NextHeal, MovedKeys, Ascending;
    hide View.WellKeyed, State.Quiet, Expendable, State.Known, NoTopology, Strangers, RecentlyLeft;
    var (s1, a1) := ReconcilePlacement(s, now);
    var (s2, moves) := Rebind(s1, visit);
    var g := GraceSurplus(s2, now);
    var (s3, a3) := DestroyEmpty(g, MovedKeys(moves), now);
    var (s4, a4) := FulfillQueues(s3, now);
    var s5 := RequestMissing(s4, Ascending(s4.view.displays.Keys));
    var (s6, a6) := TryStart(s5, now);
    HealTarget(s6, a1 + a3 + a4 + a6, now);
    var healed := HealIfIdle(s6, a1 + a3 + a4 + a6, now).1;
    WhoDestroys(a1, a3, a4, a6, if healed == a1 + a3 + a4 + a6 then None else NextHeal(s6, now), x);
    if a3 != [] && a3[0].space == x {
      EmptyTargetIsExpendable(g, MovedKeys(moves), now);
    } else {
      OrphanIsExpendable(s6, now);
    }
  }

  /** Every DestroySpace a snapshot leads to aims at a Space that snapshot shows to be expendable. */
  lemma {:induction false} DestroysOnlyExpendable(s: State, snap: Snapshot, now: Instant, visit: Visit, x: SpaceId)
    requires snap.WellKeyed() && DestroySpace(x) in SnapshotStep(s, snap, now, visit).1
    ensures snap.complete && Expendable(s.view.(windows := snap.windows, spaces := snap.spaces), x)
  {
    hide Settled, Advance, Expendable;
    if snap.complete {
      var s0 := Settled(s, snap, now, visit);
      AdvanceDestroysExpendable(s0, now, visit, x);
      SameSpacesExpendable(s0.view, s.view.(windows := snap.windows, spaces := snap.spaces), x);
    }
  }

  lemma {:induction false} HealTarget(s: State, actions: seq<Action>, now: Instant)
    requires s.view.WellKeyed()
    ensures var r := HealIfIdle(s, actions, now).1;
            r == actions || (NextHeal(s, now).Some? && r == [DestroySpace(NextHeal(s, now).value)])
  {
    hide NextHeal;
  }

  lemma SameSpacesExpendable(a: View, b: View, x: SpaceId)
    requires a.spaces == b.spaces && a.windows == b.windows
    ensures Expendable(a, x) == Expendable(b, x)
  {
    assert forall d :: a.OrdinaryOn(d) == b.OrdinaryOn(d);
  }

  // ------------------------------------------------------------ the real world

  /** What a Space is, as far as its kind and place go; neither changes while it exists. */
  datatype Place = Place(display: DisplayId, ordinary: bool)

  /** The Spaces that exist, and destroys the platform has accepted but not yet carried out. */
  datatype World = World(spaces: map<SpaceId, Place>, doomed: set<SpaceId>) {
    function OrdinaryOn(d: DisplayId): set<SpaceId> {
      set x | x in spaces && spaces[x] == Place(d, true)
    }
  }

  /** A complete snapshot shows the Spaces that exist. */
  ghost predicate Accurate(snap: Snapshot, w: World) {
    && snap.spaces.Keys == w.spaces.Keys
    && forall x | x in snap.spaces :: Place(snap.spaces[x].display, snap.spaces[x].Ordinary()) == w.spaces[x]
  }

  /**
   * One step of engine and world together. Ordinary Spaces go away only when an accepted destroy
   * is carried out, at any later time; everything else may come and go.
   */
  datatype Step =
    | Turned(turn: Turn)
    | Appeared(space: SpaceId, place: Place)
    | Disappeared(space: SpaceId)
    | CarriedOut(space: SpaceId)
  {
    ghost predicate Allowed(w: World) {
      match this
      case Turned(t) =>
        && t.Valid()
        && (CompleteLook(t) ==> Accurate(t.event.snap, w))
        && (t.event.SpaceGone? ==> t.event.space !in w.spaces)
      case Appeared(x, place) => x !in w.spaces
      case Disappeared(x) => x in w.spaces && !w.spaces[x].ordinary
      case CarriedOut(x) => x in w.doomed
    }
  }

  /** The destroys among the actions the platform ran. */
  ghost function Accepted(s: State, t: Turn): set<SpaceId>
    requires s.view.WellKeyed() && t.Valid()
  {
    Destroys(Batch(s, t)[..Done(s, t)])
  }

  ghost function NextState(s: State, step: Step): (r: State)
    requires s.view.WellKeyed() && (step.Turned? ==> step.turn.Valid())
    ensures r.view.WellKeyed()
  {
    if step.Turned? then
      RespondAccounts(s, step.turn.event, step.turn.now);
      After(s, step.turn)
    else s
  }

  ghost function NextWorld(s: State, w: World, step: Step): World
    requires s.view.WellKeyed() && step.Allowed(w)
  {
    match step
    case Turned(t) => w.(doomed := w.doomed + Accepted(s, t))
    case Appeared(x, place) => w.(spaces := w.spaces[x := place])
    case Disappeared(x) => w.(spaces := w.spaces - {x})
    case CarriedOut(x) => World(w.spaces - {x}, w.doomed - {x})
  }

  /** The Space a destroy reservation is for. */
  predicate Holds(s: State, x: SpaceId) { x in s.pendingDestroy || s.topologyDestroy == Some(x) }

  /** Every destroy still to be carried out is the one reserved, and leaves its display a Space. */
  ghost predicate Safe(s: State, w: World) {
    && InFlight(s) <= 1
    && forall x | x in w.doomed ::
         Holds(s, x) && x in w.spaces && w.spaces[x].ordinary && |w.OrdinaryOn(w.spaces[x].display)| >= 2
  }

  // ------------------------------------------------------------------- safety

  lemma {:induction false} HeldIsInFlight(s: State, x: SpaceId)
    requires Holds(s, x)
    ensures InFlight(s) >= 1
    ensures forall y | Holds(s, y) && y != x :: InFlight(s) >= 2
  {
    assert |s.pendingDestroy| == |s.pendingDestroy.Keys|;
    if x in s.pendingDestroy {
      SubsetSize({x}, s.pendingDestroy.Keys);
    }
    forall y | Holds(s, y) && y != x ensures InFlight(s) >= 2 {
      SubsetSize({x, y} * s.pendingDestroy.Keys, s.pendingDestroy.Keys);
      if x in s.pendingDestroy && y in s.pendingDestroy {
        assert {x, y} * s.pendingDestroy.Keys == {x, y};
      } else if y in s.pendingDestroy {
        assert {x, y} * s.pendingDestroy.Keys == {y};
      }
    }
  }

  /** A snapshot that still shows the Space leaves its destroy reservation alone. */
  lemma {:induction false} SettlingKeepsDestroys(s: State, snap: Snapshot, now: Instant, visit: Visit, x: SpaceId)
    requires snap.complete && snap.WellKeyed() && x in snap.spaces && Holds(s, x)
    ensures Holds(Settled(s, snap, now, visit), x)
  {
    hide IsReset, SyncConfig, ReconcileFullscreen, WithoutVanished, BindAwaited, ObserveExternal;
    assert Observe(s, snap).view.WellKeyed() && Observe(VoidReservations(s), snap).view == Observe(s, snap).view;
    hide View.WellKeyed, Snapshot.WellKeyed, Requeue;
    var reset := IsReset(s.view, snap);
    var s1 := Observe(if reset then VoidReservations(s) else s, snap);
    var s2 := ReconcileFullscreen(SyncConfig(s1, visit), s.view.windows, now, visit);
    var s4 := WithoutVanished(s2, now, reset, visit);
    assert Holds(s4, x);
  }

  lemma {:induction false} BaseKeepsDestroys(s: State, w: World, t: Turn, x: SpaceId)
    requires t.Valid() && Turned(t).Allowed(w) && x in w.spaces && Holds(s, x)
    ensures Holds(Base(s, t.event, t.now), x)
  {
    hide Settled, SpaceDestroyed;
    if CompleteLook(t) {
      SettlingKeepsDestroys(s, t.event.snap, t.now, t.event.visit, x);
    }
  }

  /** A destroy the batch holds aims at a Space whose display really has another. */
  lemma {:induction false} BatchDestroysSpare(s: State, w: World, t: Turn, x: SpaceId)
    requires s.view.WellKeyed() && t.Valid() && Turned(t).Allowed(w) && DestroySpace(x) in Batch(s, t)
    ensures x in w.spaces && w.spaces[x].ordinary && |w.OrdinaryOn(w.spaces[x].display)| >= 2
  {
    hide SnapshotStep, FocusWorkspace, MoveToWorkspace, SpaceDestroyed;
    assert DestroySpace(x).IsTopology();
    assert DestroySpace(x) in Respond(s, t.event, t.now).1;
    if !t.event.Look? {
      CommandsDestroyNothing(s, t.event, t.now);
      assert false;
    } else {
      var snap := t.event.snap;
      DestroysOnlyExpendable(s, snap, t.now, t.event.visit, x);
      var view := s.view.(windows := snap.windows, spaces := snap.spaces);
      assert view.OrdinaryOn(view.spaces[x].display) == w.OrdinaryOn(w.spaces[x].display);
    }
  }

  /** A destroy still to be carried out keeps its reservation, so no new mutation starts. */
  lemma {:induction false} DoomedStayHeld(s: State, w: World, t: Turn)
    requires s.view.WellKeyed() && t.Valid() && Safe(s, w) && Turned(t).Allowed(w)
    ensures forall x | x in w.doomed :: Holds(Base(s, t.event, t.now), x)
    ensures w.doomed != {} ==> InFlight(Base(s, t.event, t.now)) >= 1
  {
    hide Base, InFlight;
    forall x | x in w.doomed ensures Holds(Base(s, t.event, t.now), x) && InFlight(Base(s, t.event, t.now)) >= 1 {
      BaseKeepsDestroys(s, w, t, x);
      HeldIsInFlight(Base(s, t.event, t.now), x);
    }
    if w.doomed != {} {
      var x :| x in w.doomed;
      assert Holds(Base(s, t.event, t.now), x);
    }
  }

  lemma {:induction false} QuietTurnAcceptsNothing(s: State, t: Turn)
    requires s.view.WellKeyed() && t.Valid() && forall a | a in Batch(s, t) :: !IsMutation(a)
    ensures Accepted(s, t) == {} && SameReservations(After(s, t), Base(s, t.event, t.now))
  {
    hide Respond, Batch, Base, After, InFlight;
    RespondAccounts(s, t.event, t.now);
    BatchTopology(s, t);
    RefusalKeepsOthers(s, t);
    var batch := Batch(s, t);
    assert forall a | a in batch[..Done(s, t)] :: a in batch;
    TopologyMembers(batch);
    assert Topology(batch) != [] ==> Topology(batch)[0] in batch;
  }

  lemma SameOrdinary(w: World, doomed: set<SpaceId>)
    ensures forall d :: w.(doomed := doomed).OrdinaryOn(d) == w.OrdinaryOn(d)
  {
  }

  lemma {:induction false} TurnKeepsSafe(s: State, w: World, t: Turn)
    requires s.view.WellKeyed() && Safe(s, w) && Turned(t).Allowed(w)
    ensures Safe(After(s, t), w.(doomed := w.doomed + Accepted(s, t)))
  {
    hide After, Batch, Base, Accepted, InFlight, Turn.Valid;
    SameOrdinary(w, w.doomed + Accepted(s, t));
    hide World.OrdinaryOn;
    TurnKeepsSingleFlight(s, t);
    DoomedStayHeld(s, w, t);
    if forall a | a in Batch(s, t) :: !IsMutation(a) {
      QuietTurnAcceptsNothing(s, t);
    } else {
      var m :| 0 <= m < |Batch(s, t)| && IsMutation(Batch(s, t)[m]);
      assert Batch(s, t)[m] in Batch(s, t);
      AcceptedMutation(s, t, m);
      forall x | x in Accepted(s, t)
        ensures Holds(After(s, t), x) && x in w.spaces && w.spaces[x].ordinary && |w.OrdinaryOn(w.spaces[x].display)| >= 2
      {
        BatchDestroysSpare(s, w, t, x);
      }
    }
  }

  /** What the platform accepted of a batch's one mutation, and what the engine then holds. */
  lemma {:induction false} AcceptedMutation(s: State, t: Turn, m: nat)
    requires s.view.WellKeyed() && t.Valid() && InFlight(s) <= 1 && m < |Batch(s, t)| && IsMutation(Batch(s, t)[m])
    ensures forall x | x in Accepted(s, t) :: Batch(s, t)[m] == DestroySpace(x) && Holds(After(s, t), x) && DestroySpace(x) in Batch(s, t)
  {
    hide Respond, After, Base;
    var batch := Batch(s, t);
    RespondAccounts(s, t.event, t.now);
    BatchTopology(s, t);
    TopologyOnce(batch, m);
    RefusalReleasesUnrun(s, t, m);
    forall x | x in Accepted(s, t) ensures batch[m] == DestroySpace(x) && Holds(After(s, t), x) && DestroySpace(x) in batch {
      var i :| 0 <= i < Done(s, t) && batch[..Done(s, t)][i] == DestroySpace(x);
      assert batch[i] == DestroySpace(x);
    }
  }

  lemma {:induction false} StepKeepsSafe(s: State, w: World, step: Step)
    requires s.view.WellKeyed() && Safe(s, w) && step.Allowed(w)
    ensures Safe(NextState(s, step), NextWorld(s, w, step))
  {
    hide After, Accepted, InFlight, Turn.Valid;
    match step
    case Turned(t) => TurnKeepsSafe(s, w, t);
    case Appeared(y, place) =>
      forall x | x in w.doomed ensures |NextWorld(s, w, step).OrdinaryOn(w.spaces[x].display)| >= 2 {
        SubsetSize(w.OrdinaryOn(w.spaces[x].display), NextWorld(s, w, step).OrdinaryOn(w.spaces[x].display));
      }
    case Disappeared(y) =>
      forall d: DisplayId ensures NextWorld(s, w, step).OrdinaryOn(d) == w.OrdinaryOn(d) {
      }
    case CarriedOut(y) =>
      forall x | x in w.doomed ensures x == y {
        HeldIsInFlight(s, y);
      }
  }

  /** One step never takes a display's last ordinary Space. */
  lemma {:induction false} StepSparesLast(s: State, w: World, step: Step, d: DisplayId)
    requires s.view.WellKeyed() && Safe(s, w) && step.Allowed(w) && w.OrdinaryOn(d) != {}
    ensures NextWorld(s, w, step).OrdinaryOn(d) != {}
  {
    hide Accepted, Turn.Valid, InFlight, Holds;
    var after := NextWorld(s, w, step);
    match step
    case Turned(t) => SameOrdinary(w, after.doomed);
    case Appeared(x, place) =>
      var y :| y in w.OrdinaryOn(d);
      assert y in after.OrdinaryOn(d);
    case Disappeared(x) =>
      var y :| y in w.OrdinaryOn(d);
      assert y in after.OrdinaryOn(d);
    case CarriedOut(x) =>
      assert after.OrdinaryOn(d) == w.OrdinaryOn(d) - {x};
      assert x in w.OrdinaryOn(d) ==> |w.OrdinaryOn(d) - {x}| == |w.OrdinaryOn(d)| - 1;
  }

  /** Steps that may follow one another, and where they lead. */
  ghost predicate AllowedRun(s: State, w: World, steps: seq<Step>)
    requires s.view.WellKeyed()
    decreases |steps|
  {
    hide After, Accepted, Step.Allowed;
    steps == [] || (steps[0].Allowed(w) && (steps[0].Turned? ==> steps[0].turn.Valid())
                    && AllowedRun(NextState(s, steps[0]), NextWorld(s, w, steps[0]), steps[1..]))
  }

  ghost function Reached(s: State, w: World, steps: seq<Step>): (State, World)
    requires s.view.WellKeyed() && AllowedRun(s, w, steps)
    decreases |steps|
  {
    hide After, Accepted, Step.Allowed;
    if steps == [] then (s, w) else Reached(NextState(s, steps[0]), NextWorld(s, w, steps[0]), steps[1..])
  }

  /**
   * Over any run in which ordinary Spaces vanish only through the engine's own destroys, carried
   * out whenever the platform gets to them, no display ever loses its last ordinary Space.
   */
  lemma {:induction false} NoDisplayLosesLastSpace(s: State, w: World, steps: seq<Step>, d: DisplayId)
    requires s.view.WellKeyed() && AllowedRun(s, w, steps) && Safe(s, w) && w.OrdinaryOn(d) != {}
    ensures var (s', w') := Reached(s, w, steps); w'.OrdinaryOn(d) != {} && Safe(s', w')
    decreases |steps|
  {
    hide Safe, NextState, NextWorld, Step.Allowed, World.OrdinaryOn;
    if steps != [] {
      StepKeepsSafe(s, w, steps[0]);
      StepSparesLast(s, w, steps[0], d);
      NoDisplayLosesLastSpace(NextState(s, steps[0]), NextWorld(s, w, steps[0]), steps[1..], d);
    }
  }
}
