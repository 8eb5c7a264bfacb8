/** Every workspace goes by the name and display it is registered under, from any start and over any run. */
module Filing {
  import opened Basics
  import opened Geometry
  import opened Observed
  import opened Workspace
  import opened Remap
  import opened Lifecycle
  import opened Runs
  import opened LastSpace
  import opened Homes
  import opened Staying
  import opened TreeSurvival
  import opened Persistence
  import opened Spared
  import opened Intents
  import opened Collecting
  import opened Adoption

  /** One entry is filed right. */
  predicate FiledAt(reg: Registry, k: Key) { k in reg ==> reg[k].name == k.name && reg[k].display == k.display }

  lemma FiledEverywhere(reg: Registry)
    ensures Filed(reg) <==> forall k :: FiledAt(reg, k)
  {
    if forall k :: FiledAt(reg, k) {
      forall k | k in reg ensures reg[k].name == k.name && reg[k].display == k.display {
        assert FiledAt(reg, k);
      }
    }
  }

  // ------------------------------------------------------------- one look, stage by stage

  lemma {:induction false} InstantiateFiles(reg: Registry, next: nat, t: Template, targets: seq<DisplayId>, k: Key)
    requires FiledAt(reg, k)
    ensures FiledAt(Instantiate(reg, next, t, targets).0, k)
    decreases |targets|
  {
    if targets != [] {
      var j := Key(targets[0], t.name);
      var (reg', next') :=
        if j in reg then (reg[j := reg[j].(persistent := t.persistent, dynamic := false)], next)
        else (reg[j := Entry(t.name, targets[0], t.persistent, false, next, None, None)], next + 1);
      InstantiateFiles(reg', next', t, targets[1..], k);
    }
  }

  lemma {:induction false} InstantiateAllFiles(reg: Registry, next: nat, ts: seq<Template>, view: View, order: seq<DisplayId>, k: Key)
    requires FiledAt(reg, k)
    ensures FiledAt(InstantiateAll(reg, next, ts, view, order), k)
    decreases |ts|
  {
    hide Instantiate, TargetsOf;
    if ts != [] {
      InstantiateFiles(reg, next, ts[0], TargetsOf(ts[0], view, order), k);
      var (reg', next') := Instantiate(reg, next, ts[0], TargetsOf(ts[0], view, order));
      InstantiateAllFiles(reg', next', ts[1..], view, order, k);
    }
  }

  lemma {:induction false} SyncFiles(s: State, visit: Visit, k: Key)
    requires FiledAt(s.reg, k)
    ensures FiledAt(SyncConfig(s, visit).reg, k)
  {
    hide NextOrdinal, InstantiateAll;
    InstantiateAllFiles(s.reg, NextOrdinal(s.reg), s.templates, s.view, visit.displays, k);
  }

  lemma {:induction false} FullscreenFiles(s: State, previous: map<WindowId, Window>, now: Instant, visit: Visit, k: Key)
    requires FiledAt(s.reg, k)
    ensures FiledAt(ReconcileFullscreen(s, previous, now, visit).reg, k)
  {
    hide ReconcileFullscreen, FullscreenRegistry, Substituted;
    FullscreenEntry(s, previous, now, k);
    if k in s.reg {
      SubstitutedIsThere(s, previous, now, s.reg[k]);
    }
  }

  lemma SubsetFiles(a: Registry, b: Registry, k: Key)
    requires FiledAt(a, k) && (k in b ==> k in a && b[k] == a[k].(backing := b[k].backing, lastPosition := b[k].lastPosition))
    ensures FiledAt(b, k)
  {
  }

  lemma {:induction false} ParkFiles(s: State, ks: seq<Key>, k: Key)
    requires FiledAt(s.reg, k)
    ensures FiledAt(ParkVanished(s, ks).reg, k)
    decreases |ks|
  {
    hide ParkOne, FiledAt;
    if ks != [] {
      ParkOneFiles(s, ks[0], k);
      ParkFiles(ParkOne(s, ks[0]), ks[1..], k);
    }
  }

  lemma ParkOneFiles(s: State, j: Key, k: Key)
    requires FiledAt(s.reg, k)
    ensures FiledAt(ParkOne(s, j).reg, k)
  {
    hide ClearStale, Requested, Vanished;
  }

  lemma RetireIsSubset(s: State, k: Key)
    ensures k in Retire(s).reg ==> k in s.reg && Retire(s).reg[k] == s.reg[k]
  {
    hide RemoveAll, Vanished;
  }

  lemma {:induction false} VanishingFiles(s: State, now: Instant, reset: bool, visit: Visit, k: Key)
    requires FiledAt(s.reg, k)
    ensures FiledAt(WithoutVanished(s, now, reset, visit).reg, k)
  {
    hide ConfirmDestroys, Retire, ParkVanished, LastSeen;
    var s3 := ConfirmDestroys(NoteWindowSpaces(s, now));
    if !reset {
      RetireIsSubset(s3, k);
      ParkFiles(Retire(s3), visit.keys, k);
    }
  }

  lemma {:induction false} BindOneFiles(s: State, a: Awaited, now: Instant, visit: Visit, k: Key)
    requires s.view.WellKeyed() && FiledAt(s.reg, k)
    ensures FiledAt(BindOne(s, a, now, visit).reg, k)
  {
    hide Released, BindTo, Candidates, View.WellKeyed, Expired, Aged;
    var b := Aged(a, now);
    if b.key in s.reg {
      CandidatesKeyed(s, b);
    }
  }

  lemma {:induction false} BindAllFiles(s: State, todo: seq<Awaited>, now: Instant, visit: Visit, k: Key)
    requires s.view.WellKeyed() && FiledAt(s.reg, k)
    ensures FiledAt(BindAll(s, todo, now, visit).reg, k)
    decreases |todo|
  {
    hide BindOne, View.WellKeyed, FiledAt;
    if todo != [] {
      BindOneFiles(s, todo[0], now, visit, k);
      BindAllFiles(BindOne(s, todo[0], now, visit), todo[1..], now, visit, k);
    }
  }

  lemma EnsureFiles(s: State, j: Key, k: Key)
    requires FiledAt(s.reg, k)
    ensures FiledAt(EnsureDynamic(s, j).reg, k)
  {
    hide NextOrdinal;
  }

  lemma AdoptOneFiles(s: State, x: SpaceId, k: Key)
    requires x in s.view.spaces && FiledAt(s.reg, k)
    ensures FiledAt(AdoptOne(s, x).reg, k)
  {
    hide NextName, NextOrdinal, EnsureDynamic;
    var j := NextName(s.reg, s.view.spaces[x].display);
    if j.Some? {
      EnsureFiles(s, j.value, k);
    }
  }

  lemma {:induction false} AdoptAllFiles(s: State, xs: seq<SpaceId>, k: Key)
    requires (forall x | x in xs :: x in s.view.spaces) && FiledAt(s.reg, k)
    ensures FiledAt(AdoptAll(s, xs).reg, k)
    decreases |xs|
  {
    hide AdoptOne, FiledAt;
    if xs != [] {
      AdoptOneFiles(s, xs[0], k);
      AdoptAllFiles(AdoptOne(s, xs[0]), xs[1..], k);
    }
  }

  lemma {:induction false} ObserveFiles(s: State, now: Instant, k: Key)
    requires s.view.WellKeyed() && FiledAt(s.reg, k)
    ensures FiledAt(ObserveExternal(s, now).reg, k)
  {
    hide View.WellKeyed, StillExternal, AdoptAll, Adoptable, GraceSurplus, FiledAt;
    var s2 := GraceSurplus(s.(external := StillExternal(s)), now);
    if s.initialized && s.awaited == [] {
      AdoptAllFiles(s2, Adoptable(s2), k);
    }
  }

  lemma {:induction false} SettlingFiles(s: State, previous: map<WindowId, Window>, now: Instant, reset: bool, visit: Visit, k: Key)
    requires s.view.WellKeyed() && FiledAt(s.reg, k)
    ensures FiledAt(SettledFrom(s, previous, now, reset, visit).reg, k)
  {
    hide ReconcileFullscreen, WithoutVanished, BindAll, ObserveExternal, View.WellKeyed, FiledAt;
    FullscreenFiles(s, previous, now, visit, k);
    var s2 := ReconcileFullscreen(s, previous, now, visit);
    VanishingFiles(s2, now, reset, visit, k);
    var s4 := WithoutVanished(s2, now, reset, visit);
    BindAllFiles(s4.(awaited := []), s4.awaited, now, visit, k);
    ObserveFiles(BindAwaited(s4, now, visit), now, k);
  }

  lemma {:induction false} SettledFiles(s: State, snap: Snapshot, now: Instant, visit: Visit, k: Key)
    requires snap.complete && snap.WellKeyed() && FiledAt(s.reg, k)
    ensures FiledAt(Settled(s, snap, now, visit).reg, k)
  {
    hide IsReset, SyncConfig, Settled, SettledFrom, FiledAt, Snapshot.WellKeyed, View.WellKeyed;
    SettledAfterSync(s, snap, now, visit);
    var s1 := Observe(if IsReset(s.view, snap) then VoidReservations(s) else s, snap);
    SyncFiles(s1, visit, k);
    SettlingFiles(SyncConfig(s1, visit), s.view.windows, now, IsReset(s.view, snap), visit, k);
  }

  lemma {:induction false} RemapFiles(s: State, visit: Visit, k: Key)
    requires s.view.WellKeyed() && FiledAt(s.reg, k)
    ensures FiledAt(RemapSlots(s, visit).0.reg, k)
  {
    if s.placement.None? {
      var free := s.reg - Held(s);
      RemapPieces(s, visit);
      if k in free {
        ReboundChangesBacking(free, SlotSpaces(s), s.view.displays.Keys, k);
      }
      hide Remapped, RemapSlots, State.Expecting;
    }
  }

  lemma {:induction false} AdvanceFiles(s: State, now: Instant, visit: Visit, k: Key)
    requires s.view.WellKeyed() && FiledAt(s.reg, k)
    ensures FiledAt(Advance(s, now, visit).0.reg, k)
  {
    hide ReconcilePlacement, Rebind, GraceSurplus, DestroyEmpty, FulfillQueues, RequestMissing, TryStart, HealIfIdle, MovedKeys, Ascending;
    hide View.WellKeyed, State.Quiet, NoTopology, Strangers;
    RebindFiles(ReconcilePlacement(s, now).0, visit, k);
  }

  lemma RebindFiles(s: State, visit: Visit, k: Key)
    requires s.view.WellKeyed() && FiledAt(s.reg, k)
    ensures FiledAt(Rebind(s, visit).0.reg, k)
  {
    hide RemapSlots, MoveTrees, Reattach, View.WellKeyed, FiledAt;
    RemapFiles(s, visit, k);
  }

  lemma {:induction false} LookFiles(s: State, snap: Snapshot, now: Instant, visit: Visit, k: Key)
    requires snap.WellKeyed() && FiledAt(s.reg, k)
    ensures FiledAt(SnapshotStep(s, snap, now, visit).0.reg, k)
  {
    hide Settled, Advance, FiledAt, Snapshot.WellKeyed, View.WellKeyed;
    if snap.complete {
      SettledFiles(s, snap, now, visit, k);
      AdvanceFiles(Settled(s, snap, now, visit), now, visit, k);
    }
  }

  // ------------------------------------------------------------------ runs

  lemma {:induction false} RequestFiles(s: State, d: DisplayId, name: string, now: Instant, k: Key)
    requires s.view.WellKeyed() && FiledAt(s.reg, k)
    ensures FiledAt(RequestCreation(s, d, name, now).0.reg, k)
  {
    hide EnsureDynamic, Anchor, TryStart, State.Expecting, View.WellKeyed;
    EnsureFiles(s, Key(d, name), k);
  }

  lemma {:induction false} CommandFiles(s: State, e: Event, now: Instant, k: Key)
    requires s.view.WellKeyed() && e.WellKeyed() && !e.Look? && FiledAt(s.reg, k)
    ensures FiledAt(Respond(s, e, now).0.reg, k)
  {
    hide SnapshotStep, RequestCreation, ClearStale, SpaceDestroyed, QueuedFocus, QueuedMove, Reachable, View.WellKeyed, Snapshot.WellKeyed;
    match e
    case Focus(d, name) =>
      var queued := s.(focusQueue := QueuedFocus(s.focusQueue, Key(d, name)));
      RequestFiles(if Key(d, name) in s.reg then ClearStale(queued, Key(d, name)) else queued, d, name, now, k);
    case Send(w, d, name) =>
      var queued := s.(moveQueue := QueuedMove(s.moveQueue, w, Key(d, name)));
      RequestFiles(if Key(d, name) in s.reg then ClearStale(queued, Key(d, name)) else queued, d, name, now, k);
    case SpaceGone(x) =>
    case WindowGone(w) =>
    case DisplayGone(d) =>
    case Woken =>
  }

  lemma {:induction false} RespondFiles(s: State, t: Turn, k: Key)
    requires s.view.WellKeyed() && t.Valid() && FiledAt(s.reg, k)
    ensures FiledAt(Respond(s, t.event, t.now).0.reg, k)
  {
    hide *;
    AnyEvent(t);
    if t.event.Look? {
      LookAnswer(s, t.event, t.now);
      LookFiles(s, t.event.snap, t.now, t.event.visit, k);
    } else {
      CommandFiles(s, t.event, t.now, k);
    }
  }

  lemma {:induction false} TurnKeepsFiled(s: State, t: Turn)
    requires s.view.WellKeyed() && t.Valid() && Filed(s.reg)
    ensures Filed(After(s, t).reg)
  {
    hide Respond, Batch, FiledAt, Filed;
    FiledEverywhere(s.reg);
    forall k ensures FiledAt(After(s, t).reg, k) {
      RespondFiles(s, t, k);
    }
    FiledEverywhere(After(s, t).reg);
  }

  lemma {:induction false} RunKeepsFiled(s: State, turns: seq<Turn>)
    requires s.view.WellKeyed() && ValidTurns(turns) && Filed(s.reg)
    ensures Filed(AfterAll(s, turns).reg)
    decreases |turns|
  {
    hide After, Filed, Turn.Valid;
    if turns != [] {
      var n := |turns| - 1;
      assert forall t | t in turns[..n] :: t in turns;
      RunKeepsFiled(s, turns[..n]);
      TurnKeepsFiled(AfterAll(s, turns[..n]), turns[n]);
    }
  }

  /** From any start on a saved registry that is filed right, so is every one the engine reaches. */
  lemma {:induction false} AlwaysFiled(p: Persisted, caps: Capabilities, templates: seq<Template>, turns: seq<Turn>)
    requires Filed(p.workspaces) && ValidTurns(turns) && LoadState(p, caps, templates).view.WellKeyed()
    ensures Filed(AfterAll(LoadState(p, caps, templates), turns).reg)
  {
    assert LoadState(p, caps, templates).reg == p.workspaces;
    hide LoadState, AfterAll, Filed;
    RunKeepsFiled(LoadState(p, caps, templates), turns);
  }
}
