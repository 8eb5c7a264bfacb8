/** The Space a native fullscreen window comes back to: safe while it is away, returned when it is back. */
module RestoreSpace {
  import opened Basics
  import opened Geometry
  import opened Observed
  import opened Workspace
  import opened Remap
  import opened Lifecycle
  import opened Runs
  import opened Creation
  import opened LastSpace
  import opened Homes
  import opened Staying

  // ----------------------------------------------------------- never destroyed

  /** No workspace is coming back to the Space. */
  ghost predicate NobodysReturn(reg: Registry, x: SpaceId) {
    forall k | k in reg :: reg[k].RestoreSpace() != Some(x)
  }

  lemma {:induction false} CollectedIsNobodysReturn(s: State, moved: set<Key>, now: Instant)
    requires Distinct(s.reg) && DestroyEmpty(s, moved, now).1 != []
    ensures NobodysReturn(s.reg, DestroyEmpty(s, moved, now).1[0].space)
  {
    hide Swept, Stale, Condemned, State.Quiet, Doomed;
    var (k, x) := Condemned(s, moved, now).value;
    forall j | j in s.reg ensures s.reg[j].RestoreSpace() != Some(x) {
      assert s.reg[k].Home() == Some(x);
    }
  }

  lemma {:induction false} HealedIsNobodysReturn(s: State, now: Instant)
    requires s.view.WellKeyed() && NextHeal(s, now).Some?
    ensures NobodysReturn(s.reg, NextHeal(s, now).value)
  {
    OrphanIsExpendable(s, now);
    hide NextHeal;
    var x := NextHeal(s, now).value;
    forall k | k in s.reg ensures s.reg[k].RestoreSpace() != Some(x) {
      assert !s.reg[k].Holds(x);
    }
  }

  lemma {:induction false} AdvanceSparesReturns(s: State, now: Instant, visit: Visit, x: SpaceId)
    requires s.view.WellKeyed() && Tame(s) && FullscreenShown(s) && (s.awaited != [] ==> StrangersSetAside(s))
    requires DestroySpace(x) in Advance(s, now, visit).1
    ensures NobodysReturn(Advance(s, now, visit).0.reg, x)
  {
    hide ReconcilePlacement, Rebind, GraceSurplus, DestroyEmpty, FulfillQueues, RequestMissing, TryStart, HealIfIdle, NextHeal, MovedKeys, Ascending;
    hide View.WellKeyed, State.Quiet, Tame, FullscreenShown, StrangersSetAside, NoTopology, Strangers, NobodysReturn, Distinct;
    var (s1, a1) := ReconcilePlacement(s, now);
    OnlyPlacement(s, s1);
    var (s2, moves) := Rebind(s1, visit);
    RebindKeepsTame(s1, visit);
    var g := GraceSurplus(s2, now);
    TameIsDistinct(s2);
    var (s3, a3) := DestroyEmpty(g, MovedKeys(moves), now);
    var (s4, a4) := FulfillQueues(s3, now);
    var s5 := RequestMissing(s4, Ascending(s4.view.displays.Keys));
    var (s6, a6) := TryStart(s5, now);
    HealTarget(s6, a1 + a3 + a4 + a6, now);
    var healed := HealIfIdle(s6, a1 + a3 + a4 + a6, now).1;
    WhoDestroys(a1, a3, a4, a6, if healed == a1 + a3 + a4 + a6 then None else NextHeal(s6, now), x);
    if a3 != [] && a3[0].space == x {
      CollectedIsNobodysReturn(g, MovedKeys(moves), now);
      FewerReturns(g.reg, s3.reg, x);
    } else {
      HealedIsNobodysReturn(s6, now);
    }
  }

  /** A Space some workspace is coming back to is neither collected nor healed away. */
  lemma {:induction false} RestoreSpaceIsNeverDestroyed(s: State, snap: Snapshot, now: Instant, visit: Visit, x: SpaceId)
    requires snap.WellKeyed() && Tame(s) && s.initialized && Orderly(s, snap)
    requires DestroySpace(x) in SnapshotStep(s, snap, now, visit).1
    ensures NobodysReturn(SnapshotStep(s, snap, now, visit).0.reg, x)
  {
    hide Settled, Advance, Tame, Orderly, FullscreenShown, StrangersSetAside, NobodysReturn;
    if snap.complete {
      SettleKeepsTame(s, snap, now, visit);
      AdvanceSparesReturns(Settled(s, snap, now, visit), now, visit, x);
    }
  }

  lemma FewerReturns(before: Registry, after: Registry, x: SpaceId)
    requires NobodysReturn(before, x) && forall k | k in after :: k in before && after[k] == before[k]
    ensures NobodysReturn(after, x)
  {
  }

  // ------------------------------------------------------------------ returned

  /** The workspace's fullscreen window is gone, or its fullscreen Space is. */
  predicate LostIn(b: Backing, snap: Snapshot)
    requires b.Fullscreen?
  {
    || b.window !in snap.windows
    || b.fullscreenSpace !in snap.spaces
    || !snap.spaces[b.fullscreenSpace].isFullscreen
    || snap.spaces[b.fullscreenSpace].isSystem
  }

  /** What a fullscreen workspace is left with: itself, exactly its own Space, or nothing. */
  function Returned(b: Backing, snap: Snapshot): Option<Backing>
    requires b.Fullscreen?
  {
    if !LostIn(b, snap) then Some(b)
    else if b.restoreSpace in snap.spaces && snap.spaces[b.restoreSpace].Ordinary() then Some(Normal(b.restoreSpace))
    else None
  }

  lemma {:induction false} FullscreenReturns(s: State, previous: map<WindowId, Window>, now: Instant, snap: Snapshot, k: Key)
    requires k in s.reg && s.reg[k].IsFullscreen() && s.view.spaces == snap.spaces && s.view.windows == snap.windows
    ensures var r := FullscreenRegistry(s, previous, now); k in r && r[k].backing == Returned(s.reg[k].backing.value, snap)
  {
    FullscreenEntry(s, previous, now, k);
    hide FullscreenRegistry, Entering;
  }

  lemma {:induction false} ReturnedIsPresent(b: Backing, snap: Snapshot)
    requires b.Fullscreen?
    ensures var r := Returned(b, snap); r.Some? ==> r.value.ActiveSpace() in snap.spaces
  {
  }

  /** Dealing with what vanished forgets a workspace, or leaves it alone if its Space is there. */
  lemma {:induction false} PresentStays(s: State, now: Instant, reset: bool, visit: Visit, k: Key)
    requires k in s.reg ==> !Vanished(s, s.reg[k])
    ensures var r := WithoutVanished(s, now, reset, visit); k in r.reg ==> k in s.reg && r.reg[k] == s.reg[k]
  {
    hide NoteWindowSpaces, ConfirmDestroys, Retire, ParkVanished;
    var s3 := ConfirmDestroys(NoteWindowSpaces(s, now));
    ParkAddsNone(Retire(s3), visit.keys);
    if k in Retire(s3).reg {
      ParkKeepsPresent(Retire(s3), visit.keys, k);
    }
  }

  lemma {:induction false} OthersKeep(s: State, r: State, k: Key)
    requires BindsOnly(s, s.awaited, r) && forall a | a in s.awaited :: a.key != k
    ensures k in r.reg ==> k in s.reg && r.reg[k] == s.reg[k]
  {
    if k in r.reg {
      assert BoundAfresh(s, s.awaited, r, k);
    }
  }

  /**
   * A fullscreen workspace a snapshot does not forget keeps its fullscreen Space while that and its
   * window last; when either goes it is left with exactly the Space it came from if that is still
   * an ordinary one, and with none otherwise. It is not forgotten while its display and that Space
   * are there and no destroy made for it is being confirmed.
   */
  lemma {:induction false} LossReturnsRestoreSpace(s: State, snap: Snapshot, now: Instant, visit: Visit, k: Key)
    requires snap.complete && snap.WellKeyed() && Tame(s) && k in s.reg && s.reg[k].IsFullscreen()
    ensures var r := Gathered(s, snap, now, visit);
            k in r.reg ==> r.reg[k].backing == Returned(s.reg[k].backing.value, snap)
    ensures !IsReset(s.view, snap) && Lasting(s, snap, k) ==> k in Gathered(s, snap, now, visit).reg
  {
    ReturnedWhenKept(s, snap, now, visit, k);
    hide *;
    if !IsReset(s.view, snap) && Lasting(s, snap, k) {
      LastingStay(s, snap, now, visit, k);
    }
  }

  lemma {:induction false} ReturnedWhenKept(s: State, snap: Snapshot, now: Instant, visit: Visit, k: Key)
    requires snap.complete && snap.WellKeyed() && Tame(s) && k in s.reg && s.reg[k].IsFullscreen()
    ensures var r := Gathered(s, snap, now, visit);
            k in r.reg ==> r.reg[k].backing == Returned(s.reg[k].backing.value, snap)
  {
    var reset := IsReset(s.view, snap);
    var start := if reset then VoidReservations(s) else s;
    NotAwaited(s, start, k);
    assert Observe(start, snap).view.WellKeyed();
    hide State.Expecting, WaitersUnbacked, WaitsOnce, Predates, Distinct;
    hide IsReset, SyncConfig, ReconcileFullscreen, WithoutVanished, BindAwaited;
    hide View.WellKeyed, Snapshot.WellKeyed, Tame, VoidReservations, Returned;
    var s0 := Observe(start, snap);
    if k in SyncConfig(s0, visit).reg {
      SyncKeeps(s0, visit, k);
    }
    ReturnedByStages(SyncConfig(s0, visit), s.view.windows, snap, now, reset, visit, k, s.reg[k].backing.value);
  }

  lemma NotAwaited(s: State, start: State, k: Key)
    requires Tame(s) && k in s.reg && s.reg[k].backing.Some? && (start.awaited == s.awaited || start.awaited == [])
    ensures forall a | a in start.awaited :: a.key != k
  {
    assert !s.Expecting(k);
  }

  lemma {:induction false} ReturnedByStages(
      s: State, previous: map<WindowId, Window>, snap: Snapshot, now: Instant, reset: bool, visit: Visit, k: Key, b: Backing)
    requires b.Fullscreen? && (k in s.reg ==> s.reg[k].backing == Some(b))
    requires s.view.WellKeyed() && s.view.spaces == snap.spaces && s.view.windows == snap.windows
    requires forall a | a in s.awaited :: a.key != k
    ensures var r := BindAwaited(WithoutVanished(ReconcileFullscreen(s, previous, now, visit), now, reset, visit), now, visit);
            k in r.reg ==> r.reg[k].backing == Returned(b, snap)
  {
    if k in s.reg {
      FullscreenReturns(s, previous, now, snap, k);
    }
    OnlyRegistered(s, previous, now, k);
    ReturnedIsPresent(b, snap);
    hide ReconcileFullscreen, FullscreenRegistry, WithoutVanished, BindAwaited, View.WellKeyed, BindsOnly, Returned;
    var s2 := ReconcileFullscreen(s, previous, now, visit);
    var s4 := WithoutVanished(s2, now, reset, visit);
    PresentStays(s2, now, reset, visit, k);
    AwaitedBindsOnlyNewSpaces(s4, now, visit);
    OthersKeep(s4, BindAwaited(s4, now, visit), k);
  }

  lemma OnlyRegistered(s: State, previous: map<WindowId, Window>, now: Instant, k: Key)
    ensures k in FullscreenRegistry(s, previous, now) <==> k in s.reg
  {
  }
}
