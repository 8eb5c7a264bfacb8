/** What forgetting a workspace leaves behind, and what the events between looks change. */
module Events {
  import opened Basics
  import opened Geometry
  import opened Observed
  import opened Workspace
  import opened Lifecycle
  import opened Runs
  import opened Spared
  import opened Intents
  import opened Vanishing

  // -------------------------------------------------------------- forgetting

  /** Nothing the workspace owned is left: its name, tree, grace and intents are gone, and the tree on the Space it showed. */
  ghost predicate LeavesNothing(s: State, r: State, k: Key) {
    && Forgotten(r, k) && k !in r.parked && k !in r.grace
    && (k in s.reg && s.reg[k].ActiveSpace().Some? ==> s.reg[k].ActiveSpace().value !in r.layouts)
  }

  /** Another workspace and a Space none of the forgotten showed are as they were. */
  ghost predicate LeavesAlone(s: State, r: State, j: Key) {
    && (j in s.reg <==> j in r.reg) && (j in s.reg ==> r.reg[j] == s.reg[j])
    && (j in s.parked <==> j in r.parked) && (j in s.parked ==> r.parked[j] == s.parked[j])
    && (j in s.grace <==> j in r.grace) && (j in s.grace ==> r.grace[j] == s.grace[j])
    && (forall n: nat :: (j, n) in s.focusQueue <==> (j, n) in r.focusQueue)
    && (forall w: WindowId :: (w, j) in s.moveQueue <==> (w, j) in r.moveQueue)
  }

  lemma {:induction false} ForgettingLeavesNothing(s: State, ks: set<Key>, k: Key)
    requires k in ks
    ensures LeavesNothing(s, RemoveAll(s, ks), k)
  {
    hide KeepFocus, KeepMoves;
    FocusDropped(s.focusQueue, ks);
    MovesDropped(s.moveQueue, ks);
    if k in s.reg && s.reg[k].ActiveSpace().Some? {
      assert s.reg[k].ActiveSpace().value in SpacesOf(s.reg, ks);
    }
  }

  lemma {:induction false} ForgettingLeavesAlone(s: State, ks: set<Key>, j: Key)
    requires j !in ks
    ensures LeavesAlone(s, RemoveAll(s, ks), j)
  {
    hide KeepFocus, KeepMoves, SpacesOf;
    forall n: nat ensures (j, n) in s.focusQueue <==> (j, n) in KeepFocus(s.focusQueue, ks) {
      FocusSame(s.focusQueue, ks, (j, n));
    }
    forall w: WindowId ensures (w, j) in s.moveQueue <==> (w, j) in KeepMoves(s.moveQueue, ks) {
      MoveSame(s.moveQueue, ks, (w, j));
    }
  }

  lemma {:induction false} FocusSame(q: seq<(Key, nat)>, gone: set<Key>, f: (Key, nat))
    requires f.0 !in gone
    ensures f in q <==> f in KeepFocus(q, gone)
  {
    if q != [] {
      FocusSame(q[1..], gone, f);
    }
  }

  lemma {:induction false} MoveSame(q: seq<(WindowId, Key)>, gone: set<Key>, m: (WindowId, Key))
    requires m.1 !in gone
    ensures m in q <==> m in KeepMoves(q, gone)
  {
    if q != [] {
      MoveSame(q[1..], gone, m);
    }
  }

  /** Trees on Spaces nobody forgotten showed stay. */
  lemma {:induction false} ForgettingKeepsTrees(s: State, ks: set<Key>, x: SpaceId)
    requires forall k | k in ks && k in s.reg :: s.reg[k].ActiveSpace() != Some(x)
    ensures var r := RemoveAll(s, ks); (x in s.layouts <==> x in r.layouts) && (x in s.layouts ==> r.layouts[x] == s.layouts[x])
  {
    hide KeepFocus, KeepMoves;
  }

  // ------------------------------------------------------------------- events

  /**
   * An event that says a Space is gone takes it out of view; if the engine had condemned it, the
   * workspace it was condemned with is forgotten at once, and every other one left alone.
   */
  lemma {:induction false} GoneForgetsItsWorkspace(s: State, x: SpaceId, j: Key)
    ensures var r := SpaceDestroyed(s, x);
            && x !in r.view.spaces && x !in r.pendingDestroy && r.view.windows == s.view.windows && r.view.displays == s.view.displays
            && (x in s.pendingDestroy ==> LeavesNothing(s, r, s.pendingDestroy[x]))
            && (x !in s.pendingDestroy || s.pendingDestroy[x] != j ==> LeavesAlone(s, r, j))
  {
    hide LeavesNothing, LeavesAlone, RemoveAll;
    var s1 := s.(view := s.view.(spaces := s.view.spaces - {x}));
    if x in s.pendingDestroy {
      var s2 := s1.(pendingDestroy := s1.pendingDestroy - {x});
      ForgettingLeavesNothing(s2, {s.pendingDestroy[x]}, s.pendingDestroy[x]);
      SameBefore(s, s2, RemoveAll(s2, {s.pendingDestroy[x]}), s.pendingDestroy[x]);
      RemovedView(s2, {s.pendingDestroy[x]});
      if s.pendingDestroy[x] != j {
        ForgettingLeavesAlone(s2, {s.pendingDestroy[x]}, j);
        AloneBefore(s, s2, RemoveAll(s2, {s.pendingDestroy[x]}), j);
      }
    } else {
      NothingHappened(s, s1, j);
    }
  }

  lemma RemovedView(s: State, ks: set<Key>)
    ensures RemoveAll(s, ks).view == s.view && RemoveAll(s, ks).pendingDestroy == s.pendingDestroy
  {
    hide RemoveAll;
  }

  lemma SameBefore(s: State, t: State, r: State, k: Key)
    requires LeavesNothing(t, r, k) && t.reg == s.reg
    ensures LeavesNothing(s, r, k)
  {
    hide Forgotten;
  }

  lemma AloneBefore(s: State, t: State, r: State, j: Key)
    requires LeavesAlone(t, r, j) && t.reg == s.reg && t.parked == s.parked && t.grace == s.grace
    requires t.focusQueue == s.focusQueue && t.moveQueue == s.moveQueue
    ensures LeavesAlone(s, r, j)
  {
  }

  lemma NothingHappened(s: State, r: State, j: Key)
    requires r.reg == s.reg && r.parked == s.parked && r.grace == s.grace && r.focusQueue == s.focusQueue && r.moveQueue == s.moveQueue
    ensures LeavesAlone(s, r, j)
  {
  }

  /** Window and display events take what is gone out of view; a lost display, and a wake, make observation stale. */
  lemma {:induction false} GoneIsOutOfView(s: State, e: Event, now: Instant)
    requires s.view.WellKeyed() && (e.WindowGone? || e.DisplayGone? || e.Woken?)
    ensures var (r, actions) := Respond(s, e, now);
            && actions == [] && r == s.(view := r.view) && r.view.spaces == s.view.spaces
            && (forall w | w in s.view.windows && e != WindowGone(w) :: w in r.view.windows && r.view.windows[w] == s.view.windows[w])
            && (forall w | w in r.view.windows :: w in s.view.windows && e != WindowGone(w))
            && (forall d | d in s.view.displays && e != DisplayGone(d) :: d in r.view.displays && r.view.displays[d] == s.view.displays[d])
            && (forall d | d in r.view.displays :: d in s.view.displays && e != DisplayGone(d))
            && (if e.WindowGone? then r.view.generation == s.view.generation && r.view.refreshRequired == s.view.refreshRequired
                else r.view.generation > s.view.generation && r.view.refreshRequired)
  {
    hide SnapshotStep, FocusWorkspace, MoveToWorkspace, SpaceDestroyed, View.WellKeyed;
  }

  /** A look at part of the desk adds what it shows and changes nothing else; a complete one is what is in view from then on. */
  lemma {:induction false} LooksAreTakenIn(s: State, snap: Snapshot, now: Instant, visit: Visit)
    requires snap.WellKeyed() && s.view.WellKeyed()
    ensures var (r, actions) := SnapshotStep(s, snap, now, visit);
            if snap.complete then
              r.view.windows == snap.windows && r.view.spaces == snap.spaces && r.view.displays == snap.displays
              && !r.view.refreshRequired && r.view.generation == s.view.generation
            else
              && actions == [] && r == s.(view := r.view)
              && r.view.generation == s.view.generation && r.view.refreshRequired == s.view.refreshRequired
              && (forall w :: w in r.view.windows <==> w in s.view.windows || w in snap.windows)
              && (forall w | w in r.view.windows :: r.view.windows[w] == if w in snap.windows then snap.windows[w] else s.view.windows[w])
              && (forall x :: x in r.view.spaces <==> x in s.view.spaces || x in snap.spaces)
              && (forall x | x in r.view.spaces :: r.view.spaces[x] == if x in snap.spaces then snap.spaces[x] else s.view.spaces[x])
              && (forall d :: d in r.view.displays <==> d in s.view.displays || d in snap.displays)
              && (forall d | d in r.view.displays :: r.view.displays[d] == if d in snap.displays then snap.displays[d] else s.view.displays[d])
  {
    if snap.complete {
      CompleteInView(s, snap, now, visit);
    } else {
      PartInView(s, snap, now, visit);
    }
  }

  lemma PartInView(s: State, snap: Snapshot, now: Instant, visit: Visit)
    requires snap.WellKeyed() && !snap.complete
    ensures SnapshotStep(s, snap, now, visit) == (Observe(s, snap), [])
  {
    hide Settled, Advance, Observe;
  }

  lemma {:induction false} CompleteInView(s: State, snap: Snapshot, now: Instant, visit: Visit)
    requires snap.WellKeyed() && snap.complete
    ensures var v := SnapshotStep(s, snap, now, visit).0.view;
            && v.windows == snap.windows && v.spaces == snap.spaces && v.displays == snap.displays
            && !v.refreshRequired && v.generation == s.view.generation
  {
    hide *;
    CompleteStep(s, snap, now, visit);
    SettledView(s, snap, now, visit);
    AdvanceAccounts(Settled(s, snap, now, visit), now, visit);
  }

  lemma SettledView(s: State, snap: Snapshot, now: Instant, visit: Visit)
    requires snap.WellKeyed() && snap.complete
    ensures var v := Settled(s, snap, now, visit).view;
            && v.windows == snap.windows && v.spaces == snap.spaces && v.displays == snap.displays
            && !v.refreshRequired && v.generation == s.view.generation
  {
    SettledAfterSync(s, snap, now, visit);
    hide IsReset, SyncConfig, ReconcileFullscreen, WithoutVanished, BindAwaited, ObserveExternal, Settled, View.WellKeyed, Snapshot.WellKeyed, Requeue;
  }

  // ----------------------------------------------------------------- dead bindings

  /** A command for a workspace whose Space is out of view parks the tree it had there, for the Space it asks for. */
  lemma {:induction false} CommandsKeepTree(s: State, e: Event, now: Instant, x: SpaceId)
    requires s.view.WellKeyed() && e.WellKeyed() && (e.Focus? || e.Send?)
    requires var k := Key(e.display, e.name);
             k in s.reg && s.reg[k].ActiveSpace() == Some(x) && x !in s.view.spaces && x in s.layouts
    ensures var k, r := Key(e.display, e.name), Respond(s, e, now).0;
            && k in r.parked && r.parked[k] == s.layouts[x] && x !in r.layouts
            && (forall y | y in s.layouts && y != x :: y in r.layouts && r.layouts[y] == s.layouts[y])
            && (forall j | j in s.parked && j != k :: j in r.parked && r.parked[j] == s.parked[j])
  {
    hide SnapshotStep, RequestCreation, ClearStale, QueuedFocus, QueuedMove, SpaceDestroyed, View.WellKeyed, Snapshot.WellKeyed;
    var k := Key(e.display, e.name);
    var queued := if e.Focus? then s.(focusQueue := QueuedFocus(s.focusQueue, k)) else s.(moveQueue := QueuedMove(s.moveQueue, e.window, k));
    ClearingParks(queued, k, x);
    RequestKeepsTrees(ClearStale(queued, k), e.display, e.name, now);
  }

  lemma ClearingParks(s: State, k: Key, x: SpaceId)
    requires k in s.reg && s.reg[k].ActiveSpace() == Some(x) && x in s.layouts
    ensures var r := ClearStale(s, k);
            && k in r.parked && r.parked[k] == s.layouts[x] && x !in r.layouts && r.view == s.view
            && (forall y | y in s.layouts && y != x :: y in r.layouts && r.layouts[y] == s.layouts[y])
            && (forall j | j in s.parked && j != k :: j in r.parked && r.parked[j] == s.parked[j])
  {
  }

  lemma RequestKeepsTrees(s: State, d: DisplayId, name: string, now: Instant)
    requires s.view.WellKeyed()
    ensures var r := RequestCreation(s, d, name, now).0; r.layouts == s.layouts && r.parked == s.parked
  {
    hide *;
    RequestIsStart(s, d, name, now);
    EnsureKeepsTrees(s, Key(d, name));
    var s1 := EnsureDynamic(s, Key(d, name));
    if RequestCreation(s, d, name, now) != (s1, []) {
      StartKeepsTrees(s1, now);
      StartKeepsTrees(s1.(requests := s1.requests + [Request(Key(d, name), d)]), now);
    }
  }

  lemma EnsureKeepsTrees(s: State, k: Key)
    ensures EnsureDynamic(s, k).layouts == s.layouts && EnsureDynamic(s, k).parked == s.parked
  {
    hide NextOrdinal;
  }

  lemma StartKeepsTrees(s: State, now: Instant)
    requires s.view.WellKeyed()
    ensures TryStart(s, now).0.layouts == s.layouts && TryStart(s, now).0.parked == s.parked
  {
    hide TryStart, State.Quiet, View.WellKeyed;
  }
}
