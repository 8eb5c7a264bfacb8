/**
 * Whom a snapshot pass spares: configured persistent workspaces and workspaces somebody asks for
 * are kept, and no Space they hold is destroyed.
 */
module Spared {
  import opened Basics
  import opened Geometry
  import opened Observed
  import opened Workspace
  import opened Remap
  import opened Lifecycle
  import opened Runs
  import opened Creation
  import opened LastSpace
  import opened Homes
  import opened Staying
  import opened ParkedTrees

  // --------------------------------------------------------- who is protected

  /** A focus or a window is on its way to the workspace, or it has been used a moment ago. */
  ghost predicate Wanted(s: State, k: Key, now: Instant) {
    || (exists f :: f in s.focusQueue && f.0 == k)
    || (exists m :: m in s.moveQueue && m.1 == k)
    || (k in s.grace && s.grace[k] > now)
  }

  /** Persistent, and no template of its name says otherwise. */
  ghost predicate Steadfast(s: State, k: Key) {
    k in s.reg && s.reg[k].persistent && forall t | t in s.templates && t.name == k.name :: t.persistent
  }

  /** Whatever is queued for the workspace still is, in front if it was, and its grace is what it was or what it gets now. */
  ghost predicate IntentsUpheld(s: State, r: State, k: Key, now: Instant) {
    && (forall f | f in s.focusQueue && f.0 == k :: f in r.focusQueue)
    && (forall m | m in s.moveQueue && m.1 == k :: m in r.moveQueue)
    && (s.focusQueue != [] && s.focusQueue[0].0 == k ==> r.focusQueue != [] && r.focusQueue[0] == s.focusQueue[0])
    && (s.moveQueue != [] && s.moveQueue[0].1 == k ==> r.moveQueue != [] && r.moveQueue[0] == s.moveQueue[0])
    && (k in s.grace && s.grace[k] > now ==> k in r.grace && r.grace[k] in {s.grace[k], now + DYNAMIC_GRACE})
  }

  lemma IntentsWanted(s: State, r: State, k: Key, now: Instant)
    requires IntentsUpheld(s, r, k, now) && Wanted(s, k, now)
    ensures Wanted(r, k, now)
  {
  }

  /** What a stage leaves of a workspace: it is there, and as protected as it was. */
  ghost predicate Upheld(s: State, r: State, k: Key, now: Instant)
    requires k in s.reg
  {
    && k in r.reg && r.templates == s.templates && r.reg[k].display == s.reg[k].display
    && (r.reg[k].dynamic ==> s.reg[k].dynamic)
    && (Steadfast(s, k) ==> Steadfast(r, k)) && IntentsUpheld(s, r, k, now)
  }

  lemma IntentsOn(a: State, b: State, c: State, k: Key, now: Instant)
    requires IntentsUpheld(a, b, k, now) && IntentsUpheld(b, c, k, now)
    ensures IntentsUpheld(a, c, k, now)
  {
  }

  lemma UpheldOn(a: State, b: State, c: State, k: Key, now: Instant)
    requires k in a.reg && Upheld(a, b, k, now) && Upheld(b, c, k, now)
    ensures Upheld(a, c, k, now)
  {
    hide Steadfast, IntentsUpheld;
    IntentsOn(a, b, c, k, now);
  }

  /** Nothing a workspace's protection rests on has changed. */
  lemma SameProtection(s: State, r: State, k: Key, now: Instant)
    requires k in s.reg && k in r.reg && r.templates == s.templates && r.reg[k].display == s.reg[k].display
    requires (r.reg[k].dynamic ==> s.reg[k].dynamic) && (s.reg[k].persistent ==> r.reg[k].persistent)
    requires r.focusQueue == s.focusQueue && r.moveQueue == s.moveQueue
    requires k in s.grace && s.grace[k] > now ==> k in r.grace && r.grace[k] in {s.grace[k], now + DYNAMIC_GRACE}
    ensures Upheld(s, r, k, now)
  {
  }

  lemma {:induction false} FocusKept(q: seq<(Key, nat)>, gone: set<Key>, f: (Key, nat))
    requires f in q && f.0 !in gone
    ensures f in KeepFocus(q, gone)
  {
    if f != q[0] {
      FocusKept(q[1..], gone, f);
    }
  }

  lemma {:induction false} MoveKept(q: seq<(WindowId, Key)>, gone: set<Key>, m: (WindowId, Key))
    requires m in q && m.1 !in gone
    ensures m in KeepMoves(q, gone)
  {
    if m != q[0] {
      MoveKept(q[1..], gone, m);
    }
  }

  lemma FrontKept(s: State, gone: set<Key>, k: Key)
    requires k !in gone
    ensures s.focusQueue != [] && s.focusQueue[0].0 == k ==> KeepFocus(s.focusQueue, gone) != [] && KeepFocus(s.focusQueue, gone)[0] == s.focusQueue[0]
    ensures s.moveQueue != [] && s.moveQueue[0].1 == k ==> KeepMoves(s.moveQueue, gone) != [] && KeepMoves(s.moveQueue, gone)[0] == s.moveQueue[0]
  {
  }

  /** Forgetting others touches nothing of a workspace's. */
  lemma {:induction false} ForgettingUpholds(s: State, ks: set<Key>, k: Key, now: Instant)
    requires k in s.reg && k !in ks
    ensures var r := RemoveAll(s, ks); Upheld(s, r, k, now) && r.reg[k] == s.reg[k]
  {
    hide SpacesOf, KeepFocus, KeepMoves;
    var r := RemoveAll(s, ks);
    FrontKept(s, ks, k);
    forall f | f in s.focusQueue && f.0 == k ensures f in r.focusQueue {
      FocusKept(s.focusQueue, ks, f);
    }
    forall m | m in s.moveQueue && m.1 == k ensures m in r.moveQueue {
      MoveKept(s.moveQueue, ks, m);
    }
  }

  // -------------------------------------------------- up to settled bindings

  lemma {:induction false} InstantiateLasts(reg: Registry, next: nat, t: Template, targets: seq<DisplayId>, k: Key)
    requires k in reg && reg[k].persistent && (t.name == k.name ==> t.persistent)
    ensures var r := Instantiate(reg, next, t, targets).0; k in r && r[k].persistent
    decreases |targets|
  {
    if targets != [] {
      var j := Key(targets[0], t.name);
      var (reg', next') :=
        if j in reg then (reg[j := reg[j].(persistent := t.persistent, dynamic := false)], next)
        else (reg[j := Entry(t.name, targets[0], t.persistent, false, next, None, None)], next + 1);
      InstantiateLasts(reg', next', t, targets[1..], k);
    }
  }

  lemma {:induction false} InstantiateAllLasts(reg: Registry, next: nat, ts: seq<Template>, view: View, order: seq<DisplayId>, k: Key)
    requires k in reg && reg[k].persistent && forall t | t in ts && t.name == k.name :: t.persistent
    ensures var r := InstantiateAll(reg, next, ts, view, order); k in r && r[k].persistent
    decreases |ts|
  {
    hide Instantiate, TargetsOf;
    if ts != [] {
      InstantiateLasts(reg, next, ts[0], TargetsOf(ts[0], view, order), k);
      var (reg', next') := Instantiate(reg, next, ts[0], TargetsOf(ts[0], view, order));
      InstantiateAllLasts(reg', next', ts[1..], view, order, k);
    }
  }

  lemma {:induction false} SyncLasts(s: State, visit: Visit, k: Key)
    requires Steadfast(s, k)
    ensures k in SyncConfig(s, visit).reg ==> SyncConfig(s, visit).reg[k].persistent
  {
    InstantiateAllLasts(s.reg, NextOrdinal(s.reg), s.templates, s.view, visit.displays, k);
    hide NextOrdinal, InstantiateAll;
  }

  lemma SyncKeepsQueues(s: State, visit: Visit)
    ensures var r := SyncConfig(s, visit); r.focusQueue == s.focusQueue && r.moveQueue == s.moveQueue && r.grace == s.grace
  {
    hide NextOrdinal, InstantiateAll, OnDisplays, SameFlight;
  }

  lemma {:induction false} SyncUpholds(s: State, visit: Visit, k: Key, now: Instant)
    requires k in s.reg && s.reg[k].display in s.view.displays
    ensures var r := SyncConfig(s, visit); Upheld(s, r, k, now) && r.reg[k].backing == s.reg[k].backing
  {
    hide SyncConfig;
    SyncKeeps(s, visit, k);
    SyncLowers(s, visit, k);
    SyncKeepsQueues(s, visit);
    if Steadfast(s, k) {
      SyncLasts(s, visit, k);
    }
  }

  /** Substitution changes what backs a workspace and nothing else; a Space that was there still is. */
  lemma {:induction false} SubstitutedIsThere(s: State, previous: map<WindowId, Window>, now: Instant, e: Entry)
    ensures var r := Substituted(s, previous, now, e);
            && r == e.(backing := r.backing)
            && ((ShowsNormal(e) ==> e.backing.value.space in s.view.spaces) ==> !Vanished(s, r))
  {
    hide CameFrom, OwnedFullscreen;
    if e.backing.Some? && e.backing.value.Normal? {
      var entering := Entering(s, previous, e.backing.value.space, now);
      if entering != {} {
        assert LeastWindow(entering) in entering;
      }
    }
  }

  lemma FullscreenKeepsQueues(s: State, previous: map<WindowId, Window>, now: Instant, visit: Visit, k: Key)
    ensures var r := ReconcileFullscreen(s, previous, now, visit);
            && r.focusQueue == s.focusQueue && r.moveQueue == s.moveQueue
            && (k in s.grace && s.grace[k] > now ==> k in r.grace && r.grace[k] in {s.grace[k], now + DYNAMIC_GRACE})
  {
    hide FullscreenRegistry, Restored, ReserveOrder, SameFlight;
  }

  lemma {:induction false} FullscreenUpholds(s: State, previous: map<WindowId, Window>, now: Instant, visit: Visit, k: Key)
    requires k in s.reg
    ensures var r := ReconcileFullscreen(s, previous, now, visit);
            && Upheld(s, r, k, now) && r.reg[k].dynamic == s.reg[k].dynamic
            && ((ShowsNormal(s.reg[k]) ==> s.reg[k].backing.value.space in s.view.spaces) ==> !Vanished(r, r.reg[k]))
  {
    hide ReconcileFullscreen, FullscreenRegistry, Substituted, Upheld;
    FullscreenEntry(s, previous, now, k);
    SubstitutedIsThere(s, previous, now, s.reg[k]);
    FullscreenKeepsQueues(s, previous, now, visit, k);
    SameProtection(s, ReconcileFullscreen(s, previous, now, visit), k, now);
  }

  lemma {:induction false} ParkUpholds(s: State, ks: seq<Key>, k: Key, now: Instant)
    requires k in s.reg
    ensures var r := ParkVanished(s, ks); Upheld(s, r, k, now)
    decreases |ks|
  {
    hide ParkOne, Upheld;
    SameProtection(s, s, k, now);
    if ks != [] {
      ParkOneUpholds(s, ks[0], k, now);
      UpheldIsThere(s, ParkOne(s, ks[0]), k, now);
      ParkUpholds(ParkOne(s, ks[0]), ks[1..], k, now);
      UpheldOn(s, ParkOne(s, ks[0]), ParkVanished(s, ks), k, now);
    }
  }

  lemma UpheldIsThere(s: State, r: State, k: Key, now: Instant)
    requires k in s.reg && Upheld(s, r, k, now)
    ensures k in r.reg && (r.reg[k].dynamic ==> s.reg[k].dynamic)
  {
    hide Steadfast, IntentsUpheld;
  }

  lemma ParkOneUpholds(s: State, j: Key, k: Key, now: Instant)
    requires k in s.reg
    ensures Upheld(s, ParkOne(s, j), k, now)
  {
    hide ClearStale, Requested, Vanished, Upheld;
    ClearUpholds(s, j, k, now);
    SameProtection(s, s, k, now);
    if ParkOne(s, j) != s {
      SameProtection(ClearStale(s, j), ParkOne(s, j), k, now);
      UpheldOn(s, ClearStale(s, j), ParkOne(s, j), k, now);
    }
  }

  lemma ClearUpholds(s: State, j: Key, k: Key, now: Instant)
    requires k in s.reg
    ensures var r := ClearStale(s, j); Upheld(s, r, k, now) && k in r.reg
  {
    hide Steadfast, Upheld;
    SameProtection(s, ClearStale(s, j), k, now);
  }

  /** A workspace is forgotten among the vanished only if its destroy is confirmed, or it is volatile and its Space is gone. */
  lemma {:induction false} VanishingUpholds(s: State, now: Instant, reset: bool, visit: Visit, k: Key)
    requires k in s.reg && k !in Confirmed(s) && (reset || s.reg[k].persistent || !Vanished(s, s.reg[k]))
    ensures Upheld(s, WithoutVanished(s, now, reset, visit), k, now)
  {
    hide RemoveAll, Retire, ConfirmDestroys, ParkVanished, LastSeen, Upheld;
    var s2 := NoteWindowSpaces(s, now);
    SameProtection(s, s2, k, now);
    ConfirmUpholds(s2, k, now);
    var s3 := ConfirmDestroys(s2);
    UpheldOn(s, s2, s3, k, now);
    if !reset {
      RetireUpholds(s3, k, now);
      UpheldIsThere(s3, Retire(s3), k, now);
      ParkUpholds(Retire(s3), visit.keys, k, now);
      UpheldOn(s, s3, Retire(s3), k, now);
      UpheldOn(s, Retire(s3), WithoutVanished(s, now, reset, visit), k, now);
    }
  }

  lemma ConfirmUpholds(s: State, k: Key, now: Instant)
    requires k in s.reg && k !in Confirmed(s)
    ensures var r := ConfirmDestroys(s); Upheld(s, r, k, now) && r.reg[k] == s.reg[k] && r.view == s.view
  {
    hide SpacesOf, KeepFocus, KeepMoves, Confirmed;
    var r := ConfirmDestroys(s);
    FrontKept(s, Confirmed(s), k);
    forall f | f in s.focusQueue && f.0 == k ensures f in r.focusQueue {
      FocusKept(s.focusQueue, Confirmed(s), f);
    }
    forall m | m in s.moveQueue && m.1 == k ensures m in r.moveQueue {
      MoveKept(s.moveQueue, Confirmed(s), m);
    }
  }

  lemma RetireUpholds(s: State, k: Key, now: Instant)
    requires k in s.reg && (s.reg[k].persistent || !Vanished(s, s.reg[k]))
    ensures Upheld(s, Retire(s), k, now)
  {
    hide RemoveAll, Upheld, Vanished;
    ForgettingUpholds(s, (set j | j in s.reg && !s.reg[j].persistent && Vanished(s, s.reg[j])), k, now);
  }

  lemma {:induction false} BindOneUpholds(s: State, a: Awaited, now: Instant, visit: Visit, k: Key)
    requires s.view.WellKeyed() && k in s.reg && (a.key == k ==> !s.reg[k].dynamic || !Expired(Aged(a, now), now))
    ensures Upheld(s, BindOne(s, a, now, visit), k, now)
  {
    hide Released, BindTo, Candidates, View.WellKeyed, Expired, Aged, Upheld;
    var b := Aged(a, now);
    SameKey(a, now);
    SameProtection(s, s, k, now);
    if Expired(b, now) {
      ReleasedUpholds(s, b.key, k, now);
    } else if b.key in s.reg && s.reg[b.key].backing.None? {
      CandidatesKeyed(s, b);
      if Candidates(s, b) == {} {
        SameProtection(s, s.(awaited := s.awaited + [b]), k, now);
      } else {
        BoundUpholds(s, b.key, FirstSlot(Candidates(s, b)), now, visit, k);
      }
    }
  }

  lemma ReleasedUpholds(s: State, j: Key, k: Key, now: Instant)
    requires k in s.reg && (j == k ==> !s.reg[k].dynamic)
    ensures Upheld(s, Released(s, j), k, now)
  {
    hide RemoveAll, Upheld;
    SameProtection(s, s, k, now);
    if j != k {
      ForgettingUpholds(s, {j}, k, now);
    }
  }

  lemma BoundUpholds(s: State, j: Key, x: Space, now: Instant, visit: Visit, k: Key)
    requires k in s.reg && j in s.reg
    ensures Upheld(s, BindTo(s, j, x, now, visit), k, now)
  {
    hide LogicalOrder;
  }

  lemma {:induction false} BindAllUpholds(s: State, todo: seq<Awaited>, now: Instant, visit: Visit, k: Key)
    requires s.view.WellKeyed() && k in s.reg
    requires forall a | a in todo && a.key == k :: !s.reg[k].dynamic || !Expired(Aged(a, now), now)
    ensures Upheld(s, BindAll(s, todo, now, visit), k, now)
    decreases |todo|
  {
    hide BindOne, View.WellKeyed, Upheld, Expired, Aged;
    SameProtection(s, s, k, now);
    if todo != [] {
      BindOneUpholds(s, todo[0], now, visit, k);
      var s1 := BindOne(s, todo[0], now, visit);
      UpheldIsThere(s, s1, k, now);
      BindAllUpholds(s1, todo[1..], now, visit, k);
      UpheldOn(s, s1, BindAll(s, todo, now, visit), k, now);
    }
  }

  lemma {:induction false} AdoptAllUpholds(s: State, xs: seq<SpaceId>, k: Key, now: Instant)
    requires (forall x | x in xs :: x in s.view.spaces) && k in s.reg
    ensures Upheld(s, AdoptAll(s, xs), k, now)
    decreases |xs|
  {
    hide AdoptOne, Upheld;
    SameProtection(s, s, k, now);
    if xs != [] {
      AdoptOneUpholds(s, xs[0], k, now);
      UpheldIsThere(s, AdoptOne(s, xs[0]), k, now);
      AdoptAllUpholds(AdoptOne(s, xs[0]), xs[1..], k, now);
      UpheldOn(s, AdoptOne(s, xs[0]), AdoptAll(s, xs), k, now);
    }
  }

  lemma {:induction false} AdoptOneUpholds(s: State, x: SpaceId, k: Key, now: Instant)
    requires x in s.view.spaces && k in s.reg
    ensures Upheld(s, AdoptOne(s, x), k, now)
  {
    hide NextName, NextOrdinal;
  }

  lemma {:induction false} ObserveUpholds(s: State, now: Instant, k: Key)
    requires s.view.WellKeyed() && k in s.reg
    ensures Upheld(s, ObserveExternal(s, now), k, now)
  {
    hide View.WellKeyed, StillExternal, AdoptAll, Adoptable, Upheld, Strangers;
    var s1 := s.(external := StillExternal(s));
    var s2 := GraceSurplus(s1, now);
    SameProtection(s, s1.(initialized := true), k, now);
    SameProtection(s, s2, k, now);
    if s.initialized && s.awaited == [] {
      AdoptAllUpholds(s2, Adoptable(s2), k, now);
      UpheldOn(s, s2, AdoptAll(s2, Adoptable(s2)), k, now);
    }
  }

  /** Bindings settle from a synced configuration on. */
  ghost function SettledFrom(s: State, previous: map<WindowId, Window>, now: Instant, reset: bool, visit: Visit): State
    requires s.view.WellKeyed()
  {
    hide ReconcileFullscreen, WithoutVanished, BindAwaited, ObserveExternal, View.WellKeyed;
    ObserveExternal(BindAwaited(WithoutVanished(ReconcileFullscreen(s, previous, now, visit), now, reset, visit), now, visit), now)
  }

  lemma SettledAfterSync(s: State, snap: Snapshot, now: Instant, visit: Visit)
    requires snap.complete && snap.WellKeyed()
    ensures var q := SyncConfig(Observe(if IsReset(s.view, snap) then VoidReservations(s) else s, snap), visit);
            q.view.WellKeyed() && Settled(s, snap, now, visit) == SettledFrom(q, s.view.windows, now, IsReset(s.view, snap), visit)
  {
    hide IsReset, SyncConfig, ReconcileFullscreen, WithoutVanished, BindAwaited, ObserveExternal, VoidReservations;
  }

  /** What a workspace of a synced configuration needs to be there once bindings settle. */
  ghost predicate Secured(s: State, now: Instant, reset: bool, k: Key) {
    && k in s.reg && k !in Confirmed(s) && SurvivesWait(s, now, k)
    && (reset || s.reg[k].persistent || (ShowsNormal(s.reg[k]) ==> s.reg[k].backing.value.space in s.view.spaces))
  }

  lemma {:induction false} SettlingUpholds(s: State, previous: map<WindowId, Window>, now: Instant, reset: bool, visit: Visit, k: Key)
    requires s.view.WellKeyed() && Secured(s, now, reset, k)
    ensures Upheld(s, SettledFrom(s, previous, now, reset, visit), k, now)
  {
    hide ReconcileFullscreen, WithoutVanished, BindAll, ObserveExternal, View.WellKeyed, Upheld, Confirmed, Expired, Aged, Vanished;
    FullscreenUpholds(s, previous, now, visit, k);
    var s2 := ReconcileFullscreen(s, previous, now, visit);
    UpheldIsThere(s, s2, k, now);
    FullscreenKeepsStanding(s, previous, now, visit, k);
    VanishingUpholds(s2, now, reset, visit, k);
    var s4 := WithoutVanished(s2, now, reset, visit);
    UpheldIsThere(s2, s4, k, now);
    var s5 := s4.(awaited := []);
    SameProtection(s4, s5, k, now);
    BindAllUpholds(s5, s4.awaited, now, visit, k);
    var s6 := BindAwaited(s4, now, visit);
    UpheldIsThere(s5, s6, k, now);
    ObserveUpholds(s6, now, k);
    UpheldOn(s, s2, s4, k, now);
    UpheldOn(s, s4, s5, k, now);
    UpheldOn(s, s5, s6, k, now);
    UpheldOn(s, s6, ObserveExternal(s6, now), k, now);
  }

  lemma FullscreenKeepsStanding(s: State, previous: map<WindowId, Window>, now: Instant, visit: Visit, k: Key)
    requires k in s.reg
    ensures var r := ReconcileFullscreen(s, previous, now, visit);
            k in r.reg && r.reg[k].persistent == s.reg[k].persistent && Confirmed(r) == Confirmed(s) && r.awaited == s.awaited
  {
    hide ReconcileFullscreen, FullscreenRegistry, Substituted;
    FullscreenEntry(s, previous, now, k);
    SubstitutedIsThere(s, previous, now, s.reg[k]);
  }

  /** The snapshot gives no cause to forget a workspace, the loss of a volatile one's Space included. */
  ghost predicate NoCause(s: State, snap: Snapshot, now: Instant, k: Key) {
    && Remembered(s, snap, now, k)
    && (IsReset(s.view, snap) || Steadfast(s, k) || (ShowsNormal(s.reg[k]) ==> s.reg[k].backing.value.space in snap.spaces))
  }

  lemma {:induction false} SettledUpholds(s: State, snap: Snapshot, now: Instant, visit: Visit, k: Key)
    requires snap.complete && snap.WellKeyed() && NoCause(s, snap, now, k)
    ensures Upheld(s, Settled(s, snap, now, visit), k, now)
  {
    hide IsReset, SyncConfig, Settled, SettledFrom, Upheld, Snapshot.WellKeyed, View.WellKeyed, Expired, Aged;
    SettledAfterSync(s, snap, now, visit);
    var reset := IsReset(s.view, snap);
    var s1 := Observe(if reset then VoidReservations(s) else s, snap);
    SameProtection(s, s1, k, now);
    SyncUpholds(s1, visit, k, now);
    var q := SyncConfig(s1, visit);
    UpheldIsThere(s1, q, k, now);
    UpheldSteadfast(s1, q, k, now);
    SettlingUpholds(q, s.view.windows, now, reset, visit, k);
    UpheldOn(s, s1, q, k, now);
    UpheldOn(s, q, Settled(s, snap, now, visit), k, now);
  }

  lemma UpheldSteadfast(s: State, r: State, k: Key, now: Instant)
    requires k in s.reg && Upheld(s, r, k, now)
    ensures Steadfast(s, k) ==> k in r.reg && r.reg[k].persistent
  {
    hide IntentsUpheld;
  }

  // ----------------------------------------------------------- what is destroyed

  /** Whoever shows the Space is volatile and shows it as its own; nobody is coming back to it. */
  ghost predicate OnlyVolatile(reg: Registry, x: SpaceId) {
    forall k | k in reg && reg[k].Holds(x) :: !reg[k].persistent && reg[k].backing == Some(Normal(x))
  }

  /** The collected Space is one workspace's own, and that one is volatile and nobody asks for it. */
  lemma {:induction false} CollectedOwner(s: State, moved: set<Key>, now: Instant)
    requires DestroyEmpty(s, moved, now).1 != []
    ensures var x := DestroyEmpty(s, moved, now).1[0].space;
            s.view.Ordinary(x) && exists k :: k in s.reg && k !in moved && !s.reg[k].persistent && s.reg[k].backing == Some(Normal(x)) && !Wanted(s, k, now)
  {
    hide Swept, Stale, Condemned, State.Quiet, View.Occupied, View.OrdinaryOn, RecentlyLeft;
    var (k, x) := Condemned(s, moved, now).value;
    assert k in Doomed(s, moved, now) && Judged(s, moved, k, now);
  }

  lemma {:induction false} OwnersAlone(s: State, j: Key, x: SpaceId)
    requires Distinct(s.reg) && FullscreenShown(s) && s.view.Ordinary(x)
    requires j in s.reg && !s.reg[j].persistent && s.reg[j].backing == Some(Normal(x))
    ensures OnlyVolatile(s.reg, x) && forall k | k in s.reg && s.reg[k].Holds(x) :: k == j
  {
    forall k | k in s.reg && s.reg[k].Holds(x) ensures k == j {
      assert s.reg[j].Home() == Some(x);
    }
  }

  lemma ReboundChangesBacking(reg: Registry, spaces: map<SpaceId, Space>, displays: set<DisplayId>, k: Key)
    requires KeyedSpaces(spaces) && k in reg
    ensures var e := Remapped(reg, spaces, displays); k in e && e[k] == reg[k].(backing := e[k].backing, lastPosition := e[k].lastPosition)
  {
    hide FreeSlots, Claimants, IndexOfKey;
  }

  lemma {:induction false} RemapUpholds(s: State, visit: Visit, k: Key, now: Instant)
    requires s.view.WellKeyed() && k in s.reg
    ensures Upheld(s, RemapSlots(s, visit).0, k, now)
  {
    SameProtection(s, s, k, now);
    if s.placement.None? {
      var free := s.reg - Held(s);
      RemapPieces(s, visit);
      if k in free {
        ReboundChangesBacking(free, SlotSpaces(s), s.view.displays.Keys, k);
      }
      hide Remapped, RemapSlots, Upheld, State.Expecting;
      SameProtection(s, RemapSlots(s, visit).0, k, now);
    }
  }

  lemma {:induction false} RebindUpholds(s: State, visit: Visit, k: Key, now: Instant)
    requires s.view.WellKeyed() && k in s.reg
    ensures Upheld(s, Rebind(s, visit).0, k, now)
  {
    RemapUpholds(s, visit, k, now);
    hide RemapSlots, MoveTrees, Reattach, View.WellKeyed, Upheld;
    var s1 := RemapSlots(s, visit).0;
    UpheldIsThere(s, s1, k, now);
    SameProtection(s1, Rebind(s, visit).0, k, now);
    UpheldOn(s, s1, Rebind(s, visit).0, k, now);
  }

  lemma {:induction false} RebindShowsNoNewFullscreen(s: State, visit: Visit)
    requires s.view.WellKeyed() && WaitersUnbacked(s)
    ensures NoNewFullscreen(s.reg, Rebind(s, visit).0.reg)
  {
    hide RemapSlots, MoveTrees, Reattach, View.WellKeyed, WaitersUnbacked;
    var r := RemapSlots(s, visit).0;
    if s.placement.None? {
      RemapKeys(s, visit);
      forall k | k in r.reg && r.reg[k].IsFullscreen() ensures k in s.reg && s.reg[k].backing == r.reg[k].backing {
        RemapGives(s, visit, k);
      }
    } else {
      PlacedStay(s, visit);
    }
  }

  lemma {:induction false} SweepUpholds(s: State, stale: set<Key>, k: Key, now: Instant)
    requires k in s.reg && k !in stale
    ensures Upheld(s, Swept(s, stale), k, now)
  {
    hide RemoveAll, Upheld;
    ForgettingUpholds(s, stale, k, now);
    var s1 := RemoveAll(s, stale);
    SameProtection(s1, Swept(s, stale), k, now);
    UpheldOn(s, s1, Swept(s, stale), k, now);
  }

  /** Collecting forgets only volatile workspaces nobody asks for. */
  lemma {:induction false} CollectingUpholds(s: State, moved: set<Key>, now: Instant, k: Key)
    requires k in s.reg && (s.reg[k].persistent || Wanted(s, k, now))
    ensures var r := DestroyEmpty(s, moved, now).0;
            && Upheld(s, r, k, now)
            && forall p | p in r.pendingDestroy && r.pendingDestroy[p] == k :: !s.reg[k].persistent || (p in s.pendingDestroy && s.pendingDestroy[p] == k)
  {
    hide *;
    NeitherStaleNorDoomed(s, moved, now, k);
    CollectedShape(s, moved, now);
    var s1 := Swept(s, Stale(s, moved, now));
    var r := DestroyEmpty(s, moved, now).0;
    SweepUpholds(s, Stale(s, moved, now), k, now);
    UpheldIsThere(s, s1, k, now);
    if r == s {
      SameProtection(s, s, k, now);
    } else {
      SameProtection(s1, r, k, now);
      UpheldOn(s, s1, r, k, now);
    }
  }

  lemma CollectedShape(s: State, moved: set<Key>, now: Instant)
    ensures var r := DestroyEmpty(s, moved, now).0;
            && (r == s || r == Swept(s, Stale(s, moved, now)).(pendingDestroy := r.pendingDestroy))
            && forall p | p in r.pendingDestroy :: r.pendingDestroy[p] in Doomed(s, moved, now) || (p in s.pendingDestroy && s.pendingDestroy[p] == r.pendingDestroy[p])
  {
    hide Swept, Stale, Doomed, State.Quiet;
  }

  lemma NeitherStaleNorDoomed(s: State, moved: set<Key>, now: Instant, k: Key)
    requires k in s.reg && (s.reg[k].persistent || Wanted(s, k, now))
    ensures k !in Stale(s, moved, now) && k !in Doomed(s, moved, now)
  {
    hide Empty, View.OrdinaryOn;
  }

  /** Nobody holds the Space, or one volatile workspace nobody asks for does, as its own. */
  ghost predicate Spare(s: State, x: SpaceId, now: Instant) {
    OnlyVolatile(s.reg, x) && forall k | k in s.reg && s.reg[k].Holds(x) :: !Wanted(s, k, now)
  }

  lemma {:induction false} CollectedIsSpare(s: State, moved: set<Key>, now: Instant)
    requires Distinct(s.reg) && FullscreenShown(s) && DestroyEmpty(s, moved, now).1 != []
    ensures Spare(s, DestroyEmpty(s, moved, now).1[0].space, now)
  {
    hide *;
    CollectedOwner(s, moved, now);
    var x := DestroyEmpty(s, moved, now).1[0].space;
    var j :| j in s.reg && j !in moved && !s.reg[j].persistent && s.reg[j].backing == Some(Normal(x)) && !Wanted(s, j, now);
    OwnersAlone(s, j, x);
    HeldByOne(s, x, now, j);
  }

  lemma HeldByOne(s: State, x: SpaceId, now: Instant, j: Key)
    requires OnlyVolatile(s.reg, x) && !Wanted(s, j, now) && forall k | k in s.reg && s.reg[k].Holds(x) :: k == j
    ensures Spare(s, x, now)
  {
    hide OnlyVolatile, Wanted;
  }

  lemma {:induction false} HealedIsSpare(s: State, now: Instant)
    requires s.view.WellKeyed() && NextHeal(s, now).Some?
    ensures Spare(s, NextHeal(s, now).value, now)
  {
    OrphanIsExpendable(s, now);
    hide NextHeal, Wanted;
    var x := NextHeal(s, now).value;
    forall k | k in s.reg ensures !s.reg[k].Holds(x) {
    }
  }

  /** Where a pass stands when it looks for empty workspaces: bindings are as they will stay. */
  ghost function AtCollection(s: State, now: Instant, visit: Visit): State
    requires s.view.WellKeyed()
  {
    hide Rebind, ReconcilePlacement, GraceSurplus, View.WellKeyed;
    GraceSurplus(Rebind(ReconcilePlacement(s, now).0, visit).0, now)
  }

  lemma {:induction false} RestUpholds(s: State, now: Instant, visit: Visit, k: Key)
    requires s.view.WellKeyed() && k in s.reg
    ensures Upheld(s, AtCollection(s, now, visit), k, now)
  {
    hide Rebind, ReconcilePlacement, GraceSurplus, View.WellKeyed, Upheld, Strangers;
    var s1 := ReconcilePlacement(s, now).0;
    SameProtection(s, s1, k, now);
    RebindUpholds(s1, visit, k, now);
    var s2 := Rebind(s1, visit).0;
    UpheldIsThere(s1, s2, k, now);
    SameProtection(s2, GraceSurplus(s2, now), k, now);
    UpheldOn(s, s1, s2, k, now);
    UpheldOn(s, s2, GraceSurplus(s2, now), k, now);
  }

  lemma {:induction false} CollectsTame(s: State, now: Instant, visit: Visit)
    requires s.view.WellKeyed() && Tame(s) && FullscreenShown(s) && (s.awaited != [] ==> StrangersSetAside(s))
    ensures var r := AtCollection(s, now, visit); r.view == s.view && Distinct(r.reg) && FullscreenShown(r)
  {
    hide Rebind, ReconcilePlacement, GraceSurplus, View.WellKeyed, Tame, FullscreenShown, StrangersSetAside, Strangers, Distinct, NoNewFullscreen;
    var s1 := ReconcilePlacement(s, now).0;
    OnlyPlacement(s, s1);
    RebindKeepsTame(s1, visit);
    TameWaits(s1);
    RebindShowsNoNewFullscreen(s1, visit);
    var s2 := Rebind(s1, visit).0;
    FullscreenStaysShown(s1, s2);
    TameIsDistinct(s2);
    FullscreenStaysShown(s2, GraceSurplus(s2, now));
  }

  lemma TameWaits(s: State)
    requires Tame(s)
    ensures WaitersUnbacked(s)
  {
    hide WaitersUnbacked, Distinct, WaitsOnce, Predates;
  }

  /** The Space is nobody's who is persistent, fullscreen or asked for. */
  ghost predicate SparesFrom(s: State, r: State, x: SpaceId, now: Instant) {
    OnlyVolatile(r.reg, x) && forall k | k in r.reg && k in s.reg && Wanted(s, k, now) :: !r.reg[k].Holds(x)
  }

  lemma {:induction false} CollectedSpares(s: State, now: Instant, visit: Visit, moved: set<Key>)
    requires s.view.WellKeyed() && Tame(s) && FullscreenShown(s) && (s.awaited != [] ==> StrangersSetAside(s))
    requires DestroyEmpty(AtCollection(s, now, visit), moved, now).1 != []
    ensures var r := DestroyEmpty(AtCollection(s, now, visit), moved, now); SparesFrom(s, r.0, r.1[0].space, now)
  {
    hide AtCollection, DestroyEmpty, Tame, FullscreenShown, StrangersSetAside, View.WellKeyed, Distinct, Wanted, Upheld;
    CollectsTame(s, now, visit);
    var g := AtCollection(s, now, visit);
    CollectedIsSpare(g, moved, now);
    forall k | k in s.reg && Wanted(s, k, now) ensures Wanted(g, k, now) {
      RestUpholds(s, now, visit, k);
      UpheldFully(s, g, k, now);
    }
  }

  lemma {:induction false} AdvanceSpares(s: State, now: Instant, visit: Visit, x: SpaceId)
    requires s.view.WellKeyed() && Tame(s) && FullscreenShown(s) && (s.awaited != [] ==> StrangersSetAside(s))
    requires DestroySpace(x) in Advance(s, now, visit).1
    ensures SparesFrom(s, Advance(s, now, visit).0, x, now)
  {
    hide ReconcilePlacement, Rebind, GraceSurplus, DestroyEmpty, FulfillQueues, RequestMissing, TryStart, HealIfIdle, NextHeal, MovedKeys, Ascending;
    hide View.WellKeyed, State.Quiet, Tame, FullscreenShown, StrangersSetAside, NoTopology, Strangers, SparesFrom;
    var (s1, a1) := ReconcilePlacement(s, now);
    var (s2, moves) := Rebind(s1, visit);
    var g := GraceSurplus(s2, now);
    assert g == AtCollection(s, now, visit);
    var (s3, a3) := DestroyEmpty(g, MovedKeys(moves), now);
    var (s4, a4) := FulfillQueues(s3, now);
    var s5 := RequestMissing(s4, Ascending(s4.view.displays.Keys));
    var (s6, a6) := TryStart(s5, now);
    HealTarget(s6, a1 + a3 + a4 + a6, now);
    var healed := HealIfIdle(s6, a1 + a3 + a4 + a6, now).1;
    WhoDestroys(a1, a3, a4, a6, if healed == a1 + a3 + a4 + a6 then None else NextHeal(s6, now), x);
    var r := Advance(s, now, visit).0;
    if a3 != [] && a3[0].space == x {
      CollectedSpares(s, now, visit, MovedKeys(moves));
      SameRegistrySpares(s, s3, r, x, now);
    } else {
      HealedSpares(s, s6, now);
      SameRegistrySpares(s, s6, r, x, now);
    }
  }

  lemma {:induction false} HealedSpares(s: State, r: State, now: Instant)
    requires r.view.WellKeyed() && NextHeal(r, now).Some?
    ensures SparesFrom(s, r, NextHeal(r, now).value, now)
  {
    OrphanIsExpendable(r, now);
    hide NextHeal, Wanted;
    forall k | k in r.reg ensures !r.reg[k].Holds(NextHeal(r, now).value) {
    }
  }

  lemma SameRegistrySpares(s: State, r: State, q: State, x: SpaceId, now: Instant)
    requires SparesFrom(s, r, x, now) && q.reg == r.reg
    ensures SparesFrom(s, q, x, now)
  {
    hide Wanted;
  }

  /**
   * Whatever Space a snapshot leads the engine to destroy, in an orderly run: no persistent
   * workspace and none that shows a fullscreen Space holds it, and it is nobody's to come back to.
   */
  lemma {:induction false} DestroysSpare(s: State, snap: Snapshot, now: Instant, visit: Visit, x: SpaceId)
    requires snap.WellKeyed() && Tame(s) && (s.initialized || s.awaited == []) && Orderly(s, snap)
    requires DestroySpace(x) in SnapshotStep(s, snap, now, visit).1
    ensures snap.complete && OnlyVolatile(SnapshotStep(s, snap, now, visit).0.reg, x)
  {
    hide Settled, Advance, Tame, Orderly, FullscreenShown, StrangersSetAside, OnlyVolatile, Wanted;
    if snap.complete {
      SettleKeepsTame(s, snap, now, visit);
      AdvanceSpares(Settled(s, snap, now, visit), now, visit, x);
    }
  }

  lemma {:induction false} AdvanceKeeps(s: State, now: Instant, visit: Visit, k: Key)
    requires s.view.WellKeyed() && k in s.reg && (Steadfast(s, k) || Wanted(s, k, now))
    ensures Remains(s, Advance(s, now, visit).0, k)
  {
    hide ReconcilePlacement, Rebind, GraceSurplus, DestroyEmpty, FulfillQueues, RequestMissing, TryStart, HealIfIdle, MovedKeys, Ascending;
    hide View.WellKeyed, State.Quiet, NoTopology, Strangers, Upheld, Wanted;
    RestUpholds(s, now, visit, k);
    var g := AtCollection(s, now, visit);
    UpheldFully(s, g, k, now);
    var (s2, moves) := Rebind(ReconcilePlacement(s, now).0, visit);
    CollectingUpholds(g, MovedKeys(moves), now, k);
    var s3 := DestroyEmpty(g, MovedKeys(moves), now).0;
    UpheldOn(s, g, s3, k, now);
    UpheldFully(s, s3, k, now);
  }

  /** Still registered, and as steadfast as before; no destroy has been begun for a steadfast one. */
  ghost predicate Remains(s: State, r: State, k: Key)
    requires k in s.reg
  {
    && k in r.reg && r.templates == s.templates && r.reg[k].display == s.reg[k].display
    && (r.reg[k].dynamic ==> s.reg[k].dynamic)
    && (Steadfast(s, k) ==> Steadfast(r, k) && forall p | p in r.pendingDestroy && r.pendingDestroy[p] == k :: p in s.pendingDestroy && s.pendingDestroy[p] == k)
  }

  lemma UpheldFully(s: State, r: State, k: Key, now: Instant)
    requires k in s.reg && Upheld(s, r, k, now)
    ensures k in r.reg && r.templates == s.templates && r.reg[k].display == s.reg[k].display && (r.reg[k].dynamic ==> s.reg[k].dynamic)
    ensures (Steadfast(s, k) ==> Steadfast(r, k)) && (Wanted(s, k, now) ==> Wanted(r, k, now))
  {
    hide Wanted, Steadfast, IntentsUpheld;
    if Wanted(s, k, now) {
      IntentsWanted(s, r, k, now);
    }
  }

  lemma SettlingDestroysLess(s: State, snap: Snapshot, now: Instant, visit: Visit)
    requires snap.complete && snap.WellKeyed()
    ensures forall p | p in Settled(s, snap, now, visit).pendingDestroy :: p in s.pendingDestroy && Settled(s, snap, now, visit).pendingDestroy[p] == s.pendingDestroy[p]
  {
    SettledAfterSync(s, snap, now, visit);
    hide IsReset, SyncConfig, ReconcileFullscreen, WithoutVanished, BindAwaited, ObserveExternal, Settled, View.WellKeyed, Snapshot.WellKeyed;
  }

  /**
   * A steadfast workspace, or one somebody asks for, that the snapshot gives no cause to forget,
   * is still registered after it.
   */
  lemma {:induction false} ProtectedStay(s: State, snap: Snapshot, now: Instant, visit: Visit, k: Key)
    requires snap.complete && snap.WellKeyed() && NoCause(s, snap, now, k) && (Steadfast(s, k) || Wanted(s, k, now))
    ensures Remains(s, SnapshotStep(s, snap, now, visit).0, k)
  {
    hide Settled, Advance, NoCause, Upheld, Wanted, Steadfast, Snapshot.WellKeyed, View.WellKeyed;
    CauseIsThere(s, snap, now, k);
    SettledUpholds(s, snap, now, visit, k);
    SettlingDestroysLess(s, snap, now, visit);
    var s0 := Settled(s, snap, now, visit);
    UpheldFully(s, s0, k, now);
    AdvanceKeeps(s0, now, visit, k);
  }

  lemma CauseIsThere(s: State, snap: Snapshot, now: Instant, k: Key)
    requires NoCause(s, snap, now, k)
    ensures k in s.reg
  {
  }

  /** And no Space it holds is destroyed. */
  lemma {:induction false} ProtectedKeepSpaces(s: State, snap: Snapshot, now: Instant, visit: Visit, k: Key, x: SpaceId)
    requires snap.complete && snap.WellKeyed() && Tame(s) && (s.initialized || s.awaited == []) && Orderly(s, snap)
    requires NoCause(s, snap, now, k) && (Steadfast(s, k) || Wanted(s, k, now))
    requires DestroySpace(x) in SnapshotStep(s, snap, now, visit).1
    ensures var r := SnapshotStep(s, snap, now, visit).0; k in r.reg && !r.reg[k].Holds(x)
  {
    hide Settled, Advance, NoCause, Upheld, Wanted, Steadfast, Snapshot.WellKeyed, View.WellKeyed, Tame, Orderly, FullscreenShown, StrangersSetAside, OnlyVolatile;
    CauseIsThere(s, snap, now, k);
    ProtectedStay(s, snap, now, visit, k);
    SettleKeepsTame(s, snap, now, visit);
    SettledUpholds(s, snap, now, visit, k);
    var s0 := Settled(s, snap, now, visit);
    UpheldFully(s, s0, k, now);
    AdvanceSpares(s0, now, visit, x);
    SteadfastIsNotVolatile(s0, Advance(s0, now, visit).0, k, x);
  }

  lemma SteadfastIsNotVolatile(s: State, r: State, k: Key, x: SpaceId)
    requires k in s.reg && k in r.reg && OnlyVolatile(r.reg, x)
    ensures Steadfast(r, k) ==> !r.reg[k].Holds(x)
  {
  }
}
