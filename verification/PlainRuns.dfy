/** Looks of an engine that can neither create, destroy nor reorder Spaces, and has nothing in flight: the ground of the examples. */
module PlainRuns {
  import opened Basics
  import opened Geometry
  import opened Observed
  import opened Workspace
  import opened Remap
  import opened Lifecycle
  import opened Runs
  import opened Homes
  import opened Staying
  import opened TreeOwnership
  import opened TreeSurvival
  import opened TreeLosses

  /** No capability, nothing in flight, no intent queued, no tree. */
  ghost predicate Plain(s: State) {
    && s.caps == Capabilities(false, false, false) && s.Quiet()
    && s.focusQueue == [] && s.moveQueue == [] && s.layouts == map[] && s.parked == map[]
  }

  function LookAt(snap: Snapshot, visit: Visit): Turn { Turn(Look(snap, visit), 0, [], [], None) }

  /** With nothing refused, a turn is its answer. */
  lemma LookIsPass(s: State, snap: Snapshot, visit: Visit)
    requires s.view.WellKeyed() && snap.WellKeyed()
    ensures LookAt(snap, visit).Valid() && After(s, LookAt(snap, visit)) == SnapshotStep(s, snap, 0, visit).0
  {
    hide SnapshotStep, View.WellKeyed, Snapshot.WellKeyed;
  }

  // -------------------------------------------------------------- taking it in

  lemma ForgettingNobody(s: State)
    requires Plain(s)
    ensures RemoveAll(s, {}) == s
  {
    assert s.reg - {} == s.reg && s.grace - {} == s.grace;
    assert SpacesOf(s.reg, {}) == {};
  }

  /** Nothing known is missing from the view. */
  ghost predicate NoneVanished(s: State) {
    forall k | k in s.reg :: !Vanished(s, s.reg[k])
  }

  lemma {:induction false} NobodyConfirmed(s: State)
    requires Plain(s)
    ensures ConfirmDestroys(s) == s
  {
    ForgettingNobody(s);
    assert Confirmed(s) == {};
    assert s.pendingDestroy - {} == s.pendingDestroy;
    hide RemoveAll;
  }

  lemma {:induction false} NobodyRetired(s: State)
    requires Plain(s) && NoneVanished(s)
    ensures Retire(s) == s
  {
    ForgettingNobody(s);
    assert (set k | k in s.reg && !s.reg[k].persistent && Vanished(s, s.reg[k])) == {};
    hide RemoveAll, Vanished;
  }

  lemma {:induction false} NobodyParked(s: State, ks: seq<Key>)
    requires NoneVanished(s)
    ensures ParkVanished(s, ks) == s
    decreases |ks|
  {
    hide Vanished, ClearStale, Requested;
    if ks != [] {
      NobodyParked(s, ks[1..]);
    }
  }

  /** Nobody leaves fullscreen or enters it: the look only brings configuration onto the displays. */
  lemma {:induction false} PlainTakesIn(s: State, snap: Snapshot, now: Instant, visit: Visit)
    requires snap.complete && Plain(s) && !IsReset(s.view, snap)
    requires var q := SyncConfig(Observe(s, snap), visit); NoneFullscreen(q.reg) && NoneEntering(q, s.view.windows, now)
    ensures var q, t := SyncConfig(Observe(s, snap), visit), TakenIn(s, snap, now, visit); Plain(t) && t == q.(grace := t.grace)
  {
    hide IsReset, SyncConfig, FullscreenRegistry, Restored, ReserveOrder, NoneFullscreen, NoneEntering;
    var q := SyncConfig(Observe(s, snap), visit);
    NobodySubstituted(q, s.view.windows, now);
    SyncStaysPlain(Observe(s, snap), visit);
  }

  lemma SyncStaysPlain(s: State, visit: Visit)
    requires Plain(s)
    ensures var r := SyncConfig(s, visit); Plain(r) && r == s.(reg := r.reg, synced := r.synced) && r.synced == Some(s.view.displays.Keys)
    ensures s.synced != Some(s.view.displays.Keys) ==>
              SyncConfig(s, visit).reg == OnDisplays(InstantiateAll(s.reg, NextOrdinal(s.reg), s.templates, s.view, visit.displays), s.view.displays.Keys)
  {
    hide NextOrdinal, InstantiateAll, OnDisplays;
  }

  lemma NoWindowEnters(s: State, previous: map<WindowId, Window>, now: Instant)
    requires s.view.windows == map[]
    ensures NoneEntering(s, previous, now)
  {
    hide OwnedFullscreen, CameFrom;
  }

  /** When nothing vanished and nothing is awaited, gathering only notes where windows are. */
  lemma {:induction false} PlainGathers(s: State, snap: Snapshot, now: Instant, visit: Visit)
    requires snap.complete && snap.WellKeyed() && !IsReset(s.view, snap)
    requires Plain(TakenIn(s, snap, now, visit)) && NoneVanished(TakenIn(s, snap, now, visit))
    ensures var t, g := TakenIn(s, snap, now, visit), Gathered(s, snap, now, visit); g == t.(lastSpace := g.lastSpace)
  {
    hide IsReset, TakenIn, ConfirmDestroys, Retire, ParkVanished, LastSeen, Snapshot.WellKeyed, View.WellKeyed, Vanished;
    TakenInKeyed(s, snap, now, visit);
    var t := TakenIn(s, snap, now, visit);
    var s2 := NoteWindowSpaces(t, now);
    StillPlain(t, s2);
    NobodyConfirmed(s2);
    NobodyRetired(s2);
    NobodyParked(s2, visit.keys);
  }

  lemma StillPlain(s: State, r: State)
    requires Plain(s) && r == s.(lastSpace := r.lastSpace)
    ensures Plain(r) && (NoneVanished(s) ==> NoneVanished(r))
  {
  }

  // ----------------------------------------------------------------- afterwards

  lemma {:induction false} NoTreesMove(spaces: set<SpaceId>, moves: seq<RemapMove>)
    ensures MoveTrees(Trees(map[], map[]), spaces, moves) == Trees(map[], map[])
    decreases |moves|
  {
    if moves != [] {
      NoTreesMove(spaces, moves[1..]);
    }
  }

  lemma {:induction false} PlainRebinds(s: State, visit: Visit)
    requires s.view.WellKeyed() && Plain(s)
    ensures Rebind(s, visit).0 == RemapSlots(s, visit).0
  {
    hide RemapSlots, MoveTrees, Reattach, View.WellKeyed;
    var (s1, moves) := RemapSlots(s, visit);
    NoTreesMove(s1.view.spaces.Keys, moves);
    NothingReturns(Trees(map[], map[]), s1.reg, visit.parked);
  }

  /** The rest of the pass hands out slots, sets strangers aside and queues what is missing. */
  ghost function Asked(s: State, now: Instant, visit: Visit): (r: State)
    requires s.view.WellKeyed()
    ensures r.view == s.view && r.reg == RemapSlots(s, visit).0.reg
  {
    RequestMissing(GraceSurplus(RemapSlots(s, visit).0, now), Ascending(s.view.displays.Keys))
  }

  lemma {:induction false} PlainAdvances(s: State, now: Instant, visit: Visit)
    requires s.view.WellKeyed() && Plain(s)
    ensures Advance(s, now, visit).0 == TryStart(Asked(s, now, visit), now).0
  {
    hide RemapSlots, Rebind, GraceSurplus, RequestMissing, TryStart, MovedKeys, Ascending, View.WellKeyed, Strangers, NoTopology;
    hide PlacementPass, Swept, Stale, Condemned;
    PlainRebinds(s, visit);
  }

  /** A queue that is empty, or whose front has to wait, is left alone. */
  lemma NothingStarts(s: State, now: Instant)
    requires s.view.WellKeyed() && (s.requests == [] || Blocked(s, s.requests[0]))
    ensures TryStart(s, now).0 == s
  {
    hide Anchor, View.WellKeyed;
  }

  lemma {:induction false} PlainLook(s: State, snap: Snapshot, now: Instant, visit: Visit)
    requires snap.complete && snap.WellKeyed() && Plain(Settled(s, snap, now, visit))
    requires var q := Asked(Settled(s, snap, now, visit), now, visit); q.requests == [] || Blocked(q, q.requests[0])
    ensures SnapshotStep(s, snap, now, visit).0 == Asked(Settled(s, snap, now, visit), now, visit)
  {
    hide Settled, Advance, Asked, TryStart, Blocked, Plain, View.WellKeyed, Snapshot.WellKeyed;
    PlainAdvances(Settled(s, snap, now, visit), now, visit);
    NothingStarts(Asked(Settled(s, snap, now, visit), now, visit), now);
  }

  lemma {:induction false} AskedIsPlain(s: State, now: Instant, visit: Visit)
    requires s.view.WellKeyed() && Plain(s)
    ensures var r := Asked(s, now, visit);
            Plain(r) && r.initialized == s.initialized && r.templates == s.templates && r.synced == s.synced && r.lastSpace == s.lastSpace
    ensures Asked(s, now, visit).external.Keys == s.external.Keys + Strangers(RemapSlots(s, visit).0)
  {
    hide RemapSlots, RequestMissing, Ascending, Strangers, View.WellKeyed;
  }

  // ---------------------------------------------------------- what is missing

  /** No persistent workspace but `k` is without a Space. */
  ghost predicate OnlyMissing(s: State, k: Key) {
    forall j | j in s.reg && s.reg[j].persistent && s.reg[j].backing == None :: j == k
  }

  lemma {:induction false} AllAskedFor(s: State, d: DisplayId, ks: seq<Key>, k: Key)
    requires OnlyMissing(s, k) && s.awaited == [] && (exists q :: q in s.requests && q.key == k)
    ensures RequestAll(s, d, ks) == s
    decreases |ks|
  {
    if ks != [] {
      AllAskedFor(s, d, ks[1..], k);
    }
  }

  lemma {:induction false} RequestAllAsks(s: State, d: DisplayId, ks: seq<Key>, k: Key)
    requires OnlyMissing(s, k) && s.awaited == [] && s.requests == []
    ensures RequestAll(s, d, ks) == if k in ks && k in s.reg && s.reg[k].persistent && s.reg[k].backing == None
                                    then s.(requests := [Request(k, d)]) else s
    decreases |ks|
  {
    if ks != [] {
      if ks[0] == k && k in s.reg && s.reg[k].persistent && s.reg[k].backing == None {
        assert !s.Expecting(k);
        var r := s.(requests := s.requests + [Request(k, d)]);
        assert r.requests[0].key == k && r.requests[0] in r.requests;
        AllAskedFor(r, d, ks[1..], k);
      } else {
        RequestAllAsks(s, d, ks[1..], k);
      }
    }
  }

  lemma {:induction false} MissingAskedFor(s: State, displays: seq<DisplayId>, k: Key)
    requires OnlyMissing(s, k) && s.awaited == [] && (exists q :: q in s.requests && q.key == k)
    ensures RequestMissing(s, displays) == s
    decreases |displays|
  {
    hide RequestAll, KeysFor;
    if displays != [] {
      AllAskedFor(s, displays[0], KeysFor(s.reg, displays[0]), k);
      MissingAskedFor(s, displays[1..], k);
    }
  }

  /** The one missing workspace is asked for, once. */
  lemma {:induction false} MissingAsks(s: State, displays: seq<DisplayId>, k: Key)
    requires OnlyMissing(s, k) && s.awaited == [] && s.requests == []
    requires k in s.reg && s.reg[k].persistent && s.reg[k].backing == None && s.reg[k].display in displays
    ensures RequestMissing(s, displays) == s.(requests := [Request(k, s.reg[k].display)])
    decreases |displays|
  {
    hide RequestAll, KeysFor;
    KeysForLists(s.reg, displays[0]);
    RequestAllAsks(s, displays[0], KeysFor(s.reg, displays[0]), k);
    if s.reg[k].display == displays[0] {
      var r := s.(requests := [Request(k, displays[0])]);
      assert r.requests[0].key == k && r.requests[0] in r.requests;
      MissingAskedFor(r, displays[1..], k);
    } else {
      MissingAsks(s, displays[1..], k);
    }
  }

  lemma {:induction false} NothingMissing(s: State, displays: seq<DisplayId>)
    requires forall j | j in s.reg :: !s.reg[j].persistent || s.reg[j].backing.Some?
    ensures RequestMissing(s, displays) == s
    decreases |displays|
  {
    hide RequestAll, KeysFor;
    if displays != [] {
      NobodyAsks(s, displays[0], KeysFor(s.reg, displays[0]));
      NothingMissing(s, displays[1..]);
    }
  }

  lemma {:induction false} NobodyAsks(s: State, d: DisplayId, ks: seq<Key>)
    requires forall j | j in s.reg :: !s.reg[j].persistent || s.reg[j].backing.Some?
    ensures RequestAll(s, d, ks) == s
    decreases |ks|
  {
    if ks != [] {
      NobodyAsks(s, d, ks[1..]);
    }
  }

  // ------------------------------------------------------------------- details

  lemma NobodyBacked(s: State)
    requires forall k | k in s.reg :: s.reg[k].backing == None
    ensures NoneVanished(s)
  {
  }

  lemma PlainExternal(s: State, r: State)
    requires Plain(s) && r == s.(external := r.external, initialized := r.initialized)
    ensures Plain(r)
  {
  }

  lemma NobodyWaits(s: State)
    requires s.awaited == [] && s.requests == [] && s.external == map[]
    ensures s.reg - Held(s) == s.reg && SlotSpaces(s) == s.view.spaces && forall k :: !s.Expecting(k)
  {
    assert Held(s) == {};
  }

  lemma PlainHolds(s: State)
    requires Plain(s)
    ensures s.placement == None && s.awaited == []
  {
  }

  lemma PlainSame(s: State, r: State)
    requires Plain(s) && r == s.(view := r.view)
    ensures Plain(r)
  {
  }

  lemma {:induction false} ThreeLooks(s: State, a: Turn, b: Turn, c: Turn)
    requires s.view.WellKeyed() && a.Valid() && b.Valid() && c.Valid() && After(s, a).view.WellKeyed() && After(After(s, a), b).view.WellKeyed()
    ensures ValidTurns([a, b, c]) && AfterAll(s, [a, b, c]) == After(After(After(s, a), b), c)
  {
    hide After, Turn.Valid, View.WellKeyed;
    var turns := [a, b, c];
    assert turns[..0] == [] && AfterAll(s, turns[..0]) == s;
    AfterOneMore(s, turns, 0);
    AfterOneMore(s, turns, 1);
    AfterOneMore(s, turns, 2);
    assert turns[..3] == turns;
  }

  lemma {:induction false} TwoLooks(s: State, a: Turn, b: Turn)
    requires s.view.WellKeyed() && a.Valid() && b.Valid() && After(s, a).view.WellKeyed()
    ensures ValidTurns([a]) && ValidTurns([a, b])
    ensures AfterAll(s, [a]) == After(s, a) && AfterAll(s, [a, b]) == After(After(s, a), b)
  {
    hide After, Turn.Valid, View.WellKeyed;
    var turns := [a, b];
    assert turns[..0] == [] && AfterAll(s, turns[..0]) == s;
    AfterOneMore(s, turns, 0);
    AfterOneMore(s, turns, 1);
    assert turns[..1] == [a] && turns[..2] == turns;
  }
}
