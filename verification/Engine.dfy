/** The engine as it runs: fields updated stage by stage, hash maps walked in no particular order. */
module Engine {
  import opened Basics
  import opened Geometry
  import opened Observed
  import opened Workspace
  import opened Remap
  import opened SpaceOrder
  import opened Lifecycle

  // ------------------------------------------------------------- forgetting

  lemma {:induction false} KeepFocusTwice(q: seq<(Key, nat)>, a: set<Key>, b: set<Key>)
    ensures KeepFocus(KeepFocus(q, a), b) == KeepFocus(q, a + b)
  {
    if q != [] {
      KeepFocusTwice(q[1..], a, b);
      var rest := KeepFocus(q[1..], a);
      assert KeepFocus(q, a) == if q[0].0 in a then rest else [q[0]] + rest;
      assert ([q[0]] + rest)[0] == q[0] && ([q[0]] + rest)[1..] == rest;
    }
  }

  lemma {:induction false} KeepMovesTwice(q: seq<(WindowId, Key)>, a: set<Key>, b: set<Key>)
    ensures KeepMoves(KeepMoves(q, a), b) == KeepMoves(q, a + b)
  {
    if q != [] {
      KeepMovesTwice(q[1..], a, b);
      var rest := KeepMoves(q[1..], a);
      assert KeepMoves(q, a) == if q[0].1 in a then rest else [q[0]] + rest;
      assert ([q[0]] + rest)[0] == q[0] && ([q[0]] + rest)[1..] == rest;
    }
  }

  /** Forgetting workspaces one by one is forgetting them together. */
  lemma {:induction false} RemoveOneMore(s: State, ks: set<Key>, k: Key)
    ensures RemoveAll(RemoveAll(s, ks), {k}) == RemoveAll(s, ks + {k})
  {
    var spaces := SpacesOf(s.reg, ks);
    var more := SpacesOf(s.reg - ks, {k});
    assert SpacesOf(s.reg, ks + {k}) == spaces + more;
    assert s.layouts - spaces - more == s.layouts - (spaces + more);
    assert s.reg - ks - {k} == s.reg - (ks + {k});
    assert s.parked - ks - {k} == s.parked - (ks + {k});
    assert s.grace - ks - {k} == s.grace - (ks + {k});
    KeepFocusTwice(s.focusQueue, ks, {k});
    KeepMovesTwice(s.moveQueue, ks, {k});
  }

  lemma {:induction false} RemoveNobody(s: State)
    ensures RemoveAll(s, {}) == s
  {
    assert SpacesOf(s.reg, {}) == {};
    assert s.layouts - {} == s.layouts && s.reg - {} == s.reg && s.parked - {} == s.parked && s.grace - {} == s.grace;
    KeepFocusNone(s.focusQueue);
    KeepMovesNone(s.moveQueue);
  }

  lemma {:induction false} KeepFocusNone(q: seq<(Key, nat)>)
    ensures KeepFocus(q, {}) == q
  {
    if q != [] {
      KeepFocusNone(q[1..]);
    }
  }

  lemma {:induction false} KeepMovesNone(q: seq<(WindowId, Key)>)
    ensures KeepMoves(q, {}) == q
  {
    if q != [] {
      KeepMovesNone(q[1..]);
    }
  }

  class Engine {
    var caps: Capabilities
    var templates: seq<Template>
    var view: View
    var layouts: map<SpaceId, Layout>
    var reg: Registry
    var focusQueue: seq<(Key, nat)>
    var moveQueue: seq<(WindowId, Key)>
    var awaited: seq<Awaited>
    var requests: seq<Request>
    var pendingDestroy: map<SpaceId, Key>
    var topologyDestroy: Option<SpaceId>
    var placement: Option<Reservation>
    var grace: map<Key, Instant>
    var external: map<SpaceId, Instant>
    var initialized: bool
    var parked: map<Key, Layout>
    var lastSpace: map<WindowId, (SpaceId, Instant)>
    var synced: Option<set<DisplayId>>

    /** The engine's whole state as one value. */
    ghost function Now(): State
      reads this
    {
      State(caps, templates, view, layouts, reg, focusQueue, moveQueue, awaited, requests, pendingDestroy, topologyDestroy,
            placement, grace, external, initialized, parked, lastSpace, synced)
    }

    // ------------------------------------------------------------- forgetting

    /** Forget one workspace and everything it owns. */
    method RemoveWorkspace(k: Key)
      modifies `reg, `layouts, `parked, `grace, `focusQueue, `moveQueue
      ensures reg == old(reg) - {k} && layouts == old(layouts) - SpacesOf(old(reg), {k})
      ensures parked == old(parked) - {k} && grace == old(grace) - {k}
      ensures focusQueue == KeepFocus(old(focusQueue), {k}) && moveQueue == KeepMoves(old(moveQueue), {k})
    {
      var shown := if k in reg && reg[k].ActiveSpace().Some? then {reg[k].ActiveSpace().value} else {};
      assert shown == SpacesOf(reg, {k});
      layouts := layouts - shown;
      reg := reg - {k};
      parked := parked - {k};
      grace := grace - {k};
      focusQueue := KeepFocus(focusQueue, {k});
      moveQueue := KeepMoves(moveQueue, {k});
    }

    method RemoveOne(k: Key)
      modifies `reg, `layouts, `parked, `grace, `focusQueue, `moveQueue
      ensures Now() == RemoveAll(old(Now()), {k})
    {
      hide KeepFocus, KeepMoves, SpacesOf, SameFlight;
      RemoveWorkspace(k);
    }

    method RemoveEach(ks: set<Key>)
      modifies `reg, `layouts, `parked, `grace, `focusQueue, `moveQueue
      ensures Now() == RemoveAll(old(Now()), ks)
    {
      hide RemoveAll;
      var rest := ks;
      RemoveNobody(Now());
      assert ks - ks == {};
      while rest != {}
        invariant rest <= ks && Now() == RemoveAll(old(Now()), ks - rest)
        decreases |rest|
      {
        var k :| k in rest;
        RemoveOneMore(old(Now()), ks - rest, k);
        assert ks - rest + {k} == ks - (rest - {k});
        RemoveOne(k);
        rest := rest - {k};
      }
      assert ks - {} == ks;
    }

    /** Drop destroy reservations whose Space is gone; what they were for is to be forgotten. */
    method ReleaseGone() returns (names: set<Key>)
      modifies `pendingDestroy, `topologyDestroy
      ensures names == set p | p in old(pendingDestroy) && p !in view.spaces :: old(pendingDestroy)[p]
      ensures pendingDestroy == map p | p in old(pendingDestroy) && p in view.spaces :: old(pendingDestroy)[p]
      ensures topologyDestroy == if old(topologyDestroy).Some? && old(topologyDestroy).value !in view.spaces then None else old(topologyDestroy)
    {
      names := {};
      var rest := pendingDestroy.Keys;
      while rest != {}
        invariant rest <= old(pendingDestroy).Keys && topologyDestroy == old(topologyDestroy)
        invariant pendingDestroy == map p | p in old(pendingDestroy) && (p in view.spaces || p in rest) :: old(pendingDestroy)[p]
        invariant names == set p | p in old(pendingDestroy) && p !in view.spaces && p !in rest :: old(pendingDestroy)[p]
        decreases |rest|
      {
        var p :| p in rest;
        rest := rest - {p};
        if p !in view.spaces {
          names := names + {pendingDestroy[p]};
          pendingDestroy := pendingDestroy - {p};
        }
      }
      if topologyDestroy.Some? && topologyDestroy.value !in view.spaces {
        topologyDestroy := None;
      }
    }

    method ConfirmGone()
      modifies `pendingDestroy, `topologyDestroy, `reg, `layouts, `parked, `grace, `focusQueue, `moveQueue
      ensures Now() == ConfirmDestroys(old(Now()))
    {
      var names := ReleaseGone();
      ConfirmedIs(old(Now()), Now(), names);
      hide RemoveAll, Confirmed;
      RemoveEach(names);
    }

    static lemma ConfirmedIs(s: State, r: State, names: set<Key>)
      requires r == s.(pendingDestroy := r.pendingDestroy, topologyDestroy := r.topologyDestroy)
      requires names == set p | p in s.pendingDestroy && p !in s.view.spaces :: s.pendingDestroy[p]
      requires r.pendingDestroy == map p | p in s.pendingDestroy && p in s.view.spaces :: s.pendingDestroy[p]
      requires r.topologyDestroy == if s.topologyDestroy.Some? && s.topologyDestroy.value !in s.view.spaces then None else s.topologyDestroy
      ensures RemoveAll(r, names) == ConfirmDestroys(s)
    {
      assert names == Confirmed(s);
      hide RemoveAll, Confirmed;
      var gone := set p | p in s.pendingDestroy && p !in s.view.spaces;
      assert r.pendingDestroy == s.pendingDestroy - gone;
    }

    /** Volatile workspaces whose Space went away on its own. */
    method RetireVanished()
      modifies `reg, `layouts, `parked, `grace, `focusQueue, `moveQueue
      ensures Now() == Retire(old(Now()))
    {
      var gone: set<Key> := {};
      var rest := reg.Keys;
      while rest != {}
        invariant rest <= reg.Keys && Now() == old(Now())
        invariant gone == set k | k in reg && k !in rest && !reg[k].persistent && Vanished(Now(), reg[k])
        decreases |rest|
      {
        var k :| k in rest;
        rest := rest - {k};
        var shown := reg[k].ActiveSpace();
        if !reg[k].persistent && shown.Some? && shown.value !in view.spaces {
          gone := gone + {k};
        }
      }
      assert gone == set k | k in reg && !reg[k].persistent && Vanished(Now(), reg[k]);
      hide RemoveAll, Vanished;
      RemoveEach(gone);
    }

    // ---------------------------------------------------------------- parking

    method ParkTree(k: Key)
      modifies `reg, `layouts, `parked
      ensures var b := ShownOn(old(reg), k);
              && layouts == (if b.Some? && b.value in old(layouts) then old(layouts) - {b.value} else old(layouts))
              && parked == (if b.Some? && b.value in old(layouts) then old(parked)[k := old(layouts)[b.value]] else old(parked))
              && reg == if k in old(reg) then old(reg)[k := old(reg)[k].(backing := None)] else old(reg)
    {
      var b := if k in reg then reg[k].ActiveSpace() else None;
      if b.Some? && b.value in layouts {
        parked := parked[k := layouts[b.value]];
        layouts := layouts - {b.value};
      }
      if k in reg {
        reg := reg[k := reg[k].(backing := None)];
      }
    }

    method ClearStaleBacking(k: Key)
      modifies `reg, `layouts, `parked
      ensures Now() == ClearStale(old(Now()), k)
    {
      ParkTree(k);
    }

    method QueueCreation(k: Key, d: DisplayId)
      modifies `requests
      ensures requests == Requested(old(requests), k, d)
    {
      if !exists r | r in requests :: r.key == k {
        requests := requests + [Request(k, d)];
      }
    }

    method ParkIfVanished(k: Key)
      modifies `reg, `layouts, `parked, `requests
      ensures Now() == ParkOne(old(Now()), k)
    {
      if k !in reg || !reg[k].persistent {
        return;
      }
      var shown, display := reg[k].ActiveSpace(), reg[k].display;
      if shown.None? || shown.value in view.spaces {
        return;
      }
      hide ClearStale, Requested;
      ClearStaleBacking(k);
      QueueCreation(k, display);
    }

    /** Every persistent workspace whose Space is gone, in whatever order the hash map yields them. */
    method ParkAllVanished() returns (ghost walk: seq<Key>)
      modifies `reg, `layouts, `parked, `requests
      ensures Elements(walk) == old(reg).Keys && NoDup(walk)
      ensures Now() == ParkVanished(old(Now()), walk)
    {
      var keys := Enumerate(reg.Keys);
      walk := keys;
      var n := 0;
      while n < |keys|
        invariant 0 <= n <= |keys|
        invariant ParkVanished(old(Now()), keys) == ParkVanished(Now(), keys[n..])
      {
        hide ParkOne;
        ParkIfVanished(keys[n]);
        n := n + 1;
      }
    }

    // --------------------------------------------------------- logical order

    method CollectNormal(ks: seq<Key>) returns (spaces: seq<SpaceId>)
      requires forall k | k in ks :: k in reg
      ensures spaces == NormalSpaces(reg, ks)
    {
      spaces := [];
      for n := 0 to |ks|
        invariant spaces + NormalSpaces(reg, ks[n..]) == NormalSpaces(reg, ks)
      {
        hide NormalSpaces;
        NormalStep(reg, ks, n);
        var b := reg[ks[n]].backing;
        var own := if b.Some? && b.value.Normal? then [b.value.space] else [];
        ghost var was, rest := spaces, NormalSpaces(reg, ks[n + 1..]);
        spaces := spaces + own;
        assert was + (own + rest) == spaces + rest;
      }
    }

    static lemma NormalStep(reg: Registry, ks: seq<Key>, n: nat)
      requires n < |ks| && forall k | k in ks :: k in reg
      ensures var b := reg[ks[n]].backing;
              NormalSpaces(reg, ks[n..]) == (if b.Some? && b.value.Normal? then [b.value.space] else []) + NormalSpaces(reg, ks[n + 1..])
    {
      assert ks[n..][0] == ks[n] && ks[n..][1..] == ks[n + 1..];
    }

    method CollectOrder(strips: seq<DisplayId>) returns (order: seq<SpaceId>)
      ensures order == LogicalOrder(reg, strips)
    {
      order := [];
      for n := 0 to |strips|
        invariant order + LogicalOrder(reg, strips[n..]) == LogicalOrder(reg, strips)
      {
        hide NormalSpaces, KeysFor;
        assert strips[n..][0] == strips[n] && strips[n..][1..] == strips[n + 1..];
        var ks := CollectKeys(reg, strips[n]);
        KeysForLists(reg, strips[n]);
        var spaces := CollectNormal(ks);
        order := order + spaces;
      }
    }

    /** Displays in the order strips are reserved in: an insertion sort, from whatever order the map yields. */
    static method SortStrips(displays: map<DisplayId, Display>) returns (strips: seq<DisplayId>)
      ensures StripWalk(displays, strips)
    {
      var rest := displays.Keys;
      strips := [];
      while rest != {}
        invariant rest <= displays.Keys && NoDup(strips) && forall d :: d in strips <==> d in displays && d !in rest
        invariant ByCorner(displays, strips)
        decreases rest
      {
        var d :| d in rest;
        strips := InsertByCorner(displays, d, strips);
        rest := rest - {d};
      }
    }

    static ghost predicate ByCorner(displays: map<DisplayId, Display>, strips: seq<DisplayId>) {
      && (forall d | d in strips :: d in displays)
      && forall i, j | 0 <= i < j < |strips| :: CornerLe(displays[strips[i]].frame, displays[strips[j]].frame)
    }

    static method InsertByCorner(displays: map<DisplayId, Display>, d: DisplayId, strips: seq<DisplayId>) returns (r: seq<DisplayId>)
      requires d in displays && d !in strips && NoDup(strips) && ByCorner(displays, strips)
      ensures NoDup(r) && ByCorner(displays, r) && forall e :: e in r <==> e == d || e in strips
    {
      var i := 0;
      while i < |strips| && CornerLe(displays[strips[i]].frame, displays[d].frame)
        invariant i <= |strips| && forall j | 0 <= j < i :: CornerLe(displays[strips[j]].frame, displays[d].frame)
      {
        i := i + 1;
      }
      r := strips[..i] + [d] + strips[i..];
      hide Rounded;
      assert forall j | i <= j < |strips| :: CornerLe(displays[d].frame, displays[strips[j]].frame);
      assert forall e | e in strips :: e in strips[..i] || e in strips[i..];
    }

    method ReserveLogicalOrder(now: Instant, visit: Visit)
      requires StripWalk(view.displays, visit.strips)
      modifies `placement
      ensures Now() == ReserveOrder(old(Now()), now, visit)
    {
      var order := CollectOrder(visit.strips);
      hide LogicalOrder;
      placement := Some(Reservation(order, now, now + PLACEMENT_DEADLINE));
    }

    // -------------------------------------------------------------- fullscreen

    /** Fullscreen Spaces some workspace already shows. */
    method CollectOwned() returns (owned: set<SpaceId>)
      ensures owned == OwnedFullscreen(Now())
    {
      owned := {};
      var rest := reg.Keys;
      while rest != {}
        invariant rest <= reg.Keys
        invariant forall f :: f in owned <==> (f in view.spaces && view.spaces[f].isFullscreen && !view.spaces[f].isSystem
                                               && exists k :: k in reg && k !in rest && reg[k].ActiveSpace() == Some(f))
        decreases |rest|
      {
        var k :| k in rest;
        rest := rest - {k};
        var f := reg[k].ActiveSpace();
        if f.Some? && f.value in view.spaces && view.spaces[f.value].isFullscreen && !view.spaces[f.value].isSystem {
          owned := owned + {f.value};
        }
      }
    }

    /** The least window that went fullscreen out of a Space. */
    method FindOwner(previous: map<WindowId, Window>, home: SpaceId, now: Instant, owned: set<SpaceId>, ghost s: State)
      returns (best: Option<WindowId>)
      requires s.view == view && s.lastSpace == lastSpace && owned == OwnedFullscreen(s)
      ensures var ws := Entering(s, previous, home, now);
              best == if ws == {} then None else Some(LeastWindow(ws))
    {
      best := None;
      ghost var ws := Entering(s, previous, home, now);
      var rest := view.windows.Keys;
      while rest != {}
        invariant rest <= view.windows.Keys
        invariant best.None? ==> forall w | w in ws :: w in rest
        invariant best.Some? ==> best.value in ws && forall w | w in ws && w !in rest :: best.value <= w
        decreases |rest|
      {
        hide OwnedFullscreen;
        var w :| w in rest;
        rest := rest - {w};
        var x := view.windows[w].space;
        if x.Some? && x.value in view.spaces && view.spaces[x.value].isFullscreen && !view.spaces[x.value].isSystem && x.value !in owned {
          var came :=
            if w in previous && previous[w].space.Some? then previous[w].space.value == home
            else w in lastSpace && lastSpace[w].0 == home && now < lastSpace[w].1 + WINDOW_LAST_SPACE_TTL;
          if came && (best.None? || w < best.value) {
            best := Some(w);
          }
        }
      }
      if best.Some? {
        assert LeastWindow(ws) == best.value;
      } else {
        assert ws == {};
      }
    }

    /** One workspace: leave fullscreen, enter it, or stay. */
    method SubstituteOne(k: Key, previous: map<WindowId, Window>, now: Instant, owned: set<SpaceId>, ghost s: State) returns (left: bool)
      requires s.view == view && s.lastSpace == lastSpace && owned == OwnedFullscreen(s) && k in reg
      modifies `reg, `grace
      ensures reg == old(reg)[k := Substituted(s, previous, now, old(reg)[k])]
      ensures left <==> old(reg)[k].IsFullscreen() && FullscreenLost(s, old(reg)[k].backing.value)
      ensures grace == if left then old(grace)[k := now + DYNAMIC_GRACE] else old(grace)
    {
      left := false;
      var e := reg[k];
      hide OwnedFullscreen, Entering;
      if e.backing.Some? && e.backing.value.Fullscreen? {
        var b := e.backing.value;
        var exists_ := b.fullscreenSpace in view.spaces && view.spaces[b.fullscreenSpace].isFullscreen && !view.spaces[b.fullscreenSpace].isSystem;
        if b.window !in view.windows || !exists_ {
          reg := reg[k := e.(backing := if view.Ordinary(b.restoreSpace) then Some(Normal(b.restoreSpace)) else None)];
          grace := grace[k := now + DYNAMIC_GRACE];
          left := true;
          return;
        }
      } else if e.backing.Some? {
        var home := e.backing.value.space;
        var owner := FindOwner(previous, home, now, owned, s);
        if owner.Some? {
          assert owner.value in Entering(s, previous, home, now);
          EnteringShown(s, previous, home, now, owner.value);
          reg := reg[k := e.(backing := Some(Fullscreen(view.windows[owner.value].space.value, home, owner.value)))];
          return;
        }
      }
      assert reg[k := reg[k]] == reg;
    }

    static lemma EnteringShown(s: State, previous: map<WindowId, Window>, home: SpaceId, now: Instant, w: WindowId)
      requires w in Entering(s, previous, home, now)
      ensures w in s.view.windows && s.view.windows[w].space.Some?
    {
    }

    /** The workspaces not in `rest` have been through substitution. */
    static ghost predicate SubstitutedTo(s: State, previous: map<WindowId, Window>, now: Instant, rest: set<Key>,
                                         reg: Registry, grace: map<Key, Instant>, restored: bool)
    {
      && reg.Keys == s.reg.Keys && rest <= s.reg.Keys
      && (forall k | k in reg :: reg[k] == if k in rest then s.reg[k] else Substituted(s, previous, now, s.reg[k]))
      && grace == s.grace + (map k | k in Restored(s) - rest :: now + DYNAMIC_GRACE)
      && (restored <==> Restored(s) - rest != {})
    }

    static lemma {:induction false} SubstituteStep(s: State, previous: map<WindowId, Window>, now: Instant, rest: set<Key>,
                                                   reg: Registry, grace: map<Key, Instant>, restored: bool, k: Key)
      requires SubstitutedTo(s, previous, now, rest, reg, grace, restored) && k in rest
      ensures SubstitutedTo(s, previous, now, rest - {k}, reg[k := Substituted(s, previous, now, s.reg[k])],
                            if k in Restored(s) then grace[k := now + DYNAMIC_GRACE] else grace, restored || k in Restored(s))
    {
      hide Substituted, Restored;
      var done := Restored(s) - rest;
      GraceOneMore(s.grace, done, k, now + DYNAMIC_GRACE);
      assert Restored(s) - (rest - {k}) == if k in Restored(s) then done + {k} else done;
    }

    static lemma GraceOneMore(base: map<Key, Instant>, done: set<Key>, k: Key, t: Instant)
      ensures base + (map j | j in done + {k} :: t) == (base + map j | j in done :: t)[k := t]
    {
    }

    static lemma InRestored(s: State, previous: map<WindowId, Window>, now: Instant, rest: set<Key>,
                            reg: Registry, grace: map<Key, Instant>, restored: bool, k: Key)
      requires SubstitutedTo(s, previous, now, rest, reg, grace, restored) && k in rest
      ensures k in reg && reg[k] == s.reg[k] && (k in Restored(s) <==> reg[k].IsFullscreen() && FullscreenLost(s, reg[k].backing.value))
    {
      hide Substituted;
    }

    static lemma {:induction false} SubstituteEnds(s: State, previous: map<WindowId, Window>, now: Instant,
                                                   reg: Registry, grace: map<Key, Instant>, restored: bool)
      requires SubstitutedTo(s, previous, now, {}, reg, grace, restored)
      ensures reg == FullscreenRegistry(s, previous, now) && (restored <==> Restored(s) != {})
      ensures grace == s.grace + map k | k in Restored(s) :: now + DYNAMIC_GRACE
    {
      hide Substituted, Restored;
      assert Restored(s) - {} == Restored(s);
    }

    static lemma SubstituteStarts(s: State, previous: map<WindowId, Window>, now: Instant)
      ensures SubstitutedTo(s, previous, now, s.reg.Keys, s.reg, s.grace, false)
    {
      hide Substituted;
      assert Restored(s) <= s.reg.Keys;
      assert Restored(s) - s.reg.Keys == {};
    }

    method SubstituteAll(previous: map<WindowId, Window>, now: Instant) returns (restored: bool)
      modifies `reg, `grace
      ensures reg == FullscreenRegistry(old(Now()), previous, now)
      ensures restored <==> Restored(old(Now())) != {}
      ensures grace == old(grace) + map k | k in Restored(old(Now())) :: now + DYNAMIC_GRACE
    {
      var owned := CollectOwned();
      ghost var s := Now();
      restored := false;
      var rest := reg.Keys;
      SubstituteStarts(s, previous, now);
      while rest != {}
        invariant SubstitutedTo(s, previous, now, rest, reg, grace, restored)
        decreases |rest|
      {
        hide SubstitutedTo, OwnedFullscreen, Substituted, FullscreenLost, Restored;
        var k :| k in rest;
        InRestored(s, previous, now, rest, reg, grace, restored, k);
        SubstituteStep(s, previous, now, rest, reg, grace, restored, k);
        var left := SubstituteOne(k, previous, now, owned, s);
        restored := restored || left;
        rest := rest - {k};
      }
      SubstituteEnds(s, previous, now, reg, grace, restored);
    }

    method ReconcileFullscreenSpaces(previous: map<WindowId, Window>, now: Instant, visit: Visit)
      requires StripWalk(view.displays, visit.strips)
      modifies `reg, `grace, `placement
      ensures Now() == ReconcileFullscreen(old(Now()), previous, now, visit)
    {
      hide FullscreenRegistry, Restored, ReserveOrder, StripWalk;
      var restored := SubstituteAll(previous, now);
      if restored {
        ReserveLogicalOrder(now, visit);
      }
    }

    // ------------------------------------------------------------ window memory

    method RecordSeen(now: Instant, ghost all: map<WindowId, (SpaceId, Instant)>)
      requires all == lastSpace + map w | w in view.windows && view.windows[w].space.Some? :: (view.windows[w].space.value, now)
      modifies `lastSpace
      ensures lastSpace == all
    {
      var rest := view.windows.Keys;
      while rest != {}
        invariant rest <= view.windows.Keys
        invariant forall w | w in rest :: At(lastSpace, w) == At(old(lastSpace), w)
        invariant forall w: WindowId | w !in rest :: At(lastSpace, w) == At(all, w)
        decreases |rest|
      {
        var w :| w in rest;
        if view.windows[w].space.Some? {
          lastSpace := lastSpace[w := (view.windows[w].space.value, now)];
        }
        rest := rest - {w};
      }
      SameMap(lastSpace, all);
    }

    method NoteSeen(now: Instant)
      modifies `lastSpace
      ensures lastSpace == LastSeen(view, old(lastSpace), now)
    {
      ghost var all := lastSpace + map w | w in view.windows && view.windows[w].space.Some? :: (view.windows[w].space.value, now);
      RecordSeen(now, all);
      lastSpace := map w | w in lastSpace && (w in view.windows || now < lastSpace[w].1 + WINDOW_LAST_SPACE_TTL) :: lastSpace[w];
    }

    method NoteWindows(now: Instant)
      modifies `lastSpace
      ensures Now() == NoteWindowSpaces(old(Now()), now)
    {
      hide LastSeen;
      NoteSeen(now);
    }

    // ---------------------------------------------------------------- binding

    /** Walk the Spaces, keeping the first by slot that is fit. */
    method ScanCandidates(a: Awaited, claimed: set<SpaceId>, ghost cs: set<Space>) returns (best: Option<Space>)
      requires forall x | x in view.spaces :: view.spaces[x] in cs <==>
                 view.spaces[x].Ordinary() && x !in claimed && x !in a.before && view.spaces[x].display == a.display
      requires forall c | c in cs :: c.id in view.spaces && view.spaces[c.id] == c
      ensures best.None? ==> cs == {}
      ensures best.Some? ==> best.value in cs && forall c | c in cs :: SlotLe(best.value, c)
    {
      best := None;
      var rest := view.spaces.Keys;
      while rest != {}
        invariant rest <= view.spaces.Keys
        invariant best.None? ==> forall c | c in cs :: c.id in rest
        invariant best.Some? ==> best.value in cs && forall c | c in cs && c.id !in rest :: SlotLe(best.value, c)
        decreases |rest|
      {
        var x :| x in rest;
        rest := rest - {x};
        var space := view.spaces[x];
        if space.Ordinary() && x !in claimed && x !in a.before && space.display == a.display && (best.None? || !SlotLe(best.value, space)) {
          best := Some(space);
        }
      }
    }

    /** The first Space, by slot, an awaited creation may take. */
    method PickCandidate(a: Awaited) returns (best: Option<Space>)
      requires view.WellKeyed()
      ensures var cs := Candidates(Now(), a);
              (forall x, y | x in cs && y in cs && x.id == y.id :: x == y) && best == if cs == {} then None else Some(FirstSlot(cs))
    {
      ghost var s := Now();
      ghost var cs := Candidates(s, a);
      var claimed := set k | k in reg && reg[k].ActiveSpace().Some? :: reg[k].ActiveSpace().value;
      ClaimedAre(s, claimed);
      CandidatesKeyed(s, a);
      forall x | x in view.spaces
        ensures view.spaces[x] in cs <==> view.spaces[x].Ordinary() && x !in claimed && x !in a.before && view.spaces[x].display == a.display
      {
        InCandidates(s, a, x);
      }
      hide State.Claimed, Candidates, View.WellKeyed, MayTake;
      best := ScanCandidates(a, claimed, cs);
      if best.Some? {
        assert SlotLe(best.value, FirstSlot(cs)) && SlotLe(FirstSlot(cs), best.value);
      }
    }

    static lemma ClaimedAre(s: State, claimed: set<SpaceId>)
      requires claimed == set k | k in s.reg && s.reg[k].ActiveSpace().Some? :: s.reg[k].ActiveSpace().value
      ensures forall x: SpaceId :: s.Claimed(x) <==> x in claimed
    {
    }

    static lemma {:induction false} InCandidates(s: State, a: Awaited, x: SpaceId)
      requires x in s.view.spaces && s.view.WellKeyed()
      ensures s.view.spaces[x] in Candidates(s, a) <==>
                s.view.spaces[x].Ordinary() && !s.Claimed(x) && x !in a.before && s.view.spaces[x].display == a.display
    {
      CandidatesKeyed(s, a);
    }

    method TakeSpace(k: Key, x: Space, now: Instant)
      requires k in reg
      modifies `reg, `external, `grace
      ensures reg == old(reg)[k := old(reg)[k].(backing := Some(Normal(x.id)), lastPosition := Some(x.position))]
      ensures external == old(external) - {x.id} && grace == old(grace)[k := now + DYNAMIC_GRACE]
    {
      reg := reg[k := reg[k].(backing := Some(Normal(x.id)), lastPosition := Some(x.position))];
      external := external - {x.id};
      grace := grace[k := now + DYNAMIC_GRACE];
    }

    method BindSpace(k: Key, x: Space, now: Instant, visit: Visit)
      requires k in reg && StripWalk(view.displays, visit.strips)
      modifies `reg, `external, `grace, `placement
      ensures Now() == BindTo(old(Now()), k, x, now, visit)
    {
      hide ReserveOrder, StripWalk;
      TakeSpace(k, x, now);
      ReserveLogicalOrder(now, visit);
    }

    method ReleaseReservation(k: Key)
      modifies `reg, `layouts, `parked, `grace, `focusQueue, `moveQueue
      ensures Now() == Released(old(Now()), k)
    {
      hide RemoveAll;
      if k in reg && reg[k].dynamic && reg[k].backing == None {
        RemoveOne(k);
      }
    }

    method KeepAwaiting(a: Awaited)
      modifies `awaited
      ensures Now() == old(Now()).(awaited := old(awaited) + [a])
    {
      awaited := awaited + [a];
    }

    /** One awaited creation: released, dropped, bound, or still awaited. */
    method BindAwaitedOne(old_: Awaited, now: Instant, visit: Visit)
      requires view.WellKeyed() && StripWalk(view.displays, visit.strips)
      modifies `reg, `layouts, `parked, `grace, `focusQueue, `moveQueue, `external, `placement, `awaited
      ensures Now() == BindOne(old(Now()), old_, now, visit)
    {
      hide BindTo, Released, Candidates, View.WellKeyed, StripWalk;
      var a := Aged(old_, now);
      if Expired(a, now) {
        ReleaseReservation(a.key);
      } else if a.key in reg && reg[a.key].backing.None? {
        var x := PickCandidate(a);
        if x.None? {
          KeepAwaiting(a);
        } else {
          BindSpace(a.key, x.value, now, visit);
        }
      }
    }

    method BindAwaitedSpaces(now: Instant, visit: Visit)
      requires view.WellKeyed() && StripWalk(view.displays, visit.strips)
      modifies `reg, `layouts, `parked, `grace, `focusQueue, `moveQueue, `external, `placement, `awaited
      ensures Now() == BindAwaited(old(Now()), now, visit)
    {
      hide BindOne, View.WellKeyed, StripWalk;
      var todo := TakeAwaited();
      ghost var start := Now();
      for n := 0 to |todo|
        invariant view == start.view && BindAll(start, todo, now, visit) == BindAll(Now(), todo[n..], now, visit)
      {
        assert todo[n..][0] == todo[n] && todo[n..][1..] == todo[n + 1..];
        BindAwaitedOne(todo[n], now, visit);
      }
      assert todo[|todo|..] == [];
    }

    method TakeAwaited() returns (todo: seq<Awaited>)
      modifies `awaited
      ensures todo == old(awaited) && Now() == old(Now()).(awaited := [])
    {
      todo := awaited;
      awaited := [];
    }

    // ---------------------------------------------------- Spaces made by others

    method NextOrdinalFree() returns (n: nat)
      ensures n == NextOrdinal(reg)
    {
      n := 0;
      var rest := reg.Keys;
      while rest != {}
        invariant rest <= reg.Keys
        invariant forall k | k in reg && k !in rest :: reg[k].ordinal < n
        invariant n == 0 || exists k :: k in reg && reg[k].ordinal + 1 == n
        decreases |rest|
      {
        var k :| k in rest;
        rest := rest - {k};
        if reg[k].ordinal + 1 > n {
          n := reg[k].ordinal + 1;
        }
      }
      var m := NextOrdinal(reg);
    }

    method RegisterDynamic(k: Key)
      modifies `reg
      ensures reg == if k in old(reg) then old(reg) else old(reg)[k := Entry(k.name, k.display, false, true, NextOrdinal(old(reg)), None, None)]
    {
      if k !in reg {
        var n := NextOrdinalFree();
        reg := reg[k := Entry(k.name, k.display, false, true, n, None, None)];
      }
    }

    method EnsureDynamicWorkspace(k: Key)
      modifies `reg
      ensures Now() == EnsureDynamic(old(Now()), k)
    {
      hide NextOrdinal;
      RegisterDynamic(k);
    }

    /** The highest number a display's workspaces go by. */
    method HighestNumber(d: DisplayId) returns (m: nat)
      ensures m == MaxNumber(reg, d)
    {
      m := 0;
      var rest := reg.Keys;
      while rest != {}
        invariant rest <= reg.Keys && m <= U32_MAX
        invariant forall k | k in reg && k !in rest && reg[k].display == d && ParseU32(reg[k].name).Some? :: ParseU32(reg[k].name).value <= m
        invariant m == 0 || exists k :: k in reg && reg[k].display == d && ParseU32(reg[k].name) == Some(m)
        decreases |rest|
      {
        hide ParseU32;
        var k :| k in rest;
        rest := rest - {k};
        var n := ParseU32(reg[k].name);
        if reg[k].display == d && n.Some? && n.value > m {
          NumbersFit(reg[k].name);
          m := n.value;
        }
      }
      ghost var top := MaxNumber(reg, d);
    }

    static lemma NumbersFit(name: string)
      ensures ParseU32(name).Some? ==> ParseU32(name).value <= U32_MAX
    {
    }

    /** Count up from a number until a name is free or the numbers run out. */
    method FindFree(d: DisplayId, start: nat) returns (n: Option<nat>)
      requires start <= U32_MAX
      ensures n == FreeNumber(reg, d, start)
    {
      hide ToText;
      var next := start;
      while Key(d, ToText(next)) in reg && next != U32_MAX
        invariant next <= U32_MAX && FreeNumber(reg, d, start) == FreeNumber(reg, d, next)
        decreases U32_MAX - next
      {
        next := next + 1;
      }
      return if Key(d, ToText(next)) in reg then None else Some(next);
    }

    method BackByForeign(k: Key, x: SpaceId)
      requires k in reg
      modifies `reg, `external
      ensures reg == old(reg)[k := old(reg)[k].(backing := Some(Normal(x)))] && external == old(external) - {x}
    {
      reg := reg[k := reg[k].(backing := Some(Normal(x)))];
      external := external - {x};
    }

    method PickName(d: DisplayId) returns (k: Option<Key>)
      ensures k == NextName(reg, d)
    {
      hide MaxNumber, ToText;
      var top := HighestNumber(d);
      var n := FindFree(d, if top < U32_MAX then top + 1 else U32_MAX);
      return if n.None? then None else Some(Key(d, ToText(n.value)));
    }

    method AdoptSpace(x: SpaceId)
      requires x in view.spaces
      modifies `reg, `external
      ensures Now() == AdoptOne(old(Now()), x)
    {
      hide NextName, AdoptAs;
      var k := PickName(view.spaces[x].display);
      if k.Some? {
        AdoptUnder(k.value, x);
      }
    }

    method AdoptUnder(k: Key, x: SpaceId)
      modifies `reg, `external
      ensures Now() == AdoptAs(old(Now()), k, x)
    {
      hide EnsureDynamic;
      EnsureDynamicWorkspace(k);
      BackByForeign(k, x);
    }

    method AdoptEach(xs: seq<SpaceId>)
      requires forall x | x in xs :: x in view.spaces
      modifies `reg, `external
      ensures Now() == AdoptAll(old(Now()), xs)
    {
      hide AdoptOne;
      for n := 0 to |xs|
        invariant Now().view == old(Now()).view && AdoptAll(old(Now()), xs) == AdoptAll(Now(), xs[n..])
      {
        assert xs[n..][0] == xs[n] && xs[n..][1..] == xs[n + 1..];
        AdoptSpace(xs[n]);
      }
    }

    method RetainExternal()
      modifies `external
      ensures Now() == old(Now()).(external := StillExternal(old(Now())))
    {
      external := map x | x in external && x in view.spaces && !(exists k | k in reg :: reg[k].Holds(x)) :: external[x];
    }

    /** Every ordinary Space nobody knows gets a grace period, once. */
    method AddStrangers(now: Instant)
      modifies `external
      ensures external == (map x | x in Strangers(old(Now())) :: now + EXTERNAL_GRACE) + old(external)
    {
      hide Strangers, Entry.Holds, Graced;
      ghost var s := Now();
      NoneGraced(s, now);
      var rest := view.spaces.Keys;
      while rest != {}
        invariant rest <= view.spaces.Keys && external == Graced(s, now, view.spaces.Keys - rest)
        decreases |rest|
      {
        var x :| x in rest;
        var known := exists k | k in reg :: reg[k].Holds(x);
        IsStranger(s, x);
        GraceOne(s, now, view.spaces.Keys - rest, x);
        if view.spaces[x].Ordinary() && !known && x !in external {
          external := external[x := now + EXTERNAL_GRACE];
        }
        assert view.spaces.Keys - (rest - {x}) == view.spaces.Keys - rest + {x};
        rest := rest - {x};
      }
      assert view.spaces.Keys - rest == view.spaces.Keys;
      AllGraced(s, now);
    }

    /** The external Spaces once some of the observed ones have been looked at. */
    static ghost function Graced(s: State, now: Instant, seen: set<SpaceId>): map<SpaceId, Instant> {
      (map x | x in Strangers(s) && x in seen :: now + EXTERNAL_GRACE) + s.external
    }

    static lemma NoneGraced(s: State, now: Instant)
      ensures s.view.spaces.Keys - s.view.spaces.Keys == {} && Graced(s, now, {}) == s.external
    {
      hide Strangers;
    }

    static lemma GraceOne(s: State, now: Instant, seen: set<SpaceId>, x: SpaceId)
      requires x !in seen
      ensures x in Graced(s, now, seen) <==> x in s.external
      ensures Graced(s, now, seen + {x})
              == if x in Strangers(s) && x !in s.external then Graced(s, now, seen)[x := now + EXTERNAL_GRACE] else Graced(s, now, seen)
    {
      hide Strangers;
    }

    static lemma AllGraced(s: State, now: Instant)
      ensures Graced(s, now, s.view.spaces.Keys) == (map x | x in Strangers(s) :: now + EXTERNAL_GRACE) + s.external
    {
      assert Strangers(s) <= s.view.spaces.Keys;
      hide Strangers;
    }

    static lemma IsStranger(s: State, x: SpaceId)
      ensures x in Strangers(s) <==> x in s.view.spaces && s.view.spaces[x].Ordinary() && !(exists k | k in s.reg :: s.reg[k].Holds(x))
    {
    }

    method GraceStrangers(now: Instant)
      modifies `external
      ensures Now() == GraceSurplus(old(Now()), now)
    {
      hide Strangers;
      AddStrangers(now);
    }

    /** External Spaces in use, in slot order. */
    method CollectAdoptable() returns (xs: seq<SpaceId>)
      requires view.WellKeyed()
      ensures xs == Adoptable(Now())
    {
      var used := set x | x in external && x in view.spaces && (view.spaces[x].focused || view.Occupied(x)) :: view.spaces[x];
      var q := Enumerate(used);
      SlotTotal(used);
      q := SortSeq(q, SlotLe);
      xs := Ids(q);
    }

    method ObserveExternalSpaces(now: Instant)
      requires view.WellKeyed()
      modifies `external, `initialized, `reg
      ensures Now() == ObserveExternal(old(Now()), now)
    {
      hide StillExternal, GraceSurplus, Adoptable, AdoptAll, View.WellKeyed;
      RetainExternal();
      if !initialized {
        MarkInitialized();
        return;
      }
      GraceStrangers(now);
      var xs := CollectAdoptable();
      if awaited != [] {
        return;
      }
      AdoptEach(xs);
    }

    method MarkInitialized()
      modifies `initialized
      ensures Now() == old(Now()).(initialized := true)
    {
      initialized := true;
    }

    // --------------------------------------------------------------- placement

    /** Walk the displays that hold reserved Spaces, by id, to the first out of order. */
    method FindCorrection(order: seq<SpaceId>) returns (m: Option<Move>)
      ensures m == NextPlacementMove(order, view)
    {
      var ds := Enumerate(OrderedDisplays(order, view));
      NatTotal(Elements(ds));
      ds := SortSeq(ds, NatLe);
      assert ds == Ascending(OrderedDisplays(order, view));
      for n := 0 to |ds|
        invariant FirstMove(order, view, ds) == FirstMove(order, view, ds[n..])
      {
        assert ds[n..][0] == ds[n] && ds[n..][1..] == ds[n + 1..];
        hide MoveOn, OrderedDisplays;
        var move := MoveOn(order, view, ds[n]);
        if move.Some? {
          return move;
        }
      }
      return None;
    }

    /** Compare observation with the reservation before releasing it or asking for one correction. */
    method CorrectOnce(now: Instant) returns (actions: seq<Action>)
      requires placement.Some?
      modifies `placement
      ensures (placement, actions) == PlacementPass(old(placement).value, view, caps.reorderSpace, now)
    {
      var p := placement.value;
      var m := FindCorrection(p.order);
      hide NextPlacementMove;
      if m.None? || !caps.reorderSpace || now >= p.deadline {
        placement := None;
        return [];
      }
      if now < p.retryAt {
        return [];
      }
      placement := Some(p.(retryAt := now + PLACEMENT_RETRY));
      return [MoveSpace(m.value.space, m.value.after)];
    }

    method ReconcilePlacementNow(now: Instant) returns (actions: seq<Action>)
      modifies `placement
      ensures (Now(), actions) == ReconcilePlacement(old(Now()), now)
    {
      if placement.None? {
        return [];
      }
      hide PlacementPass;
      actions := CorrectOnce(now);
    }

    // ------------------------------------------------------------ slots and trees

    /** Workspaces waiting for a Space sit the remap out and are put back as they were. */
    method RemapFree(visit: Visit) returns (moves: seq<RemapMove>)
      requires view.WellKeyed() && NoDup(visit.displays) && Elements(visit.displays) == view.displays.Keys
      modifies `reg
      ensures var s := old(Now());
              var free := s.reg - Held(s);
              var after := Remapped(free, SlotSpaces(s), s.view.displays.Keys);
              after.Keys == free.Keys && reg == s.reg + after && moves == RemapMoves(free, after, visit.displays)
    {
      ghost var s := Now();
      var held := set k | k in reg && ((exists a | a in awaited :: a.key == k) || (exists r | r in requests :: r.key == k));
      assert held == Held(s);
      var spaces := map x | x in view.spaces && x !in external :: view.spaces[x];
      var registry := new WorkspaceRegistry(reg - held);
      hide Remapped, RemapMoves, Held;
      moves := registry.RemapAfterSnapshot(spaces, visit.displays);
      RemappedKeys(s.reg - held, spaces, view.displays.Keys);
      reg := reg + registry.entries;
    }

    static lemma RemappedKeys(free: Registry, spaces: map<SpaceId, Space>, displays: set<DisplayId>)
      requires KeyedSpaces(spaces)
      ensures Remapped(free, spaces, displays).Keys == free.Keys
    {
      hide Rebound;
    }

    method RemapSlotsNow(visit: Visit) returns (moves: seq<RemapMove>)
      requires view.WellKeyed() && NoDup(visit.displays) && Elements(visit.displays) == view.displays.Keys
      modifies `reg
      ensures (Now(), moves) == RemapSlots(old(Now()), visit)
    {
      if placement.Some? {
        return [];
      }
      hide Remapped, RemapMoves, Held, SlotSpaces, View.WellKeyed;
      moves := RemapFree(visit);
    }

    method ApplyMoves(moves: seq<RemapMove>)
      modifies `layouts, `parked
      ensures Trees(layouts, parked) == MoveTrees(Trees(old(layouts), old(parked)), view.spaces.Keys, moves)
    {
      ghost var t0 := Trees(layouts, parked);
      for n := 0 to |moves|
        invariant MoveTrees(t0, view.spaces.Keys, moves) == MoveTrees(Trees(layouts, parked), view.spaces.Keys, moves[n..])
      {
        assert moves[n..][0] == moves[n] && moves[n..][1..] == moves[n + 1..];
        var m := moves[n];
        ghost var was := Trees(layouts, parked);
        if m.from.Some? && m.from.value !in view.spaces && m.from.value in layouts {
          var tree := layouts[m.from.value];
          if m.from.value == m.to {
            layouts := layouts - {m.to};
            parked := parked[m.key := tree];
          } else {
            layouts := (layouts - {m.from.value})[m.to := tree];
          }
        }
        assert Trees(layouts, parked) == MoveTree(was, view.spaces.Keys, m);
      }
    }

    method ReattachAll() returns (ghost walk: seq<Key>)
      modifies `layouts, `parked
      ensures Elements(walk) == old(parked).Keys && NoDup(walk)
      ensures Trees(layouts, parked) == Reattach(Trees(old(layouts), old(parked)), reg, walk)
    {
      var keys := Enumerate(parked.Keys);
      walk := keys;
      ghost var t0 := Trees(layouts, parked);
      for n := 0 to |keys|
        invariant Reattach(t0, reg, keys) == Reattach(Trees(layouts, parked), reg, keys[n..])
      {
        assert keys[n..][0] == keys[n] && keys[n..][1..] == keys[n + 1..];
        var k := keys[n];
        var x := if k in reg then reg[k].ActiveSpace() else None;
        if k in parked && x.Some? {
          layouts := layouts[x.value := parked[k]];
          parked := parked - {k};
        }
      }
    }

    /** Slots and trees follow the bindings. */
    method RebindNow(visit: Visit) returns (moves: seq<RemapMove>, ghost walked: Visit)
      requires view.WellKeyed() && NoDup(visit.displays) && Elements(visit.displays) == view.displays.Keys
      modifies `reg, `layouts, `parked
      ensures walked == visit.(parked := walked.parked) && (Now(), moves) == Rebind(old(Now()), walked)
      ensures MeetsAll(old(Now()), walked)
    {
      ghost var s := Now();
      moves := RemapSlotsNow(visit);
      ghost var s1 := Now();
      ApplyMoves(moves);
      ghost var walk := ReattachAll();
      walked := visit.(parked := walk);
      SameRemap(s, visit, walk);
      hide RemapSlots, MoveTrees, Reattach, View.WellKeyed;
      forall k ensures Meets(s, walked, k) {
        assert k in Elements(walk) <==> k in walk;
      }
    }

    static lemma SameRemap(s: State, visit: Visit, walk: seq<Key>)
      requires s.view.WellKeyed()
      ensures RemapSlots(s, visit.(parked := walk)) == RemapSlots(s, visit)
    {
      hide Remapped, RemapMoves, Held, SlotSpaces;
    }

    // ------------------------------------------------------- empty workspaces

    /** What the sweep makes of one workspace. */
    method JudgeOne(k: Key, moved: set<Key>, now: Instant) returns (stale: bool, doomed: bool)
      requires k in reg
      ensures stale <==> k in Stale(Now(), moved, now)
      ensures doomed <==> k in Doomed(Now(), moved, now)
    {
      stale, doomed := false, false;
      var e := reg[k];
      hide View.Occupied, View.OrdinaryOn, RecentlyLeft;
      if e.persistent || e.backing.None? || e.backing.value.Fullscreen? {
        return;
      }
      var x := e.backing.value.space;
      var wanted := (exists f | f in focusQueue :: f.0 == k) || (exists f | f in moveQueue :: f.1 == k);
      if k in moved || wanted || (k in grace && grace[k] > now) {
        return;
      }
      if x !in view.spaces {
        stale := e.dynamic;
        return;
      }
      var space := view.spaces[x];
      var recent := exists w | w in lastSpace :: lastSpace[w].0 == x && now < lastSpace[w].1 + WINDOW_LAST_SPACE_TTL;
      assert recent <==> RecentlyLeft(Now(), x, now) by {
        RecentIs(Now(), x, now);
      }
      if space.isFullscreen || space.isSystem || space.focused || view.Occupied(x) || recent {
        return;
      }
      if |view.OrdinaryOn(space.display)| <= 1 {
        stale := true;
      } else {
        doomed := true;
      }
    }

    static lemma RecentIs(s: State, x: SpaceId, now: Instant)
      ensures RecentlyLeft(s, x, now) <==> exists w | w in s.lastSpace :: s.lastSpace[w].0 == x && now < s.lastSpace[w].1 + WINDOW_LAST_SPACE_TTL
    {
    }

    method JudgeAll(moved: set<Key>, now: Instant) returns (stale: set<Key>, doomed: set<Key>)
      ensures stale == Stale(Now(), moved, now) && doomed == Doomed(Now(), moved, now)
    {
      stale, doomed := {}, {};
      var rest := reg.Keys;
      ghost var s := Now();
      OnlyRegistered(s, moved, now);
      while rest != {}
        invariant rest <= reg.Keys
        invariant forall k :: k in stale <==> k in Stale(s, moved, now) && k !in rest
        invariant forall k :: k in doomed <==> k in Doomed(s, moved, now) && k !in rest
        decreases |rest|
      {
        hide Stale, Doomed;
        var k :| k in rest;
        rest := rest - {k};
        var isStale, isDoomed := JudgeOne(k, moved, now);
        if isStale {
          stale := stale + {k};
        }
        if isDoomed {
          doomed := doomed + {k};
        }
      }
    }

    static lemma OnlyRegistered(s: State, moved: set<Key>, now: Instant)
      ensures Stale(s, moved, now) <= s.reg.Keys && Doomed(s, moved, now) <= s.reg.Keys
    {
      hide Judged, Empty;
    }

    /** The first of the doomed by the text of its key. */
    method PickFirst(doomed: set<Key>) returns (k: Key)
      requires doomed != {}
      ensures k == FirstByText(doomed)
    {
      ghost var ts := set d | d in doomed :: (KeyText(d), d);
      TextTotal(ts);
      k :| k in doomed;
      var rest := doomed - {k};
      while rest != {}
        invariant rest <= doomed && k in doomed && k !in rest
        invariant forall d | d in doomed && d !in rest :: TextLe((KeyText(k), k), (KeyText(d), d))
        decreases |rest|
      {
        hide TextLe, KeyText;
        var d :| d in rest;
        rest := rest - {d};
        InTexts(doomed, d);
        InTexts(doomed, k);
        if !TextLe((KeyText(k), k), (KeyText(d), d)) {
          forall e | e in doomed && e !in rest && e != d ensures TextLe((KeyText(d), d), (KeyText(e), e)) {
            InTexts(doomed, e);
          }
          k := d;
        }
      }
      FirstIsLeast(doomed, k);
    }

    static lemma InTexts(ks: set<Key>, k: Key)
      requires k in ks
      ensures (KeyText(k), k) in set d | d in ks :: (KeyText(d), d)
    {
      hide KeyText;
    }

    static lemma {:induction false} FirstIsLeast(ks: set<Key>, k: Key)
      requires k in ks && forall d | d in ks :: TextLe((KeyText(k), k), (KeyText(d), d))
      ensures k == FirstByText(ks)
    {
      var ts := set d | d in ks :: (KeyText(d), d);
      TextTotal(ts);
      hide TextLe, KeyText;
      InTexts(ks, k);
      var f := FirstByText(ks);
      var least := Least(ts, TextLe);
      assert TextLe((KeyText(k), k), least) && TextLe(least, (KeyText(k), k));
    }

    method SweepGrace()
      modifies `grace
      ensures Now() == old(Now()).(grace := map k | k in old(grace) && k in reg :: old(grace)[k])
    {
      grace := map k | k in grace && k in reg :: grace[k];
    }

    method Sweep(stale: set<Key>)
      modifies `reg, `layouts, `parked, `grace, `focusQueue, `moveQueue
      ensures Now() == Swept(old(Now()), stale)
    {
      hide RemoveAll;
      RemoveEach(stale);
      SweepGrace();
    }

    method Condemn(x: SpaceId, k: Key)
      modifies `pendingDestroy
      ensures Now() == old(Now()).(pendingDestroy := map[x := k])
    {
      pendingDestroy := map[x := k];
    }

    method PickCondemned(doomed: set<Key>, ghost s: State, ghost moved: set<Key>, ghost now: Instant) returns (c: Option<(Key, SpaceId)>)
      requires s == Now() && doomed == Doomed(s, moved, now)
      ensures c == Condemned(s, moved, now)
    {
      hide Doomed;
      if doomed == {} {
        return None;
      }
      var k := PickFirst(doomed);
      return Some((k, reg[k].backing.value.space));
    }

    /** Destroy at most one empty volatile workspace's Space; forget the stale ones. */
    method DestroyEmptyNow(moved: set<Key>, now: Instant) returns (actions: seq<Action>)
      modifies `reg, `layouts, `parked, `grace, `focusQueue, `moveQueue, `pendingDestroy
      ensures (Now(), actions) == DestroyEmpty(old(Now()), moved, now)
    {
      if !caps.destroySpace || awaited != [] || pendingDestroy != map[] || topologyDestroy != None || placement != None {
        return [];
      }
      hide Swept, Stale, Doomed, Condemned;
      var stale, doomed := JudgeAll(moved, now);
      var c := PickCondemned(doomed, Now(), moved, now);
      Sweep(stale);
      if c.None? {
        return [];
      }
      Condemn(c.value.1, c.value.0);
      return [DestroySpace(c.value.1)];
    }

    // --------------------------------------------------------- queued intents

    method PopFocus(graced: Option<(Key, Instant)>)
      requires focusQueue != []
      modifies `focusQueue, `grace
      ensures focusQueue == old(focusQueue)[1..]
      ensures grace == if graced.Some? then old(grace)[graced.value.0 := graced.value.1] else old(grace)
    {
      focusQueue := focusQueue[1..];
      if graced.Some? {
        grace := grace[graced.value.0 := graced.value.1];
      }
    }

    method PopMove(graced: Option<(Key, Instant)>)
      requires moveQueue != []
      modifies `moveQueue, `grace
      ensures moveQueue == old(moveQueue)[1..]
      ensures grace == if graced.Some? then old(grace)[graced.value.0 := graced.value.1] else old(grace)
    {
      moveQueue := moveQueue[1..];
      if graced.Some? {
        grace := grace[graced.value.0 := graced.value.1];
      }
    }

    method FulfillFocusNow(now: Instant) returns (actions: seq<Action>)
      modifies `focusQueue, `grace
      ensures (Now(), actions) == FulfillFocus(old(Now()), now)
    {
      if focusQueue == [] {
        return [];
      }
      var (k, attempts) := focusQueue[0];
      var b := if k in reg then reg[k].ActiveSpace() else None;
      if b.None? {
        if k !in reg {
          PopFocus(None);
        }
        return [];
      }
      if attempts == 0 {
        PopFocus(Some((k, now + DYNAMIC_GRACE)));
        return [FocusSpace(b.value)];
      }
      PopFocus(if b.value in view.spaces && view.spaces[b.value].focused then Some((k, now + DYNAMIC_GRACE)) else None);
      return [];
    }

    method FulfillMoveNow(now: Instant) returns (actions: seq<Action>)
      modifies `moveQueue, `grace
      ensures (Now(), actions) == FulfillMove(old(Now()), now)
    {
      if moveQueue == [] {
        return [];
      }
      var (w, k) := moveQueue[0];
      var b := if k in reg then reg[k].ActiveSpace() else None;
      if b.None? {
        if k !in reg {
          PopMove(None);
        }
        return [];
      }
      PopMove(Some((k, now + DYNAMIC_GRACE)));
      return if w in view.windows then [MoveWindowToSpace(w, b.value)] else [];
    }

    method FulfillQueuesNow(now: Instant) returns (actions: seq<Action>)
      modifies `focusQueue, `moveQueue, `grace
      ensures (Now(), actions) == FulfillQueues(old(Now()), now)
    {
      if placement.Some? {
        return [];
      }
      hide FulfillFocus, FulfillMove;
      var first := FulfillFocusNow(now);
      var second := FulfillMoveNow(now);
      return first + second;
    }

    // ----------------------------------------------------------------- creation

    method QueueIf(wanted: bool, r: Request)
      modifies `requests
      ensures Now() == if wanted then old(Now()).(requests := old(requests) + [r]) else old(Now())
    {
      if wanted {
        requests := requests + [r];
      }
    }

    method RequestOn(d: DisplayId, ks: seq<Key>)
      modifies `requests
      ensures Now() == RequestAll(old(Now()), d, ks)
    {
      for n := 0 to |ks|
        invariant RequestAll(old(Now()), d, ks) == RequestAll(Now(), d, ks[n..])
      {
        assert ks[n..][0] == ks[n] && ks[n..][1..] == ks[n + 1..];
        hide State.Expecting;
        var k := ks[n];
        var waiting := (exists a | a in awaited :: a.key == k) || (exists r | r in requests :: r.key == k);
        ExpectingIs(Now(), k);
        QueueIf(k in reg && reg[k].persistent && reg[k].backing == None && !waiting, Request(k, d));
      }
    }

    static lemma ExpectingIs(s: State, k: Key)
      ensures s.Expecting(k) <==> (exists a | a in s.awaited :: a.key == k) || (exists r | r in s.requests :: r.key == k)
    {
    }

    /** Persistent workspaces without a Space ask for one, display by display. */
    method RequestMissingNow()
      modifies `requests
      ensures Now() == RequestMissing(old(Now()), Ascending(view.displays.Keys))
    {
      var ds := Enumerate(view.displays.Keys);
      NatTotal(Elements(ds));
      ds := SortSeq(ds, NatLe);
      assert ds == Ascending(view.displays.Keys);
      for n := 0 to |ds|
        invariant reg == old(reg) && RequestMissing(old(Now()), ds) == RequestMissing(Now(), ds[n..])
      {
        assert ds[n..][0] == ds[n] && ds[n..][1..] == ds[n + 1..];
        hide RequestAll, KeysFor;
        var ks := CollectKeys(reg, ds[n]);
        RequestOn(ds[n], ks);
      }
    }

    /** The first of some Spaces by slot. */
    static method PickSlot(xs: set<Space>) returns (x: Space)
      requires xs != {} && forall a, b | a in xs && b in xs && a.id == b.id :: a == b
      ensures x == FirstSlot(xs)
    {
      x :| x in xs;
      var rest := xs - {x};
      while rest != {}
        invariant rest <= xs && x in xs && x !in rest
        invariant forall y | y in xs && y !in rest :: SlotLe(x, y)
        decreases |rest|
      {
        var y :| y in rest;
        rest := rest - {y};
        if !SlotLe(x, y) {
          x := y;
        }
      }
      ghost var first := FirstSlot(xs);
      assert SlotLe(x, first) && SlotLe(first, x);
    }

    /** Where on a display a new Space is anchored. */
    method CreationAnchor(d: DisplayId) returns (anchor: Option<SpaceId>)
      requires view.WellKeyed()
      ensures anchor == Anchor(view, d)
    {
      var focused := set x | x in view.spaces && view.spaces[x].display == d && view.spaces[x].focused :: view.spaces[x];
      var all := set x | x in view.spaces && view.spaces[x].display == d :: view.spaces[x];
      if focused != {} {
        var x := PickSlot(focused);
        return Some(x.id);
      }
      if all != {} {
        var x := PickSlot(all);
        return Some(x.id);
      }
      return None;
    }

    /** Whether a request has to wait, or is moot, and where it would be anchored. */
    method JudgeRequest(r: Request, ghost s: State) returns (anchor: Option<SpaceId>, moot: bool)
      requires view.WellKeyed() && s.view == view && s.caps == caps && s.reg == reg
      ensures anchor == if Blocked(s, r) then None else Anchor(view, r.display)
      ensures anchor.Some? <==> !Blocked(s, r)
      ensures moot <==> Moot(s, r)
    {
      hide Anchor, View.WellKeyed;
      moot := r.key !in reg || reg[r.key].backing.Some?;
      if !caps.createSpace && r.key in reg && reg[r.key].persistent {
        return None, moot;
      }
      anchor := CreationAnchor(r.display);
    }

    method DropMoot() returns (anchor: Option<SpaceId>)
      requires view.WellKeyed()
      modifies `requests
      ensures requests == Pending(old(Now()), old(requests))
      ensures anchor == if requests != [] && !Blocked(old(Now()), requests[0]) then Anchor(view, requests[0].display) else None
      ensures anchor.Some? <==> requests != [] && !Blocked(old(Now()), requests[0])
    {
      hide Anchor, View.WellKeyed, Blocked, Moot, Pending;
      ghost var s := Now();
      while requests != []
        invariant Pending(s, old(requests)) == Pending(s, requests)
        decreases |requests|
      {
        var moot;
        anchor, moot := JudgeRequest(requests[0], s);
        PendingFront(s, requests);
        if anchor.None? || !moot {
          return anchor;
        }
        requests := requests[1..];
      }
      NothingPending(s);
      return None;
    }

    static lemma PendingFront(s: State, q: seq<Request>)
      requires s.view.WellKeyed() && q != []
      ensures Pending(s, q) == if Blocked(s, q[0]) || !Moot(s, q[0]) then q else Pending(s, q[1..])
    {
      hide Anchor, View.WellKeyed, Blocked, Moot;
    }

    static lemma NothingPending(s: State)
      requires s.view.WellKeyed()
      ensures Pending(s, []) == []
    {
      hide Anchor, View.WellKeyed, Blocked, Moot;
    }

    method Await(a: Awaited)
      requires requests != []
      modifies `requests, `awaited
      ensures requests == old(requests)[1..] && awaited == [a]
    {
      requests := requests[1..];
      awaited := [a];
    }

    /** Start the first request that is not moot, unless it has to wait. */
    method Launch(now: Instant) returns (actions: seq<Action>)
      requires view.WellKeyed()
      modifies `requests, `awaited
      ensures var s := old(Now());
              var q := Pending(s, s.requests);
              if q == [] || Blocked(s, q[0]) then requests == q && awaited == old(awaited) && actions == []
              else requests == q[1..] && awaited == [Reserved(s, q[0], now)] && actions == [CreateSpace(Anchor(s.view, q[0].display).value)]
    {
      hide Pending, Blocked, Anchor, View.WellKeyed;
      var anchor := DropMoot();
      if anchor.None? {
        return [];
      }
      var r := requests[0];
      Await(Awaited(r.key, r.display, view.spaces.Keys, Awaiting(now + CREATION_DEADLINE)));
      return [CreateSpace(anchor.value)];
    }

    /** Start the next queued creation, if nothing else is in flight. */
    method TryStartNext(now: Instant) returns (actions: seq<Action>)
      requires view.WellKeyed()
      modifies `requests, `awaited
      ensures (Now(), actions) == TryStart(old(Now()), now)
    {
      hide Pending, Blocked, Anchor, Reserved, View.WellKeyed;
      if awaited != [] || placement.Some? || pendingDestroy != map[] || topologyDestroy.Some? {
        return [];
      }
      actions := Launch(now);
    }

    // ------------------------------------------------------------------ healing

    /** The last, by slot, of the empty Spaces nobody claims. */
    method FindOrphan(now: Instant) returns (found: Option<SpaceId>)
      requires view.WellKeyed()
      ensures found == NextHeal(Now(), now)
    {
      if !caps.destroySpace || awaited != [] || requests != [] || placement.Some? || topologyDestroy.Some? || pendingDestroy != map[] {
        return None;
      }
      var orphans := CollectOrphans(now);
      if orphans == {} {
        return None;
      }
      SlotGeTotal(orphans);
      var x := PickLast(orphans);
      return Some(x.id);
    }

    method CollectOrphans(now: Instant) returns (orphans: set<Space>)
      ensures orphans == Orphans(Now(), now)
    {
      ghost var s := Now();
      orphans := set x | x in view.spaces && view.Ordinary(x) && !view.spaces[x].focused
                         && !(x in external && external[x] > now) && !(exists k | k in reg :: reg[k].Holds(x)) && !view.Occupied(x)
                         && |view.OrdinaryOn(view.spaces[x].display)| > 1 :: view.spaces[x];
      forall x: SpaceId ensures s.Known(x) <==> exists k | k in reg :: reg[k].Holds(x) {
      }
      hide State.Known, View.Occupied, View.OrdinaryOn, Entry.Holds;
    }

    static method PickLast(xs: set<Space>) returns (x: Space)
      requires xs != {} && TotalOn(SlotGe, xs)
      ensures x == Least(xs, SlotGe)
    {
      x :| x in xs;
      var rest := xs - {x};
      while rest != {}
        invariant rest <= xs && x in xs && x !in rest
        invariant forall y | y in xs && y !in rest :: SlotGe(x, y)
        decreases |rest|
      {
        var y :| y in rest;
        rest := rest - {y};
        if !SlotGe(x, y) {
          x := y;
        }
      }
      ghost var last := Least(xs, SlotGe);
      assert SlotGe(x, last) && SlotGe(last, x);
    }

    method MarkTopologyDestroy(x: SpaceId)
      modifies `topologyDestroy
      ensures Now() == old(Now()).(topologyDestroy := Some(x))
    {
      topologyDestroy := Some(x);
    }

    method HealWhenIdle(actions: seq<Action>, now: Instant) returns (all: seq<Action>)
      requires view.WellKeyed()
      modifies `topologyDestroy
      ensures (Now(), all) == HealIfIdle(old(Now()), actions, now)
    {
      if actions != [] {
        return actions;
      }
      hide NextHeal, View.WellKeyed;
      var x := FindOrphan(now);
      if x.None? {
        return actions;
      }
      MarkTopologyDestroy(x.value);
      return [DestroySpace(x.value)];
    }

    // ------------------------------------------------------------ configuration

    method InstantiateTemplate(t: Template, targets: seq<DisplayId>, start: nat) returns (next: nat)
      modifies `reg
      ensures (reg, next) == Instantiate(old(reg), start, t, targets)
    {
      next := start;
      for n := 0 to |targets|
        invariant Instantiate(old(reg), start, t, targets) == Instantiate(reg, next, t, targets[n..])
      {
        assert targets[n..][0] == targets[n] && targets[n..][1..] == targets[n + 1..];
        var k := Key(targets[n], t.name);
        if k in reg {
          reg := reg[k := reg[k].(persistent := t.persistent, dynamic := false)];
        } else {
          reg := reg[k := Entry(t.name, targets[n], t.persistent, false, next, None, None)];
          next := next + 1;
        }
      }
    }

    /** Bring every template onto its displays; drop what is on none. */
    method InstantiateTemplates(order: seq<DisplayId>)
      modifies `reg
      ensures reg == OnDisplays(InstantiateAll(old(reg), NextOrdinal(old(reg)), templates, view, order), view.displays.Keys)
    {
      var next := NextOrdinalFree();
      ghost var start := next;
      for n := 0 to |templates|
        invariant InstantiateAll(old(reg), start, templates, view, order) == InstantiateAll(reg, next, templates[n..], view, order)
      {
        assert templates[n..][0] == templates[n] && templates[n..][1..] == templates[n + 1..];
        hide Instantiate, TargetsOf;
        next := InstantiateTemplate(templates[n], TargetsOf(templates[n], view, order), next);
      }
      reg := map k | k in reg && reg[k].display in view.displays :: reg[k];
    }

    method NoteSynced()
      modifies `synced
      ensures Now() == old(Now()).(synced := Some(view.displays.Keys))
    {
      synced := Some(view.displays.Keys);
    }

    method SyncConfiguration(visit: Visit)
      modifies `reg, `synced
      ensures Now() == SyncConfig(old(Now()), visit)
    {
      if synced == Some(view.displays.Keys) {
        return;
      }
      hide NextOrdinal, InstantiateAll, OnDisplays;
      InstantiateTemplates(visit.displays);
      NoteSynced();
    }

    // ------------------------------------------------------------ a snapshot

    method RequeueAwaited()
      modifies `requests, `awaited
      ensures requests == Requeue(old(awaited), old(requests)) && awaited == []
    {
      var n: nat := |awaited|;
      assert awaited[..n] == awaited;
      while n > 0
        invariant awaited == old(awaited) && n <= |awaited|
        invariant Requeue(old(awaited), old(requests)) == Requeue(awaited[..n], requests)
      {
        assert awaited[..n][..n - 1] == awaited[..n - 1] && awaited[..n][n - 1] == awaited[n - 1];
        n := n - 1;
        var a := awaited[n];
        if !exists r | r in requests :: r.key == a.key {
          requests := [Request(a.key, a.display)] + requests;
        }
      }
      awaited := [];
    }

    method Forget()
      modifies `initialized, `external
      ensures !initialized && external == map[]
    {
      initialized := false;
      external := map[];
    }

    /** What was asked of a world that is gone is asked again of the new one. */
    method VoidAll()
      modifies `initialized, `external, `requests, `awaited
      ensures Now() == VoidReservations(old(Now()))
    {
      hide Requeue;
      Forget();
      RequeueAwaited();
    }

    method TakeIn(snap: Snapshot)
      modifies `view
      ensures Now() == Observe(old(Now()), snap)
    {
      if snap.complete {
        view := view.(windows := snap.windows, spaces := snap.spaces, displays := snap.displays, refreshRequired := false);
      } else {
        view := view.(windows := view.windows + snap.windows, spaces := view.spaces + snap.spaces, displays := view.displays + snap.displays);
      }
    }

    /** The snapshot replaces what was seen; templates and fullscreen windows follow. */
    method TakeInAll(snap: Snapshot, now: Instant, visit: Visit) returns (reset: bool)
      requires snap.complete && snap.WellKeyed() && StripWalk(snap.displays, visit.strips)
      modifies this
      ensures reset == IsReset(old(view), snap) && view.displays == snap.displays
      ensures Now() == TakenIn(old(Now()), snap, now, visit) && Now().view.WellKeyed()
    {
      hide IsReset, VoidReservations, Observe, SyncConfig, ReconcileFullscreen, View.WellKeyed, Snapshot.WellKeyed, StripWalk;
      var previous := view.windows;
      reset := IsReset(view, snap);
      if reset {
        VoidAll();
      }
      SeesSnapshot(Now(), snap);
      TakeIn(snap);
      SyncConfiguration(visit);
      ReconcileFullscreenSpaces(previous, now, visit);
    }

    /** Bindings, from what vanished to what strangers made. */
    method SettleBindings(snap: Snapshot, now: Instant, visit: Visit) returns (ghost walked: Visit)
      requires snap.complete && snap.WellKeyed() && StripWalk(snap.displays, visit.strips)
      modifies this
      ensures walked == visit.(keys := walked.keys) && Now() == Settled(old(Now()), snap, now, walked)
      ensures Now().view.WellKeyed() && view.displays == snap.displays
      ensures ParksAll(TakenIn(old(Now()), snap, now, walked), now, IsReset(old(view), snap), walked)
    {
      hide IsReset, TakenIn, WithoutVanished, BindAwaited, ObserveExternal, Settled, ParksAll, View.WellKeyed, Snapshot.WellKeyed, StripWalk;
      ghost var s := Now();
      var reset := TakeInAll(snap, now, visit);
      ghost var walk := DropVanished(now, reset, visit);
      walked := visit.(keys := walk);
      BindAwaitedSpaces(now, visit);
      ObserveExternalSpaces(now);
      SettledIs(s, snap, now, visit, walk);
    }

    static lemma SeesSnapshot(s: State, snap: Snapshot)
      requires snap.complete && snap.WellKeyed()
      ensures Observe(s, snap).view.WellKeyed() && Observe(s, snap).view.displays == snap.displays
    {
    }

    /** Destroys confirmed, the vanished forgotten or parked. */
    method DropVanished(now: Instant, reset: bool, ghost visit: Visit) returns (ghost walk: seq<Key>)
      modifies this
      ensures Now() == WithoutVanished(old(Now()), now, reset, visit.(keys := walk))
      ensures ParksAll(old(Now()), now, reset, visit.(keys := walk))
    {
      hide NoteWindowSpaces, ConfirmDestroys, Retire, ParkVanished;
      NoteWindows(now);
      ConfirmGone();
      walk := [];
      if !reset {
        RetireVanished();
        walk := ParkAllVanished();
      }
    }

    /** The walk over workspaces is the only thing left open until it is made. */
    static lemma {:induction false} SettledIs(s: State, snap: Snapshot, now: Instant, visit: Visit, walk: seq<Key>)
      requires snap.complete && snap.WellKeyed()
      ensures TakenIn(s, snap, now, visit.(keys := walk)) == TakenIn(s, snap, now, visit)
      ensures var r := WithoutVanished(TakenIn(s, snap, now, visit), now, IsReset(s.view, snap), visit.(keys := walk));
              && r.view.WellKeyed() && Settled(s, snap, now, visit.(keys := walk)) == ObserveExternal(BindAwaited(r, now, visit), now)
              && Settled(s, snap, now, visit.(keys := walk)).view.displays == snap.displays
    {
      hide IsReset, VoidReservations, Observe, SyncConfig, ReconcileFullscreen, WithoutVanished, BindAwaited, ObserveExternal, View.WellKeyed, Snapshot.WellKeyed;
      var s0 := if IsReset(s.view, snap) then VoidReservations(s) else s;
      SeesSnapshot(s0, snap);
      SameWalks(s0, snap, s.view.windows, now, visit, walk);
      BindIgnoresWalk(WithoutVanished(TakenIn(s, snap, now, visit), now, IsReset(s.view, snap), visit.(keys := walk)), now, visit, walk);
    }

    static lemma SameWalks(s: State, snap: Snapshot, previous: map<WindowId, Window>, now: Instant, visit: Visit, walk: seq<Key>)
      ensures SyncConfig(s, visit.(keys := walk)) == SyncConfig(s, visit)
      ensures forall t: State :: ReconcileFullscreen(t, previous, now, visit.(keys := walk)) == ReconcileFullscreen(t, previous, now, visit)
      ensures SyncConfig(Observe(s, snap), visit.(keys := walk)) == SyncConfig(Observe(s, snap), visit)
    {
      hide NextOrdinal, InstantiateAll, OnDisplays, FullscreenRegistry, Restored, LogicalOrder;
    }

    static lemma {:induction false} BindIgnoresWalk(s: State, now: Instant, visit: Visit, walk: seq<Key>)
      requires s.view.WellKeyed()
      ensures BindAwaited(s, now, visit.(keys := walk)) == BindAwaited(s, now, visit)
    {
      BindAllIgnoresWalk(s.(awaited := []), s.awaited, now, visit, walk);
      hide BindAll;
    }

    static lemma {:induction false} BindAllIgnoresWalk(s: State, todo: seq<Awaited>, now: Instant, visit: Visit, walk: seq<Key>)
      requires s.view.WellKeyed()
      ensures BindAll(s, todo, now, visit.(keys := walk)) == BindAll(s, todo, now, visit)
      decreases |todo|
    {
      if todo != [] {
        hide BindOne, View.WellKeyed;
        BindOneIgnoresWalk(s, todo[0], now, visit, walk);
        BindAllIgnoresWalk(BindOne(s, todo[0], now, visit), todo[1..], now, visit, walk);
      }
    }

    static lemma BindOneIgnoresWalk(s: State, a: Awaited, now: Instant, visit: Visit, walk: seq<Key>)
      requires s.view.WellKeyed()
      ensures BindOne(s, a, now, visit.(keys := walk)) == BindOne(s, a, now, visit)
    {
      hide Released, Candidates, LogicalOrder;
    }

    /** Everything that follows once bindings have settled. */
    method AdvanceNow(now: Instant, visit: Visit) returns (actions: seq<Action>, ghost walked: Visit)
      requires view.WellKeyed() && NoDup(visit.displays) && Elements(visit.displays) == view.displays.Keys
      modifies this
      ensures walked == visit.(parked := walked.parked) && (Now(), actions) == Advance(old(Now()), now, walked)
      ensures ReconcilePlacement(old(Now()), now).0.view.WellKeyed() && MeetsAll(ReconcilePlacement(old(Now()), now).0, walked)
    {
      hide ReconcilePlacement, Rebind, GraceSurplus, DestroyEmpty, FulfillQueues, RequestMissing, TryStart, HealIfIdle, Ascending;
      hide View.WellKeyed, State.Quiet, Strangers, NoTopology, Elements, NoDup, MeetsAll;
      var a1 := ReconcilePlacementNow(now);
      var moves;
      moves, walked := RebindNow(visit);
      GraceStrangers(now);
      var a3 := DestroyEmptyNow(MovedKeys(moves), now);
      var a4 := FulfillQueuesNow(now);
      RequestMissingNow();
      var a6 := TryStartNext(now);
      actions := HealWhenIdle(a1 + a3 + a4 + a6, now);
    }

    /** A complete snapshot, along given walks of the displays. */
    method ApplyComplete(snap: Snapshot, now: Instant, visit: Visit) returns (actions: seq<Action>, ghost walked: Visit)
      requires snap.WellKeyed() && snap.complete
      requires NoDup(visit.displays) && Elements(visit.displays) == snap.displays.Keys && StripWalk(snap.displays, visit.strips)
      modifies this
      ensures (Now(), actions) == SnapshotStep(old(Now()), snap, now, walked)
      ensures WalksAll(old(Now()), snap, now, walked)
    {
      hide Settled, Advance, Observe, TakenIn, ReconcilePlacement, MeetsAll, ParksAll, View.WellKeyed, Snapshot.WellKeyed, StripWalk, NoDup, Elements, IsReset;
      ghost var s := Now();
      walked := SettleBindings(snap, now, visit);
      ghost var keys := walked.keys;
      ghost var s0 := Now();
      actions, walked := AdvanceNow(now, visit);
      ghost var parked := walked.parked;
      SameSettling(s, snap, now, visit, keys, parked);
      SameAdvance(s0, now, visit, keys, parked);
      SameTaking(s, snap, now, visit.(keys := keys), parked);
      SameMeeting(ReconcilePlacement(s0, now).0, visit.(parked := parked), keys);
      walked := visit.(keys := keys, parked := parked);
      assert visit.(keys := keys).(parked := parked) == walked && visit.(parked := parked).(keys := keys) == walked;
    }

    /**
     * A snapshot, start to finish: whatever order the hash maps yield their entries in, the engine
     * ends in the state, and answers with the actions, that `SnapshotStep` gives for that order, and
     * the walks it made reach every entry.
     */
    method ApplySnapshot(snap: Snapshot, now: Instant) returns (actions: seq<Action>, ghost walked: Visit)
      requires snap.WellKeyed()
      modifies this
      ensures (Now(), actions) == SnapshotStep(old(Now()), snap, now, walked)
      ensures snap.complete ==> WalksAll(old(Now()), snap, now, walked)
    {
      hide Settled, Advance, Observe, WalksAll, View.WellKeyed, Snapshot.WellKeyed;
      if !snap.complete {
        TakeIn(snap);
        return [], Visit([], [], [], []);
      }
      var displays := Enumerate(snap.displays.Keys);
      var strips := SortStrips(snap.displays);
      actions, walked := ApplyComplete(snap, now, Visit(displays, strips, [], []));
    }

    static lemma SameTaking(s: State, snap: Snapshot, now: Instant, visit: Visit, parked: seq<Key>)
      ensures TakenIn(s, snap, now, visit.(parked := parked)) == TakenIn(s, snap, now, visit)
      ensures forall t, reset :: ParksAll(t, now, reset, visit.(parked := parked)) == ParksAll(t, now, reset, visit)
    {
      hide SyncConfig, ReconcileFullscreen, Observe, IsReset, VoidReservations, Retire;
      var s1 := Observe(if IsReset(s.view, snap) then VoidReservations(s) else s, snap);
      SyncIgnoresParked(s1, visit, parked);
      FullscreenIgnoresParked(SyncConfig(s1, visit), s.view.windows, now, visit, parked);
    }

    static lemma SameMeeting(s: State, visit: Visit, keys: seq<Key>)
      requires s.view.WellKeyed()
      ensures MeetsAll(s, visit.(keys := keys)) == MeetsAll(s, visit)
    {
      hide Remapped, RemapMoves, Held, SlotSpaces, MoveTrees, View.WellKeyed;
      assert RemapSlots(s, visit.(keys := keys)) == RemapSlots(s, visit);
      hide RemapSlots;
      forall k ensures Meets(s, visit.(keys := keys), k) == Meets(s, visit, k) {
      }
    }

    static lemma SameSettling(s: State, snap: Snapshot, now: Instant, visit: Visit, keys: seq<Key>, parked: seq<Key>)
      requires snap.complete && snap.WellKeyed()
      ensures Settled(s, snap, now, visit.(keys := keys, parked := parked)) == Settled(s, snap, now, visit.(keys := keys))
    {
      SeesSnapshot(s, snap);
      SeesSnapshot(VoidReservations(s), snap);
      hide IsReset, VoidReservations, Observe, SyncConfig, ReconcileFullscreen, WithoutVanished, BindAwaited, ObserveExternal, View.WellKeyed, Snapshot.WellKeyed;
      var v, w := visit.(keys := keys), visit.(keys := keys, parked := parked);
      var reset := IsReset(s.view, snap);
      var s1 := Observe(if reset then VoidReservations(s) else s, snap);
      SyncIgnoresParked(s1, v, parked);
      var s2 := SyncConfig(s1, v);
      FullscreenIgnoresParked(s2, s.view.windows, now, v, parked);
      var s3 := ReconcileFullscreen(s2, s.view.windows, now, v);
      VanishedIgnoresParked(s3, now, reset, v, parked);
      BindIgnoresParked(WithoutVanished(s3, now, reset, v), now, v, parked);
      assert v.(parked := parked) == w;
    }

    static lemma SyncIgnoresParked(s: State, visit: Visit, parked: seq<Key>)
      ensures SyncConfig(s, visit.(parked := parked)) == SyncConfig(s, visit)
    {
      hide NextOrdinal, InstantiateAll, OnDisplays;
    }

    static lemma FullscreenIgnoresParked(s: State, previous: map<WindowId, Window>, now: Instant, visit: Visit, parked: seq<Key>)
      ensures ReconcileFullscreen(s, previous, now, visit.(parked := parked)) == ReconcileFullscreen(s, previous, now, visit)
    {
      hide FullscreenRegistry, Restored, LogicalOrder;
    }

    static lemma VanishedIgnoresParked(s: State, now: Instant, reset: bool, visit: Visit, parked: seq<Key>)
      ensures WithoutVanished(s, now, reset, visit.(parked := parked)) == WithoutVanished(s, now, reset, visit)
    {
      hide NoteWindowSpaces, ConfirmDestroys, Retire, ParkVanished;
    }

    static lemma {:induction false} BindIgnoresParked(s: State, now: Instant, visit: Visit, parked: seq<Key>)
      requires s.view.WellKeyed()
      ensures BindAwaited(s, now, visit.(parked := parked)) == BindAwaited(s, now, visit)
    {
      BindAllIgnoresParked(s.(awaited := []), s.awaited, now, visit, parked);
      hide BindAll;
    }

    static lemma {:induction false} BindAllIgnoresParked(s: State, todo: seq<Awaited>, now: Instant, visit: Visit, parked: seq<Key>)
      requires s.view.WellKeyed()
      ensures BindAll(s, todo, now, visit.(parked := parked)) == BindAll(s, todo, now, visit)
      decreases |todo|
    {
      if todo != [] {
        hide BindOne, View.WellKeyed;
        BindOneIgnoresParked(s, todo[0], now, visit, parked);
        BindAllIgnoresParked(BindOne(s, todo[0], now, visit), todo[1..], now, visit, parked);
      }
    }

    static lemma BindOneIgnoresParked(s: State, a: Awaited, now: Instant, visit: Visit, parked: seq<Key>)
      requires s.view.WellKeyed()
      ensures BindOne(s, a, now, visit.(parked := parked)) == BindOne(s, a, now, visit)
    {
      hide Released, Candidates, LogicalOrder;
    }

    static lemma SameAdvance(s: State, now: Instant, visit: Visit, keys: seq<Key>, parked: seq<Key>)
      requires s.view.WellKeyed()
      ensures Advance(s, now, visit.(keys := keys, parked := parked)) == Advance(s, now, visit.(parked := parked))
    {
      hide ReconcilePlacement, GraceSurplus, DestroyEmpty, FulfillQueues, RequestMissing, TryStart, HealIfIdle, Ascending;
      hide Remapped, RemapMoves, Held, SlotSpaces, MoveTrees, Reattach, State.Quiet, Strangers, NoTopology;
      var s1 := ReconcilePlacement(s, now).0;
      assert Rebind(s1, visit.(keys := keys, parked := parked)) == Rebind(s1, visit.(parked := parked));
    }

    // ------------------------------------------------------------------ commands

    method QueueCommandFocus(k: Key)
      modifies `focusQueue
      ensures Now() == old(Now()).(focusQueue := QueuedFocus(old(focusQueue), k))
    {
      if !exists f | f in focusQueue :: f.0 == k {
        focusQueue := focusQueue + [(k, 0)];
      }
    }

    /** Ask for a workspace's Space: register, queue once, start if possible. */
    method RequestWorkspaceCreation(d: DisplayId, name: string, now: Instant) returns (actions: seq<Action>)
      requires view.WellKeyed()
      modifies `reg, `requests, `awaited
      ensures (Now(), actions) == RequestCreation(old(Now()), d, name, now)
    {
      var k := Key(d, name);
      hide EnsureDynamic, Anchor, TryStart, View.WellKeyed, State.Expecting;
      EnsureDynamicWorkspace(k);
      var anchor := CreationAnchor(d);
      if anchor.None? {
        return [];
      }
      var waiting := (exists a | a in awaited :: a.key == k) || (exists r | r in requests :: r.key == k);
      ExpectingIs(Now(), k);
      QueueIf(!waiting, Request(k, d));
      actions := TryStartNext(now);
    }

    /** `alt-N` on a display. */
    method FocusWorkspaceNow(d: DisplayId, name: string, now: Instant) returns (actions: seq<Action>)
      requires view.WellKeyed()
      modifies `reg, `layouts, `parked, `focusQueue, `requests, `awaited
      ensures (Now(), actions) == FocusWorkspace(old(Now()), d, name, now)
    {
      var k := Key(d, name);
      var b := if k in reg then reg[k].ActiveSpace() else None;
      hide RequestCreation, ClearStale, QueuedFocus, View.WellKeyed;
      if b.Some? && b.value in view.spaces {
        if placement.Some? {
          QueueCommandFocus(k);
          return [];
        }
        return [FocusSpace(b.value)];
      }
      QueueCommandFocus(k);
      if k in reg {
        ClearStaleBacking(k);
      }
      actions := RequestWorkspaceCreation(d, name, now);
    }

    method QueueCommandMove(w: WindowId, k: Key)
      modifies `moveQueue
      ensures Now() == old(Now()).(moveQueue := QueuedMove(old(moveQueue), w, k))
    {
      if (w, k) !in moveQueue {
        moveQueue := moveQueue + [(w, k)];
      }
    }

    method GraceWorkspace(k: Key, t: Instant)
      modifies `grace
      ensures Now() == old(Now()).(grace := old(grace)[k := t])
    {
      grace := grace[k := t];
    }

    /** Send a window to a workspace of its display. */
    method MoveToWorkspaceNow(w: WindowId, d: DisplayId, name: string, now: Instant) returns (actions: seq<Action>)
      requires view.WellKeyed()
      modifies `reg, `layouts, `parked, `moveQueue, `requests, `awaited, `grace
      ensures (Now(), actions) == MoveToWorkspace(old(Now()), w, d, name, now)
    {
      var k := Key(d, name);
      var b := if k in reg then reg[k].ActiveSpace() else None;
      hide RequestCreation, ClearStale, QueuedMove, View.WellKeyed;
      if b.Some? && b.value in view.spaces {
        if view.spaces[b.value].isFullscreen {
          return [];
        }
        if placement.Some? {
          QueueCommandMove(w, k);
          return [];
        }
        GraceWorkspace(k, now + DYNAMIC_GRACE);
        return [MoveWindowToSpace(w, b.value)];
      }
      QueueCommandMove(w, k);
      if k in reg {
        ClearStaleBacking(k);
      }
      actions := RequestWorkspaceCreation(d, name, now);
    }

    // ------------------------------------------------------------------- batches

    /** Release exactly the reservations of what never ran. */
    method NoteFailed(unexecuted: seq<Action>)
      modifies `awaited, `pendingDestroy, `topologyDestroy
      ensures Now() == NoteBatchFailed(old(Now()), unexecuted)
    {
      var destroys := Destroys(unexecuted);
      hide Creates, Destroys;
      if Creates(unexecuted) && awaited != [] {
        awaited := awaited[1..];
      }
      assert pendingDestroy - {} == pendingDestroy;
      if destroys != {} {
        pendingDestroy := pendingDestroy - destroys;
        topologyDestroy := None;
      }
    }

    /**
     * Carry a batch out in order; `refused` is the index of the action the platform turns down.
     * `ran` lists what the platform carried out: what ran and what is released make up the batch.
     */
    method ExecuteTracked(actions: seq<Action>, refused: Option<nat>) returns (ok: bool, ran: seq<Action>)
      modifies `awaited, `pendingDestroy, `topologyDestroy
      ensures ok <==> refused.None? || refused.value >= |actions|
      ensures ran == if ok then actions else actions[..refused.value]
      ensures Now() == if ok then old(Now()) else NoteBatchFailed(old(Now()), actions[refused.value..])
    {
      hide NoteBatchFailed;
      ran := [];
      for i := 0 to |actions|
        invariant Now() == old(Now()) && (refused.Some? ==> refused.value >= i) && ran == actions[..i]
      {
        if refused == Some(i) {
          NoteFailed(actions[i..]);
          return false, ran;
        }
        ran := ran + [actions[i]];
      }
      return true, ran;
    }
  }

  function At<K(==), V>(m: map<K, V>, k: K): Option<V> { if k in m then Some(m[k]) else None }

  lemma {:induction false} SameMap<K(!new), V(!new)>(a: map<K, V>, b: map<K, V>)
    requires forall k :: At(a, k) == At(b, k)
    ensures a == b
  {
    forall k ensures k in a <==> k in b {
      assert At(a, k) == At(b, k);
    }
    forall k | k in a ensures a[k] == b[k] {
      assert At(a, k) == At(b, k);
    }
  }
}
