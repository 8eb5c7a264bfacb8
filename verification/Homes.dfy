/**
 * Every workspace has a Space of its own: the one it shows, or, while a window of it is native
 * fullscreen, the one it will come back to.
 */
module Homes {
  import opened Basics
  import opened Geometry
  import opened Observed
  import opened Workspace
  import opened Remap
  import opened Lifecycle
  import opened Runs
  import opened Creation
  import opened Staying

  // ------------------------------------------------------------- the invariant

  /** No two workspaces own the same Space. */
  ghost predicate Distinct(reg: Registry) {
    forall j, k | j in reg && k in reg && j != k && reg[j].Home().Some? :: reg[j].Home() != reg[k].Home()
  }

  /** A workspace waiting for a Space has none. */
  ghost predicate WaitersUnbacked(s: State) {
    forall k | k in s.reg && s.Expecting(k) :: s.reg[k].backing == None
  }

  /** Nobody waits twice. */
  ghost predicate WaitsOnce(s: State) {
    && |s.awaited| <= 1
    && (forall i, j | 0 <= i < j < |s.requests| :: s.requests[i].key != s.requests[j].key)
    && (forall a, r | a in s.awaited && r in s.requests :: a.key != r.key)
  }

  /** Every owned Space that is there was there when the Space in flight was asked for. */
  ghost predicate Predates(s: State) {
    forall a, k | a in s.awaited && k in s.reg && s.reg[k].Home().Some? ::
      s.reg[k].Home().value in a.before || s.reg[k].Home().value !in s.view.spaces
  }

  ghost predicate Tame(s: State) {
    Distinct(s.reg) && WaitersUnbacked(s) && WaitsOnce(s) && Predates(s)
  }

  /** Workspaces may have gone or lost their Space, but none has gained one. */
  ghost predicate HomesShrink(before: Registry, after: Registry) {
    forall k | k in after && after[k].Home().Some? :: k in before && before[k].Home() == after[k].Home()
  }

  /** No workspace shows a fullscreen Space it did not show before. */
  ghost predicate NoNewFullscreen(before: Registry, after: Registry) {
    forall k | k in after && after[k].IsFullscreen() :: k in before && before[k].backing == after[k].backing
  }

  lemma {:induction false} ShrinkKeepsTame(s: State, r: State)
    requires Tame(s) && HomesShrink(s.reg, r.reg) && r.awaited == s.awaited && r.requests == s.requests
    requires forall k | k in r.reg && r.reg[k].Home().Some? && r.reg[k].Home().value in r.view.spaces :: r.reg[k].Home().value in s.view.spaces
    ensures Tame(r)
  {
    assert forall k :: r.Expecting(k) == s.Expecting(k);
  }

  // ---------------------------------------------------- stages that only shrink

  lemma {:induction false} InstantiateKeepsBackings(reg: Registry, next: nat, t: Template, targets: seq<DisplayId>)
    ensures var r := Instantiate(reg, next, t, targets).0; HomesShrink(reg, r) && reg.Keys <= r.Keys
    decreases |targets|
  {
    if targets != [] {
      var k := Key(targets[0], t.name);
      var (reg', next') :=
        if k in reg then (reg[k := reg[k].(persistent := t.persistent, dynamic := false)], next)
        else (reg[k := Entry(t.name, targets[0], t.persistent, false, next, None, None)], next + 1);
      InstantiateKeepsBackings(reg', next', t, targets[1..]);
    }
  }

  lemma {:induction false} InstantiateAllKeepsBackings(reg: Registry, next: nat, ts: seq<Template>, view: View, order: seq<DisplayId>)
    ensures var r := InstantiateAll(reg, next, ts, view, order); HomesShrink(reg, r) && reg.Keys <= r.Keys
    decreases |ts|
  {
    if ts != [] {
      hide Instantiate, TargetsOf;
      InstantiateKeepsBackings(reg, next, ts[0], TargetsOf(ts[0], view, order));
      var (reg', next') := Instantiate(reg, next, ts[0], TargetsOf(ts[0], view, order));
      InstantiateAllKeepsBackings(reg', next', ts[1..], view, order);
    }
  }

  lemma {:induction false} SyncShrinks(s: State, visit: Visit)
    ensures HomesShrink(s.reg, SyncConfig(s, visit).reg)
  {
    InstantiateAllKeepsBackings(s.reg, NextOrdinal(s.reg), s.templates, s.view, visit.displays);
    hide NextOrdinal, InstantiateAll;
  }

  lemma {:induction false} FullscreenShrinks(s: State, previous: map<WindowId, Window>, now: Instant)
    ensures HomesShrink(s.reg, FullscreenRegistry(s, previous, now))
    ensures forall k | k in s.reg && FullscreenRegistry(s, previous, now)[k].IsFullscreen() ::
              !FullscreenLost(s, FullscreenRegistry(s, previous, now)[k].backing.value)
  {
    hide FullscreenRegistry;
    forall k | k in s.reg
      ensures k in FullscreenRegistry(s, previous, now)
      ensures var e := FullscreenRegistry(s, previous, now)[k];
              (e.Home().Some? ==> s.reg[k].Home() == e.Home()) && (e.IsFullscreen() ==> !FullscreenLost(s, e.backing.value))
    {
      FullscreenEntry(s, previous, now, k);
      SubstitutedKeepsHome(s, previous, now, s.reg[k]);
    }
    forall k | k in FullscreenRegistry(s, previous, now) ensures k in s.reg {
      FullscreenEntry(s, previous, now, k);
    }
  }

  lemma {:induction false} SubstitutedKeepsHome(s: State, previous: map<WindowId, Window>, now: Instant, e: Entry)
    ensures var r := Substituted(s, previous, now, e);
            && (r.Home().Some? ==> e.Home() == r.Home())
            && (r.IsFullscreen() ==> !FullscreenLost(s, r.backing.value))
  {
    hide CameFrom, OwnedFullscreen;
    if e.backing.Some? && e.backing.value.Normal? {
      var entering := Entering(s, previous, e.backing.value.space, now);
      if entering != {} {
        assert LeastWindow(entering) in entering;
      }
    }
  }

  // ---------------------------------------------------------- asking for Spaces

  /** A workspace that has no Space and is not waiting yet starts to wait. */
  lemma {:induction false} QueueKeepsTame(s: State, q: Request, r: State)
    requires Tame(s) && r == s.(requests := s.requests + [q])
    requires !s.Expecting(q.key) && (q.key in s.reg ==> s.reg[q.key].backing == None)
    ensures Tame(r)
  {
    forall k | k in r.reg && r.Expecting(k) ensures r.reg[k].backing == None {
      if k != q.key {
        assert s.Expecting(k);
      }
    }
    forall i | 0 <= i < |s.requests| ensures s.requests[i].key != q.key {
      assert s.requests[i] in s.requests;
    }
    forall a | a in s.awaited ensures a.key != q.key {
    }
  }

  lemma {:induction false} ClearShrinks(s: State, k: Key)
    ensures HomesShrink(s.reg, ClearStale(s, k).reg) && NoNewFullscreen(s.reg, ClearStale(s, k).reg)
  {
    hide ClearStale;
  }

  lemma {:induction false} ParkKeepsTame(s: State, ks: seq<Key>)
    requires Tame(s)
    ensures var r := ParkVanished(s, ks); Tame(r) && NoNewFullscreen(s.reg, r.reg) && r.initialized == s.initialized
    decreases |ks|
  {
    hide Tame, ParkOne;
    if ks != [] {
      ParkOneKeepsTame(s, ks[0]);
      ParkKeepsTame(ParkOne(s, ks[0]), ks[1..]);
    }
  }

  lemma {:induction false} ParkOneKeepsTame(s: State, k: Key)
    requires Tame(s)
    ensures var r := ParkOne(s, k); Tame(r) && NoNewFullscreen(s.reg, r.reg)
  {
    hide ClearStale;
    if k in s.reg && s.reg[k].persistent && Vanished(s, s.reg[k]) {
      var s1 := ClearStale(s, k);
      assert !s.Expecting(k) && !s1.Expecting(k);
      ShrinkKeepsTame(s, s1);
      QueueKeepsTame(s1, Request(k, s.reg[k].display), s1.(requests := s1.requests + [Request(k, s.reg[k].display)]));
    }
  }

  lemma {:induction false} RequestAllKeepsTame(s: State, d: DisplayId, ks: seq<Key>)
    requires Tame(s)
    ensures Tame(RequestAll(s, d, ks))
    decreases |ks|
  {
    hide Tame, State.Expecting;
    if ks != [] {
      var wanted := ks[0] in s.reg && s.reg[ks[0]].persistent && s.reg[ks[0]].backing == None && !s.Expecting(ks[0]);
      var s1 := if wanted then s.(requests := s.requests + [Request(ks[0], d)]) else s;
      if wanted {
        QueueKeepsTame(s, Request(ks[0], d), s1);
      }
      RequestAllKeepsTame(s1, d, ks[1..]);
    }
  }

  lemma {:induction false} RequestMissingKeepsTame(s: State, displays: seq<DisplayId>)
    requires Tame(s)
    ensures Tame(RequestMissing(s, displays))
    decreases |displays|
  {
    hide Tame, RequestAll, KeysFor;
    if displays != [] {
      RequestAllKeepsTame(s, displays[0], KeysFor(s.reg, displays[0]));
      RequestMissingKeepsTame(RequestAll(s, displays[0], KeysFor(s.reg, displays[0])), displays[1..]);
    }
  }

  /** A request dropped from the queue stops its workspace waiting. */
  lemma {:induction false} DropKeepsTame(s: State, r: State)
    requires Tame(s) && |r.requests| <= |s.requests|
    requires r == s.(requests := s.requests[|s.requests| - |r.requests|..])
    ensures Tame(r)
  {
    assert forall q | q in r.requests :: q in s.requests;
    forall k | r.Expecting(k) ensures s.Expecting(k) {
    }
  }

  /** The request in front becomes the creation in flight, against the Spaces that exist now. */
  lemma {:induction false} AwaitKeepsTame(s: State, a: Awaited, r: State)
    requires Tame(s) && s.requests != [] && s.awaited == [] && a.key == s.requests[0].key && a.before == s.view.spaces.Keys
    requires r == s.(requests := s.requests[1..], awaited := [a])
    ensures Tame(r)
  {
    assert s.requests[0] in s.requests;
    assert forall q | q in r.requests :: q in s.requests;
    forall k | r.Expecting(k) ensures s.Expecting(k) {
      if k == a.key {
        assert s.requests[0] in s.requests;
      }
    }
    forall q | q in r.requests ensures q.key != a.key {
      var i :| 0 <= i < |r.requests| && r.requests[i] == q;
      assert s.requests[i + 1] == q;
    }
  }

  lemma {:induction false} StartKeepsTame(s: State, now: Instant)
    requires s.view.WellKeyed() && Tame(s)
    ensures Tame(TryStart(s, now).0)
  {
    hide Tame, Anchor, Blocked, Moot, View.WellKeyed, Pending;
    var q := Pending(s, s.requests);
    var dropped := s.(requests := q);
    DropKeepsTame(s, dropped);
    if s.Quiet() && q != [] && !Blocked(s, q[0]) {
      AwaitKeepsTame(dropped, Reserved(s, q[0], now), TryStart(s, now).0);
    }
  }

  /** A topology reset turns what was in flight back into requests. */
  lemma {:induction false} VoidKeepsTame(s: State)
    requires Tame(s)
    ensures Tame(VoidReservations(s))
  {
    var r := VoidReservations(s);
    if s.awaited != [] {
      var a := s.awaited[0];
      assert s.awaited == [a] && a in s.awaited;
      assert forall q | q in s.requests :: q.key != a.key;
      var queue := [Request(a.key, a.display)] + s.requests;
      assert s.awaited[..0] == [] && Requeue([], queue) == queue;
      assert Requeue(s.awaited, s.requests) == Requeue(s.awaited[..0], queue);
      assert r.requests == [Request(a.key, a.display)] + s.requests;
      forall k | r.Expecting(k) ensures s.Expecting(k) {
      }
      forall i, j | 0 <= i < j < |r.requests| ensures r.requests[i].key != r.requests[j].key {
        if i == 0 {
          assert s.requests[j - 1] in s.requests;
        }
      }
    } else {
      assert r.requests == s.requests;
      assert forall k :: r.Expecting(k) == s.Expecting(k);
    }
  }

  // ---------------------------------------------------------- taking new Spaces

  /** The Space in flight is nobody's when it is bound, so binding it keeps owners apart. */
  lemma {:induction false} BindKeepsTame(s: State, now: Instant, visit: Visit)
    requires s.view.WellKeyed() && Tame(s)
    ensures var r := BindAwaited(s, now, visit); Tame(r) && NoNewFullscreen(s.reg, r.reg)
  {
    AwaitedBindsOnlyNewSpaces(s, now, visit);
    UnboundKeepsRegistry(s, now, visit);
    hide BindAwaited, View.WellKeyed;
    var r := BindAwaited(s, now, visit);
    BoundKeepsTame(s, r);
    forall k | k in r.reg && r.reg[k].IsFullscreen() ensures k in s.reg && s.reg[k].backing == r.reg[k].backing {
      assert BoundAfresh(s, s.awaited, r, k);
    }
  }

  lemma {:induction false} UnboundKeepsRegistry(s: State, now: Instant, visit: Visit)
    requires s.view.WellKeyed() && |s.awaited| <= 1
    ensures var r := BindAwaited(s, now, visit);
            r.awaited == [] || (|s.awaited| == 1 && r.awaited == [Aged(s.awaited[0], now)] && r.reg == s.reg)
  {
    hide BindOne, View.WellKeyed;
    if s.awaited != [] {
      var start := s.(awaited := []);
      assert s.awaited[1..] == [];
      assert BindAll(start, s.awaited, now, visit) == BindOne(start, s.awaited[0], now, visit);
    }
  }

  lemma {:induction false} BoundKeepsTame(s: State, r: State)
    requires Tame(s) && BindsOnly(s, s.awaited, r) && r.requests == s.requests
    requires r.awaited == [] || (|s.awaited| == 1 && |r.awaited| == 1 && r.reg == s.reg
                                 && r.awaited[0].key == s.awaited[0].key && r.awaited[0].before == s.awaited[0].before)
    ensures Tame(r)
  {
    if r.awaited != [] {
      assert s.awaited[0] in s.awaited;
      assert forall k :: r.Expecting(k) == s.Expecting(k);
    } else {
      BoundStayDistinct(s, r);
      forall k | k in r.reg && r.Expecting(k) ensures r.reg[k].backing == None {
        assert BoundAfresh(s, s.awaited, r, k) && s.Expecting(k);
      }
    }
  }

  /** A Space the reservation may take is nobody's. */
  lemma {:induction false} TakenIsFree(s: State, a: Awaited, x: SpaceId)
    requires Tame(s) && a in s.awaited && MayTake(s, a, x)
    ensures forall k | k in s.reg :: s.reg[k].Home() != Some(x)
  {
    forall k | k in s.reg ensures s.reg[k].Home() != Some(x) {
      assert s.reg[k].ActiveSpace() != Some(x);
    }
  }

  lemma {:induction false} BoundStayDistinct(s: State, r: State)
    requires Tame(s) && BindsOnly(s, s.awaited, r)
    ensures Distinct(r.reg)
  {
    forall k | k in r.reg && r.reg[k] != s.reg[k]
      ensures |s.awaited| == 1 && k == s.awaited[0].key
      ensures r.reg[k].Home().Some? && forall j | j in s.reg :: s.reg[j].Home() != r.reg[k].Home()
    {
      assert BoundAfresh(s, s.awaited, r, k);
      var a, x: SpaceId :| a in s.awaited && a.key == k && MayTake(s, a, x) && r.reg[k] == Taking(s, k, x);
      TakenIsFree(s, a, x);
    }
  }

  /** Every queued creation is for a registered workspace. */
  ghost predicate NoOrphanRequests(s: State) {
    forall q | q in s.requests :: q.key in s.reg
  }

  /** Adopting a Space nobody knows, under a name nobody uses, keeps owners apart. */
  lemma {:induction false} AdoptKeepsTame(s: State, x: SpaceId)
    requires Tame(s) && s.awaited == [] && NoOrphanRequests(s) && x in s.view.spaces && !s.Known(x)
    ensures var r := AdoptOne(s, x);
            && Tame(r) && r.awaited == [] && NoOrphanRequests(r) && r.initialized == s.initialized
            && r.requests == s.requests && r.view == s.view && NoNewFullscreen(s.reg, r.reg)
            && forall y: SpaceId | r.Known(y) && y != x :: s.Known(y)
  {
    hide NextOrdinal, NextName, EnsureDynamic;
    var k := NextName(s.reg, s.view.spaces[x].display);
    if k.Some? {
      AddOwnerKeepsTame(s, k.value, x, EnsureDynamic(s, k.value), AdoptOne(s, x));
    }
  }

  lemma {:induction false} AddOwnerKeepsTame(s: State, k: Key, x: SpaceId, mid: State, r: State)
    requires Tame(s) && s.awaited == [] && NoOrphanRequests(s) && !s.Known(x) && k !in s.reg
    requires k in mid.reg && mid.reg - {k} == s.reg
    requires r.awaited == [] && r.requests == s.requests && r.view == s.view && r.reg == mid.reg[k := mid.reg[k].(backing := Some(Normal(x)))]
    ensures Tame(r) && NoOrphanRequests(r) && NoNewFullscreen(s.reg, r.reg)
    ensures forall y: SpaceId | r.Known(y) && y != x :: s.Known(y)
  {
    forall j | j in r.reg && j != k ensures j in s.reg && r.reg[j] == s.reg[j] && r.reg[j].Home() != Some(x) {
      assert j in mid.reg - {k};
      assert !s.reg[j].Holds(x);
    }
    forall j | j in s.reg ensures j in r.reg {
      assert j in mid.reg - {k};
    }
    forall j | j in r.reg && r.Expecting(j) ensures r.reg[j].backing == None {
      var q :| q in r.requests && q.key == j;
      assert q.key in s.reg && s.Expecting(j);
    }
    forall y: SpaceId | r.Known(y) && y != x ensures s.Known(y) {
      var j :| j in r.reg && r.reg[j].Holds(y);
      assert j in s.reg;
    }
  }

  lemma {:induction false} AdoptAllKeepsTame(s: State, xs: seq<SpaceId>)
    requires Tame(s) && s.awaited == [] && NoOrphanRequests(s) && NoDup(xs)
    requires forall x | x in xs :: x in s.view.spaces && !s.Known(x)
    ensures var r := AdoptAll(s, xs); Tame(r) && r.initialized == s.initialized && NoNewFullscreen(s.reg, r.reg)
    decreases |xs|
  {
    hide Tame, AdoptOne, NoOrphanRequests, State.Known;
    if xs != [] {
      AdoptKeepsTame(s, xs[0]);
      assert NoDup(xs[1..]) && xs[0] !in xs[1..];
      AdoptAllKeepsTame(AdoptOne(s, xs[0]), xs[1..]);
    }
  }

  /** Ordinary Spaces nobody knows are set aside for others' use. */
  ghost predicate StrangersSetAside(s: State) {
    forall x | x in s.view.spaces && s.view.spaces[x].Ordinary() && !s.Known(x) :: x in s.external
  }

  /** The Spaces a snapshot pass would adopt, in order. */
  ghost function ToAdopt(s: State, now: Instant): seq<SpaceId>
    requires s.view.WellKeyed()
  {
    if s.initialized && s.awaited == [] then Adoptable(GraceSurplus(s.(external := StillExternal(s)), now)) else []
  }

  lemma {:induction false} ObserveKeepsTame(s: State, now: Instant)
    requires s.view.WellKeyed() && Tame(s) && (s.initialized || s.awaited == []) && (NoOrphanRequests(s) || ToAdopt(s, now) == [])
    ensures var r := ObserveExternal(s, now);
            Tame(r) && r.initialized && (r.awaited != [] ==> StrangersSetAside(r)) && NoNewFullscreen(s.reg, r.reg)
  {
    hide View.WellKeyed, StillExternal, AdoptOne;
    var s1 := s.(external := StillExternal(s));
    var s2 := GraceSurplus(s1, now);
    ShrinkKeepsTame(s, s1.(initialized := true));
    ShrinkKeepsTame(s, s2);
    StrangersGraced(s, now);
    StillUnknown(s, now);
    if ToAdopt(s, now) != [] {
      AdoptAllKeepsTame(s2, Adoptable(s2));
    }
  }

  lemma {:induction false} StrangersGraced(s: State, now: Instant)
    ensures StrangersSetAside(GraceSurplus(s.(external := StillExternal(s)), now))
  {
    hide StillExternal;
    var s1 := s.(external := StillExternal(s));
    var s2 := GraceSurplus(s1, now);
    forall x: SpaceId ensures s2.Known(x) == s1.Known(x) {
    }
  }

  lemma {:induction false} StillUnknown(s: State, now: Instant)
    ensures var s2 := GraceSurplus(s.(external := StillExternal(s)), now); forall x | x in s2.external :: !s2.Known(x)
  {
    var s1 := s.(external := StillExternal(s));
    var s2 := GraceSurplus(s1, now);
    forall x: SpaceId ensures s2.Known(x) == s1.Known(x) == s.Known(x) {
    }
  }

  // ------------------------------------------------------------ positional remap

  /** What workspaces show as fullscreen is a fullscreen Space. */
  ghost predicate FullscreenShown(s: State) {
    forall k | k in s.reg && s.reg[k].IsFullscreen() :: !FullscreenLost(s, s.reg[k].backing.value)
  }

  /** The remap works on the workspaces that are not waiting; the others are put back as they were. */
  lemma {:induction false} RemapPieces(s: State, visit: Visit)
    requires s.view.WellKeyed() && s.placement == None
    ensures var r := RemapSlots(s, visit).0;
            var free := s.reg - Held(s);
            && r.reg.Keys == s.reg.Keys && Remapped(free, SlotSpaces(s), s.view.displays.Keys).Keys == free.Keys
            && forall k | k in s.reg :: r.reg[k] == if s.Expecting(k) then s.reg[k] else Remapped(free, SlotSpaces(s), s.view.displays.Keys)[k]
  {
    hide Rebound, State.Expecting;
  }

  lemma FullscreenStay(reg: Registry, spaces: map<SpaceId, Space>, displays: set<DisplayId>)
    requires KeyedSpaces(spaces)
    ensures forall k | k in reg :: k in Remapped(reg, spaces, displays)
                                   && (Remapped(reg, spaces, displays)[k].IsFullscreen() ==> Remapped(reg, spaces, displays)[k] == reg[k])
  {
  }

  predicate ShowsNormal(e: Entry) { e.backing.Some? && e.backing.value.Normal? }

  /** What the remap leaves one workspace with: what it had, nothing, or a slot nobody is coming back to. */
  lemma {:induction false} RemapGives(s: State, visit: Visit, k: Key)
    requires s.view.WellKeyed() && WaitersUnbacked(s) && s.placement == None && k in s.reg
    ensures var r := RemapSlots(s, visit).0;
            && k in r.reg
            && (s.Expecting(k) ==> r.reg[k].backing == None)
            && (r.reg[k].IsFullscreen() ==> r.reg[k].backing == s.reg[k].backing)
            && (ShowsNormal(r.reg[k]) ==>
                  var x := r.reg[k].backing.value.space;
                  x in s.view.spaces && x !in s.external && s.view.spaces[x].Ordinary()
                  && forall j | j in s.reg :: s.reg[j].RestoreSpace() != Some(x))
  {
    var free := s.reg - Held(s);
    RemapPieces(s, visit);
    RemapIsSound(free, SlotSpaces(s), s.view.displays.Keys);
    FullscreenStay(free, SlotSpaces(s), s.view.displays.Keys);
    forall j | j in s.reg && s.reg[j].IsFullscreen() ensures s.reg[j].backing.value.restoreSpace in Parked(free) {
      assert j in free;
    }
    hide Remapped, RemapSlots, State.Expecting;
  }

  lemma {:induction false} RemapSeparates(s: State, visit: Visit, j: Key, k: Key)
    requires s.view.WellKeyed() && WaitersUnbacked(s) && s.placement == None && j in s.reg && k in s.reg && j != k
    ensures var r := RemapSlots(s, visit).0;
            j in r.reg && k in r.reg && (ShowsNormal(r.reg[j]) && ShowsNormal(r.reg[k]) ==> r.reg[j].backing != r.reg[k].backing)
  {
    var free := s.reg - Held(s);
    RemapPieces(s, visit);
    RemapIsSound(free, SlotSpaces(s), s.view.displays.Keys);
    hide Remapped, RemapSlots, State.Expecting;
  }

  lemma {:induction false} RemapStaysDistinct(s: State, visit: Visit)
    requires s.view.WellKeyed() && Tame(s) && s.placement == None
    ensures Distinct(RemapSlots(s, visit).0.reg)
  {
    RemapKeys(s, visit);
    hide RemapSlots, View.WellKeyed, WaitersUnbacked, WaitsOnce, Predates;
    var r := RemapSlots(s, visit).0;
    forall j, k | j in r.reg && k in r.reg && j != k && r.reg[j].Home().Some? ensures r.reg[j].Home() != r.reg[k].Home() {
      RemapGives(s, visit, j);
      RemapGives(s, visit, k);
      RemapSeparates(s, visit, j, k);
    }
  }

  lemma {:induction false} RemapStaysDated(s: State, visit: Visit)
    requires s.view.WellKeyed() && Tame(s) && s.placement == None && FullscreenShown(s) && (s.awaited != [] ==> StrangersSetAside(s))
    ensures Predates(RemapSlots(s, visit).0)
  {
    RemapKeys(s, visit);
    hide RemapSlots, View.WellKeyed, WaitersUnbacked, WaitsOnce, Distinct, FullscreenShown, StrangersSetAside;
    var r := RemapSlots(s, visit).0;
    forall a, k | a in r.awaited && k in r.reg && r.reg[k].Home().Some?
      ensures r.reg[k].Home().value in a.before || r.reg[k].Home().value !in r.view.spaces
    {
      RemapGives(s, visit, k);
      if ShowsNormal(r.reg[k]) {
        OwnedAlready(s, r.reg[k].backing.value.space);
      }
    }
  }

  /** The remap hands out Spaces that are already owned, or all of them at once; owners stay apart. */
  lemma {:induction false} RemapKeepsTame(s: State, visit: Visit)
    requires s.view.WellKeyed() && Tame(s) && FullscreenShown(s) && (s.awaited != [] ==> StrangersSetAside(s))
    ensures Tame(RemapSlots(s, visit).0)
  {
    if s.placement.None? {
      RemapKeys(s, visit);
      RemapStaysDistinct(s, visit);
      RemapStaysDated(s, visit);
      hide RemapSlots, View.WellKeyed, FullscreenShown, StrangersSetAside, Distinct, Predates;
      var r := RemapSlots(s, visit).0;
      forall k | k in r.reg && r.Expecting(k) ensures r.reg[k].backing == None {
        RemapGives(s, visit, k);
        assert s.Expecting(k);
      }
    }
  }

  lemma RemapKeys(s: State, visit: Visit)
    requires s.view.WellKeyed() && s.placement == None
    ensures RemapSlots(s, visit).0.reg.Keys == s.reg.Keys
  {
    RemapPieces(s, visit);
  }

  /** An ordinary Space not set aside is some workspace's own. */
  lemma {:induction false} OwnedAlready(s: State, x: SpaceId)
    requires FullscreenShown(s) && StrangersSetAside(s) && x in s.view.spaces && x !in s.external && s.view.spaces[x].Ordinary()
    ensures exists k :: k in s.reg && s.reg[k].Home() == Some(x)
  {
    var k :| k in s.reg && s.reg[k].Holds(x);
    assert s.reg[k].Home() == Some(x);
  }

  // ---------------------------------------------------------------- whole steps

  /** A workspace's Space that had left the view does not come back. */
  ghost predicate StaysGone(s: State, snap: Snapshot) {
    forall k | k in s.reg && s.reg[k].Home().Some? && s.reg[k].Home().value in snap.spaces :: s.reg[k].Home().value in s.view.spaces
  }

  lemma {:induction false} ObservedStaysTame(s: State, snap: Snapshot)
    requires Tame(s) && StaysGone(s, snap)
    ensures Tame(Observe(s, snap))
  {
    ShrinkKeepsTame(s, Observe(s, snap));
  }

  lemma {:induction false} FullscreenStageKeepsTame(s: State, previous: map<WindowId, Window>, now: Instant, visit: Visit)
    requires Tame(s)
    ensures var r := ReconcileFullscreen(s, previous, now, visit); Tame(r) && FullscreenShown(r)
  {
    FullscreenShrinks(s, previous, now);
    hide FullscreenRegistry, ReconcileFullscreen, Tame;
    var r := ReconcileFullscreen(s, previous, now, visit);
    ShrinkKeepsTame(s, r);
  }

  lemma {:induction false} FullscreenStaysShown(s: State, r: State)
    requires FullscreenShown(s) && NoNewFullscreen(s.reg, r.reg) && r.view == s.view
    ensures FullscreenShown(r)
  {
  }

  /** Vanished workspaces are forgotten, persistent ones parked. */
  lemma {:induction false} VanishedStagesKeepTame(s: State, now: Instant, reset: bool, visit: Visit)
    requires Tame(s) && FullscreenShown(s)
    ensures var r := WithoutVanished(s, now, reset, visit);
            Tame(r) && FullscreenShown(r) && r.view == s.view && r.awaited == s.awaited && r.initialized == s.initialized
  {
    hide Tame, FullscreenShown, NoteWindowSpaces, ConfirmDestroys, Retire, ParkVanished;
    var s2 := NoteWindowSpaces(s, now);
    var s3 := ConfirmDestroys(s2);
    ShrinkKeepsTame(s, s3);
    FullscreenStaysShown(s, s3);
    if !reset {
      ShrinkKeepsTame(s3, Retire(s3));
      FullscreenStaysShown(s3, Retire(s3));
      ParkKeepsTame(Retire(s3), visit.keys);
      FullscreenStaysShown(Retire(s3), ParkVanished(Retire(s3), visit.keys));
    }
  }

  /** The snapshot taken in, reset or not, nobody's Space has become another's. */
  lemma {:induction false} TakenInStaysTame(s: State, snap: Snapshot, now: Instant, visit: Visit)
    requires snap.complete && Tame(s) && StaysGone(s, snap)
    ensures var r := TakenIn(s, snap, now, visit);
            && Tame(r) && FullscreenShown(r)
            && (if IsReset(s.view, snap) then r.awaited == [] && !r.initialized
                else r.awaited == s.awaited && r.initialized == s.initialized && r.requests == s.requests)
  {
    hide IsReset, SyncConfig, ReconcileFullscreen, Tame, FullscreenShown, Requeue, HomesShrink;
    var start := if IsReset(s.view, snap) then VoidReservations(s) else s;
    VoidKeepsTame(s);
    ObservedStaysTame(start, snap);
    var s1 := Observe(start, snap);
    SyncShrinks(s1, visit);
    HomesOnly(s1, SyncConfig(s1, visit));
    FullscreenStageKeepsTame(SyncConfig(s1, visit), s.view.windows, now, visit);
  }

  lemma {:induction false} GatherKeepsTame(s: State, snap: Snapshot, now: Instant, visit: Visit)
    requires snap.complete && snap.WellKeyed() && Tame(s) && (s.initialized || s.awaited == []) && StaysGone(s, snap)
    ensures var r := Gathered(s, snap, now, visit); Tame(r) && FullscreenShown(r) && (r.initialized || r.awaited == [])
  {
    hide IsReset, TakenIn, WithoutVanished, BindAwaited, View.WellKeyed, Snapshot.WellKeyed, Tame, FullscreenShown, StaysGone, NoNewFullscreen;
    TakenInStaysTame(s, snap, now, visit);
    TakenInKeyed(s, snap, now, visit);
    var s2 := TakenIn(s, snap, now, visit);
    VanishedStagesKeepTame(s2, now, IsReset(s.view, snap), visit);
    var s4 := WithoutVanished(s2, now, IsReset(s.view, snap), visit);
    BindKeepsTame(s4, now, visit);
    FullscreenStaysShown(s4, BindAwaited(s4, now, visit));
  }

  lemma {:induction false} HomesOnly(s: State, r: State)
    requires Tame(s) && HomesShrink(s.reg, r.reg) && r.awaited == s.awaited && r.requests == s.requests && r.view == s.view
    ensures Tame(r)
  {
    ShrinkKeepsTame(s, r);
  }

  /** Once bindings are settled no stranger's Space is adopted, unless every queued creation is for a registered workspace. */
  ghost predicate AdoptsSafely(s: State, snap: Snapshot, now: Instant, visit: Visit)
    requires snap.complete && snap.WellKeyed()
  {
    var g := Gathered(s, snap, now, visit);
    NoOrphanRequests(g) || ToAdopt(g, now) == []
  }

  /** Every queued creation is for a workspace that lasts. */
  ghost predicate QueuedLast(s: State, snap: Snapshot) {
    forall q | q in s.requests :: Lasting(s, snap, q.key)
  }

  /** Every Space in use that the engine might take for a stranger's is a lasting workspace's own. */
  ghost predicate InUseOwned(s: State, snap: Snapshot) {
    forall x | x in snap.spaces && (snap.spaces[x].Ordinary() || x in s.external)
               && (snap.spaces[x].focused || exists w | w in snap.windows :: snap.windows[w].space == Some(x)) ::
      exists k :: Lasting(s, snap, k) && s.reg[k].Home() == Some(x)
  }

  /**
   * What the world and the queues have to be like for a snapshot to be safe: no workspace's Space
   * comes back from the dead, and, once the engine has begun to adopt strangers' Spaces, either
   * every queued creation is for a workspace that lasts or there is no stranger's Space in use.
   */
  ghost predicate Orderly(s: State, snap: Snapshot) {
    && StaysGone(s, snap)
    && (snap.complete ==> !s.initialized || IsReset(s.view, snap) || QueuedLast(s, snap) || InUseOwned(s, snap))
  }

  lemma {:induction false} GatheredRequests(s: State, snap: Snapshot, now: Instant, visit: Visit)
    requires snap.complete && snap.WellKeyed() && Tame(s) && !IsReset(s.view, snap) && StaysGone(s, snap)
    ensures var r := Gathered(s, snap, now, visit); forall q | q in r.requests :: q in s.requests || q.key in r.reg
  {
    hide IsReset, TakenIn, WithoutVanished, BindAwaited, Tame, StaysGone, View.WellKeyed, Snapshot.WellKeyed;
    TakenInStaysTame(s, snap, now, visit);
    TakenInKeyed(s, snap, now, visit);
    var s2 := TakenIn(s, snap, now, visit);
    var s4 := WithoutVanished(s2, now, false, visit);
    WithoutVanishedRequests(s2, now, false, visit);
    forall q | q in BindAwaited(s4, now, visit).requests && q !in s.requests ensures q.key in BindAwaited(s4, now, visit).reg {
      BackedIsNotAwaited(s2, q.key);
      BindKeeps(s4, now, visit, q.key);
    }
  }

  lemma BackedIsNotAwaited(s: State, k: Key)
    requires Tame(s) && k in s.reg && Vanished(s, s.reg[k])
    ensures forall a | a in s.awaited :: a.key != k
  {
  }

  lemma {:induction false} StartsUninitialized(s: State, snap: Snapshot, now: Instant, visit: Visit)
    requires snap.complete && snap.WellKeyed() && (!s.initialized || IsReset(s.view, snap))
    ensures !Gathered(s, snap, now, visit).initialized
  {
    hide IsReset, SyncConfig, ReconcileFullscreen, WithoutVanished, BindAwaited, View.WellKeyed, Snapshot.WellKeyed;
  }

  /** With queued creations all for lasting workspaces, every queued workspace is registered when strangers are looked at. */
  lemma {:induction false} LastingNotOrphaned(s: State, snap: Snapshot, now: Instant, visit: Visit)
    requires snap.complete && snap.WellKeyed() && Tame(s) && !IsReset(s.view, snap) && StaysGone(s, snap) && QueuedLast(s, snap)
    ensures NoOrphanRequests(Gathered(s, snap, now, visit))
  {
    hide Gathered, IsReset, Lasting, Tame, StaysGone, View.WellKeyed, Snapshot.WellKeyed;
    GatheredRequests(s, snap, now, visit);
    forall q | q in s.requests ensures q.key in Gathered(s, snap, now, visit).reg {
      LastingStay(s, snap, now, visit, q.key);
    }
  }

  lemma {:induction false} GatheredSees(s: State, snap: Snapshot, now: Instant, visit: Visit)
    requires snap.complete && snap.WellKeyed() && !IsReset(s.view, snap)
    ensures forall x | x in Gathered(s, snap, now, visit).external :: x in s.external
  {
    hide IsReset, SyncConfig, FullscreenRegistry, ConfirmDestroys, Retire, ParkVanished, NoteWindowSpaces, View.WellKeyed, Snapshot.WellKeyed, ReserveOrder, Restored;
    TakenInKeyed(s, snap, now, visit);
    SyncKeepsExternal(s, snap, visit);
    var s2 := TakenIn(s, snap, now, visit);
    VanishedKeepsExternal(s2, now, false, visit);
    var s4 := WithoutVanished(s2, now, false, visit);
    BindShrinksExternal(s4.(awaited := []), s4.awaited, now, visit);
  }

  lemma SyncKeepsExternal(s: State, snap: Snapshot, visit: Visit)
    ensures SyncConfig(Observe(s, snap), visit).external == s.external
  {
    hide NextOrdinal, InstantiateAll, OnDisplays;
  }

  lemma {:induction false} ParkKeepsExternal(s: State, ks: seq<Key>)
    ensures ParkVanished(s, ks).external == s.external
    decreases |ks|
  {
    hide Requested;
    if ks != [] {
      ParkKeepsExternal(ParkOne(s, ks[0]), ks[1..]);
    }
  }

  lemma VanishedKeepsExternal(s: State, now: Instant, reset: bool, visit: Visit)
    ensures WithoutVanished(s, now, reset, visit).external == s.external
  {
    hide ParkVanished, LastSeen, SpacesOf, KeepFocus, KeepMoves, Confirmed;
    if !reset {
      ParkKeepsExternal(Retire(ConfirmDestroys(NoteWindowSpaces(s, now))), visit.keys);
    }
  }

  lemma {:induction false} BindShrinksExternal(s: State, todo: seq<Awaited>, now: Instant, visit: Visit)
    requires s.view.WellKeyed()
    ensures forall x | x in BindAll(s, todo, now, visit).external :: x in s.external
    decreases |todo|
  {
    hide BindOne, View.WellKeyed;
    if todo != [] {
      BindOneShrinksExternal(s, todo[0], now, visit);
      BindShrinksExternal(BindOne(s, todo[0], now, visit), todo[1..], now, visit);
    }
  }

  lemma BindOneShrinksExternal(s: State, a: Awaited, now: Instant, visit: Visit)
    requires s.view.WellKeyed()
    ensures forall x | x in BindOne(s, a, now, visit).external :: x in s.external
  {
    hide Released, BindTo, Candidates, View.WellKeyed, Expired, Aged;
    var b := Aged(a, now);
    ReleasedKeepsExternal(s, b.key);
    if b.key in s.reg && s.reg[b.key].backing.None? {
      CandidatesKeyed(s, b);
      if Candidates(s, b) != {} {
        BoundShrinksExternal(s, b.key, FirstSlot(Candidates(s, b)), now, visit);
      }
    }
  }

  lemma ReleasedKeepsExternal(s: State, k: Key)
    ensures Released(s, k).external == s.external
  {
    hide SpacesOf, KeepFocus, KeepMoves;
  }

  lemma BoundShrinksExternal(s: State, k: Key, x: Space, now: Instant, visit: Visit)
    requires k in s.reg
    ensures forall y | y in BindTo(s, k, x, now, visit).external :: y in s.external
  {
    hide LogicalOrder;
  }

  /** With every Space in use a lasting workspace's own, there is nothing to adopt. */
  lemma {:induction false} OwnedNotAdopted(s: State, snap: Snapshot, now: Instant, visit: Visit)
    requires snap.complete && snap.WellKeyed() && !IsReset(s.view, snap) && InUseOwned(s, snap)
    ensures ToAdopt(Gathered(s, snap, now, visit), now) == []
  {
    hide Gathered, IsReset, View.WellKeyed, Snapshot.WellKeyed, Adoptable, Entry.Home;
    GatheredSees(s, snap, now, visit);
    var g := Gathered(s, snap, now, visit);
    var s1 := GraceSurplus(g.(external := StillExternal(g)), now);
    forall x | x in snap.spaces && (snap.spaces[x].Ordinary() || x in s.external)
               && (snap.spaces[x].focused || exists w | w in snap.windows :: snap.windows[w].space == Some(x))
      ensures g.Known(x)
    {
      var k :| Lasting(s, snap, k) && s.reg[k].Home() == Some(x);
      LastingInReg(s, snap, k);
      LastingStay(s, snap, now, visit, k);
      HomeIsHeld(g, k, x);
    }
    NobodyAdoptable(g, s1, s, now);
  }

  lemma LastingInReg(s: State, snap: Snapshot, k: Key)
    requires Lasting(s, snap, k)
    ensures k in s.reg
  {
  }

  lemma HomeIsHeld(s: State, k: Key, x: SpaceId)
    requires k in s.reg && s.reg[k].Home() == Some(x)
    ensures s.Known(x)
  {
    assert s.reg[k].Holds(x);
  }

  lemma {:induction false} NobodyAdoptable(g: State, s1: State, s: State, now: Instant)
    requires g.view.WellKeyed() && s1 == GraceSurplus(g.(external := StillExternal(g)), now)
    requires forall x | x in g.external :: x in s.external
    requires forall x | x in g.view.spaces && (g.view.spaces[x].Ordinary() || x in s.external)
                        && (g.view.spaces[x].focused || g.view.Occupied(x)) :: g.Known(x)
    ensures s1.view.WellKeyed() && Adoptable(s1) == []
  {
    hide View.WellKeyed, State.Known, Adoptable, View.Occupied;
    StillUnknownHere(g, now);
    SomeMember(Adoptable(s1));
  }

  lemma SomeMember(xs: seq<SpaceId>)
    ensures xs == [] || exists x :: x in xs
  {
    if xs != [] {
      assert xs[0] in xs;
    }
  }

  lemma {:induction false} StillUnknownHere(g: State, now: Instant)
    ensures var s1 := GraceSurplus(g.(external := StillExternal(g)), now);
            s1.view == g.view && forall x | x in s1.external ::
              !g.Known(x) && (x in g.external || (x in g.view.spaces && g.view.spaces[x].Ordinary()))
  {
    StillUnknown(g, now);
    var h := g.(external := StillExternal(g));
    forall x: SpaceId ensures h.Known(x) == g.Known(x) && GraceSurplus(h, now).Known(x) == g.Known(x) {
    }
  }

  /** Orderly snapshots adopt safely. */
  lemma {:induction false} OrderlyAdoptsSafely(s: State, snap: Snapshot, now: Instant, visit: Visit)
    requires snap.complete && snap.WellKeyed() && Tame(s) && Orderly(s, snap)
    ensures AdoptsSafely(s, snap, now, visit)
  {
    hide Gathered, IsReset, Lasting, Tame, StaysGone, QueuedLast, InUseOwned, NoOrphanRequests, Adoptable, View.WellKeyed, Snapshot.WellKeyed;
    if !s.initialized || IsReset(s.view, snap) {
      StartsUninitialized(s, snap, now, visit);
    } else if QueuedLast(s, snap) {
      LastingNotOrphaned(s, snap, now, visit);
    } else {
      OwnedNotAdopted(s, snap, now, visit);
    }
  }

  lemma {:induction false} SettleKeepsTame(s: State, snap: Snapshot, now: Instant, visit: Visit)
    requires snap.complete && snap.WellKeyed() && Tame(s) && (s.initialized || s.awaited == []) && Orderly(s, snap)
    ensures var r := Settled(s, snap, now, visit);
            Tame(r) && r.initialized && FullscreenShown(r) && (r.awaited != [] ==> StrangersSetAside(r))
  {
    hide Gathered, ObserveExternal, Tame, FullscreenShown, StrangersSetAside, NoNewFullscreen, NoOrphanRequests, StaysGone, View.WellKeyed;
    hide IsReset, QueuedLast, InUseOwned;
    OrderlyAdoptsSafely(s, snap, now, visit);
    GatherKeepsTame(s, snap, now, visit);
    var g := Gathered(s, snap, now, visit);
    ObserveKeepsTame(g, now);
    FullscreenStaysShown(g, ObserveExternal(g, now));
  }

  lemma {:induction false} RebindKeepsTame(s: State, visit: Visit)
    requires s.view.WellKeyed() && Tame(s) && FullscreenShown(s) && (s.awaited != [] ==> StrangersSetAside(s))
    ensures Tame(Rebind(s, visit).0)
  {
    RemapKeepsTame(s, visit);
    hide RemapSlots, MoveTrees, Reattach, View.WellKeyed;
    var s1 := RemapSlots(s, visit).0;
    HomesOnly(s1, Rebind(s, visit).0);
  }

  lemma {:induction false} AdvanceKeepsTame(s: State, now: Instant, visit: Visit)
    requires s.view.WellKeyed() && Tame(s) && FullscreenShown(s) && (s.awaited != [] ==> StrangersSetAside(s))
    ensures var r := Advance(s, now, visit).0; Tame(r) && r.initialized == s.initialized
  {
    hide ReconcilePlacement, Rebind, GraceSurplus, DestroyEmpty, FulfillQueues, RequestMissing, TryStart, HealIfIdle, MovedKeys, Ascending;
    hide View.WellKeyed, State.Quiet, Tame, FullscreenShown, StrangersSetAside, NoTopology, Strangers;
    var s1 := ReconcilePlacement(s, now).0;
    OnlyPlacement(s, s1);
    var (s2, moves) := Rebind(s1, visit);
    RebindKeepsTame(s1, visit);
    var g := GraceSurplus(s2, now);
    var s3 := DestroyEmpty(g, MovedKeys(moves), now).0;
    ShrinkKeepsTame(s2, g);
    ShrinkKeepsTame(g, s3);
    var s4 := FulfillQueues(s3, now).0;
    HomesOnly(s3, s4);
    var s5 := RequestMissing(s4, Ascending(s4.view.displays.Keys));
    RequestMissingKeepsTame(s4, Ascending(s4.view.displays.Keys));
    var s6 := TryStart(s5, now).0;
    StartKeepsTame(s5, now);
    HomesOnly(s6, Advance(s, now, visit).0);
  }

  /** A complete snapshot keeps every workspace's Space its own. */
  lemma {:induction false} SnapshotKeepsTame(s: State, snap: Snapshot, now: Instant, visit: Visit)
    requires snap.complete && snap.WellKeyed() && Tame(s) && s.initialized && Orderly(s, snap)
    ensures var r := SnapshotStep(s, snap, now, visit).0; Tame(r) && r.initialized
  {
    hide Settled, Advance, Tame, Orderly, FullscreenShown, StrangersSetAside;
    SettleKeepsTame(s, snap, now, visit);
    AdvanceKeepsTame(Settled(s, snap, now, visit), now, visit);
  }

  lemma {:induction false} OnlyPlacement(s: State, r: State)
    requires r == s.(placement := r.placement) && Tame(s) && FullscreenShown(s)
    ensures Tame(r) && FullscreenShown(r) && (StrangersSetAside(s) ==> StrangersSetAside(r))
  {
    HomesOnly(s, r);
    assert forall x: SpaceId :: r.Known(x) == s.Known(x);
  }

  // -------------------------------------------------------------------- commands

  lemma {:induction false} RequestKeepsTame(s: State, d: DisplayId, name: string, now: Instant)
    requires s.view.WellKeyed() && Tame(s) && (Key(d, name) in s.reg ==> s.reg[Key(d, name)].backing == None)
    ensures var r := RequestCreation(s, d, name, now).0; Tame(r) && r.initialized == s.initialized
  {
    hide EnsureDynamic, Anchor, TryStart, Tame, State.Expecting, View.WellKeyed;
    var k := Key(d, name);
    var s1 := EnsureDynamic(s, k);
    EnsureShrinks(s, k);
    HomesOnly(s, s1);
    var s2 := if s1.Expecting(k) then s1 else s1.(requests := s1.requests + [Request(k, d)]);
    if !s1.Expecting(k) {
      QueueKeepsTame(s1, Request(k, d), s2);
    }
    StartKeepsTame(s2, now);
  }

  lemma {:induction false} EnsureShrinks(s: State, k: Key)
    ensures HomesShrink(s.reg, EnsureDynamic(s, k).reg)
  {
    hide EnsureDynamic;
    var r := EnsureDynamic(s, k);
    forall j | j in r.reg && j != k ensures k in s.reg || (j in s.reg && r.reg[j] == s.reg[j]) {
      assert j in r.reg - {k};
    }
  }

  /** Clearing a dead binding before asking for a new Space. */
  lemma {:induction false} ClearedKeepsTame(s: State, k: Key)
    requires Tame(s)
    ensures var r := if k in s.reg then ClearStale(s, k) else s;
            Tame(r) && (k in r.reg ==> r.reg[k].backing == None) && r.view == s.view && r.initialized == s.initialized
  {
    hide ClearStale, Tame;
    ClearShrinks(s, k);
    HomesOnly(s, ClearStale(s, k));
  }

  lemma {:induction false} FocusKeepsTame(s: State, d: DisplayId, name: string, now: Instant)
    requires s.view.WellKeyed() && Tame(s)
    ensures var r := FocusWorkspace(s, d, name, now).0; Tame(r) && r.initialized == s.initialized
  {
    hide RequestCreation, ClearStale, QueuedFocus, Reachable, View.WellKeyed, Tame;
    var k := Key(d, name);
    var queued := s.(focusQueue := QueuedFocus(s.focusQueue, k));
    HomesOnly(s, queued);
    ClearedKeepsTame(queued, k);
    if !Reachable(s, k) {
      RequestKeepsTame(if k in s.reg then ClearStale(queued, k) else queued, d, name, now);
    }
  }

  lemma {:induction false} SendKeepsTame(s: State, w: WindowId, d: DisplayId, name: string, now: Instant)
    requires s.view.WellKeyed() && Tame(s)
    ensures var r := MoveToWorkspace(s, w, d, name, now).0; Tame(r) && r.initialized == s.initialized
  {
    hide RequestCreation, ClearStale, QueuedMove, Reachable, View.WellKeyed, Tame;
    var k := Key(d, name);
    var queued := s.(moveQueue := QueuedMove(s.moveQueue, w, k));
    HomesOnly(s, queued);
    HomesOnly(s, s.(grace := s.grace[k := now + DYNAMIC_GRACE]));
    ClearedKeepsTame(queued, k);
    if !Reachable(s, k) {
      RequestKeepsTame(if k in s.reg then ClearStale(queued, k) else queued, d, name, now);
    }
  }

  // ------------------------------------------------------------------------ runs

  ghost predicate OrderlyTurn(s: State, t: Turn)
    requires t.Valid()
  {
    t.event.Look? ==> Orderly(s, t.event.snap)
  }

  lemma {:induction false} RespondKeepsTame(s: State, t: Turn)
    requires s.view.WellKeyed() && t.Valid() && Tame(s) && s.initialized && OrderlyTurn(s, t)
    ensures var r := Respond(s, t.event, t.now).0; Tame(r) && r.initialized
  {
    hide *;
    AnyEvent(t);
    if t.event.Look? {
      OrderlyLook(s, t);
      LookAnswer(s, t.event, t.now);
      LookKeepsTame(s, t.event.snap, t.now, t.event.visit);
    } else {
      AnswerKeepsTame(s, t.event, t.now);
    }
  }

  lemma OrderlyLook(s: State, t: Turn)
    requires t.Valid() && OrderlyTurn(s, t) && t.event.Look?
    ensures Orderly(s, t.event.snap)
  {
    hide Orderly, Turn.Valid;
  }

  lemma {:induction false} AnswerKeepsTame(s: State, e: Event, now: Instant)
    requires s.view.WellKeyed() && e.WellKeyed() && Tame(s) && s.initialized && !e.Look?
    ensures var r := Respond(s, e, now).0; Tame(r) && r.initialized
  {
    hide SnapshotStep, FocusWorkspace, MoveToWorkspace, SpaceDestroyed, Tame, View.WellKeyed, Snapshot.WellKeyed;
    match e
    case Focus(d, name) => FocusKeepsTame(s, d, name, now);
    case Send(w, d, name) => SendKeepsTame(s, w, d, name, now);
    case SpaceGone(x) => SpaceGoneKeepsTame(s, x);
    case WindowGone(w) => ViewKeepsTame(s, WindowDestroyed(s, w));
    case DisplayGone(d) => ViewKeepsTame(s, DisplayRemoved(s, d));
    case Woken => ViewKeepsTame(s, NoteWake(s));
  }

  lemma {:induction false} SpaceGoneKeepsTame(s: State, x: SpaceId)
    requires Tame(s)
    ensures Tame(SpaceDestroyed(s, x)) && SpaceDestroyed(s, x).initialized == s.initialized
  {
    hide SpaceDestroyed;
    ShrinkKeepsTame(s, SpaceDestroyed(s, x));
  }

  lemma {:induction false} ViewKeepsTame(s: State, r: State)
    requires Tame(s) && r == s.(view := r.view) && r.view.spaces == s.view.spaces
    ensures Tame(r)
  {
    ShrinkKeepsTame(s, r);
  }

  lemma {:induction false} LookKeepsTame(s: State, snap: Snapshot, now: Instant, visit: Visit)
    requires s.view.WellKeyed() && snap.WellKeyed() && Tame(s) && s.initialized && Orderly(s, snap)
    ensures var r := SnapshotStep(s, snap, now, visit).0; Tame(r) && r.initialized
  {
    hide Tame, Gathered, ToAdopt, NoOrphanRequests, StaysGone;
    if snap.complete {
      SnapshotKeepsTame(s, snap, now, visit);
    } else {
      ObservedStaysTame(s, snap);
    }
  }

  lemma {:induction false} ReleaseKeepsTame(s: State, unexecuted: seq<Action>)
    requires Tame(s)
    ensures var r := NoteBatchFailed(s, unexecuted); Tame(r) && r.initialized == s.initialized
  {
    hide NoteBatchFailed, Creates;
    var r := NoteBatchFailed(s, unexecuted);
    assert forall a | a in r.awaited :: a in s.awaited;
    forall k | r.Expecting(k) ensures s.Expecting(k) {
    }
  }

  lemma {:induction false} TurnKeepsTame(s: State, t: Turn)
    requires s.view.WellKeyed() && t.Valid() && Tame(s) && s.initialized && OrderlyTurn(s, t)
    ensures Tame(After(s, t)) && After(s, t).initialized
  {
    RespondKeepsTame(s, t);
    hide Respond, Tame, OrderlyTurn, After;
    RefusalKeepsTame(s, t);
  }

  /** What a refusal releases cannot spoil what the answer kept. */
  lemma {:induction false} RefusalKeepsTame(s: State, t: Turn)
    requires s.view.WellKeyed() && t.Valid()
    requires var r := Respond(s, t.event, t.now).0; Tame(r) && r.initialized
    ensures Tame(After(s, t)) && After(s, t).initialized
  {
    hide Respond, Batch, Tame, NoteBatchFailed;
    var r := Respond(s, t.event, t.now).0;
    if Done(s, t) < |Batch(s, t)| {
      ReleaseKeepsTame(r, Batch(s, t)[Done(s, t)..]);
    }
  }

  ghost predicate OrderlyRun(s: State, turns: seq<Turn>)
    requires s.view.WellKeyed() && ValidTurns(turns)
    decreases |turns|
  {
    hide After, OrderlyTurn;
    turns == []
    || (var n := |turns| - 1;
        assert (forall t | t in turns[..n] :: t in turns) && turns[n] in turns;
        OrderlyRun(s, turns[..n]) && OrderlyTurn(AfterAll(s, turns[..n]), turns[n]))
  }

  /**
   * Over any orderly run, whatever the platform refuses: no two workspaces ever own the same
   * Space. In particular the Space a fullscreen workspace will come back to is never given to
   * another workspace and never adopted under another name.
   */
  lemma {:induction false} HomesStayDistinct(s: State, turns: seq<Turn>)
    requires s.view.WellKeyed() && ValidTurns(turns) && Tame(s) && s.initialized && OrderlyRun(s, turns)
    ensures var r := AfterAll(s, turns); Distinct(r.reg) && Tame(r) && r.initialized
    decreases |turns|
  {
    hide After, OrderlyTurn, Tame, Distinct;
    if turns != [] {
      var n := |turns| - 1;
      assert forall t | t in turns[..n] :: t in turns;
      HomesStayDistinct(s, turns[..n]);
      TurnKeepsTame(AfterAll(s, turns[..n]), turns[n]);
    }
    TameIsDistinct(AfterAll(s, turns));
  }

  lemma TameIsDistinct(s: State)
    requires Tame(s)
    ensures Distinct(s.reg)
  {
  }
}
