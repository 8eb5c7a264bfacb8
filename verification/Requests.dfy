/** Who asks for a Space, in which order requests are served, and where the new Space is put. */
module Requests {
  import opened Basics
  import opened Geometry
  import opened Observed
  import opened Workspace
  import opened Remap
  import opened Lifecycle
  import opened Runs
  import opened Creation
  import opened Homes
  import opened Intents
  import opened NameOrder

  // ------------------------------------------------------------- nobody misses out

  /** Persistent, without a Space, on one of these displays. */
  ghost predicate Missing(s: State, displays: set<DisplayId>, k: Key) {
    k in s.reg && s.reg[k].persistent && s.reg[k].backing == None && s.reg[k].display in displays
  }

  lemma ExpectingGrows(s: State, r: State, k: Key)
    requires s.Expecting(k) && r.awaited == s.awaited && s.requests <= r.requests
    ensures r.Expecting(k)
  {
    if q :| q in s.requests && q.key == k {
      assert q in r.requests[..|s.requests|];
    }
  }

  lemma OneMoreExpected(s: State, q: Request, k: Key)
    ensures s.(requests := s.requests + [q]).Expecting(k) <==> s.Expecting(k) || q.key == k
  {
    var r := s.(requests := s.requests + [q]);
    assert forall p | p in s.requests :: p in r.requests;
    assert q in r.requests;
  }

  /** Persistent and without a Space. */
  predicate Needs(s: State, k: Key) { k in s.reg && s.reg[k].persistent && s.reg[k].backing == None }

  /** Requests have been added, and only where one is needed. */
  ghost predicate Asked(s: State, r: State, k: Key) {
    && s.requests <= r.requests && r.awaited == s.awaited && r.reg == s.reg
    && (s.Expecting(k) ==> r.Expecting(k)) && (r.Expecting(k) && !s.Expecting(k) ==> Needs(s, k))
  }

  lemma AskedOn(a: State, b: State, c: State, k: Key)
    requires Asked(a, b, k) && Asked(b, c, k)
    ensures Asked(a, c, k)
  {
    hide State.Expecting;
  }

  function RequestOne(s: State, d: DisplayId, j: Key): State {
    if j in s.reg && s.reg[j].persistent && s.reg[j].backing == None && !s.Expecting(j) then s.(requests := s.requests + [Request(j, d)]) else s
  }

  lemma RequestOneAsks(s: State, d: DisplayId, j: Key, k: Key)
    ensures var r := RequestOne(s, d, j); Asked(s, r, k) && (k == j && Needs(s, k) ==> r.Expecting(k))
  {
    hide State.Expecting;
    OneMoreExpected(s, Request(j, d), k);
  }

  lemma {:induction false} RequestAllReaches(s: State, d: DisplayId, ks: seq<Key>, k: Key)
    ensures var r := RequestAll(s, d, ks); Asked(s, r, k) && (k in ks && Needs(s, k) ==> r.Expecting(k))
    decreases |ks|
  {
    hide State.Expecting, RequestOne, Asked;
    if ks == [] {
      AskedNothing(s, k);
    } else {
      var s1 := RequestOne(s, d, ks[0]);
      RequestAllIs(s, d, ks);
      RequestOneAsks(s, d, ks[0], k);
      RequestAllReaches(s1, d, ks[1..], k);
      AskedOn(s, s1, RequestAll(s, d, ks), k);
      AskedMeans(s, s1, k);
      AskedMeans(s1, RequestAll(s, d, ks), k);
    }
  }

  lemma RequestAllIs(s: State, d: DisplayId, ks: seq<Key>)
    requires ks != []
    ensures RequestAll(s, d, ks) == RequestAll(RequestOne(s, d, ks[0]), d, ks[1..])
  {
    hide State.Expecting;
  }

  lemma AskedNothing(s: State, k: Key)
    ensures Asked(s, s, k)
  {
    hide State.Expecting;
  }

  lemma AskedMeans(s: State, r: State, k: Key)
    requires Asked(s, r, k)
    ensures (s.Expecting(k) ==> r.Expecting(k)) && Needs(r, k) == Needs(s, k) && r.reg == s.reg
  {
    hide State.Expecting;
  }

  lemma {:induction false} RequestMissingReaches(s: State, displays: seq<DisplayId>, k: Key)
    ensures var r := RequestMissing(s, displays);
            Asked(s, r, k) && (Needs(s, k) && s.reg[k].display in displays ==> r.Expecting(k))
    decreases |displays|
  {
    hide RequestAll, State.Expecting, KeysFor, Asked;
    if displays == [] {
      AskedNothing(s, k);
    } else {
      var ks := KeysFor(s.reg, displays[0]);
      KeysForLists(s.reg, displays[0]);
      var s1 := RequestAll(s, displays[0], ks);
      RequestAllReaches(s, displays[0], ks, k);
      RequestMissingReaches(s1, displays[1..], k);
      AskedOn(s, s1, RequestMissing(s, displays), k);
      AskedMeans(s, s1, k);
      AskedMeans(s1, RequestMissing(s, displays), k);
    }
  }

  /** What starting does to the queue: nothing, drop the moot in front, or moreover serve the next. */
  lemma StartOutcome(s: State, now: Instant)
    requires s.view.WellKeyed()
    ensures var r, p := TryStart(s, now).0, Pending(s, s.requests);
            && r.reg == s.reg
            && (if !s.Quiet() then r.requests == s.requests && r.awaited == s.awaited
                else if p == [] || Blocked(s, p[0]) then r.requests == p && r.awaited == s.awaited
                else r.requests == p[1..] && |r.awaited| == 1 && r.awaited[0].key == p[0].key && r.awaited[0].display == p[0].display)
  {
    hide Anchor, Blocked, View.WellKeyed, State.Quiet, Pending;
  }

  lemma ExpectedBy(s: State, k: Key)
    ensures s.Expecting(k) <==> (exists a :: a in s.awaited && a.key == k) || exists q :: q in s.requests && q.key == k
  {
  }

  /** Starting a creation leaves nobody without a Space waiting for nothing. */
  lemma {:induction false} StartStillExpects(s: State, now: Instant, k: Key)
    requires s.view.WellKeyed() && s.Expecting(k) && k in s.reg && s.reg[k].backing == None
    ensures TryStart(s, now).0.Expecting(k)
  {
    hide *;
    StartOutcome(s, now);
    ExpectedBy(s, k);
    var r, q := TryStart(s, now).0, Pending(s, s.requests);
    ExpectedBy(r, k);
    if s.awaited != [] {
      NotQuiet(s);
    } else if s.Quiet() {
      var p :| p in s.requests && p.key == k;
      NotMoot(s, p);
      StaysPending(s, p);
      if q != [] && !Blocked(s, q[0]) && p == q[0] {
        assert r.awaited[0] in r.awaited;
      }
    }
  }

  lemma NotMoot(s: State, p: Request)
    requires p.key in s.reg && s.reg[p.key].backing == None
    ensures !Moot(s, p)
  {
  }

  lemma NotQuiet(s: State)
    requires s.awaited != []
    ensures !s.Quiet()
  {
  }

  lemma StaysPending(s: State, p: Request)
    requires s.view.WellKeyed() && p in s.requests && !Moot(s, p)
    ensures p in Pending(s, s.requests)
  {
    hide Blocked, View.WellKeyed;
    var q := Pending(s, s.requests);
    var i :| 0 <= i < |s.requests| && s.requests[i] == p;
    assert i >= |s.requests| - |q|;
    assert q[i - (|s.requests| - |q|)] == p;
  }

  /**
   * After a pass every persistent workspace of an observed display shows a Space, or one is queued
   * to be created for it or on its way.
   */
  lemma {:induction false} NobodyMissesOut(s: State, now: Instant, visit: Visit, k: Key)
    requires s.view.WellKeyed() && Missing(Advance(s, now, visit).0, s.view.displays.Keys, k)
    ensures Advance(s, now, visit).0.Expecting(k)
  {
    hide ReconcilePlacement, Rebind, GraceSurplus, DestroyEmpty, FulfillQueues, RequestMissing, TryStart, HealIfIdle, MovedKeys;
    hide View.WellKeyed, State.Quiet, NoTopology, Strangers, State.Expecting;
    var (s1, a1) := ReconcilePlacement(s, now);
    var (s2, moves) := Rebind(s1, visit);
    var (s3, a3) := DestroyEmpty(GraceSurplus(s2, now), MovedKeys(moves), now);
    var (s4, a4) := FulfillQueues(s3, now);
    AscendingHas(s4.view.displays.Keys);
    var s5 := RequestMissing(s4, Ascending(s4.view.displays.Keys));
    RequestMissingReaches(s4, Ascending(s4.view.displays.Keys), k);
    StartStillExpects(s5, now, k);
    var (s6, a6) := TryStart(s5, now);
    SameExpected(s6, Advance(s, now, visit).0, k);
  }

  lemma AscendingHas(ds: set<DisplayId>)
    ensures forall d :: d in Ascending(ds) <==> d in ds
  {
    assert forall d :: d in Ascending(ds) <==> d in Elements(Ascending(ds));
  }

  lemma SameExpected(a: State, b: State, k: Key)
    requires b.awaited == a.awaited && b.requests == a.requests
    ensures a.Expecting(k) == b.Expecting(k)
  {
  }

  // ----------------------------------------------------------------- asked by command

  lemma {:induction false} RequestAsks(s: State, d: DisplayId, name: string, now: Instant)
    requires s.view.WellKeyed() && (exists x :: x in s.view.spaces && s.view.spaces[x].display == d)
    requires Key(d, name) in s.reg ==> s.reg[Key(d, name)].backing == None
    ensures var k, r := Key(d, name), RequestCreation(s, d, name, now).0; k in r.reg && r.reg[k].backing == None && r.Expecting(k)
  {
    hide EnsureDynamic, Anchor, TryStart, State.Expecting, View.WellKeyed, State.Quiet;
    var k := Key(d, name);
    var s1 := EnsureDynamic(s, k);
    var s2 := if s1.Expecting(k) then s1 else s1.(requests := s1.requests + [Request(k, d)]);
    if !s1.Expecting(k) {
      OneMoreExpected(s1, Request(k, d), k);
    }
    StartStillExpects(s2, now, k);
  }

  /** A focus command that finds no Space to show asks for one, on a display that has any to start from. */
  lemma {:induction false} FocusAsksForSpace(s: State, d: DisplayId, name: string, now: Instant)
    requires s.view.WellKeyed() && !ShowsObserved(s, Key(d, name)) && exists x :: x in s.view.spaces && s.view.spaces[x].display == d
    ensures var k, r := Key(d, name), FocusWorkspace(s, d, name, now).0; k in r.reg && r.reg[k].backing == None && r.Expecting(k)
  {
    hide RequestCreation, ClearStale, View.WellKeyed, QueuedFocus, State.Expecting;
    var k := Key(d, name);
    var queued := s.(focusQueue := QueuedFocus(s.focusQueue, k));
    RequestAsks(if k in s.reg then ClearStale(queued, k) else queued, d, name, now);
  }

  /** And so does sending a window. */
  lemma {:induction false} SendAsksForSpace(s: State, w: WindowId, d: DisplayId, name: string, now: Instant)
    requires s.view.WellKeyed() && !ShowsObserved(s, Key(d, name)) && exists x :: x in s.view.spaces && s.view.spaces[x].display == d
    ensures var k, r := Key(d, name), MoveToWorkspace(s, w, d, name, now).0; k in r.reg && r.reg[k].backing == None && r.Expecting(k)
  {
    hide RequestCreation, ClearStale, View.WellKeyed, QueuedMove, State.Expecting;
    var k := Key(d, name);
    var queued := s.(moveQueue := QueuedMove(s.moveQueue, w, k));
    RequestAsks(if k in s.reg then ClearStale(queued, k) else queued, d, name, now);
  }

  // --------------------------------------------------------------- first come, first served

  /** Requests are only ever taken from the front, and added at the end. */
  ghost predicate ServedInOrder(before: seq<Request>, after: seq<Request>) {
    exists n, more: seq<Request> :: 0 <= n <= |before + more| && after == (before + more)[n..]
  }

  lemma {:induction false} StartServesFront(s: State, now: Instant)
    requires s.view.WellKeyed()
    ensures var r := TryStart(s, now);
            exists n :: Served(s, r, n)
  {
    hide Anchor, Blocked, Moot, View.WellKeyed, State.Quiet, TryStart, Served;
    StartOutcome(s, now);
    var q := Pending(s, s.requests);
    var i := |s.requests| - |q|;
    if !s.Quiet() {
      assert s.requests == s.requests[0..];
      ServedTo(s, TryStart(s, now), 0);
    } else if q == [] || Blocked(s, q[0]) {
      ServedTo(s, TryStart(s, now), i);
    } else {
      assert q[1..] == s.requests[i + 1..] && q[0] == s.requests[i];
      ServedTo(s, TryStart(s, now), i + 1);
    }
  }

  /** So many are taken from the front, and what is started is the last of them. */
  ghost predicate Served(s: State, r: Outcome, n: nat) {
    && n <= |s.requests| && r.0.requests == s.requests[n..]
    && (r.0.awaited != s.awaited ==>
          n > 0 && |r.0.awaited| == 1 && r.0.awaited[0].key == s.requests[n - 1].key && r.0.awaited[0].display == s.requests[n - 1].display)
  }

  lemma ServedTo(s: State, r: Outcome, n: nat)
    requires n <= |s.requests| && r.0.requests == s.requests[n..]
    requires r.0.awaited == s.awaited || (n > 0 && |r.0.awaited| == 1 && r.0.awaited[0].key == s.requests[n - 1].key && r.0.awaited[0].display == s.requests[n - 1].display)
    ensures Served(s, r, n)
  {
  }

  lemma {:induction false} RequestGoesLast(s: State, d: DisplayId, name: string, now: Instant)
    requires s.view.WellKeyed()
    ensures ServedInOrder(s.requests, RequestCreation(s, d, name, now).0.requests)
  {
    hide EnsureDynamic, Anchor, TryStart, State.Expecting, View.WellKeyed, State.Quiet, ServedInOrder;
    var k := Key(d, name);
    var s1 := EnsureDynamic(s, k);
    var s2 := if s1.Expecting(k) then s1 else s1.(requests := s1.requests + [Request(k, d)]);
    StartServesFront(s2, now);
    var r := RequestCreation(s, d, name, now).0;
    if Anchor(s1.view, d).None? {
      InOrder(s.requests, [], 0, r.requests);
    } else {
      var n :| Served(s2, TryStart(s2, now), n);
      InOrder(s.requests, if s1.Expecting(k) then [] else [Request(k, d)], n, r.requests);
    }
  }

  lemma InOrder(before: seq<Request>, more: seq<Request>, n: nat, after: seq<Request>)
    requires n <= |before + more| && after == (before + more)[n..]
    ensures ServedInOrder(before, after)
  {
  }

  // -------------------------------------------------------------------- where it is put

  /** The first of these Spaces in native order. */
  ghost predicate Leftmost(view: View, xs: set<SpaceId>, x: SpaceId) {
    && xs <= view.spaces.Keys && x in xs
    && forall y | y in xs && y != x ::
         view.spaces[x].position < view.spaces[y].position || (view.spaces[x].position == view.spaces[y].position && x < y)
  }

  function FocusedOn(view: View, d: DisplayId): set<SpaceId> {
    set x | x in view.spaces && view.spaces[x].display == d && view.spaces[x].focused
  }

  function AllOn(view: View, d: DisplayId): set<SpaceId> {
    set x | x in view.spaces && view.spaces[x].display == d
  }

  /** A new Space is put beside its display's focused Space, and beside its first when none is focused. */
  lemma {:induction false} AnchoredAtFocus(view: View, d: DisplayId)
    requires view.WellKeyed() && AllOn(view, d) != {}
    ensures Anchor(view, d).Some?
    ensures Leftmost(view, if FocusedOn(view, d) != {} then FocusedOn(view, d) else AllOn(view, d), Anchor(view, d).value)
  {
    var focused := set x | x in FocusedOn(view, d) :: view.spaces[x];
    var all := set x | x in AllOn(view, d) :: view.spaces[x];
    assert focused == set x | x in view.spaces && view.spaces[x].display == d && view.spaces[x].focused :: view.spaces[x];
    assert all == set x | x in view.spaces && view.spaces[x].display == d :: view.spaces[x];
    var y :| y in AllOn(view, d);
    assert view.spaces[y] in all;
    if FocusedOn(view, d) != {} {
      var z :| z in FocusedOn(view, d);
      assert view.spaces[z] in focused;
      FirstIsLeftmost(view, FocusedOn(view, d), focused);
    } else {
      assert focused == {};
      FirstIsLeftmost(view, AllOn(view, d), all);
    }
  }

  lemma {:induction false} FirstIsLeftmost(view: View, xs: set<SpaceId>, spaces: set<Space>)
    requires view.WellKeyed() && xs <= view.spaces.Keys && spaces == (set x | x in xs :: view.spaces[x]) && spaces != {}
    ensures forall a, b | a in spaces && b in spaces && a.id == b.id :: a == b
    ensures Leftmost(view, xs, FirstSlot(spaces).id)
  {
    var f := FirstSlot(spaces);
    forall y | y in xs && y != f.id
      ensures view.spaces[f.id].position < view.spaces[y].position || (view.spaces[f.id].position == view.spaces[y].position && f.id < y)
    {
      assert view.spaces[y] in spaces && SlotLe(f, view.spaces[y]);
    }
  }
}
