/** Creating a Space: what a reservation may bind to, and that it never holds the slot for good. */
module Creation {
  import opened Basics
  import opened Geometry
  import opened Observed
  import opened Workspace
  import opened Lifecycle
  import opened Runs

  // ---------------------------------------------------------------- starting

  /** A creation is started for a registered workspace without a Space, next to a Space of its display. */
  lemma {:induction false} StartReservesNow(s: State, now: Instant)
    requires s.view.WellKeyed() && TryStart(s, now).1 != []
    ensures var (r, actions) := TryStart(s, now);
            && |r.awaited| == 1 && actions == [CreateSpace(actions[0].anchor)]
            && var a := r.awaited[0];
               && a.before == s.view.spaces.Keys && a.observation == Awaiting(now + CREATION_DEADLINE)
               && a.key in s.reg && s.reg[a.key].backing == None
               && actions[0].anchor in s.view.spaces && s.view.spaces[actions[0].anchor].display == a.display
               && Request(a.key, a.display) in s.requests && |r.requests| < |s.requests|
  {
    hide Anchor, View.WellKeyed;
    var q := Pending(s, s.requests);
    assert q[0] == s.requests[|s.requests| - |q|];
  }

  /** A request has to wait when its display shows no Space, or the platform cannot create for a persistent workspace. */
  lemma BlockedMeans(s: State, r: Request)
    requires s.view.WellKeyed()
    ensures Blocked(s, r) <==>
              (!s.caps.createSpace && r.key in s.reg && s.reg[r.key].persistent)
              || forall x | x in s.view.spaces :: s.view.spaces[x].display != r.display
  {
    hide View.WellKeyed;
  }

  /** The i-th request is the first that is neither moot nor made to wait, and none before it has to wait. */
  ghost predicate Startable(s: State, q: seq<Request>, i: nat)
    requires s.view.WellKeyed()
  {
    i < |q| && !Moot(s, q[i]) && (forall j | 0 <= j <= i :: !Blocked(s, q[j])) && forall j | 0 <= j < i :: Moot(s, q[j])
  }

  /** Past a moot request nothing changes but the count. */
  lemma {:induction false} StartableLater(s: State, q: seq<Request>, i: nat)
    requires s.view.WellKeyed() && q != [] && Moot(s, q[0]) && !Blocked(s, q[0])
    ensures Startable(s, q, i + 1) <==> Startable(s, q[1..], i)
    ensures !Startable(s, q, 0)
  {
    hide Blocked, Moot, View.WellKeyed;
    var rest := q[1..];
    if Startable(s, rest, i) {
      forall j | 0 < j <= i + 1 ensures !Blocked(s, q[j]) && (j <= i ==> Moot(s, q[j])) {
        assert q[j] == rest[j - 1];
      }
    }
    if Startable(s, q, i + 1) {
      forall j | 0 <= j <= i ensures !Blocked(s, rest[j]) && (j < i ==> Moot(s, rest[j])) {
        assert rest[j] == q[j + 1];
      }
    }
  }

  lemma StartableFirst(s: State, q: seq<Request>)
    requires s.view.WellKeyed() && (q == [] || Blocked(s, q[0]) || !Moot(s, q[0]))
    ensures q == [] || Blocked(s, q[0]) ==> !exists i: nat :: Startable(s, q, i)
    ensures q != [] && !Blocked(s, q[0]) ==> Startable(s, q, 0)
  {
    hide Blocked, Moot, View.WellKeyed;
  }

  lemma {:induction false} PendingIsStartable(s: State, q: seq<Request>)
    requires s.view.WellKeyed()
    ensures var p := Pending(s, q); p != [] && !Blocked(s, p[0]) <==> exists i: nat :: Startable(s, q, i)
  {
    hide Blocked, Moot, View.WellKeyed, Startable;
    if q == [] || Blocked(s, q[0]) || !Moot(s, q[0]) {
      StartableFirst(s, q);
    } else {
      PendingIsStartable(s, q[1..]);
      forall i: nat ensures Startable(s, q, i + 1) <==> Startable(s, q[1..], i) {
        StartableLater(s, q, i);
      }
      StartableLater(s, q, 0);
      if i: nat :| Startable(s, q, i) {
        assert Startable(s, q[1..], i - 1);
      }
    }
  }

  /**
   * The queue makes progress exactly when nothing is in flight and its front request does not have
   * to wait, and a creation starts exactly when moreover some request is not moot and neither it nor
   * any before it has to wait. A front request whose display shows no Space holds up every display.
   */
  lemma {:induction false} QueueProgress(s: State, now: Instant)
    requires s.view.WellKeyed()
    ensures var (r, actions) := TryStart(s, now);
            && (actions != [] <==> s.Quiet() && exists i: nat :: Startable(s, s.requests, i))
            && (r.requests != s.requests <==> s.Quiet() && s.requests != [] && !Blocked(s, s.requests[0]))
            && (s.requests != [] && Blocked(s, s.requests[0]) ==> (r, actions) == (s, []))
  {
    hide *;
    PendingIsStartable(s, s.requests);
    PendingShrinks(s, s.requests);
    StartCases(s, now);
    var p := Pending(s, s.requests);
    if s.Quiet() && s.requests != [] && !Blocked(s, s.requests[0]) && p != [] {
      ShorterDiffers(p[1..], s.requests);
    }
  }

  lemma ShorterDiffers(a: seq<Request>, b: seq<Request>)
    requires |a| < |b|
    ensures a != b
  {
  }

  lemma PendingShrinks(s: State, q: seq<Request>)
    requires s.view.WellKeyed()
    ensures |Pending(s, q)| <= |q| && (Pending(s, q) == q <==> q == [] || Blocked(s, q[0]) || !Moot(s, q[0]))
  {
    hide Blocked, Moot, View.WellKeyed;
    if q != [] && !Blocked(s, q[0]) && Moot(s, q[0]) {
      assert |Pending(s, q[1..])| <= |q[1..]|;
    }
  }

  lemma {:induction false} StartCases(s: State, now: Instant)
    requires s.view.WellKeyed()
    ensures var (r, actions), p := TryStart(s, now), Pending(s, s.requests);
            && (!s.Quiet() ==> (r, actions) == (s, []))
            && (s.Quiet() && (p == [] || Blocked(s, p[0])) ==>
                  actions == [] && r.requests == p && (p == s.requests ==> r == s))
            && (s.Quiet() && p != [] && !Blocked(s, p[0]) ==> actions != [] && r.requests == p[1..])
  {
    hide *;
    StartBusy(s, now);
    StartWaits(s, now);
    StartGoes(s, now);
  }

  lemma StartBusy(s: State, now: Instant)
    requires s.view.WellKeyed()
    ensures !s.Quiet() ==> TryStart(s, now) == (s, [])
  {
    hide View.WellKeyed, State.Quiet, Anchor, Pending, Reserved;
  }

  lemma StartWaits(s: State, now: Instant)
    requires s.view.WellKeyed()
    ensures var (r, actions), p := TryStart(s, now), Pending(s, s.requests);
            s.Quiet() && (p == [] || Blocked(s, p[0])) ==> actions == [] && r == s.(requests := p)
  {
    hide View.WellKeyed, State.Quiet, Anchor, Pending, Reserved, Blocked;
  }

  lemma StartGoes(s: State, now: Instant)
    requires s.view.WellKeyed()
    ensures var (r, actions), p := TryStart(s, now), Pending(s, s.requests);
            s.Quiet() && p != [] && !Blocked(s, p[0]) ==> actions != [] && r.requests == p[1..]
  {
    hide View.WellKeyed, State.Quiet, Anchor, Pending, Reserved, Blocked;
  }

  // ----------------------------------------------------------------- binding

  /** The workspace once it shows `x`. */
  function Taking(s: State, k: Key, x: SpaceId): Entry
    requires k in s.reg && x in s.view.spaces
  {
    s.reg[k].(backing := Some(Normal(x)), lastPosition := Some(s.view.spaces[x].position))
  }

  /** Between `s` and `r` the workspace kept its binding, or a reservation gave it a Space it may take. */
  ghost predicate BoundAfresh(s: State, todo: seq<Awaited>, r: State, k: Key)
    requires k in s.reg && k in r.reg
  {
    || r.reg[k] == s.reg[k]
    || (s.reg[k].backing == None && exists a, x :: a in todo && a.key == k && MayTake(s, a, x) && r.reg[k] == Taking(s, k, x))
  }

  /** Binding changes nothing but bindings, and forgets only volatile workspaces without a Space. */
  ghost predicate BindsOnly(s: State, todo: seq<Awaited>, r: State) {
    && r.view == s.view
    && (forall k | k in r.reg :: k in s.reg && BoundAfresh(s, todo, r, k))
    && (forall k | k in s.reg && k !in r.reg :: s.reg[k].backing == None && s.reg[k].dynamic && exists a :: a in todo && a.key == k)
  }

  lemma {:induction false} BindOneIsFresh(s: State, a: Awaited, now: Instant, visit: Visit)
    requires s.view.WellKeyed()
    ensures BindsOnly(s, [a], BindOne(s, a, now, visit))
  {
    hide BindTo, Released, Candidates, FirstSlot, View.WellKeyed, State.Claimed;
    var b := Aged(a, now);
    assert a in [a];
    CandidatesKeyed(s, b);
    if Expired(b, now) {
      ReleasedOnly(s, a.key);
    } else if Candidates(s, b) != {} {
      var x := FirstSlot(Candidates(s, b));
      assert MayTake(s, a, x.id) && (a.key in s.reg ==> s.reg[a.key].(backing := Some(Normal(x.id)), lastPosition := Some(x.position)) == Taking(s, a.key, x.id));
    }
  }

  lemma {:induction false} ReleasedOnly(s: State, k: Key)
    ensures var r := Released(s, k); r.reg == s.reg || (r.reg == s.reg - {k} && k in s.reg && s.reg[k].backing == None && s.reg[k].dynamic)
  {
    hide RemoveAll;
  }

  lemma {:induction false} BindsOnlyTwice(s: State, a: Awaited, mid: State, todo: seq<Awaited>, r: State)
    requires BindsOnly(s, [a], mid) && BindsOnly(mid, todo, r)
    ensures BindsOnly(s, [a] + todo, r)
  {
    forall x: SpaceId | s.Claimed(x) ensures mid.Claimed(x) {
      var k :| k in s.reg && s.reg[k].ActiveSpace() == Some(x);
      assert k in mid.reg && BoundAfresh(s, [a], mid, k);
    }
    assert forall b | b in [a] + todo :: b in [a] || b in todo;
    assert a in [a] + todo;
    forall k | k in r.reg ensures k in s.reg && BoundAfresh(s, [a] + todo, r, k) {
      assert BoundAfresh(mid, todo, r, k) && BoundAfresh(s, [a], mid, k);
      if r.reg[k] != mid.reg[k] {
        var b, x :| b in todo && b.key == k && MayTake(mid, b, x) && r.reg[k] == Taking(mid, k, x);
        assert b in [a] + todo && MayTake(s, b, x) && r.reg[k] == Taking(s, k, x);
      } else if mid.reg[k] != s.reg[k] {
        var b, x :| b in [a] && b.key == k && MayTake(s, b, x) && mid.reg[k] == Taking(s, k, x);
        assert b in [a] + todo;
      }
    }
    forall k | k in s.reg && k !in r.reg
      ensures s.reg[k].backing == None && s.reg[k].dynamic && exists b :: b in [a] + todo && b.key == k
    {
      if k in mid.reg {
        assert BoundAfresh(s, [a], mid, k);
        var b :| b in todo && b.key == k;
        assert b in [a] + todo;
      }
    }
  }

  lemma {:induction false} BindAllIsFresh(s: State, todo: seq<Awaited>, now: Instant, visit: Visit)
    requires s.view.WellKeyed()
    ensures BindsOnly(s, todo, BindAll(s, todo, now, visit))
    decreases |todo|
  {
    hide BindOne, BindsOnly, View.WellKeyed;
    if todo == [] {
      BindsNothing(s);
    } else {
      var mid := BindOne(s, todo[0], now, visit);
      BindOneIsFresh(s, todo[0], now, visit);
      BindAllIsFresh(mid, todo[1..], now, visit);
      BindsOnlyTwice(s, todo[0], mid, todo[1..], BindAll(mid, todo[1..], now, visit));
      assert [todo[0]] + todo[1..] == todo;
    }
  }

  lemma BindsNothing(s: State)
    ensures BindsOnly(s, [], s)
  {
  }

  /**
   * An awaited creation binds only to an ordinary Space on its own display that nobody shows and
   * that was not there when it was asked for; a workspace that had a Space keeps it; and the only
   * workspaces forgotten are volatile ones whose Space never came.
   */
  lemma {:induction false} AwaitedBindsOnlyNewSpaces(s: State, now: Instant, visit: Visit)
    requires s.view.WellKeyed()
    ensures BindsOnly(s, s.awaited, BindAwaited(s, now, visit))
  {
    hide BindsOnly, BindAll, View.WellKeyed;
    var start := s.(awaited := []);
    BindAllIsFresh(start, s.awaited, now, visit);
    BindsOnlyFrom(s, start, s.awaited, BindAwaited(s, now, visit));
  }

  lemma {:induction false} BindsOnlyFrom(s: State, start: State, todo: seq<Awaited>, r: State)
    requires start == s.(awaited := start.awaited) && BindsOnly(start, todo, r)
    ensures BindsOnly(s, todo, r)
  {
    forall a, x ensures MayTake(start, a, x) == MayTake(s, a, x) {
      assert start.Claimed(x) == s.Claimed(x);
    }
    forall k | k in r.reg ensures k in s.reg && BoundAfresh(s, todo, r, k) {
      assert BoundAfresh(start, todo, r, k);
      if r.reg[k] != s.reg[k] {
        var a, x :| a in todo && a.key == k && MayTake(start, a, x) && r.reg[k] == Taking(start, k, x);
        assert MayTake(s, a, x) && r.reg[k] == Taking(s, k, x);
      }
    }
  }

  // ------------------------------------------------------------------ no wedge

  /** A snapshot ages the one reservation, or ends it; an expired one it always ends. */
  lemma {:induction false} SnapshotAgesReservation(s: State, a: Awaited, snap: Snapshot, now: Instant, visit: Visit)
    requires snap.complete && snap.WellKeyed() && s.awaited == [a]
    ensures var r := Settled(s, snap, now, visit);
            r.awaited == [] || (r.awaited == [Aged(a, now)] && !Expired(Aged(a, now), now))
  {
    hide IsReset, SyncConfig, ReconcileFullscreen, WithoutVanished, ObserveExternal, Requeue;
    assert Observe(s, snap).view.WellKeyed() && Observe(VoidReservations(s), snap).view == Observe(s, snap).view;
    hide View.WellKeyed, Snapshot.WellKeyed, BindOne;
    var reset := IsReset(s.view, snap);
    var s1 := Observe(if reset then VoidReservations(s) else s, snap);
    var s2 := ReconcileFullscreen(SyncConfig(s1, visit), s.view.windows, now, visit);
    var s4 := WithoutVanished(s2, now, reset, visit);
    assert s4.awaited == if reset then [] else [a];
    OneReservation(s4, now, visit);
  }

  lemma {:induction false} OneReservation(s: State, now: Instant, visit: Visit)
    requires s.view.WellKeyed() && |s.awaited| <= 1
    ensures var r := BindAwaited(s, now, visit);
            r.awaited == [] || (|s.awaited| == 1 && r.awaited == [Aged(s.awaited[0], now)] && !Expired(Aged(s.awaited[0], now), now))
  {
    hide BindOne, View.WellKeyed;
    if s.awaited != [] {
      var start := s.(awaited := []);
      assert s.awaited[1..] == [];
      assert BindAll(start, s.awaited, now, visit) == BindOne(start, s.awaited[0], now, visit);
    }
  }

  /** At this turn the slot was found free: what was in flight has been seen through or given up. */
  ghost predicate Freed(s: State, t: Turn)
    requires t.Valid()
  {
    InFlight(Base(s, t.event, t.now)) == 0
  }

  /** The only thing in flight is one awaited creation. */
  predicate Awaits(s: State, a: Awaited) { s.awaited == [a] && InFlight(s) == 1 }

  /** A turn that does not free the slot only ages the reservation, and only within its bounds. */
  lemma {:induction false} TurnHoldsReservation(s: State, t: Turn, a: Awaited)
    requires s.view.WellKeyed() && t.Valid() && Awaits(s, a) && !Freed(s, t)
    ensures CompleteLook(t) ==> Awaits(After(s, t), Aged(a, t.now)) && !Expired(Aged(a, t.now), t.now)
    ensures !CompleteLook(t) ==> Awaits(After(s, t), a)
  {
    hide Respond, Batch, After, Settled, SpaceDestroyed;
    RespondAccounts(s, t.event, t.now);
    BatchTopology(s, t);
    TopologyMembers(Batch(s, t));
    forall x | x in Batch(s, t) ensures !IsMutation(x) {
      if IsMutation(x) {
        var m :| 0 <= m < |Batch(s, t)| && Batch(s, t)[m] == x;
        TopologyOnce(Batch(s, t), m);
        assert false;
      }
    }
    RefusalKeepsOthers(s, t);
    var tops := Topology(Batch(s, t));
    assert tops != [] ==> tops[0] in Batch(s, t);
    if CompleteLook(t) {
      SettlingFreesFlight(s, t.event.snap, t.now, t.event.visit);
      SnapshotAgesReservation(s, a, t.event.snap, t.now, t.event.visit);
    }
  }

  ghost predicate FreedBy(s: State, turns: seq<Turn>, n: nat)
    requires s.view.WellKeyed() && ValidTurns(turns) && n <= |turns|
  {
    exists m :: 0 <= m < n && Freed(AfterAll(s, turns[..m]), turns[m])
  }

  /** The reservation's clock: its deadline is past by `t`, or it turned uncertain by `t`. */
  predicate DueBy(a: Awaited, t: Instant) {
    match a.observation
    case Awaiting(deadline) => deadline <= t
    case Uncertain(since) => since <= t
  }

  ghost predicate Monotone(turns: seq<Turn>) {
    forall i, j | 0 <= i < j < |turns| :: turns[i].now <= turns[j].now
  }

  /** Unless freed, up to turn `n` the reservation stays due by the time of look `i`, and from `i` on it is uncertain. */
  lemma {:induction false} HeldReservation(s: State, a: Awaited, turns: seq<Turn>, i: nat, n: nat) returns (b: Awaited)
    requires s.view.WellKeyed() && ValidTurns(turns) && Monotone(turns) && Awaits(s, a)
    requires i < |turns| && n <= |turns| && CompleteLook(turns[i]) && DueBy(a, turns[i].now)
    requires !FreedBy(s, turns, n)
    ensures Awaits(AfterAll(s, turns[..n]), b) && DueBy(b, turns[i].now)
    ensures i < n ==> b.observation.Uncertain?
    decreases n
  {
    hide *;
    ValidIndex(turns);
    if n == 0 {
      AfterNone(s, turns);
      b := a;
    } else {
      var before, t := AfterAll(s, turns[..n - 1]), turns[n - 1];
      FreedLater(s, turns, n - 1);
      var c := HeldReservation(s, a, turns, i, n - 1);
      AfterOneMore(s, turns, n - 1);
      b := HeldStep(before, t, c, turns[i].now);
    }
  }

  lemma {:induction false} HeldStep(s: State, t: Turn, a: Awaited, due: Instant) returns (b: Awaited)
    requires s.view.WellKeyed() && t.Valid() && Awaits(s, a) && !Freed(s, t)
    requires DueBy(a, due) && (t.now <= due || a.observation.Uncertain?)
    ensures Awaits(After(s, t), b) && DueBy(b, due)
    ensures a.observation.Uncertain? || (CompleteLook(t) && t.now == due) ==> b.observation.Uncertain?
  {
    hide *;
    TurnHoldsReservation(s, t, a);
    AgedIsDue(a, t.now, due);
    b := if CompleteLook(t) then Aged(a, t.now) else a;
  }

  lemma {:induction false} ValidIndex(turns: seq<Turn>)
    requires ValidTurns(turns) && Monotone(turns)
    ensures forall i | 0 <= i < |turns| :: turns[i].Valid() && ValidTurns(turns[..i])
    ensures forall i, j | 0 <= i <= j < |turns| :: turns[i].now <= turns[j].now
  {
    hide Turn.Valid;
    forall i | 0 <= i < |turns| ensures turns[i].Valid() && ValidTurns(turns[..i]) {
      assert forall t | t in turns[..i] :: t in turns;
    }
  }

  lemma {:induction false} FreedLater(s: State, turns: seq<Turn>, n: nat)
    requires s.view.WellKeyed() && ValidTurns(turns) && n < |turns|
    ensures FreedBy(s, turns, n) ==> FreedBy(s, turns, n + 1)
    ensures turns[n].Valid() && ValidTurns(turns[..n])
    ensures Freed(AfterAll(s, turns[..n]), turns[n]) ==> FreedBy(s, turns, n + 1)
  {
    hide AfterAll, Freed, Turn.Valid;
    assert forall t | t in turns[..n] :: t in turns;
    assert turns[n] in turns;
  }

  lemma AfterNone(s: State, turns: seq<Turn>)
    requires s.view.WellKeyed() && ValidTurns(turns)
    ensures AfterAll(s, turns[..0]) == s
  {
  }

  lemma AgedIsDue(a: Awaited, now: Instant, t: Instant)
    requires DueBy(a, t)
    ensures now <= t || a.observation.Uncertain? ==> DueBy(Aged(a, now), t)
    ensures now >= t || a.observation.Uncertain? ==> Aged(a, now).observation.Uncertain?
  {
  }

  /**
   * Creation cannot wedge: however late the platform is, whatever it refuses and whatever else
   * happens, once a snapshot has seen the deadline pass, the slot is found free no later than the
   * first snapshot a grace period after it.
   */
  lemma {:induction false} CreationCannotWedge(s: State, a: Awaited, turns: seq<Turn>, i: nat, j: nat)
    requires s.view.WellKeyed() && ValidTurns(turns) && Monotone(turns) && Awaits(s, a)
    requires i < j < |turns| && CompleteLook(turns[i]) && CompleteLook(turns[j])
    requires DueBy(a, turns[i].now) && turns[j].now >= turns[i].now + CREATION_UNCERTAIN_GRACE
    ensures FreedBy(s, turns, j + 1)
  {
    hide *;
    ValidIndex(turns);
    FreedLater(s, turns, j);
    if !FreedBy(s, turns, j) {
      var b := HeldReservation(s, a, turns, i, j);
      UncertainEnds(b, turns[i].now, turns[j].now);
      if !Freed(AfterAll(s, turns[..j]), turns[j]) {
        TurnHoldsReservation(AfterAll(s, turns[..j]), turns[j], b);
        assert false;
      }
    }
  }

  lemma UncertainEnds(a: Awaited, due: Instant, now: Instant)
    requires a.observation.Uncertain? && DueBy(a, due) && now >= due + CREATION_UNCERTAIN_GRACE
    ensures Expired(Aged(a, now), now)
  {
  }
}
