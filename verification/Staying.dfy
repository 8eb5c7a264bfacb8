/** Which workspaces a snapshot pass is sure to keep, and with which Space. */
module Staying {
  import opened Basics
  import opened Geometry
  import opened Observed
  import opened Workspace
  import opened Lifecycle
  import opened Creation

  // -------------------------------------------------------------- configuration

  lemma {:induction false} InstantiateKeeps(reg: Registry, next: nat, t: Template, targets: seq<DisplayId>, k: Key)
    requires k in reg
    ensures var r := Instantiate(reg, next, t, targets).0; k in r && r[k].backing == reg[k].backing && r[k].display == reg[k].display
    decreases |targets|
  {
    if targets != [] {
      var j := Key(targets[0], t.name);
      var (reg', next') :=
        if j in reg then (reg[j := reg[j].(persistent := t.persistent, dynamic := false)], next)
        else (reg[j := Entry(t.name, targets[0], t.persistent, false, next, None, None)], next + 1);
      InstantiateKeeps(reg', next', t, targets[1..], k);
    }
  }

  lemma {:induction false} InstantiateAllKeeps(reg: Registry, next: nat, ts: seq<Template>, view: View, order: seq<DisplayId>, k: Key)
    requires k in reg
    ensures var r := InstantiateAll(reg, next, ts, view, order); k in r && r[k].backing == reg[k].backing && r[k].display == reg[k].display
    decreases |ts|
  {
    hide Instantiate, TargetsOf;
    if ts != [] {
      InstantiateKeeps(reg, next, ts[0], TargetsOf(ts[0], view, order), k);
      var (reg', next') := Instantiate(reg, next, ts[0], TargetsOf(ts[0], view, order));
      InstantiateAllKeeps(reg', next', ts[1..], view, order, k);
    }
  }

  /** A workspace keeps its binding through the sync, and stays if its display is observed. */
  lemma {:induction false} SyncKeeps(s: State, visit: Visit, k: Key)
    requires k in s.reg
    ensures var r := SyncConfig(s, visit);
            && (s.reg[k].display in s.view.displays ==> k in r.reg)
            && (k in r.reg ==> r.reg[k].backing == s.reg[k].backing && r.reg[k].display == s.reg[k].display)
  {
    hide NextOrdinal, InstantiateAll;
    InstantiateAllKeeps(s.reg, NextOrdinal(s.reg), s.templates, s.view, visit.displays, k);
  }

  // ---------------------------------------------------------------- fullscreen

  lemma FullscreenEntry(s: State, previous: map<WindowId, Window>, now: Instant, k: Key)
    ensures var r := FullscreenRegistry(s, previous, now);
            (k in r <==> k in s.reg) && (k in s.reg ==> r[k] == Substituted(s, previous, now, s.reg[k]))
  {
  }

  /** Substitution never takes a workspace's own Space while that is there and ordinary. */
  lemma {:induction false} SubstitutedKeepsOwn(s: State, previous: map<WindowId, Window>, now: Instant, e: Entry)
    requires e.Home().Some? ==> s.view.Ordinary(e.Home().value)
    ensures var r := Substituted(s, previous, now, e); r.Home() == e.Home() && !Vanished(s, r)
  {
    hide CameFrom, OwnedFullscreen;
    if e.backing.Some? && e.backing.value.Normal? {
      var entering := Entering(s, previous, e.backing.value.space, now);
      if entering != {} {
        assert LeastWindow(entering) in entering;
      }
    }
  }

  // ------------------------------------------------------------------ vanished

  lemma ParkOneEntries(s: State, j: Key)
    ensures var r := ParkOne(s, j);
            r.reg.Keys == s.reg.Keys && r.view == s.view && forall k | k in s.reg && !(k == j && Vanished(s, s.reg[k])) :: r.reg[k] == s.reg[k]
  {
    hide ClearStale, Requested;
  }

  /** Parking vanished workspaces leaves alone every one whose Space is still there. */
  lemma {:induction false} ParkKeepsPresent(s: State, ks: seq<Key>, k: Key)
    requires k in s.reg && !Vanished(s, s.reg[k])
    ensures k in ParkVanished(s, ks).reg && ParkVanished(s, ks).reg[k] == s.reg[k]
    decreases |ks|
  {
    hide ParkOne;
    if ks != [] {
      ParkOneEntries(s, ks[0]);
      ParkKeepsPresent(ParkOne(s, ks[0]), ks[1..], k);
    }
  }

  lemma {:induction false} ParkAddsNone(s: State, ks: seq<Key>)
    ensures ParkVanished(s, ks).reg.Keys == s.reg.Keys
    decreases |ks|
  {
    hide ParkOne;
    if ks != [] {
      ParkOneEntries(s, ks[0]);
      ParkAddsNone(ParkOne(s, ks[0]), ks[1..]);
    }
  }

  lemma ParkOneRequests(s: State, j: Key)
    ensures forall q | q in ParkOne(s, j).requests :: q in s.requests || (q.key == j && j in s.reg && Vanished(s, s.reg[j]))
  {
    hide ClearStale;
  }

  /** Parking queues creations only for workspaces that lost their Space. */
  lemma {:induction false} ParkRequests(s: State, ks: seq<Key>)
    ensures forall q | q in ParkVanished(s, ks).requests :: q in s.requests || (q.key in s.reg && Vanished(s, s.reg[q.key]))
    decreases |ks|
  {
    hide ParkOne;
    if ks != [] {
      ParkOneRequests(s, ks[0]);
      ParkOneEntries(s, ks[0]);
      var s1 := ParkOne(s, ks[0]);
      ParkRequests(s1, ks[1..]);
      forall q | q in ParkVanished(s1, ks[1..]).requests ensures q in s.requests || (q.key in s.reg && Vanished(s, s.reg[q.key])) {
        if q !in s1.requests {
          ParkClears(s, ks[0], q.key);
        }
      }
    }
  }

  lemma ParkClears(s: State, j: Key, k: Key)
    requires k in ParkOne(s, j).reg && Vanished(ParkOne(s, j), ParkOne(s, j).reg[k])
    ensures k in s.reg && Vanished(s, s.reg[k])
  {
    hide Requested;
  }

  /** Dealing with what vanished keeps a workspace whose Space is there and whose destruction is not being confirmed. */
  lemma {:induction false} WithoutVanishedKeeps(s: State, now: Instant, reset: bool, visit: Visit, k: Key)
    requires k in s.reg && !Vanished(s, s.reg[k]) && k !in Confirmed(s)
    ensures var r := WithoutVanished(s, now, reset, visit); k in r.reg && r.reg[k] == s.reg[k]
  {
    hide NoteWindowSpaces, ConfirmDestroys, ParkVanished, RemoveAll;
    var s3 := ConfirmDestroys(NoteWindowSpaces(s, now));
    if !reset {
      assert k in Retire(s3).reg && Retire(s3).reg[k] == s.reg[k];
      ParkKeepsPresent(Retire(s3), visit.keys, k);
    }
  }

  lemma {:induction false} WithoutVanishedRequests(s: State, now: Instant, reset: bool, visit: Visit)
    ensures var r := WithoutVanished(s, now, reset, visit);
            forall q | q in r.requests :: q in s.requests || (q.key in s.reg && q.key in r.reg && Vanished(s, s.reg[q.key]))
  {
    hide NoteWindowSpaces, ConfirmDestroys, Retire, ParkVanished;
    var s3 := ConfirmDestroys(NoteWindowSpaces(s, now));
    if !reset {
      ParkRequests(Retire(s3), visit.keys);
      ParkAddsNone(Retire(s3), visit.keys);
    }
  }

  // ------------------------------------------------------------------- binding

  lemma {:induction false} BindKeeps(s: State, now: Instant, visit: Visit, k: Key)
    requires s.view.WellKeyed() && k in s.reg && (s.reg[k].backing.Some? || forall a | a in s.awaited :: a.key != k)
    ensures var r := BindAwaited(s, now, visit); k in r.reg && r.reg[k] == s.reg[k]
  {
    hide BindAwaited, View.WellKeyed;
    AwaitedBindsOnlyNewSpaces(s, now, visit);
    var r := BindAwaited(s, now, visit);
    assert k in r.reg ==> BoundAfresh(s, s.awaited, r, k);
  }

  // ----------------------------------------------------------------- the pass

  /** The snapshot confirms a destroy made for the workspace. */
  ghost predicate BeingForgotten(s: State, snap: Snapshot, k: Key) {
    exists p :: p in s.pendingDestroy && p !in snap.spaces && s.pendingDestroy[p] == k
  }

  /** A workspace whose display is there, whose Space, if any, is there, and that is not being forgotten. */
  ghost predicate Lasting(s: State, snap: Snapshot, k: Key) {
    && k in s.reg && s.reg[k].display in snap.displays && !BeingForgotten(s, snap, k)
    && (s.reg[k].Home().Some? ==> s.reg[k].Home().value in snap.spaces && snap.spaces[s.reg[k].Home().value].Ordinary())
    && (s.reg[k].backing.None? ==> forall a | a in s.awaited :: a.key != k)
  }

  lemma {:induction false} TakenInKeeps(s: State, snap: Snapshot, now: Instant, visit: Visit, k: Key)
    requires snap.complete && !IsReset(s.view, snap) && Lasting(s, snap, k)
    ensures var r := TakenIn(s, snap, now, visit);
            && k in r.reg && r.reg[k].Home() == s.reg[k].Home() && !Vanished(r, r.reg[k]) && k !in Confirmed(r)
            && r.requests == s.requests && r.awaited == s.awaited
  {
    hide IsReset, SyncConfig, FullscreenRegistry, Substituted, Restored, ReserveOrder;
    var s1 := Observe(s, snap);
    SyncKeeps(s1, visit, k);
    var s2 := SyncConfig(s1, visit);
    FullscreenEntry(s2, s.view.windows, now, k);
    SubstitutedKeepsOwn(s2, s.view.windows, now, s2.reg[k]);
  }

  lemma TakenInKeyed(s: State, snap: Snapshot, now: Instant, visit: Visit)
    requires snap.complete && snap.WellKeyed()
    ensures TakenIn(s, snap, now, visit).view.WellKeyed()
  {
    hide TakenIn;
  }

  /** A lasting workspace is still there, with the Space it owned, once bindings settle. */
  lemma {:induction false} LastingStay(s: State, snap: Snapshot, now: Instant, visit: Visit, k: Key)
    requires snap.complete && snap.WellKeyed() && !IsReset(s.view, snap) && Lasting(s, snap, k)
    ensures var r := Gathered(s, snap, now, visit); k in r.reg && r.reg[k].Home() == s.reg[k].Home()
  {
    hide IsReset, TakenIn, WithoutVanished, BindAwaited, View.WellKeyed, Snapshot.WellKeyed;
    TakenInKeeps(s, snap, now, visit, k);
    TakenInKeyed(s, snap, now, visit);
    var s2 := TakenIn(s, snap, now, visit);
    WithoutVanishedKeeps(s2, now, IsReset(s.view, snap), visit, k);
    BindKeeps(WithoutVanished(s2, now, IsReset(s.view, snap), visit), now, visit, k);
  }
}
