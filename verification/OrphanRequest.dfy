/** Why queued creations must stay registered: exactly when a remap hands one Space out twice. */
module OrphanRequest {
  import opened Basics
  import opened Geometry
  import opened Observed
  import opened Workspace
  import opened Remap
  import opened Lifecycle
  import opened Homes
  import opened RemapAgain

  // ------------------------------------------------- exactly when slots collide

  /** The workspaces that take slots: all but those waiting for a Space. */
  function Taking(s: State): Registry { s.reg - Held(s) }

  lemma {:induction false} SlotPlaces(reg: Registry, spaces: map<SpaceId, Space>, d: DisplayId)
    requires KeyedSpaces(spaces)
    ensures var xs, q := FreeSet(Parked(reg), spaces, d), FreeSlots(reg, spaces, d);
            && (forall i | 0 <= i < |q| :: q[i] in xs && |Below(xs, q[i])| == i)
            && (forall x | x in xs :: |Below(xs, x)| < |q| && q[|Below(xs, x)|] == x)
  {
    var xs, q := FreeSet(Parked(reg), spaces, d), FreeSlots(reg, spaces, d);
    SlotTotal(xs);
    SortedIsOrdered(xs, SlotLe);
    forall i | 0 <= i < |q| ensures q[i] in xs && |Below(xs, q[i])| == i {
      PlaceIsCount(xs, q, i);
    }
    forall x | x in xs ensures |Below(xs, x)| < |q| && q[|Below(xs, x)|] == x {
      CountIsPlace(xs, q, x);
    }
  }

  /** A Space is handed out if and only if its place in line is one that is claimed. */
  lemma {:induction false} HandedOutIff(reg: Registry, spaces: map<SpaceId, Space>, displays: set<DisplayId>, x: SpaceId)
    requires KeyedSpaces(spaces) && x !in Parked(reg)
    ensures (exists j :: j in reg && Remapped(reg, spaces, displays)[j].backing == Some(Normal(x)))
            <==> (x in spaces && spaces[x].Ordinary() && spaces[x].display in displays
                  && |Below(FreeSet(Parked(reg), spaces, spaces[x].display), spaces[x])| < |Claimants(reg, spaces[x].display)|)
  {
    hide Remapped, FreeSlots, Claimants, Below, Parked;
    var after := Remapped(reg, spaces, displays);
    RemappedKeys(reg, spaces, displays);
    if j :| j in reg && after[j].backing == Some(Normal(x)) {
      var i := BindingIsSlot(reg, spaces, displays, j);
      SlotPlaces(reg, spaces, reg[j].display);
      assert FreeSlots(reg, spaces, reg[j].display)[i] == spaces[x];
    }
    if x in spaces && spaces[x].Ordinary() && spaces[x].display in displays
       && |Below(FreeSet(Parked(reg), spaces, spaces[x].display), spaces[x])| < |Claimants(reg, spaces[x].display)| {
      var j := NeededIsGiven(reg, spaces, displays, x);
    }
  }

  lemma {:induction false} NeededIsGiven(reg: Registry, spaces: map<SpaceId, Space>, displays: set<DisplayId>, x: SpaceId) returns (j: Key)
    requires KeyedSpaces(spaces) && x !in Parked(reg) && x in spaces && spaces[x].Ordinary() && spaces[x].display in displays
    requires |Below(FreeSet(Parked(reg), spaces, spaces[x].display), spaces[x])| < |Claimants(reg, spaces[x].display)|
    ensures j in reg && j in Remapped(reg, spaces, displays) && Remapped(reg, spaces, displays)[j].backing == Some(Normal(x))
  {
    hide FreeSlots, Claimants, Below, Parked;
    var d := spaces[x].display;
    SlotPlaces(reg, spaces, d);
    var i := |Below(FreeSet(Parked(reg), spaces, d), spaces[x])|;
    ClaimantsList(reg, d);
    j := Claimants(reg, d)[i];
    assert j in Claimants(reg, d);
    IndexOfAt(Claimants(reg, d), i);
    assert spaces[x] in FreeSet(Parked(reg), spaces, d);
  }

  lemma {:induction false} TakersStayApart(reg: Registry, spaces: map<SpaceId, Space>, displays: set<DisplayId>)
    requires KeyedSpaces(spaces) && Distinct(reg)
    ensures Distinct(Remapped(reg, spaces, displays))
  {
    hide Remapped, Parked, Distinct;
    var after := Remapped(reg, spaces, displays);
    RemapIsSound(reg, spaces, displays);
    FullscreenStay(reg, spaces, displays);
    RemappedKeys(reg, spaces, displays);
    KeptBack(reg);
    forall j, k | j in after && k in after && j != k && after[j].Home().Some? ensures after[j].Home() != after[k].Home() {
      OwnersWere(reg, j, k);
    }
    ApartIsDistinct(after);
  }

  lemma OwnersWere(reg: Registry, j: Key, k: Key)
    requires Distinct(reg) && j in reg && k in reg && j != k
    ensures reg[j].Home().Some? ==> reg[j].Home() != reg[k].Home()
  {
  }

  lemma ApartIsDistinct(reg: Registry)
    requires forall j, k | j in reg && k in reg && j != k && reg[j].Home().Some? :: reg[j].Home() != reg[k].Home()
    ensures Distinct(reg)
  {
  }

  lemma RemappedKeys(reg: Registry, spaces: map<SpaceId, Space>, displays: set<DisplayId>)
    requires KeyedSpaces(spaces)
    ensures Remapped(reg, spaces, displays).Keys == reg.Keys
  {
    hide Rebound;
  }

  lemma {:induction false} TakersHomes(reg: Registry, spaces: map<SpaceId, Space>, displays: set<DisplayId>, k: Key)
    requires KeyedSpaces(spaces) && k in reg && Remapped(reg, spaces, displays)[k].Home().Some?
    ensures var after := Remapped(reg, spaces, displays);
            (after[k] == reg[k] && reg[k].IsFullscreen()) || after[k].backing == Some(Normal(after[k].Home().value))
  {
    FullscreenStay(reg, spaces, displays);
  }

  ghost predicate HandedOut(after: Registry, x: SpaceId) { exists j :: j in after && after[j].backing == Some(Normal(x)) }

  /** Putting the held back among the rest keeps owners apart if nothing of theirs was handed out. */
  lemma {:induction false} HeldStayApart(before: Registry, held: set<Key>, after: Registry, r: Registry)
    requires held <= before.Keys && after.Keys == before.Keys - held && r.Keys == before.Keys
    requires forall k | k in r :: r[k] == if k in held then before[k] else after[k]
    requires Distinct(before) && Distinct(after)
    requires forall j | j in after && after[j].Home().Some? :: after[j] == before[j] || after[j].backing == Some(Normal(after[j].Home().value))
    ensures Distinct(r) <==> forall k | k in held && before[k].Home().Some? :: !HandedOut(after, before[k].Home().value)
  {
    if k :| k in held && before[k].Home().Some? && HandedOut(after, before[k].Home().value) {
      var j :| j in after && after[j].backing == Some(Normal(before[k].Home().value));
      assert r[j].Home() == r[k].Home();
    }
    if forall k | k in held && before[k].Home().Some? :: !HandedOut(after, before[k].Home().value) {
      forall j, k | j in after && k in held && after[j].Home().Some? && before[k].Home().Some? ensures after[j].Home() != before[k].Home() {
        assert !HandedOut(after, before[k].Home().value);
      }
    }
  }

  /** A waiting workspace that has a Space all the same does not sit on a slot its display's others need. */
  ghost predicate Clear(s: State, k: Key)
    requires k in s.reg && s.reg[k].Home().Some?
  {
    s.reg[k].Home().value in SlotSpaces(s) ==>
      var x := SlotSpaces(s)[s.reg[k].Home().value];
      x.Ordinary() && x.display in s.view.displays ==>
        |Below(FreeSet(Parked(Taking(s)), SlotSpaces(s), x.display), x)| >= |Claimants(Taking(s), x.display)|
  }

  ghost predicate OutOfTheWay(s: State) {
    forall k | k in Held(s) && s.reg[k].Home().Some? :: Clear(s, k)
  }

  lemma {:induction false} ClearIff(s: State, k: Key)
    requires s.view.WellKeyed() && Distinct(s.reg) && k in Held(s) && s.reg[k].Home().Some?
    ensures !HandedOut(Remapped(Taking(s), SlotSpaces(s), s.view.displays.Keys), s.reg[k].Home().value) <==> Clear(s, k)
  {
    var x := s.reg[k].Home().value;
    assert x !in Parked(Taking(s));
    assert Remapped(Taking(s), SlotSpaces(s), s.view.displays.Keys).Keys == Taking(s).Keys;
    HandedOutIff(Taking(s), SlotSpaces(s), s.view.displays.Keys, x);
    hide Remapped, Held, SlotSpaces, FreeSet, Claimants, Parked;
  }

  /**
   * A remap leaves owners apart if and only if no waiting workspace sits on a slot the others need.
   * Waiting workspaces have no Space at all, unless one was registered anew while its creation was
   * still queued.
   */
  lemma {:induction false} RemapDistinctIff(s: State, visit: Visit)
    requires s.view.WellKeyed() && s.placement == None && Distinct(s.reg)
    ensures Distinct(RemapSlots(s, visit).0.reg) <==> OutOfTheWay(s)
  {
    var free, spaces, displays := Taking(s), SlotSpaces(s), s.view.displays.Keys;
    RemapPieces(s, visit);
    TakersStayApart(free, spaces, displays);
    var r, after := RemapSlots(s, visit).0.reg, Remapped(free, spaces, displays);
    forall k | k in Held(s) && s.reg[k].Home().Some? ensures !HandedOut(after, s.reg[k].Home().value) <==> Clear(s, k) {
      ClearIff(s, k);
    }
    forall j | j in after && after[j].Home().Some?
      ensures after[j] == s.reg[j] || after[j].backing == Some(Normal(after[j].Home().value))
    {
      TakersHomes(free, spaces, displays, j);
    }
    assert forall k | k in s.reg :: k in Held(s) <==> s.Expecting(k);
    hide RemapSlots, Remapped, Clear, HandedOut, Distinct, SlotSpaces, State.Expecting;
    HeldStayApart(s.reg, Held(s), after, r);
  }

  // --------------------------------------------------------------- a whole pass

  lemma {:induction false} AdoptStaysDistinct(s: State, x: SpaceId)
    requires Distinct(s.reg) && x in s.view.spaces && !s.Known(x)
    ensures var r := AdoptOne(s, x);
            Distinct(r.reg) && r.view == s.view && forall y: SpaceId | r.Known(y) && y != x :: s.Known(y)
  {
    hide NextOrdinal, NextName, EnsureDynamic;
    var k := NextName(s.reg, s.view.spaces[x].display);
    if k.Some? {
      NewOwnerApart(s, k.value, x, EnsureDynamic(s, k.value), AdoptOne(s, x));
    }
  }

  lemma {:induction false} NewOwnerApart(s: State, k: Key, x: SpaceId, mid: State, r: State)
    requires Distinct(s.reg) && !s.Known(x) && k !in s.reg && k in mid.reg && mid.reg - {k} == s.reg
    requires r.reg == mid.reg[k := mid.reg[k].(backing := Some(Normal(x)))]
    ensures Distinct(r.reg) && forall y: SpaceId | r.Known(y) && y != x :: s.Known(y)
  {
    forall j | j in r.reg && j != k ensures j in s.reg && r.reg[j] == s.reg[j] && r.reg[j].Home() != Some(x) {
      assert j in mid.reg - {k};
      assert !s.reg[j].Holds(x);
    }
    forall y: SpaceId | r.Known(y) && y != x ensures s.Known(y) {
      var j :| j in r.reg && r.reg[j].Holds(y);
      assert j in s.reg;
    }
  }

  lemma {:induction false} AdoptAllStayDistinct(s: State, xs: seq<SpaceId>)
    requires Distinct(s.reg) && NoDup(xs) && forall x | x in xs :: x in s.view.spaces && !s.Known(x)
    ensures Distinct(AdoptAll(s, xs).reg)
    decreases |xs|
  {
    hide Distinct, AdoptOne, State.Known;
    if xs != [] {
      AdoptStaysDistinct(s, xs[0]);
      assert NoDup(xs[1..]) && xs[0] !in xs[1..];
      AdoptAllStayDistinct(AdoptOne(s, xs[0]), xs[1..]);
    }
  }

  /** Adoption by itself never makes two owners, whatever is queued. */
  lemma {:induction false} SettledDistinct(s: State, snap: Snapshot, now: Instant, visit: Visit)
    requires snap.complete && snap.WellKeyed() && Tame(s) && (s.initialized || s.awaited == []) && StaysGone(s, snap)
    ensures Distinct(Settled(s, snap, now, visit).reg)
  {
    hide Gathered, Tame, StaysGone, AdoptOne, Adoptable, Distinct, View.WellKeyed, Snapshot.WellKeyed, StillExternal, State.Known;
    GatherKeepsTame(s, snap, now, visit);
    var g := Gathered(s, snap, now, visit);
    TameIsDistinct(g);
    var s2 := GraceSurplus(g.(external := StillExternal(g)), now);
    StillUnknown(g, now);
    if g.initialized && g.awaited == [] {
      AdoptAllStayDistinct(s2, Adoptable(s2));
    }
  }

  /** What a remap finds: bindings settled, and the reservation looked at once more. */
  ghost function Resting(s: State, snap: Snapshot, now: Instant, visit: Visit): (r: State)
    requires snap.complete && snap.WellKeyed()
    ensures r.view.WellKeyed()
  {
    ReconcilePlacement(Settled(s, snap, now, visit), now).0
  }

  lemma {:induction false} AdvanceOnlyForgets(s: State, now: Instant, visit: Visit)
    requires s.view.WellKeyed()
    ensures var (before, after) := (Rebind(ReconcilePlacement(s, now).0, visit).0.reg, Advance(s, now, visit).0.reg);
            forall k | k in after :: k in before && after[k] == before[k]
  {
    hide ReconcilePlacement, Rebind, GraceSurplus, DestroyEmpty, FulfillQueues, RequestMissing, TryStart, HealIfIdle, MovedKeys, Ascending;
    hide View.WellKeyed, State.Quiet, Strangers, NoTopology;
  }

  /**
   * Over a whole pass from a sound state: the bindings the pass arrives at give no Space two owners
   * if and only if the order is being held or no waiting workspace sits on a slot the others need,
   * and what follows only forgets workspaces.
   */
  lemma {:induction false} PassDistinctIff(s: State, snap: Snapshot, now: Instant, visit: Visit)
    requires snap.complete && snap.WellKeyed() && Tame(s) && (s.initialized || s.awaited == []) && StaysGone(s, snap)
    ensures var p, final := Resting(s, snap, now, visit), SnapshotStep(s, snap, now, visit).0.reg;
            var bound := Rebind(p, visit).0.reg;
            && (Distinct(bound) <==> p.placement.Some? || OutOfTheWay(p))
            && (forall k | k in final :: k in bound && final[k] == bound[k])
            && (p.placement.Some? || OutOfTheWay(p) ==> Distinct(final))
  {
    SettledDistinct(s, snap, now, visit);
    AdvanceOnlyForgets(Settled(s, snap, now, visit), now, visit);
    RebindIff(Resting(s, snap, now, visit), visit);
    hide Settled, Advance, Tame, StaysGone, OutOfTheWay, Rebind, ReconcilePlacement, View.WellKeyed, Snapshot.WellKeyed;
  }

  lemma {:induction false} RebindIff(p: State, visit: Visit)
    requires p.view.WellKeyed() && Distinct(p.reg)
    ensures Distinct(Rebind(p, visit).0.reg) <==> p.placement.Some? || OutOfTheWay(p)
  {
    if p.placement.None? {
      RemapDistinctIff(p, visit);
    }
    hide OutOfTheWay, MoveTrees, Reattach, Remapped, RemapMoves, Held, SlotSpaces, Distinct;
  }
}
