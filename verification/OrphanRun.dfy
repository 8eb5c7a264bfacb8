/**
 * A run in which two workspaces come to own one Space: a creation is queued, its display is
 * unplugged, which forgets the workspace but not the request, and plugged back in.
 */
module OrphanRun {
  import opened Basics
  import opened Geometry
  import opened Observed
  import opened Workspace
  import opened Remap
  import opened Lifecycle
  import opened Runs
  import opened Homes
  import opened TreeOwnership
  import opened TreeSurvival
  import opened Persistence
  import opened TreeLosses
  import opened PlainRuns

  const SECOND: Key := Key(2, "2")
  const THIRD: Key := Key(2, "3")

  const DESK: Space := Space(10, 1, 0, None, false, false, false)
  const SIDE: Space := Space(20, 2, 0, None, true, false, false)
  const SIDE_AGAIN: Space := Space(30, 2, 0, None, true, false, false)

  function Screen(d: DisplayId): Display { Display(d, Rect(0.0, 0.0, 0.0, 0.0), false, d == 1) }

  function Both(): Snapshot { Snapshot(map[], map[10 := DESK, 20 := SIDE], map[1 := Screen(1), 2 := Screen(2)], true) }

  function Unplugged(): Snapshot { Snapshot(map[], map[10 := DESK], map[1 := Screen(1)], true) }

  function BothAgain(): Snapshot { Snapshot(map[], map[10 := DESK, 30 := SIDE_AGAIN], map[1 := Screen(1), 2 := Screen(2)], true) }

  /** Workspace 2 is configured for display 2; workspace 3 of display 2, persistent, comes from the saved file. */
  function Saved(): Persisted { Persisted(map[], map[], map[THIRD := Entry("3", 2, true, false, 0, None, None)]) }

  const CONFIGURED: Template := Template("2", OneDisplay(2), false)

  function Start(): State { LoadState(Saved(), Capabilities(false, false, false), [CONFIGURED]) }

  lemma SecondNotThird()
    ensures SECOND != THIRD && SECOND.name == "2" && THIRD.name == "3"
  {
    assert SECOND.name[0] != THIRD.name[0];
  }

  lemma StartIsPlain()
    ensures Plain(Start()) && Start().view.WellKeyed() && Tame(Start()) && NoneBacked(Saved().workspaces)
  {
  }

  // --------------------------------------------------------- what each look brings

  /** Both workspaces of display 2 as they are registered there. */
  ghost predicate TwoHere(e: Entry) { e.name == "2" && e.display == 2 && !e.persistent }

  ghost predicate ThreeHere(e: Entry) { e.name == "3" && e.display == 2 }

  /** With its display there, the configured workspace is registered. */
  lemma {:induction false} ConfiguredAdds(reg: Registry, next: nat, view: View, order: seq<DisplayId>)
    requires SECOND !in reg && 2 in view.displays
    ensures InstantiateAll(reg, next, [CONFIGURED], view, order) == reg[SECOND := Entry("2", 2, false, false, next, None, None)]
  {
    var k := Key(2, CONFIGURED.name);
    assert k == SECOND;
    assert TargetsOf(CONFIGURED, view, order) == [2];
    var added := reg[SECOND := Entry("2", 2, false, false, next, None, None)];
    assert Instantiate(added, next + 1, CONFIGURED, []) == (added, next + 1);
    assert [2][1..] == [];
    assert Instantiate(reg, next, CONFIGURED, [2]) == (added, next + 1);
    assert [CONFIGURED][1..] == [];
    assert InstantiateAll(added, next + 1, [], view, order) == added;
  }

  lemma {:induction false} ConfiguredWaits(reg: Registry, next: nat, view: View, order: seq<DisplayId>)
    requires 2 !in view.displays
    ensures InstantiateAll(reg, next, [CONFIGURED], view, order) == reg
  {
    assert TargetsOf(CONFIGURED, view, order) == [];
    assert [CONFIGURED][1..] == [];
  }

  // ------------------------------------------------------------- the first look

  lemma {:induction false} FirstTaken(visit: Visit)
    ensures var t := TakenIn(Start(), Both(), 0, visit);
            && Plain(t) && t.reg.Keys == {SECOND, THIRD} && TwoHere(t.reg[SECOND]) && t.reg[SECOND].backing == None
            && t.reg[THIRD] == Entry("3", 2, true, false, 0, None, None) && t.requests == [] && !t.initialized && t.external == map[]
            && t.synced == Some({1, 2}) && t.templates == [CONFIGURED]
  {
    hide SyncConfig, TakenIn, IsReset, NextOrdinal, InstantiateAll, NoneEntering, Plain, OnDisplays;
    StartIsPlain();
    SecondNotThird();
    var s1 := Observe(Start(), Both());
    NotReset();
    assert s1.view.displays.Keys == {1, 2};
    PlainSame(Start(), s1);
    SyncStaysPlain(s1, visit);
    ConfiguredAdds(s1.reg, NextOrdinal(s1.reg), s1.view, visit.displays);
    AllThere(s1.reg, NextOrdinal(s1.reg));
    var q := SyncConfig(s1, visit);
    NoWindowEnters(q, Start().view.windows, 0);
    PlainTakesIn(Start(), Both(), 0, visit);
  }

  lemma NotReset()
    ensures !IsReset(Start().view, Both())
  {
  }

  lemma AllThere(reg: Registry, next: nat)
    requires reg == map[THIRD := Entry("3", 2, true, false, 0, None, None)]
    ensures var all := reg[SECOND := Entry("2", 2, false, false, next, None, None)]; OnDisplays(all, {1, 2}) == all
  {
  }

  lemma {:induction false} FirstSettled(visit: Visit)
    ensures Both().WellKeyed() && Both().complete
    ensures var t, o := TakenIn(Start(), Both(), 0, visit), Settled(Start(), Both(), 0, visit);
            && Plain(o) && o.reg == t.reg && o.requests == [] && o.initialized && o.external == map[]
            && o.view == t.view && o.synced == t.synced && o.templates == t.templates
  {
    hide TakenIn, Gathered, IsReset, Plain, View.WellKeyed, State.Known, NoneVanished;
    FirstTaken(visit);
    NotReset();
    NobodyBacked(TakenIn(Start(), Both(), 0, visit));
    PlainGathers(Start(), Both(), 0, visit);
    var g := Gathered(Start(), Both(), 0, visit);
    StillPlain(TakenIn(Start(), Both(), 0, visit), g);
    assert StillExternal(g) == map[];
    PlainExternal(g, Settled(Start(), Both(), 0, visit));
  }

  /** One ordinary Space there is for display 2, whatever has been set aside elsewhere. */
  lemma {:induction false} OneSlot(reg: Registry, spaces: map<SpaceId, Space>, x: Space)
    requires KeyedSpaces(spaces) && Parked(reg) == {} && x.id in spaces && spaces[x.id] == x && x.Ordinary() && x.display == 2
    requires forall y | y in spaces && spaces[y].display == 2 :: y == x.id
    ensures FreeSlots(reg, spaces, 2) == [x]
  {
    SlotsList(reg, spaces, 2);
    var q := FreeSlots(reg, spaces, 2);
    assert x in q;
    forall i | 0 <= i < |q| ensures q[i] == x {
      assert q[i] in q;
    }
    assert Elements(q) == {x};
    NoDupSize(q);
  }

  /** Workspace 2 takes the only Space of display 2, workspace 3 goes without. */
  lemma {:induction false} FirstBound(s: State, visit: Visit)
    requires s.view.WellKeyed() && s.placement == None && s.awaited == [] && s.requests == [] && s.external == map[]
    requires s.view.spaces == Both().spaces && s.view.displays.Keys == {1, 2}
    requires s.reg.Keys == {SECOND, THIRD} && TwoHere(s.reg[SECOND]) && ThreeHere(s.reg[THIRD])
    requires s.reg[SECOND].backing == None && s.reg[THIRD].backing == None
    ensures var r := RemapSlots(s, visit).0;
            && r.reg.Keys == {SECOND, THIRD} && r.reg[SECOND] == s.reg[SECOND].(backing := Some(Normal(20)), lastPosition := Some(0))
            && r.reg[THIRD] == s.reg[THIRD].(backing := None, lastPosition := None)
  {
    hide RemapSlots, Remapped, Claimants, FreeSlots, ParseU32, Held, SlotSpaces, View.WellKeyed;
    NobodyWaits(s);
    RemapPieces(s, visit);
    FirstRemapped(s.reg, Both().spaces);
  }

  lemma {:induction false} FirstRemapped(reg: Registry, spaces: map<SpaceId, Space>)
    requires spaces == Both().spaces && KeyedSpaces(spaces)
    requires reg.Keys == {SECOND, THIRD} && TwoHere(reg[SECOND]) && ThreeHere(reg[THIRD])
    requires reg[SECOND].backing == None && reg[THIRD].backing == None
    ensures var after := Remapped(reg, spaces, {1, 2});
            && SECOND in after && after[SECOND] == reg[SECOND].(backing := Some(Normal(20)), lastPosition := Some(0))
            && THIRD in after && after[THIRD] == reg[THIRD].(backing := None, lastPosition := None)
  {
    hide Claimants, FreeSlots, ParseU32;
    SecondNotThird();
    Digits();
    LowerFirst(reg, 2, SECOND, THIRD, 2, 3);
    assert Parked(reg) == {};
    OneSlot(reg, spaces, SIDE);
    assert IndexOfKey([SECOND, THIRD], SECOND) == 0;
    assert [SECOND, THIRD][1..] == [THIRD] && IndexOfKey([THIRD], THIRD) == 0;
    assert IndexOfKey([SECOND, THIRD], THIRD) == 1;
  }

  /** After a look: workspace 3 is queued and its request cannot start. */
  ghost predicate Queued(s: State, spaces: map<SpaceId, Space>, displays: set<DisplayId>) {
    && Plain(s) && s.view.WellKeyed() && s.view.spaces == spaces && s.view.windows == map[] && s.view.displays.Keys == displays
    && s.requests == [Request(THIRD, 2)] && s.initialized && s.templates == [CONFIGURED] && s.synced == Some(displays)
    && (forall k | k in s.reg :: s.reg[k].display == 2 && !s.reg[k].IsFullscreen())
  }

  /** What the first look finds once bindings have settled. */
  ghost predicate Found(s: State) {
    && Plain(s) && s.view.WellKeyed() && s.view.spaces == Both().spaces && s.view.windows == map[] && s.view.displays.Keys == {1, 2}
    && s.requests == [] && s.initialized && s.templates == [CONFIGURED] && s.synced == Some({1, 2}) && s.external == map[]
    && s.reg.Keys == {SECOND, THIRD} && TwoHere(s.reg[SECOND]) && ThreeHere(s.reg[THIRD]) && s.reg[THIRD].persistent
    && s.reg[SECOND].backing == None && s.reg[THIRD].backing == None
  }

  lemma {:induction false} FirstFound(visit: Visit)
    ensures Both().WellKeyed() && Both().complete && Found(Settled(Start(), Both(), 0, visit))
  {
    hide TakenIn, Settled, Plain, View.WellKeyed;
    FirstTaken(visit);
    FirstSettled(visit);
    assert Settled(Start(), Both(), 0, visit).view.displays.Keys == {1, 2};
  }

  lemma {:induction false} FirstAsked(o: State, visit: Visit)
    requires Found(o)
    ensures var q := Asked(o, 0, visit); Queued(q, Both().spaces, {1, 2}) && q.reg.Keys == {SECOND, THIRD} && q.reg[THIRD].persistent
  {
    hide RemapSlots, Plain, View.WellKeyed, RequestMissing, Ascending, Strangers;
    PlainHolds(o);
    FirstBound(o, visit);
    AskedIsPlain(o, 0, visit);
    var g := GraceSurplus(RemapSlots(o, visit).0, 0);
    SecondNotThird();
    assert forall d :: d in Ascending(o.view.displays.Keys) <==> d in Elements(Ascending(o.view.displays.Keys));
    MissingAsks(g, Ascending(o.view.displays.Keys), THIRD);
  }

  lemma FoundIsPlain(s: State)
    requires Found(s)
    ensures Plain(s) && s.view.WellKeyed()
  {
  }

  lemma ThirdIsBlocked(q: State)
    requires Queued(q, Both().spaces, {1, 2}) && THIRD in q.reg && q.reg[THIRD].persistent
    ensures q.view.WellKeyed() && Blocked(q, q.requests[0])
  {
    hide View.WellKeyed, Anchor;
  }

  /** The first look queues a creation for workspace 3. */
  lemma {:induction false} FirstLook(visit: Visit)
    ensures Start().view.WellKeyed() && LookAt(Both(), visit).Valid()
    ensures var s1 := After(Start(), LookAt(Both(), visit)); Queued(s1, Both().spaces, {1, 2}) && s1.reg.Keys == {SECOND, THIRD}
  {
    hide *;
    StartIsPlain();
    FirstFound(visit);
    FoundIsPlain(Settled(Start(), Both(), 0, visit));
    FirstAsked(Settled(Start(), Both(), 0, visit), visit);
    ThirdIsBlocked(Asked(Settled(Start(), Both(), 0, visit), 0, visit));
    LookIsPass(Start(), Both(), visit);
    PlainLook(Start(), Both(), 0, visit);
  }

  // ------------------------------------------------- the display is unplugged

  lemma {:induction false} SecondTaken(s: State, visit: Visit)
    requires Queued(s, Both().spaces, {1, 2})
    ensures !IsReset(s.view, Unplugged())
    ensures var t := TakenIn(s, Unplugged(), 0, visit);
            && Plain(t) && t.reg == map[] && t.requests == s.requests && t.initialized && t.synced == Some({1})
            && t.templates == [CONFIGURED] && t.awaited == []
  {
    assert !IsReset(s.view, Unplugged()) by {
      assert 10 in s.view.spaces && s.view.spaces[10].Ordinary();
    }
    hide SyncConfig, TakenIn, IsReset, NextOrdinal, InstantiateAll, NoneEntering, Plain, View.WellKeyed;
    var s1 := Observe(s, Unplugged());
    assert s1.view.displays.Keys == {1};
    PlainSame(s, s1);
    SyncStaysPlain(s1, visit);
    assert 2 !in s1.view.displays;
    ConfiguredWaits(s1.reg, NextOrdinal(s1.reg), s1.view, visit.displays);
    var q := SyncConfig(s1, visit);
    assert q.reg == map[];
    NoWindowEnters(q, s.view.windows, 0);
    PlainTakesIn(s, Unplugged(), 0, visit);
    PlainHolds(TakenIn(s, Unplugged(), 0, visit));
  }

  /** Nothing set aside is in use. */
  lemma {:induction false} NothingToAdopt(s: State)
    requires s.view.WellKeyed() && s.view.spaces == Unplugged().spaces && s.view.windows == map[]
    ensures Adoptable(s) == []
  {
    SomeMember(Adoptable(s));
  }

  lemma {:induction false} SecondSettled(s: State, visit: Visit)
    requires Queued(s, Both().spaces, {1, 2})
    ensures Unplugged().WellKeyed() && Unplugged().complete
    ensures var o := Settled(s, Unplugged(), 0, visit);
            && Plain(o) && o.reg == map[] && o.requests == s.requests && o.initialized && o.synced == Some({1}) && o.templates == [CONFIGURED]
  {
    hide TakenIn, Gathered, IsReset, Plain, Queued, View.WellKeyed, State.Known, NoneVanished, Adoptable, Strangers, StillExternal;
    SecondTaken(s, visit);
    NobodyBacked(TakenIn(s, Unplugged(), 0, visit));
    PlainGathers(s, Unplugged(), 0, visit);
    var g := Gathered(s, Unplugged(), 0, visit);
    StillPlain(TakenIn(s, Unplugged(), 0, visit), g);
    var g2 := GraceSurplus(g.(external := StillExternal(g)), 0);
    NothingToAdopt(g2);
    PlainExternal(g, Settled(s, Unplugged(), 0, visit));
  }

  /** What the second look finds. */
  ghost predicate Emptied(s: State) {
    && Plain(s) && s.view.WellKeyed() && s.view.spaces == Unplugged().spaces && s.view.windows == map[] && s.view.displays.Keys == {1}
    && s.requests == [Request(THIRD, 2)] && s.initialized && s.templates == [CONFIGURED] && s.synced == Some({1}) && s.reg == map[]
  }

  lemma {:induction false} SecondFound(s: State, visit: Visit)
    requires Queued(s, Both().spaces, {1, 2})
    ensures Unplugged().WellKeyed() && Unplugged().complete && Emptied(Settled(s, Unplugged(), 0, visit))
  {
    hide Settled, Plain, View.WellKeyed;
    SecondSettled(s, visit);
    assert Settled(s, Unplugged(), 0, visit).view.displays.Keys == {1};
  }

  lemma {:induction false} SecondAsked(o: State, visit: Visit)
    requires Emptied(o)
    ensures var q := Asked(o, 0, visit); Plain(o) && Queued(q, Unplugged().spaces, {1}) && q.reg == map[] && Blocked(q, q.requests[0])
  {
    hide RemapSlots, Plain, RequestMissing, Ascending, Strangers, Anchor, View.WellKeyed;
    PlainHolds(o);
    RemapKeys(o, visit);
    AskedIsPlain(o, 0, visit);
    NothingMissing(GraceSurplus(RemapSlots(o, visit).0, 0), Ascending(o.view.displays.Keys));
    var q := Asked(o, 0, visit);
    assert forall x | x in q.view.spaces :: q.view.spaces[x].display != 2;
    assert Anchor(q.view, 2) == None;
  }

  /** The second look forgets both workspaces of the missing display, but not the request. */
  lemma {:induction false} SecondLook(s: State, visit: Visit)
    requires Queued(s, Both().spaces, {1, 2})
    ensures s.view.WellKeyed() && LookAt(Unplugged(), visit).Valid()
    ensures var s2 := After(s, LookAt(Unplugged(), visit)); Queued(s2, Unplugged().spaces, {1}) && s2.reg == map[]
  {
    QueuedKeyed(s);
    hide *;
    SecondFound(s, visit);
    EmptiedKeyed(Settled(s, Unplugged(), 0, visit));
    SecondAsked(Settled(s, Unplugged(), 0, visit), visit);
    LookIsPass(s, Unplugged(), visit);
    PlainLook(s, Unplugged(), 0, visit);
  }

  lemma EmptiedKeyed(s: State)
    requires Emptied(s)
    ensures s.view.WellKeyed()
  {
  }

  lemma QueuedKeyed(s: State)
    requires Queued(s, Both().spaces, {1, 2}) || Queued(s, Unplugged().spaces, {1})
    ensures s.view.WellKeyed()
  {
  }

  // ----------------------------------------------------- and plugged back in

  lemma {:induction false} ThirdTaken(s: State, visit: Visit)
    requires Queued(s, Unplugged().spaces, {1}) && s.reg == map[]
    ensures !IsReset(s.view, BothAgain())
    ensures var t := TakenIn(s, BothAgain(), 0, visit);
            && Plain(t) && t.reg.Keys == {SECOND} && TwoHere(t.reg[SECOND]) && t.reg[SECOND].backing == None
            && t.requests == s.requests && t.initialized
  {
    assert !IsReset(s.view, BothAgain()) by {
      assert 10 in s.view.spaces && s.view.spaces[10].Ordinary();
    }
    hide SyncConfig, TakenIn, IsReset, NextOrdinal, InstantiateAll, NoneEntering, Plain, View.WellKeyed;
    var s1 := Observe(s, BothAgain());
    assert s1.view.displays.Keys == {1, 2};
    assert 1 in Some({1}).value && 2 !in Some({1}).value;
    PlainSame(s, s1);
    SyncStaysPlain(s1, visit);
    ConfiguredAdds(s1.reg, NextOrdinal(s1.reg), s1.view, visit.displays);
    var q := SyncConfig(s1, visit);
    NoWindowEnters(q, s.view.windows, 0);
    PlainTakesIn(s, BothAgain(), 0, visit);
  }

  lemma {:induction false} TopNumber(reg: Registry)
    requires reg.Keys == {SECOND} && TwoHere(reg[SECOND])
    ensures MaxNumber(reg, 2) == 2
  {
    assert SECOND in reg;
    Digits();
    assert forall k | k in reg :: reg - {k} == map[];
    hide ParseU32;
  }

  lemma {:induction false} NextIsThird(reg: Registry)
    requires reg.Keys == {SECOND}
    ensures FreeNumber(reg, 2, 3) == Some(3) && Key(2, ToText(3)) == THIRD && THIRD !in reg
  {
    SecondNotThird();
    assert ToText(3) == "3";
  }

  lemma {:induction false} NextNameIsThird(reg: Registry)
    requires reg.Keys == {SECOND} && TwoHere(reg[SECOND])
    ensures NextName(reg, 2) == Some(THIRD)
  {
    TopNumber(reg);
    NextIsThird(reg);
    hide MaxNumber, FreeNumber, ToText;
  }

  /** The new Space of display 2 gets the next number, the very name that is still queued. */
  lemma {:induction false} AdoptedAsThird(s: State)
    requires 30 in s.view.spaces && s.view.spaces[30] == SIDE_AGAIN && s.reg.Keys == {SECOND} && TwoHere(s.reg[SECOND])
    ensures var r := AdoptOne(s, 30);
            && r.reg.Keys == {SECOND, THIRD} && r.reg[SECOND] == s.reg[SECOND] && r.reg[THIRD].backing == Some(Normal(30))
            && r == s.(reg := r.reg, external := s.external - {30})
  {
    hide NextOrdinal, NextName;
    NextNameIsThird(s.reg);
    SecondNotThird();
    assert THIRD !in s.reg;
  }

  /** The Space in use on display 2, and only it, is there to adopt. */
  lemma {:induction false} SideIsAdoptable(s: State)
    requires s.view.WellKeyed() && s.view.spaces == BothAgain().spaces && s.view.windows == map[] && 30 in s.external
    ensures Adoptable(s) == [30]
  {
    var used := set x | x in s.external && x in s.view.spaces && (s.view.spaces[x].focused || s.view.Occupied(x)) :: s.view.spaces[x];
    assert used == {SIDE_AGAIN};
    SlotTotal(used);
    SortedIsOrdered(used, SlotLe);
    var q := Sorted(used, SlotLe);
    assert |q| == 1 && q[0] in Elements(q);
    assert Adoptable(s) == Ids(q);
  }

  /** What the third look takes in. */
  ghost predicate Returned(s: State) {
    && Plain(s) && s.view.WellKeyed() && s.view.spaces == BothAgain().spaces && s.view.windows == map[] && s.view.displays.Keys == {1, 2}
    && s.requests == [Request(THIRD, 2)] && s.initialized
    && s.reg.Keys == {SECOND} && TwoHere(s.reg[SECOND]) && s.reg[SECOND].backing == None
  }

  lemma {:induction false} ThirdGathered(s: State, visit: Visit)
    requires Queued(s, Unplugged().spaces, {1}) && s.reg == map[]
    ensures BothAgain().WellKeyed() && BothAgain().complete && Returned(Gathered(s, BothAgain(), 0, visit))
  {
    hide TakenIn, Gathered, IsReset, Plain, View.WellKeyed, NoneVanished;
    ThirdTaken(s, visit);
    NobodyBacked(TakenIn(s, BothAgain(), 0, visit));
    PlainGathers(s, BothAgain(), 0, visit);
    var g := Gathered(s, BothAgain(), 0, visit);
    StillPlain(TakenIn(s, BothAgain(), 0, visit), g);
    assert g.view.displays.Keys == {1, 2};
  }

  lemma {:induction false} SideIsStrange(g: State)
    requires Returned(g)
    ensures var g2 := GraceSurplus(g.(external := StillExternal(g)), 0); 30 in g2.external && g2 == g.(external := g2.external)
  {
    hide View.WellKeyed, StillExternal, Plain;
    var h := g.(external := StillExternal(g));
    assert !h.Known(30);
    assert 30 in Strangers(h);
  }

  lemma {:induction false} SideIsTaken(g: State)
    requires Returned(g)
    ensures var r := ObserveExternal(g, 0);
            && r.reg.Keys == {SECOND, THIRD} && r.reg[SECOND] == g.reg[SECOND] && r.reg[THIRD].backing == Some(Normal(30))
            && 30 !in r.external && r == g.(reg := r.reg, external := r.external)
  {
    hide View.WellKeyed, StillExternal, GraceSurplus, Adoptable, AdoptOne, Plain;
    SideIsStrange(g);
    var g2 := GraceSurplus(g.(external := StillExternal(g)), 0);
    SideIsAdoptable(g2);
    AdoptedAsThird(g2);
    PlainHolds(g);
    assert AdoptAll(g2, [30]) == AdoptOne(g2, 30) by {
      assert [30][1..] == [];
    }
  }

  lemma OnlyThirdWaits(s: State)
    requires s.requests == [Request(THIRD, 2)] && s.awaited == [] && s.reg.Keys == {SECOND, THIRD}
    ensures s.Expecting(THIRD) && !s.Expecting(SECOND) && (s.reg - Held(s)).Keys == {SECOND}
  {
    SecondNotThird();
    assert s.requests[0] in s.requests;
  }

  /** With 3 held back as waiting, 2 is first in line and takes the slot. */
  lemma {:induction false} SecondTakesIt(reg: Registry, spaces: map<SpaceId, Space>)
    requires KeyedSpaces(spaces) && 30 in spaces && spaces[30] == SIDE_AGAIN && forall y | y in spaces && spaces[y].display == 2 :: y == 30
    requires reg.Keys == {SECOND} && TwoHere(reg[SECOND]) && reg[SECOND].backing == None
    ensures var after := Remapped(reg, spaces, {1, 2}); SECOND in after && after[SECOND].backing == Some(Normal(30))
  {
    assert Parked(reg) == {};
    OneSlot(reg, spaces, SIDE_AGAIN);
    ClaimantsList(reg, 2);
    var cs := Claimants(reg, 2);
    hide Claimants, FreeSlots;
    assert SECOND in cs;
    assert cs[0] in cs;
    assert IndexOfKey(cs, SECOND) == 0;
  }

  lemma {:induction false} BothOwnIt(s: State, visit: Visit)
    requires s.view.WellKeyed() && s.placement == None && s.awaited == [] && s.requests == [Request(THIRD, 2)] && 30 !in s.external
    requires s.view.spaces == BothAgain().spaces && s.view.displays.Keys == {1, 2}
    requires s.reg.Keys == {SECOND, THIRD} && TwoHere(s.reg[SECOND]) && s.reg[SECOND].backing == None && s.reg[THIRD].backing == Some(Normal(30))
    ensures !Distinct(RemapSlots(s, visit).0.reg)
  {
    SecondNotThird();
    OnlyThirdWaits(s);
    SlotOfSide(s);
    SecondTakesIt(s.reg - Held(s), SlotSpaces(s));
    RemapPieces(s, visit);
    hide RemapSlots, Held, SlotSpaces, Remapped, State.Expecting;
    var after := RemapSlots(s, visit).0.reg;
    assert after[SECOND].Home() == after[THIRD].Home();
  }

  lemma SlotOfSide(s: State)
    requires s.view.WellKeyed() && s.view.spaces == BothAgain().spaces && 30 !in s.external
    ensures var q := SlotSpaces(s); KeyedSpaces(q) && 30 in q && q[30] == SIDE_AGAIN && forall y | y in q && q[y].display == 2 :: y == 30
  {
  }

  lemma {:induction false} ThirdAnswers(s: State, visit: Visit)
    requires Queued(s, Unplugged().spaces, {1}) && s.reg == map[]
    ensures BothAgain().WellKeyed()
    ensures !Distinct(SnapshotStep(s, BothAgain(), 0, visit).0.reg)
  {
    hide Settled, Advance, Asked, TryStart, Gathered, ObserveExternal, RemapSlots, Plain, View.WellKeyed, Distinct, Queued;
    ThirdGathered(s, visit);
    var g := Gathered(s, BothAgain(), 0, visit);
    SideIsTaken(g);
    var o := ObserveExternal(g, 0);
    SettledIs(s, visit);
    PlainOwners(g, o);
    PlainHolds(o);
    BothOwnIt(o, visit);
    PlainAdvances(o, 0, visit);
  }

  lemma SettledIs(s: State, visit: Visit)
    requires BothAgain().WellKeyed()
    ensures Settled(s, BothAgain(), 0, visit) == ObserveExternal(Gathered(s, BothAgain(), 0, visit), 0)
  {
    hide Gathered, ObserveExternal;
  }

  lemma PlainOwners(s: State, r: State)
    requires Plain(s) && r == s.(reg := r.reg, external := r.external)
    ensures Plain(r)
  {
  }

  lemma {:induction false} ThirdLook(s: State, visit: Visit)
    requires Queued(s, Unplugged().spaces, {1}) && s.reg == map[]
    ensures s.view.WellKeyed() && LookAt(BothAgain(), visit).Valid()
    ensures !Distinct(After(s, LookAt(BothAgain(), visit)).reg)
  {
    QueuedKeyed(s);
    hide *;
    ThirdAnswers(s, visit);
    LookIsPass(s, BothAgain(), visit);
  }

  // ------------------------------------------------------------------- the run

  function PlugTurns(visit: Visit): seq<Turn> { [LookAt(Both(), visit), LookAt(Unplugged(), visit), LookAt(BothAgain(), visit)] }

  /**
   * From a start with one saved workspace, three complete looks with nothing refused, however maps
   * are walked, leave two workspaces owning one Space: the guarantee needs queued workspaces to
   * stay registered.
   */
  lemma {:induction false} OrphanRequestDoublesOwner(visit: Visit)
    ensures NoneBacked(Saved().workspaces) && Start().view.WellKeyed() && ValidTurns(PlugTurns(visit))
    ensures !Distinct(AfterAll(Start(), PlugTurns(visit)).reg)
  {
    hide *;
    StartIsPlain();
    FirstLook(visit);
    var s1 := After(Start(), LookAt(Both(), visit));
    SecondLook(s1, visit);
    var s2 := After(s1, LookAt(Unplugged(), visit));
    ThirdLook(s2, visit);
    ThreeTurns(visit);
    ThreeLooks(Start(), LookAt(Both(), visit), LookAt(Unplugged(), visit), LookAt(BothAgain(), visit));
  }

  lemma ThreeTurns(visit: Visit)
    ensures PlugTurns(visit) == [LookAt(Both(), visit), LookAt(Unplugged(), visit), LookAt(BothAgain(), visit)]
  {
  }
}
