/** A run in which two workspaces come to show one fullscreen Space: their windows enter the same split view. */
module SplitViewRun {
  import opened Basics
  import opened Geometry
  import opened Observed
  import opened Workspace
  import opened Remap
  import opened Lifecycle
  import opened Runs
  import opened Homes
  import opened Staying
  import opened TreeOwnership
  import opened TreeSurvival
  import opened Persistence
  import opened TreeLosses
  import opened SharedFullscreen
  import opened PlainRuns

  const ONE: Key := Key(1, "1")
  const SECOND: Key := Key(1, "2")

  const LEFT: Space := Space(10, 1, 0, None, true, false, false)
  const RIGHT: Space := Space(11, 1, 1, None, false, false, false)
  const SPLIT: Space := Space(20, 1, 2, None, false, true, false)

  function On(w: WindowId, x: SpaceId): Window {
    Window(w, WindowInfo("", None, ""), Rect(0.0, 0.0, 0.0, 0.0), Some(x), None, false, No, No, Yes, 0)
  }

  function Screens(): map<DisplayId, Display> { map[1 := Display(1, Rect(0.0, 0.0, 0.0, 0.0), true, true)] }

  function Apart(): Snapshot { Snapshot(map[7 := On(7, 10), 8 := On(8, 11)], map[10 := LEFT, 11 := RIGHT], Screens(), true) }

  function Together(): Snapshot { Snapshot(map[7 := On(7, 20), 8 := On(8, 20)], map[10 := LEFT, 11 := RIGHT, 20 := SPLIT], Screens(), true) }

  function Saved(): Persisted {
    Persisted(map[], map[], map[ONE := Entry("1", 1, true, false, 0, None, None), SECOND := Entry("2", 1, true, false, 1, None, None)])
  }

  function Start(): State { LoadState(Saved(), Capabilities(false, false, false), []) }

  lemma OneNotSecond()
    ensures ONE != SECOND && ONE.name == "1" && SECOND.name == "2"
  {
    assert ONE.name[0] != SECOND.name[0];
  }

  lemma StartIsPlain()
    ensures Plain(Start()) && Start().view.WellKeyed() && NoneBacked(Saved().workspaces)
  {
  }

  // ---------------------------------------------------------- windows apart

  lemma NothingConfigured(s: State, visit: Visit)
    requires s.templates == [] && forall k | k in s.reg :: s.reg[k].display in s.view.displays
    ensures SyncConfig(s, visit).reg == s.reg
  {
    assert InstantiateAll(s.reg, NextOrdinal(s.reg), [], s.view, visit.displays) == s.reg;
    assert OnDisplays(s.reg, s.view.displays.Keys) == s.reg;
    hide InstantiateAll, OnDisplays, NextOrdinal;
  }

  lemma UnbackedEnterNothing(s: State, previous: map<WindowId, Window>, now: Instant)
    requires NoneBacked(s.reg)
    ensures NoneFullscreen(s.reg) && NoneEntering(s, previous, now)
  {
    hide Entering;
  }

  lemma SavedOnOne()
    ensures NoneBacked(Start().reg) && forall k | k in Start().reg :: Start().reg[k].display == 1
  {
  }

  lemma {:induction false} ApartTaken(visit: Visit)
    ensures !IsReset(Start().view, Apart())
    ensures var t := TakenIn(Start(), Apart(), 0, visit);
            && Plain(t) && t.reg == Start().reg && t.requests == [] && !t.initialized && t.external == map[] && t.synced == Some({1})
            && t.templates == []
  {
    assert !IsReset(Start().view, Apart());
    hide SyncConfig, TakenIn, IsReset, NextOrdinal, InstantiateAll, NoneEntering, NoneFullscreen, Plain, OnDisplays, NoneBacked;
    StartIsPlain();
    SavedOnOne();
    var s1 := Observe(Start(), Apart());
    assert s1.view.displays.Keys == {1};
    PlainSame(Start(), s1);
    SyncStaysPlain(s1, visit);
    NothingConfigured(s1, visit);
    var q := SyncConfig(s1, visit);
    UnbackedEnterNothing(q, Start().view.windows, 0);
    PlainTakesIn(Start(), Apart(), 0, visit);
  }

  /** The two workspaces, and nothing queued. */
  ghost predicate Beginning(s: State) {
    && Plain(s) && s.view.WellKeyed() && s.view.spaces == Apart().spaces && s.view.windows == Apart().windows && s.view.displays.Keys == {1}
    && s.requests == [] && s.initialized && s.external == map[] && s.synced == Some({1}) && s.templates == [] && s.reg == Saved().workspaces
  }

  lemma {:induction false} ApartSettled(visit: Visit)
    ensures Apart().WellKeyed() && Apart().complete && Beginning(Settled(Start(), Apart(), 0, visit))
  {
    hide TakenIn, Gathered, IsReset, Plain, View.WellKeyed, NoneVanished, StillExternal;
    ApartTaken(visit);
    var t := TakenIn(Start(), Apart(), 0, visit);
    SavedOnOne();
    NobodyBacked(t);
    PlainGathers(Start(), Apart(), 0, visit);
    var g := Gathered(Start(), Apart(), 0, visit);
    StillPlain(t, g);
    NothingExternal(g);
    PlainExternal(g, Settled(Start(), Apart(), 0, visit));
    assert g.view.displays.Keys == {1};
  }

  lemma NothingExternal(s: State)
    requires s.external == map[]
    ensures StillExternal(s) == map[]
  {
  }

  lemma {:induction false} TwoSlots(reg: Registry, spaces: map<SpaceId, Space>)
    requires spaces == Apart().spaces && KeyedSpaces(spaces) && Parked(reg) == {}
    ensures FreeSlots(reg, spaces, 1) == [LEFT, RIGHT]
  {
    var xs, q := FreeSet(Parked(reg), spaces, 1), [LEFT, RIGHT];
    assert spaces[10] == LEFT && spaces[11] == RIGHT;
    assert LEFT in xs && RIGHT in xs;
    assert forall x :: x in Elements(q) <==> x == LEFT || x == RIGHT;
    assert Elements(q) == xs;
    SlotTotal(xs);
    SortedUnique(q, xs, SlotLe);
  }

  lemma {:induction false} ApartRemapped(reg: Registry, spaces: map<SpaceId, Space>)
    requires spaces == Apart().spaces && KeyedSpaces(spaces) && reg == Saved().workspaces
    ensures var after := Remapped(reg, spaces, {1});
            && ONE in after && after[ONE] == reg[ONE].(backing := Some(Normal(10)), lastPosition := Some(0))
            && SECOND in after && after[SECOND] == reg[SECOND].(backing := Some(Normal(11)), lastPosition := Some(1))
  {
    hide Claimants, FreeSlots, ParseU32;
    OneNotSecond();
    Digits();
    LowerFirst(reg, 1, ONE, SECOND, 1, 2);
    assert Parked(reg) == {};
    TwoSlots(reg, spaces);
    assert IndexOfKey([ONE, SECOND], ONE) == 0;
    assert [ONE, SECOND][1..] == [SECOND] && IndexOfKey([SECOND], SECOND) == 0;
    assert IndexOfKey([ONE, SECOND], SECOND) == 1;
  }

  /** Each workspace shows its own Space, with its window on it. */
  ghost predicate SideBySide(s: State) {
    && Plain(s) && s.view.WellKeyed() && s.view.spaces == Apart().spaces && s.view.windows == Apart().windows && s.view.displays.Keys == {1}
    && s.requests == [] && s.initialized && s.external == map[] && s.synced == Some({1})
    && s.reg.Keys == {ONE, SECOND} && s.reg[ONE].backing == Some(Normal(10)) && s.reg[SECOND].backing == Some(Normal(11))
    && s.reg[ONE].display == 1 && s.reg[SECOND].display == 1
  }

  lemma {:induction false} ApartAsked(o: State, visit: Visit)
    requires Beginning(o)
    ensures SideBySide(Asked(o, 0, visit))
  {
    hide RemapSlots, Remapped, Plain, View.WellKeyed, RequestMissing, Ascending, Held, SlotSpaces, Strangers;
    PlainHolds(o);
    NobodyWaits(o);
    RemapPieces(o, visit);
    ApartRemapped(o.reg, o.view.spaces);
    AskedIsPlain(o, 0, visit);
    var r := RemapSlots(o, visit).0;
    NoStrangers(r);
    NothingMissing(GraceSurplus(r, 0), Ascending(o.view.displays.Keys));
    assert Asked(o, 0, visit).external.Keys == {};
  }

  lemma NoStrangers(s: State)
    requires s.view.spaces == Apart().spaces && ONE in s.reg && SECOND in s.reg
    requires s.reg[ONE].backing == Some(Normal(10)) && s.reg[SECOND].backing == Some(Normal(11))
    ensures Strangers(s) == {}
  {
    assert s.reg[ONE].Holds(10) && s.reg[SECOND].Holds(11);
  }

  lemma {:induction false} ApartLook(visit: Visit)
    ensures Start().view.WellKeyed() && LookAt(Apart(), visit).Valid() && SideBySide(After(Start(), LookAt(Apart(), visit)))
  {
    hide *;
    StartIsPlain();
    ApartSettled(visit);
    var o := Settled(Start(), Apart(), 0, visit);
    BeginningIsPlain(o);
    ApartAsked(o, visit);
    NothingQueued(Asked(o, 0, visit));
    LookIsPass(Start(), Apart(), visit);
    PlainLook(Start(), Apart(), 0, visit);
  }

  lemma BeginningIsPlain(s: State)
    requires Beginning(s)
    ensures Plain(s) && s.view.WellKeyed()
  {
  }

  lemma NothingQueued(s: State)
    requires SideBySide(s)
    ensures s.requests == [] && s.view.WellKeyed()
  {
  }

  // -------------------------------------------------------- windows together

  /** A window that was on a workspace's Space is now on the split view, which nobody shows. */
  lemma {:induction false} EntersSplit(q: State, w: WindowId, x: SpaceId)
    requires (w == 7 && x == 10) || (w == 8 && x == 11)
    requires q.view.spaces == Together().spaces && q.view.windows == Together().windows && !q.Claimed(20)
    ensures Entering(q, Apart().windows, x, 0) != {}
    ensures forall v | v in Entering(q, Apart().windows, x, 0) :: q.view.windows[v].space == Some(20)
  {
    assert 20 !in OwnedFullscreen(q);
    assert q.view.windows[w].space == Some(20) && Apart().windows[w].space == Some(x);
    hide OwnedFullscreen;
    assert w in Entering(q, Apart().windows, x, 0);
  }

  lemma {:induction false} GoesSplit(q: State, e: Entry)
    requires e.backing == Some(Normal(10)) || e.backing == Some(Normal(11))
    requires q.view.spaces == Together().spaces && q.view.windows == Together().windows && !q.Claimed(20)
    ensures var r := Substituted(q, Apart().windows, 0, e);
            && r.IsFullscreen() && r.ActiveSpace() == Some(20) && r.RestoreSpace() == Some(e.backing.value.space) && r.display == e.display
  {
    var x := e.backing.value.space;
    EntersSplit(q, if x == 10 then 7 else 8, x);
    hide Entering, Together;
    assert LeastWindow(Entering(q, Apart().windows, x, 0)) in Entering(q, Apart().windows, x, 0);
  }

  /** Both workspaces show the split view. */
  ghost predicate Shared(s: State) {
    && Plain(s) && s.view.WellKeyed() && s.view.spaces == Together().spaces && s.view.displays.Keys == {1}
    && s.requests == [] && s.initialized && s.external == map[] && s.reg.Keys == {ONE, SECOND}
    && s.reg[ONE].IsFullscreen() && s.reg[ONE].ActiveSpace() == Some(20) && s.reg[ONE].RestoreSpace() == Some(10) && s.reg[ONE].display == 1
    && s.reg[SECOND].IsFullscreen() && s.reg[SECOND].ActiveSpace() == Some(20) && s.reg[SECOND].RestoreSpace() == Some(11)
    && s.reg[SECOND].display == 1
  }

  lemma SameDisplays(s: State, visit: Visit)
    requires SideBySide(s)
    ensures var q := Observe(s, Together()); q.view.displays.Keys == {1} && SyncConfig(q, visit) == q && !q.Claimed(20)
  {
    hide Plain, View.WellKeyed, NextOrdinal, InstantiateAll, OnDisplays;
    assert Observe(s, Together()).view.displays.Keys == {1};
  }

  lemma NotReset(s: State)
    requires SideBySide(s)
    ensures !IsReset(s.view, Together())
  {
    assert 10 in s.view.spaces && s.view.spaces[10].Ordinary();
    assert 10 in Together().spaces;
  }

  /** The look as taken in, with nothing registered anew. */
  ghost predicate LooksTogether(q: State) {
    && Plain(q) && q.view.spaces == Together().spaces && q.view.windows == Together().windows && q.view.displays.Keys == {1} && !q.Claimed(20)
    && q.requests == [] && q.initialized && q.external == map[]
    && q.reg.Keys == {ONE, SECOND} && q.reg[ONE].backing == Some(Normal(10)) && q.reg[SECOND].backing == Some(Normal(11))
    && q.reg[ONE].display == 1 && q.reg[SECOND].display == 1
  }

  lemma {:induction false} TogetherSubstituted(q: State, visit: Visit)
    requires LooksTogether(q)
    ensures var r := ReconcileFullscreen(q, Apart().windows, 0, visit); r.view.WellKeyed() ==> Shared(r)
  {
    hide Plain, View.WellKeyed, Substituted, FullscreenRegistry, Restored, ReserveOrder, Together, Apart, State.Claimed;
    GoesSplit(q, q.reg[ONE]);
    GoesSplit(q, q.reg[SECOND]);
    FullscreenEntry(q, Apart().windows, 0, ONE);
    FullscreenEntry(q, Apart().windows, 0, SECOND);
    forall k ensures k in FullscreenRegistry(q, Apart().windows, 0) <==> k in q.reg {
      FullscreenEntry(q, Apart().windows, 0, k);
    }
    NobodyRestored(q);
    var r := ReconcileFullscreen(q, Apart().windows, 0, visit);
    assert r == q.(reg := r.reg, grace := r.grace);
    GracePlain(q, r);
  }

  lemma GracePlain(s: State, r: State)
    requires Plain(s) && r == s.(reg := r.reg, grace := r.grace)
    ensures Plain(r)
  {
  }

  lemma {:induction false} TogetherTaken(s: State, visit: Visit)
    requires SideBySide(s)
    ensures !IsReset(s.view, Together()) && Together().WellKeyed() && Together().complete
    ensures Shared(TakenIn(s, Together(), 0, visit))
  {
    hide IsReset, SyncConfig, ReconcileFullscreen, Plain, View.WellKeyed, Shared, State.Claimed;
    NotReset(s);
    SameDisplays(s, visit);
    var q := Observe(s, Together());
    PlainSame(s, q);
    TogetherSubstituted(q, visit);
    TakenInKeyed(s, Together(), 0, visit);
  }

  lemma NobodyRestored(s: State)
    requires forall k | k in s.reg :: !s.reg[k].IsFullscreen()
    ensures Restored(s) == {}
  {
    hide FullscreenLost;
  }

  lemma {:induction false} SharedSettles(s: State, visit: Visit)
    requires SideBySide(s)
    ensures Shared(Settled(s, Together(), 0, visit))
  {
    hide TakenIn, Gathered, IsReset, Plain, View.WellKeyed, State.Known, StillExternal, Adoptable, Strangers;
    TogetherTaken(s, visit);
    var t := TakenIn(s, Together(), 0, visit);
    SharedStay(t);
    PlainGathers(s, Together(), 0, visit);
    var g := Gathered(s, Together(), 0, visit);
    StillPlain(t, g);
    SharedStay(g);
    PlainHolds(g);
    assert AdoptAll(GraceSurplus(g, 0), []) == GraceSurplus(g, 0);
  }

  /** Nothing vanished, and there is no stranger's Space. */
  lemma {:induction false} SharedStay(s: State)
    requires Shared(s)
    ensures NoneVanished(s) && s.(external := StillExternal(s)) == s && GraceSurplus(s, 0) == s && Adoptable(s) == []
  {
    hide View.WellKeyed, Plain, Adoptable;
    assert StillExternal(s) == map[];
    assert s.reg[ONE].Holds(10) && s.reg[SECOND].Holds(11);
    assert Strangers(s) == {};
    assert GraceSurplus(s, 0).external == map[];
    SomeMember(Adoptable(s));
  }

  lemma {:induction false} SharedRemap(s: State, visit: Visit)
    requires Shared(s)
    ensures s.view.WellKeyed() && RemapSlots(s, visit).0.reg == s.reg
  {
    PlainHolds(s);
    NobodyWaits(s);
    RemapPieces(s, visit);
    hide RemapSlots, FreeSlots, Claimants, Held, SlotSpaces, View.WellKeyed, Plain;
    assert RemapSlots(s, visit).0.reg == s.reg;
  }

  lemma SharedIsNotUnshared(s: State)
    requires Shared(s)
    ensures !Unshared(s.reg) && Plain(s)
  {
    OneNotSecond();
    hide Plain, View.WellKeyed;
  }

  lemma {:induction false} TogetherAnswers(s: State, visit: Visit)
    requires SideBySide(s)
    ensures Together().WellKeyed() && !Unshared(SnapshotStep(s, Together(), 0, visit).0.reg)
  {
    hide Settled, Advance, Asked, TryStart, RemapSlots, Plain, View.WellKeyed, Unshared, Shared, SideBySide;
    TogetherTaken(s, visit);
    SharedSettles(s, visit);
    var o := Settled(s, Together(), 0, visit);
    SharedRemap(o, visit);
    SharedIsNotUnshared(o);
    PlainAdvances(o, 0, visit);
  }

  lemma {:induction false} TogetherLook(s: State, visit: Visit)
    requires SideBySide(s)
    ensures s.view.WellKeyed() && LookAt(Together(), visit).Valid() && !Unshared(After(s, LookAt(Together(), visit)).reg)
  {
    NothingQueued(s);
    hide *;
    TogetherAnswers(s, visit);
    LookIsPass(s, Together(), visit);
  }

  // ------------------------------------------------------------------- the run

  lemma SideIsUnshared(s: State)
    requires SideBySide(s)
    ensures Unshared(s.reg) && s.view.WellKeyed()
  {
    hide Plain, View.WellKeyed;
  }

  function SplitTurns(visit: Visit): seq<Turn> { [LookAt(Apart(), visit), LookAt(Together(), visit)] }

  /**
   * From a start with two saved workspaces, however maps are walked: after one complete look each
   * shows its own Space, after a second, in which the window of each is on one split view, both show that.
   */
  lemma {:induction false} SplitViewIsShared(visit: Visit)
    ensures NoneBacked(Saved().workspaces) && Start().view.WellKeyed()
    ensures ValidTurns([LookAt(Apart(), visit)]) && ValidTurns(SplitTurns(visit))
    ensures Unshared(AfterAll(Start(), [LookAt(Apart(), visit)]).reg) && !Unshared(AfterAll(Start(), SplitTurns(visit)).reg)
  {
    hide *;
    StartIsPlain();
    ApartLook(visit);
    var s1 := After(Start(), LookAt(Apart(), visit));
    SideIsUnshared(s1);
    TogetherLook(s1, visit);
    TwoTurns(visit);
    TwoLooks(Start(), LookAt(Apart(), visit), LookAt(Together(), visit));
  }

  lemma TwoTurns(visit: Visit)
    ensures SplitTurns(visit) == [LookAt(Apart(), visit), LookAt(Together(), visit)]
  {
  }
}
