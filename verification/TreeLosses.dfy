/** Trees are not conserved: exactly when putting slots and trees in step with the bindings loses one. */
module TreeLosses {
  import opened Basics
  import opened Geometry
  import opened Observed
  import opened Workspace
  import opened Remap
  import opened Lifecycle
  import opened Homes
  import opened TreeOwnership
  import opened TreeSurvival
  import opened ParkedTrees

  function Count(t: Trees): nat { |t.layouts| + |t.parked| }

  // -------------------------------------------------------------- turn by turn

  /** In its turn, no move goes to an occupied place. */
  ghost predicate MovesClear(t: Trees, spaces: set<SpaceId>, moves: seq<RemapMove>) {
    forall i | 0 <= i < |moves| :: !Occupied(MoveTrees(t, spaces, moves[..i]), spaces, moves[i])
  }

  /** The Space a parked tree is to go back to holds a tree already. */
  predicate Crowded(t: Trees, reg: Registry, k: Key) {
    k in t.parked && ShownOn(reg, k).Some? && ShownOn(reg, k).value in t.layouts
  }

  /** In its turn, no parked tree goes back to a Space that holds one. */
  ghost predicate ReturnsClear(t: Trees, reg: Registry, ks: seq<Key>) {
    forall i | 0 <= i < |ks| :: !Crowded(Reattach(t, reg, ks[..i]), reg, ks[i])
  }

  lemma {:induction false} MovesClearStep(t: Trees, spaces: set<SpaceId>, moves: seq<RemapMove>)
    requires moves != []
    ensures MovesClear(t, spaces, moves) <==> !Occupied(t, spaces, moves[0]) && MovesClear(MoveTree(t, spaces, moves[0]), spaces, moves[1..])
  {
    hide MoveTree, Occupied;
    var rest := moves[1..];
    forall i | 0 < i <= |moves| ensures MoveTrees(t, spaces, moves[..i]) == MoveTrees(MoveTree(t, spaces, moves[0]), spaces, rest[..i - 1]) {
      assert moves[..i][1..] == rest[..i - 1];
    }
    if MovesClear(t, spaces, moves) {
      assert moves[..0] == [];
      forall i | 0 <= i < |rest| ensures !Occupied(MoveTrees(MoveTree(t, spaces, moves[0]), spaces, rest[..i]), spaces, rest[i]) {
        assert !Occupied(MoveTrees(t, spaces, moves[..i + 1]), spaces, moves[i + 1]);
      }
    } else {
      var i :| 0 <= i < |moves| && Occupied(MoveTrees(t, spaces, moves[..i]), spaces, moves[i]);
      if i == 0 {
        assert moves[..0] == [];
      } else {
        assert Occupied(MoveTrees(MoveTree(t, spaces, moves[0]), spaces, rest[..i - 1]), spaces, rest[i - 1]);
      }
    }
  }

  /** The moves of a remap lose no tree if and only if none goes, in its turn, to an occupied place. */
  lemma {:induction false} MovesLoseIff(t: Trees, spaces: set<SpaceId>, moves: seq<RemapMove>)
    ensures Count(MoveTrees(t, spaces, moves)) <= Count(t)
    ensures Count(MoveTrees(t, spaces, moves)) == Count(t) <==> MovesClear(t, spaces, moves)
    decreases |moves|
  {
    hide MoveTree, Occupied, MovesClear;
    if moves == [] {
      NoMoveIsClear(t, spaces);
    } else {
      MoveLosesIffOccupied(t, spaces, moves[0]);
      MovesLoseIff(MoveTree(t, spaces, moves[0]), spaces, moves[1..]);
      MovesClearStep(t, spaces, moves);
    }
  }

  lemma NoMoveIsClear(t: Trees, spaces: set<SpaceId>)
    ensures MovesClear(t, spaces, [])
  {
  }

  /** One parked tree going back, if its workspace shows a Space. */
  function Returned(t: Trees, reg: Registry, k: Key): Trees {
    if k in t.parked && ShownOn(reg, k).Some? then Trees(t.layouts[ShownOn(reg, k).value := t.parked[k]], t.parked - {k}) else t
  }

  lemma {:induction false} ReturnLoses(t: Trees, reg: Registry, k: Key)
    ensures Count(Returned(t, reg, k)) == Count(t) - if Crowded(t, reg, k) then 1 else 0
  {
    if k in t.parked && ShownOn(reg, k).Some? {
      CountAfter(t.layouts, ShownOn(reg, k).value, t.parked[k]);
      CountAfter(t.parked, k, t.parked[k]);
    }
  }

  lemma {:induction false} ReturnsClearStep(t: Trees, reg: Registry, ks: seq<Key>)
    requires ks != []
    ensures Reattach(t, reg, ks) == Reattach(Returned(t, reg, ks[0]), reg, ks[1..])
    ensures ReturnsClear(t, reg, ks) <==> !Crowded(t, reg, ks[0]) && ReturnsClear(Returned(t, reg, ks[0]), reg, ks[1..])
  {
    hide Crowded;
    var rest := ks[1..];
    forall i | 0 < i <= |ks| ensures Reattach(t, reg, ks[..i]) == Reattach(Returned(t, reg, ks[0]), reg, rest[..i - 1]) {
      assert ks[..i][1..] == rest[..i - 1];
    }
    hide Returned;
    if ReturnsClear(t, reg, ks) {
      assert ks[..0] == [];
      forall i | 0 <= i < |rest| ensures !Crowded(Reattach(Returned(t, reg, ks[0]), reg, rest[..i]), reg, rest[i]) {
        assert !Crowded(Reattach(t, reg, ks[..i + 1]), reg, ks[i + 1]);
      }
    } else {
      var i :| 0 <= i < |ks| && Crowded(Reattach(t, reg, ks[..i]), reg, ks[i]);
      if i == 0 {
        assert ks[..0] == [];
      } else {
        assert Crowded(Reattach(Returned(t, reg, ks[0]), reg, rest[..i - 1]), reg, rest[i - 1]);
      }
    }
  }

  /** Reattaching loses no tree if and only if none goes back, in its turn, to a Space that holds one. */
  lemma {:induction false} ReturnsLoseIff(t: Trees, reg: Registry, ks: seq<Key>)
    ensures Count(Reattach(t, reg, ks)) <= Count(t)
    ensures Count(Reattach(t, reg, ks)) == Count(t) <==> ReturnsClear(t, reg, ks)
    decreases |ks|
  {
    hide Crowded, Returned, ReturnsClear;
    if ks == [] {
      NoReturnIsClear(t, reg);
    } else {
      ReturnLoses(t, reg, ks[0]);
      ReturnsClearStep(t, reg, ks);
      ReturnsLoseIff(Returned(t, reg, ks[0]), reg, ks[1..]);
    }
  }

  lemma NoReturnIsClear(t: Trees, reg: Registry)
    ensures ReturnsClear(t, reg, [])
  {
  }

  /**
   * From any state: the remap stage loses no tree if and only if no move goes to an occupied place
   * in its turn and no parked tree goes back to a Space that holds one in its turn.
   */
  lemma {:induction false} RebindLosesIff(s: State, visit: Visit)
    requires s.view.WellKeyed()
    ensures var (s1, moves) := RemapSlots(s, visit);
            var moved := MoveTrees(s1.AllTrees(), s1.view.spaces.Keys, moves);
            && Count(Rebind(s, visit).0.AllTrees()) <= Count(s.AllTrees())
            && (Count(Rebind(s, visit).0.AllTrees()) == Count(s.AllTrees()) <==>
                  MovesClear(s1.AllTrees(), s1.view.spaces.Keys, moves) && ReturnsClear(moved, s1.reg, visit.parked))
  {
    hide RemapSlots, MoveTrees, Reattach, MovesClear, ReturnsClear, Count, View.WellKeyed;
    var (s1, moves) := RemapSlots(s, visit);
    MovesLoseIff(s1.AllTrees(), s1.view.spaces.Keys, moves);
    ReturnsLoseIff(MoveTrees(s1.AllTrees(), s1.view.spaces.Keys, moves), s1.reg, visit.parked);
  }

  // ---------------------------------------------------- seen before the stage

  predicate Idle(m: RemapMove, spaces: set<SpaceId>) { m.from.None? || m.from.value in spaces }

  lemma {:induction false} MovesLeave(t: Trees, spaces: set<SpaceId>, moves: seq<RemapMove>, xs: set<SpaceId>, k: Key)
    requires forall i | 0 <= i < |moves| :: Idle(moves[i], spaces) || SparesOne(moves[i], xs, k)
    ensures SameCells(t, MoveTrees(t, spaces, moves), xs, k)
    decreases |moves|
  {
    if moves != [] {
      assert Idle(moves[0], spaces) || SparesOne(moves[0], xs, k);
      MovesLeave(MoveTree(t, spaces, moves[0]), spaces, moves[1..], xs, k);
    }
  }

  lemma {:induction false} ReattachLeaves(t: Trees, reg: Registry, ks: seq<Key>, x: SpaceId, k: Key)
    requires k !in ks && forall j | j in t.parked && j != k :: ShownOn(reg, j) != Some(x)
    ensures SameCells(t, Reattach(t, reg, ks), {x}, k)
    decreases |ks|
  {
    if ks != [] {
      var t1 := Returned(t, reg, ks[0]);
      ReattachLeaves(t1, reg, ks[1..], x, k);
    }
  }

  lemma {:induction false} ReattachedIsNotParked(t: Trees, reg: Registry, ks: seq<Key>, k: Key)
    requires (k in ks || k !in t.parked) && ShownOn(reg, k).Some?
    ensures k !in Reattach(t, reg, ks).parked
    decreases |ks|
  {
    if ks != [] {
      ReattachedIsNotParked(Returned(t, reg, ks[0]), reg, ks[1..], k);
    }
  }

  /** Workspaces with a parked tree have no Space, or have just been bound to an ordinary one. */
  ghost predicate ParkedWait(s: State) {
    forall k | k in s.parked && k in s.reg :: Waiting(s, k, s.parked[k])
  }

  lemma {:induction false} MoveKeysDiffer(s: State, visit: Visit)
    requires s.view.WellKeyed() && Walks(visit, s.view.displays.Keys)
    ensures KeysDiffer(RemapSlots(s, visit).1)
  {
    if s.placement.None? {
      assert forall d :: d in visit.displays <==> d in Elements(visit.displays);
      var free := s.reg - Held(s);
      var after := Remapped(free, SlotSpaces(s), s.view.displays.Keys);
      RemapSameKeys(free, SlotSpaces(s), s.view.displays.Keys);
      forall j | j in free && free[j].IsFullscreen() && free[j].display in s.view.displays ensures after[j] == free[j] {
      }
      hide Remapped, Held;
      MovesAreChanges(free, after, visit.displays);
    }
  }

  /** Where a move leads: to an observed Space now the workspace's own, or nowhere. */
  lemma {:induction false} MoveLeadsTo(s: State, visit: Visit, m: RemapMove)
    requires s.view.WellKeyed() && Tame(s) && Walks(visit, s.view.displays.Keys) && m in RemapSlots(s, visit).1
    ensures var r := RemapSlots(s, visit).0;
            && m.key in s.reg && m.key in r.reg && m.from == s.reg[m.key].Home()
            && ((ShownOn(r.reg, m.key) == None && m.from == Some(m.to))
                || (ShowsNormal(r.reg[m.key]) && ShownOn(r.reg, m.key) == Some(m.to) && m.to in s.view.spaces && m.from != Some(m.to)))
  {
    hide RemapSlots, View.WellKeyed, Walks, Distinct, WaitsOnce, Predates;
    MovesFromOwn(s, visit, m);
    if s.placement.Some? {
      PlacedStay(s, visit);
    } else {
      RemapGives(s, visit, m.key);
    }
  }

  lemma {:induction false} MovesApart(s: State, visit: Visit, m: RemapMove, n: RemapMove)
    requires s.view.WellKeyed() && Tame(s) && Walks(visit, s.view.displays.Keys)
    requires m in RemapSlots(s, visit).1 && n in RemapSlots(s, visit).1 && m.key != n.key
    requires !Idle(m, s.view.spaces.Keys)
    ensures Idle(n, s.view.spaces.Keys) || SparesOne(n, {m.from.value, m.to}, m.key)
  {
    hide RemapSlots, View.WellKeyed, Walks, WaitsOnce, Predates;
    MoveLeadsTo(s, visit, m);
    MoveLeadsTo(s, visit, n);
    assert s.reg[m.key].Home() != s.reg[n.key].Home();
    if s.placement.Some? {
      PlacedStay(s, visit);
    } else {
      RemapSeparates(s, visit, m.key, n.key);
    }
  }

  /** Whether a move is to an occupied place does not depend on the moves made before it. */
  lemma {:induction false} OccupiedAnyTurn(s: State, visit: Visit, i: nat)
    requires s.view.WellKeyed() && Tame(s) && Walks(visit, s.view.displays.Keys) && i < |RemapSlots(s, visit).1|
    ensures var moves, spaces := RemapSlots(s, visit).1, s.view.spaces.Keys;
            Occupied(MoveTrees(s.AllTrees(), spaces, moves[..i]), spaces, moves[i]) <==> Occupied(s.AllTrees(), spaces, moves[i])
  {
    hide RemapSlots, View.WellKeyed, Tame, Walks, MoveTrees;
    var moves, spaces := RemapSlots(s, visit).1, s.view.spaces.Keys;
    var m := moves[i];
    if !Idle(m, spaces) {
      MoveKeysDiffer(s, visit);
      var xs := {m.from.value, m.to};
      forall j | 0 <= j < i ensures Idle(moves[..i][j], spaces) || SparesOne(moves[..i][j], xs, m.key) {
        assert moves[j] in moves && moves[j].key != m.key;
        MovesApart(s, visit, m, moves[j]);
      }
      MovesLeave(s.AllTrees(), spaces, moves[..i], xs, m.key);
    }
  }

  lemma {:induction false} ParkedAfterMoves(t: Trees, spaces: set<SpaceId>, moves: seq<RemapMove>, k: Key)
    requires k in MoveTrees(t, spaces, moves).parked && k !in t.parked
    ensures exists m :: m in moves && m.key == k && m.from == Some(m.to)
    decreases |moves|
  {
    var t1 := MoveTree(t, spaces, moves[0]);
    if k in t1.parked {
      assert moves[0] in moves;
    } else {
      ParkedAfterMoves(t1, spaces, moves[1..], k);
    }
  }

  /** A workspace whose tree is parked: the moves leave that tree, and what is on the Space it now shows, alone. */
  lemma {:induction false} WaiterUntouched(s: State, visit: Visit, k: Key, x: SpaceId)
    requires s.view.WellKeyed() && Tame(s) && FullscreenShown(s) && Walks(visit, s.view.displays.Keys)
    requires k in s.parked && Waiting(s, k, s.parked[k]) && ShownOn(RemapSlots(s, visit).0.reg, k) == Some(x)
    ensures SameCells(s.AllTrees(), MoveTrees(s.AllTrees(), s.view.spaces.Keys, RemapSlots(s, visit).1), {x}, k)
  {
    hide RemapSlots, View.WellKeyed, Tame, FullscreenShown, Walks, Waiting, MoveTrees;
    var (r, moves) := RemapSlots(s, visit);
    var spaces := s.view.spaces.Keys;
    WaitingMovesNothing(s, visit, k, s.parked[k]);
    ShownIsObserved(s, visit, k, x);
    forall i | 0 <= i < |moves| ensures Idle(moves[i], spaces) || SparesOne(moves[i], {x}, k) {
      if moves[i].key != k {
        MoveLeadsTo(s, visit, moves[i]);
        ShownAlone(s, visit, k, s.parked[k], moves[i].key);
      }
    }
    MovesLeave(s.AllTrees(), spaces, moves, {x}, k);
  }

  lemma {:induction false} ShownIsObserved(s: State, visit: Visit, k: Key, x: SpaceId)
    requires s.view.WellKeyed() && Tame(s) && k in s.parked && Waiting(s, k, s.parked[k])
    requires ShownOn(RemapSlots(s, visit).0.reg, k) == Some(x)
    ensures x in s.view.spaces
  {
    hide RemapSlots, View.WellKeyed, Distinct, WaitsOnce, Predates;
    if s.placement.Some? {
      PlacedStay(s, visit);
    } else {
      RemapGives(s, visit, k);
    }
  }

  /** What the moves park is nobody's who shows a Space. */
  lemma {:induction false} NewlyParkedIsUnshown(s: State, visit: Visit, k: Key)
    requires s.view.WellKeyed() && Tame(s) && Walks(visit, s.view.displays.Keys) && k !in s.parked
    requires k in MoveTrees(s.AllTrees(), s.view.spaces.Keys, RemapSlots(s, visit).1).parked
    ensures ShownOn(RemapSlots(s, visit).0.reg, k) == None
  {
    hide RemapSlots, View.WellKeyed, Tame, Walks, MoveTrees;
    var moves := RemapSlots(s, visit).1;
    ParkedAfterMoves(s.AllTrees(), s.view.spaces.Keys, moves, k);
    var m :| m in moves && m.key == k && m.from == Some(m.to);
    MoveLeadsTo(s, visit, m);
  }

  lemma RemapKeepsKeys(s: State, visit: Visit)
    requires s.view.WellKeyed()
    ensures RemapSlots(s, visit).0.reg.Keys == s.reg.Keys
  {
    hide RemapSlots, View.WellKeyed;
    if s.placement.Some? {
      PlacedStay(s, visit);
    } else {
      RemapKeys(s, visit);
    }
  }

  /** Whether a tree comes back to a Space that holds one does not depend on who came back before it. */
  lemma {:induction false} CrowdedAnyTurn(s: State, visit: Visit, i: nat)
    requires s.view.WellKeyed() && Tame(s) && FullscreenShown(s) && Walks(visit, s.view.displays.Keys) && ParkedWait(s) && i < |visit.parked|
    ensures var (r, moves) := RemapSlots(s, visit);
            var t, ks := MoveTrees(s.AllTrees(), s.view.spaces.Keys, moves), visit.parked;
            Crowded(Reattach(t, r.reg, ks[..i]), r.reg, ks[i]) <==> ks[i] !in ks[..i] && Crowded(s.AllTrees(), r.reg, ks[i])
  {
    hide RemapSlots, View.WellKeyed, Tame, FullscreenShown, Walks, Waiting, MoveTrees, Reattach;
    var (r, moves) := RemapSlots(s, visit);
    var t, ks := MoveTrees(s.AllTrees(), s.view.spaces.Keys, moves), visit.parked;
    var k := ks[i];
    RemapKeepsKeys(s, visit);
    if ShownOn(r.reg, k).Some? {
      var x := ShownOn(r.reg, k).value;
      if k in t.parked && k !in s.parked {
        NewlyParkedIsUnshown(s, visit, k);
      } else if k in ks[..i] || k !in t.parked {
        ReattachedIsNotParked(t, r.reg, ks[..i], k);
        if k in s.parked {
          WaiterUntouched(s, visit, k, x);
        }
      } else {
        WaiterUntouched(s, visit, k, x);
        forall j | j in t.parked && j != k ensures ShownOn(r.reg, j) != Some(x) {
          ShownAlone(s, visit, k, s.parked[k], j);
        }
        ReattachLeaves(t, r.reg, ks[..i], x, k);
      }
    }
  }

  /**
   * As the trees stand before the stage: no workspace's tree is to move to a Space that holds one,
   * or to be parked over one, and none parked is to go back to a Space that holds one.
   */
  ghost predicate Roomy(s: State, visit: Visit)
    requires s.view.WellKeyed()
  {
    var (r, moves) := RemapSlots(s, visit);
    && (forall i | 0 <= i < |moves| :: !Occupied(s.AllTrees(), s.view.spaces.Keys, moves[i]))
    && (forall k | k in s.parked :: !Crowded(s.AllTrees(), r.reg, k))
  }

  /**
   * With workspaces' Spaces their own, the remap stage loses a tree if and only if one is to be put
   * where, before the stage, another one is; nothing depends on the order of moves and reattachments.
   */
  lemma {:induction false} RebindKeepsAllIffRoomy(s: State, visit: Visit)
    requires s.view.WellKeyed() && Tame(s) && FullscreenShown(s) && ParkedWait(s)
    requires Walks(visit, s.view.displays.Keys) && MeetsAll(s, visit)
    ensures Count(Rebind(s, visit).0.AllTrees()) == Count(s.AllTrees()) <==> Roomy(s, visit)
  {
    hide RemapSlots, View.WellKeyed, Tame, FullscreenShown, Walks, ParkedWait, MoveTrees, Reattach, Occupied, Crowded, Count, Rebind, MeetsAll;
    var (r, moves) := RemapSlots(s, visit);
    var spaces, ks := s.view.spaces.Keys, visit.parked;
    var t := MoveTrees(s.AllTrees(), spaces, moves);
    RebindLosesIff(s, visit);
    forall i | 0 <= i < |moves|
      ensures Occupied(MoveTrees(s.AllTrees(), spaces, moves[..i]), spaces, moves[i]) <==> Occupied(s.AllTrees(), spaces, moves[i])
    {
      OccupiedAnyTurn(s, visit, i);
    }
    forall i | 0 <= i < |ks|
      ensures Crowded(Reattach(t, r.reg, ks[..i]), r.reg, ks[i]) <==> ks[i] !in ks[..i] && Crowded(s.AllTrees(), r.reg, ks[i])
    {
      CrowdedAnyTurn(s, visit, i);
    }
    forall k | k in s.parked && Crowded(s.AllTrees(), r.reg, k) ensures !ReturnsClear(t, r.reg, ks) {
      CrowdedIsMet(s, visit, k);
      var i := IndexOfKey(ks, k);
      assert Crowded(Reattach(t, r.reg, ks[..i]), r.reg, ks[i]);
    }
    forall i | 0 <= i < |ks| && Crowded(s.AllTrees(), r.reg, ks[i]) ensures ks[i] in s.parked {
      CrowdedIsParked(s.AllTrees(), r.reg, ks[i]);
    }
  }

  lemma CrowdedIsParked(t: Trees, reg: Registry, k: Key)
    requires Crowded(t, reg, k)
    ensures k in t.parked && ShownOn(reg, k).Some? && k in reg
  {
  }

  lemma {:induction false} CrowdedIsMet(s: State, visit: Visit, k: Key)
    requires s.view.WellKeyed() && Tame(s) && FullscreenShown(s) && ParkedWait(s) && Walks(visit, s.view.displays.Keys) && MeetsAll(s, visit)
    requires k in s.parked && Crowded(s.AllTrees(), RemapSlots(s, visit).0.reg, k)
    ensures k in visit.parked
  {
    hide RemapSlots, View.WellKeyed, Tame, FullscreenShown, Walks, Waiting, MoveTrees;
    RemapKeepsKeys(s, visit);
    WaiterUntouched(s, visit, k, ShownOn(RemapSlots(s, visit).0.reg, k).value);
    assert Meets(s, visit, k);
  }

  // ------------------------------------------------------------------ an example

  const TWO: Key := Key(1, "2")
  const THREE: Key := Key(1, "3")

  const FIRST: Space := Space(11, 1, 0, None, true, false, false)
  const LATER: Space := Space(12, 1, 1, None, false, false, false)

  /**
   * Workspace 2, its tree parked, has just been bound to a Space made for it, on a platform that
   * cannot put it in order before the Space of workspace 3, which carries a tree of its own.
   */
  function JustBound(s: State, a: Layout, b: Layout): State {
    s.(view := View(0, false, map[], map[11 := FIRST, 12 := LATER], map[1 := Display(1, Rect(0.0, 0.0, 0.0, 0.0), true, true)]),
       reg := map[TWO := Entry("2", 1, true, false, 0, Some(Normal(12)), None), THREE := Entry("3", 1, true, false, 1, Some(Normal(11)), None)],
       layouts := map[11 := a], parked := map[TWO := b], requests := [], awaited := [], external := map[], placement := None)
  }

  lemma {:induction false} JustBoundIsSound(s: State, a: Layout, b: Layout)
    ensures var g := JustBound(s, a, b); Tame(g) && g.view.WellKeyed()
  {
    KeysApart();
  }

  lemma KeysApart()
    ensures TWO != THREE
  {
    assert TWO.name[0] != THREE.name[0];
  }

  lemma {:induction false} JustBoundWaits(s: State, a: Layout, b: Layout)
    ensures var g := JustBound(s, a, b); FullscreenShown(g) && ParkedWait(g)
  {
    KeysApart();
    hide FullscreenLost;
  }

  lemma {:induction false} NobodyHeld(s: State, a: Layout, b: Layout)
    ensures var g := JustBound(s, a, b);
            && g.reg - Held(g) == g.reg && (forall k :: !g.Expecting(k)) && SlotSpaces(g) == map[11 := FIRST, 12 := LATER]
            && g.view.displays.Keys == {1} && KeyedSpaces(SlotSpaces(g))
  {
    var g := JustBound(s, a, b);
    assert Held(g) == {};
  }

  /** Two workspaces that go by numbers take slots in the order of their numbers. */
  lemma {:induction false} LowerFirst(reg: Registry, d: DisplayId, j: Key, k: Key, m: nat, n: nat)
    requires reg.Keys == {j, k} && reg[j].display == d && reg[k].display == d && !reg[j].IsFullscreen() && !reg[k].IsFullscreen()
    requires ParseU32(reg[j].name) == Some(m) && ParseU32(reg[k].name) == Some(n) && m < n
    ensures Claimants(reg, d) == [j, k]
  {
    hide ParseU32;
    var q := [Ranked(false, m, j), Ranked(false, n, k)];
    assert RankOf(j, reg[j]) == q[0] && RankOf(k, reg[k]) == q[1];
    assert RanksOn(reg, d) == {q[0], q[1]} == Elements(q);
    RankTotal(RanksOn(reg, d));
    SortedUnique(q, RanksOn(reg, d), RankLe);
    assert KeysFor(reg, d) == KeysOf(q) == [j, k];
    KeepAll([j, k], Shown(reg));
  }

  lemma {:induction false} Digits()
    ensures ParseU32("1") == Some(1) && ParseU32("2") == Some(2) && ParseU32("3") == Some(3)
  {
    assert Decimal("1") == 1 && Decimal("2") == 2 && Decimal("3") == 3;
  }

  lemma {:induction false} FirstComesFirst(reg: Registry, spaces: map<SpaceId, Space>)
    requires spaces == map[11 := FIRST, 12 := LATER] && KeyedSpaces(spaces) && Parked(reg) == {}
    ensures var q := FreeSlots(reg, spaces, 1); |q| >= 1 && q[0] == FIRST
  {
    SlotsList(reg, spaces, 1);
    var q := FreeSlots(reg, spaces, 1);
    assert FIRST in q;
    var i :| 0 <= i < |q| && q[i] == FIRST;
    assert q[0] in q;
    assert i > 0 ==> SlotLe(q[0], q[i]);
  }

  lemma {:induction false} TwoTakesFirst(s: State, a: Layout, b: Layout, visit: Visit)
    requires JustBound(s, a, b).view.WellKeyed()
    ensures var r := RemapSlots(JustBound(s, a, b), visit).0; ShownOn(r.reg, TWO) == Some(11)
  {
    hide RemapSlots, Remapped, Held, SlotSpaces, View.WellKeyed;
    var g := JustBound(s, a, b);
    NobodyHeld(s, a, b);
    BoundRemapped(g.reg, SlotSpaces(g));
    RemapPieces(g, visit);
  }

  lemma {:induction false} BoundRemapped(reg: Registry, spaces: map<SpaceId, Space>)
    requires spaces == map[11 := FIRST, 12 := LATER] && KeyedSpaces(spaces)
    requires reg == map[TWO := Entry("2", 1, true, false, 0, Some(Normal(12)), None), THREE := Entry("3", 1, true, false, 1, Some(Normal(11)), None)]
    ensures var after := Remapped(reg, spaces, {1}); TWO in after && after[TWO].backing == Some(Normal(11))
  {
    hide Claimants, FreeSlots, ParseU32;
    assert Parked(reg) == {};
    Digits();
    KeysApart();
    LowerFirst(reg, 1, TWO, THREE, 2, 3);
    FirstComesFirst(reg, spaces);
    assert IndexOfKey([TWO, THREE], TWO) == 0;
  }

  lemma {:induction false} SoleReturn(t: Trees, reg: Registry, ks: seq<Key>, k: Key, x: SpaceId)
    requires k in ks && t.parked.Keys == {k} && ShownOn(reg, k) == Some(x)
    ensures Reattach(t, reg, ks) == Trees(t.layouts[x := t.parked[k]], map[])
    decreases |ks|
  {
    if ks[0] == k {
      var r := Returned(t, reg, k);
      assert r == Trees(t.layouts[x := t.parked[k]], map[]);
      NothingReturns(r, reg, ks[1..]);
    } else {
      SoleReturn(t, reg, ks[1..], k, x);
    }
  }

  lemma {:induction false} NothingReturns(t: Trees, reg: Registry, ks: seq<Key>)
    requires t.parked == map[]
    ensures Reattach(t, reg, ks) == t
    decreases |ks|
  {
    if ks != [] {
      NothingReturns(t, reg, ks[1..]);
    }
  }

  lemma {:induction false} IdleMovesNothing(t: Trees, spaces: set<SpaceId>, moves: seq<RemapMove>)
    requires forall i | 0 <= i < |moves| :: Idle(moves[i], spaces)
    ensures MoveTrees(t, spaces, moves) == t
    decreases |moves|
  {
    if moves != [] {
      assert Idle(moves[0], spaces);
      IdleMovesNothing(t, spaces, moves[1..]);
    }
  }

  lemma {:induction false} MovesIdle(s: State, visit: Visit)
    requires s.view.WellKeyed() && Tame(s) && Walks(visit, s.view.displays.Keys)
    requires forall k | k in s.reg && s.reg[k].Home().Some? :: s.reg[k].Home().value in s.view.spaces
    ensures var moves := RemapSlots(s, visit).1; forall i | 0 <= i < |moves| :: Idle(moves[i], s.view.spaces.Keys)
  {
    hide RemapSlots, View.WellKeyed, Tame, Walks;
    var moves := RemapSlots(s, visit).1;
    forall i | 0 <= i < |moves| ensures Idle(moves[i], s.view.spaces.Keys) {
      MoveLeadsTo(s, visit, moves[i]);
    }
  }

  lemma {:induction false} SoleRebind(s: State, visit: Visit, k: Key, x: SpaceId)
    requires s.view.WellKeyed() && (forall i | 0 <= i < |RemapSlots(s, visit).1| :: Idle(RemapSlots(s, visit).1[i], s.view.spaces.Keys))
    requires k in visit.parked && s.parked.Keys == {k} && ShownOn(RemapSlots(s, visit).0.reg, k) == Some(x)
    ensures var (r, moves) := Rebind(s, visit);
            r.layouts == s.layouts[x := s.parked[k]] && r.parked == map[] && moves == RemapSlots(s, visit).1
  {
    hide RemapSlots, MoveTrees, Reattach, View.WellKeyed, Idle;
    var (s1, moves) := RemapSlots(s, visit);
    IdleMovesNothing(s.AllTrees(), s.view.spaces.Keys, moves);
    SoleReturn(s.AllTrees(), s1.reg, visit.parked, k, x);
  }

  lemma JustBoundParts(s: State, a: Layout, b: Layout)
    ensures var g := JustBound(s, a, b);
            && g.view.displays.Keys == {1} && g.layouts == map[11 := a] && g.parked == map[TWO := b]
            && (forall k | k in g.reg && g.reg[k].Home().Some? :: g.reg[k].Home().value in g.view.spaces)
  {
  }

  lemma IdleIsFree(t: Trees, spaces: set<SpaceId>, m: RemapMove)
    requires Idle(m, spaces)
    ensures !Occupied(t, spaces, m)
  {
  }

  lemma NotRoomy(s: State, visit: Visit, k: Key)
    requires s.view.WellKeyed() && k in s.parked && Crowded(s.AllTrees(), RemapSlots(s, visit).0.reg, k)
    ensures !Roomy(s, visit)
  {
    hide RemapSlots, Crowded, Occupied, View.WellKeyed;
  }

  lemma IsCrowded(t: Trees, reg: Registry, k: Key, x: SpaceId)
    requires k in t.parked && ShownOn(reg, k) == Some(x) && x in t.layouts
    ensures Crowded(t, reg, k)
  {
  }

  /** No move goes to an occupied place, and yet the stage ends with the tree of workspace 3 gone. */
  lemma {:induction false} ReturnOverwrites(s: State, a: Layout, b: Layout, visit: Visit)
    requires JustBound(s, a, b).view.WellKeyed() && Walks(visit, {1}) && TWO in visit.parked
    ensures var g := JustBound(s, a, b); var (r, moves) := Rebind(g, visit);
            && Tame(g) && FullscreenShown(g) && ParkedWait(g) && !Roomy(g, visit)
            && (forall i | 0 <= i < |moves| :: !Occupied(g.AllTrees(), g.view.spaces.Keys, moves[i]))
            && r.layouts == map[11 := b] && r.parked == map[]
  {
    hide *;
    var g := JustBound(s, a, b);
    JustBoundIsSound(s, a, b);
    JustBoundWaits(s, a, b);
    JustBoundParts(s, a, b);
    TwoTakesFirst(s, a, b, visit);
    MovesIdle(g, visit);
    SoleRebind(g, visit, TWO, 11);
    var (r, moves) := RemapSlots(g, visit);
    forall i | 0 <= i < |moves| ensures !Occupied(g.AllTrees(), g.view.spaces.Keys, moves[i]) {
      IdleIsFree(g.AllTrees(), g.view.spaces.Keys, moves[i]);
    }
    TreesAre(g);
    IsCrowded(g.AllTrees(), r.reg, TWO, 11);
    NotRoomy(g, visit, TWO);
    assert g.layouts[11 := b] == map[11 := b];
  }

  lemma TreesAre(s: State)
    ensures s.AllTrees() == Trees(s.layouts, s.parked)
  {
  }
}
