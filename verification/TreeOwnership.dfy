/** Layout trees belong to logical workspaces and follow them when every Space id changes. */
module TreeOwnership {
  import opened Basics
  import opened Geometry
  import opened Observed
  import opened Workspace
  import opened Remap
  import opened Lifecycle
  import opened Homes

  /** The tree a workspace owns: the one parked under its key, else the one on its own Space. */
  function OwnedIn(t: Trees, reg: Registry, k: Key): Option<Layout> {
    if k in t.parked then Some(t.parked[k])
    else if k in reg && reg[k].Home().Some? && reg[k].Home().value in t.layouts then Some(t.layouts[reg[k].Home().value])
    else None
  }

  function Owned(s: State, k: Key): Option<Layout> { OwnedIn(s.AllTrees(), s.reg, k) }

  // --------------------------------------------------------------- one by one

  /** The cells that concern one workspace: some Spaces' trees, and the tree parked under its key. */
  ghost predicate SameCells(a: Trees, b: Trees, xs: set<SpaceId>, k: Key) {
    && (forall x | x in xs :: (x in a.layouts <==> x in b.layouts) && (x in a.layouts ==> a.layouts[x] == b.layouts[x]))
    && (k in a.parked <==> k in b.parked) && (k in a.parked ==> a.parked[k] == b.parked[k])
  }

  predicate SparesOne(m: RemapMove, xs: set<SpaceId>, k: Key) {
    m.from.Some? ==> m.key != k && m.to !in xs && m.from.value !in xs
  }

  ghost predicate Spares(moves: seq<RemapMove>, xs: set<SpaceId>, k: Key) {
    forall i | 0 <= i < |moves| :: SparesOne(moves[i], xs, k)
  }

  lemma {:induction false} MovesSpare(t: Trees, spaces: set<SpaceId>, moves: seq<RemapMove>, xs: set<SpaceId>, k: Key)
    requires Spares(moves, xs, k)
    ensures SameCells(t, MoveTrees(t, spaces, moves), xs, k)
    decreases |moves|
  {
    if moves != [] {
      assert SparesOne(moves[0], xs, k);
      MovesSpare(MoveTree(t, spaces, moves[0]), spaces, moves[1..], xs, k);
    }
  }

  /** What one move does to its own workspace's tree. */
  ghost predicate Carries(a: Trees, b: Trees, m: RemapMove)
    requires m.from.Some?
  {
    var f := m.from.value;
    if f !in a.layouts then SameCells(a, b, {f, m.to}, m.key)
    else
      && f !in b.layouts
      && (m.to == f ==> m.key in b.parked && b.parked[m.key] == a.layouts[f])
      && (m.to != f ==> m.to in b.layouts && b.layouts[m.to] == a.layouts[f])
      && (m.to != f ==> (m.key in a.parked <==> m.key in b.parked))
  }

  lemma {:induction false} MovesServe(t: Trees, spaces: set<SpaceId>, moves: seq<RemapMove>, i: nat)
    requires i < |moves| && moves[i].from.Some? && moves[i].from.value !in spaces
    requires forall j | 0 <= j < |moves| && j != i :: SparesOne(moves[j], {moves[i].from.value, moves[i].to}, moves[i].key)
    ensures Carries(t, MoveTrees(t, spaces, moves), moves[i])
    decreases |moves|
  {
    var m := moves[i];
    var xs := {m.from.value, m.to};
    var t1 := MoveTree(t, spaces, moves[0]);
    if i == 0 {
      MovesSpare(t1, spaces, moves[1..], xs, m.key);
    } else {
      assert SparesOne(moves[0], xs, m.key);
      assert SameCells(t, t1, xs, m.key);
      MovesServe(t1, spaces, moves[1..], i - 1);
    }
  }

  /** Reattaching the others' parked trees leaves a workspace's own cells alone. */
  lemma {:induction false} ReattachSpares(t: Trees, reg: Registry, ks: seq<Key>, xs: set<SpaceId>, k: Key)
    requires k !in t.parked || ShownOn(reg, k) == None
    requires forall j | j in t.parked && j != k && ShownOn(reg, j).Some? :: ShownOn(reg, j).value !in xs
    ensures SameCells(t, Reattach(t, reg, ks), xs, k)
    decreases |ks|
  {
    if ks != [] {
      if ks[0] in t.parked && ShownOn(reg, ks[0]).Some? {
        ReattachSpares(Trees(t.layouts[ShownOn(reg, ks[0]).value := t.parked[ks[0]]], t.parked - {ks[0]}), reg, ks[1..], xs, k);
      } else {
        ReattachSpares(t, reg, ks[1..], xs, k);
      }
    }
  }

  /** A parked tree goes back to its workspace's Space as soon as there is one. */
  lemma {:induction false} ReattachServes(t: Trees, reg: Registry, ks: seq<Key>, k: Key)
    requires k in ks && k in t.parked && ShownOn(reg, k).Some?
    requires forall j | j in t.parked && j != k && ShownOn(reg, j).Some? :: ShownOn(reg, j) != ShownOn(reg, k)
    ensures var r, x := Reattach(t, reg, ks), ShownOn(reg, k).value;
            k !in r.parked && x in r.layouts && r.layouts[x] == t.parked[k]
    decreases |ks|
  {
    var x := ShownOn(reg, k).value;
    if ks[0] in t.parked && ShownOn(reg, ks[0]).Some? {
      var t1 := Trees(t.layouts[ShownOn(reg, ks[0]).value := t.parked[ks[0]]], t.parked - {ks[0]});
      if ks[0] == k {
        ReattachSpares(t1, reg, ks[1..], {x}, k);
      } else {
        ReattachServes(t1, reg, ks[1..], k);
      }
    } else {
      ReattachServes(t, reg, ks[1..], k);
    }
  }

  // ---------------------------------------------------------- what a move loses

  /** The place a move would put a tree already holds one. */
  predicate Occupied(t: Trees, spaces: set<SpaceId>, m: RemapMove) {
    && m.from.Some? && m.from.value !in spaces && m.from.value in t.layouts
    && if m.from.value == m.to then m.key in t.parked else m.to in t.layouts
  }

  lemma {:induction false} CountAfter<K, V>(m: map<K, V>, k: K, v: V)
    ensures |m[k := v]| == |m| + if k in m then 0 else 1
    ensures k in m ==> |m - {k}| == |m| - 1
  {
    assert m[k := v].Keys == m.Keys + {k};
    assert |m[k := v].Keys| == |m[k := v]| && |m.Keys| == |m|;
    if k in m {
      assert (m - {k}).Keys == m.Keys - {k};
      assert |(m - {k}).Keys| == |m - {k}|;
    }
  }

  /** A move loses a tree if and only if where it goes is occupied, and then exactly the one that was there. */
  lemma {:induction false} MoveLosesIffOccupied(t: Trees, spaces: set<SpaceId>, m: RemapMove)
    ensures var r := MoveTree(t, spaces, m);
            |r.layouts| + |r.parked| == |t.layouts| + |t.parked| - if Occupied(t, spaces, m) then 1 else 0
  {
    if m.from.Some? && m.from.value !in spaces && m.from.value in t.layouts {
      var tree := t.layouts[m.from.value];
      CountAfter(t.layouts, m.from.value, tree);
      if m.from.value == m.to {
        CountAfter(t.parked, m.key, tree);
      } else {
        CountAfter(t.layouts - {m.from.value}, m.to, tree);
      }
    }
  }

  // ----------------------------------------------------------- a whole remap

  /** Every Space changed: old owners' Spaces are gone, new ones carry no trees yet. */
  ghost predicate AllChanged(t: Trees, before: Registry, after: Registry, spaces: set<SpaceId>) {
    && before.Keys == after.Keys && Distinct(before) && Distinct(after)
    && (forall k | k in before :: !before[k].IsFullscreen() && !after[k].IsFullscreen())
    && (forall k | k in before && before[k].Home().Some? :: before[k].Home().value !in spaces)
    && (forall k | k in before && after[k].Home().Some? :: after[k].Home().value in spaces)
    && (forall x | x in spaces :: x !in t.layouts)
    && (forall k | k in t.parked && k in before :: before[k].backing == None)
  }

  /** The moves reported for a remap, display by display. */
  ghost predicate Reports(moves: seq<RemapMove>, before: Registry, after: Registry, displays: set<DisplayId>)
    requires before.Keys == after.Keys
  {
    && KeysDiffer(moves)
    && forall m :: m in moves <==> m.key in before && before[m.key].display in displays && MoveOf(m.key, before[m.key], after[m.key]) == [m]
  }

  /** Nobody else's move touches a workspace's old or new Space. */
  lemma {:induction false} OthersSpare(t: Trees, before: Registry, after: Registry, spaces: set<SpaceId>, displays: set<DisplayId>,
                                       moves: seq<RemapMove>, j: nat, k: Key)
    requires AllChanged(t, before, after, spaces) && Reports(moves, before, after, displays) && k in before
    requires j < |moves| && moves[j].key != k
    ensures SparesOne(moves[j], Cells(before[k], after[k]), k)
  {
    var m := moves[j];
    assert m in moves;
  }

  /** The Spaces a workspace had and has. */
  function Cells(before: Entry, after: Entry): set<SpaceId> {
    (if before.Home().Some? then {before.Home().value} else {}) + (if after.Home().Some? then {after.Home().value} else {})
  }

  lemma SparesFewer(m: RemapMove, xs: set<SpaceId>, ys: set<SpaceId>, k: Key)
    requires SparesOne(m, xs, k) && ys <= xs
    ensures SparesOne(m, ys, k)
  {
  }

  /** The moves take a workspace's tree from its old Space to its new one, or park it. */
  lemma {:induction false} MovesCarryTree(t: Trees, before: Registry, after: Registry, spaces: set<SpaceId>, displays: set<DisplayId>,
                                          moves: seq<RemapMove>, k: Key)
    requires AllChanged(t, before, after, spaces) && Reports(moves, before, after, displays)
    requires k in before && before[k].display in displays && before[k].Home().Some?
    ensures OwnedIn(MoveTrees(t, spaces, moves), after, k) == OwnedIn(t, before, k)
    ensures k in MoveTrees(t, spaces, moves).parked ==> after[k].backing == None
  {
    hide MoveTrees, Distinct;
    var h := before[k].Home().value;
    assert before[k].ActiveSpace() == Some(h) && after[k].ActiveSpace() != Some(h);
    var m := RemapMove(k, Some(h), if after[k].Home().Some? then after[k].Home().value else h);
    assert MoveOf(k, before[k], after[k]) == [m];
    assert m in moves;
    var i :| 0 <= i < |moves| && moves[i] == m;
    forall j | 0 <= j < |moves| && j != i ensures SparesOne(moves[j], {h, m.to}, k) {
      assert moves[j].key != k;
      OthersSpare(t, before, after, spaces, displays, moves, j, k);
      SparesFewer(moves[j], Cells(before[k], after[k]), {h, m.to}, k);
    }
    MovesServe(t, spaces, moves, i);
  }

  /** Moves of workspaces that had a Space do not touch one that had none. */
  lemma {:induction false} MovesSpareUnbacked(t: Trees, before: Registry, after: Registry, spaces: set<SpaceId>, displays: set<DisplayId>,
                                              moves: seq<RemapMove>, k: Key)
    requires AllChanged(t, before, after, spaces) && Reports(moves, before, after, displays)
    requires k in before ==> before[k].Home().None?
    ensures SameCells(t, MoveTrees(t, spaces, moves), if k in before then Cells(before[k], after[k]) else {}, k)
  {
    hide Distinct;
    var xs := if k in before then Cells(before[k], after[k]) else {};
    forall j | 0 <= j < |moves| ensures SparesOne(moves[j], xs, k) {
      assert moves[j] in moves;
      if k in before && moves[j].key != k {
        OthersSpare(t, before, after, spaces, displays, moves, j, k);
      }
    }
    MovesSpare(t, spaces, moves, xs, k);
  }

  lemma {:induction false} ShownApart(t: Trees, before: Registry, after: Registry, reg: Registry, spaces: set<SpaceId>, j: Key, k: Key)
    requires AllChanged(t, before, after, spaces) && j != k && ShownOn(reg, j).Some?
    requires forall i | i in before :: i in reg && reg[i] == after[i]
    requires forall i | i in reg && i !in before :: reg[i].backing == None
    ensures ShownOn(reg, j) != ShownOn(reg, k)
    ensures k in before ==> after[k].Home() != ShownOn(reg, j)
  {
    assert j in before;
    if k in before {
      assert after[j].Home() != after[k].Home();
    }
  }

  lemma ChangedKeys(t: Trees, before: Registry, after: Registry, spaces: set<SpaceId>)
    requires AllChanged(t, before, after, spaces)
    ensures before.Keys == after.Keys && forall k | k in before :: !before[k].IsFullscreen() && !after[k].IsFullscreen()
  {
    hide Distinct;
  }

  /** After the moves a workspace owns the tree it owned, parked only if it has no Space or had one parked before. */
  lemma {:induction false} MovesKeepOwn(t: Trees, before: Registry, after: Registry, spaces: set<SpaceId>, displays: set<DisplayId>,
                                        moves: seq<RemapMove>, k: Key)
    requires AllChanged(t, before, after, spaces) && Reports(moves, before, after, displays)
    requires k in before ==> before[k].display in displays
    ensures var t1 := MoveTrees(t, spaces, moves);
            && (k in before ==> OwnedIn(t1, after, k) == OwnedIn(t, before, k))
            && (k !in before ==> (k in t.parked <==> k in t1.parked) && (k in t.parked ==> t1.parked[k] == t.parked[k]))
  {
    hide MoveTrees, Distinct, Reports;
    if k in before && before[k].Home().Some? {
      MovesCarryTree(t, before, after, spaces, displays, moves, k);
    } else {
      MovesSpareUnbacked(t, before, after, spaces, displays, moves, k);
    }
  }

  /** With the moves made and parked trees reattached, every workspace has the tree it had. */
  lemma {:induction false} RemapKeepsTree(t: Trees, before: Registry, after: Registry, reg: Registry, spaces: set<SpaceId>,
                                          displays: set<DisplayId>, moves: seq<RemapMove>, ks: seq<Key>, k: Key)
    requires AllChanged(t, before, after, spaces) && Reports(moves, before, after, displays)
    requires k in before ==> before[k].display in displays
    requires forall j | j in before :: j in reg && reg[j] == after[j]
    requires forall j | j in reg && j !in before :: reg[j].backing == None
    requires k in MoveTrees(t, spaces, moves).parked ==> k in ks
    ensures var r := Reattach(MoveTrees(t, spaces, moves), reg, ks);
            OwnedIn(r, reg, k) == OwnedIn(t, before, k) && (k in r.parked && k in reg ==> reg[k].backing == None)
  {
    hide MoveTrees, AllChanged, Reports, Reattach;
    ChangedKeys(t, before, after, spaces);
    var t1 := MoveTrees(t, spaces, moves);
    var xs := if k in before && after[k].Home().Some? then {after[k].Home().value} else {};
    MovesKeepOwn(t, before, after, spaces, displays, moves, k);
    forall j | j in t1.parked && j != k && ShownOn(reg, j).Some? ensures ShownOn(reg, j).value !in xs && ShownOn(reg, j) != ShownOn(reg, k) {
      ShownApart(t, before, after, reg, spaces, j, k);
    }
    if k in t1.parked && ShownOn(reg, k).Some? {
      ReattachServes(t1, reg, ks, k);
    } else {
      ReattachSpares(t1, reg, ks, xs, k);
    }
  }

  // -------------------------------------------------------------- whole states

  ghost predicate NoneFullscreen(reg: Registry) {
    forall k | k in reg :: !reg[k].IsFullscreen()
  }

  /** Every Space there is now is new: nothing is laid out on it and nobody owned it before. */
  ghost predicate AllNew(s: State, spaces: set<SpaceId>) {
    && (forall x | x in spaces :: x !in s.layouts)
    && (forall k | k in s.reg && s.reg[k].Home().Some? :: s.reg[k].Home().value !in spaces)
  }

  /** A tree is parked only while its workspace has no Space. */
  ghost predicate OneTree(s: State) {
    forall k | k in s.parked && k in s.reg :: s.reg[k].backing == None
  }

  /** The displays are walked in some order, each once. */
  ghost predicate Walks(visit: Visit, displays: set<DisplayId>) {
    NoDup(visit.displays) && Elements(visit.displays) == displays
  }

  lemma {:induction false} RemapNewHomes(free: Registry, spaces: map<SpaceId, Space>, displays: set<DisplayId>)
    requires KeyedSpaces(spaces) && NoneFullscreen(free)
    ensures var after := Remapped(free, spaces, displays);
            && after.Keys == free.Keys && Distinct(after) && NoneFullscreen(after)
            && forall k | k in after && after[k].Home().Some? :: after[k].Home().value in spaces
  {
    RemapIsSound(free, spaces, displays);
    FullscreenStay(free, spaces, displays);
    RemapSameKeys(free, spaces, displays);
    hide Remapped;
    var after := Remapped(free, spaces, displays);
    forall k | k in after && after[k].Home().Some? ensures ShowsNormal(after[k]) {
    }
  }

  lemma RemapSameKeys(free: Registry, spaces: map<SpaceId, Space>, displays: set<DisplayId>)
    requires KeyedSpaces(spaces)
    ensures Remapped(free, spaces, displays).Keys == free.Keys
  {
    hide Rebound;
  }

  lemma {:induction false} RemapChangesAll(s: State)
    requires s.view.WellKeyed() && Tame(s) && NoneFullscreen(s.reg) && AllNew(s, s.view.spaces.Keys) && OneTree(s)
    ensures var free := s.reg - Held(s);
            AllChanged(s.AllTrees(), free, Remapped(free, SlotSpaces(s), s.view.displays.Keys), s.view.spaces.Keys)
  {
    var free := s.reg - Held(s);
    assert forall k | k in free :: k in s.reg && free[k] == s.reg[k];
    RemapNewHomes(free, SlotSpaces(s), s.view.displays.Keys);
    hide Remapped, Held, View.WellKeyed, WaitersUnbacked, WaitsOnce, Predates;
  }

  lemma {:induction false} RemapReports(s: State, visit: Visit)
    requires s.view.WellKeyed() && NoneFullscreen(s.reg) && s.placement == None
    requires Walks(visit, s.view.displays.Keys)
    ensures var free := s.reg - Held(s);
            var after := Remapped(free, SlotSpaces(s), s.view.displays.Keys);
            after.Keys == free.Keys && Reports(RemapSlots(s, visit).1, free, after, s.view.displays.Keys)
  {
    var free := s.reg - Held(s);
    var after := Remapped(free, SlotSpaces(s), s.view.displays.Keys);
    assert forall d :: d in visit.displays <==> d in Elements(visit.displays);
    MovesAreChanges(free, after, visit.displays);
    hide Rebound, Held, RemapMoves;
  }

  /** When every Space id has changed, rebinding leaves every workspace the tree it owned. */
  lemma {:induction false} RebindKeepsTrees(s: State, visit: Visit, k: Key)
    requires s.view.WellKeyed() && Tame(s) && NoneFullscreen(s.reg) && AllNew(s, s.view.spaces.Keys) && OneTree(s) && s.placement == None
    requires Walks(visit, s.view.displays.Keys) && Meets(s, visit, k) && (k in s.reg ==> s.reg[k].display in s.view.displays)
    ensures var r := Rebind(s, visit).0;
            Owned(r, k) == Owned(s, k) && (k in r.parked && k in r.reg ==> r.reg[k].backing == None)
  {
    hide RemapSlots, Remapped, Tame, AllNew, AllChanged, Reports, MoveTrees, Reattach, View.WellKeyed, NoneFullscreen, OneTree, Walks, Held;
    RemapChangesAll(s);
    RemapReports(s, visit);
    RemapPieces(s, visit);
    HeldUnbacked(s);
    SlotsKeyed(s);
    var free := s.reg - Held(s);
    var after := Remapped(free, SlotSpaces(s), s.view.displays.Keys);
    var (s1, moves) := RemapSlots(s, visit);
    RemapKeepsTree(s.AllTrees(), free, after, s1.reg, s.view.spaces.Keys, s.view.displays.Keys, moves, visit.parked, k);
  }

  lemma SlotsKeyed(s: State)
    requires s.view.WellKeyed()
    ensures KeyedSpaces(SlotSpaces(s))
  {
  }

  lemma HeldUnbacked(s: State)
    requires Tame(s)
    ensures forall k | k in s.reg && s.Expecting(k) :: s.reg[k].backing == None
    ensures forall k :: k in s.reg - Held(s) <==> k in s.reg && !s.Expecting(k)
  {
  }
}
