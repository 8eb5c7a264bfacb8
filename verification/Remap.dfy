/** Re-deriving every workspace's backing Space from what a complete snapshot shows. */
module Remap {
  import opened Basics
  import opened Geometry
  import opened Observed
  import opened Workspace

  datatype RemapMove = RemapMove(key: Key, from: Option<SpaceId>, to: SpaceId)

  ghost predicate KeyedSpaces(spaces: map<SpaceId, Space>) {
    forall s | s in spaces :: spaces[s].id == s
  }

  /** Spaces a native fullscreen window will come back to. */
  function Parked(reg: Registry): set<SpaceId> {
    set k | k in reg && reg[k].IsFullscreen() :: reg[k].backing.value.restoreSpace
  }

  function FreeSet(parked: set<SpaceId>, spaces: map<SpaceId, Space>, d: DisplayId): set<Space> {
    set s | s in spaces && spaces[s].Ordinary() && spaces[s].display == d && spaces[s].id !in parked :: spaces[s]
  }

  ghost function InOrder(parked: set<SpaceId>, spaces: map<SpaceId, Space>, d: DisplayId): seq<Space>
    requires KeyedSpaces(spaces)
  {
    SlotTotal(FreeSet(parked, spaces, d));
    Sorted(FreeSet(parked, spaces, d), SlotLe)
  }

  /** A display's free ordinary Spaces, in native order. */
  ghost function FreeSlots(reg: Registry, spaces: map<SpaceId, Space>, d: DisplayId): seq<Space>
    requires KeyedSpaces(spaces)
  {
    InOrder(Parked(reg), spaces, d)
  }

  function Shown(reg: Registry): set<Key> { set k | k in reg && !reg[k].IsFullscreen() }

  /** The workspaces of a display that take slots, in name order. */
  ghost function Claimants(reg: Registry, d: DisplayId): seq<Key> {
    Keep(KeysFor(reg, d), Shown(reg))
  }

  function IndexOfKey(ks: seq<Key>, k: Key): (i: nat)
    ensures i <= |ks| && (k in ks ==> i < |ks| && ks[i] == k) && k !in ks[..i]
  {
    if ks == [] || ks[0] == k then 0 else 1 + IndexOfKey(ks[1..], k)
  }

  function Bound(e: Entry, slots: seq<Space>, i: nat): Entry {
    if i < |slots| then e.(backing := Some(Normal(slots[i].id)), lastPosition := Some(slots[i].position))
    else e.(backing := None, lastPosition := None)
  }

  /** The k-th workspace of a display takes the k-th free slot of that display. */
  ghost function Rebound(reg: Registry, spaces: map<SpaceId, Space>, displays: set<DisplayId>, k: Key): Entry
    requires KeyedSpaces(spaces) && k in reg
  {
    var e := reg[k];
    if e.display !in displays then e.(backing := None, lastPosition := None)
    else if e.IsFullscreen() then e
    else Bound(e, FreeSlots(reg, spaces, e.display), IndexOfKey(Claimants(reg, e.display), k))
  }

  ghost function Remapped(reg: Registry, spaces: map<SpaceId, Space>, displays: set<DisplayId>): Registry
    requires KeyedSpaces(spaces)
  {
    map k | k in reg :: Rebound(reg, spaces, displays, k)
  }

  /** The report for one workspace: where its Space was and where it is, if that changed. */
  function MoveOf(k: Key, before: Entry, after: Entry): seq<RemapMove> {
    var from, to := before.ActiveSpace(), after.ActiveSpace();
    if from == to then []
    else [RemapMove(k, from, if to.Some? then to.value else from.value)]
  }

  function MovesOver(ks: seq<Key>, before: Registry, after: Registry): seq<RemapMove>
    requires forall k | k in ks :: k in before && k in after
  {
    if ks == [] then []
    else MovesOver(ks[..|ks| - 1], before, after) + MoveOf(ks[|ks| - 1], before[ks[|ks| - 1]], after[ks[|ks| - 1]])
  }

  ghost function MovesOn(reg: Registry, after: Registry, d: DisplayId): seq<RemapMove>
    requires reg.Keys == after.Keys
  {
    KeysForLists(reg, d);
    MovesOver(Claimants(reg, d), reg, after)
  }

  ghost function RemapMoves(reg: Registry, after: Registry, order: seq<DisplayId>): seq<RemapMove>
    requires reg.Keys == after.Keys
  {
    if order == [] then []
    else
      RemapMoves(reg, after, order[..|order| - 1]) + MovesOn(reg, after, order[|order| - 1])
  }

  // ------------------------------------------------------------ what it means

  lemma {:induction false} SlotsList(reg: Registry, spaces: map<SpaceId, Space>, d: DisplayId)
    requires KeyedSpaces(spaces)
    ensures NoDup(FreeSlots(reg, spaces, d)) && SortedBy(FreeSlots(reg, spaces, d), SlotLe)
    ensures forall x :: x in FreeSlots(reg, spaces, d) <==>
                        x.id in spaces && spaces[x.id] == x && x.Ordinary() && x.display == d && x.id !in Parked(reg)
  {
    var free := FreeSet(Parked(reg), spaces, d);
    SlotTotal(free);
    SortedIsOrdered(free, SlotLe);
    assert forall x :: x in Sorted(free, SlotLe) <==> x in Elements(Sorted(free, SlotLe));
  }

  lemma {:induction false} ClaimantsList(reg: Registry, d: DisplayId)
    ensures NoDup(Claimants(reg, d))
    ensures forall k :: k in Claimants(reg, d) <==> k in reg && reg[k].display == d && !reg[k].IsFullscreen()
  {
    KeysForLists(reg, d);
    KeepNoDup(KeysFor(reg, d), Shown(reg));
  }

  /** Where a Normal binding comes from: its own place in the claim order. */
  lemma {:induction false} BindingIsSlot(reg: Registry, spaces: map<SpaceId, Space>, displays: set<DisplayId>, k: Key)
    returns (i: nat)
    requires KeyedSpaces(spaces) && k in reg
    requires var b := Remapped(reg, spaces, displays)[k].backing; b.Some? && b.value.Normal?
    ensures reg[k].display in displays && !reg[k].IsFullscreen()
    ensures var cs, slots := Claimants(reg, reg[k].display), FreeSlots(reg, spaces, reg[k].display);
            i < |cs| && i < |slots| && cs[i] == k
            && Remapped(reg, spaces, displays)[k].backing == Some(Normal(slots[i].id))
  {
    ClaimantsList(reg, reg[k].display);
    i := IndexOfKey(Claimants(reg, reg[k].display), k);
  }

  /**
   * Safety of every remap: a Normal binding is an observed, ordinary Space on the workspace's own
   * display and never a parked one, and no two workspaces share one.
   */
  lemma {:induction false} RemapIsSound(reg: Registry, spaces: map<SpaceId, Space>, displays: set<DisplayId>)
    requires KeyedSpaces(spaces)
    ensures forall k | k in reg ::
              var b := Remapped(reg, spaces, displays)[k].backing;
              b.Some? && b.value.Normal? ==>
                && reg[k].display in displays && b.value.space in spaces && b.value.space !in Parked(reg)
                && spaces[b.value.space].Ordinary() && spaces[b.value.space].display == reg[k].display
    ensures forall j, k | j in reg && k in reg && j != k ::
              var a, b := Remapped(reg, spaces, displays)[j].backing, Remapped(reg, spaces, displays)[k].backing;
              a.Some? && a.value.Normal? && b.Some? && b.value.Normal? ==> a != b
  {
    var after := Remapped(reg, spaces, displays);
    forall k | k in reg && after[k].backing.Some? && after[k].backing.value.Normal?
      ensures var s := after[k].backing.value.space;
              && reg[k].display in displays && s in spaces && s !in Parked(reg)
              && spaces[s].Ordinary() && spaces[s].display == reg[k].display
    {
      var i := BindingIsSlot(reg, spaces, displays, k);
      SlotsList(reg, spaces, reg[k].display);
      assert FreeSlots(reg, spaces, reg[k].display)[i] in FreeSlots(reg, spaces, reg[k].display);
    }
    forall j, k | j in reg && k in reg && j != k
                  && after[j].backing.Some? && after[j].backing.value.Normal?
                  && after[k].backing.Some? && after[k].backing.value.Normal?
      ensures after[j].backing != after[k].backing
    {
      var a := BindingIsSlot(reg, spaces, displays, j);
      var b := BindingIsSlot(reg, spaces, displays, k);
      SlotsList(reg, spaces, reg[j].display);
      SlotsList(reg, spaces, reg[k].display);
      var x, y := FreeSlots(reg, spaces, reg[j].display)[a], FreeSlots(reg, spaces, reg[k].display)[b];
      assert x in FreeSlots(reg, spaces, reg[j].display) && y in FreeSlots(reg, spaces, reg[k].display);
      if reg[j].display == reg[k].display {
        assert a != b && x != y;
      }
    }
  }

  /** No slot is skipped: a workspace goes without a Space only when its display has none left. */
  lemma {:induction false} RemapSkipsNoSlot(reg: Registry, spaces: map<SpaceId, Space>, displays: set<DisplayId>, k: Key, x: Space)
    requires KeyedSpaces(spaces) && k in reg && reg[k].display in displays && !reg[k].IsFullscreen()
    requires x in FreeSlots(reg, spaces, reg[k].display) && Remapped(reg, spaces, displays)[k].backing == None
    ensures exists j :: j in reg && reg[j].display == reg[k].display
                        && Remapped(reg, spaces, displays)[j].backing == Some(Normal(x.id))
  {
    var d := reg[k].display;
    var cs, slots := Claimants(reg, d), FreeSlots(reg, spaces, d);
    ClaimantsList(reg, d);
    var i :| 0 <= i < |slots| && slots[i] == x;
    var n := IndexOfKey(cs, k);
    assert |slots| <= n;
    var j := cs[i];
    assert j in cs;
    IndexOfAt(cs, i);
    assert Remapped(reg, spaces, displays)[j].backing == Some(Normal(x.id));
  }

  lemma {:induction false} IndexOfAt(ks: seq<Key>, i: nat)
    requires NoDup(ks) && i < |ks|
    ensures IndexOfKey(ks, ks[i]) == i
  {
    var j := IndexOfKey(ks, ks[i]);
    assert ks[i] in ks;
    assert forall a | 0 <= a < j :: ks[a] in ks[..j];
  }

  /** One display's Spaces cannot affect another display's bindings. */
  lemma {:induction false} RemapIsLocal(
    reg: Registry, spaces: map<SpaceId, Space>, others: map<SpaceId, Space>, displays: set<DisplayId>, k: Key)
    requires KeyedSpaces(spaces) && KeyedSpaces(others) && k in reg
    requires forall s :: (s in spaces && spaces[s].display == reg[k].display)
                         <==> (s in others && others[s].display == reg[k].display)
    requires forall s | s in spaces && spaces[s].display == reg[k].display :: others[s] == spaces[s]
    ensures Remapped(reg, spaces, displays)[k] == Remapped(reg, others, displays)[k]
  {
    var d := reg[k].display;
    var a, b := FreeSet(Parked(reg), spaces, d), FreeSet(Parked(reg), others, d);
    forall x ensures x in a <==> x in b {
      if x in a {
        assert x.id in others && others[x.id] == x;
      }
      if x in b {
        assert x.id in others && x.id in spaces && spaces[x.id] == x;
      }
    }
    assert a == b;
  }

  /** Remapping again changes nothing, when no native-fullscreen workspace sits on an unobserved display. */
  lemma {:induction false} RemapTwice(reg: Registry, spaces: map<SpaceId, Space>, displays: set<DisplayId>)
    requires KeyedSpaces(spaces)
    requires forall k | k in reg && reg[k].IsFullscreen() :: reg[k].display in displays
    ensures Remapped(Remapped(reg, spaces, displays), spaces, displays) == Remapped(reg, spaces, displays)
  {
    var after := Remapped(reg, spaces, displays);
    RemapKeepsShape(reg, spaces, displays);
    hide Parked, Shown;
    forall k | k in reg ensures Rebound(after, spaces, displays, k) == after[k] {
      KeysForAgree(reg, after, reg[k].display);
    }
  }

  /** With every fullscreen workspace's display observed, the remap moves nobody in or out of fullscreen. */
  lemma {:induction false} RemapKeepsShape(reg: Registry, spaces: map<SpaceId, Space>, displays: set<DisplayId>)
    requires KeyedSpaces(spaces)
    requires forall k | k in reg && reg[k].IsFullscreen() :: reg[k].display in displays
    ensures var after := Remapped(reg, spaces, displays);
            && after.Keys == reg.Keys && Shown(after) == Shown(reg) && Parked(after) == Parked(reg)
            && forall k | k in reg :: after[k].display == reg[k].display && after[k].name == reg[k].name && after[k].ordinal == reg[k].ordinal
  {
    hide FreeSlots, Claimants;
    var after := Remapped(reg, spaces, displays);
    forall k | k in reg
      ensures after[k].display == reg[k].display && after[k].name == reg[k].name
              && after[k].ordinal == reg[k].ordinal && (after[k].IsFullscreen() <==> reg[k].IsFullscreen())
              && (reg[k].IsFullscreen() ==> after[k] == reg[k])
    {
    }
    forall s ensures s in Parked(after) <==> s in Parked(reg) {
      if s in Parked(after) {
        var k :| k in after && after[k].IsFullscreen() && after[k].backing.value.restoreSpace == s;
        assert k in reg && reg[k].IsFullscreen() && reg[k].backing.value.restoreSpace == s;
      }
      if s in Parked(reg) {
        var k :| k in reg && reg[k].IsFullscreen() && reg[k].backing.value.restoreSpace == s;
        assert k in after && after[k].IsFullscreen() && after[k].backing.value.restoreSpace == s;
      }
    }
  }

  ghost predicate KeysDiffer(moves: seq<RemapMove>) {
    forall i, j | 0 <= i < j < |moves| :: moves[i].key != moves[j].key
  }

  lemma {:induction false} KeysDifferConcat(a: seq<RemapMove>, b: seq<RemapMove>)
    requires KeysDiffer(a) && KeysDiffer(b)
    requires forall x, y | x in a && y in b :: x.key != y.key
    ensures KeysDiffer(a + b)
  {
    forall i, j | 0 <= i < j < |a + b| ensures (a + b)[i].key != (a + b)[j].key {
      if i < |a| <= j {
        assert a[i] in a && b[j - |a|] in b;
      }
    }
  }

  lemma {:induction false} MovesOverLists(ks: seq<Key>, before: Registry, after: Registry)
    requires NoDup(ks) && forall k | k in ks :: k in before && k in after
    ensures forall m :: m in MovesOver(ks, before, after) <==>
                        m.key in ks && MoveOf(m.key, before[m.key], after[m.key]) == [m]
    ensures KeysDiffer(MovesOver(ks, before, after))
    decreases |ks|
  {
    if ks != [] {
      var last, rest := ks[|ks| - 1], ks[..|ks| - 1];
      MovesOverLists(rest, before, after);
      assert ks == rest + [last] && last !in rest;
      var tail := MoveOf(last, before[last], after[last]);
      assert forall m | m in tail :: m.key == last && tail == [m];
      KeysDifferConcat(MovesOver(rest, before, after), tail);
    }
  }

  /**
   * Every reported move is a workspace of an observed display whose active Space changed, every
   * such workspace is reported, and none twice.
   */
  lemma {:induction false} MovesAreChanges(reg: Registry, after: Registry, order: seq<DisplayId>)
    requires reg.Keys == after.Keys && NoDup(order)
    requires forall k | k in reg && reg[k].IsFullscreen() && reg[k].display in order :: after[k] == reg[k]
    ensures forall m :: m in RemapMoves(reg, after, order) <==>
              m.key in reg && reg[m.key].display in order && MoveOf(m.key, reg[m.key], after[m.key]) == [m]
    ensures KeysDiffer(RemapMoves(reg, after, order))
    decreases |order|
  {
    if order != [] {
      var d, rest := order[|order| - 1], order[..|order| - 1];
      assert order == rest + [d] && d !in rest;
      MovesAreChanges(reg, after, rest);
      ClaimantsList(reg, d);
      KeysForLists(reg, d);
      MovesOverLists(Claimants(reg, d), reg, after);
      var a, b := RemapMoves(reg, after, rest), MovesOver(Claimants(reg, d), reg, after);
      KeysDifferConcat(a, b);
      forall m: RemapMove ensures m in a + b <==>
          m.key in reg && reg[m.key].display in order && MoveOf(m.key, reg[m.key], after[m.key]) == [m]
      {
        if m.key in reg && reg[m.key].IsFullscreen() && reg[m.key].display == d {
          assert MoveOf(m.key, reg[m.key], after[m.key]) == [];
        }
      }
    }
  }

  // ------------------------------------------------------------ the algorithm

  class WorkspaceRegistry {
    var entries: Registry

    constructor (initial: Registry)
      ensures entries == initial
    {
      entries := initial;
    }

    /** A display's free Spaces, gathered from the hash map and sorted. */
    method CollectSlots(parked: set<SpaceId>, spaces: map<SpaceId, Space>, d: DisplayId) returns (slots: seq<Space>)
      requires KeyedSpaces(spaces)
      ensures slots == InOrder(parked, spaces, d)
    {
      slots := [];
      var rest := spaces.Keys;
      while rest != {}
        invariant rest <= spaces.Keys && NoDup(slots)
        invariant forall x :: x in slots <==>
                    x.id in spaces && x.id !in rest && spaces[x.id] == x
                    && x.Ordinary() && x.display == d && x.id !in parked
        decreases |rest|
      {
        var s :| s in rest;
        var x := spaces[s];
        if x.Ordinary() && x.display == d && x.id !in parked {
          slots := slots + [x];
        }
        rest := rest - {s};
      }
      assert Elements(slots) == FreeSet(parked, spaces, d);
      SlotTotal(Elements(slots));
      slots := SortSeq(slots, SlotLe);
    }

    /**
     * Displays are visited in some order and each hands its free Spaces out one by one. Whatever
     * the order of displays and of the hash maps, the outcome is the one `Remapped` describes.
     */
    method RemapAfterSnapshot(spaces: map<SpaceId, Space>, order: seq<DisplayId>) returns (moves: seq<RemapMove>)
      requires KeyedSpaces(spaces) && NoDup(order)
      modifies this
      ensures entries == Remapped(old(entries), spaces, Elements(order))
      ensures moves == RemapMoves(old(entries), entries, order)
    {
      ghost var reg := entries;
      ghost var goal := Remapped(reg, spaces, Elements(order));
      var parked := Parked(entries);
      entries := map k | k in entries ::
        if entries[k].display in order then entries[k]
        else entries[k].(backing := None, lastPosition := None);
      GoalOf(reg, spaces, order);
      hide Remapped, Assigned;
      moves := VisitDisplays(parked, spaces, order, reg, goal);
      assert entries == goal;
    }

    method VisitDisplays(parked: set<SpaceId>, spaces: map<SpaceId, Space>, order: seq<DisplayId>, ghost reg: Registry, ghost goal: Registry)
      returns (moves: seq<RemapMove>)
      requires KeyedSpaces(spaces) && NoDup(order) && parked == Parked(reg) && entries.Keys == reg.Keys == goal.Keys
      requires forall k | k in reg :: entries[k].display == reg[k].display && entries[k].name == reg[k].name
                                      && entries[k].ordinal == reg[k].ordinal
                                      && goal[k].display == reg[k].display && goal[k].name == reg[k].name
                                      && goal[k].ordinal == reg[k].ordinal
      requires forall k | k in reg && reg[k].display in order ::
                 entries[k] == reg[k] && goal[k] == Assigned(reg, spaces, reg[k].display, k)
      modifies this
      ensures entries.Keys == reg.Keys
      ensures forall k | k in reg :: entries[k] == if reg[k].display in order then goal[k] else old(entries)[k]
      ensures moves == RemapMoves(reg, goal, order)
    {
      hide Assigned, MovesOn, Parked, NoDup;
      moves := [];
      for n := 0 to |order|
        invariant entries.Keys == reg.Keys
        invariant forall k | k in reg :: entries[k] == if reg[k].display in order[..n] then goal[k] else old(entries)[k]
        invariant moves == RemapMoves(reg, goal, order[..n])
      {
        NextDisplay(order, n);
        var batch := AssignDisplay(parked, spaces, order[n], reg, goal);
        moves := moves + batch;
      }
      assert order[..|order|] == order;
    }

    /** One display hands its free Spaces out, one by one, to its workspaces in name order. */
    method AssignDisplay(parked: set<SpaceId>, spaces: map<SpaceId, Space>, d: DisplayId, ghost reg: Registry, ghost goal: Registry)
      returns (moves: seq<RemapMove>)
      requires KeyedSpaces(spaces) && parked == Parked(reg) && entries.Keys == reg.Keys == goal.Keys
      requires forall k | k in reg :: entries[k].display == reg[k].display && entries[k].name == reg[k].name
                                      && entries[k].ordinal == reg[k].ordinal
      requires forall k | k in reg && reg[k].display == d :: entries[k] == reg[k] && goal[k] == Assigned(reg, spaces, d, k)
      modifies this
      ensures entries.Keys == reg.Keys
      ensures forall k | k in reg :: entries[k] == if reg[k].display == d then goal[k] else old(entries)[k]
      ensures moves == MovesOn(reg, goal, d)
    {
      var available := CollectSlots(parked, spaces, d);
      var keys := CollectKeys(entries, d);
      KeysForAgree(entries, reg, d);
      KeysForLists(reg, d);
      AssignedByPlace(reg, spaces, d);
      moves := HandOut(keys, available, Shown(reg), reg, goal);
      MovesOnIs(reg, goal, d);
    }

    method HandOut(keys: seq<Key>, slots: seq<Space>, ghost keep: set<Key>, ghost reg: Registry, ghost goal: Registry)
      returns (moves: seq<RemapMove>)
      requires NoDup(keys) && entries.Keys == reg.Keys == goal.Keys
      requires forall k | k in keys :: k in reg && entries[k] == reg[k] && (k in keep <==> !reg[k].IsFullscreen())
      requires forall k | k in keys && k !in keep :: goal[k] == reg[k]
      requires forall n | 0 <= n < |Keep(keys, keep)| ::
                 goal[Keep(keys, keep)[n]] == Bound(reg[Keep(keys, keep)[n]], slots, n)
      modifies this
      ensures entries.Keys == reg.Keys
      ensures forall k | k in reg :: entries[k] == if k in keys then goal[k] else old(entries)[k]
      ensures moves == MovesOver(Keep(keys, keep), reg, goal)
    {
      hide NoDup, Keep, Bound, MovesOver, Remaining, Served, MoveOf;
      var available := slots;
      ghost var cs, taken, done: set<Key> := Keep(keys, keep), 0, {};
      moves := [];
      MovesOverNone(reg, goal);
      KeepOfNone(keys, keep);
      RemainingAll(slots);
      assert cs[..0] == [];
      for i := 0 to |keys|
        invariant taken <= |cs| && Keep(keys[..i], keep) == cs[..taken]
        invariant available == Remaining(slots, taken)
        invariant entries.Keys == reg.Keys && done == Elements(keys[..i])
        invariant forall k | k in reg :: entries[k] == if k in done then goal[k] else old(entries)[k]
        invariant moves == MovesOver(cs[..taken], reg, goal)
      {
        var key := keys[i];
        InFirst(keys, i);
        ClaimStep(keys, i, keep, taken);
        var state := entries[key];
        if !state.IsFullscreen() {
          ServedIsBound(state, slots, taken);
          MovesOverStep(cs, taken, reg, goal);
          var after := Served(state, available);
          available := if available == [] then [] else available[1..];
          entries := entries[key := after];
          moves := moves + MoveOf(key, state, after);
          taken := taken + 1;
        }
        done := done + {key};
      }
      assert keys[..|keys|] == keys && cs[..taken] == cs;
      AllElements(keys);
    }
  }

  lemma {:induction false} AssignedByPlace(reg: Registry, spaces: map<SpaceId, Space>, d: DisplayId)
    requires KeyedSpaces(spaces)
    ensures forall k | k in KeysFor(reg, d) :: k in reg && (k in Shown(reg) <==> !reg[k].IsFullscreen())
    ensures forall k | k in KeysFor(reg, d) && k !in Shown(reg) :: Assigned(reg, spaces, d, k) == reg[k]
    ensures var cs := Keep(KeysFor(reg, d), Shown(reg));
            forall n | 0 <= n < |cs| ::
              cs[n] in reg && Assigned(reg, spaces, d, cs[n]) == Bound(reg[cs[n]], FreeSlots(reg, spaces, d), n)
  {
    KeysForLists(reg, d);
    ClaimantsList(reg, d);
    var cs := Claimants(reg, d);
    forall n | 0 <= n < |cs|
      ensures cs[n] in reg && Assigned(reg, spaces, d, cs[n]) == Bound(reg[cs[n]], FreeSlots(reg, spaces, d), n)
    {
      assert cs[n] in cs;
      IndexOfAt(cs, n);
    }
  }

  lemma {:induction false} NextDisplay(order: seq<DisplayId>, n: nat)
    requires n < |order| && NoDup(order)
    ensures order[n] in order && order[n] !in order[..n] && order[..n + 1] == order[..n] + [order[n]]
    ensures order[..n + 1][..n] == order[..n]
  {
  }

  lemma {:induction false} GoalOf(reg: Registry, spaces: map<SpaceId, Space>, order: seq<DisplayId>)
    requires KeyedSpaces(spaces)
    ensures var goal := Remapped(reg, spaces, Elements(order));
            && goal.Keys == reg.Keys
            && (forall k | k in reg ::
                  goal[k].display == reg[k].display && goal[k].name == reg[k].name && goal[k].ordinal == reg[k].ordinal)
            && (forall k | k in reg && reg[k].display in order :: goal[k] == Assigned(reg, spaces, reg[k].display, k))
            && (forall k | k in reg && reg[k].display !in order ::
                  goal[k] == reg[k].(backing := None, lastPosition := None))
  {
  }

  lemma {:induction false} AllElements(keys: seq<Key>)
    ensures forall k :: k in Elements(keys) <==> k in keys
  {
  }

  lemma {:induction false} MovesOnIs(reg: Registry, after: Registry, d: DisplayId)
    requires reg.Keys == after.Keys && forall k | k in Claimants(reg, d) :: k in reg
    ensures MovesOn(reg, after, d) == MovesOver(Claimants(reg, d), reg, after)
  {
  }

  lemma {:induction false} RemainingAll(slots: seq<Space>)
    ensures Remaining(slots, 0) == slots
  {
  }

  /** Give a workspace the first Space still available, if any. */
  function Served(e: Entry, available: seq<Space>): Entry {
    if available == [] then e.(backing := None, lastPosition := None)
    else e.(backing := Some(Normal(available[0].id)), lastPosition := Some(available[0].position))
  }

  lemma {:induction false} ServedIsBound(e: Entry, slots: seq<Space>, taken: nat)
    ensures Served(e, Remaining(slots, taken)) == Bound(e, slots, taken)
    ensures Remaining(slots, taken + 1) ==
            if Remaining(slots, taken) == [] then [] else Remaining(slots, taken)[1..]
  {
  }

  /** What a display's hand-out gives one of its workspaces. */
  ghost function Assigned(reg: Registry, spaces: map<SpaceId, Space>, d: DisplayId, k: Key): Entry
    requires KeyedSpaces(spaces) && k in reg
  {
    if reg[k].IsFullscreen() then reg[k]
    else Bound(reg[k], FreeSlots(reg, spaces, d), IndexOfKey(Claimants(reg, d), k))
  }

  ghost function Remaining(slots: seq<Space>, taken: nat): seq<Space> {
    if taken < |slots| then slots[taken..] else []
  }

  lemma {:induction false} MovesOverNone(before: Registry, after: Registry)
    ensures MovesOver([], before, after) == []
  {
    assert |MovesOver([], before, after)| == 0;
  }

  lemma {:induction false} KeepOfNone(keys: seq<Key>, keep: set<Key>)
    ensures Keep(keys[..0], keep) == []
  {
    assert keys[..0] == [];
  }

  lemma {:induction false} InFirst(keys: seq<Key>, i: nat)
    requires i < |keys| && NoDup(keys)
    ensures keys[i] in keys && keys[i] !in Elements(keys[..i])
    ensures Elements(keys[..i + 1]) == Elements(keys[..i]) + {keys[i]}
  {
    assert keys[..i + 1] == keys[..i] + [keys[i]];
  }

  /** The claim order advances past exactly the keys that take slots. */
  lemma {:induction false} ClaimStep(keys: seq<Key>, i: nat, keep: set<Key>, taken: nat)
    requires i < |keys| && taken <= |Keep(keys, keep)| && Keep(keys[..i], keep) == Keep(keys, keep)[..taken]
    ensures keys[i] !in keep ==> Keep(keys[..i + 1], keep) == Keep(keys, keep)[..taken]
    ensures keys[i] in keep ==> taken < |Keep(keys, keep)| && Keep(keys, keep)[taken] == keys[i]
                                && Keep(keys[..i + 1], keep) == Keep(keys, keep)[..taken + 1]
  {
    var cs := Keep(keys, keep);
    assert keys[..i + 1] == keys[..i] + [keys[i]];
    KeepAppend(keys[..i], [keys[i]], keep);
    assert keys == keys[..i + 1] + keys[i + 1..];
    KeepAppend(keys[..i + 1], keys[i + 1..], keep);
  }

  lemma {:induction false} MovesOverStep(cs: seq<Key>, taken: nat, before: Registry, after: Registry)
    requires taken < |cs| && forall k | k in cs :: k in before && k in after
    ensures MovesOver(cs[..taken + 1], before, after)
            == MovesOver(cs[..taken], before, after) + MoveOf(cs[taken], before[cs[taken]], after[cs[taken]])
  {
    assert cs[..taken + 1][..taken] == cs[..taken];
  }
}
