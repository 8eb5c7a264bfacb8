/** When remapping a second time, with nothing new to see, changes nothing. */
module RemapAgain {
  import opened Basics
  import opened Geometry
  import opened Observed
  import opened Workspace
  import opened Remap

  // ------------------------------------------------------------ places in order

  /** The Spaces of a set that come before `x`. */
  function Below(xs: set<Space>, x: Space): set<Space> {
    set y | y in xs && SlotLe(y, x) && y != x
  }

  /** In an ordered list a Space's place is the number of Spaces before it. */
  lemma {:induction false} PlaceIsCount(xs: set<Space>, q: seq<Space>, i: nat)
    requires TotalOn(SlotLe, xs) && Elements(q) == xs && NoDup(q) && SortedBy(q, SlotLe) && i < |q|
    ensures q[i] in xs && |Below(xs, q[i])| == i
  {
    assert q[i] in Elements(q);
    assert Below(xs, q[i]) == Elements(q[..i]) by {
      forall y ensures y in Below(xs, q[i]) <==> y in Elements(q[..i]) {
        if y in Below(xs, q[i]) {
          assert y in Elements(q);
          var j :| 0 <= j < |q| && q[j] == y;
          assert q[..i][j] == y;
        }
        if y in Elements(q[..i]) {
          var j :| 0 <= j < i && q[..i][j] == y;
          assert q[j] in Elements(q) && SlotLe(q[j], q[i]) && q[j] != q[i];
        }
      }
    }
    assert NoDup(q[..i]);
    NoDupSize(q[..i]);
  }

  /** The Space with `n` others before it is the n-th. */
  lemma {:induction false} CountIsPlace(xs: set<Space>, q: seq<Space>, x: Space)
    requires TotalOn(SlotLe, xs) && Elements(q) == xs && NoDup(q) && SortedBy(q, SlotLe) && x in xs
    ensures |Below(xs, x)| < |q| && q[|Below(xs, x)|] == x
  {
    assert x in Elements(q);
    var i :| 0 <= i < |q| && q[i] == x;
    PlaceIsCount(xs, q, i);
  }

  lemma {:induction false} SubsetSize<T>(a: set<T>, b: set<T>)
    requires a <= b
    ensures |a| <= |b|
  {
    assert b == a + (b - a);
  }

  // ------------------------------------------------------- what a remap lets go

  /** Spaces kept back for workspaces whose display is gone; the remap forgets that they were. */
  ghost predicate LetGo(reg: Registry, spaces: map<SpaceId, Space>, displays: set<DisplayId>, x: Space) {
    && x.id in spaces && spaces[x.id] == x && x.Ordinary() && x.id in Parked(reg)
    && forall k | k in reg && reg[k].display in displays :: reg[k].RestoreSpace() != Some(x.id)
  }

  /** The free Spaces of the same display that come before it. */
  function Ahead(reg: Registry, spaces: map<SpaceId, Space>, x: Space): set<Space> {
    Below(FreeSet(Parked(reg), spaces, x.display), x)
  }

  /** No Space let go comes before the last slot its display's workspaces need. */
  ghost predicate OnceIsEnough(reg: Registry, spaces: map<SpaceId, Space>, displays: set<DisplayId>) {
    forall x: Space | x.display in displays && LetGo(reg, spaces, displays, x) :: |Ahead(reg, spaces, x)| >= |Claimants(reg, x.display)|
  }

  lemma {:induction false} AfterRemap(reg: Registry, spaces: map<SpaceId, Space>, displays: set<DisplayId>, d: DisplayId)
    requires KeyedSpaces(spaces) && d in displays
    ensures var after := Remapped(reg, spaces, displays);
            && after.Keys == reg.Keys && Claimants(after, d) == Claimants(reg, d)
            && forall x: Space :: x in FreeSet(Parked(after), spaces, d)
                           <==> x in FreeSet(Parked(reg), spaces, d) || (x.display == d && LetGo(reg, spaces, displays, x))
  {
    hide Remapped, Parked, FreeSlots, Claimants;
    ClaimedAlike(reg, spaces, displays, d);
    ParkedAfter(reg, spaces, displays);
    KeptBack(reg);
  }

  lemma {:induction false} ClaimedAlike(reg: Registry, spaces: map<SpaceId, Space>, displays: set<DisplayId>, d: DisplayId)
    requires KeyedSpaces(spaces) && d in displays
    ensures var after := Remapped(reg, spaces, displays); after.Keys == reg.Keys && Claimants(after, d) == Claimants(reg, d)
  {
    hide FreeSlots, Claimants, KeysFor;
    var after := Remapped(reg, spaces, displays);
    assert forall k | k in reg :: after[k].display == reg[k].display && after[k].name == reg[k].name && after[k].ordinal == reg[k].ordinal;
    KeysForAgree(reg, after, d);
    KeysForLists(reg, d);
    forall k | k in KeysFor(reg, d) ensures k in Shown(after) <==> k in Shown(reg) {
    }
    KeepAgree(KeysFor(reg, d), Shown(after), Shown(reg));
    SameClaimants(reg, after, d);
  }

  lemma {:induction false} ParkedAfter(reg: Registry, spaces: map<SpaceId, Space>, displays: set<DisplayId>)
    requires KeyedSpaces(spaces)
    ensures forall s :: s in Parked(Remapped(reg, spaces, displays))
                        <==> exists k :: k in reg && reg[k].display in displays && reg[k].RestoreSpace() == Some(s)
  {
    var after := Remapped(reg, spaces, displays);
    hide FreeSlots, Claimants;
    forall s ensures s in Parked(after) <==> exists k :: k in reg && reg[k].display in displays && reg[k].RestoreSpace() == Some(s) {
      if s in Parked(after) {
        var k :| k in after && after[k].IsFullscreen() && after[k].backing.value.restoreSpace == s;
        assert k in reg && reg[k].display in displays && reg[k].RestoreSpace() == Some(s);
      }
      if k :| k in reg && reg[k].display in displays && reg[k].RestoreSpace() == Some(s) {
        assert k in after && after[k].IsFullscreen() && after[k].backing.value.restoreSpace == s;
      }
    }
  }

  lemma SameClaimants(a: Registry, b: Registry, d: DisplayId)
    requires KeysFor(a, d) == KeysFor(b, d) && Keep(KeysFor(a, d), Shown(b)) == Keep(KeysFor(a, d), Shown(a))
    ensures Claimants(a, d) == Claimants(b, d)
  {
  }

  lemma KeptBack(reg: Registry)
    ensures forall k | k in reg && reg[k].RestoreSpace().Some? :: reg[k].RestoreSpace().value in Parked(reg)
  {
  }

  // ---------------------------------------------------------------- both ways

  function Nth(q: seq<Space>, i: nat): Option<Space> { if i < |q| then Some(q[i]) else None }

  ghost predicate SameUpTo(q: seq<Space>, r: seq<Space>, n: nat) {
    forall i: nat | i < n :: Nth(q, i) == Nth(r, i)
  }

  /** The slots of a display with what was let go, against those without: the same as far as they are needed. */
  lemma {:induction false} SlotsAgain(free: set<Space>, more: set<Space>, q: seq<Space>, r: seq<Space>, n: nat)
    requires TotalOn(SlotLe, free + more) && free !! more
    requires Elements(q) == free && NoDup(q) && SortedBy(q, SlotLe)
    requires Elements(r) == free + more && NoDup(r) && SortedBy(r, SlotLe)
    requires forall x | x in more :: |Below(free, x)| >= n
    ensures SameUpTo(q, r, n)
  {
    var all := free + more;
    TotalSubset(SlotLe, all, free);
    forall i | 0 <= i < n && i < |q| ensures i < |r| && q[i] == r[i] {
      PlaceIsCount(free, q, i);
      assert Below(all, q[i]) == Below(free, q[i]) by {
        forall y | y in more ensures y !in Below(all, q[i]) {
          if y in Below(all, q[i]) {
            assert Below(free, y) <= Below(free, q[i]);
            SubsetSize(Below(free, y), Below(free, q[i]));
          }
        }
      }
      CountIsPlace(all, r, q[i]);
    }
    if |q| < n && more != {} {
      var x :| x in more;
      SubsetSize(Below(free, x), free);
      NoDupSize(q);
      assert false;
    }
    NoDupSize(q);
    NoDupSize(r);
    if more == {} {
      assert free + more == free;
    }
  }

  /** A Space let go among the slots that are needed takes one of them. */
  lemma {:induction false} SlotTaken(free: set<Space>, more: set<Space>, q: seq<Space>, r: seq<Space>, n: nat, x: Space) returns (i: nat)
    requires TotalOn(SlotLe, free + more) && free !! more
    requires Elements(q) == free && NoDup(q) && SortedBy(q, SlotLe)
    requires Elements(r) == free + more && NoDup(r) && SortedBy(r, SlotLe)
    requires x in more && |Below(free, x)| < n
    ensures i < n && i < |r| && r[i] in more && (i < |q| ==> q[i] in free)
  {
    var all := free + more;
    TotalSubset(SlotLe, all, more);
    var y := LeastExists(more, SlotLe);
    assert Below(all, y) == Below(free, y);
    assert Below(free, y) <= Below(free, x) by {
      assert SlotLe(y, x);
    }
    SubsetSize(Below(free, y), Below(free, x));
    CountIsPlace(all, r, y);
    i := |Below(all, y)|;
    if i < |q| {
      assert q[i] in Elements(q);
    }
  }

  /** The slots of an observed display before and after a remap. */
  lemma {:induction false} SlotsBothTimes(reg: Registry, spaces: map<SpaceId, Space>, displays: set<DisplayId>, d: DisplayId)
    returns (free: set<Space>, more: set<Space>)
    requires KeyedSpaces(spaces) && d in displays
    ensures var q, r := FreeSlots(reg, spaces, d), FreeSlots(Remapped(reg, spaces, displays), spaces, d);
            && free == FreeSet(Parked(reg), spaces, d) && (forall x: Space :: x in more <==> x.display == d && LetGo(reg, spaces, displays, x))
            && free !! more && TotalOn(SlotLe, free + more)
            && (forall x: Space, y: Space | x in free + more && y in free + more && x.id == y.id :: x == y)
            && Elements(q) == free && NoDup(q) && SortedBy(q, SlotLe)
            && Elements(r) == free + more && NoDup(r) && SortedBy(r, SlotLe)
  {
    AfterRemap(reg, spaces, displays, d);
    var after := Remapped(reg, spaces, displays);
    free := FreeSet(Parked(reg), spaces, d);
    var all := FreeSet(Parked(after), spaces, d);
    more := all - free;
    forall x | x in free ensures !LetGo(reg, spaces, displays, x) {
    }
    hide Remapped, LetGo, Parked;
    assert free + more == all;
    SlotTotal(all);
    SlotTotal(free);
    SortedIsOrdered(free, SlotLe);
    SortedIsOrdered(all, SlotLe);
  }

  /** One workspace that takes a slot is bound again to the same one. */
  lemma {:induction false} BoundAgain(reg: Registry, spaces: map<SpaceId, Space>, displays: set<DisplayId>, k: Key)
    requires KeyedSpaces(spaces) && OnceIsEnough(reg, spaces, displays)
    requires k in reg && reg[k].display in displays && !reg[k].IsFullscreen()
    ensures var after := Remapped(reg, spaces, displays); k in after && Rebound(after, spaces, displays, k) == after[k]
  {
    hide *;
    var d := reg[k].display;
    var cs := Claimants(reg, d);
    var i := IndexOfKey(cs, k);
    ClaimantsList(reg, d);
    AfterRemap(reg, spaces, displays, d);
    SlotsStand(reg, spaces, displays, d);
    SameAt(FreeSlots(reg, spaces, d), FreeSlots(Remapped(reg, spaces, displays), spaces, d), |cs|, i);
    BoundTwice(reg, spaces, displays, k, i);
  }

  lemma SameAt(q: seq<Space>, r: seq<Space>, n: nat, i: nat)
    requires SameUpTo(q, r, n) && i < n
    ensures Nth(q, i) == Nth(r, i)
  {
  }

  /** Within what a display's workspaces need, its slots are the same the second time. */
  lemma {:induction false} SlotsStand(reg: Registry, spaces: map<SpaceId, Space>, displays: set<DisplayId>, d: DisplayId)
    requires KeyedSpaces(spaces) && OnceIsEnough(reg, spaces, displays) && d in displays
    ensures var q, r := FreeSlots(reg, spaces, d), FreeSlots(Remapped(reg, spaces, displays), spaces, d);
            SameUpTo(q, r, |Claimants(reg, d)|)
  {
    hide *;
    var free, more := SlotsBothTimes(reg, spaces, displays, d);
    forall x | x in more ensures |Below(free, x)| >= |Claimants(reg, d)| {
      LetGoLate(reg, spaces, displays, x);
    }
    SlotsAgain(free, more, FreeSlots(reg, spaces, d), FreeSlots(Remapped(reg, spaces, displays), spaces, d), |Claimants(reg, d)|);
  }

  lemma LetGoLate(reg: Registry, spaces: map<SpaceId, Space>, displays: set<DisplayId>, x: Space)
    requires OnceIsEnough(reg, spaces, displays) && x.display in displays && LetGo(reg, spaces, displays, x)
    ensures |Below(FreeSet(Parked(reg), spaces, x.display), x)| >= |Claimants(reg, x.display)|
  {
    hide LetGo, Below, FreeSet, Claimants, Parked;
  }

  lemma {:induction false} BoundTwice(reg: Registry, spaces: map<SpaceId, Space>, displays: set<DisplayId>, k: Key, i: nat)
    requires KeyedSpaces(spaces) && k in reg && reg[k].display in displays && !reg[k].IsFullscreen()
    requires i == IndexOfKey(Claimants(reg, reg[k].display), k)
    requires var d, after := reg[k].display, Remapped(reg, spaces, displays);
             var q, r := FreeSlots(reg, spaces, d), FreeSlots(after, spaces, d);
             Claimants(after, d) == Claimants(reg, d) && Nth(q, i) == Nth(r, i)
    ensures var after := Remapped(reg, spaces, displays); k in after && Rebound(after, spaces, displays, k) == after[k]
  {
    hide FreeSlots, Claimants, IndexOfKey, KeyedSpaces;
  }

  lemma {:induction false} TwiceWhenEnough(reg: Registry, spaces: map<SpaceId, Space>, displays: set<DisplayId>)
    requires KeyedSpaces(spaces) && OnceIsEnough(reg, spaces, displays)
    ensures Remapped(Remapped(reg, spaces, displays), spaces, displays) == Remapped(reg, spaces, displays)
  {
    var after := Remapped(reg, spaces, displays);
    hide OnceIsEnough;
    forall k | k in after ensures Rebound(after, spaces, displays, k) == after[k] {
      if reg[k].display in displays && !reg[k].IsFullscreen() {
        BoundAgain(reg, spaces, displays, k);
      }
    }
  }

  lemma {:induction false} EnoughWhenTwice(reg: Registry, spaces: map<SpaceId, Space>, displays: set<DisplayId>, x: Space)
    requires KeyedSpaces(spaces) && x.display in displays && LetGo(reg, spaces, displays, x)
    requires |Ahead(reg, spaces, x)| < |Claimants(reg, x.display)|
    ensures Remapped(Remapped(reg, spaces, displays), spaces, displays) != Remapped(reg, spaces, displays)
  {
    var d := x.display;
    var free, more := SlotsBothTimes(reg, spaces, displays, d);
    AfterRemap(reg, spaces, displays, d);
    ClaimantsList(reg, d);
    var after := Remapped(reg, spaces, displays);
    var q, r := FreeSlots(reg, spaces, d), FreeSlots(after, spaces, d);
    var cs := Claimants(reg, d);
    hide FreeSlots, Claimants, LetGo, Parked, FreeSet, SortedBy, TotalOn, NoDup;
    var i := SlotTaken(free, more, q, r, |cs|, x);
    var k := cs[i];
    assert k in cs;
    IndexOfAt(cs, i);
    assert i < |q| ==> q[i].id != r[i].id;
    assert Remapped(after, spaces, displays)[k].backing == Some(Normal(r[i].id));
    assert after[k].backing != Some(Normal(r[i].id));
  }

  /**
   * The remap keeps back the Spaces of fullscreen workspaces before it clears those whose display
   * is gone, so running it again changes nothing if and only if no Space so let go comes before the
   * last slot its display needs.
   */
  lemma {:induction false} RemapTwiceIffEnough(reg: Registry, spaces: map<SpaceId, Space>, displays: set<DisplayId>)
    requires KeyedSpaces(spaces)
    ensures Remapped(Remapped(reg, spaces, displays), spaces, displays) == Remapped(reg, spaces, displays)
            <==> OnceIsEnough(reg, spaces, displays)
  {
    hide Remapped, LetGo;
    if OnceIsEnough(reg, spaces, displays) {
      TwiceWhenEnough(reg, spaces, displays);
    } else {
      var x: Space :| x.display in displays && LetGo(reg, spaces, displays, x) && |Ahead(reg, spaces, x)| < |Claimants(reg, x.display)|;
      EnoughWhenTwice(reg, spaces, displays, x);
    }
  }

  // ------------------------------------------------------------------ an example

  const HERE: Key := Key(1, "1")
  const AWAY: Key := Key(2, "1")

  /** Display 2 was unplugged and the Space its fullscreen workspace would return to moved to display 1. */
  const MOVED_OVER: Space := Space(10, 1, 0, None, false, false, false)
  const RESIDENT: Space := Space(11, 1, 1, None, true, false, false)

  function Unplugged(): Registry {
    map[HERE := Entry("1", 1, true, false, 0, Some(Normal(11)), None),
        AWAY := Entry("1", 2, true, false, 1, Some(Fullscreen(12, 10, 7)), None)]
  }

  /** The first pass leaves the workspace here alone; the second moves it. */
  lemma {:induction false} UnpluggedMovesTwice()
    ensures var spaces := map[10 := MOVED_OVER, 11 := RESIDENT];
            KeyedSpaces(spaces) && Remapped(Remapped(Unplugged(), spaces, {1}), spaces, {1}) != Remapped(Unplugged(), spaces, {1})
  {
    hide Remapped, LetGo, Claimants, Ahead, Unplugged;
    var reg, spaces := Unplugged(), map[10 := MOVED_OVER, 11 := RESIDENT];
    RemapTwiceIffEnough(reg, spaces, {1});
    MovedIsLetGo(spaces);
    SomebodyClaims();
  }

  lemma {:induction false} MovedIsLetGo(spaces: map<SpaceId, Space>)
    requires spaces == map[10 := MOVED_OVER, 11 := RESIDENT]
    ensures LetGo(Unplugged(), spaces, {1}, MOVED_OVER) && Ahead(Unplugged(), spaces, MOVED_OVER) == {}
  {
    assert AWAY in Unplugged() && Unplugged()[AWAY].RestoreSpace() == Some(10);
    KeptBack(Unplugged());
  }

  lemma {:induction false} SomebodyClaims()
    ensures |Claimants(Unplugged(), 1)| > 0
  {
    ClaimantsList(Unplugged(), 1);
    assert HERE in Claimants(Unplugged(), 1);
  }
}
