/** Spaces go to workspaces in the order of their names: by number first, then the rest as configured. */
module NameOrder {
  import opened Basics
  import opened Geometry
  import opened Observed
  import opened Workspace
  import opened Remap
  import opened SpaceOrder
  import opened Lifecycle
  import opened Placement
  import opened Homes
  import opened StripOrder

  /** `a` comes before `b` in a dictionary. */
  predicate TextBefore(a: string, b: string) {
    exists i | 0 <= i <= |a| && i < |b| :: a[..i] == b[..i] && (i == |a| || a[i] < b[i])
  }

  /** A smaller number comes before a larger one, a number before any other name, other names as configured. */
  predicate GoesBefore(j: Key, e: Entry, k: Key, f: Entry) {
    match (ParseU32(e.name), ParseU32(f.name))
    case (Some(m), Some(n)) => m < n || (m == n && TextBefore(j.name, k.name))
    case (Some(_), None) => true
    case (None, Some(_)) => false
    case (None, None) => e.ordinal < f.ordinal || (e.ordinal == f.ordinal && TextBefore(j.name, k.name))
  }

  // --------------------------------------------------------------- one in a list

  ghost predicate Precedes<T>(s: seq<T>, x: T, y: T) {
    exists i, j | 0 <= i < j < |s| :: s[i] == x && s[j] == y
  }

  lemma {:induction false} PrecedesCons<T>(s: seq<T>, x: T, y: T)
    requires s != []
    ensures Precedes(s, x, y) <==> (s[0] == x && y in s[1..]) || Precedes(s[1..], x, y)
  {
    if Precedes(s, x, y) {
      var i, j :| 0 <= i < j < |s| && s[i] == x && s[j] == y;
      assert s[1..][j - 1] == y;
      if i > 0 {
        assert s[1..][i - 1] == x;
      }
    }
    if s[0] == x && y in s[1..] {
      var j :| 0 <= j < |s[1..]| && s[1..][j] == y;
      assert s[j + 1] == y;
    }
    if Precedes(s[1..], x, y) {
      var i, j :| 0 <= i < j < |s[1..]| && s[1..][i] == x && s[1..][j] == y;
      assert s[i + 1] == x && s[j + 1] == y;
    }
  }

  lemma {:induction false} PrecedesHas<T>(s: seq<T>, x: T, y: T)
    requires Precedes(s, x, y)
    ensures x in s && y in s
  {
  }

  lemma {:induction false} KeepPrecedes<T(!new)>(s: seq<T>, keep: set<T>, x: T, y: T)
    requires x in keep && y in keep && Precedes(s, x, y)
    ensures Precedes(Keep(s, keep), x, y)
    decreases |s|
  {
    hide Precedes;
    NoneInNothing(x, y);
    PrecedesCons(s, x, y);
    var k := Keep(s, keep);
    if Precedes(s[1..], x, y) {
      KeepPrecedes(s[1..], keep, x, y);
    }
    if s[0] in keep {
      assert k[1..] == Keep(s[1..], keep);
      PrecedesCons(k, x, y);
    }
  }

  lemma NoneInNothing<T>(x: T, y: T)
    ensures !Precedes([], x, y)
  {
  }

  // ------------------------------------------------------------- assignment order

  lemma {:induction false} TextBeforeIsLe(a: string, b: string)
    requires TextBefore(a, b)
    ensures StringLe(a, b) && !StringLe(b, a) && a != b
    decreases |a|
  {
    var i :| 0 <= i <= |a| && i < |b| && a[..i] == b[..i] && (i == |a| || a[i] < b[i]);
    if a != "" && i > 0 {
      assert a[..i][0] == a[0] && b[..i][0] == b[0];
      assert a[1..][..i - 1] == a[..i][1..] && b[1..][..i - 1] == b[..i][1..];
      assert i - 1 == |a[1..]| || a[1..][i - 1] < b[1..][i - 1];
      TextBeforeIsLe(a[1..], b[1..]);
    }
  }

  lemma {:induction false} BeforeRanksLower(j: Key, e: Entry, k: Key, f: Entry)
    requires GoesBefore(j, e, k, f)
    ensures !RankLe(RankOf(k, f), RankOf(j, e))
  {
    hide ParseU32, TextBefore;
    if TextBefore(j.name, k.name) {
      TextBeforeIsLe(j.name, k.name);
    }
    hide StringLe;
  }

  /** Where a display's workspaces stand by rank. */
  lemma {:induction false} RankedOrder(reg: Registry, d: DisplayId) returns (q: seq<Ranked>)
    ensures KeysFor(reg, d) == KeysOf(q) && Elements(q) == RanksOn(reg, d)
    ensures forall a, b | 0 <= a < b < |q| :: RankLe(q[a], q[b])
  {
    hide RankLe, RankOf, ParseU32;
    RankTotal(RanksOn(reg, d));
    SortedIsOrdered(RanksOn(reg, d), RankLe);
    q := Sorted(RanksOn(reg, d), RankLe);
  }

  lemma RankIsThere(reg: Registry, d: DisplayId, q: seq<Ranked>, k: Key) returns (a: nat)
    requires Elements(q) == RanksOn(reg, d) && k in reg && reg[k].display == d
    ensures a < |q| && q[a] == RankOf(k, reg[k]) && q[a].key == k
  {
    hide ParseU32;
    assert RankOf(k, reg[k]) in Elements(q);
    a :| 0 <= a < |q| && q[a] == RankOf(k, reg[k]);
  }

  /** A display's assignment order has the one that goes before first. */
  lemma {:induction false} KeysInOrder(reg: Registry, d: DisplayId, j: Key, k: Key)
    requires j in reg && k in reg && reg[j].display == d && reg[k].display == d && GoesBefore(j, reg[j], k, reg[k])
    ensures Precedes(KeysFor(reg, d), j, k)
  {
    hide RankLe, RankOf, GoesBefore, KeysFor, RanksOn;
    var q := RankedOrder(reg, d);
    BeforeRanksLower(j, reg[j], k, reg[k]);
    RankSelf(reg[k], k);
    var a := RankIsThere(reg, d, q, j);
    var b := RankIsThere(reg, d, q, k);
    assert KeysOf(q)[a] == j && KeysOf(q)[b] == k;
  }

  lemma RankSelf(e: Entry, k: Key)
    ensures RankLe(RankOf(k, e), RankOf(k, e))
  {
    StringTotal(k.name, k.name);
  }

  // --------------------------------------------------------------- the remap

  /** The Space `x` is left of `y` in the native order: by position, then by id. */
  predicate LeftOf(spaces: map<SpaceId, Space>, x: SpaceId, y: SpaceId)
    requires x in spaces && y in spaces
  {
    spaces[x].position < spaces[y].position || (spaces[x].position == spaces[y].position && x < y)
  }

  /**
   * Of two workspaces of a display that take slots, the one whose name goes before is never without
   * a Space while the other has one, and gets the one further left.
   */
  lemma {:induction false} EarlierNameEarlierSpace(
      reg: Registry, spaces: map<SpaceId, Space>, displays: set<DisplayId>, j: Key, k: Key)
    requires KeyedSpaces(spaces) && j in reg && k in reg && reg[j].display == reg[k].display && GoesBefore(j, reg[j], k, reg[k])
    requires !reg[j].IsFullscreen() && !reg[k].IsFullscreen() && Remapped(reg, spaces, displays)[k].backing.Some?
    ensures var a, b := Remapped(reg, spaces, displays)[j].backing, Remapped(reg, spaces, displays)[k].backing;
            && a.Some? && a.value.Normal? && b.value.Normal? && a.value.space in spaces && b.value.space in spaces
            && LeftOf(spaces, a.value.space, b.value.space)
  {
    hide Remapped, Claimants, FreeSlots, GoesBefore, KeysFor, Shown, IndexOfKey;
    var d := reg[k].display;
    var cs, slots := Claimants(reg, d), FreeSlots(reg, spaces, d);
    TakesSlots(reg, spaces, displays, k);
    var b := BindingIsSlot(reg, spaces, displays, k);
    var a := ClaimsBefore(reg, d, j, k, b);
    GetsSlot(reg, spaces, displays, j, a);
    SlotsList(reg, spaces, d);
    assert slots[a] in slots && slots[b] in slots && SlotLe(slots[a], slots[b]) && slots[a] != slots[b];
  }

  lemma {:induction false} ClaimsBefore(reg: Registry, d: DisplayId, j: Key, k: Key, b: nat) returns (a: nat)
    requires j in reg && k in reg && reg[j].display == d && reg[k].display == d && GoesBefore(j, reg[j], k, reg[k])
    requires !reg[j].IsFullscreen() && !reg[k].IsFullscreen() && b < |Claimants(reg, d)| && Claimants(reg, d)[b] == k
    ensures a < b && Claimants(reg, d)[a] == j
  {
    hide GoesBefore, KeysFor;
    var cs := Claimants(reg, d);
    ClaimantsList(reg, d);
    KeysInOrder(reg, d, j, k);
    KeepPrecedes(KeysFor(reg, d), Shown(reg), j, k);
    var b';
    a, b' :| 0 <= a < b' < |cs| && cs[a] == j && cs[b'] == k;
    assert b == b';
  }

  lemma {:induction false} GetsSlot(reg: Registry, spaces: map<SpaceId, Space>, displays: set<DisplayId>, j: Key, a: nat)
    requires KeyedSpaces(spaces) && j in reg && reg[j].display in displays && !reg[j].IsFullscreen()
    requires a < |Claimants(reg, reg[j].display)| && Claimants(reg, reg[j].display)[a] == j && a < |FreeSlots(reg, spaces, reg[j].display)|
    ensures Remapped(reg, spaces, displays)[j].backing == Some(Normal(FreeSlots(reg, spaces, reg[j].display)[a].id))
  {
    ClaimantsList(reg, reg[j].display);
    hide Claimants, FreeSlots;
    IndexOfAt(Claimants(reg, reg[j].display), a);
  }

  lemma TakesSlots(reg: Registry, spaces: map<SpaceId, Space>, displays: set<DisplayId>, k: Key)
    requires KeyedSpaces(spaces) && k in reg && !reg[k].IsFullscreen() && Remapped(reg, spaces, displays)[k].backing.Some?
    ensures Remapped(reg, spaces, displays)[k].backing.value.Normal? && reg[k].display in displays
  {
    hide FreeSlots, Claimants;
  }

  // --------------------------------------------------------------- the strip

  lemma {:induction false} NormalPrecedes(reg: Registry, ks: seq<Key>, j: Key, k: Key, x: SpaceId, y: SpaceId)
    requires (forall i | i in ks :: i in reg) && Precedes(ks, j, k) && ShowsOwn(reg, j, x) && ShowsOwn(reg, k, y)
    ensures Precedes(NormalSpaces(reg, ks), x, y)
    decreases |ks|
  {
    hide Precedes;
    NoneInNothing(j, k);
    PrecedesCons(ks, j, k);
    var q, rest := NormalSpaces(reg, ks), NormalSpaces(reg, ks[1..]);
    if Precedes(ks[1..], j, k) {
      NormalPrecedes(reg, ks[1..], j, k, x, y);
    } else {
      NormalHas(reg, ks[1..], k, y);
    }
    var b := reg[ks[0]].backing;
    if b.Some? && b.value.Normal? {
      assert q == [b.value.space] + rest && q[1..] == rest;
      PrecedesCons(q, x, y);
    } else {
      assert q == rest;
    }
  }

  lemma {:induction false} NormalHas(reg: Registry, ks: seq<Key>, k: Key, y: SpaceId)
    requires (forall i | i in ks :: i in reg) && k in ks && ShowsOwn(reg, k, y)
    ensures y in NormalSpaces(reg, ks)
    decreases |ks|
  {
    if ks[0] != k {
      NormalHas(reg, ks[1..], k, y);
    }
  }

  lemma {:induction false} DesiredPrecedes(order: seq<SpaceId>, view: View, d: DisplayId, x: SpaceId, y: SpaceId)
    requires Precedes(order, x, y) && x in view.spaces && y in view.spaces && view.spaces[x].display == d && view.spaces[y].display == d
    ensures Precedes(DesiredOn(order, view, d), x, y)
    decreases |order|
  {
    hide Precedes;
    NoneInNothing(x, y);
    PrecedesCons(order, x, y);
    var q, rest := DesiredOn(order, view, d), DesiredOn(order[1..], view, d);
    if Precedes(order[1..], x, y) {
      DesiredPrecedes(order[1..], view, d, x, y);
    } else {
      DesiredHas(order[1..], view, d, y);
    }
    if order[0] in view.spaces && view.spaces[order[0]].display == d {
      assert q == [order[0]] + rest && q[1..] == rest;
      PrecedesCons(q, x, y);
    } else {
      assert q == rest;
    }
  }

  lemma {:induction false} DesiredHas(order: seq<SpaceId>, view: View, d: DisplayId, y: SpaceId)
    requires y in order && y in view.spaces && view.spaces[y].display == d
    ensures y in DesiredOn(order, view, d)
    decreases |order|
  {
    if order[0] != y {
      DesiredHas(order[1..], view, d, y);
    }
  }

  lemma {:induction false} ProjectedPrecedes(native: seq<SpaceId>, desired: seq<SpaceId>, x: SpaceId, y: SpaceId)
    requires Precedes(Projected(native, desired), x, y)
    ensures Precedes(native, x, y)
    decreases |native|
  {
    hide Precedes;
    NoneInNothing(x, y);
    PrecedesCons(native, x, y);
    var p := Projected(native, desired);
    if native[0] in desired {
      assert p[1..] == Projected(native[1..], desired);
      PrecedesCons(p, x, y);
    }
    if Precedes(Projected(native[1..], desired), x, y) {
      ProjectedPrecedes(native[1..], desired, x, y);
    }
    ProjectedMembers(native[1..], desired);
  }

  /** On a strip that is in order the Space of the name that goes before is further left. */
  lemma {:induction false} InOrderIsByName(reg: Registry, shown: View, view: View, d: DisplayId, j: Key, k: Key, x: SpaceId, y: SpaceId)
    requires InOrderOn(reg, shown, view, d) && ShowsOwn(reg, j, x) && ShowsOwn(reg, k, y)
    requires reg[j].display == d && reg[k].display == d && GoesBefore(j, reg[j], k, reg[k])
    requires x in shown.spaces && y in shown.spaces && shown.spaces[x].display == d && shown.spaces[y].display == d
    ensures x in view.spaces && y in view.spaces && LeftOf(view.spaces, x, y)
  {
    hide GoesBefore, Native, Projected, DesiredOn, NormalSpaces, KeysFor, Precedes;
    KeysForLists(reg, d);
    KeysInOrder(reg, d, j, k);
    NormalPrecedes(reg, KeysFor(reg, d), j, k, x, y);
    DesiredPrecedes(NormalSpaces(reg, KeysFor(reg, d)), shown, d, x, y);
    ProjectedPrecedes(Native(view, d), InNameOrder(reg, shown, d), x, y);
    NativeLeft(view, d, x, y);
  }

  lemma {:induction false} NativeLeft(view: View, d: DisplayId, x: SpaceId, y: SpaceId)
    requires Precedes(Native(view, d), x, y)
    ensures x in view.spaces && y in view.spaces && LeftOf(view.spaces, x, y)
  {
    var q := Native(view, d);
    var i, j :| 0 <= i < j < |q| && q[i] == x && q[j] == y;
    assert q[i] in Elements(q) && q[j] in Elements(q);
    hide Native;
  }

  /**
   * Once patient passes outnumber the moves it can take, on every display with only its own
   * workspaces' Spaces on it those stand, left to right, as the names go.
   */
  lemma {:induction false} StripsEndByName(s: State, now: Instant, visit: Visit, ticks: seq<Tick>, d: DisplayId, j: Key, k: Key, x: SpaceId, y: SpaceId)
    requires Distinct(s.reg) && StripWalk(s.view.displays, visit.strips) && IdealRun(ReserveOrder(s, now, visit), ticks)
    requires Patient(ReserveOrder(s, now, visit), ticks)
    requires var order := LogicalOrder(s.reg, visit.strips); |ticks| > MoveBound(order, s.view, Ascending(OrderedDisplays(order, s.view)))
    requires d in s.view.displays && OwnStrip(s.reg, s.view, d) && ShowsOwn(s.reg, j, x) && ShowsOwn(s.reg, k, y)
    requires s.reg[j].display == d && s.reg[k].display == d && GoesBefore(j, s.reg[j], k, s.reg[k])
    requires x in s.view.spaces && y in s.view.spaces && s.view.spaces[x].display == d && s.view.spaces[y].display == d
    ensures var view := Finally(ReserveOrder(s, now, visit), ticks).view;
            x in view.spaces && y in view.spaces && LeftOf(view.spaces, x, y)
  {
    hide ReserveOrder, LogicalOrder, IdealRun, Patient, Finally, MoveBound, OwnStrip, InOrderOn, Distinct, GoesBefore, ShowsOwn, LeftOf, StripWalk;
    StripsSettle(s, now, visit, ticks);
    InOrderIsByName(s.reg, s.view, Finally(ReserveOrder(s, now, visit), ticks).view, d, j, k, x, y);
  }
}
