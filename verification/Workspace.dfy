/** Logical workspaces and the Spaces that back them. */
module Workspace {
  import opened Basics
  import opened Geometry
  import opened Observed

  /** A registry key: each display has its own strip of names. */
  datatype Key = Key(display: DisplayId, name: string)

  datatype Backing =
    | Normal(space: SpaceId)
    | Fullscreen(fullscreenSpace: SpaceId, restoreSpace: SpaceId, window: WindowId)
  {
    function ActiveSpace(): SpaceId { if Normal? then space else fullscreenSpace }

    /** The ordinary Space the workspace owns, shown or parked. */
    function Home(): SpaceId { if Normal? then space else restoreSpace }
  }

  datatype Entry = Entry(
    name: string, display: DisplayId, persistent: bool, dynamic: bool, ordinal: nat,
    backing: Option<Backing>, lastPosition: Option<nat>)
  {
    function ActiveSpace(): Option<SpaceId> {
      if backing.None? then None else Some(backing.value.ActiveSpace())
    }

    function RestoreSpace(): Option<SpaceId> {
      if backing.Some? && backing.value.Fullscreen? then Some(backing.value.restoreSpace) else None
    }

    function Home(): Option<SpaceId> {
      if backing.None? then None else Some(backing.value.Home())
    }

    predicate Holds(s: SpaceId) { ActiveSpace() == Some(s) || RestoreSpace() == Some(s) }

    predicate IsFullscreen() { backing.Some? && backing.value.Fullscreen? }
  }

  type Registry = map<Key, Entry>

  // ------------------------------------------------------------- name order

  predicate IsDigits(s: string) { forall i | 0 <= i < |s| :: '0' <= s[i] <= '9' }

  function Decimal(s: string): nat
    requires IsDigits(s)
  {
    if s == "" then 0 else 10 * Decimal(s[..|s| - 1]) + (s[|s| - 1] as int - '0' as int)
  }

  /** Rust's `u32` parser: an optional plus sign, at least one digit, in range. */
  function ParseU32(s: string): Option<nat> {
    var digits := if s != "" && s[0] == '+' then s[1..] else s;
    if digits != "" && IsDigits(digits) && Decimal(digits) < 0x1_0000_0000 then Some(Decimal(digits)) else None
  }

  predicate StringLe(a: string, b: string) {
    a == "" || (b != "" && (a[0] < b[0] || (a[0] == b[0] && StringLe(a[1..], b[1..]))))
  }

  lemma {:induction false} StringTotal(a: string, b: string)
    ensures StringLe(a, b) || StringLe(b, a)
    ensures StringLe(a, b) && StringLe(b, a) ==> a == b
  {
    if a != "" && b != "" && a[0] == b[0] {
      StringTotal(a[1..], b[1..]);
      assert a == [a[0]] + a[1..] && b == [b[0]] + b[1..];
    }
  }

  lemma {:induction false} StringTransitive(a: string, b: string, c: string)
    requires StringLe(a, b) && StringLe(b, c)
    ensures StringLe(a, c)
  {
    if a != "" && b != "" && c != "" && a[0] == b[0] == c[0] {
      StringTransitive(a[1..], b[1..], c[1..]);
    }
  }

  /** A key with what decides its place: numbers first, in order; then names in config order. */
  datatype Ranked = Ranked(named: bool, number: nat, key: Key)

  function RankOf(k: Key, e: Entry): Ranked {
    match ParseU32(e.name)
    case Some(n) => Ranked(false, n, k)
    case None => Ranked(true, e.ordinal, k)
  }

  predicate KeyLe(a: Key, b: Key) {
    (a.name != b.name && StringLe(a.name, b.name)) || (a.name == b.name && a.display <= b.display)
  }

  predicate RankLe(a: Ranked, b: Ranked) {
    if a.named != b.named then b.named
    else if a.number != b.number then a.number < b.number
    else KeyLe(a.key, b.key)
  }

  lemma {:induction false} KeyTotal(a: Key, b: Key)
    ensures KeyLe(a, b) || KeyLe(b, a)
    ensures KeyLe(a, b) && KeyLe(b, a) ==> a == b
  {
    StringTotal(a.name, b.name);
  }

  lemma {:induction false} KeyTransitive(a: Key, b: Key, c: Key)
    requires KeyLe(a, b) && KeyLe(b, c)
    ensures KeyLe(a, c)
  {
    if a.name != b.name && b.name != c.name {
      StringTransitive(a.name, b.name, c.name);
      StringTotal(a.name, b.name);
    }
  }

  lemma {:induction false} RankTotal(s: set<Ranked>)
    ensures TotalOn(RankLe, s)
  {
    forall a, b | a in s && b in s
      ensures RankLe(a, b) || RankLe(b, a)
      ensures RankLe(a, b) && RankLe(b, a) ==> a == b
    {
      KeyTotal(a.key, b.key);
    }
    forall a, b, c | a in s && b in s && c in s && RankLe(a, b) && RankLe(b, c) ensures RankLe(a, c) {
      if a.named == b.named == c.named && a.number == b.number == c.number {
        KeyTransitive(a.key, b.key, c.key);
      }
    }
  }

  function RanksOn(reg: Registry, d: DisplayId): set<Ranked> {
    set k | k in reg && reg[k].display == d :: RankOf(k, reg[k])
  }

  function KeysOf(ranks: seq<Ranked>): (ks: seq<Key>)
    ensures |ks| == |ranks| && forall i | 0 <= i < |ranks| :: ks[i] == ranks[i].key
  {
    seq(|ranks|, i requires 0 <= i < |ranks| => ranks[i].key)
  }

  /** One display's workspaces in assignment order. */
  ghost function KeysFor(reg: Registry, d: DisplayId): seq<Key> {
    RankTotal(RanksOn(reg, d));
    KeysOf(Sorted(RanksOn(reg, d), RankLe))
  }

  lemma {:induction false} KeysForLists(reg: Registry, d: DisplayId)
    ensures NoDup(KeysFor(reg, d))
    ensures forall k :: k in KeysFor(reg, d) <==> k in reg && reg[k].display == d
  {
    var ranks := RanksOn(reg, d);
    RankTotal(ranks);
    SortedIsOrdered(ranks, RankLe);
    RankedKeysDistinct(reg, d, Sorted(ranks, RankLe));
    RankedKeysCover(reg, d, Sorted(ranks, RankLe));
  }

  lemma {:induction false} RankedKeysDistinct(reg: Registry, d: DisplayId, q: seq<Ranked>)
    requires Elements(q) == RanksOn(reg, d) && NoDup(q)
    ensures NoDup(KeysOf(q))
  {
    forall i, j | 0 <= i < j < |q| ensures KeysOf(q)[i] != KeysOf(q)[j] {
      assert q[i] in Elements(q) && q[j] in Elements(q);
      assert q[i] == RankOf(q[i].key, reg[q[i].key]) && q[j] == RankOf(q[j].key, reg[q[j].key]);
    }
  }

  lemma {:induction false} RankedKeysCover(reg: Registry, d: DisplayId, q: seq<Ranked>)
    requires Elements(q) == RanksOn(reg, d)
    ensures forall k :: k in KeysOf(q) <==> k in reg && reg[k].display == d
  {
    forall k | k in reg && reg[k].display == d ensures k in KeysOf(q) {
      assert RankOf(k, reg[k]) in Elements(q);
      var i :| 0 <= i < |q| && q[i] == RankOf(k, reg[k]);
      assert KeysOf(q)[i] == k;
    }
    forall k | k in KeysOf(q) ensures k in reg && reg[k].display == d {
      var i :| 0 <= i < |q| && KeysOf(q)[i] == k;
      assert q[i] in Elements(q);
    }
  }

  /** The order depends on names and ordinals, not on what backs a workspace. */
  lemma {:induction false} KeysForAgree(reg: Registry, other: Registry, d: DisplayId)
    requires reg.Keys == other.Keys
    requires forall k | k in reg ::
               reg[k].display == other[k].display && reg[k].name == other[k].name && reg[k].ordinal == other[k].ordinal
    ensures KeysFor(reg, d) == KeysFor(other, d)
  {
    assert RanksOn(reg, d) == RanksOn(other, d) by {
      forall k | k in reg ensures RankOf(k, reg[k]) == RankOf(k, other[k]) {
      }
    }
  }

  /** `keys_for_display`: filter the hash map, then sort. */
  method CollectKeys(reg: Registry, d: DisplayId) returns (ks: seq<Key>)
    ensures ks == KeysFor(reg, d)
  {
    var rest := reg.Keys;
    var ranks: seq<Ranked> := [];
    while rest != {}
      invariant rest <= reg.Keys
      invariant forall r :: r in ranks <==>
                  r.key in reg && r.key !in rest && reg[r.key].display == d && r == RankOf(r.key, reg[r.key])
      invariant NoDup(ranks)
      decreases |rest|
    {
      var k :| k in rest;
      if reg[k].display == d {
        ranks := ranks + [RankOf(k, reg[k])];
      }
      rest := rest - {k};
    }
    assert Elements(ranks) == RanksOn(reg, d);
    RankTotal(Elements(ranks));
    ranks := SortSeq(ranks, RankLe);
    ks := KeysOf(ranks);
  }
}
