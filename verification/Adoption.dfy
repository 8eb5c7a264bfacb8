/**
 * Spaces made by others: how long they are left alone, and the names they go by once somebody
 * uses them.
 */
module Adoption {
  import opened Basics
  import opened Geometry
  import opened Observed
  import opened Workspace
  import opened Remap
  import opened Lifecycle
  import opened Runs
  import opened LastSpace
  import opened Homes

  // --------------------------------------------------------------------- numbers

  lemma {:induction false} TextReadsBack(n: nat)
    ensures IsDigits(ToText(n)) && ToText(n) != "" && Decimal(ToText(n)) == n
  {
    DigitValue(n % 10);
    if n < 10 {
      assert ToText(n)[..0] == "";
    } else {
      TextReadsBack(n / 10);
      var t := ToText(n);
      assert t[..|t| - 1] == ToText(n / 10) && t[|t| - 1] == Digit(n % 10);
    }
  }

  lemma DigitValue(n: nat)
    requires n < 10
    ensures '0' <= Digit(n) <= '9' && Digit(n) as int - '0' as int == n
  {
  }

  /** A number's text is read back as that number. */
  lemma {:induction false} NumberReadsBack(n: nat)
    requires n <= U32_MAX
    ensures ParseU32(ToText(n)) == Some(n)
  {
    TextReadsBack(n);
    assert ToText(n)[0] != '+';
  }

  /** Every workspace goes by the name and display it is registered under. */
  ghost predicate Filed(reg: Registry) {
    forall k | k in reg :: reg[k].name == k.name && reg[k].display == k.display
  }

  /** A display's highest number. */
  ghost function Top(reg: Registry, d: DisplayId): nat {
    hide MaxNumber;
    MaxNumber(reg, d)
  }

  /** The highest number is the one no other exceeds. */
  lemma {:induction false} MaxIs(reg: Registry, d: DisplayId, m: nat)
    requires forall k | k in reg && reg[k].display == d && ParseU32(reg[k].name).Some? :: ParseU32(reg[k].name).value <= m
    requires m == 0 || exists k :: k in reg && reg[k].display == d && ParseU32(reg[k].name) == Some(m)
    ensures Top(reg, d) == m
  {
    hide ParseU32;
  }

  lemma NumberTaken(reg: Registry, d: DisplayId, n: nat)
    requires Filed(reg) && n <= U32_MAX && Key(d, ToText(n)) in reg
    ensures n <= Top(reg, d)
  {
    NumberReadsBack(n);
    hide ToText, ParseU32, MaxNumber;
    assert reg[Key(d, ToText(n))].display == d;
  }

  /** The workspace a display's number stands for. */
  function NameOf(d: DisplayId, n: nat): Key { Key(d, ToText(n)) }

  /** The next name of a display is the number after its highest. */
  lemma {:induction false} NextNumber(reg: Registry, d: DisplayId)
    requires Filed(reg) && Top(reg, d) < U32_MAX
    ensures NextName(reg, d) == Some(NameOf(d, Top(reg, d) + 1)) && NameOf(d, Top(reg, d) + 1) !in reg
  {
    hide ToText, ParseU32;
    if NameOf(d, Top(reg, d) + 1) in reg {
      NumberTaken(reg, d, Top(reg, d) + 1);
    }
  }

  /** A registry with one more workspace, next in its display's numbering and showing the Space. */
  ghost function Extended(reg: Registry, d: DisplayId, x: SpaceId): Registry {
    var k := NameOf(d, Top(reg, d) + 1);
    reg[k := Entry(k.name, d, false, true, NextOrdinal(reg), Some(Normal(x)), None)]
  }

  /** An adopted Space extends its display's numbering by one. */
  lemma {:induction false} AdoptExtends(s: State, x: SpaceId)
    requires x in s.view.spaces && Filed(s.reg) && Top(s.reg, s.view.spaces[x].display) < U32_MAX
    ensures var r := AdoptOne(s, x); r.view == s.view && r.reg == Extended(s.reg, s.view.spaces[x].display, x)
  {
    hide NextOrdinal, ToText, NextName, Top, NameOf;
    NextNumber(s.reg, s.view.spaces[x].display);
  }

  lemma {:induction false} ExtendedMax(reg: Registry, e: DisplayId, x: SpaceId, d: DisplayId)
    requires Filed(reg) && Top(reg, e) < U32_MAX
    ensures var r := Extended(reg, e, x); Filed(r) && Top(r, d) == Top(reg, d) + if e == d then 1 else 0
  {
    hide NextOrdinal, ToText, ParseU32, Top;
    NextNumber(reg, e);
    NumberReadsBack(Top(reg, e) + 1);
    MaxIsReached(reg, d);
    MaxBounds(reg, d);
    var r := Extended(reg, e, x);
    var k := NameOf(e, Top(reg, e) + 1);
    OneMoreNumber(reg, r, k, d, if e == d then Top(reg, d) + 1 else Top(reg, d));
  }

  lemma OneMoreNumber(reg: Registry, r: Registry, k: Key, d: DisplayId, n: nat)
    requires k !in reg && r.Keys == reg.Keys + {k} && (forall j | j in reg :: r[j] == reg[j])
    requires if r[k].display == d then n == Top(reg, d) + 1 && ParseU32(r[k].name) == Some(n) else n == Top(reg, d)
    ensures Top(r, d) == n
  {
    hide ParseU32, Top;
    MaxIsReached(reg, d);
    MaxBounds(reg, d);
    if r[k].display != d && n != 0 {
      var j :| j in reg && reg[j].display == d && ParseU32(reg[j].name) == Some(n);
      assert j in r && r[j].display == d;
    }
    MaxIs(r, d, n);
  }

  lemma MaxBounds(reg: Registry, d: DisplayId)
    ensures forall k | k in reg && reg[k].display == d && ParseU32(reg[k].name).Some? :: ParseU32(reg[k].name).value <= Top(reg, d)
  {
    hide MaxNumber, ParseU32;
  }

  lemma MaxIsReached(reg: Registry, d: DisplayId)
    ensures Top(reg, d) == 0 || exists k :: k in reg && reg[k].display == d && ParseU32(reg[k].name) == Some(Top(reg, d))
  {
    hide MaxNumber, ParseU32;
  }

  /** How many of the Spaces are on the display. */
  function CountOn(spaces: map<SpaceId, Space>, xs: seq<SpaceId>, d: DisplayId): nat
    requires forall x | x in xs :: x in spaces
  {
    if xs == [] then 0 else (if spaces[xs[0]].display == d then 1 else 0) + CountOn(spaces, xs[1..], d)
  }

  /** There are numbers left for all of them. */
  ghost predicate NumbersLeft(reg: Registry, spaces: map<SpaceId, Space>, xs: seq<SpaceId>)
    requires forall x | x in xs :: x in spaces
  {
    forall d :: Top(reg, d) + CountOn(spaces, xs, d) <= U32_MAX
  }

  ghost function ExtendedAll(reg: Registry, spaces: map<SpaceId, Space>, xs: seq<SpaceId>): Registry
    requires forall x | x in xs :: x in spaces
    decreases |xs|
  {
    if xs == [] then reg else ExtendedAll(Extended(reg, spaces[xs[0]].display, xs[0]), spaces, xs[1..])
  }

  lemma {:induction false} NumbersStillLeft(reg: Registry, spaces: map<SpaceId, Space>, xs: seq<SpaceId>)
    requires (forall x | x in xs :: x in spaces) && Filed(reg) && NumbersLeft(reg, spaces, xs) && xs != []
    ensures Top(reg, spaces[xs[0]].display) < U32_MAX
    ensures var r := Extended(reg, spaces[xs[0]].display, xs[0]); Filed(r) && NumbersLeft(r, spaces, xs[1..])
  {
    hide Extended, Top;
    var e := spaces[xs[0]].display;
    assert CountOn(spaces, xs, e) == 1 + CountOn(spaces, xs[1..], e);
    assert Top(reg, e) + CountOn(spaces, xs, e) <= U32_MAX;
    forall d ensures Top(Extended(reg, e, xs[0]), d) + CountOn(spaces, xs[1..], d) <= U32_MAX && Filed(Extended(reg, e, xs[0])) {
      ExtendedMax(reg, e, xs[0], d);
    }
  }

  lemma {:induction false} AdoptAllExtends(s: State, xs: seq<SpaceId>)
    requires (forall x | x in xs :: x in s.view.spaces) && Filed(s.reg) && NumbersLeft(s.reg, s.view.spaces, xs)
    ensures AdoptAll(s, xs).reg == ExtendedAll(s.reg, s.view.spaces, xs)
    decreases |xs|
  {
    hide AdoptOne, Extended, NumbersLeft, Top;
    if xs != [] {
      NumbersStillLeft(s.reg, s.view.spaces, xs);
      AdoptExtends(s, xs[0]);
      AdoptAllExtends(AdoptOne(s, xs[0]), xs[1..]);
    }
  }

  lemma ExtendedKeeps(reg: Registry, d: DisplayId, x: SpaceId, k: Key)
    requires Filed(reg) && Top(reg, d) < U32_MAX && k in reg
    ensures var r := Extended(reg, d, x); k in r && r[k] == reg[k]
  {
    hide NextOrdinal, Top, ToText, Filed, NameOf;
    NextNumber(reg, d);
  }

  lemma {:induction false} ExtendingKeeps(reg: Registry, spaces: map<SpaceId, Space>, xs: seq<SpaceId>, k: Key)
    requires (forall x | x in xs :: x in spaces) && Filed(reg) && NumbersLeft(reg, spaces, xs) && k in reg
    ensures var r := ExtendedAll(reg, spaces, xs); k in r && r[k] == reg[k]
    decreases |xs|
  {
    hide NumbersLeft, Top, NameOf, Extended, Filed;
    if xs != [] {
      NumbersStillLeft(reg, spaces, xs);
      ExtendedKeeps(reg, spaces[xs[0]].display, xs[0], k);
      ExtendingKeeps(Extended(reg, spaces[xs[0]].display, xs[0]), spaces, xs[1..], k);
    }
  }

  /** A dynamic workspace of its own shows the Space. */
  predicate Takes(reg: Registry, k: Key, x: SpaceId) {
    k in reg && reg[k].backing == Some(Normal(x)) && reg[k].dynamic && !reg[k].persistent
  }

  /** Spaces adopted in a row take consecutive numbers, display by display. */
  lemma {:induction false} AdoptedInARow(reg: Registry, spaces: map<SpaceId, Space>, xs: seq<SpaceId>, i: nat)
    requires (forall x | x in xs :: x in spaces) && Filed(reg) && NumbersLeft(reg, spaces, xs) && i < |xs|
    ensures var d := spaces[xs[i]].display;
            Takes(ExtendedAll(reg, spaces, xs), NameOf(d, Top(reg, d) + CountOn(spaces, xs[..i + 1], d)), xs[i])
    decreases |xs|
  {
    hide NumbersLeft, Top, NextOrdinal, NameOf, CountOn, Extended;
    NumbersStillLeft(reg, spaces, xs);
    var e, d := spaces[xs[0]].display, spaces[xs[i]].display;
    var r := Extended(reg, e, xs[0]);
    CountShift(spaces, xs, i, d);
    if i == 0 {
      NewTakes(reg, e, xs[0]);
      ExtendingKeeps(r, spaces, xs[1..], NameOf(e, Top(reg, e) + 1));
    } else {
      ExtendedMax(reg, e, xs[0], d);
      AdoptedInARow(r, spaces, xs[1..], i - 1);
    }
  }

  lemma NewTakes(reg: Registry, d: DisplayId, x: SpaceId)
    ensures Takes(Extended(reg, d, x), NameOf(d, Top(reg, d) + 1), x)
  {
    hide NextOrdinal, NameOf;
  }

  lemma CountShift(spaces: map<SpaceId, Space>, xs: seq<SpaceId>, i: nat, d: DisplayId)
    requires (forall x | x in xs :: x in spaces) && i < |xs|
    ensures (forall x | x in xs[..i + 1] :: x in spaces) && forall x | x in xs[1..][..i] :: x in spaces
    ensures CountOn(spaces, xs[..i + 1], d) == (if spaces[xs[0]].display == d then 1 else 0) + CountOn(spaces, xs[1..][..i], d)
    ensures i == 0 ==> CountOn(spaces, xs[1..][..i], d) == 0
  {
    assert xs[..i + 1][1..] == xs[1..][..i] && xs[..i + 1][0] == xs[0];
  }

  // -------------------------------------------------------------- who is adopted

  /** Somebody uses a Space no workspace knows: an ordinary one, or one already set aside. */
  predicate InUse(s: State, x: SpaceId) {
    && x in s.view.spaces && !s.Known(x) && (s.view.spaces[x].Ordinary() || x in s.external)
    && (s.view.spaces[x].focused || s.view.Occupied(x))
  }

  /** The used strangers of the Space's display that come no later in slot order, itself included. */
  function UpTo(s: State, x: SpaceId): set<SpaceId>
    requires x in s.view.spaces
  {
    set y | y in s.view.spaces && InUse(s, y) && s.view.spaces[y].display == s.view.spaces[x].display
            && SlotLe(s.view.spaces[y], s.view.spaces[x])
  }

  function UsedOn(s: State, d: DisplayId): set<SpaceId> {
    set y | y in s.view.spaces && InUse(s, y) && s.view.spaces[y].display == d
  }

  /** What a pass looks at when it adopts: strangers set aside, old ones and new. */
  ghost function SetAside(s: State, now: Instant): State {
    hide StillExternal, GraceSurplus;
    GraceSurplus(s.(external := StillExternal(s)), now)
  }

  lemma {:induction false} SetAsideKeeps(s: State, now: Instant)
    ensures var r := SetAside(s, now); r.reg == s.reg && r.view == s.view
    ensures forall x: SpaceId :: x in SetAside(s, now).external && x in s.view.spaces <==>
              x in s.view.spaces && !s.Known(x) && (s.view.spaces[x].Ordinary() || x in s.external)
  {
    hide State.Known;
    var s1 := s.(external := StillExternal(s));
    forall x: SpaceId ensures s1.Known(x) == s.Known(x) {
      SameHolders(s, s1, x);
    }
  }

  lemma SameHolders(a: State, b: State, x: SpaceId)
    requires a.reg == b.reg
    ensures a.Known(x) == b.Known(x)
  {
  }

  /** In slot order. */
  predicate BySlot(spaces: map<SpaceId, Space>, xs: seq<SpaceId>)
    requires forall x | x in xs :: x in spaces
  {
    forall i, j | 0 <= i < j < |xs| :: SlotLe(spaces[xs[i]], spaces[xs[j]])
  }

  lemma {:induction false} AdoptableIs(s: State)
    requires s.view.WellKeyed()
    ensures var xs := Adoptable(s);
            && (forall x :: x in xs <==> x in s.external && x in s.view.spaces && (s.view.spaces[x].focused || s.view.Occupied(x)))
            && NoDup(xs) && BySlot(s.view.spaces, xs)
  {
    hide View.Occupied;
    var used := set x | x in s.external && x in s.view.spaces && (s.view.spaces[x].focused || s.view.Occupied(x)) :: s.view.spaces[x];
    SlotTotal(used);
    SortedIsOrdered(used, SlotLe);
    var q := Sorted(used, SlotLe);
    assert Adoptable(s) == Ids(q);
    forall i | 0 <= i < |q| ensures q[i].id in s.view.spaces && s.view.spaces[q[i].id] == q[i] {
      assert q[i] in Elements(q);
    }
    forall x | x in s.external && x in s.view.spaces && (s.view.spaces[x].focused || s.view.Occupied(x)) ensures x in Ids(q) {
      assert s.view.spaces[x] in Elements(q);
      var i :| 0 <= i < |q| && q[i] == s.view.spaces[x];
      assert Ids(q)[i] == x;
    }
  }

  lemma {:induction false} AdoptableIsUsed(s: State, now: Instant)
    requires s.view.WellKeyed()
    ensures var xs := Adoptable(SetAside(s, now));
            && (forall x :: x in xs <==> InUse(s, x)) && (forall x | x in xs :: x in s.view.spaces)
            && NoDup(xs) && BySlot(s.view.spaces, xs)
  {
    hide SetAside, Adoptable, View.Occupied, State.Known;
    SetAsideKeeps(s, now);
    AdoptableIs(SetAside(s, now));
  }

  // ---------------------------------------------------------------- by which name

  function OnDisplay(spaces: map<SpaceId, Space>, xs: seq<SpaceId>, d: DisplayId): set<SpaceId>
    requires forall x | x in xs :: x in spaces
  {
    set x | x in xs && spaces[x].display == d
  }

  lemma OnDisplayFirst(spaces: map<SpaceId, Space>, xs: seq<SpaceId>, d: DisplayId)
    requires (forall x | x in xs :: x in spaces) && xs != [] && xs[0] !in xs[1..]
    ensures |OnDisplay(spaces, xs, d)| == |OnDisplay(spaces, xs[1..], d)| + if spaces[xs[0]].display == d then 1 else 0
  {
    var rest := OnDisplay(spaces, xs[1..], d);
    assert forall x :: x in xs <==> x == xs[0] || x in xs[1..];
    if spaces[xs[0]].display == d {
      assert OnDisplay(spaces, xs, d) == rest + {xs[0]} && xs[0] !in rest;
    } else {
      assert OnDisplay(spaces, xs, d) == rest;
    }
  }

  lemma {:induction false} CountIsSize(spaces: map<SpaceId, Space>, xs: seq<SpaceId>, d: DisplayId)
    requires (forall x | x in xs :: x in spaces) && NoDup(xs)
    ensures CountOn(spaces, xs, d) == |OnDisplay(spaces, xs, d)|
  {
    hide OnDisplay;
    if xs == [] {
      NoneOnDisplay(spaces, d);
    } else {
      assert NoDup(xs[1..]) && xs[0] !in xs[1..];
      CountIsSize(spaces, xs[1..], d);
      OnDisplayFirst(spaces, xs, d);
    }
  }

  lemma NoneOnDisplay(spaces: map<SpaceId, Space>, d: DisplayId)
    ensures OnDisplay(spaces, [], d) == {}
  {
  }

  /** In a list in slot order, what comes up to a place is what slot order puts no later. */
  lemma {:induction false} PrefixIsUpTo(spaces: map<SpaceId, Space>, xs: seq<SpaceId>, i: nat)
    requires (forall x | x in xs :: x in spaces && spaces[x].id == x) && NoDup(xs) && BySlot(spaces, xs) && i < |xs|
    ensures forall y :: y in xs[..i + 1] <==> y in xs && SlotLe(spaces[y], spaces[xs[i]])
  {
    forall y | y in xs && SlotLe(spaces[y], spaces[xs[i]]) ensures y in xs[..i + 1] {
      var j :| 0 <= j < |xs| && xs[j] == y;
      assert i < j ==> SlotLe(spaces[xs[i]], spaces[xs[j]]);
    }
  }

  lemma {:induction false} PlaceIsCount(s: State, xs: seq<SpaceId>, i: nat)
    requires s.view.WellKeyed() && (forall x | x in xs :: x in s.view.spaces) && NoDup(xs) && BySlot(s.view.spaces, xs) && i < |xs|
    requires forall x :: x in xs <==> InUse(s, x)
    ensures CountOn(s.view.spaces, xs[..i + 1], s.view.spaces[xs[i]].display) == |UpTo(s, xs[i])|
  {
    hide InUse, SlotLe;
    var d, q := s.view.spaces[xs[i]].display, xs[..i + 1];
    PrefixIsUpTo(s.view.spaces, xs, i);
    assert NoDup(q);
    CountIsSize(s.view.spaces, q, d);
    assert OnDisplay(s.view.spaces, q, d) == UpTo(s, xs[i]);
  }

  /** Every display has numbers left for the strangers in use on it. */
  ghost predicate RoomToNumber(s: State) {
    forall d :: Top(s.reg, d) + |UsedOn(s, d)| <= U32_MAX
  }

  lemma {:induction false} RoomIsLeft(s: State, xs: seq<SpaceId>)
    requires RoomToNumber(s) && (forall x | x in xs :: x in s.view.spaces) && NoDup(xs) && forall x :: x in xs <==> InUse(s, x)
    ensures NumbersLeft(s.reg, s.view.spaces, xs)
  {
    hide InUse, Top;
    forall d ensures Top(s.reg, d) + CountOn(s.view.spaces, xs, d) <= U32_MAX {
      CountIsSize(s.view.spaces, xs, d);
      assert OnDisplay(s.view.spaces, xs, d) == UsedOn(s, d);
    }
  }

  lemma {:induction false} AdoptsAll(s: State, now: Instant)
    requires s.view.WellKeyed() && s.initialized && s.awaited == [] && Filed(s.reg) && RoomToNumber(s)
    ensures var xs := Adoptable(SetAside(s, now));
            && (forall x | x in xs :: x in s.view.spaces)
            && ObserveExternal(s, now).reg == ExtendedAll(s.reg, s.view.spaces, xs) && NumbersLeft(s.reg, s.view.spaces, xs)
  {
    hide Adoptable, GraceSurplus, StillExternal, AdoptAll, ExtendedAll, InUse, Filed, RoomToNumber, View.WellKeyed;
    SetAsideKeeps(s, now);
    AdoptableIsUsed(s, now);
    var xs := Adoptable(SetAside(s, now));
    RoomIsLeft(s, xs);
    AdoptAllExtends(SetAside(s, now), xs);
  }

  /**
   * Once the engine adopts, with nothing awaited: every stranger in use becomes a dynamic workspace
   * of its display, numbered on from the display's highest number in slot order.
   */
  lemma {:induction false} AdoptedByPlace(s: State, now: Instant, x: SpaceId)
    requires s.view.WellKeyed() && s.initialized && s.awaited == [] && Filed(s.reg) && RoomToNumber(s) && InUse(s, x)
    ensures var d := s.view.spaces[x].display;
            Takes(ObserveExternal(s, now).reg, NameOf(d, Top(s.reg, d) + |UpTo(s, x)|), x)
  {
    hide ObserveExternal, Adoptable, ExtendedAll, Filed, RoomToNumber, Top, NameOf, UpTo, Takes, NumbersLeft, SetAside, BySlot, SlotLe, State.Known, View.Occupied;
    SetAsideKeeps(s, now);
    AdoptsAll(s, now);
    AdoptableIsUsed(s, now);
    var xs := Adoptable(SetAside(s, now));
    assert x in xs;
    var i :| 0 <= i < |xs| && xs[i] == x;
    AdoptedInARow(s.reg, s.view.spaces, xs, i);
    PlaceIsCount(s, xs, i);
  }

  lemma {:induction false} ExtendedOnly(reg: Registry, spaces: map<SpaceId, Space>, xs: seq<SpaceId>, k: Key)
    requires (forall x | x in xs :: x in spaces) && Filed(reg) && NumbersLeft(reg, spaces, xs)
    requires k in ExtendedAll(reg, spaces, xs) && k !in reg
    ensures exists x :: x in xs && Takes(ExtendedAll(reg, spaces, xs), k, x)
    decreases |xs|
  {
    hide NumbersLeft, Top, NameOf, Extended, Filed, Takes;
    if xs != [] {
      var d := spaces[xs[0]].display;
      var r := Extended(reg, d, xs[0]);
      NumbersStillLeft(reg, spaces, xs);
      if k in r {
        ExtendedBy(reg, d, xs[0], k);
        ExtendingKeeps(r, spaces, xs[1..], k);
        TakenStays(r, ExtendedAll(reg, spaces, xs), k, xs[0]);
        assert xs[0] in xs;
      } else {
        ExtendedOnly(r, spaces, xs[1..], k);
        var x :| x in xs[1..] && Takes(ExtendedAll(r, spaces, xs[1..]), k, x);
        assert x in xs;
      }
    }
  }

  lemma ExtendedBy(reg: Registry, d: DisplayId, x: SpaceId, k: Key)
    requires k in Extended(reg, d, x) && k !in reg
    ensures Takes(Extended(reg, d, x), k, x)
  {
    hide NextOrdinal, Top, NameOf;
  }

  lemma TakenStays(a: Registry, b: Registry, k: Key, x: SpaceId)
    requires Takes(a, k, x) && k in b && b[k] == a[k]
    ensures Takes(b, k, x)
  {
  }

  /** Nobody else is registered by adopting, and nobody is changed by it. */
  lemma {:induction false} AdoptsOnlyUsed(s: State, now: Instant, k: Key)
    requires s.view.WellKeyed() && Filed(s.reg) && RoomToNumber(s)
    ensures var r := ObserveExternal(s, now).reg;
            && (k in s.reg ==> k in r && r[k] == s.reg[k])
            && (k in r && k !in s.reg ==> s.initialized && s.awaited == [] && exists x :: InUse(s, x) && Takes(r, k, x))
  {
    hide *;
    SetAsideKeeps(s, now);
    if s.initialized && s.awaited == [] {
      AdoptsAll(s, now);
      AdoptableIsUsed(s, now);
      var xs := Adoptable(SetAside(s, now));
      if k in s.reg {
        ExtendingKeeps(s.reg, s.view.spaces, xs, k);
      } else if k in ExtendedAll(s.reg, s.view.spaces, xs) {
        ExtendedOnly(s.reg, s.view.spaces, xs, k);
      }
    } else {
      AdoptsNobody(s, now);
    }
  }

  lemma AdoptsNobody(s: State, now: Instant)
    requires s.view.WellKeyed() && (!s.initialized || s.awaited != [])
    ensures ObserveExternal(s, now).reg == s.reg
  {
    hide StillExternal, GraceSurplus, View.WellKeyed;
  }
}
