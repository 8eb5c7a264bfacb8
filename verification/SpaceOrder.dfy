/** Sorting one display's reserved Spaces into logical order with "move after" steps. */
module SpaceOrder {
  import opened Basics
  import opened Observed

  datatype Move = Move(space: SpaceId, after: SpaceId)

  function IndexOf(s: seq<SpaceId>, x: SpaceId): (i: nat)
    requires x in s
    ensures i < |s| && s[i] == x && x !in s[..i]
  {
    if s[0] == x then 0 else 1 + IndexOf(s[1..], x)
  }

  lemma IndexUnique(s: seq<SpaceId>, i: nat)
    requires i < |s| && s[i] !in s[..i]
    ensures IndexOf(s, s[i]) == i
  {
  }

  function Without(s: seq<SpaceId>, x: SpaceId): seq<SpaceId> {
    if s == [] then []
    else if s[0] == x then Without(s[1..], x)
    else [s[0]] + Without(s[1..], x)
  }

  lemma WithoutKeeps(s: seq<SpaceId>, x: SpaceId, y: SpaceId)
    requires y in s && y != x
    ensures y in Without(s, x)
  {
  }

  /** What the platform does with MoveSpace: take the Space out, put it back right after `after`. */
  function MoveAfter(s: seq<SpaceId>, m: Move): seq<SpaceId>
    requires m.after in s && m.space != m.after
  {
    WithoutKeeps(s, m.space, m.after);
    var rest := Without(s, m.space);
    var j := IndexOf(rest, m.after);
    rest[..j + 1] + [m.space] + rest[j + 1..]
  }

  function FirstMismatch(a: seq<SpaceId>, d: seq<SpaceId>): (i: nat)
    requires |a| == |d| && a != d
    ensures i < |a| && a[i] != d[i] && a[..i] == d[..i]
  {
    if a[0] != d[0] then 0
    else
      assert a == [a[0]] + a[1..] && d == [d[0]] + d[1..];
      1 + FirstMismatch(a[1..], d[1..])
  }

  /** The next correction: bring the wanted Space up, or push the usurper of the first slot back. */
  function NextMove(actual: seq<SpaceId>, desired: seq<SpaceId>): Option<Move>
    requires |actual| == |desired|
  {
    if actual == desired then None
    else
      var i := FirstMismatch(actual, desired);
      Some(if i == 0 then Move(actual[0], desired[0]) else Move(desired[i], desired[i - 1]))
  }

  /** The same Spaces, each once, in whatever order. */
  ghost predicate SameSpaces(a: seq<SpaceId>, d: seq<SpaceId>) {
    NoDup(a) && NoDup(d) && |a| == |d| && forall x :: x in a <==> x in d
  }

  lemma {:induction false} WithoutAppend(a: seq<SpaceId>, b: seq<SpaceId>, x: SpaceId)
    ensures Without(a + b, x) == Without(a, x) + Without(b, x)
  {
    if a == [] {
      assert a + b == b;
    } else {
      assert (a + b)[0] == a[0] && (a + b)[1..] == a[1..] + b;
      WithoutAppend(a[1..], b, x);
    }
  }

  lemma WithoutStranger(s: seq<SpaceId>, x: SpaceId)
    requires x !in s
    ensures Without(s, x) == s
  {
  }

  lemma {:induction false} WithoutOne(u: seq<SpaceId>, x: SpaceId, v: seq<SpaceId>)
    requires x !in u && x !in v
    ensures Without(u + [x] + v, x) == u + v
  {
    assert Without([x], x) == [];
    hide Without;
    WithoutAppend(u + [x], v, x);
    WithoutAppend(u, [x], x);
    WithoutStranger(u, x);
    WithoutStranger(v, x);
  }

  lemma {:induction false} AfterHead(u: seq<SpaceId>, t: SpaceId, v: seq<SpaceId>)
    requires t !in u
    ensures t in u + [t] + v && IndexOf(u + [t] + v, t) == |u|
  {
    var s := u + [t] + v;
    assert s[|u|] == t && s[..|u|] == u;
    IndexUnique(s, |u|);
  }

  /** Moving a Space back, past everything up to and including `t`. */
  lemma {:induction false} MoveBack(u: seq<SpaceId>, x: SpaceId, v: seq<SpaceId>, t: SpaceId, w: seq<SpaceId>)
    requires NoDup(u + [x] + v + [t] + w)
    ensures x != t && t in u + [x] + v + [t] + w
    ensures MoveAfter(u + [x] + v + [t] + w, Move(x, t)) == u + v + [t] + [x] + w
    ensures SameSpaces(u + v + [t] + [x] + w, u + [x] + v + [t] + w)
  {
    hide NoDup, Without, IndexOf, SameSpaces;
    var s := u + [x] + v + [t] + w;
    BackParts(u, x, v, t, w);
    Rearranged(u + v + [t] + [x] + w, s);
    Alone(u, x, v + [t] + w);
    WithoutOne(u, x, v + [t] + w);
    Alone(u + [x] + v, t, w);
    TakenUp(u + v, t, w, x);
  }

  lemma BackParts(u: seq<SpaceId>, x: SpaceId, v: seq<SpaceId>, t: SpaceId, w: seq<SpaceId>)
    ensures var s := u + [x] + v + [t] + w;
            && s == u + [x] + (v + [t] + w) && s == (u + [x] + v) + [t] + w && t in s
            && u + (v + [t] + w) == (u + v) + [t] + w && multiset(u + v + [t] + [x] + w) == multiset(s)
  {
    assert u + [x] + v + [t] + w == u + [x] + (v + [t] + w);
  }

  /** Moving a Space forward, to right after `t`. */
  lemma {:induction false} MoveUp(u: seq<SpaceId>, t: SpaceId, v: seq<SpaceId>, x: SpaceId, w: seq<SpaceId>)
    requires NoDup(u + [t] + v + [x] + w)
    ensures x != t && t in u + [t] + v + [x] + w
    ensures MoveAfter(u + [t] + v + [x] + w, Move(x, t)) == u + [t] + [x] + v + w
    ensures SameSpaces(u + [t] + [x] + v + w, u + [t] + v + [x] + w)
  {
    hide NoDup, Without, IndexOf, SameSpaces;
    var s := u + [t] + v + [x] + w;
    UpParts(u, t, v, x, w);
    Alone(u, t, v + [x] + w);
    Alone(u + [t] + v, x, w);
    WithoutOne(u + [t] + v, x, w);
    TakenUp(u, t, v + w, x);
    Rearranged(u + [t] + [x] + v + w, s);
  }

  lemma UpParts(u: seq<SpaceId>, t: SpaceId, v: seq<SpaceId>, x: SpaceId, w: seq<SpaceId>)
    ensures var s := u + [t] + v + [x] + w;
            && s == u + [t] + (v + [x] + w) && t in s && u + [t] + v + w == u + [t] + (v + w)
            && u + [t] + [x] + (v + w) == u + [t] + [x] + v + w && multiset(u + [t] + [x] + v + w) == multiset(s)
  {
    assert u + [t] + v + [x] + w == u + [t] + (v + [x] + w);
  }

  lemma {:induction false} TakenUp(u: seq<SpaceId>, t: SpaceId, rest: seq<SpaceId>, x: SpaceId)
    requires t !in u
    ensures var s := u + [t] + rest;
            t in s && s[..IndexOf(s, t) + 1] + [x] + s[IndexOf(s, t) + 1..] == u + [t] + [x] + rest
  {
    AfterHead(u, t, rest);
    var s := u + [t] + rest;
    assert s[..|u| + 1] == u + [t] && s[|u| + 1..] == rest;
  }

  lemma {:induction false} Alone(u: seq<SpaceId>, x: SpaceId, v: seq<SpaceId>)
    requires NoDup(u + [x] + v)
    ensures x !in u && x !in v
  {
    NoDupConcat(u + [x], v);
    NoDupConcat(u, [x]);
    assert x in Elements([x]) && x in Elements(u + [x]);
    assert forall y :: (y in u ==> y in Elements(u)) && (y in v ==> y in Elements(v));
  }

  lemma {:induction false} Rearranged(a: seq<SpaceId>, b: seq<SpaceId>)
    requires multiset(a) == multiset(b) && NoDup(b)
    ensures SameSpaces(a, b)
  {
    RearrangedNoDup(a, b);
    forall x ensures x in a <==> x in b {
      assert x in a <==> x in multiset(a);
      assert x in b <==> x in multiset(b);
    }
  }

  /**
   * How many corrections can still be needed: first walk the wanted head to the front, then
   * extend the matching prefix. Lexicographic in (first phase, position), folded into one number.
   */
  ghost function Budget(a: seq<SpaceId>, d: seq<SpaceId>): int
    requires SameSpaces(a, d)
  {
    if a == d then 0
    else if a[0] != d[0] then assert d[0] in a; IndexOf(a, d[0]) + |d| - 2
    else |d| - 1 - FirstMismatch(a, d)
  }

  lemma {:induction false} BudgetBounds(a: seq<SpaceId>, d: seq<SpaceId>)
    requires SameSpaces(a, d)
    ensures a == d ==> Budget(a, d) == 0
    ensures a != d ==> 0 < Budget(a, d) <= 2 * |d| - 3
  {
    if a != d {
      var i := FirstMismatch(a, d);
      assert i < |d| - 1 by {
        if i == |d| - 1 {
          LastAgrees(a, d);
        }
      }
    }
  }

  /** Two orders of the same Spaces cannot differ in the last place alone. */
  lemma {:induction false} LastAgrees(a: seq<SpaceId>, d: seq<SpaceId>)
    requires SameSpaces(a, d) && a != [] && a[..|a| - 1] == d[..|d| - 1]
    ensures a == d
  {
    var n := |a|;
    assert d[n - 1] in a;
    var k :| 0 <= k < n && a[k] == d[n - 1];
    assert forall j | 0 <= j < n - 1 :: a[j] == a[..n - 1][j] == d[..n - 1][j] == d[j];
  }

  /** Pushing the usurper back walks the wanted head one place forward. */
  lemma {:induction false} HeadWalks(a: seq<SpaceId>, d: seq<SpaceId>) returns (r: seq<SpaceId>)
    requires SameSpaces(a, d) && a != [] && a[0] != d[0]
    ensures d[0] in a && r == MoveAfter(a, Move(a[0], d[0])) && SameSpaces(r, d)
    ensures d[0] in r && IndexOf(r, d[0]) == IndexOf(a, d[0]) - 1
  {
    assert d[0] in a;
    var j := IndexOf(a, d[0]);
    var v, w := a[1..j], a[j + 1..];
    assert d[0] !in v by { assert v == a[..j][1..]; }
    assert a == [] + [a[0]] + v + [d[0]] + w;
    hide MoveAfter, IndexOf;
    MoveBack([], a[0], v, d[0], w);
    r := [] + v + [d[0]] + [a[0]] + w;
    assert r == v + [d[0]] + ([a[0]] + w);
    AfterHead(v, d[0], [a[0]] + w);
  }

  /** Placing the head takes a step off the first phase. */
  lemma {:induction false} HeadCorrection(a: seq<SpaceId>, d: seq<SpaceId>)
    requires SameSpaces(a, d) && a != d && a[0] != d[0]
    ensures d[0] in a && SameSpaces(MoveAfter(a, Move(a[0], d[0])), d)
    ensures Budget(MoveAfter(a, Move(a[0], d[0])), d) < Budget(a, d)
  {
    var r := HeadWalks(a, d);
    hide MoveAfter;
    BudgetBounds(r, d);
    if IndexOf(r, d[0]) > 0 {
      assert r[0] in r[..IndexOf(r, d[0])];
    }
  }

  lemma {:induction false} SamePrefix(a: seq<SpaceId>, d: seq<SpaceId>, i: nat)
    requires i <= |a| && i <= |d| && a[..i] == d[..i]
    ensures forall j | 0 <= j < i :: a[j] == d[j]
  {
    assert forall j | 0 <= j < i :: a[j] == a[..i][j] == d[..i][j] == d[j];
  }

  /** Bringing the wanted Space up extends the matching prefix. */
  lemma {:induction false} PrefixGrows(a: seq<SpaceId>, d: seq<SpaceId>, i: nat) returns (r: seq<SpaceId>)
    requires SameSpaces(a, d) && 0 < i < |a| && a[..i] == d[..i] && a[i] != d[i]
    ensures d[i - 1] in a && d[i] in a && d[i] != d[i - 1]
    ensures r == MoveAfter(a, Move(d[i], d[i - 1])) && SameSpaces(r, d)
    ensures forall j | 0 <= j <= i :: r[j] == d[j]
  {
    SamePrefix(a, d, i);
    assert d[i] in a;
    var k := IndexOf(a, d[i]);
    assert k > i;
    hide MoveAfter, IndexOf;
    var u, t, v, w := a[..i - 1], a[i - 1], a[i..k], a[k + 1..];
    assert a == u + [t] + v + [d[i]] + w;
    MoveUp(u, t, v, d[i], w);
    r := u + [t] + [d[i]] + v + w;
  }

  lemma {:induction false} PrefixCorrection(a: seq<SpaceId>, d: seq<SpaceId>)
    requires SameSpaces(a, d) && a != d && a[0] == d[0]
    ensures var i := FirstMismatch(a, d);
            && i > 0 && d[i - 1] in a && d[i] in a && d[i] != d[i - 1]
            && SameSpaces(MoveAfter(a, Move(d[i], d[i - 1])), d)
            && Budget(MoveAfter(a, Move(d[i], d[i - 1])), d) < Budget(a, d)
  {
    var i := FirstMismatch(a, d);
    BudgetBounds(a, d);
    var r := PrefixGrows(a, d, i);
    BudgetBounds(r, d);
    hide MoveAfter, SameSpaces;
    if r != d {
      assert r[0] == d[0];
      assert FirstMismatch(r, d) > i;
    }
  }

  /** Each correction keeps the Spaces and strictly lowers what is left to do. */
  lemma {:induction false} CorrectionMakesProgress(a: seq<SpaceId>, d: seq<SpaceId>)
    requires SameSpaces(a, d) && a != d
    ensures var m := NextMove(a, d).value;
            && m.after in a && m.space in a && m.space != m.after
            && m.space in d && m.after in d
            && SameSpaces(MoveAfter(a, m), d)
            && Budget(MoveAfter(a, m), d) < Budget(a, d)
  {
    if a[0] != d[0] {
      HeadCorrection(a, d);
    } else {
      PrefixCorrection(a, d);
    }
  }

  // -------------------------------------------------- Spaces nobody reserved

  /** The reserved Spaces in native order. */
  function Projected(native: seq<SpaceId>, desired: seq<SpaceId>): seq<SpaceId> {
    if native == [] then []
    else if native[0] in desired then [native[0]] + Projected(native[1..], desired)
    else Projected(native[1..], desired)
  }

  lemma {:induction false} ProjectedAppend(a: seq<SpaceId>, b: seq<SpaceId>, desired: seq<SpaceId>)
    ensures Projected(a + b, desired) == Projected(a, desired) + Projected(b, desired)
  {
    if a == [] {
      assert a + b == b;
    } else {
      assert (a + b)[0] == a[0] && (a + b)[1..] == a[1..] + b;
      ProjectedAppend(a[1..], b, desired);
    }
  }

  lemma {:induction false} ProjectedMembers(native: seq<SpaceId>, desired: seq<SpaceId>)
    ensures forall x :: x in Projected(native, desired) <==> x in native && x in desired
    ensures NoDup(native) ==> NoDup(Projected(native, desired))
  {
    if native != [] {
      ProjectedMembers(native[1..], desired);
      if NoDup(native) {
        assert NoDup(native[1..]) && native[0] !in native[1..];
      }
    }
  }

  lemma {:induction false} ProjectedWithout(native: seq<SpaceId>, desired: seq<SpaceId>, x: SpaceId)
    ensures Projected(Without(native, x), desired) == Without(Projected(native, desired), x)
  {
    if native != [] {
      ProjectedWithout(native[1..], desired, x);
      var rest := Without(native[1..], x);
      if native[0] != x {
        assert Without(native, x)[1..] == rest;
      }
    }
  }

  lemma {:induction false} ProjectedIndex(s: seq<SpaceId>, desired: seq<SpaceId>, x: SpaceId)
    requires x in s && x in desired
    ensures var j := IndexOf(s, x);
            var p := Projected(s, desired);
            && x in p
            && p[..IndexOf(p, x) + 1] == Projected(s[..j + 1], desired)
            && p[IndexOf(p, x) + 1..] == Projected(s[j + 1..], desired)
  {
    var j := IndexOf(s, x);
    var head, tail := s[..j], s[j + 1..];
    assert s == head + [x] + tail && s[..j + 1] == head + [x];
    ProjectedAppend(head + [x], tail, desired);
    ProjectedAppend(head, [x], desired);
    ProjectedMembers(head, desired);
    assert Projected([x], desired) == [x];
    var p, h := Projected(s, desired), Projected(head, desired);
    assert p == h + [x] + Projected(tail, desired);
    assert p[|h|] == x && p[..|h|] == h;
    IndexUnique(p, |h|);
  }

  /** Unreserved Spaces in between do not matter: a move commutes with looking only at the reserved ones. */
  lemma {:induction false} MoveCommutesWithProjection(native: seq<SpaceId>, desired: seq<SpaceId>, m: Move)
    requires m.after in native && m.space != m.after && m.space in desired && m.after in desired
    ensures m.after in Projected(native, desired)
    ensures Projected(MoveAfter(native, m), desired) == MoveAfter(Projected(native, desired), m)
  {
    hide Projected, Without, IndexOf, NoDup;
    ProjectedMembers(native, desired);
    ProjectedWithout(native, desired, m.space);
    WithoutKeeps(native, m.space, m.after);
    ProjectedInsert(Without(native, m.space), desired, m);
  }

  /** Putting a reserved Space after another is the same in the list of reserved Spaces. */
  lemma {:induction false} ProjectedInsert(rest: seq<SpaceId>, desired: seq<SpaceId>, m: Move)
    requires m.after in rest && m.space in desired && m.after in desired
    ensures var j, p := IndexOf(rest, m.after), Projected(rest, desired);
            && m.after in p
            && Projected(rest[..j + 1] + [m.space] + rest[j + 1..], desired)
               == p[..IndexOf(p, m.after) + 1] + [m.space] + p[IndexOf(p, m.after) + 1..]
  {
    assert Projected([m.space], desired) == [m.space];
    hide Projected, IndexOf, NoDup;
    var j := IndexOf(rest, m.after);
    ProjectedIndex(rest, desired, m.after);
    ProjectedAppend(rest[..j + 1] + [m.space], rest[j + 1..], desired);
    ProjectedAppend(rest[..j + 1], [m.space], desired);
  }

  /** A native list, left alone except for corrections, after `passes` of them. */
  function Settle(native: seq<SpaceId>, desired: seq<SpaceId>, passes: nat): (r: seq<SpaceId>)
    requires NoDup(native) && NoDup(desired) && forall x | x in desired :: x in native
    ensures NoDup(r) && forall x :: x in r <==> x in native
    decreases passes
  {
    ProjectionHolds(native, desired);
    var actual := Projected(native, desired);
    if passes == 0 || actual == desired then native
    else
      CorrectionMakesProgress(actual, desired);
      var m := NextMove(actual, desired).value;
      MoveOnNative(native, m);
      Settle(MoveAfter(native, m), desired, passes - 1)
  }

  lemma {:induction false} ProjectionHolds(native: seq<SpaceId>, desired: seq<SpaceId>)
    requires NoDup(native) && NoDup(desired) && forall x | x in desired :: x in native
    ensures SameSpaces(Projected(native, desired), desired)
  {
    var p := Projected(native, desired);
    ProjectedMembers(native, desired);
    NoDupSize(p);
    NoDupSize(desired);
    assert Elements(p) == Elements(desired);
  }

  lemma {:induction false} MoveOnNative(native: seq<SpaceId>, m: Move)
    requires NoDup(native) && m.space in native && m.after in native && m.space != m.after
    ensures NoDup(MoveAfter(native, m)) && forall x :: x in MoveAfter(native, m) <==> x in native
  {
    var i, j := IndexOf(native, m.space), IndexOf(native, m.after);
    if i < j {
      assert native == native[..i] + [m.space] + native[i + 1..j] + [m.after] + native[j + 1..];
      MoveBack(native[..i], m.space, native[i + 1..j], m.after, native[j + 1..]);
    } else {
      assert native == native[..j] + [m.after] + native[j + 1..i] + [m.space] + native[i + 1..];
      MoveUp(native[..j], m.after, native[j + 1..i], m.space, native[i + 1..]);
    }
  }

  /** Corrections a native list can still need. */
  ghost function BudgetOf(native: seq<SpaceId>, desired: seq<SpaceId>): int
    requires NoDup(native) && NoDup(desired) && forall x | x in desired :: x in native
  {
    ProjectionHolds(native, desired);
    Budget(Projected(native, desired), desired)
  }

  lemma {:induction false} SettlesWithinBudget(native: seq<SpaceId>, desired: seq<SpaceId>, passes: nat)
    requires NoDup(native) && NoDup(desired) && forall x | x in desired :: x in native
    requires passes >= BudgetOf(native, desired)
    ensures Projected(Settle(native, desired, passes), desired) == desired
    decreases passes
  {
    hide Budget, MoveAfter, FirstMismatch, NoDup, Projected;
    ProjectionHolds(native, desired);
    var actual := Projected(native, desired);
    BudgetBounds(actual, desired);
    if actual != desired {
      CorrectionMakesProgress(actual, desired);
      var m := NextMove(actual, desired).value;
      MoveOnNative(native, m);
      ProjectedMembers(native, desired);
      MoveCommutesWithProjection(native, desired, m);
      SettlesWithinBudget(MoveAfter(native, m), desired, passes - 1);
    }
  }

  /** The bound: 2n - 3 corrections put n >= 2 reserved Spaces into logical order, whatever lies between. */
  lemma {:induction false} SettlesWithin2nMinus3(native: seq<SpaceId>, desired: seq<SpaceId>)
    requires NoDup(native) && NoDup(desired) && |desired| >= 2 && forall x | x in desired :: x in native
    ensures Projected(Settle(native, desired, 2 * |desired| - 3), desired) == desired
  {
    hide Budget, Settle, NoDup, Projected;
    ProjectionHolds(native, desired);
    BudgetBounds(Projected(native, desired), desired);
    SettlesWithinBudget(native, desired, 2 * |desired| - 3);
  }
}
