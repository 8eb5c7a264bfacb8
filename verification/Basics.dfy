/** Shared vocabulary: optional values, filtered sequences and sorting a finite set. */
module Basics {

  datatype Option<+T> = None | Some(value: T)

  // ---------------------------------------------------------------- sequences

  ghost predicate NoDup<T>(s: seq<T>) {
    forall i, j | 0 <= i < j < |s| :: s[i] != s[j]
  }

  ghost function Elements<T>(s: seq<T>): set<T> {
    set x | x in s
  }

  /** The subsequence of `s` whose elements are in `keep`. */
  function Keep<T(==,!new)>(s: seq<T>, keep: set<T>): (r: seq<T>)
    ensures forall x :: x in r <==> x in s && x in keep
    ensures |r| <= |s|
  {
    if s == [] then []
    else if s[0] in keep then [s[0]] + Keep(s[1..], keep)
    else Keep(s[1..], keep)
  }

  lemma {:induction false} KeepAppend<T(!new)>(a: seq<T>, b: seq<T>, keep: set<T>)
    ensures Keep(a + b, keep) == Keep(a, keep) + Keep(b, keep)
  {
    if a == [] {
      assert a + b == b;
    } else {
      assert a + b == [a[0]] + (a[1..] + b);
      KeepAppend(a[1..], b, keep);
    }
  }

  lemma {:induction false} KeepNoDup<T(!new)>(s: seq<T>, keep: set<T>)
    requires NoDup(s)
    ensures NoDup(Keep(s, keep))
  {
    if s != [] {
      assert NoDup(s[1..]);
      KeepNoDup(s[1..], keep);
      assert s[0] !in s[1..];
    }
  }

  lemma {:induction false} KeepAll<T(!new)>(s: seq<T>, keep: set<T>)
    requires forall x | x in s :: x in keep
    ensures Keep(s, keep) == s
  {
    if s != [] {
      KeepAll(s[1..], keep);
    }
  }

  lemma KeepAgree<T(!new)>(s: seq<T>, a: set<T>, b: set<T>)
    requires forall x | x in s :: x in a <==> x in b
    ensures Keep(s, a) == Keep(s, b)
  {
  }

  lemma {:induction false} KeepKeep<T(!new)>(s: seq<T>, a: set<T>, b: set<T>)
    ensures Keep(Keep(s, a), b) == Keep(s, a * b)
  {
    if s != [] {
      KeepKeep(s[1..], a, b);
    }
  }

  lemma {:induction false} NoDupConcat<T>(a: seq<T>, b: seq<T>)
    ensures NoDup(a + b) <==> NoDup(a) && NoDup(b) && Elements(a) !! Elements(b)
  {
    if NoDup(a + b) {
      forall i, j | 0 <= i < j < |a| ensures a[i] != a[j] {
        assert (a + b)[i] != (a + b)[j];
      }
      forall i, j | 0 <= i < j < |b| ensures b[i] != b[j] {
        assert (a + b)[|a| + i] != (a + b)[|a| + j];
      }
      forall i, j | 0 <= i < |a| && 0 <= j < |b| ensures a[i] != b[j] {
        assert (a + b)[i] != (a + b)[|a| + j];
      }
    }
    if NoDup(a) && NoDup(b) && Elements(a) !! Elements(b) {
      forall i, j | 0 <= i < j < |a + b| ensures (a + b)[i] != (a + b)[j] {
        if i < |a| <= j {
          assert a[i] in Elements(a) && b[j - |a|] in Elements(b);
        }
      }
    }
  }

  /** A duplicate-free sequence has as many elements as its element set. */
  lemma {:induction false} NoDupSize<T>(s: seq<T>)
    requires NoDup(s)
    ensures |Elements(s)| == |s|
  {
    if s != [] {
      assert NoDup(s[1..]);
      NoDupSize(s[1..]);
      assert s[0] !in s[1..];
      assert Elements(s) == {s[0]} + Elements(s[1..]);
    }
  }

  /** Conversely, a sequence no longer than its element set has no duplicates. */
  lemma {:induction false} SizeBound<T>(s: seq<T>)
    ensures |Elements(s)| <= |s|
    ensures |Elements(s)| == |s| ==> NoDup(s)
  {
    if s != [] {
      SizeBound(s[1..]);
      var rest := Elements(s[1..]);
      assert Elements(s) == {s[0]} + rest;
      if s[0] in rest {
        assert Elements(s) == rest;
      } else if |Elements(s)| == |s| {
        forall i, j | 0 <= i < j < |s| ensures s[i] != s[j] {
          if i == 0 {
            assert s[j] in s[1..];
          } else {
            assert s[1..][i - 1] != s[1..][j - 1];
          }
        }
      }
    }
  }

  lemma {:induction false} CountOnce<T>(s: seq<T>, x: T)
    requires NoDup(s)
    ensures multiset(s)[x] == if x in s then 1 else 0
  {
    if s != [] {
      assert s == [s[0]] + s[1..];
      assert NoDup(s[1..]) && s[0] !in s[1..];
      CountOnce(s[1..], x);
    }
  }

  /** Rearranging a duplicate-free list keeps it duplicate-free, with the same members. */
  lemma {:induction false} RearrangedNoDup<T>(a: seq<T>, b: seq<T>)
    requires multiset(a) == multiset(b) && NoDup(b)
    ensures NoDup(a) && |a| == |b|
  {
    forall i, j | 0 <= i < j < |a| ensures a[i] != a[j] {
      var x, y := a[i], a[j];
      assert a == a[..i] + [x] + a[i + 1..j] + [y] + a[j + 1..];
      CountOnce(b, x);
      assert multiset(a)[x] <= 1;
    }
    assert |multiset(a)| == |a| && |multiset(b)| == |b|;
  }

  // ------------------------------------------------------------------ sorting

  ghost predicate TotalOn<T(!new)>(le: (T, T) -> bool, s: set<T>) {
    && (forall a, b | a in s && b in s :: le(a, b) || le(b, a))
    && (forall a, b | a in s && b in s && le(a, b) && le(b, a) :: a == b)
    && (forall a, b, c | a in s && b in s && c in s && le(a, b) && le(b, c) :: le(a, c))
  }

  ghost predicate SortedBy<T(!new)>(q: seq<T>, le: (T, T) -> bool) {
    forall i, j | 0 <= i < j < |q| :: le(q[i], q[j])
  }

  lemma TotalSubset<T(!new)>(le: (T, T) -> bool, s: set<T>, t: set<T>)
    requires TotalOn(le, s) && t <= s
    ensures TotalOn(le, t)
  {
  }

  lemma {:induction false} LeastExists<T(!new)>(s: set<T>, le: (T, T) -> bool) returns (m: T)
    requires s != {} && TotalOn(le, s)
    ensures m in s && forall x | x in s :: le(m, x)
  {
    m :| m in s;
    assert le(m, m);
    if s != {m} {
      var rest := s - {m};
      var k := LeastExists(rest, le);
      if le(k, m) {
        m := k;
      }
    }
  }

  ghost function Least<T(!new)>(s: set<T>, le: (T, T) -> bool): (m: T)
    requires s != {} && TotalOn(le, s)
    ensures m in s && forall x | x in s :: le(m, x)
  {
    assert exists m :: m in s && forall x | x in s :: le(m, x) by {
      var m := LeastExists(s, le);
    }
    var m :| m in s && forall x | x in s :: le(m, x);
    m
  }

  /** The elements of `s` in `le` order. */
  ghost function Sorted<T(!new)>(s: set<T>, le: (T, T) -> bool): seq<T>
    requires TotalOn(le, s)
    decreases |s|
  {
    if s == {} then []
    else
      var m := Least(s, le);
      TotalSubset(le, s, s - {m});
      [m] + Sorted(s - {m}, le)
  }

  lemma {:induction false} SortedIsOrdered<T(!new)>(s: set<T>, le: (T, T) -> bool)
    requires TotalOn(le, s)
    ensures Elements(Sorted(s, le)) == s && |Sorted(s, le)| == |s|
    ensures NoDup(Sorted(s, le)) && SortedBy(Sorted(s, le), le)
    decreases |s|
  {
    hide TotalOn;
    if s != {} {
      var m := Least(s, le);
      TotalSubset(le, s, s - {m});
      SortedIsOrdered(s - {m}, le);
      LeastFirst(m, Sorted(s - {m}, le), s, le);
    }
  }

  lemma {:induction false} LeastFirst<T(!new)>(m: T, rest: seq<T>, s: set<T>, le: (T, T) -> bool)
    requires m in s && forall x | x in s :: le(m, x)
    requires Elements(rest) == s - {m} && NoDup(rest) && SortedBy(rest, le)
    ensures Elements([m] + rest) == s && NoDup([m] + rest) && SortedBy([m] + rest, le)
  {
    assert forall x :: x in rest <==> x in Elements(rest);
    forall x ensures x in Elements([m] + rest) <==> x in s {
      assert x in [m] + rest <==> x == m || x in rest;
    }
  }

  lemma SortedStep<T(!new)>(s: set<T>, le: (T, T) -> bool)
    requires TotalOn(le, s) && s != {}
    ensures TotalOn(le, s - {Least(s, le)})
    ensures Sorted(s, le) == [Least(s, le)] + Sorted(s - {Least(s, le)}, le)
  {
  }

  lemma {:induction false} HeadIsLeast<T(!new)>(q: seq<T>, s: set<T>, le: (T, T) -> bool)
    requires TotalOn(le, s) && s != {}
    requires Elements(q) == s && NoDup(q) && SortedBy(q, le)
    ensures q != [] && q[0] == Least(s, le)
    ensures Elements(q[1..]) == s - {q[0]} && NoDup(q[1..]) && SortedBy(q[1..], le)
  {
    var m := Least(s, le);
    assert m in Elements(q);
    var i :| 0 <= i < |q| && q[i] == m;
    assert q[0] in Elements(q);
    assert q == [q[0]] + q[1..];
    assert forall x :: x in q <==> x in s by {
      assert forall x :: x in q <==> x in Elements(q);
    }
    assert forall x | x in q[1..] :: x != q[0];
    assert forall x :: x in Elements(q[1..]) <==> x in q[1..];
  }

  /** Sorting is determined by the set: any sorted enumeration is `Sorted`. */
  lemma {:induction false} SortedUnique<T(!new)>(q: seq<T>, s: set<T>, le: (T, T) -> bool)
    requires TotalOn(le, s)
    requires Elements(q) == s && NoDup(q) && SortedBy(q, le)
    ensures q == Sorted(s, le)
    decreases |s|
  {
    if s == {} {
      NoDupSize(q);
    } else {
      hide TotalOn, NoDup, SortedBy, Elements, Sorted;
      HeadIsLeast(q, s, le);
      TotalSubset(le, s, s - {q[0]});
      SortedUnique(q[1..], s - {q[0]}, le);
      SortedStep(s, le);
      assert q == [q[0]] + q[1..];
    }
  }

  /** A sorting pass over a list whose order carries no meaning. */
  method SortSeq<T(==,!new)>(q: seq<T>, le: (T, T) -> bool) returns (r: seq<T>)
    requires NoDup(q) && TotalOn(le, Elements(q))
    ensures r == Sorted(Elements(q), le)
  {
    r := [];
    for i := 0 to |q|
      invariant forall x :: x in r <==> x in q[..i]
      invariant NoDup(r) && SortedBy(r, le)
    {
      assert q[i] !in q[..i] && q[i] in Elements(q);
      r := InsertSorted(r, q[i], le, Elements(q));
      assert q[..i + 1] == q[..i] + [q[i]];
    }
    assert q[..|q|] == q;
    SortedUnique(r, Elements(q), le);
  }

  method InsertSorted<T(==,!new)>(r: seq<T>, x: T, le: (T, T) -> bool, ghost s: set<T>) returns (t: seq<T>)
    requires TotalOn(le, s) && x in s && x !in r && (forall y | y in r :: y in s)
    requires NoDup(r) && SortedBy(r, le)
    ensures NoDup(t) && SortedBy(t, le) && forall y :: y in t <==> y in r || y == x
  {
    var j := 0;
    while j < |r| && le(r[j], x)
      invariant 0 <= j <= |r|
      invariant forall k | 0 <= k < j :: le(r[k], x)
    {
      j := j + 1;
    }
    t := r[..j] + [x] + r[j..];
    InsertedSorts(r, j, x, le, s);
  }

  lemma {:induction false} InsertedSorts<T(!new)>(r: seq<T>, j: nat, x: T, le: (T, T) -> bool, s: set<T>)
    requires TotalOn(le, s) && x in s && x !in r && (forall y | y in r :: y in s)
    requires NoDup(r) && SortedBy(r, le) && j <= |r|
    requires (forall k | 0 <= k < j :: le(r[k], x)) && (j < |r| ==> !le(r[j], x))
    ensures var t := r[..j] + [x] + r[j..]; NoDup(t) && SortedBy(t, le) && forall y :: y in t <==> y in r || y == x
  {
    InsertedHas(r, j, x);
    forall k | j <= k < |r| ensures le(x, r[k]) {
      assert r[j] in r && r[k] in r;
      assert le(x, r[j]);
      assert k == j || le(r[j], r[k]);
    }
    hide TotalOn, NoDup;
  }

  lemma {:induction false} InsertedHas<T(!new)>(r: seq<T>, j: nat, x: T)
    requires NoDup(r) && j <= |r| && x !in r
    ensures var t := r[..j] + [x] + r[j..]; NoDup(t) && forall y :: y in t <==> y in r || y == x
  {
    assert r == r[..j] + r[j..];
  }

  predicate NatLe(a: nat, b: nat) { a <= b }

  lemma NatTotal(s: set<nat>)
    ensures TotalOn(NatLe, s)
  {
  }

  /** A finite set of numbers in ascending order. */
  ghost function Ascending(s: set<nat>): (q: seq<nat>)
    ensures Elements(q) == s && NoDup(q) && SortedBy(q, NatLe) && |q| == |s|
  {
    NatTotal(s);
    SortedIsOrdered(s, NatLe);
    Sorted(s, NatLe)
  }

  /** Enumerate a set in an order nothing may depend on (a hash set's iteration order). */
  method Enumerate<T(==,!new)>(s: set<T>) returns (q: seq<T>)
    ensures Elements(q) == s && NoDup(q)
  {
    q := [];
    var rest := s;
    while rest != {}
      invariant rest <= s && Elements(q) == s - rest && NoDup(q)
      decreases |rest|
    {
      var x :| x in rest;
      assert forall y :: y in q <==> y in Elements(q);
      assert Elements(q + [x]) == Elements(q) + {x};
      q, rest := q + [x], rest - {x};
    }
  }
}
