/** Sequences: selections of rows, Python's stable sort, sums. */
module Seqs {

  // ---- Selecting ---------------------------------------------------------

  /** Apply `f` to every element. */
  function Map<A, B>(f: A -> B, s: seq<A>): (r: seq<B>)
    ensures |r| == |s| && forall i :: 0 <= i < |s| ==> r[i] == f(s[i])
  {
    seq(|s|, i requires 0 <= i < |s| => f(s[i]))
  }

  /** The elements of `s` that satisfy `p`, in order. */
  function Filter<T>(s: seq<T>, p: T -> bool): seq<T> {
    if s == [] then []
    else
      var n := |s| - 1;
      Filter(s[..n], p) + (if p(s[n]) then [s[n]] else [])
  }

  /** The positions of `s` whose element satisfies `p`, ascending. */
  function RowsWhere<T>(s: seq<T>, p: T -> bool): seq<nat> {
    if s == [] then []
    else
      var n := |s| - 1;
      RowsWhere(s[..n], p) + (if p(s[n]) then [n] else [])
  }

  ghost predicate Distinct<T>(s: seq<T>) {
    forall i, j :: 0 <= i < j < |s| ==> s[i] != s[j]
  }

  ghost predicate StrictlyAscending(s: seq<nat>) {
    forall i, j :: 0 <= i < j < |s| ==> s[i] < s[j]
  }

  /** RowsWhere is the strictly ascending list of exactly the matching positions. */
  lemma {:induction false} RowsWhereExact<T>(s: seq<T>, p: T -> bool)
    ensures StrictlyAscending(RowsWhere(s, p))
    ensures forall r :: r in RowsWhere(s, p) <==> 0 <= r < |s| && p(s[r])
  {
    if s != [] {
      var n := |s| - 1;
      var r := RowsWhere(s[..n], p);
      RowsWhereExact(s[..n], p);
      forall k | 0 <= k < |r| ensures r[k] < n { assert r[k] in r; }
    }
  }

  /** A strictly ascending list is determined by its elements. */
  lemma {:induction false} AscendingUnique(a: seq<nat>, b: seq<nat>)
    requires StrictlyAscending(a) && StrictlyAscending(b)
    requires forall x :: x in a <==> x in b
    ensures a == b
  {
    if a != [] { assert a[0] in b; }
    if b != [] { assert b[0] in a; }
    if a != [] {
      var m, n := |a| - 1, |b| - 1;
      assert a[m] in b && b[n] in a;
      assert a[m] == b[n];
      var x, y := a[..m], b[..n];
      forall z ensures z in x <==> z in y {
        if z in x { assert z in a && z < a[m]; }
        if z in y { assert z in b && z < b[n]; }
      }
      AscendingUnique(x, y);
      assert a == x + [a[m]] && b == y + [b[n]];
    }
  }

  lemma RowsWhereCongruent<S, T>(s: seq<S>, p: S -> bool, t: seq<T>, q: T -> bool)
    requires |s| == |t| && forall i :: 0 <= i < |s| ==> p(s[i]) == q(t[i])
    ensures RowsWhere(s, p) == RowsWhere(t, q)
  {
    RowsWhereExact(s, p);
    RowsWhereExact(t, q);
    AscendingUnique(RowsWhere(s, p), RowsWhere(t, q));
  }

  lemma MapAppend<A, B>(f: A -> B, s: seq<A>, t: seq<A>)
    ensures Map(f, s + t) == Map(f, s) + Map(f, t)
  {
  }

  /** `sorted(set)`: the elements of a finite set of rows in ascending order. */
  function SortedSet(s: set<nat>): (r: seq<nat>)
    ensures StrictlyAscending(r)
    ensures forall x :: x in r <==> x in s
  {
    if s == {} then []
    else
      MaxExists(s);
      var m :| m in s && forall x :: x in s ==> x <= m;
      SortedSet(s - {m}) + [m]
  }

  lemma {:induction false} MaxExists(s: set<nat>)
    requires s != {}
    ensures exists m :: m in s && forall x :: x in s ==> x <= m
  {
    var y :| y in s;
    if z :| z in s && z > y {
      var t := s - {y};
      assert z in t;
      MaxExists(t);
      var m :| m in t && forall x :: x in t ==> x <= m;
      assert m in s && m >= z;
      forall x | x in s ensures x <= m { if x != y { assert x in t; } }
    } else {
      assert forall x :: x in s ==> x <= y;
    }
  }

  // ---- Sorting -----------------------------------------------------------

  /** The order of `sorted(..., key=key, reverse=descending)`: may `a` stand before `b`? */
  predicate Before(a: real, b: real, descending: bool) {
    if descending then a >= b else a <= b
  }

  ghost predicate Ordered<T>(s: seq<T>, key: T -> real, descending: bool) {
    forall i, j :: 0 <= i < j < |s| ==> Before(key(s[i]), key(s[j]), descending)
  }

  /** Insert `x` after every element that may stand before it. */
  function Insert<T>(s: seq<T>, x: T, key: T -> real, descending: bool): seq<T> {
    if s == [] || Before(key(s[|s| - 1]), key(x), descending) then s + [x]
    else Insert(s[..|s| - 1], x, key, descending) + [s[|s| - 1]]
  }

  /** Python's stable `sorted(s, key=key, reverse=descending)`. */
  function SortBy<T>(s: seq<T>, key: T -> real, descending: bool): seq<T> {
    if s == [] then []
    else Insert(SortBy(s[..|s| - 1], key, descending), s[|s| - 1], key, descending)
  }

  lemma AppendOrdered<T>(s: seq<T>, x: T, key: T -> real, descending: bool)
    requires Ordered(s, key, descending)
    requires forall i :: 0 <= i < |s| ==> Before(key(s[i]), key(x), descending)
    ensures Ordered(s + [x], key, descending)
  {
  }

  lemma {:induction false} InsertSorts<T>(s: seq<T>, x: T, key: T -> real, descending: bool)
    requires Ordered(s, key, descending)
    ensures Ordered(Insert(s, x, key, descending), key, descending)
    ensures multiset(Insert(s, x, key, descending)) == multiset(s) + multiset{x}
  {
    if s == [] || Before(key(s[|s| - 1]), key(x), descending) {
    } else {
      var n := |s| - 1;
      var t := Insert(s[..n], x, key, descending);
      InsertSorts(s[..n], x, key, descending);
      assert s == s[..n] + [s[n]];
      hide Insert;
      LastStays(s[..n], s[n], t, x, key, descending);
    }
  }

  lemma LastStays<T>(init: seq<T>, last: T, t: seq<T>, x: T, key: T -> real, descending: bool)
    requires Ordered(init + [last], key, descending) && !Before(key(last), key(x), descending)
    requires Ordered(t, key, descending) && multiset(t) == multiset(init) + multiset{x}
    ensures Ordered(t + [last], key, descending) && multiset(t + [last]) == multiset(init + [last]) + multiset{x}
  {
    forall i | 0 <= i < |t| ensures Before(key(t[i]), key(last), descending) {
      assert t[i] in multiset(t);
      if t[i] != x {
        var k :| 0 <= k < |init| && init[k] == t[i];
        assert (init + [last])[k] == init[k] && (init + [last])[|init|] == last;
      }
    }
    AppendOrdered(t, last, key, descending);
    hide Ordered, Before;
  }

  /** SortBy is an ordered rearrangement of its input. */
  lemma {:induction false} SortBySorts<T>(s: seq<T>, key: T -> real, descending: bool)
    ensures Ordered(SortBy(s, key, descending), key, descending)
    ensures multiset(SortBy(s, key, descending)) == multiset(s)
    ensures |SortBy(s, key, descending)| == |s|
  {
    if s != [] {
      var n := |s| - 1;
      SortBySorts(s[..n], key, descending);
      InsertSorts(SortBy(s[..n], key, descending), s[n], key, descending);
      assert s == s[..n] + [s[n]];
    }
    assert |multiset(SortBy(s, key, descending))| == |multiset(s)|;
  }

  lemma FilterAppend<T>(s: seq<T>, x: T, p: T -> bool)
    ensures Filter(s + [x], p) == Filter(s, p) + (if p(x) then [x] else [])
  {
    assert (s + [x])[..|s|] == s;
  }

  /** A filter keeps the order. */
  lemma {:induction false} FilterInOrder<T>(s: seq<T>, p: T -> bool, i: nat, j: nat)
    requires i < j < |Filter(s, p)|
    ensures exists a, b :: 0 <= a < b < |s| && s[a] == Filter(s, p)[i] && s[b] == Filter(s, p)[j]
  {
    var n := |s| - 1;
    var init := Filter(s[..n], p);
    if j < |init| {
      FilterInOrder(s[..n], p, i, j);
      var a, b :| 0 <= a < b < n && s[..n][a] == init[i] && s[..n][b] == init[j];
      assert s[a] == Filter(s, p)[i] && s[b] == Filter(s, p)[j];
    } else {
      FilterFrom(s[..n], p, i);
      var a :| 0 <= a < n && s[..n][a] == init[i];
      assert s[a] == Filter(s, p)[i] && s[n] == Filter(s, p)[j];
    }
  }

  lemma {:induction false} FilterFrom<T>(s: seq<T>, p: T -> bool, i: nat)
    requires i < |Filter(s, p)|
    ensures exists a :: 0 <= a < |s| && s[a] == Filter(s, p)[i]
  {
    var n := |s| - 1;
    if i < |Filter(s[..n], p)| {
      FilterFrom(s[..n], p, i);
      var a :| 0 <= a < n && s[..n][a] == Filter(s[..n], p)[i];
      assert s[a] == Filter(s, p)[i];
    } else {
      assert s[n] == Filter(s, p)[i];
    }
  }

  lemma {:induction false} InsertStable<T>(s: seq<T>, x: T, key: T -> real, descending: bool, k: real)
    requires Ordered(s, key, descending)
    ensures Filter(Insert(s, x, key, descending), (y: T) => key(y) == k)
         == Filter(s, (y: T) => key(y) == k) + (if key(x) == k then [x] else [])
  {
    var p := (y: T) => key(y) == k;
    if s == [] || Before(key(s[|s| - 1]), key(x), descending) {
      FilterAppend(s, x, p);
    } else {
      var n := |s| - 1;
      var t := Insert(s[..n], x, key, descending);
      InsertStable(s[..n], x, key, descending, k);
      FilterAppend(t, s[n], p);
      // an element that must stand after x has another key
      OneOrNone(Filter(s[..n], p), if key(x) == k then [x] else [], if p(s[n]) then [s[n]] else []);
    }
  }

  lemma OneOrNone<T>(b: seq<T>, x: seq<T>, y: seq<T>)
    requires x == [] || y == []
    ensures b + x + y == b + y + x
  {
    assert b + [] == b;
  }

  /** Rows with equal keys keep their order, in both directions. */
  lemma {:induction false} SortByStable<T>(s: seq<T>, key: T -> real, descending: bool, k: real)
    ensures Filter(SortBy(s, key, descending), (y: T) => key(y) == k) == Filter(s, (y: T) => key(y) == k)
  {
    if s != [] {
      var n := |s| - 1;
      SortByStable(s[..n], key, descending, k);
      SortBySorts(s[..n], key, descending);
      InsertStable(SortBy(s[..n], key, descending), s[n], key, descending, k);
    }
  }

  /** The key sequence of an ordered list is determined by the multiset of its keys. */
  lemma OrderedKeysUnique<T>(a: seq<T>, b: seq<T>, key: T -> real, descending: bool)
    requires Ordered(a, key, descending) && Ordered(b, key, descending)
    requires multiset(Map(key, a)) == multiset(Map(key, b))
    ensures Map(key, a) == Map(key, b)
  {
    OrderedUnique(Map(key, a), Map(key, b), descending);
  }

  ghost predicate Monotone(s: seq<real>, descending: bool) {
    forall i, j :: 0 <= i < j < |s| ==> Before(s[i], s[j], descending)
  }

  lemma {:induction false} OrderedUnique(a: seq<real>, b: seq<real>, descending: bool)
    requires Monotone(a, descending) && Monotone(b, descending)
    requires multiset(a) == multiset(b)
    ensures a == b
  {
    SameLength(a, b);
    if a != [] {
      var n := |a| - 1;
      SameLast(a, b, descending);
      OrderedUnique(a[..n], b[..n], descending);
      assert a == a[..n] + [a[n]] && b == b[..n] + [b[n]];
    }
  }

  lemma SameLast(a: seq<real>, b: seq<real>, descending: bool)
    requires Monotone(a, descending) && Monotone(b, descending) && multiset(a) == multiset(b)
    requires a != [] && |a| == |b|
    ensures var n := |a| - 1; a[n] == b[n] && multiset(a[..n]) == multiset(b[..n])
  {
    LastBound(a, b, descending);
    LastBound(b, a, descending);
    DropLast(a);
    DropLast(b);
  }

  lemma SameLength<T>(a: seq<T>, b: seq<T>)
    requires multiset(a) == multiset(b)
    ensures |a| == |b|
  {
    assert |a| == |multiset(a)| && |b| == |multiset(b)|;
  }

  /** The last of `a` occurs in `b`, so it may stand before the last of `b`. */
  lemma LastBound(a: seq<real>, b: seq<real>, descending: bool)
    requires Monotone(b, descending) && multiset(a) == multiset(b) && a != []
    ensures b != [] && Before(a[|a| - 1], b[|b| - 1], descending)
  {
    assert a[|a| - 1] in multiset(b);
    var i :| 0 <= i < |b| && b[i] == a[|a| - 1];
  }

  lemma DropLast<T>(s: seq<T>)
    requires s != []
    ensures multiset(s[..|s| - 1]) == multiset(s) - multiset{s[|s| - 1]}
  {
    assert s == s[..|s| - 1] + [s[|s| - 1]];
  }

  /** Sorting commutes with a map that preserves keys. */
  lemma {:induction false} InsertMap<A, B>(f: A -> B, s: seq<A>, x: A, ka: A -> real, kb: B -> real, descending: bool)
    requires forall a :: a in s + [x] ==> kb(f(a)) == ka(a)
    ensures Insert(Map(f, s), f(x), kb, descending) == Map(f, Insert(s, x, ka, descending))
  {
    if s == [] || Before(ka(s[|s| - 1]), ka(x), descending) {
      assert s != [] ==> s[|s| - 1] in s + [x];
      assert x in s + [x];
    } else {
      var n := |s| - 1;
      assert s[n] in s + [x] && x in s + [x];
      assert Map(f, s)[..n] == Map(f, s[..n]);
      forall a | a in s[..n] + [x] ensures kb(f(a)) == ka(a) { assert a in s + [x]; }
      InsertMap(f, s[..n], x, ka, kb, descending);
    }
  }

  lemma {:induction false} SortByMap<A, B>(f: A -> B, s: seq<A>, ka: A -> real, kb: B -> real, descending: bool)
    requires forall a :: a in s ==> kb(f(a)) == ka(a)
    ensures SortBy(Map(f, s), kb, descending) == Map(f, SortBy(s, ka, descending))
  {
    if s != [] {
      var n := |s| - 1;
      assert Map(f, s)[..n] == Map(f, s[..n]);
      SortByMap(f, s[..n], ka, kb, descending);
      SortBySorts(s[..n], ka, descending);
      var t := SortBy(s[..n], ka, descending);
      forall a | a in t + [s[n]] ensures kb(f(a)) == ka(a) {
        if a in t { assert a in multiset(t); assert a in s[..n]; }
      }
      InsertMap(f, t, s[n], ka, kb, descending);
    }
  }

  // ---- Rows as sort keys -------------------------------------------------

  function RowKey(r: nat): real {
    r as real
  }

  /** Sorting a rearrangement of an ascending list of rows gives that list. */
  lemma SortAscending(s: seq<nat>, t: seq<nat>)
    requires StrictlyAscending(t)
    requires multiset(s) == multiset(t)
    ensures SortBy(s, RowKey, false) == t
  {
    var r := SortBy(s, RowKey, false);
    SortBySorts(s, RowKey, false);
    assert Ordered(t, RowKey, false);
    MultisetMap(r, t);
    OrderedKeysUnique(r, t, RowKey, false);
    forall i | 0 <= i < |t| ensures r[i] == t[i] {
      assert Map(RowKey, r)[i] == Map(RowKey, t)[i];
    }
  }

  lemma {:induction false} MultisetMap(a: seq<nat>, b: seq<nat>)
    requires multiset(a) == multiset(b)
    ensures |a| == |b|
    ensures multiset(Map(RowKey, a)) == multiset(Map(RowKey, b))
  {
    MultisetMapKey(a, b, RowKey);
  }

  /** Rearranging a list rearranges its keys. */
  lemma {:induction false} MultisetMapKey<T, K>(a: seq<T>, b: seq<T>, key: T -> K)
    requires multiset(a) == multiset(b)
    ensures |a| == |b|
    ensures multiset(Map(key, a)) == multiset(Map(key, b))
  {
    assert |multiset(a)| == |multiset(b)|;
    if a != [] {
      var n := |a| - 1;
      assert a[n] in multiset(b);
      var i :| 0 <= i < |b| && b[i] == a[n];
      var rest := b[..i] + b[i + 1..];
      RemoveOne(a, n, key);
      assert a[..n] + a[n + 1..] == a[..n];
      RemoveOne(b, i, key);
      MultisetMapKey(a[..n], rest, key);
    }
  }

  lemma RemoveOne<T, K>(s: seq<T>, i: nat, key: T -> K)
    requires i < |s|
    ensures multiset(s[..i] + s[i + 1..]) == multiset(s) - multiset{s[i]}
    ensures multiset(Map(key, s)) == multiset(Map(key, s[..i] + s[i + 1..])) + multiset{key(s[i])}
  {
    assert s == s[..i] + [s[i]] + s[i + 1..];
    BagOfMiddle(s[..i], s[i], s[i + 1..], key);
  }

  lemma BagOfMiddle<T, K>(x: seq<T>, e: T, y: seq<T>, key: T -> K)
    ensures multiset(x + y) == multiset(x + [e] + y) - multiset{e}
    ensures multiset(Map(key, x + [e] + y)) == multiset(Map(key, x + y)) + multiset{key(e)}
  {
    MapMiddle(x, e, y, key);
    hide Map;
    MiddleOut(x, e, y);
    MiddleOut(Map(key, x), key(e), Map(key, y));
  }

  lemma MapMiddle<T, K>(x: seq<T>, e: T, y: seq<T>, key: T -> K)
    ensures Map(key, x + [e] + y) == Map(key, x) + [key(e)] + Map(key, y)
    ensures Map(key, x + y) == Map(key, x) + Map(key, y)
  {
  }

  lemma MiddleOut<T>(x: seq<T>, e: T, y: seq<T>)
    ensures multiset(x + [e] + y) == multiset(x + y) + multiset{e}
  {
    assert multiset(x + y) == multiset(x) + multiset(y);
    assert multiset(x + [e] + y) == multiset(x) + multiset{e} + multiset(y);
  }

  // ---- Sums --------------------------------------------------------------

  function Sum(s: seq<int>): int {
    if s == [] then 0 else Sum(s[..|s| - 1]) + s[|s| - 1]
  }

  lemma {:induction false} SumAppend(s: seq<int>, t: seq<int>)
    ensures Sum(s + t) == Sum(s) + Sum(t)
  {
    if t == [] {
      assert s + t == s;
    } else {
      var n := |t| - 1;
      SumAppend(s, t[..n]);
      assert (s + t)[..|s + t| - 1] == s + t[..n];
    }
  }
}
