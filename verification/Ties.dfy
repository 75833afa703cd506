/** When the bounded heap keeps the very rows of sort-then-cut (packetql/index/topn.py): ties decide. */
module Ties {
  import opened Seqs
  import opened TopN

  /** The rows with one key, in order. */
  function Class<T>(s: seq<T>, key: T -> real, k: real): seq<T> {
    Filter(s, (y: T) => key(y) == k)
  }

  // ---- Classes of a sequence ---------------------------------------------

  lemma {:induction false} ClassAppend<T>(s: seq<T>, t: seq<T>, key: T -> real, k: real)
    ensures Class(s + t, key, k) == Class(s, key, k) + Class(t, key, k)
  {
    if t == [] {
      assert s + t == s;
    } else {
      var n := |t| - 1;
      ClassAppend(s, t[..n], key, k);
      assert (s + t)[..|s + t| - 1] == s + t[..n];
    }
  }

  lemma ClassPrefix<T>(s: seq<T>, t: seq<T>, key: T -> real, k: real)
    requires s <= t
    ensures Class(s, key, k) <= Class(t, key, k)
  {
    assert t == s + t[|s|..];
    ClassAppend(s, t[|s|..], key, k);
  }

  lemma {:induction false} ClassHas<T>(s: seq<T>, key: T -> real, k: real, x: T)
    ensures x in Class(s, key, k) <==> x in s && key(x) == k
  {
    if s != [] {
      var n := |s| - 1;
      ClassHas(s[..n], key, k, x);
      assert s == s[..n] + [s[n]];
    }
  }

  lemma {:induction false} ClassSize<T>(s: seq<T>, t: seq<T>, key: T -> real, k: real)
    requires Map(key, s) == Map(key, t)
    ensures |Class(s, key, k)| == |Class(t, key, k)|
  {
    if s != [] {
      var n := |s| - 1;
      assert Map(key, s)[n] == Map(key, t)[n];
      assert Map(key, s[..n]) == Map(key, s)[..n] && Map(key, t[..n]) == Map(key, t)[..n];
      ClassSize(s[..n], t[..n], key, k);
    }
  }

  /** The key sequence and the rows of every key determine a sequence. */
  lemma {:induction false} ClassesDetermine<T>(s: seq<T>, t: seq<T>, key: T -> real)
    requires Map(key, s) == Map(key, t)
    requires forall k: real :: Class(s, key, k) == Class(t, key, k)
    ensures s == t
  {
    assert |s| == |Map(key, s)| == |t|;
    if s != [] {
      var n := |s| - 1;
      var last := key(s[n]);
      assert Map(key, s)[n] == Map(key, t)[n];
      assert Map(key, s[..n]) == Map(key, s)[..n] && Map(key, t[..n]) == Map(key, t)[..n];
      assert s == s[..n] + [s[n]] && t == t[..n] + [t[n]];
      assert Class(s, key, last) == Class(s[..n], key, last) + [s[n]];
      assert Class(t, key, last) == Class(t[..n], key, last) + [t[n]];
      LastOfBoth(Class(s[..n], key, last), s[n], Class(t[..n], key, last), t[n]);
      forall k: real ensures Class(s[..n], key, k) == Class(t[..n], key, k) {
        assert Class(s, key, k) == Class(t, key, k);
        if k != last {
          assert Class(s, key, k) == Class(s[..n], key, k) + [] == Class(s[..n], key, k);
          assert Class(t, key, k) == Class(t[..n], key, k) + [] == Class(t[..n], key, k);
        }
      }
      ClassesDetermine(s[..n], t[..n], key);
    }
  }

  lemma LastOfBoth<T>(a: seq<T>, x: T, b: seq<T>, y: T)
    requires a + [x] == b + [y]
    ensures a == b && x == y
  {
    assert (a + [x])[|a + [x]| - 1] == x && (b + [y])[|b + [y]| - 1] == y;
    assert a == (a + [x])[..|a + [x]| - 1] && b == (b + [y])[..|b + [y]| - 1];
  }

  lemma SamePrefix<T>(a: seq<T>, b: seq<T>, c: seq<T>)
    requires a <= c && b <= c && |a| == |b|
    ensures a == b
  {
  }

  lemma SortedClasses<T>(p: seq<T>, n: nat, key: T -> real, largest: bool, k: real)
    ensures Class(Top(p, n, key, largest), key, k) == Class(PushAll(p, n, key, largest), key, k)
    ensures Class(SortBy(p, key, largest), key, k) == Class(p, key, k)
  {
    SortByStable(PushAll(p, n, key, largest), key, largest, k);
    SortByStable(p, key, largest, k);
  }

  /** Of one key, the heap holds the first rows of the input, in their order. */
  ghost predicate FirstKept<T>(p: seq<T>, n: nat, key: T -> real, largest: bool, k: real) {
    Class(PushAll(p, n, key, largest), key, k) <= Class(p, key, k)
  }

  /** The heap's rows are those of sort-then-cut exactly when, of every key, it holds the first rows of the input in
      their order. */
  lemma AgreesWhen<T>(p: seq<T>, n: nat, key: T -> real, largest: bool)
    ensures Top(p, n, key, largest) <= SortBy(p, key, largest)
      <==> forall k: real :: FirstKept(p, n, key, largest, k)
  {
    var h, all, top := PushAll(p, n, key, largest), SortBy(p, key, largest), Top(p, n, key, largest);
    hide PushAll, SortBy, Top, Class;
    forall k: real ensures Class(top, key, k) == Class(h, key, k) && Class(all, key, k) == Class(p, key, k) {
      SortedClasses(p, n, key, largest, k);
    }
    if top <= all {
      forall k: real ensures FirstKept(p, n, key, largest, k) { ClassPrefix(top, all, key, k); }
    }
    if forall k: real :: FirstKept(p, n, key, largest, k) {
      forall k: real ensures Class(top, key, k) <= Class(p, key, k) { assert FirstKept(p, n, key, largest, k); }
      TopIsSortedPrefix(p, n, key, largest);
      RearrangedSize(p, h, n, key, largest);
      CutDetermined(p, top, all, key);
    }
  }

  lemma CutDetermined<T>(p: seq<T>, top: seq<T>, all: seq<T>, key: T -> real)
    requires |top| <= |all| && Map(key, top) <= Map(key, all)
    requires forall k: real :: Class(top, key, k) <= Class(p, key, k) && Class(all, key, k) == Class(p, key, k)
    ensures top <= all
  {
    hide Class;
    var cut := all[..|top|];
    assert Map(key, cut) == Map(key, all)[..|top|] == Map(key, top);
    forall k: real ensures Class(cut, key, k) == Class(top, key, k) {
      ClassPrefix(cut, all, key, k);
      ClassSize(cut, top, key, k);
      SamePrefix(Class(cut, key, k), Class(top, key, k), Class(p, key, k));
    }
    ClassesDetermine(cut, top, key);
  }

  lemma RearrangedSize<T>(p: seq<T>, h: seq<T>, n: nat, key: T -> real, largest: bool)
    requires h == PushAll(p, n, key, largest)
    ensures |Top(p, n, key, largest)| == |h| <= |p| && |SortBy(p, key, largest)| == |p|
  {
    SortBySorts(h, key, largest);
    SortBySorts(p, key, largest);
    var rest := PushAllKeeps(p, n, key, largest);
  }

  // ---- Ways to agree -----------------------------------------------------

  predicate AllEqual<T>(p: seq<T>, key: T -> real) {
    forall i, j :: 0 <= i < |p| && 0 <= j < |p| ==> key(p[i]) == key(p[j])
  }

  /** Among equal keys the heap keeps the first n, in order. */
  lemma {:induction false} EqualKept<T>(p: seq<T>, n: nat, key: T -> real, largest: bool)
    requires AllEqual(p, key)
    ensures PushAll(p, n, key, largest) == if |p| <= n then p else p[..n]
  {
    if p != [] {
      var m := |p| - 1;
      EqualKept(p[..m], n, key, largest);
      var h := PushAll(p[..m], n, key, largest);
      assert p[..m] + [p[m]] == p;
      if 0 < n && m < n {
        assert key((h + [p[m]])[m]) == key(p[m]);
        if m > 0 { assert (h + [p[m]])[Parent(m)] == p[Parent(m)]; }
      } else if n > 0 {
        assert h[0] == p[0];
      }
    }
  }

  /** A heap of one keeps the first of the best. */
  lemma {:induction false} OneKept<T>(p: seq<T>, key: T -> real, largest: bool)
    requires p != []
    ensures var h := PushAll(p, 1, key, largest);
      && |h| == 1 && h[0] in p
      && (forall y :: y in p ==> Before(key(h[0]), key(y), largest))
      && Class(p, key, key(h[0])) != [] && Class(p, key, key(h[0]))[0] == h[0]
  {
    var m := |p| - 1;
    var x := p[m];
    assert p == p[..m] + [x];
    if m == 0 {
      assert p[..0] == [] && PushAll<T>([], 1, key, largest) == [];
      assert [] + [x] == [x];
      assert PushAll(p, 1, key, largest) == [x];
      ClassAppend([], [x], key, key(x));
    } else {
      OneKept(p[..m], key, largest);
      var u := PushAll(p[..m], 1, key, largest)[0];
      assert PushAll(p[..m], 1, key, largest) == [u];
      if EvictableAbove(u, x, key, largest) {
        assert [u][0 := x] == [x];
        assert PushAll(p, 1, key, largest) == [x];
        NoneOfKey(p[..m], key, key(x));
      } else {
        assert PushAll(p, 1, key, largest) == [u];
      }
    }
  }

  lemma {:induction false} NoneOfKey<T>(s: seq<T>, key: T -> real, k: real)
    requires forall y :: y in s ==> key(y) != k
    ensures Class(s, key, k) == []
  {
    if s != [] {
      assert s[|s| - 1] in s;
      NoneOfKey(s[..|s| - 1], key, k);
    }
  }

  /** Sifting up never moves a row that nothing must stand above. */
  lemma {:induction false} SiftUpKeepsTop<T>(h: seq<T>, i: nat, j: nat, key: T -> real, largest: bool)
    requires i < |h| && j < |h| && j != i
    requires forall t :: 0 <= t < |h| ==> !EvictableAbove(h[t], h[j], key, largest)
    ensures SiftUp(h, i, key, largest)[j] == h[j]
    decreases i
  {
    if i > 0 && EvictableAbove(h[i], h[Parent(i)], key, largest) {
      var s := Swap(h, i, Parent(i));
      forall t | 0 <= t < |s| ensures !EvictableAbove(s[t], s[j], key, largest) {
        assert s[t] == h[if t == i then Parent(i) else if t == Parent(i) then i else t];
      }
      SiftUpKeepsTop(s, Parent(i), j, key, largest);
    }
  }

  lemma NothingEvicted<T>(p: seq<T>, n: nat, key: T -> real, largest: bool)
    requires |p| <= n
    ensures var h := PushAll(p, n, key, largest);
      |h| == |p| && multiset(h) == multiset(p) && (h != [] ==> h[0] in p && forall y :: y in p ==> Above(h[0], y, key, largest))
  {
    var h := PushAll(p, n, key, largest);
    var rest := PushAllKeeps(p, n, key, largest);
    assert rest == [] && multiset(rest) == multiset{} && multiset(h) == multiset(p);
    hide Heap;
    if h != [] {
      RootWorst(h, key, largest);
      assert h[0] in multiset(h);
      forall y | y in p ensures Above(h[0], y, key, largest) { assert y in multiset(p); }
    }
  }

  /** While nothing is evicted, the root is the first of the worst rows. */
  lemma {:induction false} RootIsFirst<T>(p: seq<T>, n: nat, key: T -> real, largest: bool)
    requires 0 < |p| <= n
    ensures var h := PushAll(p, n, key, largest);
      && |h| == |p|
      && (forall y :: y in p ==> Above(h[0], y, key, largest))
      && Class(p, key, key(h[0])) != [] && Class(p, key, key(h[0]))[0] == h[0]
  {
    var m := |p| - 1;
    var init, x := p[..m], p[m];
    NothingEvicted(p, n, key, largest);
    assert p == init + [x];
    if m == 0 {
      assert init == [] && [] + [x] == [x];
      assert PushAll(p, n, key, largest) == [x];
      ClassAppend([], [x], key, key(x));
    } else {
      RootIsFirst(init, n, key, largest);
      NextRoot(init, x, n, key, largest);
    }
  }

  lemma NextRoot<T>(init: seq<T>, x: T, n: nat, key: T -> real, largest: bool)
    requires 0 < |init| < n
    requires var b := PushAll(init, n, key, largest);
      |b| == |init| && Class(init, key, key(b[0])) != [] && Class(init, key, key(b[0]))[0] == b[0]
    ensures var h := PushAll(init + [x], n, key, largest);
      h != [] && Class(init + [x], key, key(h[0])) != [] && Class(init + [x], key, key(h[0]))[0] == h[0]
  {
    var p, b := init + [x], PushAll(init, n, key, largest);
    var h := PushAll(p, n, key, largest);
    assert p[..|init|] == init;
    assert h == SiftUp(b + [x], |b|, key, largest);
    NothingEvicted(init, n, key, largest);
    NothingEvicted(p, n, key, largest);
    hide PushAll, SiftUp;
    if EvictableAbove(x, b[0], key, largest) {
      assert x in p && Above(h[0], x, key, largest);
      assert h[0] in init ==> Above(b[0], h[0], key, largest);
      assert h[0] == x;
      NoneOfKey(init, key, key(x));
      ClassAppend(init, [x], key, key(x));
      ClassHas([x], key, key(x), x);
    } else {
      var g := b + [x];
      forall t | 0 <= t < |g| ensures !EvictableAbove(g[t], g[0], key, largest) {
        if t < |b| { assert b[t] in multiset(b); assert b[t] in init; }
      }
      SiftUpKeepsTop(g, |b|, 0, key, largest);
      ClassPrefix(init, p, key, key(h[0]));
    }
  }

  /** The rows of one key stand together in a sorted list. */
  lemma {:induction false} ClassSpan<T>(s: seq<T>, key: T -> real, largest: bool, k: real) returns (a: nat, b: nat)
    requires Ordered(s, key, largest) && Class(s, key, k) != []
    ensures a < b <= |s| && Class(s, key, k) == s[a..b]
    ensures forall t :: 0 <= t < |s| ==> (key(s[t]) == k <==> a <= t < b)
  {
    var n := |s| - 1;
    assert s == s[..n] + [s[n]];
    if key(s[n]) != k {
      assert Class(s, key, k) == Class(s[..n], key, k) + [] == Class(s[..n], key, k);
      a, b := ClassSpan(s[..n], key, largest, k);
      assert s[..n][a..b] == s[a..b];
      forall t | 0 <= t < n ensures key(s[t]) == k <==> a <= t < b { assert s[..n][t] == s[t]; }
    } else if Class(s[..n], key, k) == [] {
      a, b := n, n + 1;
      forall t | 0 <= t < n ensures key(s[t]) != k { ClassHas(s[..n], key, k, s[t]); }
      assert [] + [s[n]] == s[n..n + 1];
    } else {
      var c: nat;
      a, c := ClassSpan(s[..n], key, largest, k);
      b := n + 1;
      forall t | 0 <= t < n ensures key(s[t]) == k <==> a <= t < c { assert s[..n][t] == s[t]; }
      assert c < n ==> Before(key(s[c]), key(s[n]), largest) && Before(key(s[c - 1]), key(s[c]), largest);
      assert c == n;
      assert s[..n][a..n] + [s[n]] == s[a..b];
    }
  }

  lemma {:induction false} ClassCount<T>(s: seq<T>, key: T -> real, k: real, x: T)
    ensures multiset(Class(s, key, k))[x] == if key(x) == k then multiset(s)[x] else 0
  {
    if s != [] {
      var n := |s| - 1;
      ClassCount(s[..n], key, k, x);
      assert s == s[..n] + [s[n]];
    }
  }

  /** Sorted rows that tie with one of the first n are the same row; when all rows are kept, the last two may differ. */
  ghost predicate SameTies<T>(s: seq<T>, n: nat, key: T -> real) {
    forall i, j :: 0 <= i < j < |s| && i < n && key(s[i]) == key(s[j]) && s[i] != s[j] ==>
      |s| <= n && i == |s| - 2 && j == |s| - 1
  }

  /** The ties of a selection leave the heap no choice. */
  ghost predicate Settled<T>(p: seq<T>, n: nat, key: T -> real, largest: bool) {
    n <= 1 || AllEqual(p, key) || SameTies(SortBy(p, key, largest), n, key)
  }

  /** How many rows of a key are kept can be read off the sorted list, and the kept ones are rows of the input. */
  lemma KeptOfKey<T>(p: seq<T>, n: nat, key: T -> real, largest: bool, k: real)
    ensures var h, s := PushAll(p, n, key, largest), SortBy(p, key, largest);
      && |h| <= |s| == |p| && |h| <= n && (|p| <= n ==> multiset(h) == multiset(p)) && Ordered(s, key, largest)
      && |Class(h, key, k)| == |Class(s[..|h|], key, k)| <= |Class(p, key, k)|
      && Class(s, key, k) == Class(p, key, k)
      && (forall x :: x in Class(h, key, k) ==> x in Class(p, key, k))
  {
    var h, s, top := PushAll(p, n, key, largest), SortBy(p, key, largest), Top(p, n, key, largest);
    RearrangedSize(p, h, n, key, largest);
    SortedClasses(p, n, key, largest, k);
    SortBySorts(p, key, largest);
    TopIsSortedPrefix(p, n, key, largest);
    hide PushAll, SortBy, Top, Class;
    assert Map(key, s[..|h|]) == Map(key, s)[..|h|] == Map(key, top);
    ClassSize(top, s[..|h|], key, k);
    ClassPrefix(s[..|h|], s, key, k);
    var rest := PushAllKeeps(p, n, key, largest);
    assert rest == [] ==> multiset(rest) == multiset{};
    forall x | x in Class(h, key, k) ensures x in Class(p, key, k) {
      ClassHas(h, key, k, x);
      assert x in multiset(h);
      assert x in multiset(p);
      ClassHas(p, key, k, x);
    }
  }

  /** Rearranging rows leaves the keys of their sort. */
  lemma SortedKeysOf<T>(p: seq<T>, s: seq<T>, key: T -> real, largest: bool)
    requires multiset(p) == multiset(s) && Ordered(s, key, largest)
    ensures Map(key, SortBy(p, key, largest)) == Map(key, s)
  {
    SortBySorts(p, key, largest);
    MultisetMapKey(SortBy(p, key, largest), s, key);
    OrderedKeysUnique(SortBy(p, key, largest), s, key, largest);
  }

  /** Two different rows of one key, at positions a..b of a sorted list: the first there differs from another one. */
  lemma TwoRowsOf<T>(p: seq<T>, s: seq<T>, key: T -> real, k: real, a: nat, b: nat, x: T, y: T) returns (j: nat)
    requires multiset(p) == multiset(s) && a < b <= |s|
    requires forall t :: 0 <= t < |s| ==> (key(s[t]) == k <==> a <= t < b)
    requires x in Class(p, key, k) && y in Class(p, key, k) && x != y
    ensures a < j < b && s[j] != s[a]
  {
    ClassHas(p, key, k, x);
    ClassHas(p, key, k, y);
    assert x in multiset(s) && y in multiset(s);
    var i :| 0 <= i < |s| && s[i] == x;
    j :| 0 <= j < |s| && s[j] == y;
    if s[a] == y { j := i; }
  }

  lemma SameTiesAgree<T>(p: seq<T>, s: seq<T>, n: nat, key: T -> real, largest: bool, k: real)
    requires multiset(p) == multiset(s) && Ordered(s, key, largest) && SameTies(s, n, key)
    ensures FirstKept(p, n, key, largest, k)
  {
    hide PushAll, SortBy, Class;
    var h, r := PushAll(p, n, key, largest), SortBy(p, key, largest);
    var kept, all := Class(h, key, k), Class(p, key, k);
    KeptOfKey(p, n, key, largest, k);
    SortedKeysOf(p, s, key, largest);
    if kept != [] {
      var a, b := ClassSpan(r, key, largest, k);
      if a >= |h| { NoneOfKey(r[..|h|], key, k); }
      forall t | 0 <= t < |s| ensures key(s[t]) == k <==> a <= t < b {
        assert Map(key, s)[t] == Map(key, r)[t];
      }
      if x, y :| x in all && y in all && x != y {
        var j := TwoRowsOf(p, s, key, k, a, b, x, y);
        assert key(s[a]) == key(s[j]);
        LastTwo(p, n, key, largest, k);
      } else {
        forall d | 0 <= d < |kept| ensures kept[d] == all[d] { assert kept[d] in all && all[d] in all; }
      }
    }
  }

  lemma RootHasWorstKey<T>(p: seq<T>, n: nat, key: T -> real, largest: bool)
    requires 0 < |p| <= n
    ensures |PushAll(p, n, key, largest)| == |p| == |SortBy(p, key, largest)|
    ensures key(PushAll(p, n, key, largest)[0]) == key(SortBy(p, key, largest)[|p| - 1])
  {
    var h, s := PushAll(p, n, key, largest), SortBy(p, key, largest);
    NothingEvicted(p, n, key, largest);
    SortBySorts(p, key, largest);
    hide PushAll, SortBy;
    var worst := s[|p| - 1];
    assert worst in multiset(s) && h[0] in multiset(p);
    assert worst in multiset(p) && h[0] in multiset(s);
    var i :| 0 <= i < |s| && s[i] == h[0];
    assert Above(h[0], worst, key, largest);
    assert i < |p| - 1 ==> Before(key(s[i]), key(s[|p| - 1]), largest);
  }

  lemma TwoOfBag<T>(a: seq<T>, b: seq<T>)
    requires |a| == |b| == 2 && a[0] == b[0] && multiset(a)[a[1]] == multiset(b)[a[1]]
    ensures a == b
  {
    assert a == [a[0], a[1]] && b == [a[0], b[1]];
  }

  /** When only the two worst rows tie and all rows are kept, the first of them stays at the root. */
  lemma LastTwo<T>(p: seq<T>, n: nat, key: T -> real, largest: bool, k: real)
    requires 2 <= |p| <= n && |Class(p, key, k)| == 2
    requires |SortBy(p, key, largest)| == |p| && key(SortBy(p, key, largest)[|p| - 1]) == k
    ensures Class(PushAll(p, n, key, largest), key, k) == Class(p, key, k)
  {
    hide PushAll, SortBy, Class;
    var h := PushAll(p, n, key, largest);
    RootHasWorstKey(p, n, key, largest);
    RootIsFirst(p, n, key, largest);
    NothingEvicted(p, n, key, largest);
    FirstOfKey(h, key);
    var kept, all := Class(h, key, k), Class(p, key, k);
    KeptOfKey(p, n, key, largest, k);
    assert SortBy(p, key, largest)[..|h|] == SortBy(p, key, largest);
    ClassCount(h, key, k, kept[1]);
    ClassCount(p, key, k, kept[1]);
    TwoOfBag(kept, all);
  }

  lemma ClassOne<T>(s: seq<T>, key: T -> real)
    requires |s| == 1
    ensures Class(s, key, key(s[0])) == s
  {
    var k := key(s[0]);
    assert Class(s[..0], key, k) == [];
    assert Class(s, key, k) == Class(s[..0], key, k) + [s[0]] == s;
  }

  lemma FirstOfKey<T>(h: seq<T>, key: T -> real)
    requires h != []
    ensures Class(h, key, key(h[0])) != [] && Class(h, key, key(h[0]))[0] == h[0]
  {
    assert h == [h[0]] + h[1..];
    ClassAppend([h[0]], h[1..], key, key(h[0]));
    ClassOne([h[0]], key);
  }

  lemma NotAllEqual<T>(p: seq<T>, s: seq<T>, key: T -> real)
    requires multiset(p) == multiset(s) && AllEqual(s, key)
    ensures AllEqual(p, key)
  {
    forall i, j | 0 <= i < |p| && 0 <= j < |p| ensures key(p[i]) == key(p[j]) {
      assert p[i] in multiset(p) && p[j] in multiset(p);
      assert p[i] in multiset(s) && p[j] in multiset(s);
    }
  }

  lemma SettledClass<T>(items: seq<T>, p: seq<T>, n: nat, key: T -> real, largest: bool, k: real)
    requires multiset(p) == multiset(items) && Settled(items, n, key, largest) && n > 0 && p != []
    ensures FirstKept(p, n, key, largest, k)
  {
    if n == 1 {
      OneKept(p, key, largest);
      var h := PushAll(p, 1, key, largest);
      hide PushAll, SortBy;
      if key(h[0]) == k {
        ClassOne(h, key);
      } else {
        NoneOfKey(h, key, k);
      }
    } else if AllEqual(items, key) {
      NotAllEqual(p, items, key);
      EqualKept(p, n, key, largest);
      ClassPrefix(PushAll(p, n, key, largest), p, key, k);
    } else {
      SortBySorts(items, key, largest);
      SameTiesAgree(p, SortBy(items, key, largest), n, key, largest, k);
    }
  }

  /** Settled selections give the rows of sort-then-cut, however the rows are arranged. */
  lemma SettledAgrees<T>(items: seq<T>, p: seq<T>, n: nat, key: T -> real, largest: bool)
    requires multiset(p) == multiset(items) && Settled(items, n, key, largest)
    ensures Top(p, n, key, largest) <= SortBy(p, key, largest)
  {
    var h := PushAll(p, n, key, largest);
    RearrangedSize(p, h, n, key, largest);
    TopIsSortedPrefix(p, n, key, largest);
    AgreesWhen(p, n, key, largest);
    hide PushAll, SortBy, Top, Settled;
    forall k: real ensures FirstKept(p, n, key, largest, k) {
      if h == [] {
        NoneOfKey(h, key, k);
      } else {
        SettledClass(items, p, n, key, largest, k);
      }
    }
  }
}
