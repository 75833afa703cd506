/** Arrangements of tied rows on which the bounded heap and sort-then-cut keep different rows. */
module TiesApart {
  import opened Seqs
  import opened TopN
  import opened Ties

  // ---- Pushing on --------------------------------------------------------

  /** The heap after more pushes. */
  function PushOn<T>(h: seq<T>, items: seq<T>, n: nat, key: T -> real, largest: bool): seq<T> {
    if items == [] then h
    else Push(PushOn(h, items[..|items| - 1], n, key, largest), items[|items| - 1], n, key, largest)
  }

  lemma {:induction false} PushAllSplit<T>(p: seq<T>, t: seq<T>, n: nat, key: T -> real, largest: bool)
    ensures PushAll(p + t, n, key, largest) == PushOn(PushAll(p, n, key, largest), t, n, key, largest)
  {
    if t == [] {
      assert p + t == p;
    } else {
      var m := |t| - 1;
      PushAllSplit(p, t[..m], n, key, largest);
      assert (p + t)[..|p + t| - 1] == p + t[..m];
    }
  }

  /** Pushing a list that is a heap already moves nothing. */
  lemma {:induction false} HeapStays<T>(h: seq<T>, t: seq<T>, n: nat, key: T -> real, largest: bool)
    requires Heap(h + t, key, largest) && |h + t| <= n
    ensures PushOn(h, t, n, key, largest) == h + t
  {
    if t == [] {
      assert h + t == h;
    } else {
      var m := |t| - 1;
      var s := h + t[..m];
      assert h + t == s + [t[m]];
      forall j | 0 < j < |s| ensures Above(s[Parent(j)], s[j], key, largest) {
        assert s[j] == (h + t)[j] && s[Parent(j)] == (h + t)[Parent(j)];
      }
      HeapStays(h, t[..m], n, key, largest);
      if |s| > 0 { assert Above((h + t)[Parent(|s|)], (h + t)[|s|], key, largest); }
    }
  }

  lemma HeapIsItself<T>(p: seq<T>, n: nat, key: T -> real, largest: bool)
    requires Heap(p, key, largest) && |p| <= n
    ensures PushAll(p, n, key, largest) == p
  {
    assert [] + p == p && PushAll<T>([], n, key, largest) == [];
    PushAllSplit([], p, n, key, largest);
    HeapStays([], p, n, key, largest);
  }

  /** A full heap turns away what is not better than its root. */
  lemma {:induction false} TurnedAway<T>(h: seq<T>, t: seq<T>, n: nat, key: T -> real, largest: bool)
    requires |h| == n > 0 && forall x :: x in t ==> !EvictableAbove(h[0], x, key, largest)
    ensures PushOn(h, t, n, key, largest) == h
  {
    if t != [] {
      var m := |t| - 1;
      assert t[m] in t;
      TurnedAway(h, t[..m], n, key, largest);
    }
  }

  /** Nothing in the list must stand above `top`. */
  ghost predicate Under<T>(s: seq<T>, top: T, key: T -> real, largest: bool) {
    forall i :: 0 <= i < |s| ==> !EvictableAbove(s[i], top, key, largest)
  }

  lemma TopStaysOnce<T>(g: seq<T>, item: T, n: nat, j: nat, key: T -> real, largest: bool)
    requires j < |g| < n && Under(g, g[j], key, largest) && !EvictableAbove(item, g[j], key, largest)
    ensures var r := Push(g, item, n, key, largest); |r| == |g| + 1 && r[j] == g[j] && Under(r, g[j], key, largest)
  {
    var s := g + [item];
    SiftUpKeepsTop(s, |g|, j, key, largest);
    SiftUpBag(s, |g|, key, largest);
    var r := SiftUp(s, |g|, key, largest);
    hide SiftUp;
    forall i | 0 <= i < |r| ensures !EvictableAbove(r[i], g[j], key, largest) {
      assert r[i] in multiset(r);
      assert r[i] in multiset(s);
      var t :| 0 <= t < |s| && s[t] == r[i];
    }
  }

  /** A row that nothing must stand above keeps its place while there is room. */
  lemma {:induction false} TopStays<T>(h: seq<T>, t: seq<T>, n: nat, j: nat, key: T -> real, largest: bool)
    requires j < |h| && |h| + |t| <= n && Under(h, h[j], key, largest) && Under(t, h[j], key, largest)
    ensures var r := PushOn(h, t, n, key, largest); |r| == |h| + |t| && r[j] == h[j] && Under(r, h[j], key, largest)
  {
    if t != [] {
      var m := |t| - 1;
      TopStays(h, t[..m], n, j, key, largest);
      hide Push;
      TopStaysOnce(PushOn(h, t[..m], n, key, largest), t[m], n, j, key, largest);
    }
  }

  lemma SameMembers<T>(a: seq<T>, b: seq<T>)
    requires multiset(a) == multiset(b)
    ensures forall x :: x in a <==> x in b
  {
    forall x ensures x in a <==> x in b { assert x in multiset(a) <==> x in multiset(b); }
  }

  lemma {:induction false} SiftUpBag<T>(h: seq<T>, i: nat, key: T -> real, largest: bool)
    requires i < |h|
    ensures multiset(SiftUp(h, i, key, largest)) == multiset(h)
    ensures forall j :: i < j < |h| ==> SiftUp(h, i, key, largest)[j] == h[j]
    decreases i
  {
    if i > 0 && EvictableAbove(h[i], h[Parent(i)], key, largest) {
      SwapBag(h, i, Parent(i));
      SiftUpBag(Swap(h, i, Parent(i)), Parent(i), key, largest);
    }
  }

  lemma {:induction false} SiftDownBag<T>(h: seq<T>, i: nat, key: T -> real, largest: bool)
    requires i < |h|
    ensures multiset(SiftDown(h, i, key, largest)) == multiset(h)
    decreases |h| - i
  {
    var t := TopOf(h, i, key, largest);
    if t != i {
      SwapBag(h, i, t);
      SiftDownBag(Swap(h, i, t), t, key, largest);
    }
  }

  lemma {:induction false} PushedOnly<T>(h: seq<T>, t: seq<T>, n: nat, x: T, key: T -> real, largest: bool)
    requires x !in h && x !in t
    ensures x !in PushOn(h, t, n, key, largest)
  {
    if t != [] {
      var m := |t| - 1;
      var g := PushOn(h, t[..m], n, key, largest);
      assert t[m] in t;
      PushedOnly(h, t[..m], n, x, key, largest);
      PushKeepsOut(g, t[m], n, x, key, largest);
    }
  }

  lemma PushKeepsOut<T>(g: seq<T>, item: T, n: nat, x: T, key: T -> real, largest: bool)
    requires x !in g && item != x
    ensures x !in Push(g, item, n, key, largest)
  {
    if n > 0 && |g| < n {
      SiftUpBag(g + [item], |g|, key, largest);
      SameMembers(SiftUp(g + [item], |g|, key, largest), g + [item]);
    } else if n > 0 && EvictableAbove(g[0], item, key, largest) {
      SiftDownBag(g[0 := item], 0, key, largest);
      SameMembers(SiftDown(g[0 := item], 0, key, largest), g[0 := item]);
    }
  }

  // ---- Telling the two apart ---------------------------------------------

  lemma ClassAt<T>(s: seq<T>, key: T -> real, q: nat)
    requires q < |s|
    ensures var k := key(s[q]); var c := |Class(s[..q], key, k)|;
      c < |Class(s, key, k)| && Class(s, key, k)[c] == s[q] && |Class(s[..q + 1], key, k)| == c + 1
  {
    var k := key(s[q]);
    assert s[..q + 1] == s[..q] + [s[q]];
    ClassAppend(s[..q], [s[q]], key, k);
    ClassOne([s[q]], key);
    ClassPrefix(s[..q + 1], s, key, k);
  }

  /** Rows of one key stand in their class in their order. */
  lemma ClassOrder<T>(s: seq<T>, key: T -> real, q: nat, r: nat) returns (i: nat, j: nat)
    requires q < r < |s| && key(s[q]) == key(s[r])
    ensures i < j < |Class(s, key, key(s[q]))| && Class(s, key, key(s[q]))[i] == s[q] && Class(s, key, key(s[q]))[j] == s[r]
  {
    var k := key(s[q]);
    ClassAt(s, key, q);
    ClassAt(s, key, r);
    i, j := |Class(s[..q], key, k)|, |Class(s[..r], key, k)|;
    assert s[..q + 1] <= s[..r];
    ClassPrefix(s[..q + 1], s[..r], key, k);
  }

  lemma {:induction false} ClassDistinct<T>(s: seq<T>, key: T -> real, k: real)
    requires Distinct(s)
    ensures Distinct(Class(s, key, k))
  {
    if s != [] {
      var n := |s| - 1;
      ClassDistinct(s[..n], key, k);
      ClassHas(s[..n], key, k, s[n]);
    }
  }

  /** Two tied rows stand one way in the input and the other way in the heap. */
  lemma Flipped<T>(p: seq<T>, n: nat, key: T -> real, largest: bool, i: nat, j: nat, q: nat, r: nat)
    requires Distinct(p) && i < j < |p| && key(p[i]) == key(p[j])
    requires var h := PushAll(p, n, key, largest); q < r < |h| && h[q] == p[j] && h[r] == p[i]
    ensures !FirstKept(p, n, key, largest, key(p[i]))
  {
    var h, k := PushAll(p, n, key, largest), key(p[i]);
    hide PushAll;
    var a, b := ClassOrder(p, key, i, j);
    var c, d := ClassOrder(h, key, q, r);
    ClassDistinct(p, key, k);
    hide Class;
  }

  /** The first row of a key is not kept, but another row of it is. */
  lemma FirstMissing<T>(p: seq<T>, n: nat, key: T -> real, largest: bool, i: nat)
    requires i < |p| && Class(p, key, key(p[i])) != [] && Class(p, key, key(p[i]))[0] == p[i]
    requires p[i] !in PushAll(p, n, key, largest) && Class(PushAll(p, n, key, largest), key, key(p[i])) != []
    ensures !FirstKept(p, n, key, largest, key(p[i]))
  {
    var h, k := PushAll(p, n, key, largest), key(p[i]);
    hide PushAll;
    ClassHas(h, key, k, Class(h, key, k)[0]);
    hide Class;
  }

  // ---- Arrangements ------------------------------------------------------

  function Reversed<T>(s: seq<T>): (r: seq<T>)
    ensures |r| == |s| && forall i :: 0 <= i < |s| ==> r[i] == s[|s| - 1 - i]
  {
    seq(|s|, i requires 0 <= i < |s| => s[|s| - 1 - i])
  }

  lemma {:induction false} ReversedBag<T>(s: seq<T>)
    ensures multiset(Reversed(s)) == multiset(s)
  {
    if s != [] {
      var n := |s| - 1;
      ReversedBag(s[..n]);
      assert Reversed(s) == [s[n]] + Reversed(s[..n]);
      assert s == s[..n] + [s[n]];
    }
  }

  lemma DistinctBag<T>(s: seq<T>, p: seq<T>)
    requires Distinct(s) && multiset(p) == multiset(s)
    ensures Distinct(p)
  {
    forall i, j | 0 <= i < j < |p| ensures p[i] != p[j] {
      if p[i] == p[j] {
        Twice(p, i, j);
        OnceEach(s, p[i]);
      }
    }
  }

  lemma Twice<T>(p: seq<T>, i: nat, j: nat)
    requires i < j < |p| && p[i] == p[j]
    ensures multiset(p)[p[i]] >= 2
  {
    assert p == p[..i] + [p[i]] + p[i + 1..j] + [p[j]] + p[j + 1..];
  }

  lemma {:induction false} OnceEach<T>(s: seq<T>, x: T)
    requires Distinct(s)
    ensures multiset(s)[x] <= 1
  {
    if s != [] {
      var n := |s| - 1;
      assert s == s[..n] + [s[n]];
      OnceEach(s[..n], x);
    }
  }

  /** A tie class of a sorted list: s[a..b], at least two rows. */
  ghost predicate TieClass<T>(s: seq<T>, a: nat, b: nat, key: T -> real, largest: bool) {
    && Ordered(s, key, largest) && Distinct(s)
    && a + 2 <= b <= |s|
    && (forall t :: 0 <= t < |s| ==> (key(s[t]) == key(s[a]) <==> a <= t < b))
  }

  /** Each row of the list may stand above the later ones. */
  ghost predicate Falling<T>(h: seq<T>, key: T -> real, largest: bool) {
    forall i, j :: 0 <= i < j < |h| ==> Above(h[i], h[j], key, largest)
  }

  // ---- A tie across the cut, with better rows ----------------------------

  lemma BestRoot<T>(c: seq<T>, l: seq<T>, n: nat, key: T -> real, largest: bool)
    requires c != [] && 0 < n && AllEqual(c, key)
    requires (|c| >= n && l == []) || |c| + |l| == n
    requires forall i :: 0 <= i < |l| ==> EvictableAbove(c[0], l[i], key, largest)
    ensures |PushAll(c + l, n, key, largest)| == n && PushAll(c + l, n, key, largest)[0] == c[0]
  {
    var q := c + l;
    if |q| == n {
      RootIsFirst(q, n, key, largest);
      FirstOfKey(q, key);
      var root := PushAll(q, n, key, largest)[0];
      NothingEvicted(q, n, key, largest);
      assert q[0] in q && root in q;
      assert key(root) == key(c[0]);
    } else {
      assert q == c;
      EqualKept(q, n, key, largest);
    }
  }

  lemma KeptDistinct<T>(q: seq<T>, n: nat, key: T -> real, largest: bool)
    requires Distinct(q)
    ensures Distinct(PushAll(q, n, key, largest))
  {
    var h := PushAll(q, n, key, largest);
    var rest := PushAllKeeps(q, n, key, largest);
    hide PushAll, Heap;
    forall i, j | 0 <= i < j < |h| ensures h[i] != h[j] {
      if h[i] == h[j] {
        Twice(h, i, j);
        OnceEach(q, h[i]);
      }
    }
  }

  /** Once the root is evicted by a better row it is gone. */
  lemma RootGone<T>(q: seq<T>, y: T, t: seq<T>, n: nat, x: T, key: T -> real, largest: bool)
    requires Distinct(q) && n > 0 && x !in t && y != x
    requires |PushAll(q, n, key, largest)| == n && PushAll(q, n, key, largest)[0] == x
    requires EvictableAbove(x, y, key, largest)
    ensures x !in PushAll(q + [y] + t, n, key, largest)
  {
    var h := PushAll(q, n, key, largest);
    PushAllSplit(q + [y], t, n, key, largest);
    PushAllSplit(q, [y], n, key, largest);
    KeptDistinct(q, n, key, largest);
    assert PushOn(h, [y], n, key, largest) == SiftDown(h[0 := y], 0, key, largest) by {
      assert [y][..0] == [];
    }
    hide PushAll, PushOn, SiftDown;
    assert x !in h[0 := y];
    SiftDownBag(h[0 := y], 0, key, largest);
    SameMembers(SiftDown(h[0 := y], 0, key, largest), h[0 := y]);
    PushedOnly(SiftDown(h[0 := y], 0, key, largest), t, n, x, key, largest);
  }

  lemma Parts<T>(s: seq<T>, a: nat, b: nat)
    requires a < b <= |s|
    ensures multiset(s[a..b] + s[..a] + s[b..]) == multiset(s)
    ensures (s[a..b] + s[..a] + s[b..])[0] == s[a]
  {
    assert s == s[..a] + s[a..b] + s[b..];
  }

  lemma CutAt<T>(c: seq<T>, l: seq<T>, g: seq<T>, d: nat)
    requires d < |l|
    ensures c + l + g == (c + l[..d]) + [l[d]] + (l[d + 1..] + g)
  {
  }

  lemma ApartAcross<T>(s: seq<T>, a: nat, b: nat, n: nat, key: T -> real, largest: bool) returns (p: seq<T>)
    requires TieClass(s, a, b, key, largest) && 0 < a < n < b
    ensures multiset(p) == multiset(s) && !FirstKept(p, n, key, largest, key(s[a]))
  {
    var c, l, g := s[a..b], s[..a], s[b..];
    p := c + l + g;
    Parts(s, a, b);
    var d := if |c| >= n then 0 else n - |c|;
    assert d < a;
    var q, y, t := c + l[..d], l[d], l[d + 1..] + g;
    CutAt(c, l, g, d);
    AcrossRoot(s, a, b, n, d, key, largest);
    hide PushAll, Class;
    RootGone(q, y, t, n, s[a], key, largest);
    FirstOfKey(p, key);
    SomeKept(p, s, a, n, key, largest);
    FirstMissing(p, n, key, largest, 0);
  }

  lemma AcrossRoot<T>(s: seq<T>, a: nat, b: nat, n: nat, d: nat, key: T -> real, largest: bool)
    requires TieClass(s, a, b, key, largest) && 0 < a < n < b
    requires d == if b - a >= n then 0 else n - (b - a)
    ensures var q := s[a..b] + s[..a][..d];
      d < a && Distinct(q) && |PushAll(q, n, key, largest)| == n && PushAll(q, n, key, largest)[0] == s[a]
    ensures EvictableAbove(s[a], s[..a][d], key, largest) && s[..a][d] != s[a]
    ensures s[a] !in s[..a][d + 1..] + s[b..]
  {
    hide PushAll;
    forall i | 0 <= i < a ensures EvictableAbove(s[a], s[i], key, largest) {
      assert Before(key(s[i]), key(s[a]), largest) && key(s[i]) != key(s[a]);
    }
    var c, l := s[a..b], s[..a][..d];
    forall i, j | 0 <= i < |c| && 0 <= j < |c| ensures key(c[i]) == key(c[j]) {
      assert c[i] == s[a + i] && c[j] == s[a + j];
    }
    assert c[0] == s[a];
    BestRoot(c, l, n, key, largest);
  }

  /** A key among the first n sorted ones is kept. */
  lemma SomeKept<T>(p: seq<T>, s: seq<T>, a: nat, n: nat, key: T -> real, largest: bool)
    requires multiset(p) == multiset(s) && Ordered(s, key, largest) && a < n && a < |s|
    ensures Class(PushAll(p, n, key, largest), key, key(s[a])) != []
  {
    hide Heap, PushAll, SortBy;
    var h, r := PushAll(p, n, key, largest), SortBy(p, key, largest);
    SortedKeysOf(p, s, key, largest);
    KeptOfKey(p, n, key, largest, key(s[a]));
    SameLength(p, s);
    var rest := PushAllKeeps(p, n, key, largest);
    assert Map(key, r)[a] == Map(key, s)[a];
    assert r[..|h|][a] == r[a];
    ClassHas(r[..|h|], key, key(s[a]), r[a]);
  }

  // ---- A late tied row replaces a worse root ------------------------------

  /** Nothing in `r` is better than anything in `h`. */
  ghost predicate NoBetter<T>(h: seq<T>, r: seq<T>, key: T -> real, largest: bool) {
    forall i, j :: 0 <= i < |h| && 0 <= j < |r| ==> !EvictableAbove(h[i], r[j], key, largest)
  }

  /** Everything in `h` may stand above everything in `r`. */
  ghost predicate AllAbove<T>(h: seq<T>, r: seq<T>, key: T -> real, largest: bool) {
    forall i, j :: 0 <= i < |h| && 0 <= j < |r| ==> Above(h[i], r[j], key, largest)
  }

  /** Both are about the rows, not their order. */
  lemma Rearranged<T>(g: seq<T>, h: seq<T>, r: seq<T>, key: T -> real, largest: bool)
    requires multiset(g) == multiset(h)
    ensures NoBetter(h, r, key, largest) ==> NoBetter(g, r, key, largest)
    ensures AllAbove(h, r, key, largest) ==> AllAbove(g, r, key, largest)
  {
    forall i | 0 <= i < |g| ensures exists t :: 0 <= t < |h| && h[t] == g[i] {
      assert g[i] in multiset(g);
      assert g[i] in multiset(h);
      var t :| 0 <= t < |h| && h[t] == g[i];
    }
  }

  lemma TopOfWorse<T>(h: seq<T>, i: nat, key: T -> real, largest: bool)
    requires i < |h|
    ensures var t := TopOf(h, i, key, largest); t != i ==> EvictableAbove(h[t], h[i], key, largest)
  {
  }

  /** A row sinks only among rows that must stand above it. */
  lemma {:induction false} Sinks<T>(h: seq<T>, i: nat, w: nat, key: T -> real, largest: bool) returns (q: nat)
    requires i <= w < |h|
    requires forall t :: w < t < |h| ==> !EvictableAbove(h[t], h[i], key, largest)
    ensures var r := SiftDown(h, i, key, largest);
      q <= w && r[q] == h[i] && forall t :: w < t < |h| ==> r[t] == h[t]
    decreases |h| - i
  {
    var t := TopOf(h, i, key, largest);
    TopOfWorse(h, i, key, largest);
    if t == i {
      q := i;
    } else {
      q := Sinks(Swap(h, i, t), t, w, key, largest);
    }
  }

  /** A better row in place of the root of a full heap, then rows that are turned away. */
  lemma Evicts<T>(h: seq<T>, at: nat, y: T, r: seq<T>, n: nat, key: T -> real, largest: bool) returns (q: nat)
    requires |h| == n && 0 < at < n && Heap(h, key, largest) && EvictableAbove(h[0], y, key, largest)
    requires forall t :: at <= t < n ==> !EvictableAbove(h[t], y, key, largest)
    requires NoBetter(h[0 := y], r, key, largest)
    ensures var g := PushAll(h + [y] + r, n, key, largest);
      |g| == n && q < at && g[q] == y && g[at] == h[at]
  {
    HeapIsItself(h, n, key, largest);
    PushAllSplit(h, [y], n, key, largest);
    PushAllSplit(h + [y], r, n, key, largest);
    var g := h[0 := y];
    var sunk := SiftDown(g, 0, key, largest);
    assert PushOn(h, [y], n, key, largest) == sunk by { assert [y][..0] == []; }
    hide PushAll, PushOn, Heap;
    q := Sinks(g, 0, at - 1, key, largest);
    SiftDownBag(g, 0, key, largest);
    hide SiftDown;
    Rearranged(sunk, g, r, key, largest);
    TurnedAway(sunk, r, n, key, largest);
  }

  lemma FlipByEviction<T>(h: seq<T>, at: nat, y: T, r: seq<T>, n: nat, key: T -> real, largest: bool)
    requires |h| == n && 0 < at < n && Heap(h, key, largest) && EvictableAbove(h[0], y, key, largest)
    requires key(h[at]) == key(y) && Distinct(h + [y] + r)
    requires forall t :: at <= t < n ==> !EvictableAbove(h[t], y, key, largest)
    requires NoBetter(h[0 := y], r, key, largest)
    ensures !FirstKept(h + [y] + r, n, key, largest, key(y))
  {
    hide PushAll, Heap;
    var p := h + [y] + r;
    var q := Evicts(h, at, y, r, n, key, largest);
    assert p[at] == h[at] && p[n] == y;
    Flipped(p, n, key, largest, at, n, q, at);
  }

  // ---- A worse row sifts up past one of two tied leaves -------------------

  lemma SiftsOnce<T>(h: seq<T>, z: T, n: nat, key: T -> real, largest: bool)
    requires 2 <= |h| < n && Heap(h, key, largest) && EvictableAbove(z, h[(|h| - 1) / 2], key, largest)
    ensures var up := PushAll(h + [z], n, key, largest);
      && |up| == |h| + 1 && up[|h|] == h[(|h| - 1) / 2] && up[|h| - 1] == h[|h| - 1]
      && Heap(up, key, largest) && multiset(up) == multiset(h + [z])
  {
    HeapIsItself(h, n, key, largest);
    assert (h + [z])[..|h|] == h;
    assert PushAll(h + [z], n, key, largest) == SiftUp(h + [z], |h|, key, largest);
    hide PushAll;
    SiftsPast(h, (|h| - 1) / 2, z, key, largest);
    SiftUpHeaps(h + [z], |h|, key, largest);
    SiftUpBag(h + [z], |h|, key, largest);
  }

  /** Into a heap with room: a worse row that passes the row half way, then rows that stay where they are put. */
  lemma Sifts<T>(h: seq<T>, z: T, r: seq<T>, n: nat, key: T -> real, largest: bool)
    requires |h| >= 2 && |h| + 1 + |r| <= n && Heap(h, key, largest) && Falling(r, key, largest)
    requires EvictableAbove(z, h[(|h| - 1) / 2], key, largest)
    requires AllAbove(h + [z], r, key, largest)
    ensures var g, f := PushAll(h + [z] + r, n, key, largest), (|h| - 1) / 2;
      |g| == |h| + 1 + |r| && g[|h|] == h[f] && g[|h| - 1] == h[|h| - 1]
  {
    hide PushAll, PushOn, Heap, Falling, AllAbove;
    SiftsOnce(h, z, n, key, largest);
    var up := PushAll(h + [z], n, key, largest);
    PushAllSplit(h + [z], r, n, key, largest);
    Rearranged(up, h + [z], r, key, largest);
    StillHeap(up, r, key, largest);
    HeapStays(up, r, n, key, largest);
  }

  lemma StillHeap<T>(h: seq<T>, r: seq<T>, key: T -> real, largest: bool)
    requires Heap(h, key, largest) && Falling(r, key, largest)
    requires AllAbove(h, r, key, largest)
    ensures Heap(h + r, key, largest)
  {
    forall j | 0 < j < |h + r| ensures Above((h + r)[Parent(j)], (h + r)[j], key, largest) {
      if j < |h| {
        assert Above(h[Parent(j)], h[j], key, largest);
      } else if Parent(j) < |h| {
        assert Above(h[Parent(j)], r[j - |h|], key, largest);
      }
    }
  }

  lemma FlipBySifting<T>(h: seq<T>, z: T, r: seq<T>, n: nat, key: T -> real, largest: bool)
    requires |h| >= 2 && |h| + 1 + |r| <= n && Heap(h, key, largest) && Falling(r, key, largest)
    requires EvictableAbove(z, h[(|h| - 1) / 2], key, largest) && key(h[(|h| - 1) / 2]) == key(h[|h| - 1])
    requires AllAbove(h + [z], r, key, largest) && Distinct(h + [z] + r)
    ensures !FirstKept(h + [z] + r, n, key, largest, key(h[|h| - 1]))
  {
    hide PushAll, Heap;
    var p, f, g := h + [z] + r, (|h| - 1) / 2, |h| - 1;
    Sifts(h, z, r, n, key, largest);
    assert p[f] == h[f] && p[g] == h[g];
    Flipped(p, n, key, largest, f, g, g, g + 1);
  }

  /** Worse rows, then one tied row half way, more worse rows, and the other tied row: a heap as it is. */
  lemma LeavesHeap<T>(v: seq<T>, x: T, y: T, key: T -> real, largest: bool)
    requires Falling(v, key, largest) && key(x) == key(y)
    requires forall i :: 0 <= i < |v| ==> Above(v[i], x, key, largest)
    ensures var f := (|v| + 1) / 2; Heap(v[..f] + [x] + v[f..] + [y], key, largest)
  {
    var f := (|v| + 1) / 2;
    var h := v[..f] + [x] + v[f..] + [y];
    forall j | 0 < j < |h| ensures Above(h[Parent(j)], h[j], key, largest) {
      if f < j < |v| + 1 {
        assert Parent(j) < f;
        assert h[j] == v[j - 1] && h[Parent(j)] == v[Parent(j)];
      }
    }
  }

  /** The new row trades places with the tied row half way. */
  lemma SiftsPast<T>(h: seq<T>, f: nat, z: T, key: T -> real, largest: bool)
    requires |h| >= 2 && f == (|h| - 1) / 2 && EvictableAbove(z, h[f], key, largest)
    requires Heap(h, key, largest)
    ensures HeapButAbove(h + [z], |h|, key, largest)
    ensures var up := SiftUp(h + [z], |h|, key, largest);
      up[|h|] == h[f] && forall j :: f < j < |h| ==> up[j] == h[j]
  {
    var s := h + [z];
    assert Parent(|h|) == f;
    forall j | 0 < j < |s| && j != |h| ensures Above(s[Parent(j)], s[j], key, largest) {
      assert Above(h[Parent(j)], h[j], key, largest);
    }
    SiftUpBag(Swap(s, |h|, f), f, key, largest);
  }

  // ---- Three tied rows at the root ---------------------------------------

  lemma SiftsFourth<T>(x: T, e: T, y: T, w: T, key: T -> real, largest: bool)
    requires key(x) == key(w) && EvictableAbove(x, e, key, largest)
    ensures SiftUp([x, e, y, w], 3, key, largest) == [x, w, y, e]
  {
    assert Parent(3) == 1 && Parent(1) == 0 && Swap([x, e, y, w], 3, 1) == [x, w, y, e];
  }

  lemma FourPushed<T>(x: T, e: T, y: T, w: T, n: nat, key: T -> real, largest: bool)
    requires key(x) == key(y) == key(w) && EvictableAbove(x, e, key, largest) && 4 <= n
    ensures PushAll([x, e, y, w], n, key, largest) == [x, w, y, e]
  {
    var three := [x, e, y];
    assert Heap(three, key, largest) by { assert Parent(1) == 0 && Parent(2) == 0; }
    HeapIsItself(three, n, key, largest);
    PushAllSplit(three, [w], n, key, largest);
    assert three + [w] == [x, e, y, w];
    assert PushOn(three, [w], n, key, largest) == SiftUp(three + [w], 3, key, largest) by { assert [w][..0] == []; }
    SiftsFourth(x, e, y, w, key, largest);
  }

  lemma FlipAtRoot<T>(x: T, e: T, y: T, w: T, r: seq<T>, n: nat, key: T -> real, largest: bool)
    requires key(x) == key(y) == key(w) && EvictableAbove(x, e, key, largest) && |r| + 4 <= n
    requires forall i :: 0 <= i < |r| ==> !EvictableAbove(r[i], x, key, largest)
    requires Distinct([x, e, y, w] + r)
    ensures !FirstKept([x, e, y, w] + r, n, key, largest, key(x))
  {
    hide PushAll, PushOn, FirstKept, Distinct;
    var up := [x, w, y, e];
    FourPushed(x, e, y, w, n, key, largest);
    PushAllSplit([x, e, y, w], r, n, key, largest);
    TopStays(up, r, n, 1, key, largest);
    TopStays(up, r, n, 2, key, largest);
    Flipped([x, e, y, w] + r, n, key, largest, 2, 3, 1, 2);
  }

  // ---- The arrangements of a sorted list ---------------------------------

  lemma AboveAt<T>(s: seq<T>, a: nat, b: nat, i: nat, j: nat, key: T -> real, largest: bool)
    requires TieClass(s, a, b, key, largest) && i < |s| && j < |s|
    requires i >= j || (a <= i < b && a <= j < b)
    ensures Above(s[i], s[j], key, largest) && !EvictableAbove(s[j], s[i], key, largest)
    ensures i >= b > j >= a || (j < a <= i < b) ==> EvictableAbove(s[i], s[j], key, largest)
  {
    assert j < i ==> Before(key(s[j]), key(s[i]), largest);
    assert key(s[i]) == key(s[a]) <==> a <= i < b;
    assert key(s[j]) == key(s[a]) <==> a <= j < b;
  }

  lemma SevenParts<T>(l: seq<T>, x: T, y: T, c: seq<T>, d: seq<T>, g: seq<T>, r: seq<T>)
    ensures multiset(Reversed(g) + [x] + c + Reversed(l) + [y] + (d + r)) == multiset(l + [x] + [y] + c + d + g + r)
  {
    ReversedBag(g);
    ReversedBag(l);
    var p := Reversed(g) + [x] + c + Reversed(l) + [y];
    assert multiset(p) == multiset(g) + multiset{x} + multiset(c) + multiset(l) + multiset{y};
    assert multiset(p + (d + r)) == multiset(p) + multiset(d) + multiset(r);
  }

  /** Worse rows from the worst down, the first tied row, other tied rows, better rows. */
  function EvictHeap<T>(s: seq<T>, a: nat, b: nat, e: nat, top: nat): seq<T>
    requires a + 2 <= e <= b <= top <= |s|
  {
    Reversed(s[b..top]) + [s[a]] + s[a + 2..e] + Reversed(s[..a])
  }

  function EvictIndex(a: nat, b: nat, e: nat, top: nat, t: nat): nat
    requires a + 2 <= e <= b <= top && t < top - b + e - 1
  {
    var l := top - b;
    if t < l then top - 1 - t else if t == l then a else if t < l + e - a - 1 then a + 1 + t - l else l + e - 2 - t
  }

  lemma EvictHeapAt<T>(s: seq<T>, a: nat, b: nat, e: nat, top: nat, t: nat)
    requires a + 2 <= e <= b <= top <= |s| && t < top - b + e - 1
    ensures |EvictHeap(s, a, b, e, top)| == top - b + e - 1
    ensures EvictIndex(a, b, e, top, t) < top && EvictHeap(s, a, b, e, top)[t] == s[EvictIndex(a, b, e, top, t)]
  {
  }

  lemma EvictHeapIsHeap<T>(s: seq<T>, a: nat, b: nat, e: nat, top: nat, key: T -> real, largest: bool)
    requires TieClass(s, a, b, key, largest) && a + 2 <= e <= b < top <= |s|
    ensures var h := EvictHeap(s, a, b, e, top);
      Heap(h, key, largest) && |h| == top - b + e - 1 && h[0] == s[top - 1] && h[top - b] == s[a]
  {
    var h := EvictHeap(s, a, b, e, top);
    EvictHeapAt(s, a, b, e, top, 0);
    EvictHeapAt(s, a, b, e, top, top - b);
    hide EvictHeap, TieClass;
    forall j | 0 < j < |h| ensures Above(h[Parent(j)], h[j], key, largest) {
      EvictHeapAt(s, a, b, e, top, j);
      EvictHeapAt(s, a, b, e, top, Parent(j));
      AboveAt(s, a, b, EvictIndex(a, b, e, top, Parent(j)), EvictIndex(a, b, e, top, j), key, largest);
    }
  }

  lemma EvictTail<T>(s: seq<T>, a: nat, b: nat, e: nat, top: nat, key: T -> real, largest: bool)
    requires TieClass(s, a, b, key, largest) && a + 2 <= e <= b < top <= |s|
    ensures var h := EvictHeap(s, a, b, e, top);
      EvictableAbove(h[0], s[a + 1], key, largest) && key(h[top - b]) == key(s[a + 1])
      && forall t :: top - b <= t < |h| ==> !EvictableAbove(h[t], s[a + 1], key, largest)
  {
    var h := EvictHeap(s, a, b, e, top);
    EvictHeapIsHeap(s, a, b, e, top, key, largest);
    AboveAt(s, a, b, top - 1, a + 1, key, largest);
    assert key(s[a + 1]) == key(s[a]);
    hide EvictHeap, TieClass, Heap;
    forall t | top - b <= t < |h| ensures !EvictableAbove(h[t], s[a + 1], key, largest) {
      EvictHeapAt(s, a, b, e, top, t);
      AboveAt(s, a, b, a + 1, EvictIndex(a, b, e, top, t), key, largest);
    }
  }

  lemma EvictRest<T>(s: seq<T>, a: nat, b: nat, e: nat, top: nat, key: T -> real, largest: bool)
    requires TieClass(s, a, b, key, largest) && a + 2 <= e <= b < top <= |s| && (e == b || (a == 0 && top == b + 1))
    ensures NoBetter(EvictHeap(s, a, b, e, top)[0 := s[a + 1]], s[e..b] + s[top..], key, largest)
  {
    var g, r := EvictHeap(s, a, b, e, top)[0 := s[a + 1]], s[e..b] + s[top..];
    forall j | 0 <= j < |r| ensures r[j] == s[if j < b - e then e + j else top + j - (b - e)] {
    }
    hide EvictHeap, TieClass;
    forall i, j | 0 <= i < |g| && 0 <= j < |r| ensures !EvictableAbove(g[i], r[j], key, largest) {
      EvictHeapAt(s, a, b, e, top, i);
      var u, v := if i == 0 then a + 1 else EvictIndex(a, b, e, top, i), if j < b - e then e + j else top + j - (b - e);
      AboveAt(s, a, b, v, u, key, largest);
    }
  }

  lemma ApartByEviction<T>(s: seq<T>, a: nat, b: nat, n: nat, key: T -> real, largest: bool) returns (p: seq<T>)
    requires TieClass(s, a, b, key, largest) && 2 <= n < |s| && b < |s| && (b <= n || a == 0)
    ensures multiset(p) == multiset(s) && !FirstKept(p, n, key, largest, key(s[a]))
  {
    var e, top := if b <= n then b else n, (if b <= n then n else b) + 1;
    p := EvictHeap(s, a, b, e, top) + [s[a + 1]] + (s[e..b] + s[top..]);
    EvictParts(s, a, b, e, top);
    DistinctBag(s, p);
    EvictHeapIsHeap(s, a, b, e, top, key, largest);
    EvictTail(s, a, b, e, top, key, largest);
    EvictRest(s, a, b, e, top, key, largest);
    hide EvictHeap, TieClass, Heap, NoBetter, Distinct;
    FlipByEviction(EvictHeap(s, a, b, e, top), top - b, s[a + 1], s[e..b] + s[top..], n, key, largest);
  }

  lemma EvictParts<T>(s: seq<T>, a: nat, b: nat, e: nat, top: nat)
    requires a + 2 <= e <= b <= top <= |s|
    ensures multiset(EvictHeap(s, a, b, e, top) + [s[a + 1]] + (s[e..b] + s[top..])) == multiset(s)
  {
    SevenParts(s[..a], s[a], s[a + 1], s[a + 2..e], s[e..b], s[b..top], s[top..]);
    SevenSlices(s, a, b, e, top);
    hide Reversed;
  }

  lemma SevenSlices<T>(s: seq<T>, a: nat, b: nat, e: nat, top: nat)
    requires a + 2 <= e <= b <= top <= |s|
    ensures s == s[..a] + [s[a]] + [s[a + 1]] + s[a + 2..e] + s[e..b] + s[b..top] + s[top..]
  {
  }

  /** Worse rows from the second worst down, with the first tied row half way and the second after them. */
  function SiftHeap<T>(s: seq<T>, a: nat, b: nat): seq<T>
    requires a + 2 <= b < |s|
  {
    var v := Reversed(s[b..|s| - 1]);
    var f := (|v| + 1) / 2;
    v[..f] + [s[a]] + v[f..] + [s[a + 1]]
  }

  lemma WorseFall<T>(s: seq<T>, a: nat, b: nat, key: T -> real, largest: bool)
    requires TieClass(s, a, b, key, largest) && b < |s|
    ensures var v := Reversed(s[b..|s| - 1]);
      Falling(v, key, largest) && forall i :: 0 <= i < |v| ==> Above(v[i], s[a], key, largest)
  {
    var v := Reversed(s[b..|s| - 1]);
    assert forall i :: 0 <= i < |v| ==> v[i] == s[|s| - 2 - i];
    forall i | 0 <= i < |v| ensures Above(v[i], s[a], key, largest) { AboveAt(s, a, b, |s| - 2 - i, a, key, largest); }
    forall i, j | 0 <= i < j < |v| ensures Above(v[i], v[j], key, largest) {
      AboveAt(s, a, b, |s| - 2 - i, |s| - 2 - j, key, largest);
    }
  }

  lemma SiftHeapIsHeap<T>(s: seq<T>, a: nat, b: nat, key: T -> real, largest: bool)
    requires TieClass(s, a, b, key, largest) && b < |s|
    ensures var h := SiftHeap(s, a, b); var f := (|h| - 1) / 2;
      && |h| == |s| - b + 1 && Heap(h, key, largest) && h[f] == s[a] && h[|h| - 1] == s[a + 1]
      && key(s[a]) == key(s[a + 1]) && EvictableAbove(s[|s| - 1], s[a], key, largest)
  {
    var v := Reversed(s[b..|s| - 1]);
    AboveAt(s, a, b, |s| - 1, a, key, largest);
    assert key(s[a + 1]) == key(s[a]);
    WorseFall(s, a, b, key, largest);
    hide TieClass, Falling, Heap;
    LeavesHeap(v, s[a], s[a + 1], key, largest);
  }

  /** The rows of a list that are nowhere better than a class may stand above what is not worse than the class. */
  lemma SiftAbove<T>(s: seq<T>, a: nat, b: nat, key: T -> real, largest: bool)
    requires TieClass(s, a, b, key, largest) && b < |s|
    ensures AllAbove(SiftHeap(s, a, b) + [s[|s| - 1]], s[a + 2..b] + Reversed(s[..a]), key, largest)
    ensures Falling(s[a + 2..b] + Reversed(s[..a]), key, largest)
  {
    var h, r := SiftHeap(s, a, b) + [s[|s| - 1]], s[a + 2..b] + Reversed(s[..a]);
    var c := b - a - 2;
    forall j | 0 <= j < |r| ensures r[j] == s[if j < c then a + 2 + j else a - 1 - (j - c)] {
    }
    forall i, j | 0 <= i < j < |r| ensures Above(r[i], r[j], key, largest) {
      AboveAt(s, a, b, if i < c then a + 2 + i else a - 1 - (i - c), if j < c then a + 2 + j else a - 1 - (j - c), key, largest);
    }
    forall i, j | 0 <= i < |h| && 0 <= j < |r| ensures Above(h[i], r[j], key, largest) {
      var u := SiftIndex(s, a, b, i);
      AboveAt(s, a, b, u, if j < c then a + 2 + j else a - 1 - (j - c), key, largest);
    }
  }

  lemma SiftIndex<T>(s: seq<T>, a: nat, b: nat, i: nat) returns (u: nat)
    requires a + 2 <= b < |s| && i <= |s| - b + 1
    ensures |SiftHeap(s, a, b)| == |s| - b + 1
    ensures u < |s| && (u >= b || u == a || u == a + 1) && (SiftHeap(s, a, b) + [s[|s| - 1]])[i] == s[u]
  {
    var g := |s| - b;
    var f := g / 2;
    u := if i < f then |s| - 2 - i else if i == f then a else if i < g then |s| - 1 - i else if i == g then a + 1 else |s| - 1;
  }

  lemma HalvesBag<T>(g: seq<T>, f: nat)
    requires f <= |g|
    ensures multiset(Reversed(g)[..f] + Reversed(g)[f..]) == multiset(g)
  {
    ReversedBag(g);
    assert Reversed(g) == Reversed(g)[..f] + Reversed(g)[f..];
  }

  lemma SiftParts<T>(s: seq<T>, a: nat, b: nat)
    requires a + 2 <= b < |s|
    ensures multiset(SiftHeap(s, a, b) + [s[|s| - 1]] + (s[a + 2..b] + Reversed(s[..a]))) == multiset(s)
  {
    var l, c, g, z := s[..a], s[a + 2..b], s[b..|s| - 1], s[|s| - 1];
    var v := Reversed(g);
    var f := (|v| + 1) / 2;
    HalvesBag(g, f);
    hide Reversed;
    SixParts(l, s[a], s[a + 1], c, v[..f], v[f..], g, z);
    SixSlices(s, a, b);
  }

  lemma SixSlices<T>(s: seq<T>, a: nat, b: nat)
    requires a + 2 <= b < |s|
    ensures s == s[..a] + [s[a]] + [s[a + 1]] + s[a + 2..b] + s[b..|s| - 1] + [s[|s| - 1]]
  {
  }

  lemma SixParts<T>(l: seq<T>, x: T, y: T, c: seq<T>, v: seq<T>, w: seq<T>, g: seq<T>, z: T)
    requires multiset(v + w) == multiset(g)
    ensures multiset(v + [x] + w + [y] + [z] + (c + Reversed(l))) == multiset(l + [x] + [y] + c + g + [z])
  {
    ReversedBag(l);
    var p := v + [x] + w + [y] + [z];
    assert multiset(p) == multiset(v + w) + multiset{x} + multiset{y} + multiset{z};
    assert multiset(p + (c + Reversed(l))) == multiset(p) + multiset(c) + multiset(l);
  }

  lemma ApartBySifting<T>(s: seq<T>, a: nat, b: nat, n: nat, key: T -> real, largest: bool) returns (p: seq<T>)
    requires TieClass(s, a, b, key, largest) && b < |s| <= n
    ensures multiset(p) == multiset(s) && !FirstKept(p, n, key, largest, key(s[a]))
  {
    var h, z, r := SiftHeap(s, a, b), s[|s| - 1], s[a + 2..b] + Reversed(s[..a]);
    p := h + [z] + r;
    SiftParts(s, a, b);
    DistinctBag(s, p);
    SiftHeapIsHeap(s, a, b, key, largest);
    SiftAbove(s, a, b, key, largest);
    hide SiftHeap, TieClass, Heap, AllAbove, Falling, Distinct;
    FlipBySifting(h, z, r, n, key, largest);
  }

  lemma RootParts<T>(s: seq<T>, a: nat)
    requires 0 < a && a + 3 <= |s|
    ensures multiset([s[a], s[0], s[a + 1], s[a + 2]] + (s[1..a] + s[a + 3..])) == multiset(s)
  {
    RootSlices(s, a);
    RootBag(s[a], s[0], s[a + 1], s[a + 2], s[1..a], s[a + 3..]);
  }

  lemma RootBag<T>(x: T, e: T, y: T, w: T, l: seq<T>, r: seq<T>)
    ensures multiset([x, e, y, w] + (l + r)) == multiset([e] + l + [x] + [y] + [w] + r)
  {
  }

  lemma RootSlices<T>(s: seq<T>, a: nat)
    requires 0 < a && a + 3 <= |s|
    ensures s == [s[0]] + s[1..a] + [s[a]] + [s[a + 1]] + [s[a + 2]] + s[a + 3..]
  {
  }

  lemma RootRest<T>(s: seq<T>, a: nat, key: T -> real, largest: bool)
    requires TieClass(s, a, |s|, key, largest) && 0 < a && a + 3 <= |s|
    ensures var r := s[1..a] + s[a + 3..]; forall i :: 0 <= i < |r| ==> !EvictableAbove(r[i], s[a], key, largest)
  {
    var r := s[1..a] + s[a + 3..];
    forall i | 0 <= i < |r| ensures !EvictableAbove(r[i], s[a], key, largest) {
      AboveAt(s, a, |s|, a, if i < a - 1 then i + 1 else i + 4, key, largest);
    }
  }

  lemma ApartAtRoot<T>(s: seq<T>, a: nat, n: nat, key: T -> real, largest: bool) returns (p: seq<T>)
    requires TieClass(s, a, |s|, key, largest) && 0 < a && a + 3 <= |s| <= n
    ensures multiset(p) == multiset(s) && !FirstKept(p, n, key, largest, key(s[a]))
  {
    var r := s[1..a] + s[a + 3..];
    p := [s[a], s[0], s[a + 1], s[a + 2]] + r;
    RootParts(s, a);
    DistinctBag(s, p);
    assert key(s[a]) == key(s[a + 1]) == key(s[a + 2]);
    AboveAt(s, a, |s|, a, 0, key, largest);
    RootRest(s, a, key, largest);
    hide TieClass, Distinct;
    FlipAtRoot(s[a], s[0], s[a + 1], s[a + 2], r, n, key, largest);
  }

  // ---- Any unsettled tie -------------------------------------------------

  lemma SpanOf<T>(s: seq<T>, i: nat, j: nat, key: T -> real, largest: bool) returns (a: nat, b: nat)
    requires Ordered(s, key, largest) && Distinct(s) && i < j < |s| && key(s[i]) == key(s[j])
    ensures TieClass(s, a, b, key, largest) && a <= i && j < b
  {
    var k := key(s[i]);
    ClassHas(s, key, k, s[i]);
    a, b := ClassSpan(s, key, largest, k);
  }

  lemma AllOneClass<T>(s: seq<T>, key: T -> real, largest: bool)
    requires TieClass(s, 0, |s|, key, largest)
    ensures AllEqual(s, key)
  {
  }

  /** Different rows that tie and are not settled have an arrangement of which the heap does not keep the first. */
  lemma Apart<T>(s: seq<T>, n: nat, i: nat, j: nat, key: T -> real, largest: bool) returns (p: seq<T>)
    requires Ordered(s, key, largest) && Distinct(s) && 2 <= n && !AllEqual(s, key)
    requires i < j < |s| && i < n && key(s[i]) == key(s[j]) && !(|s| <= n && i == |s| - 2 && j == |s| - 1)
    ensures multiset(p) == multiset(s) && !FirstKept(p, n, key, largest, key(s[i]))
  {
    var a, b := SpanOf(s, i, j, key, largest);
    if b == |s| && a == 0 { AllOneClass(s, key, largest); }
    if |s| <= n {
      if b < |s| { p := ApartBySifting(s, a, b, n, key, largest); }
      else { p := ApartAtRoot(s, a, n, key, largest); }
    } else if b > n && a > 0 {
      p := ApartAcross(s, a, b, n, key, largest);
    } else {
      p := ApartByEviction(s, a, b, n, key, largest);
    }
  }

  // ---- Rows that repeat --------------------------------------------------

  /** A row and where it stood. */
  datatype Tagged<T> = Tagged(at: nat, row: T)

  function Tag<T>(s: seq<T>): (r: seq<Tagged<T>>)
    ensures |r| == |s| && forall i :: 0 <= i < |s| ==> r[i] == Tagged(i, s[i])
  {
    seq(|s|, i requires 0 <= i < |s| => Tagged(i, s[i]))
  }

  function TagKey<T>(key: T -> real): Tagged<T> -> real {
    (t: Tagged<T>) => key(t.row)
  }

  /** The rows, with two of them exchanged. */
  ghost function Trade<T>(u: Tagged<T>, v: Tagged<T>): Tagged<T> -> T {
    (t: Tagged<T>) => if t == u then v.row else if t == v then u.row else t.row
  }

  lemma {:induction false} ClassMap<A, B>(f: A -> B, s: seq<A>, ka: A -> real, kb: B -> real, k: real)
    requires forall a :: a in s ==> kb(f(a)) == ka(a)
    ensures Class(Map(f, s), kb, k) == Map(f, Class(s, ka, k))
  {
    if s != [] {
      var n := |s| - 1;
      assert Map(f, s)[..n] == Map(f, s[..n]);
      assert s[n] in s;
      ClassMap(f, s[..n], ka, kb, k);
    }
  }

  /** Exchanging two rows of one key rearranges the rows and moves nothing else: the heap only looks at keys. */
  lemma Traded<T(!new)>(s: seq<T>, q: seq<Tagged<T>>, x: nat, y: nat, n: nat, key: T -> real, largest: bool, k: real)
    requires x < |s| && y < |s| && key(s[x]) == key(s[y]) && multiset(q) == multiset(Tag(s))
    ensures var f := Trade(Tag(s)[x], Tag(s)[y]); var p := Map(f, q);
      && multiset(p) == multiset(s)
      && Class(PushAll(p, n, key, largest), key, k) == Map(f, Class(PushAll(q, n, TagKey(key), largest), TagKey(key), k))
      && Class(p, key, k) == Map(f, Class(q, TagKey(key), k))
  {
    var f := Trade(Tag(s)[x], Tag(s)[y]);
    assert Map(f, Tag(s)) == Swap(s, x, y);
    SwapBag(s, x, y);
    MultisetMapKey(q, Tag(s), f);
    hide Class, PushAll;
    PushAllMap(f, q, n, TagKey(key), key, largest);
    ClassMap(f, q, TagKey(key), key, k);
    ClassMap(f, PushAll(q, n, TagKey(key), largest), TagKey(key), key, k);
  }

  lemma DifferAt<T>(a: seq<T>, b: seq<T>) returns (d: nat)
    requires |a| <= |b| && !(a <= b)
    ensures d < |a| && a[d] != b[d]
  {
    d :| 0 <= d < |a| && a[d] != b[d];
  }

  /** A row of a class of the tagged list, found in the sorted list. */
  lemma TagOf<T>(s: seq<T>, q: seq<Tagged<T>>, key: T -> real, k: real, u: Tagged<T>)
    requires multiset(q) == multiset(Tag(s)) && u in Class(q, TagKey(key), k)
    ensures u.at < |s| && u == Tag(s)[u.at] && key(u.row) == k
  {
    ClassHas(q, TagKey(key), k, u);
    assert u in multiset(Tag(s));
  }

  /** The rows of a key may repeat, if two of them differ: give those the places that tell heap and input apart. */
  lemma ApartRows<T(!new)>(s: seq<T>, n: nat, i: nat, j: nat, key: T -> real, largest: bool) returns (p: seq<T>)
    requires Ordered(s, key, largest) && 2 <= n && !AllEqual(s, key)
    requires i < j < |s| && i < n && key(s[i]) == key(s[j]) && s[i] != s[j] && !(|s| <= n && i == |s| - 2 && j == |s| - 1)
    ensures multiset(p) == multiset(s) && !FirstKept(p, n, key, largest, key(s[i]))
  {
    var k, tagged, tagKey := key(s[i]), Tag(s), TagKey(key);
    var x, y := Tag(s)[i], Tag(s)[j];
    assert !AllEqual(tagged, tagKey) by {
      if AllEqual(tagged, tagKey) {
        forall c, d | 0 <= c < |s| && 0 <= d < |s| ensures key(s[c]) == key(s[d]) {
          assert tagKey(tagged[c]) == tagKey(tagged[d]);
        }
      }
    }
    var q := Apart(tagged, n, i, j, tagKey, largest);
    var kept, all := Class(PushAll(q, n, tagKey, largest), tagKey, k), Class(q, tagKey, k);
    KeptOfKey(q, n, tagKey, largest, k);
    hide Class, PushAll, SortBy;
    var d := DifferAt(kept, all);
    var u, w := all[d], kept[d];
    assert w in all;
    TagOf(s, q, key, k, u);
    TagOf(s, q, key, k, w);
    var v := if u.row != w.row then u else if x.row != u.row then x else y;
    var f := Trade(u, v);
    p := Map(f, q);
    Traded(s, q, u.at, v.at, n, key, largest, k);
    assert f(w) != f(u);
    assert Map(f, kept)[d] == f(w) && Map(f, all)[d] == f(u);
  }

  // ---- Exactly when ties matter ------------------------------------------

  ghost predicate AlwaysAgrees<T(!new)>(items: seq<T>, n: nat, key: T -> real, largest: bool) {
    forall p: seq<T> :: multiset(p) == multiset(items) ==> Top(p, n, key, largest) <= SortBy(p, key, largest)
  }

  /** Whatever order the rows come in, the heap keeps exactly the rows of sort-then-cut if and only if their ties are
      settled: at most one row is kept, or all keys are equal, or sorted rows that tie with one of the first n are the
      same row (the last two may differ, when all rows are kept). */
  lemma TiesIff<T(!new)>(items: seq<T>, n: nat, key: T -> real, largest: bool)
    ensures AlwaysAgrees(items, n, key, largest) <==> Settled(items, n, key, largest)
  {
    if Settled(items, n, key, largest) {
      forall p: seq<T> | multiset(p) == multiset(items) ensures Top(p, n, key, largest) <= SortBy(p, key, largest) {
        SettledAgrees(items, p, n, key, largest);
      }
    } else {
      var s := SortBy(items, key, largest);
      SortBySorts(items, key, largest);
      if AllEqual(s, key) { NotAllEqual(items, s, key); }
      var i, j :| 0 <= i < j < |s| && i < n && key(s[i]) == key(s[j]) && s[i] != s[j]
        && !(|s| <= n && i == |s| - 2 && j == |s| - 1);
      var p := ApartRows(s, n, i, j, key, largest);
      AgreesWhen(p, n, key, largest);
    }
  }
}
