/** Bounded top-N selection with a hand-written heap (packetql/index/topn.py). */
module TopN {
  import opened Seqs

  function Parent(i: nat): (p: nat)
    requires i > 0
    ensures p < i && (i == 2 * p + 1 || i == 2 * p + 2)
  {
    (i - 1) / 2
  }

  /** `_evictable_above`: must `a` be nearer the root than `b`? */
  predicate EvictableAbove<T>(a: T, b: T, key: T -> real, largest: bool) {
    if largest then key(a) < key(b) else key(a) > key(b)
  }

  function Swap<T>(h: seq<T>, i: nat, j: nat): (r: seq<T>)
    requires i < |h| && j < |h|
    ensures |r| == |h|
  {
    h[i := h[j]][j := h[i]]
  }

  // ---- The heap as a value -----------------------------------------------

  function SiftUp<T>(h: seq<T>, i: nat, key: T -> real, largest: bool): (r: seq<T>)
    requires i < |h|
    ensures |r| == |h|
    decreases i
  {
    if i > 0 && EvictableAbove(h[i], h[Parent(i)], key, largest)
    then SiftUp(Swap(h, i, Parent(i)), Parent(i), key, largest)
    else h
  }

  /** The node among `i` and its children that must be nearest the root. */
  function TopOf<T>(h: seq<T>, i: nat, key: T -> real, largest: bool): (t: nat)
    requires i < |h|
    ensures t < |h| && t in {i, 2 * i + 1, 2 * i + 2}
  {
    var l, r := 2 * i + 1, 2 * i + 2;
    var t := if l < |h| && EvictableAbove(h[l], h[i], key, largest) then l else i;
    if r < |h| && EvictableAbove(h[r], h[t], key, largest) then r else t
  }

  /** Of a node and its children the one to evict first goes up: the node itself if it ties, else the left child if it
      ties with the right one. */
  lemma TopOfFirst<T>(h: seq<T>, i: nat, key: T -> real, largest: bool)
    requires i < |h|
    ensures var t := TopOf(h, i, key, largest);
      forall s :: s in {i, 2 * i + 1, 2 * i + 2} && s < |h| ==>
        (s < t ==> Before(key(h[s]), key(h[t]), largest) && key(h[s]) != key(h[t]))
        && (t < s ==> Before(key(h[s]), key(h[t]), largest))
  {
  }

  function SiftDown<T>(h: seq<T>, i: nat, key: T -> real, largest: bool): (r: seq<T>)
    requires i < |h|
    ensures |r| == |h|
    decreases |h| - i
  {
    var t := TopOf(h, i, key, largest);
    if t == i then h else SiftDown(Swap(h, i, t), t, key, largest)
  }

  function Push<T>(h: seq<T>, item: T, n: nat, key: T -> real, largest: bool): seq<T> {
    if n == 0 then h
    else if |h| < n then SiftUp(h + [item], |h|, key, largest)
    else if EvictableAbove(h[0], item, key, largest) then SiftDown(h[0 := item], 0, key, largest)
    else h
  }

  function PushAll<T>(items: seq<T>, n: nat, key: T -> real, largest: bool): seq<T> {
    if items == [] then []
    else Push(PushAll(items[..|items| - 1], n, key, largest), items[|items| - 1], n, key, largest)
  }

  /** `top_n`: the kept items, in ORDER BY order. */
  function Top<T>(items: seq<T>, n: nat, key: T -> real, largest: bool): seq<T> {
    SortBy(PushAll(items, n, key, largest), key, largest)
  }

  // ---- Heap order --------------------------------------------------------

  /** May `a` stand above `b`? The root is the item to evict first. */
  predicate Above<T>(a: T, b: T, key: T -> real, largest: bool) {
    Before(key(a), key(b), !largest)
  }

  ghost predicate Heap<T>(h: seq<T>, key: T -> real, largest: bool) {
    forall j :: 0 < j < |h| ==> Above(h[Parent(j)], h[j], key, largest)
  }

  /** Heap order except between `i` and its parent. */
  ghost predicate HeapButAbove<T>(h: seq<T>, i: nat, key: T -> real, largest: bool) {
    && (forall j :: 0 < j < |h| && j != i ==> Above(h[Parent(j)], h[j], key, largest))
    && (forall j :: 0 < i < j < |h| && Parent(j) == i ==> Above(h[Parent(i)], h[j], key, largest))
  }

  /** Heap order except between `i` and its children. */
  ghost predicate HeapButBelow<T>(h: seq<T>, i: nat, key: T -> real, largest: bool) {
    && (forall j :: 0 < j < |h| && Parent(j) != i ==> Above(h[Parent(j)], h[j], key, largest))
    && (forall j :: 0 < i < j < |h| && Parent(j) == i ==> Above(h[Parent(i)], h[j], key, largest))
  }

  lemma SwapBag<T>(h: seq<T>, i: nat, j: nat)
    requires i < |h| && j < |h|
    ensures multiset(Swap(h, i, j)) == multiset(h)
  {
  }

  lemma SiftUpStep<T>(h: seq<T>, i: nat, key: T -> real, largest: bool)
    requires 0 < i < |h| && HeapButAbove(h, i, key, largest)
    requires EvictableAbove(h[i], h[Parent(i)], key, largest)
    ensures HeapButAbove(Swap(h, i, Parent(i)), Parent(i), key, largest)
  {
    var p := Parent(i);
    var s := Swap(h, i, p);
    hide Parent;
    forall j | 0 < j < |s| && j != p ensures Above(s[Parent(j)], s[j], key, largest) {
      assert j != i ==> Above(h[Parent(j)], h[j], key, largest);
      assert Parent(j) == i ==> Above(h[p], h[j], key, largest);
    }
    forall j | 0 < p < j < |s| && Parent(j) == p ensures Above(s[Parent(p)], s[j], key, largest) {
      assert j != i ==> Above(h[Parent(j)], h[j], key, largest);
      assert Above(h[Parent(p)], h[p], key, largest);
    }
  }

  lemma {:induction false} SiftUpHeaps<T>(h: seq<T>, i: nat, key: T -> real, largest: bool)
    requires i < |h| && HeapButAbove(h, i, key, largest)
    ensures Heap(SiftUp(h, i, key, largest), key, largest)
    ensures multiset(SiftUp(h, i, key, largest)) == multiset(h)
    decreases i
  {
    if i > 0 && EvictableAbove(h[i], h[Parent(i)], key, largest) {
      SiftUpStep(h, i, key, largest);
      SwapBag(h, i, Parent(i));
      SiftUpHeaps(Swap(h, i, Parent(i)), Parent(i), key, largest);
    }
  }

  lemma TopOfIs<T>(h: seq<T>, i: nat, key: T -> real, largest: bool)
    requires i < |h|
    ensures var t := TopOf(h, i, key, largest);
      && Above(h[t], h[i], key, largest)
      && (forall j :: 0 < j < |h| && Parent(j) == i ==> Above(h[t], h[j], key, largest))
  {
    forall j | 0 < j < |h| && Parent(j) == i
      ensures Above(h[TopOf(h, i, key, largest)], h[j], key, largest)
    {
      assert j == 2 * i + 1 || j == 2 * i + 2;
    }
  }

  lemma SiftDownStep<T>(h: seq<T>, i: nat, t: nat, key: T -> real, largest: bool)
    requires i < t < |h| && Parent(t) == i && HeapButBelow(h, i, key, largest)
    requires Above(h[t], h[i], key, largest)
    requires forall j :: 0 < j < |h| && Parent(j) == i ==> Above(h[t], h[j], key, largest)
    ensures HeapButBelow(Swap(h, i, t), t, key, largest)
  {
    hide Parent;
    var s := Swap(h, i, t);
    forall j | 0 < j < |s| && Parent(j) != t ensures Above(s[Parent(j)], s[j], key, largest) {
      if Parent(j) != i { assert Above(h[Parent(j)], h[j], key, largest); }
      if j == i { assert Above(h[Parent(i)], h[t], key, largest); }
    }
    forall j | 0 < t < j < |s| && Parent(j) == t ensures Above(s[Parent(t)], s[j], key, largest) {
      assert Above(h[Parent(j)], h[j], key, largest);
    }
  }

  lemma {:induction false} SiftDownHeaps<T>(h: seq<T>, i: nat, key: T -> real, largest: bool)
    requires i < |h| && HeapButBelow(h, i, key, largest)
    ensures Heap(SiftDown(h, i, key, largest), key, largest)
    ensures multiset(SiftDown(h, i, key, largest)) == multiset(h)
    decreases |h| - i
  {
    var t := TopOf(h, i, key, largest);
    TopOfIs(h, i, key, largest);
    if t != i {
      assert Parent(t) == i;
      SiftDownStep(h, i, t, key, largest);
      SwapBag(h, i, t);
      SiftDownHeaps(Swap(h, i, t), t, key, largest);
    }
  }

  /** In a heap the root may stand above every node. */
  lemma {:induction false} RootAbove<T>(h: seq<T>, j: nat, key: T -> real, largest: bool)
    requires Heap(h, key, largest) && j < |h|
    ensures Above(h[0], h[j], key, largest)
  {
    if j > 0 {
      RootAbove(h, Parent(j), key, largest);
      assert Above(h[Parent(j)], h[j], key, largest);
    }
  }

  // ---- What is kept ------------------------------------------------------

  /** Nothing discarded is better than anything kept. */
  ghost predicate Better<T>(kept: seq<T>, rest: seq<T>, key: T -> real, largest: bool) {
    forall x, y :: x in kept && y in rest ==> Before(key(x), key(y), largest)
  }

  /** After every push the heap holds n best items of what was pushed. */
  lemma {:induction false} PushAllKeeps<T>(items: seq<T>, n: nat, key: T -> real, largest: bool) returns (rest: seq<T>)
    ensures var h := PushAll(items, n, key, largest);
      && Heap(h, key, largest)
      && |h| == (if |items| <= n then |items| else n)
      && multiset(items) == multiset(h) + multiset(rest)
      && Better(h, rest, key, largest)
      && (|items| <= n ==> rest == [])
  {
    rest := [];
    if items != [] {
      var init, item := items[..|items| - 1], items[|items| - 1];
      assert items == init + [item];
      var r := PushAllKeeps(init, n, key, largest);
      rest := PushKeeps(PushAll(init, n, key, largest), r, item, n, key, largest);
    }
  }

  lemma RootWorst<T>(h: seq<T>, key: T -> real, largest: bool)
    requires Heap(h, key, largest) && h != []
    ensures h[0] in h && forall x :: x in h ==> Above(h[0], x, key, largest)
  {
    forall x | x in h ensures Above(h[0], x, key, largest) {
      var j :| 0 <= j < |h| && h[j] == x;
      RootAbove(h, j, key, largest);
    }
  }

  /** A full heap takes a better item in place of its root. */
  lemma ReplaceKeeps<T>(h: seq<T>, r: seq<T>, item: T, key: T -> real, largest: bool)
    requires Heap(h, key, largest) && h != [] && Better(h, r, key, largest)
    requires EvictableAbove(h[0], item, key, largest)
    ensures var h' := SiftDown(h[0 := item], 0, key, largest);
      && Heap(h', key, largest)
      && multiset(h') + multiset(r + [h[0]]) == multiset(h) + multiset(r) + multiset{item}
      && Better(h', r + [h[0]], key, largest)
  {
    var h1 := h[0 := item];
    var h' := SiftDown(h1, 0, key, largest);
    RootWorst(h, key, largest);
    SiftDownHeaps(h1, 0, key, largest);
    ReplaceRoot(h, item);
    hide Heap;
    forall x, y | x in h' && y in r + [h[0]] ensures Before(key(x), key(y), largest) {
      assert x in multiset(h1);
      assert x in h || x == item;
    }
  }

  lemma PushKeeps<T>(h: seq<T>, r: seq<T>, item: T, n: nat, key: T -> real, largest: bool) returns (rest: seq<T>)
    requires Heap(h, key, largest) && |h| <= n && (|h| < n ==> r == [])
    requires Better(h, r, key, largest)
    ensures var h' := Push(h, item, n, key, largest);
      && Heap(h', key, largest)
      && |h'| == (if |h| < n then |h| + 1 else n)
      && multiset(h') + multiset(rest) == multiset(h) + multiset(r) + multiset{item}
      && Better(h', rest, key, largest)
      && (|h| < n ==> rest == [])
  {
    if |h| < n {
      rest := [];
      SiftUpHeaps(h + [item], |h|, key, largest);
    } else if n == 0 {
      rest := r + [item];
    } else if EvictableAbove(h[0], item, key, largest) {
      rest := r + [h[0]];
      ReplaceKeeps(h, r, item, key, largest);
    } else {
      rest := r + [item];
      RootWorst(h, key, largest);
    }
  }

  lemma ReplaceRoot<T>(h: seq<T>, item: T)
    requires h != []
    ensures multiset(h[0 := item]) + multiset{h[0]} == multiset(h) + multiset{item}
  {
  }

  /** The result is a selection of the items whose keys are the first n keys of the full sort. */
  lemma TopIsSortedPrefix<T>(items: seq<T>, n: nat, key: T -> real, largest: bool)
    ensures multiset(Top(items, n, key, largest)) <= multiset(items)
    ensures |Top(items, n, key, largest)| == (if |items| <= n then |items| else n)
    ensures Map(key, Top(items, n, key, largest)) <= Map(key, SortBy(items, key, largest))
  {
    var h := PushAll(items, n, key, largest);
    var rest := PushAllKeeps(items, n, key, largest);
    var a, b := SortBy(h, key, largest), SortBy(rest, key, largest);
    SortBySorts(h, key, largest);
    SortBySorts(rest, key, largest);
    SortBySorts(items, key, largest);
    OrderedAppend(a, b, key, largest);
    assert multiset(a + b) == multiset(SortBy(items, key, largest));
    MultisetMapKey(a + b, SortBy(items, key, largest), key);
    OrderedKeysUnique(a + b, SortBy(items, key, largest), key, largest);
    MapAppend(key, a, b);
  }

  lemma OrderedAppend<T>(a: seq<T>, b: seq<T>, key: T -> real, largest: bool)
    requires Ordered(a, key, largest) && Ordered(b, key, largest)
    requires forall x, y :: x in multiset(a) && y in multiset(b) ==> Before(key(x), key(y), largest)
    ensures Ordered(a + b, key, largest)
  {
    var s := a + b;
    forall i, j | 0 <= i < j < |s| ensures Before(key(s[i]), key(s[j]), largest) {
      if i < |a| <= j { assert s[i] in multiset(a) && s[j] in multiset(b); }
    }
  }

  function TiedKey(x: int): real {
    if x == 3 then 4.0 else 5.0
  }

  lemma SortStep(s: seq<int>, x: int, t: seq<int>)
    requires t == s + [x]
    ensures SortBy(t, TiedKey, false) == Insert(SortBy(s, TiedKey, false), x, TiedKey, false)
  {
    assert t[..|s|] == s;
  }

  lemma PushStep(s: seq<int>, x: int, t: seq<int>)
    requires t == s + [x]
    ensures PushAll(t, 2, TiedKey, false) == Push(PushAll(s, 2, TiedKey, false), x, 2, TiedKey, false)
  {
    assert t[..|s|] == s;
  }

  lemma InsertFirst(s: seq<int>, x: int)
    requires forall i :: 0 <= i < |s| ==> TiedKey(x) < TiedKey(s[i])
    ensures Insert(s, x, TiedKey, false) == [x] + s
  {
    if s != [] { InsertFirst(s[..|s| - 1], x); }
  }

  lemma HeapOfTies()
    ensures PushAll([1, 2, 3], 2, TiedKey, false) == [2, 3]
  {
    assert PushAll([], 2, TiedKey, false) == [];
    PushStep([], 1, [1]);
    PushStep([1], 2, [1, 2]);
    PushStep([1, 2], 3, [1, 2, 3]);
    hide PushAll;
    assert PushAll([1], 2, TiedKey, false) == [1];
    assert PushAll([1, 2], 2, TiedKey, false) == [1, 2] by { assert [1] + [2] == [1, 2]; }
    assert SiftDown([3, 2], 0, TiedKey, false) == [2, 3] by {
      assert Swap([3, 2], 0, 1) == [2, 3];
      assert TopOf([2, 3], 1, TiedKey, false) == 1;
    }
    assert [1, 2][0 := 3] == [3, 2];
  }

  /** Among equal keys the rows may differ: of 1, 2 (tied) and the smaller 3, the heap keeps 3 and 2, the sort 3 and 1. */
  lemma TiesMayDiffer()
    ensures Top([1, 2, 3], 2, TiedKey, false) == [3, 2]
    ensures SortBy([1, 2, 3], TiedKey, false) == [3, 1, 2]
  {
    HeapOfTies();
    hide PushAll;
    assert SortBy([], TiedKey, false) == [];
    SortStep([], 1, [1]);
    SortStep([1], 2, [1, 2]);
    SortStep([1, 2], 3, [1, 2, 3]);
    SortStep([], 2, [2]);
    SortStep([2], 3, [2, 3]);
    InsertFirst([1, 2], 3);
    InsertFirst([2], 3);
    hide SortBy;
    assert SortBy([1], TiedKey, false) == [1] && SortBy([2], TiedKey, false) == [2];
    assert [1] + [2] == [1, 2] && [3] + [1, 2] == [3, 1, 2] && [3] + [2] == [3, 2];
  }

  // ---- Keys are all that matters -----------------------------------------

  lemma {:induction false} SiftUpMap<A(!new), B>(f: A -> B, h: seq<A>, i: nat, ka: A -> real, kb: B -> real, largest: bool)
    requires i < |h| && forall a :: kb(f(a)) == ka(a)
    ensures SiftUp(Map(f, h), i, kb, largest) == Map(f, SiftUp(h, i, ka, largest))
    decreases i
  {
    if i > 0 && EvictableAbove(h[i], h[Parent(i)], ka, largest) {
      assert Swap(Map(f, h), i, Parent(i)) == Map(f, Swap(h, i, Parent(i)));
      SiftUpMap(f, Swap(h, i, Parent(i)), Parent(i), ka, kb, largest);
    }
  }

  lemma {:induction false} SiftDownMap<A(!new), B>(f: A -> B, h: seq<A>, i: nat, ka: A -> real, kb: B -> real, largest: bool)
    requires i < |h| && forall a :: kb(f(a)) == ka(a)
    ensures SiftDown(Map(f, h), i, kb, largest) == Map(f, SiftDown(h, i, ka, largest))
    decreases |h| - i
  {
    var t := TopOf(h, i, ka, largest);
    assert TopOf(Map(f, h), i, kb, largest) == t;
    if t != i {
      assert Swap(Map(f, h), i, t) == Map(f, Swap(h, i, t));
      SiftDownMap(f, Swap(h, i, t), t, ka, kb, largest);
    }
  }

  /** Selecting commutes with a map that preserves keys. */
  lemma {:induction false} PushAllMap<A(!new), B>(f: A -> B, items: seq<A>, n: nat, ka: A -> real, kb: B -> real, largest: bool)
    requires forall a :: kb(f(a)) == ka(a)
    ensures PushAll(Map(f, items), n, kb, largest) == Map(f, PushAll(items, n, ka, largest))
  {
    if items != [] {
      var init, item := items[..|items| - 1], items[|items| - 1];
      assert Map(f, items)[..|items| - 1] == Map(f, init);
      PushAllMap(f, init, n, ka, kb, largest);
      var h := PushAll(init, n, ka, largest);
      if n != 0 && |h| < n {
        assert Map(f, h + [item]) == Map(f, h) + [f(item)];
        SiftUpMap(f, h + [item], |h|, ka, kb, largest);
      } else if n != 0 && EvictableAbove(h[0], item, ka, largest) {
        assert Map(f, h[0 := item]) == Map(f, h)[0 := f(item)];
        SiftDownMap(f, h[0 := item], 0, ka, kb, largest);
      }
    }
  }

  lemma TopMap<A(!new), B>(f: A -> B, items: seq<A>, n: nat, ka: A -> real, kb: B -> real, largest: bool)
    requires forall a :: kb(f(a)) == ka(a)
    ensures Top(Map(f, items), n, kb, largest) == Map(f, Top(items, n, ka, largest))
  {
    PushAllMap(f, items, n, ka, kb, largest);
    SortByMap(f, PushAll(items, n, ka, largest), ka, kb, largest);
  }

  // ---- The heap object ---------------------------------------------------

  class BoundedTopN<T> {
    const n: nat
    const key: T -> real
    const largest: bool
    var h: seq<T>

    constructor (n: nat, key: T -> real, largest: bool)
      ensures this.n == n && this.key == key && this.largest == largest && h == []
    {
      this.n, this.key, this.largest, h := n, key, largest, [];
    }

    method SiftUpFrom(start: nat)
      requires start < |h|
      modifies this`h
      ensures h == SiftUp(old(h), start, key, largest)
    {
      var i := start;
      while i > 0
        invariant 0 <= i < |h|
        invariant SiftUp(h, i, key, largest) == SiftUp(old(h), start, key, largest)
      {
        var parent := Parent(i);
        if !EvictableAbove(h[i], h[parent], key, largest) { break; }
        h := Swap(h, i, parent);
        i := parent;
      }
    }

    method SiftDownFrom(start: nat)
      requires start < |h|
      modifies this`h
      ensures h == SiftDown(old(h), start, key, largest)
    {
      var i := start;
      while true
        invariant 0 <= i < |h|
        invariant SiftDown(h, i, key, largest) == SiftDown(old(h), start, key, largest)
        decreases |h| - i
      {
        var top := i;
        if 2 * i + 1 < |h| && EvictableAbove(h[2 * i + 1], h[top], key, largest) { top := 2 * i + 1; }
        if 2 * i + 2 < |h| && EvictableAbove(h[2 * i + 2], h[top], key, largest) { top := 2 * i + 2; }
        if top == i { break; }
        h := Swap(h, i, top);
        i := top;
      }
    }

    method PushItem(item: T)
      requires |h| <= n
      modifies this`h
      ensures h == Push(old(h), item, n, key, largest) && |h| <= n
    {
      if n == 0 { return; }
      if |h| < n {
        h := h + [item];
        SiftUpFrom(|h| - 1);
      } else if EvictableAbove(h[0], item, key, largest) {
        h := h[0 := item];
        SiftDownFrom(0);
      }
    }

    method Result() returns (out: seq<T>)
      ensures out == SortBy(h, key, largest)
    {
      out := SortBy(h, key, largest);
    }
  }

  method SelectTop<T>(items: seq<T>, n: nat, key: T -> real, largest: bool) returns (out: seq<T>)
    ensures out == Top(items, n, key, largest)
  {
    var heap := new BoundedTopN(n, key, largest);
    for i := 0 to |items|
      invariant heap.n == n && heap.key == key && heap.largest == largest && |heap.h| <= n
      invariant heap.h == PushAll(items[..i], n, key, largest)
    {
      assert items[..i + 1][..i] == items[..i];
      heap.PushItem(items[i]);
    }
    assert items[..|items|] == items;
    out := heap.Result();
  }
}
