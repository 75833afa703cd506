/** The page cache of the read path (packetql/storage/columnar.py). */
module PageCache {
  import opened Bytes
  import opened Seqs

  const PAGE: nat := 65536

  datatype PageKey = PageKey(path: nat, number: nat)

  // ---- Least recently used -----------------------------------------------

  function Remove(order: seq<PageKey>, k: PageKey): seq<PageKey> {
    if order == [] then []
    else if order[0] == k then Remove(order[1..], k)
    else [order[0]] + Remove(order[1..], k)
  }

  /** One access: move a cached page to the end, or append it and evict the front. */
  function LruStep(order: seq<PageKey>, k: PageKey, cap: nat): seq<PageKey> {
    if k in order then Remove(order, k) + [k]
    else if |order| + 1 > cap then (order + [k])[1..]
    else order + [k]
  }

  function LruRun(trace: seq<PageKey>, cap: nat): seq<PageKey> {
    if trace == [] then [] else LruStep(LruRun(trace[..|trace| - 1], cap), trace[|trace| - 1], cap)
  }

  /** Every page ever used, by last use. */
  function Recency(trace: seq<PageKey>): seq<PageKey> {
    if trace == [] then []
    else
      var k := trace[|trace| - 1];
      Remove(Recency(trace[..|trace| - 1]), k) + [k]
  }

  function LastOf(s: seq<PageKey>, n: nat): seq<PageKey> {
    if |s| <= n then s else s[|s| - n..]
  }

  function Hits(trace: seq<PageKey>, cap: nat): nat {
    if trace == [] then 0
    else
      var n := |trace| - 1;
      Hits(trace[..n], cap) + (if trace[n] in LruRun(trace[..n], cap) then 1 else 0)
  }

  lemma {:induction false} RemoveAppend(s: seq<PageKey>, t: seq<PageKey>, k: PageKey)
    ensures Remove(s + t, k) == Remove(s, k) + Remove(t, k)
  {
    if s == [] {
      assert s + t == t;
    } else {
      assert (s + t)[1..] == s[1..] + t;
      RemoveAppend(s[1..], t, k);
    }
  }

  lemma {:induction false} RemoveAbsent(s: seq<PageKey>, k: PageKey)
    requires k !in s
    ensures Remove(s, k) == s
  {
    if s != [] { RemoveAbsent(s[1..], k); }
  }

  lemma {:induction false} RemoveDistinct(s: seq<PageKey>, k: PageKey)
    requires Distinct(s)
    ensures Distinct(Remove(s, k))
    ensures forall x :: x in Remove(s, k) <==> x in s && x != k
    ensures |Remove(s, k)| == if k in s then |s| - 1 else |s|
  {
    if s != [] {
      var rest := Remove(s[1..], k);
      RemoveDistinct(s[1..], k);
      if s[0] == k { RemoveAbsent(s[1..], k); }
      forall i | 0 <= i < |rest| ensures rest[i] != s[0] || s[0] == k { assert rest[i] in rest; }
    }
  }

  lemma {:induction false} RecencyIs(trace: seq<PageKey>)
    ensures Distinct(Recency(trace))
    ensures forall k :: k in Recency(trace) <==> k in trace
  {
    if trace != [] {
      var n := |trace| - 1;
      RecencyIs(trace[..n]);
      RemoveDistinct(Recency(trace[..n]), trace[n]);
      assert trace == trace[..n] + [trace[n]];
    }
  }

  lemma DistinctEnd(older: seq<PageKey>, s: seq<PageKey>, k: PageKey)
    requires Distinct(older + s) && k in s
    ensures Distinct(s) && k !in older
  {
    var r := older + s;
    var i :| 0 <= i < |s| && s[i] == k;
    assert r[|older| + i] == k;
    forall j | 0 <= j < |older| ensures older[j] != k { assert r[j] == older[j]; }
    assert forall j :: 0 <= j < |s| ==> s[j] == r[|older| + j];
  }

  /** Moving a page of the recent part `s` to the end. */
  lemma HitKeeps(older: seq<PageKey>, s: seq<PageKey>, k: PageKey, cap: nat)
    requires Distinct(older + s) && k in s
    requires if older == [] then |s| <= cap else |s| == cap
    ensures Remove(s, k) + [k] == LastOf(Remove(older + s, k) + [k], cap)
  {
    var r := older + s;
    DistinctEnd(older, s, k);
    hide Distinct;
    RemoveAppend(older, s, k);
    RemoveAbsent(older, k);
    RemoveDistinct(s, k);
    var tail := Remove(s, k) + [k];
    assert Remove(r, k) + [k] == older + tail;
    if older == [] {
      assert older + tail == tail;
    } else {
      LastOfAppend(older, tail, cap);
    }
  }

  lemma MissIs(s: seq<PageKey>, k: PageKey, cap: nat)
    requires k !in s && |s| <= cap
    ensures LruStep(s, k, cap) == LastOf(s + [k], cap)
  {
  }

  /** Bringing in a page that is not in the recent part `s`. */
  lemma MissKeeps(older: seq<PageKey>, s: seq<PageKey>, k: PageKey, cap: nat)
    requires k !in s
    requires if older == [] then |s| <= cap else |s| == cap
    ensures LruStep(s, k, cap) == LastOf(Remove(older + s, k) + [k], cap)
  {
    RemoveAppend(older, s, k);
    RemoveAbsent(s, k);
    MissIs(s, k, cap);
    hide Remove, LruStep, LastOf;
    var tail := s + [k];
    assert Remove(older + s, k) + [k] == Remove(older, k) + tail;
    if older == [] {
      assert Remove(older, k) + tail == tail;
    } else {
      LastOfAppend(Remove(older, k), tail, cap);
    }
  }

  /** One step keeps the cache equal to the most recent `cap` pages. */
  lemma LruStepKeeps(r: seq<PageKey>, k: PageKey, cap: nat)
    requires Distinct(r)
    ensures LruStep(LastOf(r, cap), k, cap) == LastOf(Remove(r, k) + [k], cap)
  {
    var s := LastOf(r, cap);
    var older := r[..|r| - |s|];
    assert r == older + s;
    if k in s {
      HitKeeps(older, s, k, cap);
    } else {
      MissKeeps(older, s, k, cap);
    }
  }

  lemma DropFirst(s: seq<PageKey>)
    requires Distinct(s) && s != []
    ensures forall k :: k in s[1..] <==> k in s && k != s[0]
  {
    forall k | k in s && k != s[0] ensures k in s[1..] {
      var i :| 0 <= i < |s| && s[i] == k;
      assert s[1..][i - 1] == k;
    }
  }

  lemma LastOfAppend(x: seq<PageKey>, y: seq<PageKey>, n: nat)
    requires |y| >= n
    ensures LastOf(x + y, n) == y[|y| - n..]
  {
  }

  /** Over every trace, the cache holds the `cap` most recently used pages, in recency order. */
  lemma {:induction false} LruIsRecency(trace: seq<PageKey>, cap: nat)
    ensures LruRun(trace, cap) == LastOf(Recency(trace), cap)
  {
    if trace != [] {
      var n := |trace| - 1;
      LruIsRecency(trace[..n], cap);
      RecencyIs(trace[..n]);
      LruStepKeeps(Recency(trace[..n]), trace[n], cap);
    }
  }

  /** A larger cache holds every page a smaller one holds. */
  lemma LargerHoldsMore(trace: seq<PageKey>, small: nat, large: nat, k: PageKey)
    requires small <= large && k in LruRun(trace, small)
    ensures k in LruRun(trace, large)
  {
    LruIsRecency(trace, small);
    LruIsRecency(trace, large);
  }

  /** A larger cache never has fewer hits, over any trace. */
  lemma {:induction false} LargerHitsMore(trace: seq<PageKey>, small: nat, large: nat)
    requires small <= large
    ensures Hits(trace, small) <= Hits(trace, large)
  {
    if trace != [] {
      var n := |trace| - 1;
      LargerHitsMore(trace[..n], small, large);
      if trace[n] in LruRun(trace[..n], small) {
        LargerHoldsMore(trace[..n], small, large, trace[n]);
      }
    }
  }

  // ---- The cache object --------------------------------------------------

  function PageOf(f: seq<Byte>, number: nat): seq<Byte> {
    Slice(f, number * PAGE, (number + 1) * PAGE)
  }

  /** Pages `first` up to but not including `last` of one file. */
  function PageRun(path: nat, first: nat, last: nat): seq<PageKey>
    requires first <= last
  {
    seq(last - first, i requires 0 <= i < last - first => PageKey(path, first + i))
  }

  /** The page after the last one that bytes offset..end lie on. */
  function PageAfter(offset: nat, end: nat): (n: nat)
    requires offset <= end
    ensures n >= offset / PAGE
  {
    if offset == end then offset / PAGE else (end - 1) / PAGE + 1
  }

  /** The accesses of a read of bytes offset..end that has come to `pos`. */
  function Accesses(path: nat, offset: nat, pos: nat, end: nat): seq<PageKey>
    requires offset <= pos <= end
  {
    PageRun(path, offset / PAGE, if pos < end then pos / PAGE else PageAfter(offset, end))
  }

  lemma AccessesPush(path: nat, offset: nat, pos: nat, pos': nat, end: nat)
    requires offset <= pos < pos' <= end
    requires if pos' < end then pos' / PAGE == pos / PAGE + 1 else (end - 1) / PAGE == pos / PAGE
    ensures Accesses(path, offset, pos', end) == Accesses(path, offset, pos, end) + [PageKey(path, pos / PAGE)]
  {
    PageRunPush(path, offset / PAGE, pos / PAGE);
  }

  lemma ReadBounds(f: seq<Byte>, path: nat, offset: nat, end: nat)
    requires offset <= end
    ensures Slice(f, offset, offset) == [] && Accesses(path, offset, offset, end) == []
    ensures Accesses(path, offset, end, end) == PageRun(path, offset / PAGE, PageAfter(offset, end))
  {
  }

  /** The part of a page that one turn of the read loop takes. */
  lemma TakeOfPage(f: seq<Byte>, pos: nat, end: nat)
    requires pos < end
    ensures var number := pos / PAGE; var within := pos - number * PAGE; var take := Min(PAGE - within, end - pos);
      && 0 <= within && 0 < take <= end - pos
      && Slice(PageOf(f, number), within, within + take) == Slice(f, pos, pos + take)
      && (pos + take < end ==> (pos + take) / PAGE == number + 1)
      && (pos + take == end ==> (end - 1) / PAGE == number)
  {
    var number := pos / PAGE;
    var within := pos - number * PAGE;
    var take := Min(PAGE - within, end - pos);
    EndOfTake(pos, end);
    SliceOfSlice(f, number * PAGE, PAGE, within, within + take);
  }

  lemma PartIs(f: seq<Byte>, path: nat, pos: nat, end: nat, offset: nat)
    requires offset <= pos < end
    ensures var number := pos / PAGE; var within := pos - number * PAGE; var take := Min(PAGE - within, end - pos);
      && 0 <= within && 0 < take <= end - pos
      && Slice(PageOf(f, number), within, within + take) == Slice(f, pos, pos + take)
      && Accesses(path, offset, pos + take, end) == Accesses(path, offset, pos, end) + [PageKey(path, number)]
  {
    hide Accesses, Slice, PageOf;
    TakeOfPage(f, pos, end);
    AccessesPush(path, offset, pos, pos + Min(PAGE - (pos - pos / PAGE * PAGE), end - pos), end);
  }

  lemma EndOfTake(pos: nat, end: nat)
    requires pos < end
    ensures var number := pos / PAGE; var take := Min(PAGE - (pos - number * PAGE), end - pos);
      && 0 <= pos - number * PAGE < PAGE
      && (pos + take < end ==> (pos + take) / PAGE == number + 1)
      && (pos + take == end ==> (end - 1) / PAGE == number)
  {
  }

  class Cache {
    const cap: nat
    const files: seq<seq<Byte>>        // the files behind the pages, unchanged while open
    var order: seq<PageKey>            // the keys of the ordered dictionary
    var pages: map<PageKey, seq<Byte>>
    var hits: nat
    var misses: nat
    ghost var trace: seq<PageKey>      // every page access so far

    ghost predicate Valid()
      reads this
    {
      && order == LruRun(trace, cap)
      && (forall k :: k in order <==> k in pages)
      && (forall k :: k in pages ==> k.path < |files| && pages[k] == PageOf(files[k.path], k.number))
      && hits == Hits(trace, cap)
      && hits + misses == |trace|
    }

    constructor (capacity: nat, fs: seq<seq<Byte>>)
      ensures Valid() && trace == [] && cap == capacity && files == fs
    {
      cap, files := capacity, fs;
      order, pages, hits, misses, trace := [], map[], 0, 0, [];
    }

    /** One page, from memory or from its file. */
    method Page(path: nat, number: nat) returns (page: seq<Byte>)
      requires Valid() && path < |files|
      modifies this
      ensures Valid() && trace == old(trace) + [PageKey(path, number)]
      ensures page == PageOf(files[path], number)
    {
      var key := PageKey(path, number);
      OrderDistinct();
      TracePush(key);
      if key in pages {
        hits := hits + 1;
        RemoveDistinct(order, key);
        order := Remove(order, key) + [key];
        page := pages[key];
      } else {
        page := Fetch(key);
      }
      trace := trace + [key];
    }

    lemma TracePush(key: PageKey)
      requires Valid()
      ensures LruRun(trace + [key], cap) == LruStep(order, key, cap)
      ensures Hits(trace + [key], cap) == hits + (if key in order then 1 else 0)
    {
      assert (trace + [key])[..|trace|] == trace;
    }

    /** Read a page from its file, keep it, and evict the least recently used one if over capacity. */
    method Fetch(key: PageKey) returns (page: seq<Byte>)
      requires Valid() && Distinct(order) && key.path < |files| && key !in pages
      modifies this`order, this`pages, this`misses
      ensures order == LruStep(old(order), key, cap)
      ensures forall k :: k in order <==> k in pages
      ensures forall k :: k in pages ==> k.path < |files| && pages[k] == PageOf(files[k.path], k.number)
      ensures misses == old(misses) + 1
      ensures page == PageOf(files[key.path], key.number)
    {
      misses := misses + 1;
      page := Slice(files[key.path], key.number * PAGE, (key.number + 1) * PAGE);
      pages := pages[key := page];
      order := order + [key];
      assert forall k :: k in order <==> k in old(order) || k == key;
      if |order| > cap {
        DropFirst(order);
        pages := pages - {order[0]};
        order := order[1..];
      }
    }

    lemma OrderDistinct()
      requires Valid()
      ensures Distinct(order)
    {
      LruIsRecency(trace, cap);
      RecencyIs(trace);
    }

    /** One turn of the read loop: the rest of the current page, or what is left of the request. */
    method ReadPart(path: nat, pos: nat, end: nat, ghost offset: nat, ghost before: seq<PageKey>)
        returns (part: seq<Byte>, pos': nat)
      requires Valid() && path < |files| && offset <= pos < end
      requires trace == before + Accesses(path, offset, pos, end)
      modifies this
      ensures Valid() && pos < pos' <= end && part == Slice(files[path], pos, pos')
      ensures trace == before + Accesses(path, offset, pos', end)
    {
      hide Accesses, Valid, Slice, PageOf;
      PartIs(files[path], path, pos, end, offset);
      var number := pos / PAGE;
      var within := pos - number * PAGE;
      var take := Min(PAGE - within, end - pos);
      var page := Page(path, number);
      part, pos' := Slice(page, within, within + take), pos + take;
    }

    /** Bytes of a file, page by page: the same as reading the file directly, one access per page. */
    method Read(path: nat, offset: nat, length: nat) returns (out: seq<Byte>)
      requires Valid() && path < |files|
      modifies this
      ensures Valid()
      ensures out == Slice(files[path], offset, offset + length)
      ensures trace == old(trace) + PageRun(path, offset / PAGE, PageAfter(offset, offset + length))
    {
      var pos, end := offset, offset + length;
      out := [];
      ReadBounds(files[path], path, offset, end);
      hide Valid, Slice, PageRun, PageAfter, Accesses;
      while pos < end
        invariant offset <= pos <= end
        invariant Valid()
        invariant out == Slice(files[path], offset, pos)
        invariant trace == old(trace) + Accesses(path, offset, pos, end)
      {
        var part, pos' := ReadPart(path, pos, end, offset, old(trace));
        SliceSplit(files[path], offset, pos, pos');
        out, pos := out + part, pos';
      }
    }
  }

  lemma PageRunPush(path: nat, first: nat, next: nat)
    requires first <= next
    ensures PageRun(path, first, next + 1) == PageRun(path, first, next) + [PageKey(path, next)]
  {
  }
}
