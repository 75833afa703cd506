/** Distinct values, selections and grouping of rows, as the executor uses them (packetql/query/executor.py). */
module Relation {
  import opened Seqs

  // ---- First occurrences -------------------------------------------------

  /** `s.index(x)` */
  function IndexOf<T(==)>(s: seq<T>, x: T): (i: nat)
    requires x in s
    ensures i < |s| && s[i] == x && x !in s[..i]
  {
    if s[0] == x then 0
    else
      var j := IndexOf(s[1..], x);
      assert s[..j + 1] == [s[0]] + s[1..][..j];
      j + 1
  }

  /** `_dedup`: the first occurrence of each value. */
  function Dedup<T(==)>(s: seq<T>): seq<T> {
    if s == [] then []
    else
      var n := |s| - 1;
      Dedup(s[..n]) + (if s[n] in s[..n] then [] else [s[n]])
  }

  method DedupRows<T(==)>(rows: seq<T>) returns (out: seq<T>)
    ensures out == Dedup(rows)
  {
    var seen: set<T> := {};
    out := [];
    for i := 0 to |rows|
      invariant forall x :: x in seen <==> x in rows[..i]
      invariant out == Dedup(rows[..i])
    {
      assert rows[..i + 1] == rows[..i] + [rows[i]] && rows[..i + 1][..i] == rows[..i];
      if rows[i] !in seen {
        seen := seen + {rows[i]};
        out := out + [rows[i]];
      }
    }
    assert rows[..|rows|] == rows;
  }

  lemma {:induction false} FirstIndex<T>(s: seq<T>, x: T, i: nat)
    requires i < |s| && s[i] == x && x !in s[..i]
    ensures IndexOf(s, x) == i
  {
    if i != 0 {
      assert s[0] == s[..i][0];
      assert s[1..][..i - 1] == s[..i][1..];
      FirstIndex(s[1..], x, i - 1);
    }
  }

  lemma IndexOfPrefix<T>(s: seq<T>, n: nat, x: T)
    requires n <= |s| && x in s[..n]
    ensures x in s && IndexOf(s, x) == IndexOf(s[..n], x)
  {
    var i := IndexOf(s[..n], x);
    assert s[..i] == s[..n][..i] && s[i] == x;
    FirstIndex(s, x, i);
  }

  /** `a` appears in `s` before `b` does. */
  ghost predicate Ahead<T>(s: seq<T>, a: T, b: T) {
    a in s && b in s && IndexOf(s, a) < IndexOf(s, b)
  }

  lemma {:induction false} DedupHas<T>(s: seq<T>, x: T)
    ensures x in Dedup(s) <==> x in s
  {
    if s != [] {
      var n := |s| - 1;
      DedupHas(s[..n], x);
      DedupHas(s[..n], s[n]);
      assert s == s[..n] + [s[n]];
    }
  }

  /** Every value once, in order of first appearance. */
  lemma {:induction false} DedupExact<T>(s: seq<T>)
    ensures forall x :: x in Dedup(s) <==> x in s
    ensures forall i, j :: 0 <= i < j < |Dedup(s)| ==> Ahead(s, Dedup(s)[i], Dedup(s)[j])
  {
    forall x ensures x in Dedup(s) <==> x in s { DedupHas(s, x); }
    forall i, j | 0 <= i < j < |Dedup(s)| ensures Ahead(s, Dedup(s)[i], Dedup(s)[j]) { DedupOrder(s, i, j); }
  }

  lemma {:induction false} DedupOrder<T>(s: seq<T>, i: nat, j: nat)
    requires i < j < |Dedup(s)|
    ensures Ahead(s, Dedup(s)[i], Dedup(s)[j])
  {
    var n := |s| - 1;
    var d, x, y := Dedup(s[..n]), Dedup(s)[i], Dedup(s)[j];
    assert x in Dedup(s) && y in Dedup(s) && d[i] in d;
    DedupHas(s, x);
    DedupHas(s, y);
    DedupHas(s[..n], x);
    IndexOfPrefix(s, n, x);
    if j < |d| {
      assert y == d[j] && y in d;
      DedupHas(s[..n], y);
      DedupOrder(s[..n], i, j);
      IndexOfPrefix(s, n, y);
    } else {
      FirstIndex(s, y, n);
    }
  }

  lemma DedupDistinct<T>(s: seq<T>, i: nat, j: nat)
    requires i < j < |Dedup(s)|
    ensures Dedup(s)[i] != Dedup(s)[j]
  {
    DedupExact(s);
  }

  lemma DedupPush<T>(s: seq<T>, x: T)
    ensures Dedup(s + [x]) == if x in s then Dedup(s) else Dedup(s) + [x]
  {
    assert (s + [x])[..|s|] == s;
  }

  // ---- Selecting after mapping -------------------------------------------

  lemma {:induction false} FilterMap<A(!new), B>(f: A -> B, s: seq<A>, p: A -> bool, q: B -> bool)
    requires forall a :: q(f(a)) == p(a)
    ensures Filter(Map(f, s), q) == Map(f, Filter(s, p))
  {
    if s != [] {
      var n := |s| - 1;
      assert Map(f, s)[..n] == Map(f, s[..n]);
      FilterMap(f, s[..n], p, q);
    }
  }

  lemma {:induction false} FilterHas<T>(s: seq<T>, p: T -> bool, x: T)
    ensures x in Filter(s, p) <==> x in s && p(x)
  {
    if s != [] {
      var n := |s| - 1;
      FilterHas(s[..n], p, x);
      assert s == s[..n] + [s[n]];
    }
  }

  // ---- Grouping ----------------------------------------------------------

  function KeyIs<T, K(==)>(key: T -> K, k: K): T -> bool {
    r => key(r) == k
  }

  /** The rows of one group. */
  function GroupOf<T, K(==)>(rows: seq<T>, key: T -> K, k: K): seq<T> {
    Filter(rows, KeyIs(key, k))
  }

  lemma GroupPush<T, K>(rows: seq<T>, r: T, key: T -> K, k: K)
    ensures GroupOf(rows + [r], key, k) == GroupOf(rows, key, k) + (if key(r) == k then [r] else [])
  {
    FilterAppend(rows, r, KeyIs(key, k));
  }

  /** Keys in first-appearance order. */
  function GroupKeys<T, K(==)>(rows: seq<T>, key: T -> K): seq<K> {
    Dedup(Map(key, rows))
  }

  lemma GroupKeysPush<T, K>(rows: seq<T>, r: T, key: T -> K)
    ensures GroupKeys(rows + [r], key)
         == if key(r) in GroupKeys(rows, key) then GroupKeys(rows, key) else GroupKeys(rows, key) + [key(r)]
  {
    assert Map(key, rows + [r]) == Map(key, rows) + [key(r)];
    DedupPush(Map(key, rows), key(r));
    DedupHas(Map(key, rows), key(r));
  }

  /** A key has a group exactly when some row has it, and no group is empty. */
  lemma GroupKeysExact<T, K>(rows: seq<T>, key: T -> K, k: K)
    ensures k in GroupKeys(rows, key) <==> GroupOf(rows, key, k) != []
  {
    DedupHas(Map(key, rows), k);
    var g := Filter(rows, KeyIs(key, k));
    if g != [] {
      FilterHas(rows, KeyIs(key, k), g[0]);
      var i :| 0 <= i < |rows| && rows[i] == g[0];
      assert Map(key, rows)[i] == k;
    }
    if k in Map(key, rows) {
      var i :| 0 <= i < |rows| && Map(key, rows)[i] == k;
      FilterHas(rows, KeyIs(key, k), rows[i]);
    }
  }

  /** The hash-grouping loop. */
  method HashGroup<T, K(==)>(rows: seq<T>, key: T -> K) returns (groups: map<K, seq<T>>, order: seq<K>)
    ensures order == GroupKeys(rows, key)
    ensures forall k :: k in groups <==> k in order
    ensures forall k :: k in groups ==> groups[k] == GroupOf(rows, key, k)
  {
    groups, order := map[], [];
    for i := 0 to |rows|
      invariant order == GroupKeys(rows[..i], key)
      invariant forall k :: k in groups <==> k in order
      invariant forall k :: k in groups ==> groups[k] == GroupOf(rows[..i], key, k)
    {
      var r := rows[i];
      var k := key(r);
      assert rows[..i + 1] == rows[..i] + [r];
      GroupKeysPush(rows[..i], r, key);
      forall j ensures GroupOf(rows[..i + 1], key, j) == GroupOf(rows[..i], key, j) + (if k == j then [r] else []) {
        GroupPush(rows[..i], r, key, j);
      }
      GroupKeysExact(rows[..i], key, k);
      hide GroupOf;
      hide GroupKeys;
      if k !in groups {
        groups := groups[k := []];
        order := order + [k];
      }
      groups := groups[k := groups[k] + [r]];
    }
    assert rows[..|rows|] == rows;
  }

  // ---- Totals over groups ------------------------------------------------

  function Total<T>(rows: seq<T>, weight: T -> int): int {
    Sum(Map(weight, rows))
  }

  lemma TotalPush<T>(rows: seq<T>, r: T, weight: T -> int)
    ensures Total(rows + [r], weight) == Total(rows, weight) + weight(r)
  {
    MapAppend(weight, rows, [r]);
    SumAppend(Map(weight, rows), [weight(r)]);
    assert [weight(r)][..0] == [];
  }

  function GroupTotal<T, K(==)>(rows: seq<T>, key: T -> K, weight: T -> int): K -> int {
    k => Total(GroupOf(rows, key, k), weight)
  }

  lemma GroupTotalPush<T, K>(rows: seq<T>, r: T, key: T -> K, weight: T -> int, k: K)
    ensures GroupTotal(rows + [r], key, weight)(k)
         == GroupTotal(rows, key, weight)(k) + (if key(r) == k then weight(r) else 0)
  {
    GroupPush(rows, r, key, k);
    TotalPush(GroupOf(rows, key, k), r, weight);
    assert key(r) != k ==> GroupOf(rows + [r], key, k) == GroupOf(rows, key, k);
  }

  /** Changing a summand at one of the distinct keys changes the sum by as much. */
  lemma {:induction false} BumpOne<K>(keys: seq<K>, f: K -> int, g: K -> int, k: K, d: int)
    requires forall i, j :: 0 <= i < j < |keys| ==> keys[i] != keys[j]
    requires forall x :: x in keys ==> g(x) == f(x) + (if x == k then d else 0)
    ensures Sum(Map(g, keys)) == Sum(Map(f, keys)) + (if k in keys then d else 0)
  {
    if keys != [] {
      var n := |keys| - 1;
      assert Map(f, keys)[..n] == Map(f, keys[..n]) && Map(g, keys)[..n] == Map(g, keys[..n]);
      assert keys == keys[..n] + [keys[n]] && keys[n] in keys;
      BumpOne(keys[..n], f, g, k, d);
    }
  }

  /** Grouping partitions the rows: any total over the rows is the sum of the groups' totals. */
  lemma {:induction false} GroupsPartition<T, K>(rows: seq<T>, key: T -> K, weight: T -> int)
    ensures Sum(Map(GroupTotal(rows, key, weight), GroupKeys(rows, key))) == Total(rows, weight)
  {
    if rows == [] {
      assert Map(key, rows) == [];
    } else {
      var init, r := rows[..|rows| - 1], rows[|rows| - 1];
      assert rows == init + [r];
      GroupsPartition(init, key, weight);
      GroupKeysPush(init, r, key);
      TotalPush(init, r, weight);
      PartitionStep(init, r, key, weight);
    }
  }

  lemma PartitionStep<T, K>(init: seq<T>, r: T, key: T -> K, weight: T -> int)
    ensures Sum(Map(GroupTotal(init + [r], key, weight), GroupKeys(init + [r], key)))
         == Sum(Map(GroupTotal(init, key, weight), GroupKeys(init, key))) + weight(r)
  {
    var f, g := GroupTotal(init, key, weight), GroupTotal(init + [r], key, weight);
    var keys, k := GroupKeys(init, key), key(r);
    forall i, j | 0 <= i < j < |keys| ensures keys[i] != keys[j] { DedupDistinct(Map(key, init), i, j); }
    forall x | x in keys ensures g(x) == f(x) + (if x == k then weight(r) else 0) {
      GroupTotalPush(init, r, key, weight, x);
    }
    BumpOne(keys, f, g, k, weight(r));
    GroupKeysPush(init, r, key);
    if k !in keys {
      GroupKeysExact(init, key, k);
      GroupTotalPush(init, r, key, weight, k);
      MapAppend(g, keys, [k]);
      SumAppend(Map(g, keys), [g(k)]);
      assert [g(k)][..0] == [];
      assert Map(weight, []) == [];
    }
  }
}
