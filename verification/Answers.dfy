/** What answers promise: totals over groups, order, limits. */
module Answers {
  import opened Wrappers
  import opened Seqs
  import opened Ast
  import opened Relation
  import opened Finish
  import Bytes
  import Ties
  import TiesApart
  import TopN

  function RealSum(s: seq<real>): real {
    if s == [] then 0.0 else RealSum(s[..|s| - 1]) + s[|s| - 1]
  }

  lemma RealSumPush(s: seq<real>, x: real)
    ensures RealSum(s + [x]) == RealSum(s) + x
  {
    assert (s + [x])[..|s|] == s;
  }

  lemma {:induction false} SumAsReal(s: seq<int>, r: seq<real>)
    requires |r| == |s| && forall i :: 0 <= i < |s| ==> r[i] == s[i] as real
    ensures RealSum(r) == Seqs.Sum(s) as real
  {
    if s != [] { SumAsReal(s[..|s| - 1], r[..|r| - 1]); }
  }

  // ---- Sorting keeps sums ------------------------------------------------

  lemma {:induction false} InsertSum<T>(s: seq<T>, x: T, key: T -> real, descending: bool, f: T -> real)
    ensures RealSum(Map(f, Insert(s, x, key, descending))) == RealSum(Map(f, s)) + f(x)
  {
    if s == [] || Before(key(s[|s| - 1]), key(x), descending) {
      MapAppend(f, s, [x]);
      RealSumPush(Map(f, s), f(x));
    } else {
      var n := |s| - 1;
      var t := Insert(s[..n], x, key, descending);
      InsertSum(s[..n], x, key, descending, f);
      MapAppend(f, t, [s[n]]);
      RealSumPush(Map(f, t), f(s[n]));
      assert Map(f, s) == Map(f, s[..n]) + [f(s[n])];
      RealSumPush(Map(f, s[..n]), f(s[n]));
    }
  }

  lemma {:induction false} SortSum<T>(s: seq<T>, key: T -> real, descending: bool, f: T -> real)
    ensures RealSum(Map(f, SortBy(s, key, descending))) == RealSum(Map(f, s))
  {
    if s != [] {
      var n := |s| - 1;
      SortSum(s[..n], key, descending, f);
      InsertSum(SortBy(s[..n], key, descending), s[n], key, descending, f);
      assert Map(f, s) == Map(f, s[..n]) + [f(s[n])];
      RealSumPush(Map(f, s[..n]), f(s[n]));
    }
  }

  // ---- One output row per group ------------------------------------------

  lemma {:induction false} GroupRowCells(items: seq<Item>, group: seq<Row>, cols: seq<string>)
    requires GroupRow(items, group, cols).Ok?
    ensures var row := GroupRow(items, group, cols).value;
      |row| == |items| && forall j :: 0 <= j < |items| ==> ItemCell(items[j], group, cols) == Ok(row[j])
  {
    if items != [] { GroupRowCells(items[..|items| - 1], group, cols); }
  }

  /** Without HAVING there is one output row per key, in key order, computed from that key's rows alone. */
  lemma {:induction false} OneRowPerKey(sel: Select, keys: seq<seq<int>>, rows: seq<Row>, cols: seq<string>)
    requires sel.having == None && GroupRows(sel, keys, rows, cols).Ok?
    ensures var out := GroupRows(sel, keys, rows, cols).value;
      && |out| == |keys|
      && forall k :: 0 <= k < |keys| ==>
           GroupRow(sel.columns, GroupOf(rows, KeyOf(cols, sel.groupBy), keys[k]), cols) == Ok(out[k])
  {
    if keys != [] { OneRowPerKey(sel, keys[..|keys| - 1], rows, cols); }
  }

  lemma FinishedRows(sel: Select, rows: seq<Row>, cols: seq<string>)
    requires !sel.distinct && sel.limit == None && AggregateFinish(sel, rows, cols).Ok?
    ensures GroupRows(sel, OutputKeys(sel.groupBy, rows, cols), rows, cols).Ok?
    ensures var out := GroupRows(sel, OutputKeys(sel.groupBy, rows, cols), rows, cols).value;
      AggregateFinish(sel, rows, cols).value.rows == match sel.orderBy
        case None => out
        case Some(o) => SortBy(out, OutCell(IndexOf(Labels(sel.columns), o.column)), o.descending)
  {
    hide GroupRows, OutputKeys, SortBy, IndexOf;
  }

  /** An output column whose cell is the group's total of some weight adds up to the total over all rows. */
  lemma GroupTotalsAddUp(sel: Select, rows: seq<Row>, cols: seq<string>, j: nat, weight: Row -> int)
    requires sel.having == None && !sel.distinct && sel.limit == None && j < |sel.columns|
    requires forall g: seq<Row> :: ItemCell(sel.columns[j], g, cols) == Ok(Total(g, weight) as real)
    requires AggregateFinish(sel, rows, cols).Ok?
    ensures RealSum(Map(OutCell(j), AggregateFinish(sel, rows, cols).value.rows)) == Total(rows, weight) as real
  {
    var keys := OutputKeys(sel.groupBy, rows, cols);
    var out := GroupRows(sel, keys, rows, cols).value;
    OneRowPerKey(sel, keys, rows, cols);
    var key := KeyOf(cols, sel.groupBy);
    var totals := Map(GroupTotal(rows, key, weight), keys);
    forall k | 0 <= k < |keys| ensures OutCell(j)(out[k]) == totals[k] as real {
      GroupRowCells(sel.columns, GroupOf(rows, key, keys[k]), cols);
    }
    SumAsReal(totals, Map(OutCell(j), out));
    OutputKeysPartition(sel.groupBy, rows, cols, weight);
    FinishedRows(sel, rows, cols);
    hide AggregateFinish, GroupRows, OutputKeys;
    if sel.orderBy.Some? {
      SortSum(out, OutCell(IndexOf(Labels(sel.columns), sel.orderBy.value.column)), sel.orderBy.value.descending, OutCell(j));
    }
  }

  lemma OutputKeysPartition(groupBy: seq<string>, rows: seq<Row>, cols: seq<string>, weight: Row -> int)
    ensures Seqs.Sum(Map(GroupTotal(rows, KeyOf(cols, groupBy), weight), OutputKeys(groupBy, rows, cols)))
         == Total(rows, weight)
  {
    var key := KeyOf(cols, groupBy);
    GroupsPartition(rows, key, weight);
    if groupBy == [] && GroupKeys(rows, key) == [] {
      NoGroup(rows, key);
      if rows != [] { GroupKeysExact(rows, key, key(rows[0])); FilterHas(rows, KeyIs(key, key(rows[0])), rows[0]); }
      var f := GroupTotal(rows, key, weight);
      assert Map(f, [[]])[..0] == [];
      assert Total<Row>([], weight) == 0;
    }
  }

  function One(): Row -> int {
    r => 1
  }

  lemma {:induction false} CountIsTotal(g: seq<Row>)
    ensures Total(g, One()) == |g|
  {
    if g == [] {
    } else {
      var n := |g| - 1;
      assert g == g[..n] + [g[n]];
      CountIsTotal(g[..n]);
      TotalPush(g[..n], g[n], One());
    }
  }

  /** The COUNT(*) column of a grouped query adds up to the number of filtered rows. */
  lemma CountsAddUp(sel: Select, rows: seq<Row>, cols: seq<string>, j: nat)
    requires sel.having == None && !sel.distinct && sel.limit == None
    requires j < |sel.columns| && sel.columns[j] == AggItem(Agg(Count, None))
    requires AggregateFinish(sel, rows, cols).Ok?
    ensures RealSum(Map(OutCell(j), AggregateFinish(sel, rows, cols).value.rows)) == |rows| as real
  {
    forall g: seq<Row> ensures ItemCell(sel.columns[j], g, cols) == Ok(Total(g, One()) as real) { CountIsTotal(g); }
    GroupTotalsAddUp(sel, rows, cols, j, One());
    CountIsTotal(rows);
  }

  /** The SUM(c) column of a grouped query adds up to the total of `c` over the filtered rows. */
  lemma SumsAddUp(sel: Select, rows: seq<Row>, cols: seq<string>, j: nat, c: string)
    requires sel.having == None && !sel.distinct && sel.limit == None
    requires j < |sel.columns| && sel.columns[j] == AggItem(Agg(Func.Sum, Some(c)))
    requires AggregateFinish(sel, rows, cols).Ok?
    ensures RealSum(Map(OutCell(j), AggregateFinish(sel, rows, cols).value.rows)) == Total(rows, Getter(cols, c)) as real
  {
    assert Total<Row>([], Getter(cols, c)) == 0;
    GroupTotalsAddUp(sel, rows, cols, j, Getter(cols, c));
  }

  // ---- HAVING ------------------------------------------------------------

  /** Does the group of a key pass HAVING? */
  function Passing(sel: Select, rows: seq<Row>, cols: seq<string>): seq<int> -> bool {
    k => Passes(sel.having, GroupOf(rows, KeyOf(cols, sel.groupBy), k), cols, sel.groupBy) == Ok(true)
  }

  lemma GroupRowsPush(sel: Select, keys: seq<seq<int>>, k: seq<int>, rows: seq<Row>, cols: seq<string>)
    requires GroupRows(sel, keys, rows, cols).Ok?
    ensures var group := GroupOf(rows, KeyOf(cols, sel.groupBy), k);
      GroupRows(sel, keys + [k], rows, cols)
      == match Passes(sel.having, group, cols, sel.groupBy)
         case Err(e) => Err(e)
         case Ok(pass) =>
           if !pass then GroupRows(sel, keys, rows, cols)
           else
             match GroupRow(sel.columns, group, cols)
             case Err(e) => Err(e)
             case Ok(row) => Ok(GroupRows(sel, keys, rows, cols).value + [row])
  {
    hide GroupOf, KeyOf, GroupRow, Passes;
    assert (keys + [k])[..|keys|] == keys;
  }

  lemma PassingAt(sel: Select, rows: seq<Row>, cols: seq<string>, k: seq<int>)
    ensures var group := GroupOf(rows, KeyOf(cols, sel.groupBy), k);
      && (Passing(sel, rows, cols)(k) <==> Passes(sel.having, group, cols, sel.groupBy) == Ok(true))
      && Passes(None, group, cols, sel.groupBy) == Ok(true)
  {
    hide GroupOf, KeyOf;
  }

  lemma GroupRowsInit(sel: Select, keys: seq<seq<int>>, rows: seq<Row>, cols: seq<string>)
    requires keys != [] && GroupRows(sel, keys, rows, cols).Ok?
    ensures GroupRows(sel, keys[..|keys| - 1], rows, cols).Ok?
  {
    hide GroupOf, KeyOf, GroupRow, Passes;
  }

  /** HAVING only removes rows: what is left are the rows of the passing groups, in key order. */
  lemma {:induction false} HavingFilters(sel: Select, keys: seq<seq<int>>, rows: seq<Row>, cols: seq<string>)
    requires GroupRows(sel, keys, rows, cols).Ok?
    ensures GroupRows(sel.(having := None), Filter(keys, Passing(sel, rows, cols)), rows, cols) == GroupRows(sel, keys, rows, cols)
  {
    if keys != [] {
      hide *;
      var k := keys[|keys| - 1];
      var init := keys[..|keys| - 1];
      var passing := Passing(sel, rows, cols);
      var group := GroupOf(rows, KeyOf(cols, sel.groupBy), k);
      PassingAt(sel, rows, cols, k);
      GroupRowsInit(sel, keys, rows, cols);
      HavingFilters(sel, init, rows, cols);
      assert init + [k] == keys;
      GroupRowsPush(sel, init, k, rows, cols);
      FilterAppend(init, k, passing);
      GroupRowsPush(sel.(having := None), Filter(init, passing), k, rows, cols);
      assert Filter(init, passing) + [] == Filter(init, passing);
    }
  }

  // ---- Order and limit ---------------------------------------------------

  /** Labelled ORDER BY and LIMIT keep the first rows of the stable sort: their keys are the first keys of the full
      sort, and of every key they are the first rows of the input, in order. */
  lemma OrderLimitSorted(rows: seq<OutRow>, labels: seq<string>, orderBy: OrderBy, limit: Option<nat>)
    requires orderBy.column in labels
    ensures var r, key := OrderLimit(rows, labels, Some(orderBy), limit), OutCell(IndexOf(labels, orderBy.column));
      && r.Ok?
      && Ordered(r.value, key, orderBy.descending)
      && |r.value| == (if limit == None then |rows| else Bytes.Min(limit.value, |rows|))
      && multiset(r.value) <= multiset(rows)
      && Map(key, r.value) <= Map(key, SortBy(rows, key, orderBy.descending))
      && forall k: real :: Ties.Class(r.value, key, k) <= Ties.Class(rows, key, k)
  {
    var key := OutCell(IndexOf(labels, orderBy.column));
    SortBySorts(rows, key, orderBy.descending);
    hide SortBy;
    CutOfSort(rows, SortBy(rows, key, orderBy.descending), Take(SortBy(rows, key, orderBy.descending), limit),
              key, orderBy.descending);
  }

  lemma CutOfSort<T>(rows: seq<T>, all: seq<T>, cut: seq<T>, key: T -> real, descending: bool)
    requires all == SortBy(rows, key, descending) && cut <= all
    ensures Ordered(cut, key, descending) && multiset(cut) <= multiset(rows) && Map(key, cut) <= Map(key, all)
    ensures forall k: real :: Ties.Class(cut, key, k) <= Ties.Class(rows, key, k)
  {
    SortBySorts(rows, key, descending);
    assert all == cut + all[|cut|..];
    assert Map(key, cut) == Map(key, all)[..|cut|];
    forall k: real ensures Ties.Class(cut, key, k) <= Ties.Class(rows, key, k) {
      Ties.ClassPrefix(cut, all, key, k);
      SortByStable(rows, key, descending, k);
    }
  }

  /** ORDER BY with LIMIT through the heap gives the key sequence of the full sort, cut off. */
  lemma KeptIsSortedPrefix(sel: Select, rows: seq<Row>, cols: seq<string>)
    requires sel.orderBy.Some?
    ensures var key := SortKey(cols, sel.orderBy.value.column);
      && Map(key, Kept(sel, rows, cols)) == Take(Map(key, SortBy(rows, key, sel.orderBy.value.descending)), sel.limit)
      && multiset(Kept(sel, rows, cols)) <= multiset(rows)
  {
    var key, desc := SortKey(cols, sel.orderBy.value.column), sel.orderBy.value.descending;
    SortBySorts(rows, key, desc);
    if sel.limit.Some? { TopN.TopIsSortedPrefix(rows, sel.limit.value, key, desc); }
  }

  /** Does the heap keep the very rows of sort-then-cut? */
  predicate KeptIsCut(sel: Select, rows: seq<Row>, cols: seq<string>)
    requires sel.orderBy.Some?
  {
    var key := SortKey(cols, sel.orderBy.value.column);
    Kept(sel, rows, cols) == Take(SortBy(rows, key, sel.orderBy.value.descending), sel.limit)
  }

  lemma PrefixIsCut<T>(top: seq<T>, all: seq<T>, n: nat)
    requires |top| == if |all| <= n then |all| else n
    ensures top <= all <==> top == Take(all, Some(n))
  {
  }

  /** ORDER BY with LIMIT keeps the rows of sort-then-cut, for every order the rows may come in, exactly when the ties
      of the sort key are settled. */
  lemma KeptTiesIff(sel: Select, rows: seq<Row>, cols: seq<string>)
    requires sel.orderBy.Some? && sel.limit.Some?
    ensures (forall p: seq<Row> :: multiset(p) == multiset(rows) ==> KeptIsCut(sel, p, cols))
      <==> Ties.Settled(rows, sel.limit.value, SortKey(cols, sel.orderBy.value.column), sel.orderBy.value.descending)
  {
    var key, desc, n := SortKey(cols, sel.orderBy.value.column), sel.orderBy.value.descending, sel.limit.value;
    TiesApart.TiesIff(rows, n, key, desc);
    hide TopN.Top, SortBy, Ties.Settled;
    forall p: seq<Row> ensures KeptIsCut(sel, p, cols) <==> TopN.Top(p, n, key, desc) <= SortBy(p, key, desc) {
      TopN.TopIsSortedPrefix(p, n, key, desc);
      SortBySorts(p, key, desc);
      PrefixIsCut(TopN.Top(p, n, key, desc), SortBy(p, key, desc), n);
    }
  }
}
