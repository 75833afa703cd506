/** What ORDER BY and LIMIT make of an answer, in the numbers of the store (packetql/query/executor.py). */
module AnswerOrder {
  import opened Wrappers
  import opened Seqs
  import opened Ast
  import opened Predicate
  import opened IndexPlan
  import opened Relation
  import opened Columnar
  import opened Slices
  import opened Store
  import opened Finish
  import opened Planner
  import opened Engine
  import opened Answers
  import opened AnswerRows
  import opened AnswerMeaning
  import Ties
  import TopN

  // ---- Keeping row numbers instead of rows -------------------------------

  /** The row of the store with a number, all nine columns. */
  function FullRow(t: Columns): nat -> Row {
    (i: nat) => seq(|COLUMN_NAMES|, k requires 0 <= k < |COLUMN_NAMES| =>
      if COLUMN_NAMES[k] in t && i < |t[COLUMN_NAMES[k]]| then t[COLUMN_NAMES[k]][i] else 0)
  }

  lemma FullRows(t: Columns, n: nat, ids: seq<nat>)
    requires StoreColumns(t, n) && InRange(ids, n)
    ensures HasColumns(t, COLUMN_NAMES, n)
    ensures RowsAt(t, COLUMN_NAMES, ids, n) == Map(FullRow(t), ids)
  {
    SchemaHasColumns(t, n);
    forall k | 0 <= k < |ids| ensures ReadRow(t, COLUMN_NAMES, ids[k]) == FullRow(t)(ids[k]) {
    }
  }

  function NumberKey(t: Columns, c: string): nat -> real {
    (i: nat) => SortKey(COLUMN_NAMES, c)(FullRow(t)(i))
  }

  lemma NumberKeyIs(t: Columns, n: nat, c: string, i: nat)
    requires StoreColumns(t, n) && i < n && c in NAMES
    ensures NumberKey(t, c)(i) == t[c][i] as real
  {
    FullCell(t, n, i, c);
    assert ReadRow(t, COLUMN_NAMES, i) == FullRow(t)(i);
  }

  /** The row numbers that ORDER BY and LIMIT keep. */
  function KeptNumbers(t: Columns, ids: seq<nat>, orderBy: OrderBy, limit: Option<nat>): seq<nat> {
    var key := NumberKey(t, orderBy.column);
    if limit.Some? then TopN.Top(ids, limit.value, key, orderBy.descending) else SortBy(ids, key, orderBy.descending)
  }

  lemma KeptByNumber(t: Columns, ids: seq<nat>, sel: Select)
    requires sel.orderBy.Some?
    ensures Kept(sel, Map(FullRow(t), ids), COLUMN_NAMES) == Map(FullRow(t), KeptNumbers(t, ids, sel.orderBy.value, sel.limit))
  {
    var c, desc := sel.orderBy.value.column, sel.orderBy.value.descending;
    var ka, kb := NumberKey(t, c), SortKey(COLUMN_NAMES, c);
    hide FullRow, TopN.Top, SortBy;
    if sel.limit.Some? {
      TopN.TopMap(FullRow(t), ids, sel.limit.value, ka, kb, desc);
    } else {
      SortByMap(FullRow(t), ids, ka, kb, desc);
    }
  }

  // ---- Sorted, none better left out, ties in store order -----------------

  /** May a row with value `x` stand before one with value `y`? */
  predicate MayPrecede(x: int, y: int, descending: bool) {
    (!descending ==> x <= y) && (descending ==> x >= y)
  }

  lemma {:induction false} ClassAscends(s: seq<nat>, key: nat -> real, v: real)
    requires StrictlyAscending(s)
    ensures StrictlyAscending(Ties.Class(s, key, v))
  {
    if s != [] {
      var n := |s| - 1;
      var f := Ties.Class(s[..n], key, v);
      ClassAscends(s[..n], key, v);
      forall k | 0 <= k < |f| ensures f[k] < s[n] {
        assert f[k] in f;
        Ties.ClassHas(s[..n], key, v, f[k]);
      }
    }
  }

  /** Elements of one key stand in the order their class lists them in. */
  lemma {:induction false} ClassOrder(s: seq<nat>, key: nat -> real, v: real, i: nat, k: nat)
    requires i < k < |s| && key(s[i]) == v && key(s[k]) == v && StrictlyAscending(Ties.Class(s, key, v))
    ensures s[i] < s[k]
  {
    var n := |s| - 1;
    var f := Ties.Class(s[..n], key, v);
    if k == n {
      assert s[..n][i] in s[..n];
      Ties.ClassHas(s[..n], key, v, s[i]);
      var j :| 0 <= j < |f| && f[j] == s[i];
      assert Ties.Class(s, key, v) == f + [s[n]];
      assert Ties.Class(s, key, v)[j] < Ties.Class(s, key, v)[|f|];
    } else {
      forall a, b | 0 <= a < b < |f| ensures f[a] < f[b] { assert Ties.Class(s, key, v)[a] < Ties.Class(s, key, v)[b]; }
      ClassOrder(s[..n], key, v, i, k);
    }
  }

  lemma NoneBetterLeftOut(ids: seq<nat>, key: nat -> real, descending: bool, limit: Option<nat>, order: seq<nat>)
    requires order == if limit.Some? then TopN.Top(ids, limit.value, key, descending) else SortBy(ids, key, descending)
    ensures |order| == Limited(limit, |ids|) && multiset(order) <= multiset(ids) && Ordered(order, key, descending)
    ensures forall x, y :: x in order && y in ids && y !in order ==> Before(key(x), key(y), descending)
  {
    if limit.Some? {
      TopLeavesNoneBetter(ids, key, descending, limit.value);
    } else {
      SortBySorts(ids, key, descending);
      hide SortBy;
      forall y | y in ids ensures y in order { assert y in multiset(order); }
    }
  }

  lemma TopLeavesNoneBetter(ids: seq<nat>, key: nat -> real, descending: bool, n: nat)
    ensures var order := TopN.Top(ids, n, key, descending);
      && |order| == (if |ids| <= n then |ids| else n) && multiset(order) <= multiset(ids) && Ordered(order, key, descending)
      && forall x, y :: x in order && y in ids && y !in order ==> Before(key(x), key(y), descending)
  {
    var h, order := TopN.PushAll(ids, n, key, descending), TopN.Top(ids, n, key, descending);
    var rest := TopN.PushAllKeeps(ids, n, key, descending);
    SortBySorts(h, key, descending);
    assert order == SortBy(h, key, descending);
    hide TopN.PushAll, TopN.Top, TopN.Heap, SortBy, Before, Ordered;
    forall x, y | x in order && y in ids && y !in order ensures Before(key(x), key(y), descending) {
      LeftOver(ids, h, rest, order, x, y);
    }
  }

  lemma LeftOver(ids: seq<nat>, h: seq<nat>, rest: seq<nat>, order: seq<nat>, x: nat, y: nat)
    requires multiset(ids) == multiset(h) + multiset(rest) && multiset(order) == multiset(h)
    requires x in order && y in ids && y !in order
    ensures x in h && y in rest
  {
    assert x in multiset(order) && y in multiset(ids) && y !in multiset(order);
  }

  /** Different selected rows, as many as LIMIT lets through, sorted by the column, none better left out; without LIMIT
      rows of one value stand in store order. */
  ghost predicate IsOrder(order: seq<nat>, ids: seq<nat>, values: seq<int>, descending: bool, limit: Option<nat>) {
    && |order| == Limited(limit, |ids|) && Distinct(order)
    && (forall i :: 0 <= i < |order| ==> order[i] in ids && order[i] < |values|)
    && (forall i, k :: 0 <= i < k < |order| ==> MayPrecede(values[order[i]], values[order[k]], descending))
    && (forall i, y: nat :: 0 <= i < |order| && y in ids && y !in order && y < |values| ==>
          MayPrecede(values[order[i]], values[y], descending))
    && (limit == None ==>
          forall i, k :: 0 <= i < k < |order| && values[order[i]] == values[order[k]] ==> order[i] < order[k])
  }

  lemma AscendingDistinct(ids: seq<nat>)
    requires StrictlyAscending(ids)
    ensures Distinct(ids)
  {
  }

  lemma TiesInStoreOrder(ids: seq<nat>, key: nat -> real, descending: bool, i: nat, k: nat)
    requires StrictlyAscending(ids) && i < k < |SortBy(ids, key, descending)|
    requires key(SortBy(ids, key, descending)[i]) == key(SortBy(ids, key, descending)[k])
    ensures SortBy(ids, key, descending)[i] < SortBy(ids, key, descending)[k]
  {
    var order := SortBy(ids, key, descending);
    SortByStable(ids, key, descending, key(order[i]));
    assert Ties.Class(order, key, key(order[i])) == Ties.Class(ids, key, key(order[i]));
    ClassAscends(ids, key, key(order[i]));
    ClassOrder(order, key, key(order[i]), i, k);
  }

  /** From sort keys to stored values. */
  lemma ValuesInOrder(order: seq<nat>, ids: seq<nat>, key: nat -> real, values: seq<int>, descending: bool)
    requires InRange(order, |values|) && InRange(ids, |values|)
    requires forall i: nat :: i < |values| ==> key(i) == values[i] as real
    requires Ordered(order, key, descending)
    requires forall x, y :: x in order && y in ids && y !in order ==> Before(key(x), key(y), descending)
    ensures forall i, k :: 0 <= i < k < |order| ==> MayPrecede(values[order[i]], values[order[k]], descending)
    ensures forall i, y: nat :: 0 <= i < |order| && y in ids && y !in order && y < |values| ==>
      MayPrecede(values[order[i]], values[y], descending)
  {
    forall i, k | 0 <= i < k < |order| ensures MayPrecede(values[order[i]], values[order[k]], descending) {
      assert Before(key(order[i]), key(order[k]), descending);
    }
    forall i, y: nat | 0 <= i < |order| && y in ids && y !in order && y < |values|
      ensures MayPrecede(values[order[i]], values[y], descending)
    {
      assert order[i] in order;
      assert Before(key(order[i]), key(y), descending);
    }
  }

  lemma TiesStand(ids: seq<nat>, key: nat -> real, values: seq<int>, descending: bool)
    requires StrictlyAscending(ids) && InRange(ids, |values|)
    requires forall i: nat :: i < |values| ==> key(i) == values[i] as real
    requires InRange(SortBy(ids, key, descending), |values|)
    ensures var order := SortBy(ids, key, descending);
      forall i, k :: 0 <= i < k < |order| && values[order[i]] == values[order[k]] ==> order[i] < order[k]
  {
    var order := SortBy(ids, key, descending);
    forall i, k | 0 <= i < k < |order| && values[order[i]] == values[order[k]] ensures order[i] < order[k] {
      TiesInStoreOrder(ids, key, descending, i, k);
    }
  }

  lemma SortedNumbers(ids: seq<nat>, key: nat -> real, values: seq<int>, descending: bool, limit: Option<nat>, order: seq<nat>)
    requires InRange(ids, |values|) && StrictlyAscending(ids)
    requires forall i: nat :: i < |values| ==> key(i) == values[i] as real
    requires order == if limit.Some? then TopN.Top(ids, limit.value, key, descending) else SortBy(ids, key, descending)
    ensures IsOrder(order, ids, values, descending, limit)
  {
    hide TopN.Top, SortBy, Distinct, Ordered, MayPrecede, StrictlyAscending, Before;
    NoneBetterLeftOut(ids, key, descending, limit, order);
    SameMembers(order, ids);
    AscendingDistinct(ids);
    StillDistinct(order, ids);
    InRangeSome(order, ids, |values|);
    ValuesInOrder(order, ids, key, values, descending);
    if limit == None { TiesStand(ids, key, values, descending); }
  }

  lemma KeptNumbersAre(t: Columns, n: nat, ids: seq<nat>, orderBy: OrderBy, limit: Option<nat>)
    requires StoreColumns(t, n) && orderBy.column in NAMES && InRange(ids, n) && StrictlyAscending(ids)
    ensures IsOrder(KeptNumbers(t, ids, orderBy, limit), ids, t[orderBy.column], orderBy.descending, limit)
  {
    var key, values := NumberKey(t, orderBy.column), t[orderBy.column];
    assert |values| == n;
    forall i: nat | i < n ensures key(i) == values[i] as real { NumberKeyIs(t, n, orderBy.column, i); }
    hide NumberKey, TopN.Top, SortBy, IsOrder, StrictlyAscending;
    SortedNumbers(ids, key, values, orderBy.descending, limit, KeptNumbers(t, ids, orderBy, limit));
  }

  lemma InRangeSome(some: seq<nat>, ids: seq<nat>, n: nat)
    requires InRange(ids, n) && forall x :: x in some ==> x in ids
    ensures InRange(some, n) && forall i :: 0 <= i < |some| ==> some[i] in ids
  {
    forall i | 0 <= i < |some| ensures some[i] in ids && some[i] < n {
      assert some[i] in some;
      var j :| 0 <= j < |ids| && ids[j] == some[i];
    }
  }

  // ---- Ordered answers ---------------------------------------------------

  ghost predicate ShowsValue(x: real, t: Columns, c: string, i: nat) {
    c in t && i < |t[c]| && x == t[c][i] as real
  }

  /** Row i of an answer shows the stored values of row `order[i]`, each under its column. */
  ghost predicate ShowsRows(out: Output, t: Columns, order: seq<nat>) {
    && |out.rows| == |order|
    && (forall i :: 0 <= i < |order| ==> |out.rows[i]| == |out.columns|)
    && (forall i, j :: 0 <= i < |order| && 0 <= j < |out.columns| ==>
          ShowsValue(out.rows[i][j], t, out.columns[j], order[i]))
  }

  /** SELECT ... ORDER BY a column, selected or not: the rows shown are different selected rows in the order of that
      column, as many as LIMIT lets through, and no row left out should have stood before one of them. */
  lemma OrderedSelect(t: Columns, n: nat, sel: Select)
    requires StoreColumns(t, n) && WhereTyped(sel.where) && sel.table == "packets" && AllKnown(sel)
    requires sel.groupBy == [] && !sel.distinct && sel.orderBy.Some?
    requires forall j :: 0 <= j < |sel.columns| ==> sel.columns[j].Column?
    ensures Answer(t, n, sel).Ok? && sel.orderBy.value.column in NAMES
    ensures var ids, o := Selected(sel.where, t, n), sel.orderBy.value;
      exists order :: ShowsRows(Answer(t, n, sel).value, t, order) && IsOrder(order, ids, t[o.column], o.descending, sel.limit)
  {
    var ids := Selected(sel.where, t, n);
    var order := KeptNumbers(t, ids, sel.orderBy.value, sel.limit);
    SelectedIs(sel.where, t, n);
    SelectedAscends(sel.where, t, n);
    PlainIs(t, n, sel);
    var out := Answer(t, n, sel).value;
    hide Selected, Kept, KeptNumbers, PlainFinish, Answer, Shows, ShowsRows, IsOrder, Referenced;
    KeptNumbersAre(t, n, ids, sel.orderBy.value, sel.limit);
    NamesKnown(sel, out.columns);
    KeptInRange(order, ids, t, sel, n);
    CellsShown(out, t, n, order);
  }

  lemma CellsShown(out: Output, t: Columns, n: nat, order: seq<nat>)
    requires StoreColumns(t, n) && InRange(order, n) && |out.rows| == |order|
    requires forall j :: 0 <= j < |out.columns| ==> out.columns[j] in NAMES
    requires forall i :: 0 <= i < |order| ==> Shows(out.rows[i], out.columns, FullRow(t)(order[i]), COLUMN_NAMES)
    ensures ShowsRows(out, t, order)
  {
    hide Get, FullRow, Shows;
    forall i | 0 <= i < |order|
      ensures |out.rows[i]| == |out.columns|
        && forall j :: 0 <= j < |out.columns| ==> ShowsValue(out.rows[i][j], t, out.columns[j], order[i])
    {
      RowShown(out.rows[i], out.columns, t, n, order[i]);
    }
  }

  lemma RowShown(x: OutRow, names: seq<string>, t: Columns, n: nat, i: nat)
    requires StoreColumns(t, n) && i < n && forall j :: 0 <= j < |names| ==> names[j] in NAMES
    requires Shows(x, names, FullRow(t)(i), COLUMN_NAMES)
    ensures |x| == |names| && forall j :: 0 <= j < |names| ==> ShowsValue(x[j], t, names[j], i)
  {
    hide Get, FullRow;
    forall j | 0 <= j < |names| ensures ShowsValue(x[j], t, names[j], i) { FullValue(t, n, i, names[j]); }
  }

  lemma KeptInRange(order: seq<nat>, ids: seq<nat>, t: Columns, sel: Select, n: nat)
    requires sel.orderBy.Some? && sel.orderBy.value.column in t && |t[sel.orderBy.value.column]| == n
    requires IsOrder(order, ids, t[sel.orderBy.value.column], sel.orderBy.value.descending, sel.limit)
    ensures InRange(order, n)
  {
  }

  lemma FullValue(t: Columns, n: nat, i: nat, c: string)
    requires StoreColumns(t, n) && i < n && c in NAMES
    ensures Get(COLUMN_NAMES, c, FullRow(t)(i)) == t[c][i]
  {
    FullCell(t, n, i, c);
    FullRowIs(t, n, i);
    hide Get, FullRow, ReadRow;
  }

  lemma FullRowIs(t: Columns, n: nat, i: nat)
    requires StoreColumns(t, n) && i < n
    ensures HasColumns(t, COLUMN_NAMES, n) && ReadRow(t, COLUMN_NAMES, i) == FullRow(t)(i)
  {
    SchemaHasColumns(t, n);
  }

  /** The answer is the plain one, and its rows show the kept rows of the store. */
  lemma PlainIs(t: Columns, n: nat, sel: Select)
    requires StoreColumns(t, n) && WhereTyped(sel.where) && sel.table == "packets" && AllKnown(sel)
    requires sel.groupBy == [] && !sel.distinct && sel.orderBy.Some?
    requires forall j :: 0 <= j < |sel.columns| ==> sel.columns[j].Column?
    ensures WhereReads(sel.where, t, n) && Answer(t, n, sel).Ok?
    ensures var out, order := Answer(t, n, sel).value, KeptNumbers(t, Selected(sel.where, t, n), sel.orderBy.value, sel.limit);
      && (if sel.Star() then out.columns == COLUMN_NAMES
          else |out.columns| == |sel.columns| && forall j :: 0 <= j < |out.columns| ==> sel.columns[j] == Column(out.columns[j]))
      && |out.rows| == |order|
      && forall i :: 0 <= i < |order| ==> Shows(out.rows[i], out.columns, FullRow(t)(order[i]), COLUMN_NAMES)
  {
    ReferencedKnown(sel);
    SchemaHasColumns(t, n);
    SelectedIs(sel.where, t, n);
    var ids := Selected(sel.where, t, n);
    var rows := RowsAt(t, COLUMN_NAMES, ids, n);
    hide Selected, Kept, KeptNumbers, Referenced, AggregateFinish, Get, Shows;
    FullRows(t, n, ids);
    KeptByNumber(t, ids, sel);
    PlainAnswer(sel, rows, COLUMN_NAMES);
    PlainColumns(sel, rows, COLUMN_NAMES);
  }

  lemma SelectedAscends(where: Option<Expr>, t: Columns, n: nat)
    requires WhereTyped(where) && WhereReads(where, t, n)
    ensures StrictlyAscending(Selected(where, t, n))
  {
    if where.Some? { MatchingExact(where.value, t, n); }
  }

  /** May `x` stand before `y`, by cell `j`? */
  ghost predicate CellsStand(x: OutRow, y: OutRow, j: nat, descending: bool) {
    j < |x| && j < |y| && (!descending ==> x[j] <= y[j]) && (descending ==> x[j] >= y[j])
  }

  /** A labelled ORDER BY, as over grouped or DISTINCT rows: cell j of the rows shown is in order, where j is the first
      label of that name, and no row left out should have stood before one of them. */
  lemma LabelledOrder(rows: seq<OutRow>, labels: seq<string>, orderBy: OrderBy, limit: Option<nat>, j: nat)
    requires j < |labels| && labels[j] == orderBy.column && orderBy.column !in labels[..j]
    requires forall x :: x in rows ==> |x| == |labels|
    ensures OrderLimit(rows, labels, Some(orderBy), limit).Ok?
    ensures var out := OrderLimit(rows, labels, Some(orderBy), limit).value;
      && (forall x :: x in out ==> x in rows)
      && (forall i, k :: 0 <= i < k < |out| ==> CellsStand(out[i], out[k], j, orderBy.descending))
      && (forall x, y :: x in out && y in rows && y !in out ==> CellsStand(x, y, j, orderBy.descending))
  {
    FirstIndex(labels, orderBy.column, j);
    var key, desc := OutCell(j), orderBy.descending;
    var all := SortBy(rows, key, desc);
    var out := OrderLimit(rows, labels, Some(orderBy), limit).value;
    SortBySorts(rows, key, desc);
    hide SortBy, OrderLimit;
    CutLeavesNoneBetter(rows, all, out, key, desc);
    hide Ordered, IndexOf;
    CellsInOrder(rows, out, j, desc);
  }

  lemma CellsInOrder(rows: seq<OutRow>, out: seq<OutRow>, j: nat, descending: bool)
    requires Ordered(out, OutCell(j), descending) && forall x :: x in out ==> x in rows
    requires forall x, y :: x in out && y in rows && y !in out ==> Before(OutCell(j)(x), OutCell(j)(y), descending)
    requires forall x :: x in rows ==> j < |x|
    ensures forall i, k :: 0 <= i < k < |out| ==> CellsStand(out[i], out[k], j, descending)
    ensures forall x, y :: x in out && y in rows && y !in out ==> CellsStand(x, y, j, descending)
  {
    forall i, k | 0 <= i < k < |out| ensures CellsStand(out[i], out[k], j, descending) {
      assert out[i] in out && out[k] in out;
    }
  }

  lemma CutLeavesNoneBetter<T>(rows: seq<T>, all: seq<T>, out: seq<T>, key: T -> real, descending: bool)
    requires Ordered(all, key, descending) && multiset(all) == multiset(rows) && out <= all
    ensures Ordered(out, key, descending) && forall x :: x in out ==> x in rows
    ensures forall x, y :: x in out && y in rows && y !in out ==> Before(key(x), key(y), descending)
  {
    SameMembers(all, rows);
    forall x | x in out ensures x in rows { assert x in all; }
    forall x, y | x in out && y in rows && y !in out ensures Before(key(x), key(y), descending) {
      var i :| 0 <= i < |out| && out[i] == x;
      var k :| 0 <= k < |all| && all[k] == y;
      NotCutOff(out, all, k);
      assert all[i] == x;
    }
  }

  lemma NotCutOff<T>(out: seq<T>, all: seq<T>, k: nat)
    requires out <= all && k < |all| && all[k] !in out
    ensures |out| <= k
  {
  }

  /** Grouped rows are ordered by the selected item whose label ORDER BY names, the first of that name. */
  lemma GroupedOrder(sel: Select, rows: seq<Row>, cols: seq<string>, j: nat)
    requires AggregateFinish(sel, rows, cols).Ok? && sel.orderBy.Some?
    requires j < |sel.columns| && Labels(sel.columns)[j] == sel.orderBy.value.column
    requires sel.orderBy.value.column !in Labels(sel.columns)[..j]
    ensures var out := AggregateFinish(sel, rows, cols).value.rows;
      forall i, k :: 0 <= i < k < |out| ==> CellsStand(out[i], out[k], j, sel.orderBy.value.descending)
  {
    var groups := GroupRows(sel, OutputKeys(sel.groupBy, rows, cols), rows, cols).value;
    var all := if sel.distinct then Dedup(groups) else groups;
    GroupsInOrder(sel, rows, cols);
    DedupRowsAre(groups);
    hide GroupRows, OutputKeys, PassingKeys, Dedup, OrderLimit, IsCell, GroupOf, KeyOf, Passing;
    forall x | x in groups ensures |x| == |Labels(sel.columns)| {
      var i :| 0 <= i < |groups| && groups[i] == x;
      assert IsRowOf(groups[i], sel, rows, cols, PassingKeys(sel, rows, cols)[i]);
    }
    LabelledOrder(all, Labels(sel.columns), sel.orderBy.value, sel.limit, j);
  }

  /** And so are the rows of a plain DISTINCT. */
  lemma DistinctOrder(sel: Select, rows: seq<Row>, cols: seq<string>, j: nat)
    requires sel.distinct && PlainFinish(sel, rows, cols).Ok? && sel.orderBy.Some?
    requires j < |OutColumns(sel)| && OutColumns(sel)[j] == sel.orderBy.value.column
    requires sel.orderBy.value.column !in OutColumns(sel)[..j]
    ensures var out := PlainFinish(sel, rows, cols).value.rows;
      forall i, k :: 0 <= i < k < |out| ==> CellsStand(out[i], out[k], j, sel.orderBy.value.descending)
  {
    var names := OutColumns(sel);
    var all := Map(Projector(cols, names), rows);
    DistinctFinish(sel, rows, cols);
    ProjectedShows(names, rows, cols);
    DedupRowsAre(all);
    hide PlainFinish, OutColumns, Projector, Dedup, OrderLimit, Get;
    LabelledOrder(Dedup(all), names, sel.orderBy.value, sel.limit, j);
  }
}
