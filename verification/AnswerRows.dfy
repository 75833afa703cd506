/** What stands in the cells of an answer, in terms of the rows it is computed from (packetql/query/executor.py). */
module AnswerRows {
  import opened Wrappers
  import opened Seqs
  import opened Ast
  import opened Relation
  import opened Finish
  import opened Columnar
  import opened Answers
  import TiesApart

  // ---- Rows of read columns ----------------------------------------------

  /** A row's value in a column is the value at the column's place. */
  lemma GetAt(cols: seq<string>, i: nat, r: Row)
    requires i < |cols| && cols[i] !in cols[..i] && i < |r|
    ensures Get(cols, cols[i], r) == r[i]
  {
    FirstIndex(cols, cols[i], i);
  }

  /** The rows of a group are the rows with its key, which is made of the values in the grouping columns. */
  lemma GroupRowsAre(rows: seq<Row>, cols: seq<string>, groupBy: seq<string>, k: seq<int>, r: Row)
    ensures r in GroupOf(rows, KeyOf(cols, groupBy), k)
      <==> r in rows && |k| == |groupBy| && forall i :: 0 <= i < |k| ==> k[i] == Get(cols, groupBy[i], r)
  {
    FilterHas(rows, KeyIs(KeyOf(cols, groupBy), k), r);
    if r in rows && |k| == |groupBy| && forall i :: 0 <= i < |k| ==> k[i] == Get(cols, groupBy[i], r) {
      assert GroupKey(cols, groupBy, r) == k;
    }
  }

  // ---- Aggregates --------------------------------------------------------

  /** What an aggregate of a group is; over no rows it is zero. */
  ghost predicate IsAggregate(x: real, a: Agg, g: seq<Row>, cols: seq<string>) {
    && (a.func == Count ==> x == |g| as real)
    && (g == [] ==> x == 0.0)
    && (a.func != Count && g != [] ==> a.arg.Some? && IsFigure(x, a.func, g, cols, a.arg.value))
  }

  ghost predicate IsFigure(x: real, func: Func, g: seq<Row>, cols: seq<string>, c: string) {
    && (func == Func.Sum ==> x == Total(g, Getter(cols, c)) as real)
    && (func == Avg ==> x * (|g| as real) == Total(g, Getter(cols, c)) as real)
    && (func == Func.Min ==> (exists r :: r in g && x == Get(cols, c, r) as real) && forall r :: r in g ==> x <= Get(cols, c, r) as real)
    && (func == Func.Max ==> (exists r :: r in g && x == Get(cols, c, r) as real) && forall r :: r in g ==> x >= Get(cols, c, r) as real)
  }

  lemma MappedHas(f: Row -> int, g: seq<Row>, v: int)
    ensures v in Map(f, g) <==> exists r :: r in g && f(r) == v
  {
    if v in Map(f, g) {
      var i :| 0 <= i < |g| && Map(f, g)[i] == v;
      assert g[i] in g;
    }
    if r :| r in g && f(r) == v {
      var i :| 0 <= i < |g| && g[i] == r;
      assert Map(f, g)[i] == v;
    }
  }

  lemma AggregateIs(a: Agg, g: seq<Row>, cols: seq<string>)
    requires ComputeAgg(a, g, cols).Ok?
    ensures IsAggregate(ComputeAgg(a, g, cols).value, a, g, cols)
  {
    if a.func != Count && g != [] {
      var f := Getter(cols, a.arg.value);
      var vals := Map(f, g);
      forall r | r in g ensures f(r) in vals { MappedHas(f, g, f(r)); }
      if a.func == Func.Min { MappedHas(f, g, MinOf(vals)); }
      if a.func == Func.Max { MappedHas(f, g, MaxOf(vals)); }
    }
  }

  /** Only an aggregate without a column, other than COUNT(*), over some rows fails. */
  lemma AggregateFails(a: Agg, g: seq<Row>, cols: seq<string>)
    ensures ComputeAgg(a, g, cols).Err? <==> a.func != Count && g != [] && a.arg == None
  {
  }

  /** A cell of a grouped row: an aggregate of the group, or the value that all rows of the group share. */
  ghost predicate IsCell(x: real, item: Item, g: seq<Row>, cols: seq<string>) {
    match item
    case AggItem(a) => IsAggregate(x, a, g, cols)
    case Column(c) => g != [] && forall r :: r in g ==> x == Get(cols, c, r) as real
  }

  lemma SharedValue(rows: seq<Row>, cols: seq<string>, groupBy: seq<string>, k: seq<int>, c: string, q: Row, r: Row)
    requires c in groupBy && q in GroupOf(rows, KeyOf(cols, groupBy), k) && r in GroupOf(rows, KeyOf(cols, groupBy), k)
    ensures Get(cols, c, q) == Get(cols, c, r)
  {
    GroupRowsAre(rows, cols, groupBy, k, q);
    GroupRowsAre(rows, cols, groupBy, k, r);
    var i := IndexOf(groupBy, c);
    assert k[i] == Get(cols, groupBy[i], q) == Get(cols, groupBy[i], r);
  }

  ghost predicate IsGroupRow(x: OutRow, items: seq<Item>, g: seq<Row>, cols: seq<string>) {
    |x| == |items| && forall j :: 0 <= j < |items| ==> IsCell(x[j], items[j], g, cols)
  }

  lemma GroupRowIs(sel: Select, rows: seq<Row>, cols: seq<string>, k: seq<int>)
    requires PlainGrouped(sel.columns, sel.groupBy)
    requires GroupRow(sel.columns, GroupOf(rows, KeyOf(cols, sel.groupBy), k), cols).Ok?
    ensures var g := GroupOf(rows, KeyOf(cols, sel.groupBy), k);
      IsGroupRow(GroupRow(sel.columns, g, cols).value, sel.columns, g, cols)
  {
    var g := GroupOf(rows, KeyOf(cols, sel.groupBy), k);
    var x := GroupRow(sel.columns, g, cols).value;
    GroupRowCells(sel.columns, g, cols);
    hide GroupOf, KeyOf, GroupRow, IsAggregate, ComputeAgg, Get;
    forall j | 0 <= j < |sel.columns| ensures IsCell(x[j], sel.columns[j], g, cols) {
      var item := sel.columns[j];
      assert ItemCell(item, g, cols) == Ok(x[j]);
      if item.AggItem? {
        AggregateIs(item.agg, g, cols);
      } else {
        forall r | r in g ensures x[j] == Get(cols, item.name, r) as real {
          SharedValue(rows, cols, sel.groupBy, k, item.name, g[0], r);
        }
      }
    }
  }

  // ---- The rows of a grouped answer --------------------------------------

  /** A query without GROUP BY has one group, of all rows, even when there are none; otherwise the groups are those of
      the keys that occur, in order of first appearance. */
  lemma KeysAre(groupBy: seq<string>, rows: seq<Row>, cols: seq<string>)
    ensures groupBy == [] ==> OutputKeys(groupBy, rows, cols) == [[]] && GroupOf(rows, KeyOf(cols, groupBy), []) == rows
    ensures groupBy != [] ==>
      forall k :: k in OutputKeys(groupBy, rows, cols) <==> GroupOf(rows, KeyOf(cols, groupBy), k) != []
    ensures Distinct(OutputKeys(groupBy, rows, cols))
  {
    var key := KeyOf(cols, groupBy);
    var keys := GroupKeys(rows, key);
    forall k ensures k in keys <==> GroupOf(rows, key, k) != [] { GroupKeysExact(rows, key, k); }
    forall i, j | 0 <= i < j < |keys| ensures keys[i] != keys[j] { DedupDistinct(Map(key, rows), i, j); }
    if groupBy == [] {
      EveryRow(rows, cols);
      forall r: Row ensures key(r) == [] { }
      OneKey(keys, rows, key);
    }
  }

  lemma {:induction false} EveryRow(rows: seq<Row>, cols: seq<string>)
    ensures GroupOf(rows, KeyOf(cols, []), []) == rows
  {
    if rows != [] {
      var n := |rows| - 1;
      EveryRow(rows[..n], cols);
      assert rows == rows[..n] + [rows[n]];
      GroupPush(rows[..n], rows[n], KeyOf(cols, []), []);
      assert KeyOf(cols, [])(rows[n]) == [];
    }
  }

  lemma NotDistinct(keys: seq<seq<int>>)
    requires |keys| >= 2 && forall i :: 0 <= i < |keys| ==> keys[i] == []
    ensures !Distinct(keys)
  {
    assert keys[0] == keys[1];
  }

  lemma OneKey(keys: seq<seq<int>>, rows: seq<Row>, key: Row -> seq<int>)
    requires keys == GroupKeys(rows, key) && Distinct(keys) && forall r: Row :: key(r) == []
    ensures keys == [] || keys == [[]]
  {
    forall i | 0 <= i < |keys| ensures keys[i] == [] {
      assert keys[i] in keys;
      DedupHas(Map(key, rows), keys[i]);
      var j :| 0 <= j < |rows| && Map(key, rows)[j] == keys[i];
    }
    if |keys| >= 2 { NotDistinct(keys); }
  }

  /** A row for a key whose group passes HAVING. */
  ghost predicate IsRowOf(x: OutRow, sel: Select, rows: seq<Row>, cols: seq<string>, k: seq<int>) {
    && k in OutputKeys(sel.groupBy, rows, cols)
    && Passing(sel, rows, cols)(k)
    && IsGroupRow(x, sel.columns, GroupOf(rows, KeyOf(cols, sel.groupBy), k), cols)
  }

  function PassingKeys(sel: Select, rows: seq<Row>, cols: seq<string>): seq<seq<int>> {
    Filter(OutputKeys(sel.groupBy, rows, cols), Passing(sel, rows, cols))
  }

  lemma PassingKeysHave(sel: Select, rows: seq<Row>, cols: seq<string>, k: seq<int>)
    ensures k in PassingKeys(sel, rows, cols) <==> k in OutputKeys(sel.groupBy, rows, cols) && Passing(sel, rows, cols)(k)
  {
    FilterHas(OutputKeys(sel.groupBy, rows, cols), Passing(sel, rows, cols), k);
  }

  lemma GroupsInOrder(sel: Select, rows: seq<Row>, cols: seq<string>)
    requires PlainGrouped(sel.columns, sel.groupBy) && GroupRows(sel, OutputKeys(sel.groupBy, rows, cols), rows, cols).Ok?
    ensures var out, keys := GroupRows(sel, OutputKeys(sel.groupBy, rows, cols), rows, cols).value, PassingKeys(sel, rows, cols);
      |out| == |keys| && forall i :: 0 <= i < |keys| ==> IsRowOf(out[i], sel, rows, cols, keys[i])
  {
    var all, keys := OutputKeys(sel.groupBy, rows, cols), PassingKeys(sel, rows, cols);
    var out := GroupRows(sel, all, rows, cols).value;
    HavingFilters(sel, all, rows, cols);
    OneRowPerKey(sel.(having := None), keys, rows, cols);
    hide GroupRows, OutputKeys, IsGroupRow, GroupOf, KeyOf, Passing;
    forall i | 0 <= i < |keys| ensures IsRowOf(out[i], sel, rows, cols, keys[i]) {
      assert keys[i] in keys;
      PassingKeysHave(sel, rows, cols, keys[i]);
      GroupRowIs(sel, rows, cols, keys[i]);
    }
  }

  function Limited(limit: Option<nat>, n: nat): nat {
    if limit.Some? && limit.value < n then limit.value else n
  }

  /** Ordering and cutting off invent no row; without LIMIT they lose none, and without ORDER BY the first ones stay. */
  lemma Shown(rows: seq<OutRow>, labels: seq<string>, orderBy: Option<OrderBy>, limit: Option<nat>)
    requires OrderLimit(rows, labels, orderBy, limit).Ok?
    ensures var out := OrderLimit(rows, labels, orderBy, limit).value;
      && |out| == Limited(limit, |rows|) && multiset(out) <= multiset(rows)
      && (limit == None ==> multiset(out) == multiset(rows))
      && (orderBy == None ==> out == rows[..|out|])
  {
    if orderBy.Some? {
      OrderLimitSorted(rows, labels, orderBy.value, limit);
      if limit == None { SortBySorts(rows, OutCell(IndexOf(labels, orderBy.value.column)), orderBy.value.descending); }
    } else {
      var out := OrderLimit(rows, labels, orderBy, limit).value;
      assert rows == rows[..|out|] + rows[|out|..];
    }
  }

  lemma SameMembers<T>(a: seq<T>, b: seq<T>)
    requires multiset(a) <= multiset(b)
    ensures forall x :: x in a ==> x in b
    ensures multiset(a) == multiset(b) ==> forall x :: x in a <==> x in b
  {
    forall x | x in a ensures x in b { assert x in multiset(a); }
    if multiset(a) == multiset(b) { forall x ensures x in a <==> x in b { assert x in multiset(a) <==> x in multiset(b); } }
  }

  lemma StillDistinct<T>(a: seq<T>, b: seq<T>)
    requires multiset(a) <= multiset(b) && Distinct(b)
    ensures Distinct(a)
  {
    forall i, j | 0 <= i < j < |a| ensures a[i] != a[j] {
      if a[i] == a[j] {
        TiesApart.Twice(a, i, j);
        TiesApart.OnceEach(b, a[i]);
      }
    }
  }

  lemma DedupRowsAre(rows: seq<OutRow>)
    ensures Distinct(Dedup(rows)) && forall x :: x in Dedup(rows) <==> x in rows
  {
    forall i, j | 0 <= i < j < |Dedup(rows)| ensures Dedup(rows)[i] != Dedup(rows)[j] { DedupDistinct(rows, i, j); }
    forall x ensures x in Dedup(rows) <==> x in rows { DedupHas(rows, x); }
  }

  /** The rows of a grouped answer are the rows of the groups that pass HAVING: none else, and without LIMIT all of them;
      with DISTINCT no row twice; without ORDER BY and DISTINCT in the order of the keys, the first ones under LIMIT. */
  lemma GroupedAnswer(sel: Select, rows: seq<Row>, cols: seq<string>)
    requires AggregateFinish(sel, rows, cols).Ok?
    ensures var out := AggregateFinish(sel, rows, cols).value.rows;
      && (forall x :: x in out ==> exists k :: IsRowOf(x, sel, rows, cols, k))
      && (sel.limit == None ==>
            forall k :: k in OutputKeys(sel.groupBy, rows, cols) && Passing(sel, rows, cols)(k) ==>
              exists x :: x in out && IsRowOf(x, sel, rows, cols, k))
      && (sel.distinct ==> Distinct(out))
      && (!sel.distinct ==> |out| == Limited(sel.limit, |PassingKeys(sel, rows, cols)|))
      && (!sel.distinct && sel.orderBy == None ==>
            forall i :: 0 <= i < |out| ==> IsRowOf(out[i], sel, rows, cols, PassingKeys(sel, rows, cols)[i]))
  {
    var groups := GroupRows(sel, OutputKeys(sel.groupBy, rows, cols), rows, cols).value;
    var out := AggregateFinish(sel, rows, cols).value.rows;
    GroupedMembers(sel, rows, cols, groups, out);
    GroupsInOrder(sel, rows, cols);
    hide IsRowOf, AggregateFinish, GroupRows, OutputKeys, Passing, PassingKeys, Distinct, Limited;
    EachOfSomeKey(sel, rows, cols, groups, out);
    if sel.limit == None { EveryKeyHasOne(sel, rows, cols, groups, out); }
  }

  lemma GroupedMembers(sel: Select, rows: seq<Row>, cols: seq<string>, groups: seq<OutRow>, out: seq<OutRow>)
    requires AggregateFinish(sel, rows, cols) == Ok(Output(Labels(sel.columns), out))
    requires GroupRows(sel, OutputKeys(sel.groupBy, rows, cols), rows, cols) == Ok(groups)
    ensures PlainGrouped(sel.columns, sel.groupBy)
    ensures (forall x :: x in out ==> x in groups) && (sel.limit == None ==> forall x :: x in groups ==> x in out)
    ensures sel.distinct ==> Distinct(out)
    ensures !sel.distinct ==> |out| == Limited(sel.limit, |groups|) && (sel.orderBy == None ==> out == groups[..|out|])
  {
    GroupedParts(sel, rows, cols);
    hide AggregateFinish, GroupRows, OrderLimit, OutputKeys, Dedup, Labels, PlainGrouped, Distinct, Limited;
    var all := if sel.distinct then Dedup(groups) else groups;
    DedupRowsAre(groups);
    Shown(all, Labels(sel.columns), sel.orderBy, sel.limit);
    SameMembers(out, all);
    if sel.distinct { StillDistinct(out, all); }
  }

  lemma EachOfSomeKey(sel: Select, rows: seq<Row>, cols: seq<string>, groups: seq<OutRow>, out: seq<OutRow>)
    requires forall x :: x in out ==> x in groups
    requires var keys := PassingKeys(sel, rows, cols);
      |groups| == |keys| && forall i :: 0 <= i < |keys| ==> IsRowOf(groups[i], sel, rows, cols, keys[i])
    ensures forall x :: x in out ==> exists k :: IsRowOf(x, sel, rows, cols, k)
  {
    hide IsRowOf, PassingKeys;
    var keys := PassingKeys(sel, rows, cols);
    forall x | x in out ensures exists k :: IsRowOf(x, sel, rows, cols, k) {
      var i :| 0 <= i < |groups| && groups[i] == x;
      assert IsRowOf(groups[i], sel, rows, cols, keys[i]);
    }
  }

  lemma EveryKeyHasOne(sel: Select, rows: seq<Row>, cols: seq<string>, groups: seq<OutRow>, out: seq<OutRow>)
    requires forall x :: x in groups ==> x in out
    requires var keys := PassingKeys(sel, rows, cols);
      |groups| == |keys| && forall i :: 0 <= i < |keys| ==> IsRowOf(groups[i], sel, rows, cols, keys[i])
    ensures forall k :: k in OutputKeys(sel.groupBy, rows, cols) && Passing(sel, rows, cols)(k) ==>
      exists x :: x in out && IsRowOf(x, sel, rows, cols, k)
  {
    hide IsRowOf, PassingKeys, OutputKeys, Passing;
    var keys := PassingKeys(sel, rows, cols);
    forall k | k in OutputKeys(sel.groupBy, rows, cols) && Passing(sel, rows, cols)(k)
      ensures exists x :: x in out && IsRowOf(x, sel, rows, cols, k)
    {
      PassingKeysHave(sel, rows, cols, k);
      var i :| 0 <= i < |keys| && keys[i] == k;
      assert groups[i] in groups && groups[i] in out && IsRowOf(groups[i], sel, rows, cols, k);
    }
  }

  /** The stages of a grouped answer that is no error. */
  lemma GroupedParts(sel: Select, rows: seq<Row>, cols: seq<string>)
    requires AggregateFinish(sel, rows, cols).Ok?
    ensures PlainGrouped(sel.columns, sel.groupBy) && GroupRows(sel, OutputKeys(sel.groupBy, rows, cols), rows, cols).Ok?
    ensures var groups := GroupRows(sel, OutputKeys(sel.groupBy, rows, cols), rows, cols).value;
      OrderLimit(if sel.distinct then Dedup(groups) else groups, Labels(sel.columns), sel.orderBy, sel.limit)
        == Ok(AggregateFinish(sel, rows, cols).value.rows)
  {
    hide GroupRows, OrderLimit, OutputKeys, Dedup, Labels, PlainGrouped;
  }

  /** The columns of a grouped answer. */
  lemma GroupedColumns(sel: Select, rows: seq<Row>, cols: seq<string>)
    requires AggregateFinish(sel, rows, cols).Ok?
    ensures var names := AggregateFinish(sel, rows, cols).value.columns;
      |names| == |sel.columns| && forall j :: 0 <= j < |names| ==>
        names[j] == match sel.columns[j] case Column(c) => c case AggItem(a) => AggLabel(a)
  {
    hide GroupRows, OrderLimit, OutputKeys;
  }

  lemma {:induction false} GroupRowSucceeds(items: seq<Item>, g: seq<Row>, cols: seq<string>)
    requires forall j :: 0 <= j < |items| ==> ItemCell(items[j], g, cols).Ok?
    ensures GroupRow(items, g, cols).Ok?
  {
    if items != [] { GroupRowSucceeds(items[..|items| - 1], g, cols); }
  }

  lemma {:induction false} GroupRowsSucceed(sel: Select, keys: seq<seq<int>>, rows: seq<Row>, cols: seq<string>)
    requires forall i :: 0 <= i < |keys| ==>
      var g := GroupOf(rows, KeyOf(cols, sel.groupBy), keys[i]);
      Passes(sel.having, g, cols, sel.groupBy).Ok? && GroupRow(sel.columns, g, cols).Ok?
    ensures GroupRows(sel, keys, rows, cols).Ok?
  {
    hide GroupOf, KeyOf, Passes, GroupRow;
    if keys != [] { GroupRowsSucceed(sel, keys[..|keys| - 1], rows, cols); }
  }

  /** What a grouped query must not do, besides what HAVING may raise: select everything, select a column that is not
      grouped, order by something it does not select. */
  lemma GroupedSucceeds(sel: Select, rows: seq<Row>, cols: seq<string>)
    requires forall j :: 0 <= j < |sel.columns| && sel.columns[j].AggItem? ==>
      sel.columns[j].agg.func == Count || sel.columns[j].agg.arg.Some?
    requires forall k :: k in OutputKeys(sel.groupBy, rows, cols) ==>
      Passes(sel.having, GroupOf(rows, KeyOf(cols, sel.groupBy), k), cols, sel.groupBy).Ok?
    ensures AggregateFinish(sel, rows, cols).Ok? <==>
      && !sel.Star()
      && (forall j :: 0 <= j < |sel.columns| && sel.columns[j].Column? ==> sel.columns[j].name in sel.groupBy)
      && (sel.orderBy.Some? ==> sel.orderBy.value.column in Labels(sel.columns))
    ensures sel.Star() ==> AggregateFinish(sel, rows, cols) == Err(StarWithGroups)
    ensures !sel.Star() && !PlainGrouped(sel.columns, sel.groupBy) ==> AggregateFinish(sel, rows, cols) == Err(NotGrouped)
  {
    if !sel.Star() && PlainGrouped(sel.columns, sel.groupBy) {
      var keys := OutputKeys(sel.groupBy, rows, cols);
      KeysAre(sel.groupBy, rows, cols);
      hide GroupOf, KeyOf, OutputKeys, Passes;
      forall i | 0 <= i < |keys| ensures
        var g := GroupOf(rows, KeyOf(cols, sel.groupBy), keys[i]);
        Passes(sel.having, g, cols, sel.groupBy).Ok? && GroupRow(sel.columns, g, cols).Ok?
      {
        assert keys[i] in keys;
        var g := GroupOf(rows, KeyOf(cols, sel.groupBy), keys[i]);
        forall j | 0 <= j < |sel.columns| ensures ItemCell(sel.columns[j], g, cols).Ok? {
          if sel.columns[j].AggItem? { AggregateFails(sel.columns[j].agg, g, cols); }
        }
        GroupRowSucceeds(sel.columns, g, cols);
      }
      hide ItemCell, GroupRow;
      GroupRowsSucceed(sel, keys, rows, cols);
    }
  }

  // ---- HAVING ------------------------------------------------------------

  /** A group passes when there is no HAVING or it is true of the group; an error in it is an error of the query. */
  lemma HavingDecides(sel: Select, rows: seq<Row>, cols: seq<string>, k: seq<int>)
    ensures var g := GroupOf(rows, KeyOf(cols, sel.groupBy), k);
      && (sel.having == None ==> Passing(sel, rows, cols)(k))
      && (sel.having.Some? ==>
            (Passing(sel, rows, cols)(k) <==> EvalHaving(sel.having.value, g, cols, sel.groupBy) == Ok(true))
            && (EvalHaving(sel.having.value, g, cols, sel.groupBy).Err? ==>
                  k in OutputKeys(sel.groupBy, rows, cols) ==> AggregateFinish(sel, rows, cols).Err?))
  {
    hide GroupOf, KeyOf, OutputKeys, EvalHaving, OrderLimit;
    if sel.having.Some? && Passes(sel.having, GroupOf(rows, KeyOf(cols, sel.groupBy), k), cols, sel.groupBy).Err? {
      if k in OutputKeys(sel.groupBy, rows, cols) { FailingGroup(sel, OutputKeys(sel.groupBy, rows, cols), rows, cols, k); }
    }
  }

  lemma {:induction false} FailingGroup(sel: Select, keys: seq<seq<int>>, rows: seq<Row>, cols: seq<string>, k: seq<int>)
    requires k in keys && Passes(sel.having, GroupOf(rows, KeyOf(cols, sel.groupBy), k), cols, sel.groupBy).Err?
    ensures GroupRows(sel, keys, rows, cols).Err?
  {
    hide GroupOf, KeyOf, Passes, GroupRow;
    var n := |keys| - 1;
    if keys[n] != k {
      assert keys == keys[..n] + [keys[n]];
      FailingGroup(sel, keys[..n], rows, cols, k);
    }
  }

  /** What the operands of a HAVING comparison are. */
  lemma HavingOperands(e: Expr, rows: seq<Row>, cols: seq<string>, groupBy: seq<string>, k: seq<int>)
    ensures var g := GroupOf(rows, KeyOf(cols, groupBy), k); var v := HavingValue(e, g, cols, groupBy);
      && (e.Aggregate? && v.Ok? ==> v.value.Num? && IsAggregate(v.value.x, e.agg, g, cols))
      && (e.ColumnRef? && e.name in groupBy && g != [] ==>
            v.Ok? && v.value.Num? && forall r :: r in g ==> v.value.x == Get(cols, e.name, r) as real)
      && (e.ColumnRef? && e.name !in groupBy ==> v == Err(NotGrouped))
      && (e.Literal? && IsNumber(e.value) ==> v == Ok(Num(NumberOf(e.value))))
      && (e.Literal? && e.value.StrV? ==> v == Ok(Scalar.Text(e.value.s)))
  {
    var g := GroupOf(rows, KeyOf(cols, groupBy), k);
    if e.Aggregate? && ComputeAgg(e.agg, g, cols).Ok? { AggregateIs(e.agg, g, cols); }
    hide GroupOf, KeyOf, IsAggregate, ComputeAgg, Get;
    if e.ColumnRef? && e.name in groupBy && g != [] {
      forall r | r in g ensures Get(cols, e.name, g[0]) == Get(cols, e.name, r) {
        SharedValue(rows, cols, groupBy, k, e.name, g[0], r);
      }
    }
  }

  /** Numbers compare as numbers. */
  lemma HavingNumbers(l: Expr, r: Expr, g: seq<Row>, cols: seq<string>, groupBy: seq<string>, x: real, y: real)
    requires HavingValue(l, g, cols, groupBy) == Ok(Num(x)) && HavingValue(r, g, cols, groupBy) == Ok(Num(y))
    ensures EvalHaving(BinaryOp(Eq, l, r), g, cols, groupBy) == Ok(x == y)
    ensures EvalHaving(BinaryOp(Ne, l, r), g, cols, groupBy) == Ok(x != y)
    ensures EvalHaving(BinaryOp(Lt, l, r), g, cols, groupBy) == Ok(x < y)
    ensures EvalHaving(BinaryOp(Gt, l, r), g, cols, groupBy) == Ok(x > y)
    ensures EvalHaving(BinaryOp(Le, l, r), g, cols, groupBy) == Ok(x <= y)
    ensures EvalHaving(BinaryOp(Ge, l, r), g, cols, groupBy) == Ok(x >= y)
  {
    hide HavingValue;
  }

  /** `a` comes before `b` in a dictionary. */
  ghost predicate Earlier(a: string, b: string) {
    exists i :: 0 <= i <= |a| && i < |b| && a[..i] == b[..i] && (i == |a| || a[i] < b[i])
  }

  lemma {:induction false} StrLessIs(a: string, b: string)
    ensures StrLess(a, b) <==> Earlier(a, b)
    decreases |b|
  {
    if b != "" && a != "" && a[0] == b[0] {
      StrLessIs(a[1..], b[1..]);
      if i :| 0 <= i <= |a[1..]| && i < |b[1..]| && a[1..][..i] == b[1..][..i] && (i == |a[1..]| || a[1..][i] < b[1..][i]) {
        assert a[..i + 1] == [a[0]] + a[1..][..i] && b[..i + 1] == [b[0]] + b[1..][..i];
        assert a[..i + 1] == b[..i + 1];
      }
      if i :| 0 <= i <= |a| && i < |b| && a[..i] == b[..i] && (i == |a| || a[i] < b[i]) {
        assert i > 0;
        assert a[1..][..i - 1] == a[..i][1..] && b[1..][..i - 1] == b[..i][1..];
        assert Earlier(a[1..], b[1..]) by { assert a[1..][..i - 1] == b[1..][..i - 1]; }
      }
    } else if b != "" && a == "" {
      assert a[..0] == b[..0];
    } else if b != "" && a[0] < b[0] {
      assert a[..0] == b[..0];
    } else if b != "" {
      forall i | 0 < i <= |a| && i < |b| ensures a[..i] != b[..i] { assert a[..i][0] != b[..i][0]; }
    }
  }

  /** Texts compare as in a dictionary. */
  lemma HavingTexts(l: Expr, r: Expr, g: seq<Row>, cols: seq<string>, groupBy: seq<string>, x: string, y: string)
    requires HavingValue(l, g, cols, groupBy) == Ok(Scalar.Text(x)) && HavingValue(r, g, cols, groupBy) == Ok(Scalar.Text(y))
    ensures EvalHaving(BinaryOp(Eq, l, r), g, cols, groupBy) == Ok(x == y)
    ensures EvalHaving(BinaryOp(Ne, l, r), g, cols, groupBy) == Ok(x != y)
    ensures EvalHaving(BinaryOp(Lt, l, r), g, cols, groupBy) == Ok(Earlier(x, y))
    ensures EvalHaving(BinaryOp(Gt, l, r), g, cols, groupBy) == Ok(!Earlier(x, y) && x != y)
    ensures EvalHaving(BinaryOp(Le, l, r), g, cols, groupBy) == Ok(Earlier(x, y) || x == y)
    ensures EvalHaving(BinaryOp(Ge, l, r), g, cols, groupBy) == Ok(!Earlier(x, y))
  {
    StrLessIs(x, y);
    hide HavingValue, StrLess, Earlier;
  }

  /** A text and a number are not equal, and cannot be ordered. */
  lemma HavingMixed(op: Op, l: Expr, r: Expr, g: seq<Row>, cols: seq<string>, groupBy: seq<string>)
    requires IsComparison(op)
    requires HavingValue(l, g, cols, groupBy).Ok? && HavingValue(r, g, cols, groupBy).Ok?
    requires HavingValue(l, g, cols, groupBy).value.Num? != HavingValue(r, g, cols, groupBy).value.Num?
    ensures EvalHaving(BinaryOp(op, l, r), g, cols, groupBy)
         == if op == Eq then Ok(false) else if op == Ne then Ok(true) else Err(TypeError)
  {
    hide HavingValue;
  }

  /** AND and OR stop at the first operand that decides, and NOT turns the answer round. */
  lemma HavingConnectives(a: Expr, b: Expr, g: seq<Row>, cols: seq<string>, groupBy: seq<string>)
    ensures var x, y := EvalHaving(a, g, cols, groupBy), EvalHaving(b, g, cols, groupBy);
      && EvalHaving(BinaryOp(AndOp, a, b), g, cols, groupBy) == (if x == Ok(true) then y else x)
      && EvalHaving(BinaryOp(OrOp, a, b), g, cols, groupBy) == (if x == Ok(false) then y else x)
      && EvalHaving(Not(a), g, cols, groupBy) == (if x.Ok? then Ok(!x.value) else x)
  {
    hide HavingValue;
  }

  // ---- The rows of a plain answer ----------------------------------------

  /** The cells of a row are the row's values in the columns they stand under. */
  ghost predicate Shows(x: OutRow, names: seq<string>, r: Row, cols: seq<string>) {
    |x| == |names| && forall j :: 0 <= j < |names| ==> x[j] == Get(cols, names[j], r) as real
  }

  /** Without ORDER BY the kept rows are the first ones. */
  lemma KeptFirst(sel: Select, rows: seq<Row>, cols: seq<string>)
    requires sel.orderBy == None
    ensures Kept(sel, rows, cols) == rows[..Limited(sel.limit, |rows|)]
  {
    assert rows[..|rows|] == rows;
  }

  /** Kept rows are rows. */
  lemma KeptAreRows(sel: Select, rows: seq<Row>, cols: seq<string>)
    ensures |Kept(sel, rows, cols)| == Limited(sel.limit, |rows|) && multiset(Kept(sel, rows, cols)) <= multiset(rows)
  {
    if sel.orderBy == None {
      KeptFirst(sel, rows, cols);
      var n := Limited(sel.limit, |rows|);
      assert rows == rows[..n] + rows[n..];
    } else {
      var key, desc := SortKey(cols, sel.orderBy.value.column), sel.orderBy.value.descending;
      KeptIsSortedPrefix(sel, rows, cols);
      SortBySorts(rows, key, desc);
      hide Kept, SortBy;
      assert |Map(key, Kept(sel, rows, cols))| == |Take(Map(key, SortBy(rows, key, desc)), sel.limit)|;
    }
  }

  /** The names over a plain answer: all columns in schema order, or the selected ones. */
  lemma PlainColumns(sel: Select, rows: seq<Row>, cols: seq<string>)
    requires PlainFinish(sel, rows, cols).Ok? && !IsAggregated(sel)
    ensures var names := PlainFinish(sel, rows, cols).value.columns;
      if sel.Star() then names == ["ts", "src_ip", "dst_ip", "src_port", "dst_port", "proto", "size", "flags", "ttl"]
      else |names| == |sel.columns| && forall j :: 0 <= j < |names| ==> sel.columns[j] == Column(names[j])
  {
    hide OrderLimit, Kept;
  }

  /** Row i of a plain answer shows the kept row i. */
  lemma PlainAnswer(sel: Select, rows: seq<Row>, cols: seq<string>)
    requires !sel.distinct
    ensures PlainFinish(sel, rows, cols).Ok?
    ensures var out, kept := PlainFinish(sel, rows, cols).value, Kept(sel, rows, cols);
      |out.rows| == |kept| && forall i :: 0 <= i < |kept| ==> Shows(out.rows[i], out.columns, kept[i], cols)
  {
    hide Kept, OutColumns, Get;
  }

  lemma DistinctFinish(sel: Select, rows: seq<Row>, cols: seq<string>)
    requires sel.distinct
    ensures var names := OutColumns(sel); var shown := OrderLimit(Dedup(Map(Projector(cols, names), rows)), names, sel.orderBy, sel.limit);
      && (shown.Ok? <==> (sel.orderBy.Some? ==> sel.orderBy.value.column in names))
      && (shown.Err? ==> PlainFinish(sel, rows, cols).Err?)
      && (shown.Ok? ==> PlainFinish(sel, rows, cols) == Ok(Output(names, shown.value)))
  {
    hide OutColumns, Dedup, Kept;
  }

  lemma ProjectedShows(names: seq<string>, rows: seq<Row>, cols: seq<string>)
    ensures forall x :: x in Map(Projector(cols, names), rows) ==> exists r :: r in rows && Shows(x, names, r, cols)
    ensures forall r :: r in rows ==> exists x :: x in Map(Projector(cols, names), rows) && Shows(x, names, r, cols)
  {
    hide Get;
    var all := Map(Projector(cols, names), rows);
    forall x | x in all ensures exists r :: r in rows && Shows(x, names, r, cols) {
      var i :| 0 <= i < |all| && all[i] == x;
      assert rows[i] in rows && Shows(x, names, rows[i], cols);
    }
    forall r | r in rows ensures exists x :: x in all && Shows(x, names, r, cols) {
      var i :| 0 <= i < |rows| && rows[i] == r;
      assert all[i] in all && Shows(all[i], names, r, cols);
    }
  }

  /** With DISTINCT no row is shown twice, every shown row shows some row, and without LIMIT every row is shown. */
  lemma DistinctAnswer(sel: Select, rows: seq<Row>, cols: seq<string>)
    requires sel.distinct
    ensures PlainFinish(sel, rows, cols).Ok? <==> (sel.orderBy.Some? ==> sel.orderBy.value.column in OutColumns(sel))
    ensures PlainFinish(sel, rows, cols).Ok? ==> var out := PlainFinish(sel, rows, cols).value;
      && out.columns == OutColumns(sel) && Distinct(out.rows)
      && (forall x :: x in out.rows ==> exists r :: r in rows && Shows(x, out.columns, r, cols))
      && (sel.limit == None ==> forall r :: r in rows ==> exists x :: x in out.rows && Shows(x, out.columns, r, cols))
  {
    DistinctFinish(sel, rows, cols);
    if PlainFinish(sel, rows, cols).Ok? {
      var names := OutColumns(sel);
      var all := Map(Projector(cols, names), rows);
      hide PlainFinish, OutColumns, Projector, Dedup, OrderLimit, Shows;
      ProjectedShows(names, rows, cols);
      DedupRowsAre(all);
      Shown(Dedup(all), names, sel.orderBy, sel.limit);
      var out := OrderLimit(Dedup(all), names, sel.orderBy, sel.limit).value;
      SameMembers(out, Dedup(all));
      StillDistinct(out, Dedup(all));
    }
  }
}
