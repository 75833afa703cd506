/** Column pruning (packetql/query/planner.py): which columns a query reads, and why those are enough. */
module Planner {
  import opened Wrappers
  import opened Seqs
  import opened Ast
  import opened Predicate
  import opened IndexPlan
  import opened Relation
  import opened Columnar
  import opened Finish
  import TopN

  datatype Access = Scan | Index(candidates: seq<nat>)

  datatype Plan = Plan(readColumns: seq<string>, where: Option<Expr>, access: Access)

  // ---- Referenced columns ------------------------------------------------

  function ArgOf(a: Agg): set<string> {
    if a.arg == None then {} else {a.arg.value}
  }

  /** `having_columns` */
  function HavingColumns(e: Expr): set<string> {
    match e
    case Aggregate(a) => ArgOf(a)
    case ColumnRef(c) => {c}
    case BinaryOp(_, l, r) => HavingColumns(l) + HavingColumns(r)
    case Not(x) => HavingColumns(x)
    case Literal(_) => {}
  }

  function ItemColumns(i: Item): set<string> {
    if i.AggItem? then ArgOf(i.agg) else {i.name}
  }

  function SelectColumns(items: seq<Item>): set<string> {
    set i, c | 0 <= i < |items| && c in ItemColumns(items[i]) :: c
  }

  function SetOf(s: seq<string>): set<string> {
    set c | c in s
  }

  /** `referenced_columns` */
  function Referenced(sel: Select): set<string> {
    (if sel.Star() then NAMES else SelectColumns(sel.columns))
    + (if sel.where == None then {} else ColumnsIn(sel.where.value))
    + SetOf(sel.groupBy)
    + (if sel.having == None then {} else HavingColumns(sel.having.value))
    + (if sel.orderBy == None || IsAggregated(sel) then {} else {sel.orderBy.value.column})
  }

  method CollectReferenced(sel: Select) returns (cols: set<string>)
    ensures cols == Referenced(sel)
  {
    cols := {};
    if sel.Star() {
      cols := SetOf(COLUMN_NAMES);
      NamesOfSchema();
    } else {
      for i := 0 to |sel.columns|
        invariant cols == SelectColumns(sel.columns[..i])
      {
        assert sel.columns[..i + 1] == sel.columns[..i] + [sel.columns[i]];
        cols := cols + ItemColumns(sel.columns[i]);
      }
      assert sel.columns[..|sel.columns|] == sel.columns;
    }
    if sel.where.Some? { cols := cols + ColumnsIn(sel.where.value); }
    cols := cols + SetOf(sel.groupBy);
    if sel.having.Some? { cols := cols + HavingColumns(sel.having.value); }
    if sel.orderBy.Some? && !IsAggregated(sel) { cols := cols + {sel.orderBy.value.column}; }
  }

  lemma NamesOfSchema()
    ensures SetOf(COLUMN_NAMES) == NAMES
  {
    assert COLUMN_NAMES[0] == "ts" && COLUMN_NAMES[1] == "src_ip" && COLUMN_NAMES[2] == "dst_ip";
    assert COLUMN_NAMES[3] == "src_port" && COLUMN_NAMES[4] == "dst_port" && COLUMN_NAMES[5] == "proto";
    assert COLUMN_NAMES[6] == "size" && COLUMN_NAMES[7] == "flags" && COLUMN_NAMES[8] == "ttl";
  }

  /** The first of the narrowest columns. */
  function Narrowest(n: nat): (k: nat)
    requires 1 <= n <= COLUMNS
    ensures k < n
    ensures forall j :: 0 <= j < n ==> Width(k) <= Width(j)
    ensures forall j :: 0 <= j < k ==> Width(k) < Width(j)
  {
    if n == 1 then 0
    else
      var k := Narrowest(n - 1);
      if Width(n - 1) < Width(k) then n - 1 else k
  }

  lemma NarrowestIsProto()
    ensures Narrowest(COLUMNS) == 5 && COLUMN_NAMES[5] == "proto"
  {
    assert Width(5) == 1;
  }

  /** The columns to read, in schema order; a query that names none still needs the rows. */
  function ReadColumns(referenced: set<string>): seq<string> {
    var read := Filter(COLUMN_NAMES, c => c in referenced);
    if read == [] then [COLUMN_NAMES[Narrowest(COLUMNS)]] else read
  }

  lemma ReadHas(referenced: set<string>, c: string)
    requires referenced <= NAMES
    ensures c in Filter(COLUMN_NAMES, x => x in referenced) <==> c in referenced
  {
    NamesOfSchema();
    assert c in NAMES <==> c in COLUMN_NAMES by { assert c in SetOf(COLUMN_NAMES) <==> c in COLUMN_NAMES; }
    FilterHas(COLUMN_NAMES, x => x in referenced, c);
  }

  /** Every referenced column is read, nothing else unless nothing is referenced, and something always is. */
  lemma ReadColumnsExact(referenced: set<string>)
    requires referenced <= NAMES
    ensures ReadColumns(referenced) != []
    ensures forall c :: c in ReadColumns(referenced) ==> c in NAMES
    ensures if referenced != {} then SetOf(ReadColumns(referenced)) == referenced else ReadColumns(referenced) == ["proto"]
  {
    var read := Filter(COLUMN_NAMES, c => c in referenced);
    forall c ensures c in read <==> c in referenced { ReadHas(referenced, c); }
    if read == [] {
      assert referenced == {};
      NamesOfSchema();
      NarrowestIsProto();
      assert COLUMN_NAMES[Narrowest(COLUMNS)] in SetOf(COLUMN_NAMES);
    } else {
      assert read[0] in read;
    }
  }

  /** They are read in schema order. */
  lemma ReadInOrder(referenced: set<string>, i: nat, j: nat)
    requires i < j < |ReadColumns(referenced)|
    ensures var read := ReadColumns(referenced);
      exists a, b :: 0 <= a < b < COLUMNS && COLUMN_NAMES[a] == read[i] && COLUMN_NAMES[b] == read[j]
  {
    FilterInOrder(COLUMN_NAMES, c => c in referenced, i, j);
  }

  // ---- Pruned rows -------------------------------------------------------

  /** A full row cut down to some columns. */
  function Prune(cols: seq<string>, full: Row): Row {
    seq(|cols|, i requires 0 <= i < |cols| => Get(COLUMN_NAMES, cols[i], full))
  }

  function Pruner(cols: seq<string>): Row -> Row {
    r => Prune(cols, r)
  }

  lemma GetPruned(cols: seq<string>, c: string, full: Row)
    requires c in cols
    ensures Get(cols, c, Prune(cols, full)) == Get(COLUMN_NAMES, c, full)
  {
  }

  lemma MapPruned(cols: seq<string>, c: string, fulls: seq<Row>)
    requires c in cols
    ensures Map(Getter(cols, c), Map(Pruner(cols), fulls)) == Map(Getter(COLUMN_NAMES, c), fulls)
  {
    forall i | 0 <= i < |fulls| ensures Get(cols, c, Prune(cols, fulls[i])) == Get(COLUMN_NAMES, c, fulls[i]) {
      GetPruned(cols, c, fulls[i]);
    }
  }

  lemma GroupKeyPruned(cols: seq<string>, groupBy: seq<string>, full: Row)
    requires forall c :: c in groupBy ==> c in cols
    ensures GroupKey(cols, groupBy, Prune(cols, full)) == GroupKey(COLUMN_NAMES, groupBy, full)
  {
    forall i | 0 <= i < |groupBy|
      ensures Get(cols, groupBy[i], Prune(cols, full)) == Get(COLUMN_NAMES, groupBy[i], full)
    {
      GetPruned(cols, groupBy[i], full);
    }
  }

  lemma GroupPruned(cols: seq<string>, groupBy: seq<string>, fulls: seq<Row>, k: seq<int>)
    requires forall c :: c in groupBy ==> c in cols
    ensures GroupOf(Map(Pruner(cols), fulls), KeyOf(cols, groupBy), k)
         == Map(Pruner(cols), GroupOf(fulls, KeyOf(COLUMN_NAMES, groupBy), k))
  {
    var p, q := KeyIs(KeyOf(COLUMN_NAMES, groupBy), k), KeyIs(KeyOf(cols, groupBy), k);
    forall r: Row ensures q(Pruner(cols)(r)) == p(r) { GroupKeyPruned(cols, groupBy, r); }
    FilterMap(Pruner(cols), fulls, p, q);
  }

  lemma KeysPruned(cols: seq<string>, groupBy: seq<string>, fulls: seq<Row>)
    requires forall c :: c in groupBy ==> c in cols
    ensures OutputKeys(groupBy, Map(Pruner(cols), fulls), cols) == OutputKeys(groupBy, fulls, COLUMN_NAMES)
  {
    var a, b := Map(KeyOf(cols, groupBy), Map(Pruner(cols), fulls)), Map(KeyOf(COLUMN_NAMES, groupBy), fulls);
    forall i | 0 <= i < |fulls| ensures a[i] == b[i] { GroupKeyPruned(cols, groupBy, fulls[i]); }
    assert a == b;
  }

  lemma AggPruned(a: Agg, group: seq<Row>, cols: seq<string>)
    requires forall c :: c in ArgOf(a) ==> c in cols
    ensures ComputeAgg(a, Map(Pruner(cols), group), cols) == ComputeAgg(a, group, COLUMN_NAMES)
  {
    if a.arg.Some? {
      MapPruned(cols, a.arg.value, group);
    }
  }

  lemma {:induction false} HavingPruned(e: Expr, group: seq<Row>, cols: seq<string>, groupBy: seq<string>)
    requires forall c :: c in HavingColumns(e) ==> c in cols
    ensures EvalHaving(e, Map(Pruner(cols), group), cols, groupBy) == EvalHaving(e, group, COLUMN_NAMES, groupBy)
    ensures HavingValue(e, Map(Pruner(cols), group), cols, groupBy) == HavingValue(e, group, COLUMN_NAMES, groupBy)
  {
    match e
    case Aggregate(a) => AggPruned(a, group, cols);
    case ColumnRef(c) => if group != [] { GetPruned(cols, c, group[0]); }
    case BinaryOp(op, l, r) =>
      HavingPruned(l, group, cols, groupBy);
      HavingPruned(r, group, cols, groupBy);
    case Not(x) => HavingPruned(x, group, cols, groupBy);
    case Literal(_) =>
  }

  lemma {:induction false} GroupRowPruned(items: seq<Item>, group: seq<Row>, cols: seq<string>)
    requires forall c :: c in SelectColumns(items) ==> c in cols
    ensures GroupRow(items, Map(Pruner(cols), group), cols) == GroupRow(items, group, COLUMN_NAMES)
  {
    if items != [] {
      var n := |items| - 1;
      forall c | c in SelectColumns(items[..n]) ensures c in cols {
        var i :| 0 <= i < n && c in ItemColumns(items[i]);
        assert c in SelectColumns(items);
      }
      GroupRowPruned(items[..n], group, cols);
      forall c | c in ItemColumns(items[n]) ensures c in cols { assert c in SelectColumns(items); }
      if items[n].AggItem? {
        AggPruned(items[n].agg, group, cols);
      } else if group != [] {
        GetPruned(cols, items[n].name, group[0]);
      }
    }
  }

  ghost predicate Covers(cols: seq<string>, sel: Select) {
    forall c :: c in Referenced(sel) ==> c in cols
  }

  lemma {:induction false} GroupRowsPruned(sel: Select, keys: seq<seq<int>>, fulls: seq<Row>, cols: seq<string>)
    requires Covers(cols, sel) && !sel.Star()
    ensures GroupRows(sel, keys, Map(Pruner(cols), fulls), cols) == GroupRows(sel, keys, fulls, COLUMN_NAMES)
  {
    if keys != [] {
      var n := |keys| - 1;
      GroupRowsPruned(sel, keys[..n], fulls, cols);
      GroupPruned(cols, sel.groupBy, fulls, keys[n]);
      var group := GroupOf(fulls, KeyOf(COLUMN_NAMES, sel.groupBy), keys[n]);
      GroupRowPruned(sel.columns, group, cols);
      if sel.having.Some? { HavingPruned(sel.having.value, group, cols, sel.groupBy); }
    }
  }

  lemma AggregatePruned(sel: Select, fulls: seq<Row>, cols: seq<string>)
    requires Covers(cols, sel)
    ensures AggregateFinish(sel, Map(Pruner(cols), fulls), cols) == AggregateFinish(sel, fulls, COLUMN_NAMES)
  {
    if !sel.Star() {
      KeysPruned(cols, sel.groupBy, fulls);
      GroupRowsPruned(sel, OutputKeys(sel.groupBy, fulls, COLUMN_NAMES), fulls, cols);
    }
  }

  lemma ProjectPruned(cols: seq<string>, outCols: seq<string>, fulls: seq<Row>)
    requires forall c :: c in outCols ==> c in cols
    ensures Map(Projector(cols, outCols), Map(Pruner(cols), fulls)) == Map(Projector(COLUMN_NAMES, outCols), fulls)
  {
    forall i | 0 <= i < |fulls|
      ensures Project(cols, outCols, Prune(cols, fulls[i])) == Project(COLUMN_NAMES, outCols, fulls[i])
    {
      forall j | 0 <= j < |outCols|
        ensures Get(cols, outCols[j], Prune(cols, fulls[i])) == Get(COLUMN_NAMES, outCols[j], fulls[i])
      {
        GetPruned(cols, outCols[j], fulls[i]);
      }
    }
  }

  lemma KeptPruned(sel: Select, fulls: seq<Row>, cols: seq<string>)
    requires Covers(cols, sel) && !IsAggregated(sel)
    ensures Kept(sel, Map(Pruner(cols), fulls), cols) == Map(Pruner(cols), Kept(sel, fulls, COLUMN_NAMES))
  {
    if sel.orderBy.Some? {
      var c, desc := sel.orderBy.value.column, sel.orderBy.value.descending;
      var ka, kb := SortKey(COLUMN_NAMES, c), SortKey(cols, c);
      forall r: Row ensures kb(Pruner(cols)(r)) == ka(r) { GetPruned(cols, c, r); }
      if sel.limit.Some? {
        TopN.TopMap(Pruner(cols), fulls, sel.limit.value, ka, kb, desc);
      } else {
        SortByMap(Pruner(cols), fulls, ka, kb, desc);
      }
    }
  }

  lemma OutColumnsRead(sel: Select, cols: seq<string>)
    requires Covers(cols, sel) && !IsAggregated(sel)
    ensures forall c :: c in OutColumns(sel) ==> c in cols
  {
    NamesOfSchema();
    forall c | c in OutColumns(sel) ensures c in cols {
      if sel.Star() {
        assert c in SetOf(COLUMN_NAMES);
      } else {
        var i :| 0 <= i < |sel.columns| && Labels(sel.columns)[i] == c;
        assert c in ItemColumns(sel.columns[i]);
        assert c in SelectColumns(sel.columns);
      }
    }
  }

  /** Finishing pruned rows is finishing full rows. */
  lemma FinishPruned(sel: Select, fulls: seq<Row>, cols: seq<string>)
    requires Covers(cols, sel)
    ensures FinishRows(sel, Map(Pruner(cols), fulls), cols) == FinishRows(sel, fulls, COLUMN_NAMES)
  {
    if IsAggregated(sel) {
      AggregatePruned(sel, fulls, cols);
    } else {
      OutColumnsRead(sel, cols);
      ProjectPruned(cols, OutColumns(sel), fulls);
      if !sel.distinct {
        KeptPruned(sel, fulls, cols);
        ProjectPruned(cols, OutColumns(sel), Kept(sel, fulls, COLUMN_NAMES));
      }
    }
  }
}
