/** From query text to answer (packetql/query/executor.py, `run_query`). */
module QueryText {
  import opened Wrappers
  import opened Seqs
  import opened Ast
  import opened Predicate
  import opened IndexPlan
  import opened Store
  import opened Finish
  import opened Planner
  import opened Engine
  import opened Statements
  import opened Rendering
  import Lexer
  import Grammar
  import Parser
  import Indexes
  import Slices

  datatype Failure = BadText(parsing: Lexer.ParseError) | BadQuery(query: QueryError)

  /** The rows of a SELECT, or the plan an EXPLAIN describes. */
  datatype Outcome = Rows(output: Output) | PlanOf(plan: Plan)

  /** The text does not compare a string with a number, if it parses at all. */
  predicate TextTyped(sql: string) {
    Grammar.ParseText(sql).Ok? ==> WhereTyped(Grammar.ParseText(sql).value.select.where)
  }

  function Failing<T, U>(r: Result<T, QueryError>, f: T -> U): Result<U, Failure> {
    match r
    case Err(e) => Err(BadQuery(e))
    case Ok(v) => Ok(f(v))
  }

  function QueryResult(t: Columns, n: nat, sql: string, indexed: bool): Result<Outcome, Failure>
    requires StoreColumns(t, n) && TextTyped(sql)
  {
    match Grammar.ParseText(sql)
    case Err(e) => Err(BadText(e))
    case Ok(Query(sel)) => Failing(Run(t, n, sel, indexed), o => Rows(o))
    case Ok(Explain(sel)) => Failing(PlanFor(sel, indexed, t, n), p => PlanOf(p))
  }

  /** `run_query` */
  method RunQuery(store: ColumnStore, sql: string, indexes: Indexes.PacketIndexes?) returns (r: Result<Outcome, Failure>)
    requires store.Valid() && TextTyped(sql)
    requires indexes != null ==> indexes.Valid() && indexes.Represents(Table(store.disk), store.disk.meta.value.rowCount)
    modifies store.cache
    ensures store.Valid()
    ensures r == QueryResult(Table(store.disk), store.disk.meta.value.rowCount, sql, indexes != null)
  {
    ghost var t, n := Table(store.disk), store.disk.meta.value.rowCount;
    hide Run, PlanFor;
    var statement := Parser.Parse(sql);
    if statement.Err? { return Err(BadText(statement.error)); }
    match statement.value {
      case Query(sel) =>
        var output := RunSelect(store, sel, indexes);
        r := Failing(output, o => Rows(o));
      case Explain(sel) =>
        var plan := PlanQuery(sel, store.RowCount(), indexes, t);
        r := Failing(plan, p => PlanOf(p));
    }
  }

  /** Print a query, run its text with or without indexes: the answer is the query's meaning. */
  lemma PrintedQueryAnswers(t: Columns, n: nat, sel: Select, indexed: bool)
    requires StoreColumns(t, n) && PrintableSelect(sel) && WhereTyped(sel.where)
    requires indexed && sel.where.Some? ==> InDomain(Conjuncts(sel.where.value))
    ensures TextTyped(Print(Query(sel)))
    ensures QueryResult(t, n, Print(Query(sel)), indexed) == Failing(Answer(t, n, sel), o => Rows(o))
  {
    PrintParse(Query(sel));
    RunIsAnswer(t, n, sel, indexed);
    hide Run, Answer;
  }

  /** `run_query` answers a SELECT alike with and without indexes, whatever its text. */
  lemma IndexesChangeNothing(t: Columns, n: nat, sql: string)
    requires StoreColumns(t, n) && TextTyped(sql)
    requires Grammar.ParseText(sql).Ok? ==>
      var st := Grammar.ParseText(sql).value;
      st.Query? && (st.select.where.Some? ==> InDomain(Conjuncts(st.select.where.value)))
    ensures QueryResult(t, n, sql, true) == QueryResult(t, n, sql, false)
  {
    if Grammar.ParseText(sql).Ok? {
      var sel := Grammar.ParseText(sql).value.select;
      RunIsAnswer(t, n, sel, true);
      RunIsAnswer(t, n, sel, false);
      hide Run, Answer;
    }
  }

  /** The rows a plan selects: of its candidates, or of all rows, those that satisfy what it leaves to check. */
  ghost predicate PlanSelects(p: Plan, t: Columns, n: nat, ids: seq<nat>) {
    && StrictlyAscending(ids)
    && forall i: nat :: i in ids <==>
         i < n && (p.access.Index? ==> i in p.access.candidates) && (p.where.Some? ==> Holds(p.where.value, t, i))
  }

  lemma SelectedByScan(t: Columns, n: nat, where: Option<Expr>)
    requires StoreColumns(t, n) && WhereTyped(where) && (where.Some? ==> ColumnsIn(where.value) <= NAMES)
    ensures StrictlyAscending(Selected(where, t, n))
    ensures forall i: nat :: i in Selected(where, t, n) <==> i < n && (where.Some? ==> Holds(where.value, t, i))
  {
    if where.Some? {
      MatchingExact(where.value, t, n);
    } else {
      forall i: nat | i < n ensures i in Selected(where, t, n) { assert Selected(where, t, n)[i] == i; }
    }
  }

  /** The plan is the one whose rows the query finishes. */
  lemma PlanIsRun(t: Columns, n: nat, sel: Select, indexed: bool)
    requires StoreColumns(t, n) && WhereTyped(sel.where)
    ensures PlanFor(sel, indexed, t, n).Err? ==> Run(t, n, sel, indexed) == Err(PlanFor(sel, indexed, t, n).error)
    ensures PlanFor(sel, indexed, t, n).Ok? ==> var p := PlanFor(sel, indexed, t, n).value;
      HasColumns(t, p.readColumns, n) && Referenced(sel) <= NAMES && PlannedRows(t, n, sel.where, indexed).Ok?
      && var ids := PlannedRows(t, n, sel.where, indexed).value;
      PlanSelects(p, t, n, ids) && Run(t, n, sel, indexed) == FinishRows(sel, RowsAt(t, p.readColumns, ids, n), p.readColumns)
  {
    hide FinishRows, Choose, Referenced, ReadColumns;
    if sel.table == "packets" && Referenced(sel) <= NAMES {
      ReadColumnsExact(Referenced(sel));
      WhereKnown(sel);
      SelectedByScan(t, n, sel.where);
      if indexed && sel.where.Some? && Choose(t, n, sel.where.value).Ok? && Choose(t, n, sel.where.value).value.Some? {
        var choice := Choose(t, n, sel.where.value).value.value;
        ChoiceWellFormed(t, n, sel.where.value);
        ChosenAscend(t, n, sel.where.value);
        KeepExact(choice.candidates, choice.residual, t);
      }
    }
  }

  lemma WhereKnown(sel: Select)
    requires Referenced(sel) <= NAMES
    ensures sel.where.Some? ==> ColumnsIn(sel.where.value) <= NAMES
  {
  }

  /** EXPLAIN describes what the query does: the same errors before any row is read, and otherwise the columns, the
      candidates and the remaining predicate that the rows of the query come from. */
  lemma ExplainDescribes(t: Columns, n: nat, sel: Select, indexed: bool)
    requires StoreColumns(t, n) && PrintableSelect(sel) && WhereTyped(sel.where)
    ensures TextTyped(Print(Query(sel))) && TextTyped(Print(Explain(sel)))
    ensures var described := QueryResult(t, n, Print(Explain(sel)), indexed);
      && (described.Err? ==> QueryResult(t, n, Print(Query(sel)), indexed) == described)
      && (described.Ok? ==> described.value.PlanOf? && PlanAnswers(described.value.plan, t, n, sel,
            QueryResult(t, n, Print(Query(sel)), indexed)))
  {
    PrintParse(Query(sel));
    PrintParse(Explain(sel));
    PlanIsRun(t, n, sel, indexed);
    hide Run, PlanFor, Print, FinishRows, PlanSelects, RowsAt;
  }

  /** An answer is what finishing the rows of a plan gives. */
  ghost predicate PlanAnswers(p: Plan, t: Columns, n: nat, sel: Select, answer: Result<Outcome, Failure>) {
    HasColumns(t, p.readColumns, n)
    && exists ids :: Slices.InRange(ids, n) && PlanSelects(p, t, n, ids)
         && answer == Failing(FinishRows(sel, RowsAt(t, p.readColumns, ids, n), p.readColumns), o => Rows(o))
  }
}
