/** The recursive-descent parser over a shared cursor (packetql/query/parser.py). */
module Parser {
  import opened Wrappers
  import opened Ast
  import opened Lexer
  import opened Grammar

  class Parser {
    const toks: seq<Token>
    var i: nat

    /** The cursor stands on a token, EOF at the latest. */
    ghost predicate Valid()
      reads this
    {
      i < |toks| && Terminated(toks[i..])
    }

    function Left(): seq<Token>
      requires i <= |toks|
      reads this
    {
      toks[i..]
    }

    constructor (tokens: seq<Token>)
      requires Terminated(tokens)
      ensures Valid() && Left() == tokens
    {
      toks, i := tokens, 0;
    }

    /** The outcome and the cursor are those of a production. */
    ghost predicate Follows<T>(r: Result<T, ParseError>, spec: Parsed<T>)
      reads this
    {
      if spec.Ok? then r == Ok(spec.value.0) && i <= |toks| && Left() == spec.value.1 else r == Err(spec.error)
    }

    method Next()
      requires Valid() && Left()[0] != Eof
      modifies this`i
      ensures Valid() && i == old(i) + 1 && Left() == Rest(old(Left()))
    {
      i := i + 1;
      assert toks[i..] == Rest(old(Left()));
    }

    method ConsumeKw(kw: Kw) returns (found: bool)
      requires Valid()
      modifies this`i
      ensures Valid() && found == IsKw(old(Left()), kw)
      ensures if found then i == old(i) + 1 && Left() == Rest(old(Left())) else i == old(i)
    {
      assert toks[i] == Left()[0];
      found := toks[i] == Keyword(kw);
      if found { Next(); }
    }

    method ExpectTok(t: Token) returns (ok: bool)
      requires Valid() && t != Eof
      modifies this`i
      ensures ok <==> ExpectToken(old(Left()), t).Ok?
      ensures Valid()
      ensures if ok then i == old(i) + 1 && Left() == ExpectToken(old(Left()), t).value else i == old(i)
    {
      assert toks[i] == Left()[0];
      ok := toks[i] == t;
      if ok { Next(); }
    }

    method ExpectIdent() returns (r: Result<string, ParseError>)
      requires Valid()
      modifies this`i
      ensures Follows(r, ExpectName(old(Left()))) && Valid() && old(i) <= i
      ensures r.Ok? ==> i == old(i) + 1
    {
      assert toks[i] == Left()[0];
      if !toks[i].Identifier? { return Err(Syntax); }
      var name := toks[i].name;
      Next();
      r := Ok(name);
    }

    method AggregateArg(f: Func) returns (r: Result<Option<string>, ParseError>)
      requires Valid()
      modifies this`i
      ensures Follows(r, ParseArg(old(Left()), f)) && Valid() && old(i) <= i
    {
      if f == Count {
        var star := ExpectTok(Star);
        if star { return Ok(None); }
      }
      var name := ExpectIdent();
      r := if name.Ok? then Ok(Some(name.value)) else Err(name.error);
    }

    method AggregateCall() returns (r: Result<Agg, ParseError>)
      requires Valid() && StartsAggregate(Left())
      modifies this`i
      ensures Follows(r, ParseAggregate(old(Left()))) && Valid() && old(i) < i
    {
      assert toks[i] == Left()[0];
      hide Terminated;
      hide Rest;
      hide ParseArg;
      var f := toks[i].kw.func;
      Next();
      var ok := ExpectTok(LParen);
      if !ok { return Err(Syntax); }
      var arg := AggregateArg(f);
      if arg.Err? { return Err(arg.error); }
      ok := ExpectTok(RParen);
      r := if ok then Ok(Agg(f, arg.value)) else Err(Syntax);
    }

    // ---- Expressions -----------------------------------------------------

    method OrExpr() returns (r: Result<Expr, ParseError>)
      requires Valid()
      modifies this`i
      ensures Follows(r, ParseOr(old(Left())))
      ensures r.Ok? ==> Valid() && old(i) < i
      decreases |toks| - i, 5
    {
      var first := AndExpr();
      if first.Err? { return first; }
      var node := first.value;
      while true
        invariant Valid() && old(i) < i
        invariant ParseOr(old(Left())) == OrTail(node, Left())
        decreases |toks| - i
      {
        hide Terminated;
        hide Rest;
        var more := ConsumeKw(KOr);
        if !more { break; }
        var right := AndExpr();
        if right.Err? { return right; }
        node := BinaryOp(OrOp, node, right.value);
      }
      r := Ok(node);
    }

    method AndExpr() returns (r: Result<Expr, ParseError>)
      requires Valid()
      modifies this`i
      ensures Follows(r, ParseAnd(old(Left())))
      ensures r.Ok? ==> Valid() && old(i) < i
      decreases |toks| - i, 4
    {
      var first := NotExpr();
      if first.Err? { return first; }
      var node := first.value;
      while true
        invariant Valid() && old(i) < i
        invariant ParseAnd(old(Left())) == AndTail(node, Left())
        decreases |toks| - i
      {
        hide Terminated;
        hide Rest;
        var more := ConsumeKw(KAnd);
        if !more { break; }
        var right := NotExpr();
        if right.Err? { return right; }
        node := BinaryOp(AndOp, node, right.value);
      }
      r := Ok(node);
    }

    method NotExpr() returns (r: Result<Expr, ParseError>)
      requires Valid()
      modifies this`i
      ensures Follows(r, ParseNot(old(Left())))
      ensures r.Ok? ==> Valid() && old(i) < i
      decreases |toks| - i, 3
    {
      var not := ConsumeKw(KNot);
      if not {
        var operand := NotExpr();
        r := if operand.Ok? then Ok(Not(operand.value)) else operand;
      } else {
        r := Comparison();
      }
    }

    method Comparison() returns (r: Result<Expr, ParseError>)
      requires Valid()
      modifies this`i
      ensures Follows(r, ParseComparison(old(Left())))
      ensures r.Ok? ==> Valid() && old(i) < i
      decreases |toks| - i, 2
    {
      var left := Primary();
      if left.Err? { return left; }
      assert toks[i] == Left()[0];
      if toks[i].Operator? {
        var op := toks[i].op;
        Next();
        var right := Primary();
        if right.Err? { return right; }
        var fixed := IpFix(left.value, right.value);
        return if fixed.Ok? then Ok(BinaryOp(op, fixed.value.0, fixed.value.1)) else Err(fixed.error);
      }
      var like := ConsumeKw(KLike);
      if like {
        var right := Primary();
        return if right.Ok? then Ok(BinaryOp(Like, left.value, right.value)) else right;
      }
      r := left;
    }

    method Primary() returns (r: Result<Expr, ParseError>)
      requires Valid()
      modifies this`i
      ensures Follows(r, ParsePrimary(old(Left())))
      ensures r.Ok? ==> Valid() && old(i) < i
      decreases |toks| - i, 1
    {
      assert toks[i] == Left()[0];
      hide Terminated;
      hide Rest;
      if toks[i].Keyword? && toks[i].kw.KFunc? {
        var a := AggregateCall();
        return if a.Ok? then Ok(Aggregate(a.value)) else Err(a.error);
      }
      match toks[i] {
        case LParen =>
          Next();
          var node := OrExpr();
          if node.Err? { return node; }
          var ok := ExpectTok(RParen);
          r := if ok then node else Err(Syntax);
        case Integer(n) => Next(); r := Ok(Literal(IntV(n)));
        case Decimal(w, f) => Next(); r := Ok(Literal(FloatV(w, f)));
        case Str(s) => Next(); r := Ok(Literal(StrV(s)));
        case Identifier(name) => Next(); r := Ok(ColumnRef(name));
        case _ => r := Err(Syntax);
      }
    }

    // ---- Statements ------------------------------------------------------

    method SelectItem() returns (r: Result<Item, ParseError>)
      requires Valid()
      modifies this`i
      ensures Follows(r, ParseItem(old(Left())))
      ensures r.Ok? ==> Valid() && old(i) < i
    {
      assert toks[i] == Left()[0];
      if toks[i].Keyword? && toks[i].kw.KFunc? {
        var a := AggregateCall();
        return if a.Ok? then Ok(AggItem(a.value)) else Err(a.error);
      }
      var name := ExpectIdent();
      r := if name.Ok? then Ok(Column(name.value)) else Err(name.error);
    }

    method SelectList() returns (r: Result<seq<Item>, ParseError>)
      requires Valid()
      modifies this`i
      ensures Follows(r, ParseItems(old(Left())))
      ensures r.Ok? ==> Valid()
    {
      var star := ExpectTok(Star);
      if star { return Ok([Column("*")]); }
      assert toks[i] == Left()[0];
      var first := SelectItem();
      if first.Err? { return Err(first.error); }
      var items := [first.value];
      while true
        invariant Valid()
        invariant ParseItems(old(Left())) == ItemsTail(items, Left())
        decreases |toks| - i
      {
        hide Terminated;
        hide Rest;
        hide ParseItem;
        var comma := ExpectTok(Comma);
        if !comma { break; }
        var item := SelectItem();
        if item.Err? { return Err(item.error); }
        items := items + [item.value];
      }
      r := Ok(items);
    }

    method NameList() returns (r: Result<seq<string>, ParseError>)
      requires Valid()
      modifies this`i
      ensures Follows(r, ParseNames(old(Left())))
      ensures r.Ok? ==> Valid()
    {
      var first := ExpectIdent();
      if first.Err? { return Err(first.error); }
      var names := [first.value];
      while true
        invariant Valid()
        invariant ParseNames(old(Left())) == NamesTail(names, Left())
        decreases |toks| - i
      {
        hide Terminated;
        hide Rest;
        hide ExpectName;
        var comma := ExpectTok(Comma);
        if !comma { break; }
        var name := ExpectIdent();
        if name.Err? { return Err(name.error); }
        names := names + [name.value];
      }
      r := Ok(names);
    }

    /** WHERE or HAVING. */
    method Condition(kw: Kw) returns (r: Result<Option<Expr>, ParseError>)
      requires Valid()
      modifies this`i
      ensures Follows(r, ParseWhere(old(Left()), kw))
      ensures r.Ok? ==> Valid()
    {
      var found := ConsumeKw(kw);
      if !found { return Ok(None); }
      var e := OrExpr();
      r := if e.Ok? then Ok(Some(e.value)) else Err(e.error);
    }

    method Grouping() returns (r: Result<(seq<string>, Option<Expr>), ParseError>)
      requires Valid()
      modifies this`i
      ensures Follows(r, ParseGroup(old(Left())))
      ensures r.Ok? ==> Valid()
    {
      hide Terminated;
      hide Rest;
      hide ParseNames;
      hide ParseWhere;
      var found := ConsumeKw(KGroup);
      if !found { return Ok(([], None)); }
      found := ConsumeKw(KBy);
      if !found { return Err(Syntax); }
      var names := NameList();
      if names.Err? { return Err(names.error); }
      var having := Condition(KHaving);
      r := if having.Ok? then Ok((names.value, having.value)) else Err(having.error);
    }

    method OrderColumn() returns (r: Result<string, ParseError>)
      requires Valid()
      modifies this`i
      ensures Follows(r, ParseOrderColumn(old(Left())))
      ensures r.Ok? ==> Valid()
    {
      assert toks[i] == Left()[0];
      if toks[i].Keyword? && toks[i].kw.KFunc? {
        var a := AggregateCall();
        return if a.Ok? then Ok(AggLabel(a.value)) else Err(a.error);
      }
      r := ExpectIdent();
    }

    method Direction() returns (descending: bool)
      requires Valid()
      modifies this`i
      ensures Valid() && (descending, Left()) == ParseDirection(old(Left()))
    {
      var asc := ConsumeKw(KAsc);
      if asc { return false; }
      descending := ConsumeKw(KDesc);
    }

    method Ordering() returns (r: Result<Option<OrderBy>, ParseError>)
      requires Valid()
      modifies this`i
      ensures Follows(r, ParseOrder(old(Left())))
      ensures r.Ok? ==> Valid()
    {
      hide Terminated;
      hide Rest;
      hide ParseOrderColumn;
      hide ParseDirection;
      var found := ConsumeKw(KOrder);
      if !found { return Ok(None); }
      found := ConsumeKw(KBy);
      if !found { return Err(Syntax); }
      var column := OrderColumn();
      if column.Err? { return Err(column.error); }
      var descending := Direction();
      r := Ok(Some(OrderBy(column.value, descending)));
    }

    method Limit() returns (r: Result<Option<nat>, ParseError>)
      requires Valid()
      modifies this`i
      ensures Follows(r, ParseLimit(old(Left())))
      ensures r.Ok? ==> Valid()
    {
      var found := ConsumeKw(KLimit);
      if !found { return Ok(None); }
      assert toks[i] == Left()[0];
      if !toks[i].Integer? { return Err(Syntax); }
      var n := toks[i].i;
      Next();
      r := Ok(Some(n));
    }

    method Clauses(columns: seq<Item>, table: string, distinct: bool) returns (r: Result<Select, ParseError>)
      requires Valid()
      modifies this`i
      ensures r == ParseClauses(columns, table, distinct, old(Left()))
    {
      hide Terminated;
      hide ParseWhere;
      hide ParseGroup;
      hide ParseOrder;
      hide ParseLimit;
      var where := Condition(KWhere);
      if where.Err? { return Err(where.error); }
      var grouping := Grouping();
      if grouping.Err? { return Err(grouping.error); }
      var ordering := Ordering();
      if ordering.Err? { return Err(ordering.error); }
      var limit := Limit();
      if limit.Err? { return Err(limit.error); }
      assert toks[i] == Left()[0];
      if toks[i] != Eof { return Err(Syntax); }
      r := Ok(Select(columns, table, where.value, distinct, grouping.value.0, grouping.value.1, ordering.value, limit.value));
    }

    method SelectStatement() returns (r: Result<Select, ParseError>)
      requires Valid()
      modifies this`i
      ensures r == ParseSelect(old(Left()))
    {
      hide Terminated;
      hide Rest;
      hide ParseItems;
      hide ParseClauses;
      var found := ConsumeKw(KSelect);
      if !found { return Err(Syntax); }
      var distinct := ConsumeKw(KDistinct);
      var columns := SelectList();
      if columns.Err? { return Err(columns.error); }
      found := ConsumeKw(KFrom);
      if !found { return Err(Syntax); }
      var table := ExpectIdent();
      if table.Err? { return Err(table.error); }
      r := Clauses(columns.value, table.value, distinct);
    }

    method StatementNode() returns (r: Result<Statement, ParseError>)
      requires Valid()
      modifies this`i
      ensures r == ParseStatement(old(Left()))
    {
      hide ParseSelect;
      var explain := ConsumeKw(KExplain);
      var s := SelectStatement();
      if s.Err? { return Err(s.error); }
      r := Ok(if explain then Explain(s.value) else Query(s.value));
    }
  }

  /** `parse` */
  method Parse(sql: string) returns (r: Result<Statement, ParseError>)
    ensures r == ParseText(sql)
  {
    var tokens := Tokenize(sql);
    if tokens.Err? { return Err(tokens.error); }
    LexTerminates(sql);
    var parser := new Parser(tokens.value);
    r := parser.StatementNode();
  }
}
