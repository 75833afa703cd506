/** From tokens to text and back, and the round trip of whole queries. */
module Rendering {
  import opened Wrappers
  import opened Slices
  import opened Text
  import opened Ast
  import opened Lexer
  import opened Grammar
  import opened Printer
  import opened Statements
  import opened RoundTrip

  // ---- Text of a token ---------------------------------------------------

  function KwText(k: Kw): (s: string)
    ensures s != "" && IsAlpha(s[0]) && AllWordChars(s)
  {
    match k
    case KSelect => "SELECT" case KFrom => "FROM" case KWhere => "WHERE" case KOrder => "ORDER" case KBy => "BY"
    case KLimit => "LIMIT" case KAsc => "ASC" case KDesc => "DESC" case KAnd => "AND" case KOr => "OR"
    case KNot => "NOT" case KLike => "LIKE" case KDistinct => "DISTINCT" case KGroup => "GROUP"
    case KHaving => "HAVING" case KExplain => "EXPLAIN" case KFunc(f) => FuncName(f)
  }

  function OpText(op: Op): string {
    if op == Eq then "=" else if op == Ne then "!=" else if op == Lt then "<" else if op == Gt then ">"
    else if op == Le then "<=" else ">="
  }

  /** A string with every quote doubled. */
  function Quoted(s: string): string {
    if s == "" then "" else (if s[0] == '\'' then "''" else [s[0]]) + Quoted(s[1..])
  }

  function Lexeme(t: Token): string
    requires t != Eof
  {
    match t
    case Keyword(k) => KwText(k)
    case Identifier(n) => n
    case Integer(i) => Text.Decimal(i)
    case Decimal(w, f) => w + "." + f
    case Str(s) => "'" + Quoted(s) + "'"
    case Operator(op) => OpText(op)
    case Star => "*"
    case Comma => ","
    case LParen => "("
    case RParen => ")"
  }

  /** The tokens up to EOF, each followed by a space. */
  function Render(ts: seq<Token>): string {
    if ts == [] || ts[0] == Eof then "" else Lexeme(ts[0]) + (" " + Render(ts[1..]))
  }

  // ---- Lexing one token back ---------------------------------------------

  lemma {:induction false} WordSpanOf(w: string, rest: string)
    requires AllWordChars(w) && (rest == "" || !IsWordChar(rest[0]))
    ensures WordSpan(w + rest) == |w|
  {
    if w == "" {
      assert w + rest == rest;
    } else {
      assert (w + rest)[1..] == w[1..] + rest;
      WordSpanOf(w[1..], rest);
    }
  }

  lemma {:induction false} DigitSpanOf(w: string, rest: string)
    requires AllDigits(w) && (rest == "" || !IsDigit(rest[0]))
    ensures DigitSpan(w + rest) == |w|
  {
    if w == "" {
      assert w + rest == rest;
    } else {
      assert (w + rest)[1..] == w[1..] + rest;
      DigitSpanOf(w[1..], rest);
    }
  }

  lemma QuoteStep(body: string)
    ensures StringBody("''" + body) == PrependBody("'", StringBody(body))
  {
    assert ("''" + body)[2..] == body;
  }

  lemma CharStep(c: char, body: string)
    requires c != '\''
    ensures StringBody([c] + body) == PrependBody([c], StringBody(body))
  {
    assert ([c] + body)[1..] == body;
  }

  lemma {:induction false} StringBodyOf(s: string, rest: string)
    requires rest == "" || rest[0] != '\''
    ensures StringBody(Quoted(s) + ("'" + rest)) == Some((s, rest))
  {
    var tail := "'" + rest;
    if s == "" {
      assert Quoted(s) + tail == tail && tail[1..] == rest;
    } else {
      hide StringBody;
      StringBodyOf(s[1..], rest);
      var body := Quoted(s[1..]) + tail;
      Regroup(if s[0] == '\'' then "''" else [s[0]], Quoted(s[1..]), tail);
      if s[0] == '\'' { QuoteStep(body); } else { CharStep(s[0], body); }
      assert [s[0]] + s[1..] == s;
    }
  }

  lemma UpperWords(k: Kw)
    ensures KeywordOf(KwText(k)) == Some(k)
  {
  }

  lemma UpperSame(k: Kw)
    ensures Upper(KwText(k)) == KwText(k)
  {
  }

  /** What follows does not prolong the token. */
  predicate Apart(t: Token, rest: string) {
    rest == "" || match t
      case Keyword(_) => !IsWordChar(rest[0])
      case Identifier(_) => !IsWordChar(rest[0])
      case Integer(_) => !IsDigit(rest[0]) && rest[0] != '.'
      case Decimal(_, _) => !IsDigit(rest[0])
      case Str(_) => rest[0] != '\''
      case Operator(op) => (op == Lt ==> rest[0] !in {'=', '>'}) && (op == Gt ==> rest[0] != '=')
      case _ => true
  }

  /** Lexing the text of a token gives the token. */
  lemma WordBack(w: string, rest: string)
    requires w != "" && (IsAlpha(w[0]) || w[0] == '_') && AllWordChars(w) && (rest == "" || !IsWordChar(rest[0]))
    ensures Next(w + rest) == Got(WordToken(w), rest)
  {
    var text := w + rest;
    WordSpanOf(w, rest);
    assert text[0] == w[0];
    assert text[..|w|] == w && text[|w|..] == rest;
    hide WordSpan;
    hide WordToken;
  }

  lemma KeywordBack(k: Kw, rest: string)
    requires Apart(Keyword(k), rest)
    ensures Next(KwText(k) + rest) == Got(Keyword(k), rest)
  {
    WordBack(KwText(k), rest);
    UpperSame(k);
    UpperWords(k);
    hide KeywordOf;
    hide KwText;
  }

  lemma NumeralBack(w: string, rest: string)
    requires w != "" && AllDigits(w) && Apart(Integer(0), rest)
    ensures Next(w + rest) == Got(Integer(DigitsValue(w)), rest)
  {
    var text := w + rest;
    DigitSpanOf(w, rest);
    assert text[0] == w[0];
    assert text[..|w|] == w && text[|w|..] == rest;
    hide DigitSpan;
  }

  lemma IntegerBack(i: nat, rest: string)
    requires Apart(Integer(i), rest)
    ensures Next(Text.Decimal(i) + rest) == Got(Integer(i), rest)
  {
    NumeralBack(Text.Decimal(i), rest);
    DecimalRoundTrip(i);
  }

  lemma FractionBack(w: string, f: string, rest: string)
    requires AllDigits(f) && (rest == "" || !IsDigit(rest[0]))
    ensures Fraction(w, f + rest) == Got(Decimal(w, f), rest)
  {
    DigitSpanOf(f, rest);
    Halves(f, rest);
    hide DigitSpan;
  }

  lemma WholeBack(w: string, more: string)
    requires w != "" && AllDigits(w)
    ensures Next(w + ("." + more)) == Fraction(w, more)
  {
    var tail := "." + more;
    DigitSpanOf(w, tail);
    Halves(w, tail);
    assert (w + tail)[|w| + 1..] == more;
    hide DigitSpan;
    hide Fraction;
    hide DigitsValue;
  }

  lemma DecimalBack(w: string, f: string, rest: string)
    requires w != "" && AllDigits(w) && AllDigits(f) && Apart(Decimal(w, f), rest)
    ensures Next((w + "." + f) + rest) == Got(Decimal(w, f), rest)
  {
    Regroup(w + ".", f, rest);
    Regroup(w, ".", f + rest);
    hide Next, Fraction;
    WholeBack(w, f + rest);
    FractionBack(w, f, rest);
  }

  lemma StringBack(v: string, rest: string)
    requires Apart(Str(v), rest)
    ensures Next(("'" + Quoted(v) + "'") + rest) == Got(Str(v), rest)
  {
    hide Quoted;
    hide StringBody;
    hide Number;
    hide Symbol;
    var body := Quoted(v) + ("'" + rest);
    assert ("'" + Quoted(v) + "'") + rest == ['\''] + body;
    assert (['\''] + body)[1..] == body;
    StringBodyOf(v, rest);
  }

  lemma SymbolBack(t: Token, rest: string)
    requires t in {Star, Comma, LParen, RParen} || (t.Operator? && IsComparison(t.op))
    requires Apart(t, rest)
    ensures Next(Lexeme(t) + rest) == Got(t, rest)
  {
    var w := Lexeme(t);
    var text := w + rest;
    assert text[0] == w[0] && text[|w|..] == rest;
    if t.Operator? && |w| == 2 { assert text[..2] == w; }
    if |w| == 1 && rest != "" { assert text[1] == rest[0] && text[..2][1] == rest[0] && text[..2][0] == w[0]; }
  }

  lemma TokenBack(t: Token, rest: string)
    requires t != Eof && ValidToken(t) && Apart(t, rest)
    ensures Next(Lexeme(t) + rest) == Got(t, rest)
  {
    hide Next;
    match t
    case Keyword(k) => KeywordBack(k, rest);
    case Identifier(n) => WordBack(n, rest);
    case Integer(i) => IntegerBack(i, rest);
    case Decimal(w, f) => DecimalBack(w, f, rest);
    case Str(v) => StringBack(v, rest);
    case _ => SymbolBack(t, rest);
  }

  lemma SkipSpace(s: string)
    ensures Lex(" " + s) == Lex(s)
  {
    assert (" " + s)[1..] == s;
  }

  /** Lexing rendered tokens gives the tokens. */
  lemma {:induction false} LexRender(ts: seq<Token>)
    requires Terminated(ts) && ValidTokens(ts)
    ensures Lex(Render(ts)) == Ok(ts)
  {
    if ts[0] == Eof {
      assert ts == [Eof];
    } else {
      ValidRest(ts);
      var rest := Render(Rest(ts));
      LexRender(Rest(ts));
      TokenBack(ts[0], " " + rest);
      SkipSpace(rest);
      hide Next;
      hide Lexeme;
      assert Lex(Render(ts)) == Prepend([ts[0]], Lex(" " + rest));
      assert [ts[0]] + Rest(ts) == ts;
    }
  }

  // ---- Lexed and printed tokens are valid --------------------------------

  lemma NextValid(s: string)
    requires s != "" && Next(s).Got?
    ensures ValidToken(Next(s).token)
  {
  }

  lemma {:induction false} LexValid(s: string)
    requires Lex(s).Ok?
    ensures ValidTokens(Lex(s).value)
    decreases |s|
  {
    if s != "" {
      match Next(s)
      case Bad =>
      case Skip(rest) => LexValid(rest);
      case Got(t, rest) =>
        NextValid(s);
        LexValid(rest);
    }
  }

  lemma ThenValid(t: Token, k: seq<Token>)
    requires Terminated(k) && t != Eof && ValidTokens(k) && ValidToken(t)
    ensures ValidTokens(Then(t, k))
  {
  }

  lemma AggToValid(a: Agg, k: seq<Token>)
    requires ValidAgg(a) && Terminated(k) && ValidTokens(k)
    ensures ValidTokens(AggTo(a, k))
  {
    var arg := if a.arg == None then Star else Identifier(a.arg.value);
    ThenValid(RParen, k);
    ThenValid(arg, Then(RParen, k));
    ThenValid(LParen, Then(arg, Then(RParen, k)));
    ThenValid(Keyword(KFunc(a.func)), Then(LParen, Then(arg, Then(RParen, k))));
  }

  lemma {:induction false} PrintAtValid(e: Expr, level: nat, k: seq<Token>)
    requires Printable(e) && Terminated(k) && ValidTokens(k)
    ensures ValidTokens(PrintAt(e, level, k))
    decreases e, 1
  {
    if Level(e) < level {
      ThenValid(RParen, k);
      PrintCoreValid(e, Then(RParen, k));
      ThenValid(LParen, PrintCore(e, Then(RParen, k)));
    } else {
      PrintCoreValid(e, k);
    }
  }

  lemma {:induction false} PrintCoreValid(e: Expr, k: seq<Token>)
    requires Printable(e) && Terminated(k) && ValidTokens(k)
    ensures ValidTokens(PrintCore(e, k))
    decreases e, 0
  {
    hide ValidTokens;
    hide Then;
    hide Terminated;
    match e
    case ColumnRef(n) => ThenValid(Identifier(n), k);
    case Literal(v) => ThenValid(ValueToken(v), k);
    case Aggregate(a) => AggToValid(a, k);
    case Not(x) =>
      PrintAtValid(x, 2, k);
      ThenValid(Keyword(KNot), PrintAt(x, 2, k));
    case BinaryOp(op, l, r) =>
      var logical := op == OrOp || op == AndOp;
      var lr := if logical then Level(e) + 1 else 4;
      var ll := if logical then Level(e) else 4;
      PrintAtValid(r, lr, k);
      ThenValid(OpToken(op), PrintAt(r, lr, k));
      PrintAtValid(l, ll, Then(OpToken(op), PrintAt(r, lr, k)));
  }

  lemma ItemToValid(i: Item, k: seq<Token>)
    requires ValidItem(i) && Terminated(k) && ValidTokens(k)
    ensures ValidTokens(ItemTo(i, k))
  {
    if i.AggItem? { AggToValid(i.agg, k); } else { ThenValid(Identifier(i.name), k); }
  }

  lemma {:induction false} ItemsToValid(items: seq<Item>, k: seq<Token>)
    requires items != [] && ValidItems(items) && Terminated(k) && ValidTokens(k)
    ensures ValidTokens(ItemsTo(items, k))
  {
    if |items| == 1 {
      ItemToValid(items[0], k);
    } else {
      ItemsToValid(items[1..], k);
      ThenValid(Comma, ItemsTo(items[1..], k));
      ItemToValid(items[0], Then(Comma, ItemsTo(items[1..], k)));
    }
  }

  lemma {:induction false} NamesToValid(names: seq<string>, k: seq<Token>)
    requires names != [] && ValidNames(names) && Terminated(k) && ValidTokens(k)
    ensures ValidTokens(NamesTo(names, k))
  {
    hide ValidName;
    if |names| == 1 {
      ThenValid(Identifier(names[0]), k);
    } else {
      NamesToValid(names[1..], k);
      ThenValid(Comma, NamesTo(names[1..], k));
      ThenValid(Identifier(names[0]), Then(Comma, NamesTo(names[1..], k)));
    }
  }

  lemma WhereToValid(e: Option<Expr>, kw: Kw, k: seq<Token>)
    requires PrintableOption(e) && Terminated(k) && ValidTokens(k)
    ensures ValidTokens(WhereTo(e, kw, k))
  {
    if e.Some? {
      PrintAtValid(e.value, 0, k);
      ThenValid(Keyword(kw), PrintAt(e.value, 0, k));
    }
  }

  lemma GroupToValid(groupBy: seq<string>, having: Option<Expr>, k: seq<Token>)
    requires ValidNames(groupBy) && PrintableOption(having) && Terminated(k) && ValidTokens(k)
    ensures ValidTokens(GroupTo(groupBy, having, k))
  {
    if groupBy != [] {
      var k1 := WhereTo(having, KHaving, k);
      WhereToValid(having, KHaving, k);
      NamesToValid(groupBy, k1);
      ThenValid(Keyword(KBy), NamesTo(groupBy, k1));
      ThenValid(Keyword(KGroup), Then(Keyword(KBy), NamesTo(groupBy, k1)));
    }
  }

  lemma OrderColumnToValid(c: string, k: seq<Token>)
    requires ValidOrderColumn(c) && Terminated(k) && ValidTokens(k)
    ensures ValidTokens(OrderColumnTo(c, k))
  {
    hide ValidTokens;
    hide Terminated;
    hide Then;
    hide AggTo;
    if ValidName(c) {
      ThenValid(Identifier(c), k);
    } else {
      var a :| ValidAgg(a) && c == AggLabel(a) && OrderColumnTo(c, k) == AggTo(a, k);
      AggToValid(a, k);
    }
  }

  lemma OrderToValid(o: Option<OrderBy>, k: seq<Token>)
    requires Terminated(k) && ValidTokens(k) && (o.Some? ==> ValidOrderColumn(o.value.column))
    ensures ValidTokens(OrderTo(o, k))
  {
    hide ValidTokens;
    hide Terminated;
    hide Then;
    hide ValidOrderColumn;
    hide OrderColumnTo;
    if o.Some? {
      var c := o.value.column;
      var after := if o.value.descending then Then(Keyword(KDesc), k) else k;
      if o.value.descending { ThenValid(Keyword(KDesc), k); }
      OrderColumnToValid(c, after);
      ThenValid(Keyword(KBy), OrderColumnTo(c, after));
      ThenValid(Keyword(KOrder), Then(Keyword(KBy), OrderColumnTo(c, after)));
    }
  }

  lemma LimitToValid(limit: Option<nat>, k: seq<Token>)
    requires Terminated(k) && ValidTokens(k)
    ensures ValidTokens(LimitTo(limit, k))
  {
    if limit.Some? {
      ThenValid(Integer(limit.value), k);
      ThenValid(Keyword(KLimit), Then(Integer(limit.value), k));
    }
  }

  lemma ClausesToValid(s: Select, k: seq<Token>)
    requires PrintableSelect(s) && Terminated(k) && ValidTokens(k)
    ensures ValidTokens(ClausesTo(s, k))
  {
    var k1 := LimitTo(s.limit, k);
    LimitToValid(s.limit, k);
    var k2 := OrderTo(s.orderBy, k1);
    OrderToValid(s.orderBy, k1);
    var k3 := GroupTo(s.groupBy, s.having, k2);
    GroupToValid(s.groupBy, s.having, k2);
    WhereToValid(s.where, KWhere, k3);
  }

  lemma SelectToValid(s: Select, k: seq<Token>)
    requires PrintableSelect(s) && Terminated(k) && ValidTokens(k)
    ensures ValidTokens(SelectTo(s, k))
  {
    ClausesToValid(s, k);
    ThenValid(Identifier(s.table), ClausesTo(s, k));
    var after := Then(Keyword(KFrom), Then(Identifier(s.table), ClausesTo(s, k)));
    ThenValid(Keyword(KFrom), Then(Identifier(s.table), ClausesTo(s, k)));
    var columns := if s.Star() then Then(Star, after) else ItemsTo(s.columns, after);
    if s.Star() { ThenValid(Star, after); } else { ItemsToValid(s.columns, after); }
    if s.distinct { ThenValid(Keyword(KDistinct), columns); }
    ThenValid(Keyword(KSelect), if s.distinct then Then(Keyword(KDistinct), columns) else columns);
  }

  lemma StatementTokensValid(st: Statement)
    requires PrintableSelect(st.select)
    ensures ValidTokens(StatementTokens(st))
  {
    SelectToValid(st.select, [Eof]);
    if st.Explain? { ThenValid(Keyword(KExplain), SelectTo(st.select, [Eof])); }
  }

  // ---- Queries -----------------------------------------------------------

  /** A query's text. */
  ghost function Print(st: Statement): string
    requires PrintableSelect(st.select)
  {
    Render(StatementTokens(st))
  }

  /** Printing a query with only the parentheses its operators need, then lexing and parsing, gives it back. */
  lemma PrintParse(st: Statement)
    requires PrintableSelect(st.select)
    ensures ParseText(Print(st)) == Ok(st)
  {
    StatementTokensValid(st);
    LexRender(StatementTokens(st));
    StatementBack(st);
  }

  /** Every query text that parses means the same as the text printed from its tree. */
  lemma ParsePrintParse(sql: string)
    requires ParseText(sql).Ok?
    ensures PrintableSelect(ParseText(sql).value.select)
    ensures ParseText(Print(ParseText(sql).value)) == ParseText(sql)
  {
    LexTerminates(sql);
    LexValid(sql);
    StatementValid(Lex(sql).value);
    PrintParse(ParseText(sql).value);
  }
}
