/** The hand-written lexer (packetql/query/lexer.py), over ASCII text. */
module Lexer {
  import opened Wrappers
  import opened Text
  import opened Ast

  datatype ParseError = Syntax | BadAddress

  datatype Kw =
    | KSelect | KFrom | KWhere | KOrder | KBy | KLimit | KAsc | KDesc | KAnd | KOr | KNot | KLike
    | KDistinct | KGroup | KHaving | KExplain | KFunc(func: Func)

  datatype Token =
    | Keyword(kw: Kw) | Identifier(name: string) | Integer(i: nat) | Decimal(whole: string, frac: string)
    | Str(s: string) | Operator(op: Op) | Star | Comma | LParen | RParen | Eof

  /** The keyword an upper-case word is. */
  function KeywordOf(up: string): Option<Kw> {
    if up == "SELECT" then Some(KSelect) else if up == "FROM" then Some(KFrom) else if up == "WHERE" then Some(KWhere)
    else if up == "ORDER" then Some(KOrder) else if up == "BY" then Some(KBy) else if up == "LIMIT" then Some(KLimit)
    else if up == "ASC" then Some(KAsc) else if up == "DESC" then Some(KDesc) else if up == "AND" then Some(KAnd)
    else if up == "OR" then Some(KOr) else if up == "NOT" then Some(KNot) else if up == "LIKE" then Some(KLike)
    else if up == "DISTINCT" then Some(KDistinct) else if up == "GROUP" then Some(KGroup)
    else if up == "HAVING" then Some(KHaving) else if up == "EXPLAIN" then Some(KExplain)
    else if up == "COUNT" then Some(KFunc(Count)) else if up == "SUM" then Some(KFunc(Sum))
    else if up == "AVG" then Some(KFunc(Avg)) else if up == "MIN" then Some(KFunc(Min))
    else if up == "MAX" then Some(KFunc(Max)) else None
  }

  // ---- Characters --------------------------------------------------------

  predicate IsSpace(c: char) {
    c == ' ' || 9 <= c as int <= 13 || 28 <= c as int <= 31
  }

  predicate IsAlpha(c: char) {
    'a' <= c <= 'z' || 'A' <= c <= 'Z'
  }

  predicate IsWordChar(c: char) {
    IsAlpha(c) || IsDigit(c) || c == '_'
  }

  function UpperChar(c: char): char {
    if 'a' <= c <= 'z' then (c as int - 32) as char else c
  }

  function Upper(s: string): (r: string)
    ensures |r| == |s|
  {
    seq(|s|, i requires 0 <= i < |s| => UpperChar(s[i]))
  }

  // ---- Spans -------------------------------------------------------------

  /** How many leading characters are digits. */
  function DigitSpan(s: string): (n: nat)
    ensures n <= |s| && AllDigits(s[..n]) && (n < |s| ==> !IsDigit(s[n]))
  {
    if s != "" && IsDigit(s[0]) then
      var n := DigitSpan(s[1..]);
      assert s[..n + 1] == [s[0]] + s[1..][..n];
      n + 1
    else 0
  }

  predicate AllWordChars(s: string) {
    forall i :: 0 <= i < |s| ==> IsWordChar(s[i])
  }

  function WordSpan(s: string): (n: nat)
    ensures n <= |s| && AllWordChars(s[..n]) && (n < |s| ==> !IsWordChar(s[n]))
  {
    if s != "" && IsWordChar(s[0]) then
      var n := WordSpan(s[1..]);
      assert s[..n + 1] == [s[0]] + s[1..][..n];
      n + 1
    else 0
  }

  /** The contents of a string literal after its opening quote, and the text after its closing quote. */
  function StringBody(s: string): (r: Option<(string, string)>)
    ensures r.Some? ==> |r.value.1| < |s|
    decreases |s|
  {
    if s == "" then None
    else if s[0] == '\'' then
      if |s| > 1 && s[1] == '\'' then PrependBody("'", StringBody(s[2..])) else Some(("", s[1..]))
    else PrependBody([s[0]], StringBody(s[1..]))
  }

  function PrependBody(head: string, body: Option<(string, string)>): (r: Option<(string, string)>)
    ensures r.Some? <==> body.Some?
    ensures r.Some? ==> r.value.1 == body.value.1
  {
    if body == None then None else Some((head + body.value.0, body.value.1))
  }

  // ---- One token ---------------------------------------------------------

  datatype Lexed = Skip(rest: string) | Got(token: Token, rest: string) | Bad

  function WordToken(word: string): Token {
    var kw := KeywordOf(Upper(word));
    if kw.Some? then Keyword(kw.value) else Identifier(word)
  }

  function TwoCharOp(s: string): (r: Option<Op>)
    ensures r.Some? ==> |s| >= 2
  {
    if |s| < 2 then None
    else if s[..2] == "<=" then Some(Le)
    else if s[..2] == ">=" then Some(Ge)
    else if s[..2] == "!=" then Some(Ne)
    else if s[..2] == "<>" then Some(Ne)
    else None
  }

  function OneCharOp(c: char): Option<Op> {
    if c == '=' then Some(Eq) else if c == '<' then Some(Lt) else if c == '>' then Some(Gt) else None
  }

  /** Digits, and after a dot more digits. */
  function Number(s: string): (r: Lexed)
    requires s != "" && IsDigit(s[0])
    ensures r.Got? && |r.rest| < |s|
  {
    var n := DigitSpan(s);
    if n < |s| && s[n] == '.' then Fraction(s[..n], s[n + 1..]) else Got(Integer(DigitsValue(s[..n])), s[n..])
  }

  function Fraction(whole: string, s: string): (r: Lexed)
    ensures r.Got? && |r.rest| <= |s|
  {
    var m := DigitSpan(s);
    Got(Decimal(whole, s[..m]), s[m..])
  }

  /** What stands at the start of a non-empty text. */
  function Next(s: string): (r: Lexed)
    requires s != ""
    ensures !r.Bad? ==> |r.rest| < |s|
  {
    var c := s[0];
    if IsSpace(c) || c == ';' then Skip(s[1..])
    else if c == '\'' then
      var body := StringBody(s[1..]);
      if body == None then Bad else Got(Str(body.value.0), body.value.1)
    else if IsDigit(c) then Number(s)
    else if IsAlpha(c) || c == '_' then
      var n := WordSpan(s);
      Got(WordToken(s[..n]), s[n..])
    else Symbol(s)
  }

  function Symbol(s: string): (r: Lexed)
    requires s != ""
    ensures !r.Bad? ==> |r.rest| < |s|
  {
    var c := s[0];
    if c == '*' then Got(Star, s[1..])
    else if c == ',' then Got(Comma, s[1..])
    else if c == '(' then Got(LParen, s[1..])
    else if c == ')' then Got(RParen, s[1..])
    else if TwoCharOp(s).Some? then Got(Operator(TwoCharOp(s).value), s[2..])
    else if OneCharOp(c).Some? then Got(Operator(OneCharOp(c).value), s[1..])
    else Bad
  }

  function Prepend(head: seq<Token>, r: Result<seq<Token>, ParseError>): Result<seq<Token>, ParseError> {
    if r.Ok? then Ok(head + r.value) else r
  }

  /** All tokens of a text, ending with EOF. */
  function Lex(s: string): (r: Result<seq<Token>, ParseError>)
    ensures r.Ok? ==> r.value != [] && r.value[|r.value| - 1] == Eof
    decreases |s|
  {
    if s == "" then Ok([Eof])
    else
      match Next(s)
      case Bad => Err(Syntax)
      case Skip(rest) => Lex(rest)
      case Got(t, rest) => Prepend([t], Lex(rest))
  }

  // ---- The lexer's loop --------------------------------------------------

  method ScanDigits(text: string, i: nat) returns (j: nat)
    requires i <= |text|
    ensures j == i + DigitSpan(text[i..])
  {
    j := i;
    while j < |text| && IsDigit(text[j])
      invariant i <= j <= |text|
      invariant DigitSpan(text[i..]) == (j - i) + DigitSpan(text[j..])
    {
      assert text[j..][1..] == text[j + 1..];
      j := j + 1;
    }
  }

  method ScanWord(text: string, i: nat) returns (j: nat)
    requires i <= |text|
    ensures j == i + WordSpan(text[i..])
  {
    j := i;
    while j < |text| && IsWordChar(text[j])
      invariant i <= j <= |text|
      invariant WordSpan(text[i..]) == (j - i) + WordSpan(text[j..])
    {
      assert text[j..][1..] == text[j + 1..];
      j := j + 1;
    }
  }

  /** A string literal whose opening quote is at `i - 1`: its contents, and where its closing quote is. */
  method ScanString(text: string, i: nat) returns (buf: string, j: nat)
    requires i <= |text|
    ensures i <= j <= |text|
    ensures StringBody(text[i..]) == if j == |text| then None else Some((buf, text[j + 1..]))
  {
    j, buf := i, "";
    PrependNothing(StringBody(text[i..]));
    while j < |text|
      invariant i <= j <= |text|
      invariant StringBody(text[i..]) == PrependBody(buf, StringBody(text[j..]))
      decreases |text| - j
    {
      if text[j] == '\'' {
        if j + 1 < |text| && text[j + 1] == '\'' {
          assert text[j..][2..] == text[j + 2..];
          PrependTwice(buf, "'", StringBody(text[j + 2..]));
          buf := buf + "'";
          j := j + 2;
        } else {
          assert text[j..][1..] == text[j + 1..];
          assert buf + "" == buf;
          return;
        }
      } else {
        assert text[j..][1..] == text[j + 1..];
        PrependTwice(buf, [text[j]], StringBody(text[j + 1..]));
        buf := buf + [text[j]];
        j := j + 1;
      }
    }
  }

  lemma PrependNothing(body: Option<(string, string)>)
    ensures PrependBody("", body) == body
  {
    if body.Some? { assert "" + body.value.0 == body.value.0; }
  }

  lemma PrependTwice(a: string, b: string, body: Option<(string, string)>)
    ensures PrependBody(a, PrependBody(b, body)) == PrependBody(a + b, body)
  {
    if body.Some? { assert a + (b + body.value.0) == (a + b) + body.value.0; }
  }

  lemma Slices(text: string, i: nat, j: nat)
    requires i <= j <= |text|
    ensures text[i..][..j - i] == text[i..j] && text[i..][j - i..] == text[j..]
  {
  }

  method NumberAt(text: string, i: nat) returns (t: Token, j: nat)
    requires i < |text| && IsDigit(text[i])
    ensures i < j <= |text| && Number(text[i..]) == Got(t, text[j..])
  {
    var d := ScanDigits(text, i);
    assert d > i;
    Slices(text, i, d);
    hide DigitSpan;
    hide DigitsValue;
    if d < |text| && text[d] == '.' {
      assert text[i..][d - i + 1..] == text[d + 1..];
      t, j := FractionAt(text, d + 1, text[i..d]);
    } else {
      t, j := Integer(DigitsValue(text[i..d])), d;
    }
  }

  method FractionAt(text: string, i: nat, whole: string) returns (t: Token, j: nat)
    requires i <= |text|
    ensures i <= j <= |text| && Fraction(whole, text[i..]) == Got(t, text[j..])
  {
    j := ScanDigits(text, i);
    Slices(text, i, j);
    t := Decimal(whole, text[i..j]);
  }

  method SymbolAt(text: string, i: nat) returns (found: Option<Option<Token>>, j: nat)
    requires i < |text|
    ensures i <= j <= |text|
    ensures match Symbol(text[i..])
            case Bad => found == None
            case Skip(rest) => false
            case Got(t, rest) => found == Some(Some(t)) && rest == text[j..] && i < j
  {
    hide TwoCharOp;
    var c := text[i];
    assert text[i..][1..] == text[i + 1..];
    if c == '*' { return Some(Some(Star)), i + 1; }
    if c == ',' { return Some(Some(Comma)), i + 1; }
    if c == '(' { return Some(Some(LParen)), i + 1; }
    if c == ')' { return Some(Some(RParen)), i + 1; }
    var two := TwoCharOp(text[i..]);
    if two.Some? {
      assert text[i..][2..] == text[i + 2..];
      return Some(Some(Operator(two.value))), i + 2;
    }
    if OneCharOp(c).Some? { return Some(Some(Operator(OneCharOp(c).value))), i + 1; }
    return None, i;
  }

  /** One turn of the loop, at position `i`. */
  method NextAt(text: string, i: nat) returns (found: Option<Option<Token>>, j: nat)
    requires i < |text|
    ensures i <= j <= |text|
    ensures match Next(text[i..])
            case Bad => found == None
            case Skip(rest) => found == Some(None) && rest == text[j..] && i < j
            case Got(t, rest) => found == Some(Some(t)) && rest == text[j..] && i < j
  {
    hide Symbol;
    hide Number;
    hide WordSpan;
    hide StringBody;
    hide WordToken;
    var c := text[i];
    assert text[i..][1..] == text[i + 1..];
    if IsSpace(c) || c == ';' { return Some(None), i + 1; }
    if c == '\'' {
      var buf, q := ScanString(text, i + 1);
      if q >= |text| { return None, i; }
      return Some(Some(Str(buf))), q + 1;
    }
    if IsDigit(c) {
      var t, d := NumberAt(text, i);
      return Some(Some(t)), d;
    }
    if IsAlpha(c) || c == '_' {
      var w := ScanWord(text, i);
      assert text[i..][..w - i] == text[i..w] && text[i..][w - i..] == text[w..];
      return Some(Some(WordToken(text[i..w]))), w;
    }
    found, j := SymbolAt(text, i);
  }

  /** `tokenize` */
  method Tokenize(text: string) returns (r: Result<seq<Token>, ParseError>)
    ensures r == Lex(text)
  {
    var tokens: seq<Token> := [];
    var i := 0;
    assert text[0..] == text;
    if Lex(text).Ok? { assert [] + Lex(text).value == Lex(text).value; }
    while i < |text|
      invariant 0 <= i <= |text|
      invariant Lex(text) == Prepend(tokens, Lex(text[i..]))
    {
      var found, j := NextAt(text, i);
      if found == None { return Err(Syntax); }
      if found.value.Some? {
        PrependTokens(tokens, [found.value.value], Lex(text[j..]));
        tokens := tokens + [found.value.value];
      }
      i := j;
    }
    r := Ok(tokens + [Eof]);
  }

  lemma PrependTokens(a: seq<Token>, b: seq<Token>, r: Result<seq<Token>, ParseError>)
    ensures Prepend(a, Prepend(b, r)) == Prepend(a + b, r)
  {
    if r.Ok? { assert a + (b + r.value) == (a + b) + r.value; }
  }
}
