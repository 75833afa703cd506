/** The many texts of one query: letters of either case, other operator signs, blanks, semicolons, an explicit ASC
    (packetql/query/lexer.py, packetql/query/parser.py). */
module Spelling {
  import opened Wrappers
  import opened Text
  import opened Ast
  import opened Lexer
  import opened Grammar
  import opened RoundTrip
  import opened Rendering
  import Printer
  import Slices

  // ---- Words -------------------------------------------------------------

  /** A keyword with its letters in any case. */
  lemma KeywordSpelled(k: Kw, w: string)
    requires |w| == |KwText(k)| && forall i :: 0 <= i < |w| ==> w[i] == KwText(k)[i] || (IsAlpha(w[i]) && UpperChar(w[i]) == KwText(k)[i])
    ensures w != "" && IsAlpha(w[0]) && AllWordChars(w) && WordToken(w) == Keyword(k)
  {
    UpperSame(k);
    UpperWords(k);
    assert forall i :: 0 <= i < |w| ==> Upper(KwText(k))[i] == KwText(k)[i];
    assert Upper(w) == KwText(k);
    hide KeywordOf, KwText;
  }

  /** Capital and small letters, letter by letter. */
  lemma LetterCase(i: nat)
    requires i < 26
    ensures UpperChar("abcdefghijklmnopqrstuvwxyz"[i]) == "ABCDEFGHIJKLMNOPQRSTUVWXYZ"[i]
    ensures UpperChar("ABCDEFGHIJKLMNOPQRSTUVWXYZ"[i]) == "ABCDEFGHIJKLMNOPQRSTUVWXYZ"[i]
    ensures IsAlpha("abcdefghijklmnopqrstuvwxyz"[i]) && IsAlpha("ABCDEFGHIJKLMNOPQRSTUVWXYZ"[i])
  {
  }

  // ---- Pieces of text ----------------------------------------------------

  /** A token, a text for it, and the blanks behind it. */
  datatype Piece = Piece(token: Token, text: string, gap: string)

  /** The texts of a token. */
  ghost predicate Spells(t: Token, text: string) {
    match t
    case Keyword(k) =>
      |text| == |KwText(k)|
      && forall i :: 0 <= i < |text| ==> text[i] == KwText(k)[i] || (IsAlpha(text[i]) && UpperChar(text[i]) == KwText(k)[i])
    case Integer(i) => text != "" && AllDigits(text) && DigitsValue(text) == i
    case Operator(op) => IsComparison(op) && (text == OpText(op) || (op == Ne && text == "<>"))
    case Eof => false
    case _ => ValidToken(t) && text == Lexeme(t)
  }

  /** Blanks of all kinds, and semicolons. */
  predicate IsBlank(c: char) {
    c == ' ' || c == ';' || '\t' <= c <= '\r' || 28 as char <= c <= 31 as char
  }

  ghost predicate AllBlank(gap: string) {
    forall i :: 0 <= i < |gap| ==> IsBlank(gap[i])
  }

  function TextOf(pieces: seq<Piece>): string {
    if pieces == [] then "" else pieces[0].text + (pieces[0].gap + TextOf(pieces[1..]))
  }

  function TokensOf(pieces: seq<Piece>): seq<Token> {
    if pieces == [] then [Eof] else [pieces[0].token] + TokensOf(pieces[1..])
  }

  /** Each piece spells its token, and nothing that follows prolongs it: where there are no blanks, the next piece must
      start with another kind of character. */
  ghost predicate Spelled(pieces: seq<Piece>) {
    pieces == []
    || (var p, rest := pieces[0], pieces[0].gap + TextOf(pieces[1..]);
        Spells(p.token, p.text) && AllBlank(p.gap) && Apart(p.token, rest) && Spelled(pieces[1..]))
  }

  lemma {:induction false} BlanksSkipped(gap: string, s: string)
    requires AllBlank(gap)
    ensures Lex(gap + s) == Lex(s)
  {
    if gap == "" {
      assert gap + s == s;
    } else {
      assert (gap + s)[1..] == gap[1..] + s && (gap + s)[0] == gap[0];
      BlanksSkipped(gap[1..], s);
    }
  }

  lemma OtherNotEqual(rest: string)
    ensures Next("<>" + rest) == Got(Operator(Ne), rest) && Next("!=" + rest) == Got(Operator(Ne), rest)
  {
    assert ("<>" + rest)[..2] == "<>" && ("<>" + rest)[2..] == rest;
    assert ("!=" + rest)[..2] == "!=" && ("!=" + rest)[2..] == rest;
  }

  lemma PieceLexed(t: Token, text: string, rest: string)
    requires Spells(t, text) && Apart(t, rest)
    ensures text != "" && Next(text + rest) == Got(t, rest)
  {
    hide Next, Lexeme, ValidToken;
    match t
    case Keyword(k) =>
      KeywordSpelled(k, text);
      WordBack(text, rest);
    case Integer(i) => NumeralBack(text, rest);
    case Operator(op) =>
      if text == "<>" { OtherNotEqual(rest); } else { OperatorBack(op, rest); }
    case _ =>
      LexemeSome(t);
      TokenBack(t, rest);
  }

  lemma LexemeSome(t: Token)
    requires t != Eof && ValidToken(t)
    ensures Lexeme(t) != ""
  {
  }

  lemma OperatorBack(op: Op, rest: string)
    requires IsComparison(op) && Apart(Operator(op), rest)
    ensures OpText(op) != "" && Next(OpText(op) + rest) == Got(Operator(op), rest)
  {
    SymbolBack(Operator(op), rest);
  }

  lemma {:induction false} PiecesLexed(pieces: seq<Piece>)
    requires Spelled(pieces)
    ensures Lex(TextOf(pieces)) == Ok(TokensOf(pieces))
  {
    if pieces != [] {
      var p, rest := pieces[0], TextOf(pieces[1..]);
      PiecesLexed(pieces[1..]);
      PieceLexed(p.token, p.text, p.gap + rest);
      BlanksSkipped(p.gap, rest);
      hide Next, Spells, AllBlank, Apart;
      assert Lex(TextOf(pieces)) == Prepend([p.token], Lex(p.gap + rest));
    }
  }

  // ---- Every lexed text is spelled ---------------------------------------

  lemma KeywordLetters(word: string, k: Kw)
    requires KeywordOf(Upper(word)) == Some(k)
    ensures Spells(Keyword(k), word)
  {
    KeywordIs(Upper(word), k);
    hide KeywordOf, KwText;
    forall i | 0 <= i < |word|
      ensures word[i] == KwText(k)[i] || (IsAlpha(word[i]) && UpperChar(word[i]) == KwText(k)[i])
    {
      assert Upper(word)[i] == UpperChar(word[i]);
    }
  }

  lemma KeywordIs(up: string, k: Kw)
    requires KeywordOf(up) == Some(k)
    ensures up == KwText(k)
  {
    hide KeywordOf, KwText, FuncName;
    if k.KFunc? { AggregateWord(up, k.func); } else { PlainWord(up, k); }
  }

  lemma AggregateWord(up: string, f: Func)
    requires KeywordOf(up) == Some(KFunc(f))
    ensures up == KwText(KFunc(f))
  {
  }

  lemma PlainWord(up: string, k: Kw)
    requires KeywordOf(up) == Some(k) && !k.KFunc?
    ensures up == KwText(k)
  {
    hide KeywordOf, KwText;
    if k in {KSelect, KFrom, KWhere, KOrder, KBy, KLimit, KAsc, KDesc} { EarlyWord(up, k); } else { LateWord(up, k); }
  }

  lemma EarlyWord(up: string, k: Kw)
    requires KeywordOf(up) == Some(k) && k in {KSelect, KFrom, KWhere, KOrder, KBy, KLimit, KAsc, KDesc}
    ensures up == KwText(k)
  {
  }

  lemma LateWord(up: string, k: Kw)
    requires KeywordOf(up) == Some(k) && k in {KAnd, KOr, KNot, KLike, KDistinct, KGroup, KHaving, KExplain}
    ensures up == KwText(k)
  {
  }

  lemma QuotedPush(c: char, body: string)
    ensures Quoted([c] + body) == (if c == '\'' then "''" else [c]) + Quoted(body)
  {
    assert ([c] + body)[1..] == body;
  }

  /** A string body is its contents with quotes doubled, a quote, and something else than a quote. */
  lemma {:induction false} BodyQuoted(s: string)
    requires StringBody(s).Some?
    ensures var (body, rest) := StringBody(s).value; s == Quoted(body) + ("'" + rest) && Apart(Str(body), rest)
    decreases |s|
  {
    hide Quoted;
    if s[0] == '\'' && !(|s| > 1 && s[1] == '\'') {
      assert Quoted("") == "" by { QuotedNothing(); }
      assert s == "'" + s[1..];
    } else {
      var k := if s[0] == '\'' then 2 else 1;
      BodyQuoted(s[k..]);
      var (body, rest) := StringBody(s[k..]).value;
      QuotedPush(s[0], body);
      assert s == s[..k] + s[k..];
      assert s[..k] == if s[0] == '\'' then "''" else [s[0]];
      Slices.Regroup(s[..k], Quoted(body), "'" + rest);
    }
  }

  lemma QuotedNothing()
    ensures Quoted("") == ""
  {
  }

  /** What the lexer takes for a token spells it, and is not prolonged by what follows. */
  lemma TokenSpelled(s: string)
    requires s != "" && Next(s).Got?
    ensures var n := |s| - |Next(s).rest|;
      && 0 < n <= |s| && Next(s).rest == s[n..]
      && Spells(Next(s).token, s[..n]) && Apart(Next(s).token, s[n..])
  {
    hide Spells, Apart, StringBody, Number, Symbol, WordSpan, WordToken;
    var c := s[0];
    if c == '\'' {
      StringSpelled(s);
    } else if IsDigit(c) {
      NumberSpelled(s);
    } else if IsAlpha(c) || c == '_' {
      WordSpelled(s);
    } else {
      SymbolSpelled(s);
    }
  }

  lemma WordSpelled(s: string)
    requires s != "" && (IsAlpha(s[0]) || s[0] == '_')
    ensures var n := WordSpan(s); n > 0 && Spells(WordToken(s[..n]), s[..n]) && Apart(WordToken(s[..n]), s[n..])
  {
    var n := WordSpan(s);
    hide WordSpan;
    if KeywordOf(Upper(s[..n])).Some? { KeywordLetters(s[..n], KeywordOf(Upper(s[..n])).value); }
    hide KeywordOf;
  }

  lemma StringSpelled(s: string)
    requires s != "" && s[0] == '\'' && StringBody(s[1..]).Some?
    ensures var (body, rest) := StringBody(s[1..]).value; var n := |s| - |rest|;
      0 < n <= |s| && rest == s[n..] && Spells(Str(body), s[..n]) && Apart(Str(body), rest)
  {
    var (body, rest) := StringBody(s[1..]).value;
    BodyQuoted(s[1..]);
    hide Quoted, StringBody;
    assert s == "'" + s[1..];
    var text := "'" + Quoted(body) + "'";
    assert s == text + rest;
    Slices.Halves(text, rest);
  }

  lemma NumberSpelled(s: string)
    requires s != "" && IsDigit(s[0])
    ensures var n := |s| - |Number(s).rest|;
      0 < n <= |s| && Number(s).rest == s[n..] && Spells(Number(s).token, s[..n]) && Apart(Number(s).token, s[n..])
  {
    var n := DigitSpan(s);
    hide DigitSpan;
    if n < |s| && s[n] == '.' {
      var m := DigitSpan(s[n + 1..]);
      assert s[n + 1..][m..] == s[n + 1 + m..];
      assert s[..n + 1 + m] == s[..n] + "." + s[n + 1..][..m];
    }
  }

  lemma SymbolSpelled(s: string)
    requires s != "" && Symbol(s).Got?
    ensures var n := |s| - |Symbol(s).rest|;
      0 < n <= |s| && Symbol(s).rest == s[n..] && Spells(Symbol(s).token, s[..n]) && Apart(Symbol(s).token, s[n..])
  {
  }

  /** A text is lexed to these tokens exactly when it is blanks and then a spelling of them. */
  ghost predicate IsSpelling(s: string, ts: seq<Token>) {
    exists lead, pieces :: AllBlank(lead) && Spelled(pieces) && s == lead + TextOf(pieces) && ts == TokensOf(pieces)
  }

  lemma {:induction false} LexedIsSpelled(s: string)
    requires Lex(s).Ok?
    ensures IsSpelling(s, Lex(s).value)
    decreases |s|
  {
    if s == "" {
      assert AllBlank("") && Spelled([]) && s == "" + TextOf([]) && [Eof] == TokensOf([]);
    } else {
      hide IsSpelling, Spells, Apart;
      match Next(s)
      case Skip(rest) =>
        BlankSkipped(s);
        LexedIsSpelled(rest);
        BlankBefore(s, Lex(rest).value);
      case Got(t, rest) =>
        TokenSpelled(s);
        LexedIsSpelled(rest);
        var n := |s| - |rest|;
        assert s == s[..n] + s[n..];
        PieceBefore(s, t, s[..n], rest, Lex(rest).value);
    }
  }

  lemma BlankSkipped(s: string)
    requires s != "" && Next(s).Skip?
    ensures IsBlank(s[0]) && Next(s).rest == s[1..]
  {
  }

  lemma BlankBefore(s: string, ts: seq<Token>)
    requires s != "" && IsBlank(s[0]) && IsSpelling(s[1..], ts)
    ensures IsSpelling(s, ts)
  {
    hide TokensOf, TextOf, Spelled;
    var lead, pieces :| AllBlank(lead) && Spelled(pieces) && s[1..] == lead + TextOf(pieces) && ts == TokensOf(pieces);
    var all := [s[0]] + lead;
    assert AllBlank(all) && s == all + TextOf(pieces);
  }

  lemma PieceBefore(s: string, t: Token, text: string, rest: string, ts: seq<Token>)
    requires s == text + rest && Spells(t, text) && Apart(t, rest) && IsSpelling(rest, ts)
    ensures IsSpelling(s, [t] + ts)
  {
    hide Spells, Apart;
    var lead, pieces :| AllBlank(lead) && Spelled(pieces) && rest == lead + TextOf(pieces) && ts == TokensOf(pieces);
    var all := [Piece(t, text, lead)] + pieces;
    assert all[1..] == pieces;
    assert AllBlank("") && Spelled(all) && s == "" + TextOf(all) && [t] + ts == TokensOf(all);
  }

  /** Keywords in any case, numbers with leading zeros, either sign for "not equal", any blanks and semicolons or none
      where tokens cannot run together: a text is lexed to the tokens it spells, and is refused when it spells none. */
  lemma LexSpelled(s: string, ts: seq<Token>)
    ensures Lex(s) == Ok(ts) <==> IsSpelling(s, ts)
  {
    if Lex(s) == Ok(ts) { LexedIsSpelled(s); }
    if IsSpelling(s, ts) {
      var lead, pieces :| AllBlank(lead) && Spelled(pieces) && s == lead + TextOf(pieces) && ts == TokensOf(pieces);
      PiecesLexed(pieces);
      BlanksSkipped(lead, TextOf(pieces));
    }
  }

  /** So all spellings of one token list parse alike. */
  lemma SpellingsAgree(a: string, b: string, ts: seq<Token>)
    requires IsSpelling(a, ts) && IsSpelling(b, ts)
    ensures ParseText(a) == ParseText(b)
  {
    LexSpelled(a, ts);
    LexSpelled(b, ts);
    hide IsSpelling, Lex, ParseStatement;
  }

  /** What an aggregate is counted over, as a token. */
  function ArgToken(a: Agg): Token {
    if a.arg == None then Star else Identifier(a.arg.value)
  }

  lemma AggregateSpells(a: Agg)
    requires Printer.ValidAgg(a)
    ensures ArgToken(a) != Eof && Spells(ArgToken(a), Lexeme(ArgToken(a)))
    ensures Spells(Keyword(KFunc(a.func)), FuncName(a.func)) && Spells(LParen, "(") && Spells(RParen, ")")
    ensures Apart(ArgToken(a), ")") && Apart(Keyword(KFunc(a.func)), "(" + (Lexeme(ArgToken(a)) + ")"))
    ensures AggLabel(a) == FuncName(a.func) + ("(" + (Lexeme(ArgToken(a)) + ")"))
  {
    hide KeywordOf, UpperChar;
    assert ("(" + (Lexeme(ArgToken(a)) + ")"))[0] == '(';
    assert KwText(KFunc(a.func)) == FuncName(a.func);
  }

  /** The label of an aggregate is a text of that aggregate. */
  lemma LabelIsText(a: Agg)
    requires Printer.ValidAgg(a)
    ensures Terminated([Eof]) && Lex(AggLabel(a)) == Ok(Printer.AggTo(a, [Eof]))
  {
    AggregateSpells(a);
    hide Lex, Spells, FuncName, Printer.ValidName, AggLabel, Apart, Lexeme, Spelled, TextOf, TokensOf;
    var p0, p1 := Piece(Keyword(KFunc(a.func)), FuncName(a.func), ""), Piece(LParen, "(", "");
    var p2, p3 := Piece(ArgToken(a), Lexeme(ArgToken(a)), ""), Piece(RParen, ")", "");
    NoPieces();
    assert ")" + "" == ")";
    AfterParen("");
    Touching(p3, []);
    Touching(p2, [p3]);
    AfterParen(Lexeme(ArgToken(a)) + ")");
    Touching(p1, [p2, p3]);
    Touching(p0, [p1, p2, p3]);
    assert [p2] + [p3] == [p2, p3] && [p1] + [p2, p3] == [p1, p2, p3];
    var all := [p0] + [p1, p2, p3];
    PiecesLexed(all);
  }

  lemma NoPieces()
    ensures Spelled([]) && TextOf([]) == "" && TokensOf([]) == [Eof]
  {
  }

  /** A parenthesis is a token whatever follows. */
  lemma AfterParen(rest: string)
    ensures Apart(LParen, rest) && Apart(RParen, rest)
  {
  }

  /** A piece without blanks in front of others. */
  lemma Touching(p: Piece, rest: seq<Piece>)
    requires p.gap == "" && Spells(p.token, p.text) && Apart(p.token, TextOf(rest)) && Spelled(rest)
    ensures Spelled([p] + rest) && TextOf([p] + rest) == p.text + TextOf(rest)
    ensures TokensOf([p] + rest) == [p.token] + TokensOf(rest)
  {
    hide Spells, Apart;
    assert ([p] + rest)[1..] == rest;
    assert "" + TextOf(rest) == TextOf(rest);
  }

  // ---- What is no text ---------------------------------------------------

  /** What a token, or a gap, may start with; an exclamation mark only before an equals sign. */
  predicate MayStart(c: char) {
    IsSpace(c) || IsDigit(c) || IsAlpha(c) || c in {';', '\'', '_', '*', ',', '(', ')', '=', '<', '>', '!'}
  }

  /** A text is refused from a character that starts no token ... */
  lemma StrayRefused(s: string)
    requires s != "" && !MayStart(s[0])
    ensures Lex(s) == Err(Syntax)
  {
    if |s| >= 2 { assert s[..2][0] == s[0]; }
    assert TwoCharOp(s) == None;
    hide TwoCharOp;
  }

  /** ... and from a string that does not end. */
  lemma OpenRefused(s: string)
    requires s != "" && s[0] == '\'' && '\'' !in s[1..]
    ensures Lex(s) == Err(Syntax)
  {
    OpenEnded(s[1..]);
    hide StringBody;
  }

  lemma {:induction false} OpenEnded(s: string)
    requires '\'' !in s
    ensures StringBody(s) == None
  {
    if s != "" { OpenEnded(s[1..]); }
  }

  // ---- Order -------------------------------------------------------------

  /** ORDER BY is ascending unless it says DESC; ASC may be said. */
  lemma Directions(c: string, k: seq<Token>)
    requires Terminated(k)
    ensures ParseDirection(Printer.Then(Keyword(KAsc), k)) == (false, k)
    ensures ParseDirection(Printer.Then(Keyword(KDesc), k)) == (true, k)
    ensures !IsKw(k, KAsc) && !IsKw(k, KDesc) ==> ParseDirection(k) == (false, k)
  {
  }

  /** `ORDER BY c ASC` is `ORDER BY c`, and `ORDER BY c DESC` is the other way round. */
  lemma OrderDirections(c: string, k: seq<Token>)
    requires Terminated(k) && !IsKw(k, KAsc) && !IsKw(k, KDesc)
    ensures ParseOrder(OrderTokens(c, k)) == Ok((Some(OrderBy(c, false)), k))
    ensures ParseOrder(OrderTokens(c, Printer.Then(Keyword(KAsc), k))) == Ok((Some(OrderBy(c, false)), k))
    ensures ParseOrder(OrderTokens(c, Printer.Then(Keyword(KDesc), k))) == Ok((Some(OrderBy(c, true)), k))
  {
    Directions(c, k);
    hide ParseDirection, Printer.Then;
    OrderParsed(c, k);
    OrderParsed(c, Printer.Then(Keyword(KAsc), k));
    OrderParsed(c, Printer.Then(Keyword(KDesc), k));
  }

  function OrderTokens(c: string, k: seq<Token>): (ts: seq<Token>)
    requires Terminated(k)
    ensures Terminated(ts)
  {
    Printer.Then(Keyword(KOrder), Printer.Then(Keyword(KBy), Printer.Then(Identifier(c), k)))
  }

  lemma OrderParsed(c: string, k: seq<Token>)
    requires Terminated(k)
    ensures ParseOrder(OrderTokens(c, k)) == Ok((Some(OrderBy(c, ParseDirection(k).0)), ParseDirection(k).1))
  {
    hide ParseDirection, Terminated;
  }
}
