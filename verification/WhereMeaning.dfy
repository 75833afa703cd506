/** What a WHERE clause selects, in terms of the stored numbers alone (packetql/query/executor.py). */
module WhereMeaning {
  import opened Wrappers
  import opened Ast
  import opened Predicate
  import opened IndexPlan
  import opened Engine
  import Addresses
  import Text

  /** Row i is selected by this WHERE. */
  ghost predicate Selects(e: Expr, t: Columns, n: nat, i: nat)
    requires StoreColumns(t, n) && Typed(e) && ColumnsIn(e) <= NAMES
  {
    i in Selected(Some(e), t, n)
  }

  lemma SelectsWhen(e: Expr, t: Columns, n: nat, i: nat)
    requires StoreColumns(t, n) && Typed(e) && ColumnsIn(e) <= NAMES
    ensures Selects(e, t, n, i) <==> i < n && EvalAt(e, t, i)
  {
    MatchingExact(e, t, n);
  }

  /** Rows are selected in the order of the store, each once, and without a WHERE all of them are. */
  lemma SelectedInOrder(where: Option<Expr>, t: Columns, n: nat)
    requires StoreColumns(t, n) && WhereTyped(where) && (where.Some? ==> ColumnsIn(where.value) <= NAMES)
    ensures forall k, l :: 0 <= k < l < |Selected(where, t, n)| ==> Selected(where, t, n)[k] < Selected(where, t, n)[l]
    ensures where == None ==> forall i: nat :: i in Selected(where, t, n) <==> i < n
  {
    if where.Some? {
      MatchingExact(where.value, t, n);
    } else {
      var all := Selected(where, t, n);
      forall i: nat ensures i in all <==> i < n { if i < n { assert all[i] == i; } }
    }
  }

  // ---- Comparisons -------------------------------------------------------

  function Compared(op: Op, l: Expr, r: Expr): (e: Expr)
    requires IsComparison(op)
    ensures l.ColumnRef? && r.Literal? ==> ColumnsIn(e) == {l.name}
    ensures l.Literal? && r.ColumnRef? ==> ColumnsIn(e) == {r.name}
    ensures l.ColumnRef? && r.ColumnRef? ==> ColumnsIn(e) == {l.name, r.name}
    ensures l.Literal? && r.Literal? ==> ColumnsIn(e) == {}
  {
    BinaryOp(op, l, r)
  }

  /** An operand that is the integer `x` at row `i`. */
  ghost predicate StandsFor(e: Expr, t: Columns, i: nat, x: int) {
    match e
    case ColumnRef(c) => c in NAMES && c in t && i < |t[c]| && t[c][i] == x
    case Literal(v) => v == IntV(x)
    case _ => false
  }

  lemma Decides(op: Op, l: Expr, r: Expr, t: Columns, n: nat, i: nat, x: int, y: int)
    requires StoreColumns(t, n) && i < n && IsComparison(op) && StandsFor(l, t, i, x) && StandsFor(r, t, i, y)
    ensures Selects(Compared(op, l, r), t, n, i) <==> match op
      case Eq => x == y
      case Ne => x != y
      case Lt => x < y
      case Gt => x > y
      case Le => x <= y
      case _ => x >= y
  {
    SelectsWhen(Compared(op, l, r), t, n, i);
    hide Selects;
  }

  /** A column against an integer. */
  lemma ColumnWithInteger(t: Columns, n: nat, c: string, k: int, i: nat)
    requires StoreColumns(t, n) && c in NAMES && i < n
    ensures Selects(Compared(Eq, ColumnRef(c), Literal(IntV(k))), t, n, i) <==> t[c][i] == k
    ensures Selects(Compared(Ne, ColumnRef(c), Literal(IntV(k))), t, n, i) <==> t[c][i] != k
    ensures Selects(Compared(Lt, ColumnRef(c), Literal(IntV(k))), t, n, i) <==> t[c][i] < k
    ensures Selects(Compared(Gt, ColumnRef(c), Literal(IntV(k))), t, n, i) <==> t[c][i] > k
    ensures Selects(Compared(Le, ColumnRef(c), Literal(IntV(k))), t, n, i) <==> t[c][i] <= k
    ensures Selects(Compared(Ge, ColumnRef(c), Literal(IntV(k))), t, n, i) <==> t[c][i] >= k
  {
    assert |t[c]| == n;
    hide StoreColumns, Selects, Compared;
    Decides(Eq, ColumnRef(c), Literal(IntV(k)), t, n, i, t[c][i], k);
    Decides(Ne, ColumnRef(c), Literal(IntV(k)), t, n, i, t[c][i], k);
    Decides(Lt, ColumnRef(c), Literal(IntV(k)), t, n, i, t[c][i], k);
    Decides(Gt, ColumnRef(c), Literal(IntV(k)), t, n, i, t[c][i], k);
    Decides(Le, ColumnRef(c), Literal(IntV(k)), t, n, i, t[c][i], k);
    Decides(Ge, ColumnRef(c), Literal(IntV(k)), t, n, i, t[c][i], k);
  }

  /** An integer against a column. */
  lemma IntegerWithColumn(t: Columns, n: nat, c: string, k: int, i: nat)
    requires StoreColumns(t, n) && c in NAMES && i < n
    ensures Selects(Compared(Eq, Literal(IntV(k)), ColumnRef(c)), t, n, i) <==> k == t[c][i]
    ensures Selects(Compared(Ne, Literal(IntV(k)), ColumnRef(c)), t, n, i) <==> k != t[c][i]
    ensures Selects(Compared(Lt, Literal(IntV(k)), ColumnRef(c)), t, n, i) <==> k < t[c][i]
    ensures Selects(Compared(Gt, Literal(IntV(k)), ColumnRef(c)), t, n, i) <==> k > t[c][i]
    ensures Selects(Compared(Le, Literal(IntV(k)), ColumnRef(c)), t, n, i) <==> k <= t[c][i]
    ensures Selects(Compared(Ge, Literal(IntV(k)), ColumnRef(c)), t, n, i) <==> k >= t[c][i]
  {
    assert |t[c]| == n;
    hide StoreColumns, Selects, Compared;
    Decides(Eq, Literal(IntV(k)), ColumnRef(c), t, n, i, k, t[c][i]);
    Decides(Ne, Literal(IntV(k)), ColumnRef(c), t, n, i, k, t[c][i]);
    Decides(Lt, Literal(IntV(k)), ColumnRef(c), t, n, i, k, t[c][i]);
    Decides(Gt, Literal(IntV(k)), ColumnRef(c), t, n, i, k, t[c][i]);
    Decides(Le, Literal(IntV(k)), ColumnRef(c), t, n, i, k, t[c][i]);
    Decides(Ge, Literal(IntV(k)), ColumnRef(c), t, n, i, k, t[c][i]);
  }

  /** Two columns of one row. */
  lemma ColumnWithColumn(t: Columns, n: nat, c: string, d: string, i: nat)
    requires StoreColumns(t, n) && c in NAMES && d in NAMES && i < n
    ensures Selects(Compared(Eq, ColumnRef(c), ColumnRef(d)), t, n, i) <==> t[c][i] == t[d][i]
    ensures Selects(Compared(Ne, ColumnRef(c), ColumnRef(d)), t, n, i) <==> t[c][i] != t[d][i]
    ensures Selects(Compared(Lt, ColumnRef(c), ColumnRef(d)), t, n, i) <==> t[c][i] < t[d][i]
    ensures Selects(Compared(Gt, ColumnRef(c), ColumnRef(d)), t, n, i) <==> t[c][i] > t[d][i]
    ensures Selects(Compared(Le, ColumnRef(c), ColumnRef(d)), t, n, i) <==> t[c][i] <= t[d][i]
    ensures Selects(Compared(Ge, ColumnRef(c), ColumnRef(d)), t, n, i) <==> t[c][i] >= t[d][i]
  {
    assert |t[c]| == n;
    hide StoreColumns, Selects, Compared;
    Decides(Eq, ColumnRef(c), ColumnRef(d), t, n, i, t[c][i], t[d][i]);
    Decides(Ne, ColumnRef(c), ColumnRef(d), t, n, i, t[c][i], t[d][i]);
    Decides(Lt, ColumnRef(c), ColumnRef(d), t, n, i, t[c][i], t[d][i]);
    Decides(Gt, ColumnRef(c), ColumnRef(d), t, n, i, t[c][i], t[d][i]);
    Decides(Le, ColumnRef(c), ColumnRef(d), t, n, i, t[c][i], t[d][i]);
    Decides(Ge, ColumnRef(c), ColumnRef(d), t, n, i, t[c][i], t[d][i]);
  }

  /** Turning a comparison round turns its operator round. */
  lemma Mirrored(t: Columns, n: nat, a: Expr, b: Expr, i: nat)
    requires StoreColumns(t, n) && i < n && IsNumeric(a) && IsNumeric(b)
    requires (a.ColumnRef? ==> a.name in NAMES) && (b.ColumnRef? ==> b.name in NAMES)
    ensures Selects(Compared(Lt, a, b), t, n, i) <==> Selects(Compared(Gt, b, a), t, n, i)
    ensures Selects(Compared(Le, a, b), t, n, i) <==> Selects(Compared(Ge, b, a), t, n, i)
  {
    hide NumberOf;
    SelectsWhen(Compared(Lt, a, b), t, n, i);
    SelectsWhen(Compared(Gt, b, a), t, n, i);
    SelectsWhen(Compared(Le, a, b), t, n, i);
    SelectsWhen(Compared(Ge, b, a), t, n, i);
    hide Selects;
  }

  lemma MirroredEqual(t: Columns, n: nat, a: Expr, b: Expr, i: nat)
    requires StoreColumns(t, n) && i < n && IsNumeric(a) && IsNumeric(b)
    requires (a.ColumnRef? ==> a.name in NAMES) && (b.ColumnRef? ==> b.name in NAMES)
    ensures Selects(Compared(Eq, a, b), t, n, i) <==> Selects(Compared(Eq, b, a), t, n, i)
    ensures Selects(Compared(Ne, a, b), t, n, i) <==> Selects(Compared(Ne, b, a), t, n, i)
  {
    hide NumberOf;
    SelectsWhen(Compared(Eq, a, b), t, n, i);
    SelectsWhen(Compared(Eq, b, a), t, n, i);
    SelectsWhen(Compared(Ne, a, b), t, n, i);
    SelectsWhen(Compared(Ne, b, a), t, n, i);
    hide Selects;
  }

  /** A text equals no number. */
  lemma ColumnWithText(t: Columns, n: nat, c: string, s: string, i: nat)
    requires StoreColumns(t, n) && c in NAMES && i < n
    ensures !Selects(Compared(Eq, ColumnRef(c), Literal(StrV(s))), t, n, i)
    ensures Selects(Compared(Ne, ColumnRef(c), Literal(StrV(s))), t, n, i)
  {
    SelectsWhen(Compared(Eq, ColumnRef(c), Literal(StrV(s))), t, n, i);
    SelectsWhen(Compared(Ne, ColumnRef(c), Literal(StrV(s))), t, n, i);
  }

  function TenTo(k: nat): (p: nat)
    ensures p >= 1
  {
    if k == 0 then 1 else 10 * TenTo(k - 1)
  }

  lemma {:induction false} PowTenIs(k: nat)
    ensures PowTen(k) == TenTo(k) as real
  {
    if k != 0 { PowTenIs(k - 1); }
  }

  /** A decimal literal is its digits over a power of ten. */
  lemma DecimalValue(w: string, f: string, v: int)
    requires Text.AllDigits(w) && Text.AllDigits(f)
    ensures var p := TenTo(|f|); var k := Text.DigitsValue(w) * p + Text.DigitsValue(f);
      && (v as real < NumberOf(FloatV(w, f)) <==> v * p < k)
      && (v as real == NumberOf(FloatV(w, f)) <==> v * p == k)
  {
    PowTenIs(|f|);
    Scaled(v, Text.DigitsValue(w), Text.DigitsValue(f), TenTo(|f|));
  }

  lemma Scaled(v: int, a: nat, b: nat, p: nat)
    requires p >= 1
    ensures var x := (a as real) + (b as real) / (p as real);
      (v as real < x <==> v * p < a * p + b) && (v as real == x <==> v * p == a * p + b)
  {
    var x, q := (a as real) + (b as real) / (p as real), p as real;
    TimesDivisor(a as real, b as real, q);
    WholeProduct(a, p);
    WholeProduct(v, p);
    hide *;
    if v as real < x { ScaleLess(v as real, x, q); }
    if x < v as real { ScaleLess(x, v as real, q); }
  }

  lemma TimesDivisor(a: real, b: real, q: real)
    requires q > 0.0
    ensures (a + b / q) * q == a * q + b
  {
    var d := b / q;
    assert d * q == b;
    assert (a + d) * q == a * q + d * q;
  }

  lemma WholeProduct(v: int, p: nat)
    ensures (v as real) * (p as real) == (v * p) as real
  {
  }

  lemma ScaleLess(x: real, y: real, q: real)
    requires x < y && q > 0.0
    ensures x * q < y * q
  {
  }

  lemma DecidesDecimal(op: Op, t: Columns, n: nat, c: string, w: string, f: string, i: nat)
    requires StoreColumns(t, n) && c in NAMES && i < n && IsComparison(op) && Text.AllDigits(w) && Text.AllDigits(f)
    ensures var v, k := t[c][i] * TenTo(|f|), Text.DigitsValue(w) * TenTo(|f|) + Text.DigitsValue(f);
      Selects(Compared(op, ColumnRef(c), Literal(FloatV(w, f))), t, n, i) <==> match op
        case Eq => v == k
        case Ne => v != k
        case Lt => v < k
        case Gt => v > k
        case Le => v <= k
        case _ => v >= k
  {
    hide TenTo, Text.DigitsValue, Selects;
    DecimalValue(w, f, t[c][i]);
    hide NumberOf;
    SelectsWhen(Compared(op, ColumnRef(c), Literal(FloatV(w, f))), t, n, i);
  }

  /** A column against a decimal: both sides times the power of ten that makes the literal whole. */
  lemma ColumnWithDecimal(t: Columns, n: nat, c: string, w: string, f: string, i: nat)
    requires StoreColumns(t, n) && c in NAMES && i < n && Text.AllDigits(w) && Text.AllDigits(f)
    ensures var v, k := t[c][i] * TenTo(|f|), Text.DigitsValue(w) * TenTo(|f|) + Text.DigitsValue(f);
      && (Selects(Compared(Eq, ColumnRef(c), Literal(FloatV(w, f))), t, n, i) <==> v == k)
      && (Selects(Compared(Ne, ColumnRef(c), Literal(FloatV(w, f))), t, n, i) <==> v != k)
      && (Selects(Compared(Lt, ColumnRef(c), Literal(FloatV(w, f))), t, n, i) <==> v < k)
      && (Selects(Compared(Gt, ColumnRef(c), Literal(FloatV(w, f))), t, n, i) <==> v > k)
      && (Selects(Compared(Le, ColumnRef(c), Literal(FloatV(w, f))), t, n, i) <==> v <= k)
      && (Selects(Compared(Ge, ColumnRef(c), Literal(FloatV(w, f))), t, n, i) <==> v >= k)
  {
    assert |t[c]| == n;
    hide TenTo, Text.DigitsValue, StoreColumns, Selects, Compared;
    DecidesDecimal(Eq, t, n, c, w, f, i);
    DecidesDecimal(Ne, t, n, c, w, f, i);
    DecidesDecimal(Lt, t, n, c, w, f, i);
    DecidesDecimal(Gt, t, n, c, w, f, i);
    DecidesDecimal(Le, t, n, c, w, f, i);
    DecidesDecimal(Ge, t, n, c, w, f, i);
  }

  // ---- Connectives -------------------------------------------------------

  function Joined(op: Op, l: Expr, r: Expr): (e: Expr)
    requires op == AndOp || op == OrOp
    ensures ColumnsIn(e) == ColumnsIn(l) + ColumnsIn(r) && (Typed(e) <==> Typed(l) && Typed(r))
  {
    BinaryOp(op, l, r)
  }

  function Negated(x: Expr): (e: Expr)
    ensures ColumnsIn(e) == ColumnsIn(x) && (Typed(e) <==> Typed(x))
  {
    Not(x)
  }

  /** AND selects what both sides select, OR what one of them does, NOT the other rows of the store. */
  lemma Connectives(t: Columns, n: nat, a: Expr, b: Expr, i: nat)
    requires StoreColumns(t, n) && Typed(a) && Typed(b) && ColumnsIn(a) <= NAMES && ColumnsIn(b) <= NAMES
    ensures Selects(Joined(AndOp, a, b), t, n, i) <==> Selects(a, t, n, i) && Selects(b, t, n, i)
    ensures Selects(Joined(OrOp, a, b), t, n, i) <==> Selects(a, t, n, i) || Selects(b, t, n, i)
    ensures Selects(Negated(a), t, n, i) <==> i < n && !Selects(a, t, n, i)
  {
    SelectsWhen(a, t, n, i);
    SelectsWhen(b, t, n, i);
    SelectsWhen(Joined(AndOp, a, b), t, n, i);
    SelectsWhen(Joined(OrOp, a, b), t, n, i);
    SelectsWhen(Negated(a), t, n, i);
    hide Selects;
  }

  // ---- Addresses ---------------------------------------------------------

  function LikeExpr(c: string, pattern: string): (e: Expr)
    ensures ColumnsIn(e) == {c} && (Text.LikeOctets(pattern).Ok? ==> Typed(e))
  {
    BinaryOp(Like, ColumnRef(c), Literal(StrV(pattern)))
  }

  /** `c LIKE '10.0.%'` selects the rows whose address starts with those octets. */
  lemma LikeSelects(t: Columns, n: nat, c: string, ns: seq<nat>, tail: string, i: nat)
    requires StoreColumns(t, n) && c in TRIE_COLS && i < n
    requires 1 <= |ns| <= 4 && (forall k :: 0 <= k < |ns| ==> ns[k] < 256) && tail in {"", ".", "%", ".%"}
    ensures Text.LikeOctets(Addresses.Dotted(ns) + tail).Ok?
    ensures Selects(LikeExpr(c, Addresses.Dotted(ns) + tail), t, n, i)
      <==> forall k :: 0 <= k < |ns| ==> Addresses.Octets(t[c][i])[k] == ns[k]
  {
    hide Addresses.Dotted, Addresses.Octets, Text.LikeOctets;
    Addresses.PatternOctets(ns, tail);
    SelectsWhen(LikeExpr(c, Addresses.Dotted(ns) + tail), t, n, i);
    Addresses.PatternInterval(ns, t[c][i]);
    hide Selects, LowOf, HighOf;
  }

  /** `c LIKE '%'` selects every row. */
  lemma LikeAnything(t: Columns, n: nat, c: string, i: nat)
    requires StoreColumns(t, n) && c in TRIE_COLS && i < n
    ensures Text.LikeOctets("%").Ok? && Selects(LikeExpr(c, "%"), t, n, i)
  {
    Addresses.AnyOctets();
    hide Selects, LowOf, HighOf, Text.LikeOctets;
    SelectsWhen(LikeExpr(c, "%"), t, n, i);
    Addresses.PatternInterval([], t[c][i]);
  }
}
