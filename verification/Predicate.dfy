/** WHERE expressions: their meaning on one row, and the vectorized evaluation of a batch. */
module Predicate {
  import opened Wrappers
  import opened Bits
  import opened Bytes
  import opened Text
  import opened Ast

  /** Named columns of equal length: a store, or one batch of it. */
  type Columns = map<string, seq<int>>

  ghost predicate HasRow(t: Columns, names: set<string>, i: nat) {
    forall c :: c in names ==> c in t && i < |t[c]|
  }

  // ---- LIKE patterns -----------------------------------------------------

  /** The first `k` octets shifted together, missing ones as zero. */
  function LowOf(known: seq<nat>, k: nat): nat {
    if k == 0 then 0
    else if k - 1 < |known| then Or(LowOf(known, k - 1) * 256, known[k - 1])
    else LowOf(known, k - 1) * 256
  }

  /** The same with missing octets as 255. */
  function HighOf(known: seq<nat>, k: nat): nat {
    if k == 0 then 0
    else Or(HighOf(known, k - 1) * 256, if k - 1 < |known| then known[k - 1] else 255)
  }

  /** `ip_prefix_range`: the numeric interval of a pattern. */
  method IpPrefixRange(pattern: string) returns (r: Result<(nat, nat), ValueError>)
    ensures LikeOctets(pattern).Err? ==> r.Err?
    ensures LikeOctets(pattern).Ok? ==>
      r == Ok((LowOf(LikeOctets(pattern).value, 4), HighOf(LikeOctets(pattern).value, 4)))
  {
    var parsed := LikeOctets(pattern);
    if parsed.Err? {
      return Err(parsed.error);
    }
    var known := parsed.value;
    var low, high := 0, 0;
    for k := 0 to 4
      invariant low == LowOf(known, k) && high == HighOf(known, k)
    {
      if k < |known| {
        low := Or(low * 256, known[k]);
        high := Or(high * 256, known[k]);
      } else {
        low := low * 256;
        high := Or(high * 256, 255);
      }
    }
    r := Ok((low, high));
  }

  /** Up to four octets, the interval is one block of addresses sharing the known octets. */
  lemma RangeIsBlock(known: seq<nat>)
    requires |known| <= 4
    ensures LowOf(known, 4) % Pow2(32 - 8 * |known|) == 0
    ensures HighOf(known, 4) == LowOf(known, 4) + Pow2(32 - 8 * |known|) - 1
  {
    var n := |known|;
    SameKnown(known, n);
    BlockFrom(known, 4);
    Pow2Bytes(4 - n);
    assert 8 * (4 - n) == 32 - 8 * n;
    var f, m := LowOf(known, n), Pow2(32 - 8 * n);
    assert LowOf(known, 4) == m * f + 0;
    DivUnique(LowOf(known, 4), m, f, 0);
  }

  lemma {:induction false} Pow2Bytes(k: nat)
    ensures Pow2(8 * k) == Pow256(k)
  {
    if k != 0 {
      Pow2Bytes(k - 1);
      assert Pow2(8) == 256;
      Pow2Add(8, 8 * (k - 1));
    }
  }

  lemma {:induction false} SameKnown(known: seq<nat>, k: nat)
    requires k <= |known|
    ensures LowOf(known, k) == HighOf(known, k)
  {
    if k != 0 { SameKnown(known, k - 1); }
  }

  lemma {:induction false} BlockFrom(known: seq<nat>, k: nat)
    requires |known| <= k && LowOf(known, |known|) == HighOf(known, |known|)
    ensures LowOf(known, k) == Pow256(k - |known|) * LowOf(known, |known|)
    ensures HighOf(known, k) == LowOf(known, k) + Pow256(k - |known|) - 1
    decreases k
  {
    hide Or;
    if k > |known| {
      BlockFrom(known, k - 1);
      assert LowOf(known, k) == 256 * LowOf(known, k - 1);
      assert HighOf(known, k) == 256 * HighOf(known, k - 1) + 255 by {
        assert Pow2(8) == 256;
        OrIsAdd(HighOf(known, k - 1), 8, 255);
      }
      TimesGroups(Pow256(k - 1 - |known|), LowOf(known, |known|));
    } else {
      assert Pow256(0) * LowOf(known, |known|) == LowOf(known, |known|);
    }
  }

  lemma TimesGroups(p: nat, f: nat)
    ensures (256 * p) * f == 256 * (p * f)
  {
  }

  /** `_like_to_prefix`: the known octets at the top of 32 bits, and how many bits they are. */
  method LikeToPrefix(pattern: string) returns (r: Result<(nat, nat), ValueError>)
    ensures LikeOctets(pattern).Err? ==> r.Err?
    ensures LikeOctets(pattern).Ok? ==>
      r == Ok((LowOf(LikeOctets(pattern).value, 4), 8 * |LikeOctets(pattern).value|))
  {
    var parsed := LikeOctets(pattern);
    if parsed.Err? {
      return Err(parsed.error);
    }
    var known := parsed.value;
    var value := 0;
    for k := 0 to 4
      invariant value == LowOf(known, k)
    {
      OrZero(value * 256);
      value := Or(value * 256, if k < |known| then known[k] else 0);
    }
    r := Ok((value, |known| * 8));
  }

  // ---- Meaning -----------------------------------------------------------

  predicate IsOperand(e: Expr) {
    e.ColumnRef? || e.Literal?
  }

  predicate IsNumeric(e: Expr) {
    e.ColumnRef? || (e.Literal? && IsNumber(e.value))
  }

  /** The predicates that Python evaluates without raising: operands are columns and literals,
      `<` compares numbers, LIKE compares a column with a readable pattern. */
  predicate Typed(e: Expr) {
    match e
    case BinaryOp(op, l, r) =>
      if op == AndOp || op == OrOp then Typed(l) && Typed(r)
      else if op == Like then l.ColumnRef? && r.Literal? && r.value.StrV? && LikeOctets(r.value.s).Ok?
      else
        && IsOperand(l) && IsOperand(r)
        && (l.Literal? && !l.value.StrV? ==> IsNumber(l.value))
        && (r.Literal? && !r.value.StrV? ==> IsNumber(r.value))
        && (op != Eq && op != Ne ==> IsNumeric(l) && IsNumeric(r))
    case Not(x) => Typed(x)
    case _ => false
  }

  /** `columns_in` */
  function ColumnsIn(e: Expr): (names: set<string>)
    ensures e.ColumnRef? ==> e.name in names
    ensures e.BinaryOp? && e.left.ColumnRef? ==> e.left.name in names
    ensures e.BinaryOp? && e.right.ColumnRef? ==> e.right.name in names
  {
    match e
    case ColumnRef(c) => {c}
    case BinaryOp(_, l, r) => ColumnsIn(l) + ColumnsIn(r)
    case Not(x) => ColumnsIn(x)
    case _ => {}
  }

  /** Python's comparison of two operand values: numbers by value, a string never equals a number. */
  predicate Compare(op: Op, a: Value, b: Value) {
    if IsNumber(a) && IsNumber(b) then
      var x, y := NumberOf(a), NumberOf(b);
      match op
      case Eq => x == y
      case Ne => x != y
      case Lt => x < y
      case Gt => x > y
      case Le => x <= y
      case _ => x >= y
    else if op == Ne then a != b
    else a == b
  }

  function OperandAt(e: Expr, t: Columns, i: nat): Value
    requires IsOperand(e) && (e.ColumnRef? ==> e.name in t && i < |t[e.name]|)
  {
    if e.ColumnRef? then IntV(t[e.name][i]) else e.value
  }

  /** What a WHERE expression means on row `i`. */
  predicate EvalAt(e: Expr, t: Columns, i: nat)
    requires Typed(e) && HasRow(t, ColumnsIn(e), i)
  {
    match e
    case BinaryOp(op, l, r) =>
      if op == AndOp then EvalAt(l, t, i) && EvalAt(r, t, i)
      else if op == OrOp then EvalAt(l, t, i) || EvalAt(r, t, i)
      else if op == Like then
        var known := LikeOctets(r.value.s).value;
        LowOf(known, 4) <= t[l.name][i] <= HighOf(known, 4)
      else Compare(op, OperandAt(l, t, i), OperandAt(r, t, i))
    case Not(x) => !EvalAt(x, t, i)
  }

  /** The meaning depends only on the columns the expression names. */
  lemma {:induction false} EvalAgrees(e: Expr, t: Columns, i: nat, u: Columns, j: nat)
    requires Typed(e) && HasRow(t, ColumnsIn(e), i) && HasRow(u, ColumnsIn(e), j)
    requires forall c :: c in ColumnsIn(e) ==> t[c][i] == u[c][j]
    ensures EvalAt(e, t, i) == EvalAt(e, u, j)
  {
    match e
    case BinaryOp(op, l, r) =>
      if op == AndOp || op == OrOp {
        EvalAgrees(l, t, i, u, j);
        EvalAgrees(r, t, i, u, j);
      }
    case Not(x) => EvalAgrees(x, t, i, u, j);
  }

  // ---- The vectorized evaluation -----------------------------------------

  /** `_vector` */
  function Vector(e: Expr, batch: Columns, n: nat): (v: seq<Value>)
    requires IsOperand(e) && (e.ColumnRef? ==> e.name in batch && |batch[e.name]| == n)
    ensures |v| == n
  {
    if e.ColumnRef? then seq(n, i requires 0 <= i < n => IntV(batch[e.name][i])) else seq(n, _ => e.value)
  }

  ghost predicate IsBatch(batch: Columns, names: set<string>, n: nat) {
    forall c :: c in names ==> c in batch && |batch[c]| == n
  }

  /** `evaluate_mask`: whole columns at a time. */
  function EvaluateMask(e: Expr, batch: Columns, n: nat): (mask: seq<bool>)
    requires Typed(e) && IsBatch(batch, ColumnsIn(e), n)
    ensures |mask| == n
  {
    match e
    case BinaryOp(op, l, r) =>
      if op == AndOp then
        var a, b := EvaluateMask(l, batch, n), EvaluateMask(r, batch, n);
        seq(n, i requires 0 <= i < n => a[i] && b[i])
      else if op == OrOp then
        var a, b := EvaluateMask(l, batch, n), EvaluateMask(r, batch, n);
        seq(n, i requires 0 <= i < n => a[i] || b[i])
      else if op == Like then
        var known := LikeOctets(r.value.s).value;
        var low, high := LowOf(known, 4), HighOf(known, 4);
        seq(n, i requires 0 <= i < n => low <= batch[l.name][i] <= high)
      else
        var a, b := Vector(l, batch, n), Vector(r, batch, n);
        seq(n, i requires 0 <= i < n => Compare(op, a[i], b[i]))
    case Not(x) =>
      var a := EvaluateMask(x, batch, n);
      seq(n, i requires 0 <= i < n => !a[i])
  }

  /** Column-at-a-time evaluation gives every row its own meaning. */
  lemma {:induction false} MaskIsEval(e: Expr, batch: Columns, n: nat)
    requires Typed(e) && IsBatch(batch, ColumnsIn(e), n)
    ensures forall i :: 0 <= i < n ==> (EvaluateMask(e, batch, n)[i] <==> EvalAt(e, batch, i))
  {
    match e
    case BinaryOp(op, l, r) =>
      if op == AndOp || op == OrOp {
        MaskIsEval(l, batch, n);
        MaskIsEval(r, batch, n);
      }
    case Not(x) => MaskIsEval(x, batch, n);
  }
}
