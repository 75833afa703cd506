/** Python's shifts and bitwise operators on its unbounded integers. */
module Bits {

  function Pow2(k: nat): (r: nat)
    ensures r >= 1
  {
    if k == 0 then 1 else 2 * Pow2(k - 1)
  }

  /** `v >> k`, which floors for negative `v` too. */
  function Shr(v: int, k: nat): int {
    if k == 0 then v else Shr(v, k - 1) / 2
  }

  /** `a | b` */
  function Or(a: nat, b: nat): nat
    decreases a
  {
    if a == 0 then b
    else 2 * Or(a / 2, b / 2) + (if a % 2 == 1 || b % 2 == 1 then 1 else 0)
  }

  /** Bit `k` of `n`. */
  predicate Bit(n: nat, k: nat) {
    if k == 0 then n % 2 == 1 else Bit(n / 2, k - 1)
  }

  /** `a & b` */
  function And(a: nat, b: nat): nat
    decreases a
  {
    if a == 0 then 0
    else 2 * And(a / 2, b / 2) + (if a % 2 == 1 && b % 2 == 1 then 1 else 0)
  }

  /** `bin(n).count("1")` */
  function PopCount(n: nat): nat {
    if n == 0 then 0 else PopCount(n / 2) + n % 2
  }

  lemma {:induction false} Pow2Add(a: nat, b: nat)
    ensures Pow2(a + b) == Pow2(a) * Pow2(b)
  {
    if a != 0 {
      Pow2Add(a - 1, b);
      DoubleProduct(Pow2(a - 1), Pow2(b));
    }
  }

  lemma DoubleProduct(x: nat, y: nat)
    ensures (2 * x) * y == 2 * (x * y)
  {
  }

  lemma {:induction false} BitZero(k: nat)
    ensures !Bit(0, k)
  {
    if k != 0 { BitZero(k - 1); }
  }

  lemma {:induction false} BitOr(a: nat, b: nat, k: nat)
    ensures Bit(Or(a, b), k) <==> Bit(a, k) || Bit(b, k)
  {
    if a == 0 {
      BitZero(k);
    } else if k != 0 {
      assert Or(a, b) / 2 == Or(a / 2, b / 2);
      BitOr(a / 2, b / 2, k - 1);
    }
  }

  lemma {:induction false} BitAnd(a: nat, b: nat, k: nat)
    ensures Bit(And(a, b), k) <==> Bit(a, k) && Bit(b, k)
  {
    if a == 0 {
      BitZero(k);
    } else if k != 0 {
      assert And(a, b) / 2 == And(a / 2, b / 2);
      BitAnd(a / 2, b / 2, k - 1);
    }
  }

  /** The bits of a low part and a shifted high part. */
  lemma {:induction false} BitOfSum(low: nat, j: nat, high: nat, k: nat)
    requires low < Pow2(j)
    ensures Bit(low + Pow2(j) * high, k) <==> if k < j then Bit(low, k) else Bit(high, k - j)
  {
    if j != 0 {
      var n := low + Pow2(j) * high;
      assert n == low + 2 * (Pow2(j - 1) * high) by { assert Pow2(j) * high == 2 * (Pow2(j - 1) * high); }
      assert n / 2 == low / 2 + Pow2(j - 1) * high && n % 2 == low % 2;
      if k != 0 { BitOfSum(low / 2, j - 1, high, k - 1); }
    } else {
      assert Pow2(j) * high == high;
    }
  }

  /** Bit `j` of `1 << k`. */
  lemma {:induction false} BitPow2(k: nat, j: nat)
    ensures Bit(Pow2(k), j) <==> j == k
  {
    if k == 0 {
      if j != 0 { BitZero(j - 1); }
    } else if j != 0 {
      assert Pow2(k) / 2 == Pow2(k - 1);
      BitPow2(k - 1, j - 1);
    }
  }

  /** A natural number is determined by its bits. */
  lemma {:induction false} BitsUnique(a: nat, b: nat)
    requires forall k: nat :: Bit(a, k) <==> Bit(b, k)
    ensures a == b
    decreases a + b
  {
    if a != 0 || b != 0 {
      assert Bit(a, 0) <==> Bit(b, 0);
      forall k: nat ensures Bit(a / 2, k) <==> Bit(b / 2, k) {
        assert Bit(a, k + 1) <==> Bit(b, k + 1);
      }
      BitsUnique(a / 2, b / 2);
    }
  }

  /** `|` does not leave the range of its operands. */
  lemma {:induction false} OrBelow(a: nat, b: nat, m: nat)
    requires a < Pow2(m) && b < Pow2(m)
    ensures Or(a, b) < Pow2(m)
  {
    if a != 0 {
      OrBelow(a / 2, b / 2, m - 1);
    }
  }

  /** OR-ing a low part into vacated bits is addition. */
  lemma {:induction false} OrIsAdd(a: nat, k: nat, b: nat)
    requires b < Pow2(k)
    ensures Or(a * Pow2(k), b) == a * Pow2(k) + b
  {
    if a == 0 {
    } else if k == 0 {
      assert a * Pow2(k) == a;
      OrZero(a);
    } else {
      var x := a * Pow2(k);
      assert x == 2 * (a * Pow2(k - 1)) by { assert Pow2(k) == 2 * Pow2(k - 1); }
      assert x > 0 by { PositiveProduct(a, Pow2(k)); }
      assert x / 2 == a * Pow2(k - 1);
      OrIsAdd(a, k - 1, b / 2);
    }
  }

  lemma PositiveProduct(a: nat, b: nat)
    requires a > 0 && b > 0
    ensures a * b > 0
  {
  }

  lemma {:induction false} OrZero(a: nat)
    ensures Or(a, 0) == a
  {
    if a != 0 { OrZero(a / 2); }
  }

  /** `>>` is division by the power of two, rounding down. */
  lemma {:induction false} ShrIsDiv(v: int, k: nat)
    ensures Shr(v, k) == v / Pow2(k)
  {
    if k != 0 {
      ShrIsDiv(v, k - 1);
      DivDiv(v, Pow2(k - 1));
    }
  }

  lemma DivDiv(v: int, m: nat)
    requires m >= 1
    ensures v / m / 2 == v / (2 * m)
  {
    var q, r := v / m, v % m;
    assert v == m * q + r;
    var q2, r2 := q / 2, q % 2;
    assert q == 2 * q2 + r2;
    assert v == (2 * m) * q2 + (m * r2 + r) by {
      assert m * q == m * (2 * q2) + m * r2;
      assert m * (2 * q2) == (2 * m) * q2;
    }
    assert 0 <= m * r2 + r < 2 * m;
    DivUnique(v, 2 * m, q2, m * r2 + r);
  }

  /** Quotient and remainder are unique. */
  lemma DivUnique(v: int, m: nat, q: int, r: int)
    requires m >= 1 && 0 <= r < m && v == m * q + r
    ensures v / m == q && v % m == r
  {
    var q', r' := v / m, v % m;
    assert v == m * q' + r';
    if q > q' { MulMonotone(m, q' + 1, q); }
    if q < q' { MulMonotone(m, q + 1, q'); }
  }

  lemma DivTwice(v: nat, a: nat, b: nat)
    requires a >= 1 && b >= 1
    ensures v / a / b == v / (a * b)
  {
    var q := v / a / b;
    var r := v / a % b;
    assert v / a == q * b + r;
    var s := v % a;
    assert v == (q * b + r) * a + s;
    assert v == q * (a * b) + (r * a + s) by { Expand(q, b, r, a); }
    assert r * a + s < a * b by { Below(r, b, a, s); }
    DivUnique(v, a * b, q, r * a + s);
  }

  lemma Expand(q: nat, b: nat, r: nat, a: nat)
    ensures (q * b + r) * a == q * (a * b) + r * a
  {
  }

  lemma Below(r: nat, b: nat, a: nat, s: nat)
    requires r < b && s < a
    ensures r * a + s < a * b
  {
    assert (r + 1) * a <= b * a;
  }

  lemma MulMonotone(m: nat, a: int, b: int)
    requires a <= b
    ensures m * a <= m * b
  {
  }

  /** The top `d` of the low 32 bits of `v`: what a 32-level descent looks at. */
  function Top(v: int, d: nat): nat
    requires d <= 32
  {
    if d == 0 then 0 else 2 * Top(v, d - 1) + Shr(v, 32 - d) % 2
  }

  lemma {:induction false} TopClosed(v: int, d: nat)
    requires d <= 32
    ensures Top(v, d) == Shr(v, 32 - d) % Pow2(d)
  {
    if d != 0 {
      TopClosed(v, d - 1);
      var x := Shr(v, 32 - d);
      assert Shr(v, 32 - (d - 1)) == x / 2;
      ModDouble(x, Pow2(d - 1));
    }
  }

  lemma ModDouble(x: int, m: nat)
    requires m >= 1
    ensures x % (2 * m) == 2 * (x / 2 % m) + x % 2
  {
    var h, b := x / 2, x % 2;
    var q, r := h / m, h % m;
    assert h == m * q + r;
    assert x == 2 * h + b;
    assert x == (2 * m) * q + (2 * r + b) by {
      assert 2 * (m * q) == (2 * m) * q;
    }
    DivUnique(x, 2 * m, q, 2 * r + b);
  }

  /** The whole descent sees the value modulo 2^32. */
  lemma TopFull(v: int)
    ensures Top(v, 32) == v % Pow2(32)
  {
    TopClosed(v, 32);
  }

  lemma QuotientBound(v: int, m: nat, p: nat)
    requires m >= 1 && 0 <= v < p * m
    ensures 0 <= v / m < p
  {
    var q := v / m;
    assert v == m * q + v % m;
    if q >= p { MulMonotone(m, p, q); }
    if q < 0 { MulMonotone(m, q, -1); }
  }

  lemma SameQuotient(v: int, p: int, m: nat)
    requires m >= 1 && p % m == 0
    ensures v / m == p / m <==> p <= v <= p + m - 1
  {
    assert p == m * (p / m) + p % m;
    assert v == m * (v / m) + v % m;
    if p <= v <= p + m - 1 {
      DivUnique(v, m, p / m, v - p);
    }
  }

  /** For a 32-bit value the top `d` bits are a quotient. */
  lemma TopOfWord(v: int, d: nat)
    requires d <= 32 && 0 <= v < Pow2(32)
    ensures Top(v, d) == v / Pow2(32 - d)
  {
    TopClosed(v, d);
    ShrIsDiv(v, 32 - d);
    Pow2Add(d, 32 - d);
    QuotientBound(v, Pow2(32 - d), Pow2(d));
    DivUnique(v / Pow2(32 - d), Pow2(d), 0, v / Pow2(32 - d));
  }

  /** A shared bit prefix is a numeric interval. */
  lemma TopInterval(v: int, p: int, d: nat)
    requires d <= 32 && 0 <= v < Pow2(32) && 0 <= p < Pow2(32)
    requires p % Pow2(32 - d) == 0
    ensures Top(v, d) == Top(p, d) <==> p <= v <= p + Pow2(32 - d) - 1
  {
    TopOfWord(v, d);
    TopOfWord(p, d);
    SameQuotient(v, p, Pow2(32 - d));
  }
}
