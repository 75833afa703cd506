/** What address texts and LIKE patterns mean (packetql/schema.py, packetql/query/parser.py, packetql/query/executor.py). */
module Addresses {
  import opened Wrappers
  import opened Seqs
  import opened Bits
  import opened Bytes
  import opened Text
  import opened Predicate
  import opened Slices

  // ---- Splitting ---------------------------------------------------------

  function Join(parts: seq<string>, sep: char): string
    requires parts != []
  {
    var n := |parts| - 1;
    if n == 0 then parts[0] else Join(parts[..n], sep) + [sep] + parts[n]
  }

  ghost predicate Free(parts: seq<string>, sep: char) {
    forall i :: 0 <= i < |parts| ==> sep !in parts[i]
  }

  lemma {:induction false} SplitPlain(p: string, sep: char)
    requires sep !in p
    ensures Split(p, sep) == [p]
  {
    if p != "" {
      var n := |p| - 1;
      SplitPlain(p[..n], sep);
      assert p[..n] + [p[n]] == p;
    }
  }

  lemma {:induction false} SplitAppend(s: string, p: string, sep: char)
    requires sep !in p
    ensures Split(s + [sep] + p, sep) == Split(s, sep) + [p]
  {
    var t := s + [sep] + p;
    var n := |t| - 1;
    if p == "" {
      assert t[..n] == s && t[n] == sep;
    } else {
      var m := |p| - 1;
      SplitAppend(s, p[..m], sep);
      assert t[..n] == s + [sep] + p[..m] && t[n] == p[m];
      assert p[..m] + [p[m]] == p;
    }
  }

  /** Splitting undoes joining ... */
  lemma {:induction false} SplitJoin(parts: seq<string>, sep: char)
    requires parts != [] && Free(parts, sep)
    ensures Split(Join(parts, sep), sep) == parts
  {
    var n := |parts| - 1;
    if n == 0 {
      SplitPlain(parts[0], sep);
    } else {
      assert parts == parts[..n] + [parts[n]];
      SplitJoin(parts[..n], sep);
      hide Split, Free;
      SplitAppend(Join(parts[..n], sep), parts[n], sep);
    }
  }

  lemma JoinLast(parts: seq<string>, last: string, sep: char)
    requires parts != []
    ensures Join(parts + [last], sep) == Join(parts, sep) + [sep] + last
  {
    assert (parts + [last])[..|parts|] == parts;
  }

  lemma JoinLonger(parts: seq<string>, c: char, sep: char)
    requires parts != []
    ensures var n := |parts| - 1; Join(parts[..n] + [parts[n] + [c]], sep) == Join(parts, sep) + [c]
  {
    var n := |parts| - 1;
    if n == 0 {
      assert parts[..0] + [parts[0] + [c]] == [parts[0] + [c]];
    } else {
      JoinLast(parts[..n], parts[n] + [c], sep);
    }
  }

  /** ... and joining undoes splitting. */
  lemma {:induction false} JoinSplit(s: string, sep: char)
    ensures Join(Split(s, sep), sep) == s && Free(Split(s, sep), sep)
  {
    if s != "" {
      var n := |s| - 1;
      var rest := Split(s[..n], sep);
      JoinSplit(s[..n], sep);
      assert s[..n] + [s[n]] == s;
      if s[n] == sep {
        JoinLast(rest, "", sep);
        assert s[..n] + [sep] + "" == s;
      } else {
        JoinLonger(rest, s[n], sep);
      }
    }
  }

  // ---- Numbers -----------------------------------------------------------

  predicate IsNumeral(p: string) {
    p != "" && AllDigits(p)
  }

  /** A list of texts is read as numbers exactly when each of them is one. */
  lemma {:induction false} ParseIntsExact(parts: seq<string>)
    ensures ParseInts(parts).Ok? <==> forall i :: 0 <= i < |parts| ==> IsNumeral(parts[i])
    ensures ParseInts(parts).Ok? ==> |ParseInts(parts).value| == |parts|
    ensures ParseInts(parts).Ok? ==> forall i :: 0 <= i < |parts| ==> ParseInt(parts[i]) == Ok(ParseInts(parts).value[i])
  {
    if parts != [] { ParseIntsExact(parts[..|parts| - 1]); }
  }

  function Numerals(ns: seq<nat>): (parts: seq<string>)
    ensures |parts| == |ns| && forall i :: 0 <= i < |ns| ==> parts[i] == Decimal(ns[i])
  {
    seq(|ns|, i requires 0 <= i < |ns| => Decimal(ns[i]))
  }

  lemma DotFree(n: nat)
    ensures '.' !in Decimal(n)
  {
    forall i | 0 <= i < |Decimal(n)| ensures Decimal(n)[i] != '.' { assert IsDigit(Decimal(n)[i]); }
  }

  lemma NumeralsBack(ns: seq<nat>)
    ensures ParseInts(Numerals(ns)) == Ok(ns) && Free(Numerals(ns), '.')
  {
    var parts := Numerals(ns);
    ParseIntsExact(parts);
    forall i | 0 <= i < |ns| ensures ParseInt(parts[i]) == Ok(ns[i]) && '.' !in parts[i] {
      DecimalRoundTrip(ns[i]);
      DotFree(ns[i]);
    }
    assert forall i :: 0 <= i < |parts| ==> IsNumeral(parts[i]);
    forall i | 0 <= i < |ns| ensures ParseInts(parts).value[i] == ns[i] {
      assert ParseInt(parts[i]) == Ok(ParseInts(parts).value[i]);
    }
    assert ParseInts(parts).value == ns;
  }

  // ---- Addresses ---------------------------------------------------------

  /** Numbers with dots between them. */
  function Dotted(ns: seq<nat>): string
    requires ns != []
  {
    Join(Numerals(ns), '.')
  }

  lemma DottedOctets(ns: seq<nat>)
    requires ns != []
    ensures ParseInts(Split(Dotted(ns), '.')) == Ok(ns)
  {
    NumeralsBack(ns);
    SplitJoin(Numerals(ns), '.');
  }

  /** An address text is accepted exactly when it is four numerals with dots between them. */
  lemma AddressAccepted(s: string)
    ensures IpToInt(s).Ok? <==> |Split(s, '.')| == 4 && forall i :: 0 <= i < 4 ==> IsNumeral(Split(s, '.')[i])
  {
    ParseIntsExact(Split(s, '.'));
  }

  /** Four octets make the number with those four digits to the base 256. */
  lemma AddressValue(a: nat, b: nat, c: nat, d: nat)
    requires a < 256 && b < 256 && c < 256 && d < 256
    ensures IpToInt(Dotted([a, b, c, d])) == Ok(0x100_0000 * a + 0x1_0000 * b + 0x100 * c + d)
  {
    hide Dotted, Split, ParseInts, IpOctets;
    DottedOctets([a, b, c, d]);
    OctetsAdd(a, b, c, d);
  }

  lemma SmallPowers()
    ensures Pow2(8) == 0x100 && Pow2(16) == 0x1_0000 && Pow2(24) == 0x100_0000
  {
    Pow2Add(8, 8);
    Pow2Add(16, 8);
  }

  lemma OctetsAdd(a: nat, b: nat, c: nat, d: nat)
    requires b < 256 && c < 256 && d < 256
    ensures IpOctets(a, b, c, d) == 0x100_0000 * a + 0x1_0000 * b + 0x100 * c + d
  {
    SmallPowers();
    hide Pow2, Or;
    var x := 256 * a + b;
    OrIsAdd(a, 24, b * 0x1_0000);
    assert a * 0x100_0000 + b * 0x1_0000 == x * 0x1_0000;
    OrIsAdd(x, 16, c * 0x100);
    assert x * 0x1_0000 + c * 0x100 == (256 * x + c) * 0x100;
    OrIsAdd(256 * x + c, 8, d);
  }

  /** Whatever the four numbers are: each bit of the address is a bit of one of them, shifted into place. */
  lemma AddressBits(a: nat, b: nat, c: nat, d: nat, k: nat)
    ensures IpToInt(Dotted([a, b, c, d])).Ok?
    ensures Bit(IpToInt(Dotted([a, b, c, d])).value, k)
      <==> (k >= 24 && Bit(a, k - 24)) || (k >= 16 && Bit(b, k - 16)) || (k >= 8 && Bit(c, k - 8)) || Bit(d, k)
  {
    hide Dotted, Split, ParseInts, Or, Bit;
    DottedOctets([a, b, c, d]);
    SmallPowers();
    BitOr(Or(Or(a * 0x100_0000, b * 0x1_0000), c * 0x100), d, k);
    BitOr(Or(a * 0x100_0000, b * 0x1_0000), c * 0x100, k);
    BitOr(a * 0x100_0000, b * 0x1_0000, k);
    ShiftedBit(a, 24, k);
    ShiftedBit(b, 16, k);
    ShiftedBit(c, 8, k);
  }

  lemma ShiftedBit(v: nat, j: nat, k: nat)
    ensures Bit(v * Pow2(j), k) <==> k >= j && Bit(v, k - j)
  {
    BitOfSum(0, j, v, k);
    BitZero(k);
    assert 0 + Pow2(j) * v == v * Pow2(j);
  }

  /** The four octets of an address, as they stand in a packet. */
  function Octets(v: nat): (s: seq<nat>)
    ensures |s| == 4
  {
    [v / 0x100_0000, v / 0x1_0000 % 256, v / 0x100 % 256, v % 256]
  }

  lemma OctetsOf(a: nat, b: nat, c: nat, d: nat)
    requires b < 256 && c < 256 && d < 256
    ensures Octets(0x100_0000 * a + 0x1_0000 * b + 0x100 * c + d) == [a, b, c, d]
  {
    var w := 0x100_0000 * a + 0x1_0000 * b + 0x100 * c + d;
    DivUnique(w, 0x100_0000, a, 0x1_0000 * b + 0x100 * c + d);
    DivUnique(w, 0x1_0000, 0x100 * a + b, 0x100 * c + d);
    DivUnique(0x100 * a + b, 0x100, a, b);
    DivUnique(w, 0x100, 0x1_0000 * a + 0x100 * b + c, d);
    DivUnique(0x1_0000 * a + 0x100 * b + c, 0x100, 0x100 * a + b, c);
  }

  lemma Reassembled(v: nat)
    ensures var o := Octets(v); v == 0x100_0000 * o[0] + 0x1_0000 * o[1] + 0x100 * o[2] + o[3]
  {
    DivTwice(v, 0x100, 0x100);
    DivTwice(v, 0x1_0000, 0x100);
    var x, y := v / 0x100, v / 0x1_0000;
    assert v == 0x100 * x + v % 0x100 && x == 0x100 * y + x % 0x100;
    assert y == 0x100 * (v / 0x100_0000) + y % 0x100;
  }

  lemma OctetsDetermine(v: nat, a: nat, b: nat, c: nat, d: nat)
    requires b < 256 && c < 256 && d < 256
    ensures v == 0x100_0000 * a + 0x1_0000 * b + 0x100 * c + d <==> Octets(v) == [a, b, c, d]
  {
    OctetsOf(a, b, c, d);
    Reassembled(v);
    hide Octets;
  }

  // ---- LIKE patterns -----------------------------------------------------

  lemma {:induction false} KeepAll(parts: seq<string>)
    requires forall i :: 0 <= i < |parts| ==> parts[i] != ""
    ensures Filter(parts, NonEmpty) == parts
  {
    if parts != [] {
      var n := |parts| - 1;
      KeepAll(parts[..n]);
      assert parts == parts[..n] + [parts[n]];
    }
  }

  /** The parts of dotted octets, with or without a dot at the end. */
  lemma CoreOctets(ns: seq<nat>)
    requires ns != []
    ensures ParseInts(Filter(Split(Dotted(ns), '.'), NonEmpty)) == Ok(ns)
    ensures ParseInts(Filter(Split(Dotted(ns) + ".", '.'), NonEmpty)) == Ok(ns)
  {
    var s, parts := Dotted(ns), Numerals(ns);
    NumeralsBack(ns);
    SplitJoin(parts, '.');
    KeepAll(parts);
    SplitAppend(s, "", '.');
    FilterAppend(parts, "", NonEmpty);
    hide Split, Filter, ParseInts, Dotted, Numerals;
    EmptySplit();
    assert s + ['.'] + "" == s + ".";
    assert parts + [] == parts;
  }

  lemma EmptySplit()
    ensures Split("", '.') == [""]
  {
  }

  /** A wildcard at the end is taken off. */
  lemma LikeCore(s: string)
    requires s == "" || s[|s| - 1] != '%'
    ensures LikeOctets(s) == ParseInts(Filter(Split(s, '.'), NonEmpty))
    ensures LikeOctets(s + "%") == ParseInts(Filter(Split(s, '.'), NonEmpty))
  {
    hide Split, Filter, ParseInts;
    assert (s + "%")[..|s + "%"| - 1] == s;
  }

  lemma PatternForms(ns: seq<nat>)
    requires ns != []
    ensures LikeOctets(Dotted(ns)) == LikeOctets(Dotted(ns) + "%") == Ok(ns)
    ensures LikeOctets(Dotted(ns) + ".") == LikeOctets(Dotted(ns) + ".%") == Ok(ns)
  {
    var s := Dotted(ns);
    CoreOctets(ns);
    DottedLast(ns);
    DotWild(s);
    DigitsNotWild(s);
    hide *;
    LikeCore(s);
    LikeCore(s + ".");
  }

  lemma DotWild(s: string)
    ensures (s + ".") + "%" == s + ".%" && (s + ".")[|s + "."| - 1] != '%'
  {
  }

  lemma DigitsNotWild(s: string)
    requires s != "" && IsDigit(s[|s| - 1])
    ensures s[|s| - 1] != '%'
  {
  }

  /** `10.0`, `10.0.`, `10.0%` and `10.0.%` all name the octets 10 and 0. */
  lemma PatternOctets(ns: seq<nat>, tail: string)
    requires ns != [] && tail in {"", ".", "%", ".%"}
    ensures LikeOctets(Dotted(ns) + tail) == Ok(ns)
  {
    hide *;
    PatternForms(ns);
    assert Dotted(ns) + "" == Dotted(ns);
  }

  lemma DottedLast(ns: seq<nat>)
    requires ns != []
    ensures var s := Dotted(ns); s != "" && IsDigit(s[|s| - 1])
  {
    var n := |ns| - 1;
    var last := Decimal(ns[n]);
    assert IsDigit(last[|last| - 1]);
    if n != 0 {
      assert Numerals(ns)[..n] == Numerals(ns[..n]);
      assert Dotted(ns) == Join(Numerals(ns)[..n], '.') + ['.'] + last;
    }
  }

  /** A bare `%` names no octet. */
  lemma AnyOctets()
    ensures LikeOctets("%") == Ok([]) && LikeOctets("") == Ok([])
  {
    assert "%"[..0] == "";
    assert [""][..0] == [];
    assert Filter([""], NonEmpty) == [];
  }

  /** A pattern is accepted exactly when every part that is not empty is a numeral. */
  lemma PatternAccepted(s: string)
    requires s == "" || s[|s| - 1] != '%'
    ensures LikeOctets(s) == LikeOctets(s + "%")
    ensures LikeOctets(s).Ok? <==> forall p :: p in Split(s, '.') ==> p == "" || IsNumeral(p)
  {
    assert (s + "%")[..|s + "%"| - 1] == s;
    NonEmptyNumerals(Split(s, '.'));
    hide Split, Filter, ParseInts;
  }

  lemma NonEmptyNumerals(parts: seq<string>)
    ensures ParseInts(Filter(parts, NonEmpty)).Ok? <==> forall p :: p in parts ==> p == "" || IsNumeral(p)
  {
    var kept := Filter(parts, NonEmpty);
    ParseIntsExact(kept);
    hide ParseInts, Filter;
    forall p ensures p in kept <==> p in parts && p != "" { FilterIn(parts, p); }
    if forall i :: 0 <= i < |kept| ==> IsNumeral(kept[i]) {
      forall p | p in parts ensures p == "" || IsNumeral(p) { assert p != "" ==> p in kept; }
    }
    if forall p :: p in parts ==> p == "" || IsNumeral(p) {
      forall i | 0 <= i < |kept| ensures IsNumeral(kept[i]) { assert kept[i] in kept; }
    }
  }

  lemma {:induction false} FilterIn(parts: seq<string>, p: string)
    ensures p in Filter(parts, NonEmpty) <==> p in parts && p != ""
  {
    if parts != [] {
      var n := |parts| - 1;
      FilterIn(parts[..n], p);
      assert parts == parts[..n] + [parts[n]];
    }
  }

  /** The interval of a pattern: the addresses whose first octets are the ones it names. */
  lemma PatternInterval(known: seq<nat>, v: nat)
    requires |known| <= 4 && (forall i :: 0 <= i < |known| ==> known[i] < 256) && v < 0x1_0000_0000
    ensures LowOf(known, 4) <= v <= HighOf(known, 4) <==> forall i :: 0 <= i < |known| ==> Octets(v)[i] == known[i]
  {
    var k := seq(4, i requires 0 <= i < 4 => if i < |known| then known[i] else 0);
    LowAdds(known, k);
    SpanOf(known);
    InBlock(k[0], k[1], k[2], k[3], |known|, v);
    hide LowOf, HighOf;
    assert forall i :: 0 <= i < |known| ==> known[i] == k[i];
    assert Octets(v)[0] == v / 0x100_0000 && Octets(v)[1] == v / 0x1_0000 % 256;
    assert Octets(v)[2] == v / 0x100 % 256 && Octets(v)[3] == v % 256;
  }

  function Span(n: nat): nat {
    if n == 0 then 0x1_0000_0000 else if n == 1 then 0x100_0000 else if n == 2 then 0x1_0000 else if n == 3 then 0x100 else 1
  }

  lemma SpanOf(known: seq<nat>)
    requires |known| <= 4
    ensures HighOf(known, 4) == LowOf(known, 4) + Span(|known|) - 1
  {
    RangeIsBlock(known);
    SmallPowers();
    assert Pow2(32) == 0x1_0000_0000 by { Pow2Add(16, 16); }
  }

  lemma LowAdds(known: seq<nat>, k: seq<nat>)
    requires |known| <= 4 && |k| == 4 && forall i :: 0 <= i < 4 ==> k[i] < 256
    requires forall i :: 0 <= i < 4 ==> k[i] == if i < |known| then known[i] else 0
    ensures LowOf(known, 4) == 0x100_0000 * k[0] + 0x1_0000 * k[1] + 0x100 * k[2] + k[3]
  {
    assert LowOf(known, 0) == 0;
    LowStep(known, 1, k[0]);
    LowStep(known, 2, k[1]);
    LowStep(known, 3, k[2]);
    LowStep(known, 4, k[3]);
  }

  lemma LowStep(known: seq<nat>, j: nat, o: nat)
    requires j >= 1 && o < 256 && o == if j - 1 < |known| then known[j - 1] else 0
    ensures LowOf(known, j) == 256 * LowOf(known, j - 1) + o
  {
    SmallPowers();
    hide Pow2, Or;
    OrIsAdd(LowOf(known, j - 1), 8, o);
  }

  lemma InBlock(a: nat, b: nat, c: nat, d: nat, n: nat, v: nat)
    requires a < 256 && b < 256 && c < 256 && d < 256 && n <= 4 && v < 0x1_0000_0000
    requires (n < 4 ==> d == 0) && (n < 3 ==> c == 0) && (n < 2 ==> b == 0) && (n < 1 ==> a == 0)
    ensures var low := 0x100_0000 * a + 0x1_0000 * b + 0x100 * c + d;
      (low <= v <= low + Span(n) - 1) <==>
        && (n >= 1 ==> v / 0x100_0000 == a) && (n >= 2 ==> v / 0x1_0000 % 256 == b)
        && (n >= 3 ==> v / 0x100 % 256 == c) && (n >= 4 ==> v % 256 == d)
  {
    var e, f, g, h := v / 0x100_0000, v / 0x1_0000 % 256, v / 0x100 % 256, v % 256;
    OctetsDetermine(v, e, f, g, h);
    BlockDigits(a, b, c, d, n, e, f, g, h);
  }

  /** Numbers in one block of `m` have the same quotient. */
  lemma OneBlock(u: nat, v: nat, r: nat, m: nat)
    requires r < m
    ensures m * u <= m * v + r <= m * u + m - 1 <==> u == v
  {
    if u < v { MulMonotone(m, u + 1, v); }
    if v < u { MulMonotone(m, v + 1, u); }
  }

  lemma BlockDigits(a: nat, b: nat, c: nat, d: nat, n: nat, e: nat, f: nat, g: nat, h: nat)
    requires a < 256 && b < 256 && c < 256 && d < 256 && n <= 4 && e < 256 && f < 256 && g < 256 && h < 256
    requires (n < 4 ==> d == 0) && (n < 3 ==> c == 0) && (n < 2 ==> b == 0) && (n < 1 ==> a == 0)
    ensures var low := 0x100_0000 * a + 0x1_0000 * b + 0x100 * c + d;
      (low <= 0x100_0000 * e + 0x1_0000 * f + 0x100 * g + h <= low + Span(n) - 1) <==>
        (n >= 1 ==> e == a) && (n >= 2 ==> f == b) && (n >= 3 ==> g == c) && (n >= 4 ==> h == d)
  {
    OneBlock(a, e, 0x1_0000 * f + 0x100 * g + h, 0x100_0000);
    OneBlock(0x100 * a + b, 0x100 * e + f, 0x100 * g + h, 0x1_0000);
    OneBlock(0x1_0000 * a + 0x100 * b + c, 0x1_0000 * e + 0x100 * f + g, h, 0x100);
    if n == 0 {
    } else if n == 1 {
    } else if n == 2 {
      OneBlock(a, e, f, 0x100);
    } else if n == 3 {
    } else {
    }
  }
}
