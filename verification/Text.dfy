/** The little of Python's `str` and `int` that queries use, over ASCII text. */
module Text {
  import opened Wrappers
  import opened Seqs
  import Bits

  datatype ValueError = ValueError

  predicate IsDigit(c: char) {
    '0' <= c <= '9'
  }

  function DigitOf(c: char): nat
    requires IsDigit(c)
  {
    (c as int) - ('0' as int)
  }

  function DigitChar(d: nat): (c: char)
    requires d < 10
    ensures IsDigit(c) && DigitOf(c) == d
  {
    (('0' as int) + d) as char
  }

  predicate AllDigits(s: string) {
    forall i :: 0 <= i < |s| ==> IsDigit(s[i])
  }

  /** `int(s)` for a string of digits. */
  function DigitsValue(s: string): nat
    requires AllDigits(s)
  {
    if s == "" then 0 else 10 * DigitsValue(s[..|s| - 1]) + DigitOf(s[|s| - 1])
  }

  /** `str(n)` */
  function Decimal(n: nat): (s: string)
    ensures |s| > 0 && AllDigits(s)
  {
    if n < 10 then [DigitChar(n)] else Decimal(n / 10) + [DigitChar(n % 10)]
  }

  lemma {:induction false} DecimalRoundTrip(n: nat)
    ensures DigitsValue(Decimal(n)) == n
  {
    if n < 10 {
      assert Decimal(n)[..0] == "";
    } else {
      DecimalRoundTrip(n / 10);
      assert Decimal(n)[..|Decimal(n)| - 1] == Decimal(n / 10);
    }
  }

  /** `int(s)`, which rejects an empty or non-numeric string. */
  function ParseInt(s: string): Result<nat, ValueError> {
    if s != "" && AllDigits(s) then Ok(DigitsValue(s)) else Err(ValueError)
  }

  /** `s.split(sep)` */
  function Split(s: string, sep: char): (parts: seq<string>)
    ensures |parts| >= 1
  {
    if s == "" then [""]
    else
      var n := |s| - 1;
      var rest := Split(s[..n], sep);
      if s[n] == sep then rest + [""]
      else rest[..|rest| - 1] + [rest[|rest| - 1] + [s[n]]]
  }

  /** `[int(p) for p in parts]`, failing at the first part that is not a number. */
  function ParseInts(parts: seq<string>): Result<seq<nat>, ValueError> {
    if parts == [] then Ok([])
    else
      var n := |parts| - 1;
      var head :- ParseInts(parts[..n]);
      var last :- ParseInt(parts[n]);
      Ok(head + [last])
  }

  predicate NonEmpty(s: string) {
    s != ""
  }

  /** The octets of a LIKE pattern: drop a trailing '%', split at dots, skip empty parts. */
  function LikeOctets(pattern: string): Result<seq<nat>, ValueError> {
    var core := if pattern != "" && pattern[|pattern| - 1] == '%' then pattern[..|pattern| - 1] else pattern;
    ParseInts(Filter(Split(core, '.'), NonEmpty))
  }

  /** `ip_to_int`: exactly four numbers, shifted into place. */
  function IpToInt(addr: string): Result<nat, ValueError> {
    var parts :- ParseInts(Split(addr, '.'));
    if |parts| == 4 then Ok(IpOctets(parts[0], parts[1], parts[2], parts[3])) else Err(ValueError)
  }

  function IpOctets(a: nat, b: nat, c: nat, d: nat): nat {
    Bits.Or(Bits.Or(Bits.Or(a * 0x100_0000, b * 0x1_0000), c * 0x100), d)
  }
}
