/** Bytes, fixed-width integers and slices of files. */
module Bytes {

  type Byte = b: nat | b < 256

  function Pow256(n: nat): (r: nat)
    ensures r >= 1
  {
    if n == 0 then 1 else 256 * Pow256(n - 1)
  }

  /** `int.to_bytes(width, "little")` */
  function ToLE(v: nat, width: nat): (s: seq<Byte>)
    ensures |s| == width
  {
    if width == 0 then [] else [v % 256] + ToLE(v / 256, width - 1)
  }

  /** `int.from_bytes(s, "little")` */
  function FromLE(s: seq<Byte>): nat {
    if s == [] then 0 else s[0] + 256 * FromLE(s[1..])
  }

  /** A value that fits its width survives packing. */
  lemma {:induction false} LERoundTrip(v: nat, width: nat)
    requires v < Pow256(width)
    ensures FromLE(ToLE(v, width)) == v
  {
    if width != 0 {
      LERoundTrip(v / 256, width - 1);
    }
  }

  /** Every byte string is the packing of the value it decodes to. */
  lemma {:induction false} LEDecodeEncode(s: seq<Byte>)
    ensures FromLE(s) < Pow256(|s|)
    ensures ToLE(FromLE(s), |s|) == s
  {
    if s != [] {
      LEDecodeEncode(s[1..]);
      assert FromLE(s) / 256 == FromLE(s[1..]) && FromLE(s) % 256 == s[0];
    }
  }

  /** Big-endian, as network headers are written. */
  function ToBE(v: nat, width: nat): (s: seq<Byte>)
    ensures |s| == width
  {
    if width == 0 then [] else ToBE(v / 256, width - 1) + [v % 256]
  }

  function FromBE(s: seq<Byte>): nat {
    if s == [] then 0 else 256 * FromBE(s[..|s| - 1]) + s[|s| - 1]
  }

  lemma {:induction false} BERoundTrip(v: nat, width: nat)
    requires v < Pow256(width)
    ensures FromBE(ToBE(v, width)) == v
  {
    if width != 0 {
      assert v / 256 < Pow256(width - 1);
      BERoundTrip(v / 256, width - 1);
      assert ToBE(v, width)[..width - 1] == ToBE(v / 256, width - 1);
    }
  }

  lemma {:induction false} BEBound(s: seq<Byte>)
    ensures FromBE(s) < Pow256(|s|)
  {
    if s != [] { BEBound(s[..|s| - 1]); }
  }

  function Min(a: nat, b: nat): nat {
    if a <= b then a else b
  }

  /** `f[lo:hi]`, clamped to the file as Python and `read` do. */
  function Slice(f: seq<Byte>, lo: nat, hi: nat): seq<Byte>
    requires lo <= hi
  {
    f[Min(lo, |f|)..Min(hi, |f|)]
  }

  lemma SliceSplit(f: seq<Byte>, lo: nat, mid: nat, hi: nat)
    requires lo <= mid <= hi
    ensures Slice(f, lo, hi) == Slice(f, lo, mid) + Slice(f, mid, hi)
  {
  }

  lemma SliceOfSlice(f: seq<Byte>, base: nat, size: nat, lo: nat, hi: nat)
    requires lo <= hi <= size
    ensures Slice(Slice(f, base, base + size), lo, hi) == Slice(f, base + lo, base + hi)
  {
    var whole := Slice(f, base, base + size);
    assert |whole| == Min(base + size, |f|) - Min(base, |f|);
    var part, direct := Slice(whole, lo, hi), Slice(f, base + lo, base + hi);
    assert |part| == |direct|;
    forall i | 0 <= i < |part| ensures part[i] == direct[i] {
      assert part[i] == whole[Min(lo, |whole|) + i];
    }
  }
}
