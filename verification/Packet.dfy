/** The frame parser and the IPv4 header checksum (packetql/capture/parser.py), with the
    frame builder that inverts it (tools/make_fixture_pcap.py). */
module Packet {
  import opened Wrappers
  import opened Bytes
  import opened Columnar
  import Pcap

  const ETH_SIZE: nat := 14
  const IP_SIZE: nat := 20
  const ETHERTYPE_IPV4: nat := 0x0800
  const PROTO_ICMP: Byte := 1
  const PROTO_TCP: Byte := 6
  const PROTO_UDP: Byte := 17

  // ---- The one's-complement sum (section 3.1 of RFC 791, section 1 of RFC 1071) ----

  /** An odd header gets a zero byte at its end. */
  function Padded(header: seq<Byte>): (h: seq<Byte>)
    ensures |h| % 2 == 0
  {
    if |header| % 2 != 0 then header + [0] else header
  }

  /** `(high << 8) | low` */
  function Word(high: Byte, low: Byte): (w: nat)
    ensures w < 0x1_0000
  {
    var h: nat := high;
    256 * h + low
  }

  /** The sum of the 16-bit big-endian words. */
  function WordSum(h: seq<Byte>): nat
    requires |h| % 2 == 0
  {
    if h == [] then 0 else WordSum(h[..|h| - 2]) + Word(h[|h| - 2], h[|h| - 1])
  }

  /** `(total & 0xFFFF) + (total >> 16)` */
  function Fold(total: nat): nat {
    total % 0x1_0000 + total / 0x1_0000
  }

  predicate Verified(header: seq<Byte>) {
    Fold(Fold(WordSum(Padded(header)))) == 0xFFFF
  }

  /** `_ip_checksum` */
  function IpChecksum(header: seq<Byte>): (c: nat)
    requires |header| % 2 == 0
    ensures c < 0x1_0000
  {
    0xFFFF - Fold(Fold(WordSum(header))) % 0x1_0000
  }

  method SumWords(header: seq<Byte>) returns (total: nat)
    requires |header| % 2 == 0
    ensures total == WordSum(header)
  {
    total := 0;
    var i := 0;
    while i < |header|
      invariant 0 <= i <= |header| && i % 2 == 0
      invariant total == WordSum(header[..i])
    {
      assert header[..i + 2][..i] == header[..i];
      total := total + Word(header[i], header[i + 1]);
      i := i + 2;
    }
    assert header[..|header|] == header;
  }

  method VerifyIpChecksum(header: seq<Byte>) returns (ok: bool)
    requires |header| < 0x1_0000_0000
    ensures ok == Verified(header)
    ensures ok <==> WordSum(Padded(header)) > 0 && WordSum(Padded(header)) % 0xFFFF == 0
  {
    var h := header;
    if |h| % 2 != 0 { h := h + [0]; }
    var total := SumWords(h);
    TwoFoldsSuffice(header);
    total := total % 0x1_0000 + total / 0x1_0000;
    total := total % 0x1_0000 + total / 0x1_0000;
    ok := total == 0xFFFF;
  }

  method ComputeIpChecksum(header: seq<Byte>) returns (csum: nat)
    requires |header| % 2 == 0
    ensures csum == IpChecksum(header)
  {
    var total := SumWords(header);
    total := total % 0x1_0000 + total / 0x1_0000;
    total := total % 0x1_0000 + total / 0x1_0000;
    csum := 0xFFFF - total % 0x1_0000;
  }

  lemma {:induction false} WordSumBound(h: seq<Byte>)
    requires |h| % 2 == 0
    ensures WordSum(h) <= 0xFFFF * (|h| / 2)
  {
    if h != [] { WordSumBound(h[..|h| - 2]); }
  }

  /** Folding keeps the residue modulo 65535. */
  lemma FoldResidue(total: nat)
    ensures Fold(total) % 0xFFFF == total % 0xFFFF
    ensures total > 0 ==> Fold(total) > 0
  {
    var high, low := total / 0x1_0000, total % 0x1_0000;
    assert total == high + low + 0xFFFF * high;
  }

  /** Two folds of a positive multiple of 65535 give 65535, unless the number is astronomically large. */
  lemma FoldsOfMultiple(k: nat)
    requires 0 < k <= 0x1_0000
    ensures Fold(0xFFFF * k) == 0xFFFF
  {
    assert 0xFFFF * k == 0x1_0000 * (k - 1) + (0x1_0000 - k);
  }

  /** The test of the code is the test of the standard: the word sum is a positive multiple of 65535. */
  lemma TwoFoldsSuffice(header: seq<Byte>)
    requires |header| < 0x1_0000_0000
    ensures Verified(header) <==> WordSum(Padded(header)) > 0 && WordSum(Padded(header)) % 0xFFFF == 0
  {
    var total := WordSum(Padded(header));
    WordSumBound(Padded(header));
    FoldResidue(total);
    FoldResidue(Fold(total));
    if total > 0 && total % 0xFFFF == 0 {
      FoldsOfMultiple(Fold(total) / 0xFFFF);
    }
  }

  lemma EvenVerified(h: seq<Byte>)
    requires |h| % 2 == 0 && |h| < 0x1_0000_0000
    ensures Verified(h) <==> WordSum(h) > 0 && WordSum(h) % 0xFFFF == 0
  {
    TwoFoldsSuffice(h);
    hide Verified;
  }

  // ---- What the checksum protects ----------------------------------------

  function WordAt(h: seq<Byte>, k: nat): (w: nat)
    requires 2 * k + 1 < |h|
    ensures w < 0x1_0000
  {
    Word(h[2 * k], h[2 * k + 1])
  }

  function SetWord(h: seq<Byte>, k: nat, w: nat): (t: seq<Byte>)
    requires 2 * k + 1 < |h| && w < 0x1_0000
    ensures |t| == |h|
  {
    h[2 * k := w / 256][2 * k + 1 := w % 256]
  }

  lemma {:induction false} SetWordSum(h: seq<Byte>, k: nat, w: nat)
    requires |h| % 2 == 0 && 2 * k + 1 < |h| && w < 0x1_0000
    ensures WordSum(SetWord(h, k, w)) + WordAt(h, k) == WordSum(h) + w
  {
    var n := |h| - 2;
    if 2 * k == n {
      assert SetWord(h, k, w)[..n] == h[..n];
    } else {
      SetWordSum(h[..n], k, w);
      assert SetWord(h, k, w)[..n] == SetWord(h[..n], k, w);
    }
  }

  /** Overwriting one word of a valid header goes unnoticed only when it swaps 0x0000 and 0xFFFF,
      the two zeros of one's complement, and leaves something other than zeros. */
  lemma SingleWordChange(h: seq<Byte>, k: nat, w: nat)
    requires |h| % 2 == 0 && |h| < 0x1_0000_0000 && 2 * k + 1 < |h|
    requires Verified(h) && w < 0x1_0000 && w != WordAt(h, k)
    ensures Verified(SetWord(h, k, w))
      <==> (WordAt(h, k) == 0 && w == 0xFFFF) || (WordAt(h, k) == 0xFFFF && w == 0 && WordSum(h) > 0xFFFF)
  {
    hide Verified, WordAt, SetWord, WordSum;
    EvenVerified(h);
    EvenVerified(SetWord(h, k, w));
    SetWordSum(h, k, w);
    NextMultiple(WordSum(h), WordAt(h, k), w);
  }

  /** Two words that differ are equal modulo 65535 only if they are the two zeros. */
  lemma NextMultiple(total: nat, v: nat, w: nat)
    requires total % 0xFFFF == 0 && v <= 0xFFFF && w <= 0xFFFF && v != w && v <= total
    ensures (total - v + w) % 0xFFFF == 0 <==> (v == 0 && w == 0xFFFF) || (v == 0xFFFF && w == 0)
  {
    var q := total / 0xFFFF;
    assert total == 0xFFFF * q;
    if v < w {
      assert w < 0xFFFF || v > 0 ==> (total - v + w) / 0xFFFF == q;
    } else {
      assert v < 0xFFFF || w > 0 ==> (total - v + w) / 0xFFFF == q - 1;
    }
  }

  // ---- Building frames ---------------------------------------------------

  function Eth(dstMac: seq<Byte>, srcMac: seq<Byte>): (s: seq<Byte>)
    requires |dstMac| == |srcMac| == 6
    ensures |s| == ETH_SIZE
  {
    dstMac + srcMac + ToBE(ETHERTYPE_IPV4, 2)
  }

  /** The arguments of `_ipv4`, without the corruption flag. */
  datatype IpFields = IpFields(src: nat, dst: nat, proto: Byte, l4Len: nat, ttl: Byte) {
    predicate Packs() {
      src < 0x1_0000_0000 && dst < 0x1_0000_0000 && IP_SIZE + l4Len < 0x1_0000
    }
  }

  /** The header up to its checksum. */
  function IpHead(f: IpFields): (s: seq<Byte>)
    ensures |s| == 10
  {
    [0x45, 0] + ToBE(IP_SIZE + f.l4Len, 2) + ToBE(0, 2) + ToBE(0x4000, 2) + [f.ttl, f.proto]
  }

  function IpBytes(f: IpFields, csum: nat): (s: seq<Byte>)
    ensures |s| == IP_SIZE
  {
    IpHead(f) + ToBE(csum, 2) + (ToBE(f.src, 4) + ToBE(f.dst, 4))
  }

  /** The checksum `_ipv4` stores, flipped in every bit when the header is to be corrupt. */
  function StoredChecksum(f: IpFields, corrupt: bool): (c: nat)
    ensures c < 0x1_0000
  {
    var csum := IpChecksum(IpBytes(f, 0));
    if corrupt then 0xFFFF - csum else csum
  }

  /** `_ipv4` */
  function Ipv4(f: IpFields, corrupt: bool): (s: seq<Byte>)
    ensures |s| == IP_SIZE
  {
    IpBytes(f, StoredChecksum(f, corrupt))
  }

  datatype Segment =
    | Tcp(sport: nat, dport: nat, flags: Byte, payload: seq<Byte>)
    | Udp(sport: nat, dport: nat, payload: seq<Byte>)
    | Icmp(typ: Byte, code: Byte, payload: seq<Byte>)
  {
    predicate Packs() {
      match this
      case Tcp(s, d, _, _) => s < 0x1_0000 && d < 0x1_0000
      case Udp(s, d, p) => s < 0x1_0000 && d < 0x1_0000 && 8 + |p| < 0x1_0000
      case Icmp(_, _, _) => true
    }

    /** `_tcp`, `_udp`, `_icmp` */
    function Bytes(): seq<Byte> {
      match this
      case Tcp(s, d, flags, p) =>
        ToBE(s, 2) + ToBE(d, 2) + ToBE(0, 4) + ToBE(0, 4) + [0x50, flags] + ToBE(65535, 2) + ToBE(0, 2) + ToBE(0, 2) + p
      case Udp(s, d, p) => ToBE(s, 2) + ToBE(d, 2) + ToBE(8 + |p|, 2) + ToBE(0, 2) + p
      case Icmp(typ, code, p) => [typ, code] + ToBE(0, 2) + ToBE(1, 2) + ToBE(1, 2) + p
    }

    function Protocol(): Byte {
      match this
      case Tcp(_, _, _, _) => PROTO_TCP
      case Udp(_, _, _) => PROTO_UDP
      case Icmp(_, _, _) => PROTO_ICMP
    }

    /** How many bytes the parser needs to see before it reports ports. */
    function PortsNeed(): nat {
      match this
      case Tcp(_, _, _, _) => 14
      case Udp(_, _, _) => 8
      case Icmp(_, _, _) => 0
    }
  }

  lemma {:induction false} WordSumAppend(a: seq<Byte>, b: seq<Byte>)
    requires |a| % 2 == 0 && |b| % 2 == 0
    ensures WordSum(a + b) == WordSum(a) + WordSum(b)
  {
    if b == [] {
      assert a + b == a;
    } else {
      WordSumAppend(a, b[..|b| - 2]);
      assert (a + b)[..|a + b| - 2] == a + b[..|b| - 2];
    }
  }

  lemma WordOf(v: nat)
    requires v < 0x1_0000
    ensures WordSum(ToBE(v, 2)) == v && FromBE(ToBE(v, 2)) == v
  {
    var s := ToBE(v, 2);
    assert s == ToBE(v / 256, 1) + [v % 256];
    assert ToBE(v / 256, 1) == [v / 256];
    assert s[..0] == [];
    BERoundTrip(v, 2);
  }

  lemma WordsOfAddress(v: nat)
    requires v < 0x1_0000_0000
    ensures WordSum(ToBE(v, 4)) == v / 0x1_0000 + v % 0x1_0000
  {
    var s := ToBE(v, 4);
    assert s == ToBE(v / 0x1_0000, 2) + ToBE(v % 0x1_0000, 2) by {
      assert ToBE(v, 4) == ToBE(v / 256 / 256, 2) + [v / 256 % 256] + [v % 256];
      assert v / 256 / 256 == v / 0x1_0000 && v % 0x1_0000 / 256 == v / 256 % 256;
      assert ToBE(v % 0x1_0000, 2) == [v % 0x1_0000 / 256] + [v % 0x1_0000 % 256];
    }
    WordOf(v / 0x1_0000);
    WordOf(v % 0x1_0000);
    WordSumAppend(ToBE(v / 0x1_0000, 2), ToBE(v % 0x1_0000, 2));
  }

  /** The sum of a built header without its checksum. */
  function HeaderSum(f: IpFields): (total: nat)
    ensures total > 0
  {
    0x4500 + (IP_SIZE + f.l4Len) + 0x4000 + Word(f.ttl, f.proto)
    + (f.src / 0x1_0000 + f.src % 0x1_0000) + (f.dst / 0x1_0000 + f.dst % 0x1_0000)
  }

  lemma WordPair(a: Byte, b: Byte)
    ensures WordSum([a, b]) == Word(a, b)
  {
    assert [a, b][..0] == [];
  }

  lemma AppendWord(a: seq<Byte>, b: seq<Byte>)
    requires |a| in {2, 4, 6, 8} && |b| == 2
    ensures WordSum(a + b) == WordSum(a) + WordSum(b)
  {
    WordSumAppend(a, b);
  }

  lemma FiveWords(a: seq<Byte>, b: seq<Byte>, c: seq<Byte>, d: seq<Byte>, e: seq<Byte>)
    requires |a| == |b| == |c| == |d| == |e| == 2
    ensures WordSum(a + b + c + d + e) == WordSum(a) + WordSum(b) + WordSum(c) + WordSum(d) + WordSum(e)
  {
    hide WordSum;
    AppendWord(a, b);
    AppendWord(a + b, c);
    AppendWord(a + b + c, d);
    AppendWord(a + b + c + d, e);
  }

  lemma IpHeadSum(f: IpFields)
    requires f.Packs()
    ensures WordSum(IpHead(f)) == 0x4500 + (IP_SIZE + f.l4Len) + 0x4000 + Word(f.ttl, f.proto)
  {
    hide WordSum, ToBE;
    var size, id, frag := ToBE(IP_SIZE + f.l4Len, 2), ToBE(0, 2), ToBE(0x4000, 2);
    WordPair(0x45, 0);
    WordPair(f.ttl, f.proto);
    WordOf(IP_SIZE + f.l4Len);
    WordOf(0);
    WordOf(0x4000);
    assert Word(0x45, 0) == 0x4500;
    hide Word, FromBE;
    FiveWords([0x45, 0], size, id, frag, [f.ttl, f.proto]);
  }

  /** The words of a built header add up to its fields and its checksum. */
  lemma IpBytesSum(f: IpFields, csum: nat)
    requires f.Packs() && csum < 0x1_0000
    ensures WordSum(IpBytes(f, csum)) == HeaderSum(f) + csum
  {
    hide WordSum, ToBE, IpHead;
    IpHeadSum(f);
    WordOf(csum);
    WordsOfAddress(f.src);
    WordsOfAddress(f.dst);
    hide Word, FromBE;
    WordSumAppend(IpHead(f), ToBE(csum, 2));
    WordSumAppend(ToBE(f.src, 4), ToBE(f.dst, 4));
    WordSumAppend(IpHead(f) + ToBE(csum, 2), ToBE(f.src, 4) + ToBE(f.dst, 4));
  }

  /** Folding twice gives the residue modulo 65535, with 65535 for zero. */
  lemma FoldedTwice(total: nat)
    requires 0 < total <= 0xFFFF * 10
    ensures Fold(Fold(total)) == if total % 0xFFFF == 0 then 0xFFFF else total % 0xFFFF
  {
    FoldResidue(total);
    FoldResidue(Fold(total));
    assert total / 0x1_0000 <= 9;
    assert Fold(Fold(total)) <= 0xFFFF;
  }

  /** The header sum plus the stored checksum, plain and flipped. */
  lemma StoredSum(total: nat, csum: nat)
    requires csum == 0xFFFF - if total % 0xFFFF == 0 then 0xFFFF else total % 0xFFFF
    ensures (total + csum) % 0xFFFF == 0
    ensures (total + (0xFFFF - csum)) % 0xFFFF == 0 <==> total % 0xFFFF == 0
  {
    var q, r := total / 0xFFFF, total % 0xFFFF;
    assert total == 0xFFFF * q + r;
    assert r != 0 ==> (total + csum) / 0xFFFF == q + 1;
  }

  lemma TrueChecksum(f: IpFields)
    requires f.Packs()
    ensures IpChecksum(IpBytes(f, 0)) == 0xFFFF - if HeaderSum(f) % 0xFFFF == 0 then 0xFFFF else HeaderSum(f) % 0xFFFF
  {
    hide WordSum, HeaderSum, IpBytes, Fold;
    IpBytesSum(f, 0);
    WordSumBound(IpBytes(f, 0));
    var total := HeaderSum(f);
    FoldedTwice(total);
    assert Fold(Fold(total)) < 0x1_0000;
  }

  /** A built header verifies; a deliberately corrupt one verifies exactly when its fields sum to a multiple of
      65535, because its checksum is then one zero and the flipped checksum the other. */
  lemma BuiltVerifies(f: IpFields, corrupt: bool)
    requires f.Packs()
    ensures Verified(Ipv4(f, corrupt)) <==> !corrupt || HeaderSum(f) % 0xFFFF == 0
  {
    hide WordSum, HeaderSum, IpBytes, Fold;
    var stored := StoredChecksum(f, corrupt);
    TrueChecksum(f);
    IpBytesSum(f, stored);
    EvenVerified(IpBytes(f, stored));
    StoredSum(HeaderSum(f), IpChecksum(IpBytes(f, 0)));
    hide Verified, IpChecksum;
  }

  /** The flipped checksum is not always wrong: a TCP header from 10.0.0.1 to 10.0.38.208 that still verifies. */
  lemma CorruptMayVerify()
    ensures var f := IpFields(0x0A00_0001, 0x0A00_26D0, PROTO_TCP, 20, 64);
      f.Packs() && Verified(Ipv4(f, true))
  {
    var f := IpFields(0x0A00_0001, 0x0A00_26D0, PROTO_TCP, 20, 64);
    assert HeaderSum(f) == 0xFFFF;
    BuiltVerifies(f, true);
  }

  // ---- Parsing frames ----------------------------------------------------

  datatype Ports = Ports(src: nat, dst: nat, flags: nat)

  /** Ports and flags of a segment; zeros when the protocol has none or too little was captured. */
  function Layer4(proto: Byte, l4: seq<Byte>): Ports {
    if proto == PROTO_TCP && |l4| >= 14 then Ports(FromBE(l4[..2]), FromBE(l4[2..4]), l4[13])
    else if proto == PROTO_UDP && |l4| >= 8 then Ports(FromBE(l4[..2]), FromBE(l4[2..4]), 0)
    else Ports(0, 0, 0)
  }

  /** `_IP.unpack_from`: the record of an IPv4 header that starts `ip`. */
  function RecordOf(ip: seq<Byte>, ihl: nat, timestamp: nat): PacketRecord
    requires IP_SIZE <= ihl <= |ip|
  {
    var ports := Layer4(ip[9], ip[ihl..]);
    PacketRecord(timestamp, FromBE(ip[12..16]), FromBE(ip[16..20]), ports.src, ports.dst, ip[9],
                 FromBE(ip[2..4]), ports.flags, ip[8])
  }

  /** The part of `parse_packet` behind the Ethernet header. */
  function ParseIp(ip: seq<Byte>, timestamp: nat, verifyChecksum: bool): Option<PacketRecord>
    requires |ip| >= IP_SIZE
  {
    var verIhl: nat := ip[0];
    if verIhl / 16 != 4 then None
    else
      var ihl := verIhl % 16 * 4;
      if ihl < IP_SIZE || |ip| < ihl then None
      else if verifyChecksum && !Verified(ip[..ihl]) then None
      else Some(RecordOf(ip, ihl, timestamp))
  }

  /** `parse_packet`; the timestamp is counted in microseconds. */
  function ParsePacket(data: seq<Byte>, timestamp: nat, verifyChecksum: bool): Option<PacketRecord> {
    if |data| < ETH_SIZE then None
    else if FromBE(data[12..14]) != ETHERTYPE_IPV4 then None
    else if |data| < ETH_SIZE + IP_SIZE then None
    else ParseIp(data[ETH_SIZE..], timestamp, verifyChecksum)
  }

  /** Whatever a frame holds, its record fits the columns of the store. */
  lemma ParsedFits(data: seq<Byte>, timestamp: nat, verifyChecksum: bool)
    requires timestamp < Pow256(8)
    ensures var r := ParsePacket(data, timestamp, verifyChecksum); r.Some? ==> r.value.Fits()
  {
    if ParsePacket(data, timestamp, verifyChecksum).Some? {
      var ip := data[ETH_SIZE..];
      var verIhl: nat := ip[0];
      var l4 := ip[verIhl % 16 * 4..];
      BEBound(ip[12..16]);
      BEBound(ip[16..20]);
      BEBound(ip[2..4]);
      if |l4| >= 8 {
        BEBound(l4[..2]);
        BEBound(l4[2..4]);
      }
      hide FromBE, Verified;
      assert Pow256(1) == 256;
    }
  }

  function Frame(dstMac: seq<Byte>, srcMac: seq<Byte>, f: IpFields, corrupt: bool, l4: seq<Byte>): seq<Byte>
    requires |dstMac| == |srcMac| == 6
  {
    Eth(dstMac, srcMac) + Ipv4(f, corrupt) + l4
  }

  lemma ValueBack(v: nat, width: nat)
    requires (width == 2 && v < 0x1_0000) || (width == 4 && v < 0x1_0000_0000)
    ensures FromBE(ToBE(v, width)) == v
  {
    assert Pow256(4) == 0x1_0000_0000 && Pow256(2) == 0x1_0000;
    BERoundTrip(v, width);
  }

  /** Where the fields of a built header are. */
  lemma IpSlices(f: IpFields, csum: nat, l4: seq<Byte>)
    ensures var ip := IpBytes(f, csum) + l4;
      && ip[0] == 0x45 && ip[8] == f.ttl && ip[9] == f.proto && ip[2..4] == ToBE(IP_SIZE + f.l4Len, 2)
      && ip[12..16] == ToBE(f.src, 4) && ip[16..20] == ToBE(f.dst, 4)
      && ip[..IP_SIZE] == IpBytes(f, csum) && ip[IP_SIZE..] == l4
  {
    hide ToBE;
    var head, mid, tail := IpHead(f), ToBE(csum, 2), ToBE(f.src, 4) + ToBE(f.dst, 4);
    var ip := IpBytes(f, csum) + l4;
    assert head[0] == 0x45 && head[8] == f.ttl && head[9] == f.proto && head[2..4] == ToBE(IP_SIZE + f.l4Len, 2);
    assert tail[..4] == ToBE(f.src, 4) && tail[4..8] == ToBE(f.dst, 4);
    hide IpHead;
    assert ip[..10] == head && ip[12..20] == tail;
    assert ip[2..4] == head[2..4] && ip[12..16] == tail[..4] && ip[16..20] == tail[4..8];
  }

  lemma FieldsBack(f: IpFields, corrupt: bool, l4: seq<Byte>, timestamp: nat)
    requires f.Packs()
    ensures var ip, ports := Ipv4(f, corrupt) + l4, Layer4(f.proto, l4);
      && ip[0] == 0x45 && ip[..IP_SIZE] == Ipv4(f, corrupt)
      && RecordOf(ip, IP_SIZE, timestamp)
         == PacketRecord(timestamp, f.src, f.dst, ports.src, ports.dst, f.proto, IP_SIZE + f.l4Len, ports.flags, f.ttl)
  {
    hide Layer4, FromBE, ToBE, Pow256, IpBytes, StoredChecksum;
    IpSlices(f, StoredChecksum(f, corrupt), l4);
    ValueBack(f.src, 4);
    ValueBack(f.dst, 4);
    ValueBack(IP_SIZE + f.l4Len, 2);
  }

  lemma ParseIpBuilt(f: IpFields, corrupt: bool, l4: seq<Byte>, timestamp: nat, verifyChecksum: bool)
    requires f.Packs()
    ensures ParseIp(Ipv4(f, corrupt) + l4, timestamp, verifyChecksum)
         == if verifyChecksum && corrupt && HeaderSum(f) % 0xFFFF != 0 then None
            else var ports := Layer4(f.proto, l4);
              Some(PacketRecord(timestamp, f.src, f.dst, ports.src, ports.dst, f.proto, IP_SIZE + f.l4Len, ports.flags, f.ttl))
  {
    hide Layer4, RecordOf, Verified, HeaderSum, Ipv4;
    FieldsBack(f, corrupt, l4, timestamp);
    BuiltVerifies(f, corrupt);
  }

  /** A built frame, with any bytes behind its IP header. */
  lemma ParseFrame(dstMac: seq<Byte>, srcMac: seq<Byte>, f: IpFields, corrupt: bool, l4: seq<Byte>,
                   timestamp: nat, verifyChecksum: bool)
    requires |dstMac| == |srcMac| == 6 && f.Packs()
    ensures ParsePacket(Frame(dstMac, srcMac, f, corrupt, l4), timestamp, verifyChecksum)
         == if verifyChecksum && corrupt && HeaderSum(f) % 0xFFFF != 0 then None
            else var ports := Layer4(f.proto, l4);
              Some(PacketRecord(timestamp, f.src, f.dst, ports.src, ports.dst, f.proto, IP_SIZE + f.l4Len, ports.flags, f.ttl))
  {
    hide FromBE, ToBE, ParseIp, Ipv4, Layer4, HeaderSum;
    ValueBack(ETHERTYPE_IPV4, 2);
    EthSlices(dstMac, srcMac, Ipv4(f, corrupt), l4);
    ParseIpBuilt(f, corrupt, l4, timestamp, verifyChecksum);
  }

  lemma EthSlices(dstMac: seq<Byte>, srcMac: seq<Byte>, ip: seq<Byte>, l4: seq<Byte>)
    requires |dstMac| == |srcMac| == 6
    ensures var data := Eth(dstMac, srcMac) + ip + l4;
      data[12..14] == ToBE(ETHERTYPE_IPV4, 2) && data[ETH_SIZE..] == ip + l4
  {
    hide ToBE;
    var data := Eth(dstMac, srcMac) + ip + l4;
    assert data[12..14] == ToBE(ETHERTYPE_IPV4, 2);
    assert data[ETH_SIZE..] == ip + l4;
  }

  /** The ports the parser reports of a segment of which only `n` bytes were captured. */
  function SeenPorts(seg: Segment, n: nat): Ports {
    if n < seg.PortsNeed() then Ports(0, 0, 0)
    else
      match seg
      case Tcp(s, d, flags, _) => Ports(s, d, flags)
      case Udp(s, d, _) => Ports(s, d, 0)
      case Icmp(_, _, _) => Ports(0, 0, 0)
  }

  lemma SegmentBack(seg: Segment, n: nat)
    requires seg.Packs() && n <= |seg.Bytes()|
    ensures Layer4(seg.Protocol(), seg.Bytes()[..n]) == SeenPorts(seg, n)
  {
    if !seg.Icmp? && n >= seg.PortsNeed() {
      assert Pow256(2) == 0x1_0000;
      hide FromBE, ToBE, Pow256;
      BERoundTrip(seg.sport, 2);
      BERoundTrip(seg.dport, 2);
      var l4 := seg.Bytes()[..n];
      assert l4[..2] == ToBE(seg.sport, 2);
      assert l4[2..4] == ToBE(seg.dport, 2);
    }
  }

  /** What is parsed of a built frame of which `n` bytes were captured: nothing short of the IP header, then every
      header field, and ports and flags as soon as enough of the segment is there. A corrupt header is dropped
      only by the checksum test, and only when its flipped checksum really is wrong. */
  lemma ParseBuilt(dstMac: seq<Byte>, srcMac: seq<Byte>, f: IpFields, corrupt: bool, seg: Segment, n: nat,
                   timestamp: nat, verifyChecksum: bool)
    requires |dstMac| == |srcMac| == 6 && f.Packs() && seg.Packs() && f.proto == seg.Protocol()
    requires n <= |Frame(dstMac, srcMac, f, corrupt, seg.Bytes())|
    ensures ParsePacket(Frame(dstMac, srcMac, f, corrupt, seg.Bytes())[..n], timestamp, verifyChecksum)
         == if n < ETH_SIZE + IP_SIZE || (verifyChecksum && corrupt && HeaderSum(f) % 0xFFFF != 0) then None
            else var ports := SeenPorts(seg, n - ETH_SIZE - IP_SIZE);
              Some(PacketRecord(timestamp, f.src, f.dst, ports.src, ports.dst, f.proto, IP_SIZE + f.l4Len, ports.flags, f.ttl))
  {
    hide HeaderSum, Layer4, SeenPorts, ParseIp;
    var m := ETH_SIZE + IP_SIZE;
    if n >= m {
      TakeFrame(dstMac, srcMac, f, corrupt, seg.Bytes(), n);
      hide ParsePacket, Frame, Segment.Bytes;
      ParseFrame(dstMac, srcMac, f, corrupt, seg.Bytes()[..n - m], timestamp, verifyChecksum);
      SegmentBack(seg, n - m);
    }
  }

  lemma TakeFrame(dstMac: seq<Byte>, srcMac: seq<Byte>, f: IpFields, corrupt: bool, l4: seq<Byte>, n: nat)
    requires |dstMac| == |srcMac| == 6
    requires ETH_SIZE + IP_SIZE <= n <= |Frame(dstMac, srcMac, f, corrupt, l4)|
    ensures Frame(dstMac, srcMac, f, corrupt, l4)[..n] == Frame(dstMac, srcMac, f, corrupt, l4[..n - ETH_SIZE - IP_SIZE])
  {
    hide Eth, Ipv4;
  }

  // ---- Whole captures ----------------------------------------------------

  /** `RawPacket.timestamp`, in microseconds. */
  function Micros(raw: Pcap.RawPacket): nat {
    raw.tsSec * 1_000_000 + raw.tsUsec
  }

  function ParseAll(raws: seq<Pcap.RawPacket>): seq<PacketRecord> {
    if raws == [] then []
    else
      var n := |raws| - 1;
      var rec := ParsePacket(raws[n].data, Micros(raws[n]), true);
      ParseAll(raws[..n]) + if rec.Some? then [rec.value] else []
  }

  /** `parse_file` */
  method ParseFile(file: seq<Byte>) returns (r: Result<seq<PacketRecord>, Pcap.PcapError>)
    ensures r.Ok? == Pcap.ReadFile(file).Ok?
    ensures r.Ok? ==> r.value == ParseAll(Pcap.ReadFile(file).value)
    ensures r.Err? ==> r.error == Pcap.ReadFile(file).error
  {
    var raws :- Pcap.ReadPackets(file);
    var out: seq<PacketRecord> := [];
    for i := 0 to |raws|
      invariant out == ParseAll(raws[..i])
    {
      assert raws[..i + 1][..i] == raws[..i];
      var rec := ParsePacket(raws[i].data, Micros(raws[i]), true);
      if rec.Some? { out := out + [rec.value]; }
    }
    assert raws[..|raws|] == raws;
    r := Ok(out);
  }

  /** One entry of a generated capture. */
  datatype Built = Built(sec: nat, usec: nat, dstMac: seq<Byte>, srcMac: seq<Byte>, f: IpFields, corrupt: bool, seg: Segment) {
    predicate Packs() {
      && |dstMac| == |srcMac| == 6 && f.Packs() && seg.Packs() && f.proto == seg.Protocol()
      && sec < Pcap.WORD && usec < Pcap.WORD && ETH_SIZE + IP_SIZE + |seg.Bytes()| < Pcap.WORD
    }

    function Raw(): Pcap.RawPacket
      requires Packs()
    {
      var frame := Frame(dstMac, srcMac, f, corrupt, seg.Bytes());
      Pcap.RawPacket(sec, usec, |frame|, frame)
    }

    /** The checksum test rejects it. */
    predicate Rejected() {
      corrupt && HeaderSum(f) % 0xFFFF != 0
    }

    function Record(): PacketRecord {
      var ports := SeenPorts(seg, |seg.Bytes()|);
      PacketRecord(sec * 1_000_000 + usec, f.src, f.dst, ports.src, ports.dst, f.proto, IP_SIZE + f.l4Len, ports.flags, f.ttl)
    }
  }

  function Raws(bs: seq<Built>): (s: seq<Pcap.RawPacket>)
    requires forall i :: 0 <= i < |bs| ==> bs[i].Packs()
    ensures |s| == |bs| && forall i :: 0 <= i < |bs| ==> s[i] == bs[i].Raw()
  {
    seq(|bs|, i requires 0 <= i < |bs| => bs[i].Raw())
  }

  function Accepted(bs: seq<Built>): seq<PacketRecord> {
    if bs == [] then []
    else
      var n := |bs| - 1;
      Accepted(bs[..n]) + if bs[n].Rejected() then [] else [bs[n].Record()]
  }

  lemma OneBuilt(b: Built)
    requires b.Packs()
    ensures ParsePacket(b.Raw().data, Micros(b.Raw()), true) == if b.Rejected() then None else Some(b.Record())
  {
    hide HeaderSum, ParsePacket, SeenPorts, Segment.Bytes, Ipv4, Eth;
    var frame := Frame(b.dstMac, b.srcMac, b.f, b.corrupt, b.seg.Bytes());
    ParseBuilt(b.dstMac, b.srcMac, b.f, b.corrupt, b.seg, |frame|, b.sec * 1_000_000 + b.usec, true);
    assert frame[..|frame|] == frame;
  }

  lemma {:induction false} AllBuilt(bs: seq<Built>)
    requires forall i :: 0 <= i < |bs| ==> bs[i].Packs()
    ensures ParseAll(Raws(bs)) == Accepted(bs)
  {
    hide ParsePacket, Built.Rejected, Built.Record, Built.Raw, Built.Packs;
    if bs != [] {
      var n := |bs| - 1;
      OneBuilt(bs[n]);
      AllBuilt(bs[..n]);
      assert Raws(bs)[..n] == Raws(bs[..n]);
    }
  }

  lemma RawFits(b: Built)
    requires b.Packs()
    ensures Pcap.Fits(b.Raw())
  {
    hide Segment.Bytes, Ipv4, Eth;
  }

  /** Build frames, write them to a capture file, read it and parse it: every frame comes back with all its
      fields, in order, except the corrupt ones the checksum can tell. */
  lemma FixtureParses(bs: seq<Built>, snaplen: nat)
    requires forall i :: 0 <= i < |bs| ==> bs[i].Packs()
    ensures var raws := Pcap.ReadFile(Pcap.FileOf(Raws(bs), snaplen));
      raws.Ok? && ParseAll(raws.value) == Accepted(bs)
  {
    hide *;
    forall i | 0 <= i < |bs| ensures Pcap.Fits(Raws(bs)[i]) {
      RawFits(bs[i]);
    }
    Pcap.WriteReadBack(Raws(bs), snaplen);
    AllBuilt(bs);
  }
}
