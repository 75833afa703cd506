/** What the frame parser reads, byte by byte, of any frame (packetql/capture/parser.py). */
module FrameBytes {
  import opened Wrappers
  import opened Bytes
  import opened Columnar
  import opened Packet
  import Addresses

  /** Where the segment starts: behind the Ethernet header and as many 32-bit words as the IP header says. */
  function SegmentAt(data: seq<Byte>): nat
    requires |data| > ETH_SIZE
  {
    var verIhl: nat := data[ETH_SIZE];
    ETH_SIZE + 4 * (verIhl % 16)
  }

  /** Which frames are accepted: long enough for both headers, IPv4 by EtherType and by version, at least five words of
      header, all of them captured, and, when the checksum counts, a word sum that is a positive multiple of 65535. */
  predicate Accepted(data: seq<Byte>, verifyChecksum: bool) {
    && |data| >= 34
    && data[12] == 0x08 && data[13] == 0x00
    && data[14] >= 0x45 && data[14] <= 0x4F
    && |data| >= SegmentAt(data)
    && (verifyChecksum ==> WordSum(data[14..SegmentAt(data)]) > 0 && WordSum(data[14..SegmentAt(data)]) % 0xFFFF == 0)
  }

  lemma TwoBytes(s: seq<Byte>)
    requires |s| == 2
    ensures FromBE(s) == 256 * (s[0] as nat) + s[1] as nat
  {
    assert FromBE(s[..1]) == s[0] as nat by { assert s[..1][..0] == []; }
  }

  lemma FourBytes(s: seq<Byte>)
    requires |s| == 4
    ensures FromBE(s) == 0x100_0000 * (s[0] as nat) + 0x1_0000 * (s[1] as nat) + 0x100 * (s[2] as nat) + s[3] as nat
  {
    TwoBytes(s[..2]);
    assert s[..3][..2] == s[..2] && s[..4] == s;
    assert FromBE(s[..3]) == 256 * FromBE(s[..2]) + s[2] as nat;
    assert FromBE(s) == 256 * FromBE(s[..3]) + s[3] as nat;
  }

  lemma HeaderVerified(data: seq<Byte>)
    requires |data| >= 34 && SegmentAt(data) <= |data|
    ensures var h := data[ETH_SIZE..SegmentAt(data)];
      |h| % 2 == 0 && (Verified(h) <==> WordSum(h) > 0 && WordSum(h) % 0xFFFF == 0)
  {
    EvenVerified(data[ETH_SIZE..SegmentAt(data)]);
  }

  /** A frame is rejected exactly when one of those conditions fails. */
  lemma AcceptedExactly(data: seq<Byte>, timestamp: nat, verifyChecksum: bool)
    ensures ParsePacket(data, timestamp, verifyChecksum).Some? <==> Accepted(data, verifyChecksum)
  {
    hide FromBE, Verified, WordSum, RecordOf;
    if |data| >= 34 {
      TwoBytes(data[12..14]);
      var ip := data[ETH_SIZE..];
      assert ip[0] == data[14];
      if SegmentAt(data) <= |data| {
        HeaderVerified(data);
        assert ip[..SegmentAt(data) - ETH_SIZE] == data[ETH_SIZE..SegmentAt(data)];
      }
    }
  }

  lemma RecordParsed(data: seq<Byte>, timestamp: nat, verifyChecksum: bool)
    requires ParsePacket(data, timestamp, verifyChecksum).Some?
    ensures |data| >= 34 && 34 <= SegmentAt(data) <= |data|
    ensures ParsePacket(data, timestamp, verifyChecksum).value
         == RecordOf(data[ETH_SIZE..], SegmentAt(data) - ETH_SIZE, timestamp)
  {
    hide FromBE, Verified, RecordOf;
  }

  /** The fields of an accepted frame, wherever its options end. */
  lemma FieldsRead(data: seq<Byte>, timestamp: nat, verifyChecksum: bool)
    requires ParsePacket(data, timestamp, verifyChecksum).Some?
    ensures |data| >= 34
    ensures var r := ParsePacket(data, timestamp, verifyChecksum).value;
      && r.timestamp == timestamp && r.protocol == data[23] as nat && r.ttl == data[22] as nat
      && r.size == 256 * (data[16] as nat) + data[17] as nat
      && Addresses.Octets(r.srcIp) == [data[26] as nat, data[27] as nat, data[28] as nat, data[29] as nat]
      && Addresses.Octets(r.dstIp) == [data[30] as nat, data[31] as nat, data[32] as nat, data[33] as nat]
  {
    RecordParsed(data, timestamp, verifyChecksum);
    hide ParsePacket, Layer4, FromBE, Addresses.Octets;
    var ip := data[ETH_SIZE..];
    TwoBytes(ip[2..4]);
    FourOctets(ip[12..16]);
    FourOctets(ip[16..20]);
  }

  lemma FourOctets(s: seq<Byte>)
    requires |s| == 4
    ensures Addresses.Octets(FromBE(s)) == [s[0] as nat, s[1] as nat, s[2] as nat, s[3] as nat]
  {
    FourBytes(s);
    hide FromBE;
    Addresses.OctetsDetermine(FromBE(s), s[0] as nat, s[1] as nat, s[2] as nat, s[3] as nat);
  }

  /** Ports and flags are read behind the options: of TCP when 14 bytes are there, of UDP when 8 are, and of nothing
      else. */
  lemma PortsRead(data: seq<Byte>, timestamp: nat, verifyChecksum: bool)
    requires ParsePacket(data, timestamp, verifyChecksum).Some?
    ensures |data| >= 34 && SegmentAt(data) <= |data|
    ensures var r, at := ParsePacket(data, timestamp, verifyChecksum).value, SegmentAt(data);
      if (data[23] == 6 && |data| >= at + 14) || (data[23] == 17 && |data| >= at + 8) then
        && r.srcPort == 256 * (data[at] as nat) + data[at + 1] as nat
        && r.dstPort == 256 * (data[at + 2] as nat) + data[at + 3] as nat
        && r.tcpFlags == if data[23] == 6 then data[at + 13] as nat else 0
      else r.srcPort == 0 && r.dstPort == 0 && r.tcpFlags == 0
  {
    RecordParsed(data, timestamp, verifyChecksum);
    var at := SegmentAt(data);
    hide ParsePacket, FromBE, SegmentAt;
    var ip := data[ETH_SIZE..];
    var l4 := ip[at - ETH_SIZE..];
    assert l4 == data[at..];
    if |l4| >= 4 {
      TwoBytes(l4[..2]);
      TwoBytes(l4[2..4]);
    }
  }

  // ---- Any header --------------------------------------------------------

  /** An IPv4 header as it may come, options included. */
  datatype Header = Header(tos: Byte, len: nat, id: nat, frag: nat, ttl: Byte, proto: Byte, csum: nat, src: nat, dst: nat,
                           options: seq<Byte>) {
    predicate Packs() {
      && len < 0x1_0000 && id < 0x1_0000 && frag < 0x1_0000 && csum < 0x1_0000
      && src < 0x1_0000_0000 && dst < 0x1_0000_0000 && |options| % 4 == 0 && |options| <= 40
    }

    function Fixed(): (s: seq<Byte>)
      requires Packs()
      ensures |s| == IP_SIZE
    {
      [0x45 + |options| / 4, tos] + ToBE(len, 2) + ToBE(id, 2) + ToBE(frag, 2) + [ttl, proto] + ToBE(csum, 2)
      + ToBE(src, 4) + ToBE(dst, 4)
    }

    function Bytes(): (s: seq<Byte>)
      requires Packs()
      ensures |s| == IP_SIZE + |options|
    {
      Fixed() + options
    }
  }

  lemma HeaderSlices(h: Header)
    requires h.Packs()
    ensures var s := h.Fixed();
      && s[0] == 0x45 + |h.options| / 4 && s[8] == h.ttl && s[9] == h.proto && s[2..4] == ToBE(h.len, 2)
      && s[12..16] == ToBE(h.src, 4) && s[16..20] == ToBE(h.dst, 4)
  {
    hide ToBE;
  }

  lemma HeaderRecord(h: Header, l4: seq<Byte>, timestamp: nat)
    requires h.Packs()
    ensures RecordOf(h.Bytes() + l4, IP_SIZE + |h.options|, timestamp)
         == (var ports := Layer4(h.proto, l4);
             PacketRecord(timestamp, h.src, h.dst, ports.src, ports.dst, h.proto, h.len, ports.flags, h.ttl))
  {
    hide ToBE, FromBE, Layer4, Header.Fixed;
    HeaderSlices(h);
    var ip, s := h.Bytes() + l4, h.Fixed();
    assert s <= ip;
    assert ip[8] == s[8] && ip[9] == s[9] && ip[2..4] == s[2..4] && ip[12..16] == s[12..16] && ip[16..20] == s[16..20];
    assert ip[IP_SIZE + |h.options|..] == l4;
    ValueBack(h.src, 4);
    ValueBack(h.dst, 4);
    ValueBack(h.len, 2);
  }

  /** Any IPv4 header, with any options, before any bytes: the frame is parsed to the header's own fields and to the ports
      of those bytes, unless the checksum counts and does not verify. */
  lemma AnyHeaderParses(dstMac: seq<Byte>, srcMac: seq<Byte>, h: Header, l4: seq<Byte>, timestamp: nat, verifyChecksum: bool)
    requires |dstMac| == |srcMac| == 6 && h.Packs()
    ensures ParsePacket(Eth(dstMac, srcMac) + h.Bytes() + l4, timestamp, verifyChecksum)
         == if verifyChecksum && !Verified(h.Bytes()) then None
            else var ports := Layer4(h.proto, l4);
              Some(PacketRecord(timestamp, h.src, h.dst, ports.src, ports.dst, h.proto, h.len, ports.flags, h.ttl))
  {
    hide FromBE, ToBE, Layer4, RecordOf, Verified, Eth;
    ValueBack(ETHERTYPE_IPV4, 2);
    EthSlices(dstMac, srcMac, h.Bytes(), l4);
    HeaderSlices(h);
    HeaderRecord(h, l4, timestamp);
    hide Header.Fixed;
    assert (h.Bytes() + l4)[..IP_SIZE + |h.options|] == h.Bytes();
    assert (h.Bytes() + l4)[0] == 0x45 + |h.options| / 4;
  }

  /** The same for a segment of which n bytes were captured. */
  lemma AnyHeaderWithSegment(dstMac: seq<Byte>, srcMac: seq<Byte>, h: Header, seg: Segment, n: nat, timestamp: nat,
                             verifyChecksum: bool)
    requires |dstMac| == |srcMac| == 6 && h.Packs() && seg.Packs() && h.proto == seg.Protocol() && n <= |seg.Bytes()|
    ensures ParsePacket(Eth(dstMac, srcMac) + h.Bytes() + seg.Bytes()[..n], timestamp, verifyChecksum)
         == if verifyChecksum && !Verified(h.Bytes()) then None
            else var ports := SeenPorts(seg, n);
              Some(PacketRecord(timestamp, h.src, h.dst, ports.src, ports.dst, h.proto, h.len, ports.flags, h.ttl))
  {
    hide ParsePacket, Layer4, SeenPorts, Verified, Segment.Bytes;
    AnyHeaderParses(dstMac, srcMac, h, seg.Bytes()[..n], timestamp, verifyChecksum);
    SegmentBack(seg, n);
  }
}
