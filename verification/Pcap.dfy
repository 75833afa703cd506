/** The classic pcap file format (packetql/capture/pcap.py). */
module Pcap {
  import opened Wrappers
  import opened Bytes
  import opened Slices

  const MAGIC: nat := 0xA1B2C3D4
  const LINKTYPE_ETHERNET: nat := 1
  const GLOBAL_SIZE: nat := 24
  const RECORD_SIZE: nat := 16

  datatype RawPacket = RawPacket(tsSec: nat, tsUsec: nat, origLen: nat, data: seq<Byte>)

  datatype PcapError = TooShort | BadMagic | BadLinkType

  const WORD: nat := 0x1_0000_0000

  predicate Fits(p: RawPacket) {
    p.tsSec < WORD && p.tsUsec < WORD && |p.data| < WORD && p.origLen < WORD
  }

  // ---- Files as bytes ----------------------------------------------------

  function GlobalBytes(snaplen: nat): (s: seq<Byte>)
    ensures |s| == GLOBAL_SIZE
  {
    ToLE(MAGIC, 4) + (ToLE(2, 2) + ToLE(4, 2) + ToLE(0, 4) + ToLE(0, 4) + ToLE(snaplen, 4)) + ToLE(LINKTYPE_ETHERNET, 4)
  }

  function HeaderBytes(p: RawPacket): (s: seq<Byte>)
    ensures |s| == RECORD_SIZE
  {
    ToLE(p.tsSec, 4) + ToLE(p.tsUsec, 4) + ToLE(|p.data|, 4) + ToLE(p.origLen, 4)
  }

  function RecordBytes(p: RawPacket): (s: seq<Byte>)
    ensures |s| == RECORD_SIZE + |p.data|
  {
    HeaderBytes(p) + p.data
  }

  function PacketsTo(ps: seq<RawPacket>): seq<Byte> {
    if ps == [] then [] else RecordBytes(ps[0]) + PacketsTo(ps[1..])
  }

  /** What `write_packets` writes. */
  function FileOf(ps: seq<RawPacket>, snaplen: nat): seq<Byte> {
    GlobalBytes(snaplen) + PacketsTo(ps)
  }

  /** The fields of a record header. */
  function HeaderOf(rec: seq<Byte>): (nat, nat, nat, nat)
    requires |rec| == RECORD_SIZE
  {
    (FromLE(rec[..4]), FromLE(rec[4..8]), FromLE(rec[8..12]), FromLE(rec[12..16]))
  }

  /** The records of a file after its header: up to the first one that is not complete. */
  function ReadRecords(acc: seq<RawPacket>, s: seq<Byte>): seq<RawPacket>
    decreases |s|
  {
    if |s| < RECORD_SIZE then acc
    else
      var (tsSec, tsUsec, inclLen, origLen) := HeaderOf(s[..RECORD_SIZE]);
      var rest := s[RECORD_SIZE..];
      if |rest| < inclLen then acc
      else ReadRecords(acc + [RawPacket(tsSec, tsUsec, origLen, rest[..inclLen])], rest[inclLen..])
  }

  /** `read_packets` */
  function ReadFile(file: seq<Byte>): Result<seq<RawPacket>, PcapError> {
    if |file| < GLOBAL_SIZE then Err(TooShort)
    else if FromLE(file[..4]) != MAGIC then Err(BadMagic)
    else if FromLE(file[20..24]) != LINKTYPE_ETHERNET then Err(BadLinkType)
    else Ok(ReadRecords([], file[GLOBAL_SIZE..]))
  }

  // ---- Reading back, whole or cut short -----------------------------------

  lemma WordWidth()
    ensures Pow256(4) == WORD && MAGIC < WORD && LINKTYPE_ETHERNET < WORD
  {
    assert Pow256(3) == 0x100_0000;
  }

  lemma HeaderBack(p: RawPacket)
    requires Fits(p)
    ensures HeaderOf(HeaderBytes(p)) == (p.tsSec, p.tsUsec, |p.data|, p.origLen)
  {
    hide ToLE, FromLE, Pow256;
    WordWidth();
    LERoundTrip(p.tsSec, 4);
    LERoundTrip(p.tsUsec, 4);
    LERoundTrip(|p.data|, 4);
    LERoundTrip(p.origLen, 4);
    var rec := HeaderBytes(p);
    assert rec[..4] == ToLE(p.tsSec, 4);
    assert rec[4..8] == ToLE(p.tsUsec, 4);
    assert rec[8..12] == ToLE(|p.data|, 4);
    assert rec[12..16] == ToLE(p.origLen, 4);
  }

  /** How many records lie wholly inside the first `room` bytes. */
  function WholeRecords(ps: seq<RawPacket>, room: nat): (n: nat)
    ensures n <= |ps|
  {
    if ps == [] || room < RECORD_SIZE + |ps[0].data| then 0
    else 1 + WholeRecords(ps[1..], room - RECORD_SIZE - |ps[0].data|)
  }

  /** The count is the largest: `k` records fit exactly when `k` is at most it. */
  lemma {:induction false} WholeRecordsLongest(ps: seq<RawPacket>, room: nat, k: nat)
    requires k <= |ps|
    ensures |PacketsTo(ps[..k])| <= room <==> k <= WholeRecords(ps, room)
  {
    if k != 0 {
      assert ps[..k][1..] == ps[1..][..k - 1];
      var size := RECORD_SIZE + |ps[0].data|;
      if room >= size { WholeRecordsLongest(ps[1..], room - size, k - 1); }
    }
  }

  /** One record in front of anything long enough is read as its packet. */
  lemma ReadOne(acc: seq<RawPacket>, p: RawPacket, s: seq<Byte>, tail: seq<Byte>)
    requires Fits(p) && s == RecordBytes(p) + tail
    ensures ReadRecords(acc, s) == ReadRecords(acc + [p], tail)
  {
    HeaderBack(p);
    hide HeaderOf, HeaderBytes;
    assert s[..RECORD_SIZE] == HeaderBytes(p);
    var rest := s[RECORD_SIZE..];
    assert rest == p.data + tail;
    assert rest[..|p.data|] == p.data && rest[|p.data|..] == tail;
  }

  /** A record that is not complete ends the reading. */
  lemma ReadTorn(acc: seq<RawPacket>, p: RawPacket, s: seq<Byte>)
    requires Fits(p) && s < RecordBytes(p)
    ensures ReadRecords(acc, s) == acc
  {
    HeaderBack(p);
    hide HeaderOf, HeaderBytes;
    if |s| >= RECORD_SIZE {
      assert s[..RECORD_SIZE] == HeaderBytes(p);
    }
  }

  lemma TakeSplit(a: seq<Byte>, b: seq<Byte>, n: nat)
    requires n <= |a| + |b|
    ensures n < |a| ==> (a + b)[..n] == a[..n]
    ensures n >= |a| ==> (a + b)[..n] == a + b[..n - |a|] && (a + b)[|a|..n] == b[..n - |a|]
  {
  }

  lemma NoRecords(acc: seq<RawPacket>)
    ensures ReadRecords(acc, []) == acc
  {
  }

  lemma NextTaken(acc: seq<RawPacket>, ps: seq<RawPacket>, n: nat)
    requires 0 < |ps| && n < |ps|
    ensures (acc + [ps[0]]) + ps[1..][..n] == acc + ps[..1 + n]
  {
  }

  lemma {:induction false} ReadsWhole(acc: seq<RawPacket>, ps: seq<RawPacket>, room: nat)
    requires forall i :: 0 <= i < |ps| ==> Fits(ps[i])
    requires room <= |PacketsTo(ps)|
    ensures ReadRecords(acc, PacketsTo(ps)[..room]) == acc + ps[..WholeRecords(ps, room)]
    decreases |ps|
  {
    hide ReadRecords, RecordBytes;
    if ps == [] {
      NoRecords(acc);
      assert acc + [] == acc;
    } else {
      var first, size := RecordBytes(ps[0]), RECORD_SIZE + |ps[0].data|;
      TakeSplit(first, PacketsTo(ps[1..]), room);
      if room < size {
        ReadTorn(acc, ps[0], first[..room]);
        assert acc + [] == acc;
      } else {
        var tail := PacketsTo(ps[1..])[..room - size];
        ReadOne(acc, ps[0], first + tail, tail);
        ReadsWhole(acc + [ps[0]], ps[1..], room - size);
        NextTaken(acc, ps, WholeRecords(ps[1..], room - size));
      }
    }
  }

  /** The written global header passes the reader's checks. */
  lemma GlobalBack(snaplen: nat, tail: seq<Byte>)
    ensures ReadFile(GlobalBytes(snaplen) + tail) == Ok(ReadRecords([], tail))
  {
    hide ToLE, FromLE, Pow256, ReadRecords;
    WordWidth();
    LERoundTrip(MAGIC, 4);
    LERoundTrip(LINKTYPE_ETHERNET, 4);
    var file := GlobalBytes(snaplen) + tail;
    assert file[..4] == ToLE(MAGIC, 4);
    assert file[20..24] == ToLE(LINKTYPE_ETHERNET, 4);
    assert file[GLOBAL_SIZE..] == tail;
  }

  /** A capture cut after `n` bytes reads as its longest run of whole records; inside the global header it is refused. */
  lemma TruncationReadsPrefix(ps: seq<RawPacket>, snaplen: nat, n: nat)
    requires forall i :: 0 <= i < |ps| ==> Fits(ps[i])
    requires n <= |FileOf(ps, snaplen)|
    ensures ReadFile(FileOf(ps, snaplen)[..n])
         == if n < GLOBAL_SIZE then Err(TooShort) else Ok(ps[..WholeRecords(ps, n - GLOBAL_SIZE)])
  {
    TakeSplit(GlobalBytes(snaplen), PacketsTo(ps), n);
    hide GlobalBytes, PacketsTo, WholeRecords, ReadRecords;
    if n < GLOBAL_SIZE {
      assert |FileOf(ps, snaplen)[..n]| == n;
    } else {
      hide ReadFile;
      GlobalBack(snaplen, PacketsTo(ps)[..n - GLOBAL_SIZE]);
      ReadsWhole([], ps, n - GLOBAL_SIZE);
      assert [] + ps[..WholeRecords(ps, n - GLOBAL_SIZE)] == ps[..WholeRecords(ps, n - GLOBAL_SIZE)];
    }
  }

  /** What is written is what is read. */
  lemma WriteReadBack(ps: seq<RawPacket>, snaplen: nat)
    requires forall i :: 0 <= i < |ps| ==> Fits(ps[i])
    ensures ReadFile(FileOf(ps, snaplen)) == Ok(ps)
  {
    var file := FileOf(ps, snaplen);
    TruncationReadsPrefix(ps, snaplen, |file|);
    assert file[..|file|] == file;
    assert ps[..|ps|] == ps;
    hide ReadFile;
    WholeRecordsLongest(ps, |PacketsTo(ps)|, |ps|);
  }

  // ---- The file loops ----------------------------------------------------

  /** How many packets come before the first that does not fit. */
  function FittingFirst(ps: seq<RawPacket>): (n: nat)
    ensures n <= |ps| && (forall i :: 0 <= i < n ==> Fits(ps[i])) && (n < |ps| ==> !Fits(ps[n]))
  {
    if ps == [] || !Fits(ps[0]) then 0 else 1 + FittingFirst(ps[1..])
  }

  /** `write_packets`: a field that does not fit raises, and leaves the records before it. */
  method WritePackets(ps: seq<RawPacket>, snaplen: nat) returns (ok: bool, file: seq<Byte>)
    ensures ok <==> snaplen < WORD && forall i :: 0 <= i < |ps| ==> Fits(ps[i])
    ensures file == if snaplen < WORD then FileOf(ps[..FittingFirst(ps)], snaplen) else []
    ensures ok ==> file == FileOf(ps, snaplen)
  {
    if snaplen >= WORD { return false, []; }
    file := GlobalBytes(snaplen);
    ghost var n := FittingFirst(ps);
    ghost var written := ps[..n];
    assert n == |ps| ==> written == ps;
    assert written[0..] == written;
    for i := 0 to |ps|
      invariant i <= n && file + PacketsTo(written[i..]) == FileOf(written, snaplen)
    {
      hide HeaderBytes, GlobalBytes;
      if !Fits(ps[i]) {
        assert i == n && file + [] == file;
        return false, file;
      }
      assert written[i..][1..] == written[i + 1..] && written[i..][0] == ps[i];
      Regroup(file, HeaderBytes(ps[i]), ps[i].data);
      Regroup(file, RecordBytes(ps[i]), PacketsTo(written[i + 1..]));
      file := file + HeaderBytes(ps[i]);
      file := file + ps[i].data;
    }
    assert file + [] == file;
    ok := true;
  }

  lemma CursorSlices(file: seq<Byte>, pos: nat, n: nat)
    requires pos + n <= |file|
    ensures file[pos..][..n] == file[pos..pos + n] && file[pos..][n..] == file[pos + n..]
  {
  }

  method ReadPackets(file: seq<Byte>) returns (r: Result<seq<RawPacket>, PcapError>)
    ensures r == ReadFile(file)
  {
    hide FromLE;
    if |file| < GLOBAL_SIZE { return Err(TooShort); }
    if FromLE(file[..4]) != MAGIC { return Err(BadMagic); }
    if FromLE(file[20..24]) != LINKTYPE_ETHERNET { return Err(BadLinkType); }
    var packets: seq<RawPacket> := [];
    var pos := GLOBAL_SIZE;
    while true
      invariant GLOBAL_SIZE <= pos <= |file|
      invariant ReadRecords([], file[GLOBAL_SIZE..]) == ReadRecords(packets, file[pos..])
      decreases |file| - pos
    {
      hide HeaderOf;
      if |file| - pos < RECORD_SIZE { break; }
      CursorSlices(file, pos, RECORD_SIZE);
      var (tsSec, tsUsec, inclLen, origLen) := HeaderOf(file[pos..pos + RECORD_SIZE]);
      pos := pos + RECORD_SIZE;
      if |file| - pos < inclLen { break; }
      CursorSlices(file, pos, inclLen);
      packets := packets + [RawPacket(tsSec, tsUsec, origLen, file[pos..pos + inclLen])];
      pos := pos + inclLen;
    }
    r := Ok(packets);
  }
}
