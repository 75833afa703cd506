/** Length-prefixed frames over a byte stream that arrives in arbitrary pieces (packetql/server.py). */
module Framing {
  import opened Wrappers
  import opened Bytes
  import opened Slices

  datatype Frame = Frame(kind: Byte, payload: seq<Byte>)

  datatype ConnectionError = PeerClosed

  // ---- Frames as bytes ---------------------------------------------------

  predicate FrameFits(f: Frame) {
    |f.payload| < 0x1_0000_0000
  }

  /** What `send_frame` sends. */
  function FrameBytes(f: Frame): seq<Byte> {
    (ToBE(|f.payload|, 4) + [f.kind]) + f.payload
  }

  /** Frames one after the other, then other bytes. */
  function FramesTo(fs: seq<Frame>, k: seq<Byte>): seq<Byte> {
    if fs == [] then k else FrameBytes(fs[0]) + FramesTo(fs[1..], k)
  }

  /** The frame at the start of a stream, and the rest of the stream. */
  function ReadFrame(s: seq<Byte>): Option<(Frame, seq<Byte>)> {
    if |s| < 5 then None
    else
      var length := FromBE(s[..4]);
      if |s| < 5 + length then None else Some((Frame(s[4], s[5..5 + length]), s[5 + length..]))
  }

  function ReadFrames(acc: seq<Frame>, s: seq<Byte>, n: nat): Option<(seq<Frame>, seq<Byte>)>
    decreases n
  {
    if n == 0 then Some((acc, s))
    else
      match ReadFrame(s)
      case None => None
      case Some((f, rest)) => ReadFrames(acc + [f], rest, n - 1)
  }

  /** Reading a sent frame takes its bytes and no byte of what follows. */
  lemma FrameBack(f: Frame, k: seq<Byte>)
    requires FrameFits(f)
    ensures ReadFrame(FrameBytes(f) + k) == Some((f, k))
  {
    assert Pow256(4) == 0x1_0000_0000;
    BERoundTrip(|f.payload|, 4);
    hide ToBE;
    hide FromBE;
    var s := FrameBytes(f) + k;
    assert s[..4] == ToBE(|f.payload|, 4) && s[4] == f.kind;
    assert s[5..5 + |f.payload|] == f.payload && s[5 + |f.payload|..] == k;
  }

  /** Any sequence of frames is read back in order, up to the byte after the last. */
  lemma {:induction false} FramesBack(acc: seq<Frame>, fs: seq<Frame>, k: seq<Byte>)
    requires forall i :: 0 <= i < |fs| ==> FrameFits(fs[i])
    ensures ReadFrames(acc, FramesTo(fs, k), |fs|) == Some((acc + fs, k))
    decreases |fs|
  {
    if fs == [] {
      assert acc + fs == acc;
    } else {
      FrameBack(fs[0], FramesTo(fs[1..], k));
      hide ReadFrame;
      hide FrameBytes;
      FramesBack(acc + [fs[0]], fs[1..], k);
      Shift(acc, fs);
    }
  }

  // ---- The sockets -------------------------------------------------------

  function Joined(pieces: seq<seq<Byte>>): seq<Byte> {
    if pieces == [] then [] else pieces[0] + Joined(pieces[1..])
  }

  /** The receiving end: the pieces TCP will still deliver, each non-empty, and then the end of the stream. */
  class Socket {
    var pieces: seq<seq<Byte>>

    ghost predicate Valid()
      reads this
    {
      forall i :: 0 <= i < |pieces| ==> pieces[i] != []
    }

    function Stream(): seq<Byte>
      reads this
    {
      Joined(pieces)
    }

    constructor (arrivals: seq<seq<Byte>>)
      requires forall i :: 0 <= i < |arrivals| ==> arrivals[i] != []
      ensures Valid() && Stream() == Joined(arrivals)
    {
      pieces := arrivals;
    }

    /** At most `n` bytes: what has arrived so far of the next piece, or nothing at the end of the stream. */
    method Recv(n: nat) returns (chunk: seq<Byte>)
      requires Valid() && n > 0
      modifies this
      ensures Valid() && chunk + Stream() == old(Stream()) && |chunk| <= n
      ensures chunk == [] <==> old(Stream()) == []
    {
      if pieces == [] { return []; }
      var first := pieces[0];
      if |first| <= n {
        chunk := first;
        pieces := pieces[1..];
      } else {
        chunk := first[..n];
        assert first == first[..n] + first[n..];
        Regroup(first[..n], first[n..], Joined(pieces[1..]));
        pieces := [first[n..]] + pieces[1..];
        assert pieces[1..] == old(pieces)[1..];
      }
    }

    /** `recv_exact`: exactly `n` bytes however they arrive, or an error when the stream ends first. */
    method RecvExact(n: nat) returns (r: Result<seq<Byte>, ConnectionError>)
      requires Valid()
      modifies this
      ensures Valid()
      ensures r.Ok? <==> |old(Stream())| >= n
      ensures r.Ok? ==> r.value == old(Stream())[..n] && Stream() == old(Stream())[n..]
    {
      var buf: seq<Byte> := [];
      while |buf| < n
        invariant Valid() && |buf| <= n && buf + Stream() == old(Stream())
        decreases n - |buf|
      {
        ghost var before := Stream();
        var chunk := Recv(n - |buf|);
        if chunk == [] {
          assert buf + [] == buf;
          return Err(PeerClosed);
        }
        Regroup(buf, chunk, Stream());
        buf := buf + chunk;
      }
      assert (buf + Stream())[..n] == buf && (buf + Stream())[n..] == Stream();
      r := Ok(buf);
    }

    /** `recv_frame` */
    method RecvFrame() returns (r: Result<Frame, ConnectionError>)
      requires Valid()
      modifies this
      ensures Valid()
      ensures r.Ok? <==> ReadFrame(old(Stream())).Some?
      ensures r.Ok? ==> ReadFrame(old(Stream())) == Some((r.value, Stream()))
    {
      hide FromBE;
      ghost var s := Stream();
      var header := RecvExact(5);
      if header.Err? { return Err(PeerClosed); }
      assert header.value[..4] == s[..4] && header.value[4] == s[4];
      var length := FromBE(header.value[..4]);
      var payload := RecvExact(length);
      if payload.Err? { return Err(PeerClosed); }
      assert s[5..][..length] == s[5..5 + length] && s[5..][length..] == s[5 + length..];
      r := Ok(Frame(header.value[4], payload.value));
    }

    /** A peer that reads `n` frames. */
    method RecvFrames(n: nat) returns (r: Result<seq<Frame>, ConnectionError>)
      requires Valid()
      modifies this
      ensures Valid()
      ensures r.Ok? <==> ReadFrames([], old(Stream()), n).Some?
      ensures r.Ok? ==> ReadFrames([], old(Stream()), n) == Some((r.value, Stream()))
    {
      hide ReadFrame;
      var fs: seq<Frame> := [];
      for i := 0 to n
        invariant Valid()
        invariant ReadFrames([], old(Stream()), n) == ReadFrames(fs, Stream(), n - i)
      {
        var f := RecvFrame();
        if f.Err? { return Err(PeerClosed); }
        fs := fs + [f.value];
      }
      r := Ok(fs);
    }
  }

  /** The sending end: everything sent so far. */
  class Sender {
    var sent: seq<Byte>

    constructor ()
      ensures sent == []
    {
      sent := [];
    }

    /** `send_frame`; a payload too long for its length field raises. */
    method SendFrame(f: Frame) returns (ok: bool)
      modifies this
      ensures ok <==> FrameFits(f)
      ensures sent == if ok then old(sent) + FrameBytes(f) else old(sent)
    {
      if |f.payload| >= 0x1_0000_0000 { return false; }
      sent := sent + ((ToBE(|f.payload|, 4) + [f.kind]) + f.payload);
      ok := true;
    }
  }

  /** However the bytes of some frames are cut into pieces, the receiver gets those frames and stops after the last. */
  method Exchange(fs: seq<Frame>, k: seq<Byte>, pieces: seq<seq<Byte>>) returns (got: seq<Frame>, left: seq<Byte>)
    requires forall i :: 0 <= i < |fs| ==> FrameFits(fs[i])
    requires forall i :: 0 <= i < |pieces| ==> pieces[i] != []
    requires Joined(pieces) == FramesTo(fs, k)
    ensures got == fs && left == k
  {
    var socket := new Socket(pieces);
    FramesBack([], fs, k);
    assert [] + fs == fs;
    var r := socket.RecvFrames(|fs|);
    got := r.value;
    left := socket.Stream();
  }
}
