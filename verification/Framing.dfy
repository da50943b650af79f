/**
  Length-prefixed frames: the Go carrier's blocking reader and writer, and the
  TypeScript carrier's incremental reassembler, which sees the stream in chunks.
 */
module Framing {
  import opened Bytes

  const MAX_FRAME: nat := 1025 * 0x10_0000

  /** A 4-byte big-endian length and the payload. */
  function Framed(b: bytes): bytes { ToBigEndian(|b|, 4) + b }

  /** `writeFrame`: the framed payload, or nothing when it is too large. */
  function WriteFrame(b: bytes): Option<bytes> {
    if |b| > MAX_FRAME then None else Some(Framed(b))
  }

  datatype Read =
    | Eof                                // the stream ended between frames
    | Truncated                          // the stream ended inside a frame
    | TooLarge(length: nat)
    | Frame(frame: bytes, rest: bytes)

  /** `readFrame` on a reader that will deliver exactly `s` and then end. */
  function ReadFrame(s: bytes): (r: Read)
    ensures r.Frame? ==> |r.rest| + 4 <= |s|
  {
    if |s| == 0 then Eof
    else if |s| < 4 then Truncated
    else
      var n := BigEndian(s[..4]);
      if n > MAX_FRAME then TooLarge(n)
      else if |s| - 4 < n then Truncated
      else Frame(s[4..4 + n], s[4 + n..])
  }

  /** All frames of `s` in order, the bytes left over, and whether an oversized prefix ended the scan. */
  datatype Scan = Scan(frames: seq<bytes>, rest: bytes, oversized: bool)

  function ReadAll(s: bytes): Scan
    decreases |s|
  {
    match ReadFrame(s)
    case Frame(f, rest) => var tail := ReadAll(rest); tail.(frames := [f] + tail.frames)
    case TooLarge(_) => Scan([], s, true)
    case _ => Scan([], s, false)
  }

  /**
    The receive side of the carrier: what it buffers, whether it still has its socket,
    whether its listener is on, and what it has delivered.
   */
  datatype Received = Received(recvBuf: bytes, open: bool, listening: bool, delivered: seq<bytes>)

  /** What can happen to a connection: data arrives, or `close` gives the socket up while data still arrives. */
  datatype Event = Chunk(data: bytes) | Close

  function After(r: Received, e: Event): Received {
    match e
    case Close => r.(open := false)
    case Chunk(data) =>
      if !r.listening then r
      else
        var scan := ReadAll(r.recvBuf + data);
        var delivered := r.delivered + scan.frames;
        if scan.oversized && r.open then Received([], false, false, delivered)
        else r.(recvBuf := scan.rest, delivered := delivered)
  }

  function AfterAll(es: seq<Event>): Received {
    if es == [] then Received([], true, true, [])
    else After(AfterAll(es[..|es| - 1]), es[|es| - 1])
  }

  /** The carrier's receive side. */
  class Reassembler {
    var recvBuf: bytes
    var open: bool
    var listening: bool
    /** The frames handed to `onFrame`, in order. */
    var delivered: seq<bytes>

    function View(): Received
      reads this
    {
      Received(recvBuf, open, listening, delivered)
    }

    constructor ()
      ensures View() == AfterAll([])
    {
      recvBuf, open, listening, delivered := [], true, true, [];
    }

    /** Does nothing once the socket was given up. */
    method Teardown()
      modifies this
      ensures View() == if old(open) then Received([], false, false, old(delivered)) else old(View())
    {
      if !open {
        return;
      }
      open := false;
      recvBuf := [];
      listening := false;
    }

    method GiveUpSocket()
      modifies this
      ensures View() == After(old(View()), Close)
    {
      open := false;
    }

    method OnData(chunk: bytes)
      requires listening
      modifies this
      ensures View() == After(old(View()), Chunk(chunk))
    {
      hide BigEndian, ReadAll;
      ghost var s := recvBuf + chunk;
      recvBuf := if |recvBuf| > 0 then recvBuf + chunk else chunk;
      assert recvBuf == s;
      while true
        invariant listening && open == old(open)
        invariant var scan, left := ReadAll(s), ReadAll(recvBuf);
                  && old(delivered) + scan.frames == delivered + left.frames
                  && scan.rest == left.rest && scan.oversized == left.oversized
        decreases |recvBuf|
      {
        ReadAllCases(recvBuf);
        if |recvBuf| < 4 {
          assert delivered + [] == delivered;
          return;
        }
        var len := ReadUint32(recvBuf[..4]);
        if len > MAX_FRAME {
          assert delivered + [] == delivered;
          Teardown();
          return;
        }
        if |recvBuf| < 4 + len {
          assert delivered + [] == delivered;
          return;
        }
        var frame := recvBuf[4..4 + len];
        ghost var tail := ReadAll(recvBuf[4 + len..]);
        assert delivered + ([frame] + tail.frames) == delivered + [frame] + tail.frames;
        recvBuf := recvBuf[4 + len..];
        delivered := delivered + [frame];
      }
    }
  }

  /** How a scan goes on from the front of `s`. */
  lemma ReadAllCases(s: bytes)
    ensures var n := if |s| < 4 then 0 else BigEndian(s[..4]);
            if |s| < 4 then ReadAll(s) == Scan([], s, false)
            else if n > MAX_FRAME then ReadAll(s) == Scan([], s, true)
            else if |s| < 4 + n then ReadAll(s) == Scan([], s, false)
            else
              var tail := ReadAll(s[4 + n..]);
              ReadAll(s) == tail.(frames := [s[4..4 + n]] + tail.frames)
  {
    hide BigEndian;
  }

  /** `readUInt32BE(0)`. */
  method ReadUint32(s: bytes) returns (n: nat)
    requires |s| == 4
    ensures n == BigEndian(s)
  {
    assert s[..3][..2] == [s[0], s[1]] && [s[0], s[1]][..1] == [s[0]] && [s[0]][..0] == [];
    assert BigEndian([s[0]]) == s[0];
    assert BigEndian([s[0], s[1]]) == BigEndian([s[0]]) * 256 + s[1];
    assert BigEndian(s[..3]) == BigEndian(s[..3][..2]) * 256 + s[2];
    var a: int, b: int, c: int, d: int := s[0], s[1], s[2], s[3];
    n := a * 0x100_0000 + b * 0x1_0000 + c * 0x100 + d;
  }

  /** The stream that the chunks cut up. */
  function Stream(es: seq<Event>): bytes {
    if es == [] then []
    else
      var n := |es| - 1;
      Stream(es[..n]) + if es[n].Chunk? then es[n].data else []
  }

  /** The events up to the first `Close`. */
  function BeforeClose(es: seq<Event>): seq<Event> {
    if es == [] then []
    else
      var n := |es| - 1;
      if Close in es[..n] then BeforeClose(es[..n])
      else if es[n].Close? then es[..n]
      else es
  }

  /** Bytes that arrive later only extend what was scanned so far. */
  lemma {:induction false} ReadAllAppend(s: bytes, t: bytes)
    ensures var a, whole := ReadAll(s), ReadAll(s + t);
            if a.oversized then whole == a.(rest := a.rest + t)
            else
              var b := ReadAll(a.rest + t);
              whole == b.(frames := a.frames + b.frames)
    decreases |s|
  {
    hide ReadAll, ReadFrame;
    ReadFrameAppend(s, t);
    match ReadFrame(s)
    case Frame(f, rest) =>
      ReadAllStep(s, f, rest);
      ReadAllStep(s + t, f, rest + t);
      ReadAllAppend(rest, t);
      var b := ReadAll(ReadAll(rest).rest + t);
      assert [f] + (ReadAll(rest).frames + b.frames) == [f] + ReadAll(rest).frames + b.frames;
    case TooLarge(_) =>
      ReadAllStops(s);
      ReadAllStops(s + t);
    case _ =>
      ReadAllStops(s);
      var b := ReadAll(s + t);
      assert [] + b.frames == b.frames;
  }

  /** A frame or an oversized prefix at the front stays what it is when more bytes follow. */
  lemma ReadFrameAppend(s: bytes, t: bytes)
    ensures match ReadFrame(s)
            case Frame(f, rest) => |rest| < |s| && ReadFrame(s + t) == Frame(f, rest + t)
            case TooLarge(n) => ReadFrame(s + t) == TooLarge(n)
            case _ => true
  {
    hide BigEndian;
    if |s| >= 4 {
      assert (s + t)[..4] == s[..4];
      match ReadFrame(s)
      case Frame(f, rest) =>
        var n := |f|;
        assert (s + t)[4..4 + n] == s[4..4 + n];
        assert (s + t)[4 + n..] == rest + t;
      case _ =>
    }
  }

  lemma ReadAllStops(s: bytes)
    requires !ReadFrame(s).Frame?
    ensures ReadAll(s) == Scan([], s, ReadFrame(s).TooLarge?)
  {
    hide ReadFrame;
  }

  /** What the carrier has to be in after `es`. */
  function Expected(es: seq<Event>): Received {
    var scan := ReadAll(Stream(es));
    if ReadAll(Stream(BeforeClose(es))).oversized then Received([], false, false, scan.frames)
    else Received(scan.rest, Close !in es, true, scan.frames)
  }

  /**
    However the stream is cut into chunks, and whenever the socket is given up, the
    reassembler delivers the frames that repeated `readFrame` reads from the whole
    stream. It detaches at an oversized prefix that arrives while it has the socket, and
    otherwise keeps exactly the unread remainder.
   */
  lemma {:induction false} ChunkingDoesNotMatter(es: seq<Event>)
    ensures AfterAll(es) == Expected(es)
    decreases |es|
  {
    hide ReadAll;
    if es == [] {
      NothingToRead();
    } else {
      var n := |es| - 1;
      var before, e := es[..n], es[n];
      ChunkingDoesNotMatter(before);
      assert es == before + [e];
      OversizedStays(before);
      if Close !in before {
        NotClosedYet(before);
      }
      if e.Close? {
        assert Stream(es) == Stream(before);
      } else {
        ChunkArrives(before, e.data);
      }
    }
  }

  lemma ChunkArrives(before: seq<Event>, data: bytes)
    requires AfterAll(before) == Expected(before) && (Close !in before ==> BeforeClose(before) == before)
    requires ReadAll(Stream(BeforeClose(before))).oversized ==> ReadAll(Stream(before)).oversized
    ensures After(AfterAll(before), Chunk(data)) == Expected(before + [Chunk(data)])
  {
    hide ReadAll, AfterAll, Stream, BeforeClose;
    var es := before + [Chunk(data)];
    var a := ReadAll(Stream(before));
    ReadAllAppend(Stream(before), data);
    OneMoreChunk(before, data);
    ReadAllRest(Stream(before));
    ReadAllAppend(a.rest, data);
    assert a.frames + [] == a.frames;
  }

  /** What a scan leaves over holds no further frame, and stays oversized if it was. */
  lemma {:induction false} ReadAllRest(s: bytes)
    ensures ReadAll(ReadAll(s).rest) == Scan([], ReadAll(s).rest, ReadAll(s).oversized)
    decreases |s|
  {
    hide BigEndian;
    match ReadFrame(s)
    case Frame(_, rest) => ReadAllRest(rest);
    case _ =>
  }

  lemma OneMoreChunk(before: seq<Event>, data: bytes)
    ensures var es := before + [Chunk(data)];
            && Stream(es) == Stream(before) + data
            && (Close in es <==> Close in before)
            && BeforeClose(es) == if Close in before then BeforeClose(before) else es
  {
    var es := before + [Chunk(data)];
    assert es[..|before|] == before;
  }

  lemma NothingToRead()
    ensures ReadAll([]) == Scan([], [], false)
  {
  }

  lemma NotClosedYet(es: seq<Event>)
    requires Close !in es
    ensures BeforeClose(es) == es
  {
    if es != [] {
      assert es[|es| - 1] in es;
    }
  }

  /** An oversized prefix stays one, whatever arrives after it. */
  lemma {:induction false} OversizedStays(es: seq<Event>)
    ensures ReadAll(Stream(BeforeClose(es))).oversized ==> ReadAll(Stream(es)).oversized
  {
    hide ReadAll;
    if es != [] && BeforeClose(es) != es {
      var n := |es| - 1;
      if Close in es[..n] {
        OversizedStays(es[..n]);
      }
      ReadAllAppend(Stream(es[..n]), if es[n].Chunk? then es[n].data else []);
    }
  }

  /** What `writeFrame` puts on the wire for a run of payloads. */
  function Wire(payloads: seq<bytes>): bytes {
    if payloads == [] then [] else Framed(payloads[0]) + Wire(payloads[1..])
  }

  /** One written frame reads back, whatever comes after it. */
  lemma FrameReadsBack(p: bytes, rest: bytes)
    requires |p| <= MAX_FRAME
    ensures WriteFrame(p) == Some(Framed(p)) && ReadFrame(Framed(p) + rest) == Frame(p, rest)
  {
    hide ToBigEndian, BigEndian, Pow256;
    var s := Framed(p) + rest;
    Pow256Values();
    BigEndianOfBytes(|p|, 4);
    assert s[..4] == ToBigEndian(|p|, 4);
    assert s[4..4 + |p|] == p;
    assert s[4 + |p|..] == rest;
  }

  /** A stream that ends inside a frame is an error; only one that ends between frames is a clean end. */
  lemma CutFrame(p: bytes, k: nat)
    requires |p| <= MAX_FRAME && k < |Framed(p)|
    ensures ReadFrame(Framed(p)[..k]) == if k == 0 then Eof else Truncated
  {
    hide ToBigEndian, BigEndian, Pow256;
    if k >= 4 {
      Pow256Values();
      BigEndianOfBytes(|p|, 4);
      assert Framed(p)[..k][..4] == ToBigEndian(|p|, 4);
    }
  }

  /** The limit is 1025 MiB for writer and reader alike, and the length comes most significant byte first. */
  lemma FrameLimit(p: bytes)
    ensures WriteFrame(p).Some? <==> |p| <= 1_074_790_400
    ensures |p| < 0x1_0000_0000 ==>
              Framed(p) == [|p| / 0x100_0000, |p| / 0x1_0000 % 256, |p| / 0x100 % 256, |p| % 256] + p
    ensures 1_074_790_400 < |p| < 0x1_0000_0000 ==> ReadFrame(Framed(p)) == TooLarge(|p|)
  {
    if |p| < 0x1_0000_0000 {
      FourBytes(|p|);
      hide ToBigEndian, BigEndian, Pow256;
      Pow256Values();
      BigEndianOfBytes(|p|, 4);
      assert Framed(p)[..4] == ToBigEndian(|p|, 4);
    }
  }

  lemma FourBytes(n: nat)
    requires n < 0x1_0000_0000
    ensures ToBigEndian(n, 4) == [n / 0x100_0000, n / 0x1_0000 % 256, n / 0x100 % 256, n % 256]
  {
    hide ToBigEndian;
    BigEndianStep(n, 4);
    BigEndianStep(n / 256, 3);
    BigEndianStep(n / 256 / 256, 2);
    BigEndianStep(n / 256 / 256 / 256, 1);
  }

  lemma BigEndianStep(n: nat, k: nat)
    requires k > 0
    ensures ToBigEndian(n, k) == ToBigEndian(n / 256, k - 1) + [n % 256]
    ensures ToBigEndian(n / 256, 0) == []
  {
  }

  lemma ReadAllStep(s: bytes, f: bytes, rest: bytes)
    requires ReadFrame(s) == Frame(f, rest)
    ensures ReadAll(s) == ReadAll(rest).(frames := [f] + ReadAll(rest).frames)
  {
    hide BigEndian;
  }

  /** A connection from first to last: its events as they come, and what is delivered in the end. */
  method Receive(es: seq<Event>) returns (frames: seq<bytes>)
    ensures frames == ReadAll(Stream(es)).frames
  {
    hide After, AfterAll, ReadAll, Stream, BeforeClose;
    var r := new Reassembler();
    var i := 0;
    while i < |es|
      invariant 0 <= i <= |es| && r.View() == AfterAll(es[..i])
    {
      AfterOne(es, i);
      if es[i].Close? {
        r.GiveUpSocket();
      } else if r.listening {
        r.OnData(es[i].data);
      }
      i := i + 1;
    }
    assert es[..i] == es;
    ChunkingDoesNotMatter(es);
    frames := r.delivered;
  }

  lemma AfterOne(es: seq<Event>, i: nat)
    requires i < |es|
    ensures AfterAll(es[..i + 1]) == After(AfterAll(es[..i]), es[i])
    ensures es[i].Chunk? && !AfterAll(es[..i]).listening ==> AfterAll(es[..i + 1]) == AfterAll(es[..i])
  {
    assert es[..i + 1][..i] == es[..i];
  }

  /** A stream of written frames reads back as the payloads, in order, whatever comes after them. */
  lemma {:induction false} WireReadsBack(payloads: seq<bytes>, t: bytes)
    requires forall p :: p in payloads ==> |p| <= MAX_FRAME
    ensures ReadAll(Wire(payloads) + t) == ReadAll(t).(frames := payloads + ReadAll(t).frames)
  {
    hide ReadFrame, Framed, ReadAll;
    if payloads == [] {
      assert Wire(payloads) + t == t && payloads + ReadAll(t).frames == ReadAll(t).frames;
    } else {
      var p, rest := payloads[0], Wire(payloads[1..]) + t;
      WireReadsBack(payloads[1..], t);
      FrameReadsBack(p, rest);
      assert Wire(payloads) + t == Framed(p) + rest;
      ReadAllStep(Framed(p) + rest, p, rest);
      assert payloads + ReadAll(t).frames == [p] + (payloads[1..] + ReadAll(t).frames);
    }
  }
}
