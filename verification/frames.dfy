/**
 Reassembly of length-prefixed packets from a byte stream that arrives in arbitrary chunks.

 `ParseFrames` is the reference: the maximal run of valid frames before the first invalid length
 or the incomplete tail. The client's read task agrees with it for every chunking; the server's
 `handle_data` does so exactly when no invalid length follows a complete frame.
 */
module Frames {
  import opened Bytes
  import opened Codec

  // One frame ---------------------------------------------------------------------------

  datatype Cut = More | Invalid(len: u32) | Packet(body: seq<u8>, rest: seq<u8>)

  /** One round of either reassembly loop. */
  function NextFrame(s: seq<u8>): Cut {
    if |s| < 4 then More else
      var len := U32Of(s[..4]);
      if len > MAX_SFTP_PACKET_SIZE || len == 0 then Invalid(len)
      else if |s| < 4 + len then More
      else Packet(s[4..4 + len], s[4 + len..])
  }

  predicate ValidBody(body: seq<u8>) {
    0 < |body| <= MAX_SFTP_PACKET_SIZE
  }

  /** The frame that carries `body`. */
  function FrameOf(body: seq<u8>): (f: seq<u8>)
    requires ValidBody(body)
    ensures |f| == 4 + |body|
  {
    U32Bytes(|body|) + body
  }

  lemma NextFrameOf(body: seq<u8>, rest: seq<u8>)
    requires ValidBody(body)
    ensures NextFrame(FrameOf(body) + rest) == Packet(body, rest)
  {
    hide U32Bytes, U32Of;
    var s := FrameOf(body) + rest;
    assert s[..4] == U32Bytes(|body|);
    assert s[4..4 + |body|] == body;
    assert s[4 + |body|..] == rest;
  }

  lemma NextFrameInverse(s: seq<u8>)
    requires NextFrame(s).Packet?
    ensures ValidBody(NextFrame(s).body) && s == FrameOf(NextFrame(s).body) + NextFrame(s).rest
  {
    hide U32Bytes, U32Of;
    U32BytesInverse(s[..4]);
  }

  lemma NextFrameGrows(s: seq<u8>, more: seq<u8>)
    ensures NextFrame(s).Packet? ==> NextFrame(s + more) == Packet(NextFrame(s).body, NextFrame(s).rest + more)
    ensures NextFrame(s).Invalid? ==> NextFrame(s + more) == NextFrame(s)
  {
    hide U32Of;
    if |s| >= 4 {
      assert (s + more)[..4] == s[..4];
      var len: int := U32Of(s[..4]);
      if |s| >= 4 + len {
        assert (s + more)[4..4 + len] == s[4..4 + len];
        assert (s + more)[4 + len..] == s[4 + len..] + more;
      }
    }
  }

  // A whole stream ----------------------------------------------------------------------

  datatype Stop = Waiting(tail: seq<u8>) | Broken(len: u32)
  datatype Parsed = Parsed(packets: seq<seq<u8>>, stop: Stop)

  function ParseFrames(s: seq<u8>): Parsed
    decreases |s|
  {
    match NextFrame(s)
    case More => Parsed([], Waiting(s))
    case Invalid(len) => Parsed([], Broken(len))
    case Packet(body, rest) =>
      var p := ParseFrames(rest);
      Parsed([body] + p.packets, p.stop)
  }

  predicate ValidBodies(bodies: seq<seq<u8>>) {
    forall i :: 0 <= i < |bodies| ==> ValidBody(bodies[i])
  }

  function Wire(bodies: seq<seq<u8>>): seq<u8>
    requires ValidBodies(bodies)
  {
    if bodies == [] then [] else FrameOf(bodies[0]) + Wire(bodies[1..])
  }

  lemma {:induction false} WireAppend(a: seq<seq<u8>>, b: seq<seq<u8>>)
    requires ValidBodies(a) && ValidBodies(b)
    ensures ValidBodies(a + b) && Wire(a + b) == Wire(a) + Wire(b)
  {
    hide FrameOf, ValidBody;
    if a == [] {
      assert a + b == b;
    } else {
      WireAppend(a[1..], b);
      assert (a + b)[1..] == a[1..] + b;
      AppendAssociates(FrameOf(a[0]), Wire(a[1..]), Wire(b));
    }
  }

  /** `ParseFrames` splits every stream into whole valid frames and a remainder that starts with
      no whole valid frame ... */
  lemma {:induction false} ParseIsSplit(s: seq<u8>) returns (tail: seq<u8>)
    ensures var p := ParseFrames(s);
            ValidBodies(p.packets) && s == Wire(p.packets) + tail
            && (p.stop.Waiting? ==> tail == p.stop.tail && NextFrame(tail).More?)
            && (p.stop.Broken? ==> NextFrame(tail) == Invalid(p.stop.len))
    decreases |s|
  {
    hide FrameOf;
    match NextFrame(s) {
      case Packet(body, rest) =>
        NextFrameInverse(s);
        tail := ParseIsSplit(rest);
        assert ([body] + ParseFrames(rest).packets)[1..] == ParseFrames(rest).packets;
        AppendAssociates(FrameOf(body), Wire(ParseFrames(rest).packets), tail);
      case _ =>
        tail := s;
        assert [] + s == s;
    }
  }

  /** ... and there is only one such split. */
  lemma {:induction false} ParseIsOnlySplit(bodies: seq<seq<u8>>, tail: seq<u8>)
    requires ValidBodies(bodies) && !NextFrame(tail).Packet?
    ensures ParseFrames(Wire(bodies) + tail)
            == Parsed(bodies, if NextFrame(tail).More? then Waiting(tail) else Broken(NextFrame(tail).len))
  {
    hide FrameOf;
    if bodies == [] {
      assert [] + tail == tail;
    } else {
      AppendAssociates(FrameOf(bodies[0]), Wire(bodies[1..]), tail);
      NextFrameOf(bodies[0], Wire(bodies[1..]) + tail);
      ParseIsOnlySplit(bodies[1..], tail);
    }
  }

  /** What is kept between chunks is a strict prefix of one frame: at most 262147 bytes. */
  lemma TailIsShort(s: seq<u8>)
    requires NextFrame(s).More?
    ensures |s| <= 262147
    ensures |s| >= 4 ==> 0 < U32Of(s[..4]) <= MAX_SFTP_PACKET_SIZE && |s| < 4 + U32Of(s[..4])
  {}

  /** Parsing can be resumed from the tail; after an invalid length nothing more is read. */
  lemma {:induction false} ParseResumes(s: seq<u8>, more: seq<u8>)
    ensures var p := ParseFrames(s);
            ParseFrames(s + more)
            == if p.stop.Broken? then p
               else var q := ParseFrames(p.stop.tail + more); Parsed(p.packets + q.packets, q.stop)
    decreases |s|
  {
    NextFrameGrows(s, more);
    match NextFrame(s) {
      case More => assert [] + ParseFrames(s + more).packets == ParseFrames(s + more).packets;
      case Invalid(_) =>
      case Packet(body, rest) =>
        ParseResumes(rest, more);
        var p := ParseFrames(rest);
        if p.stop.Waiting? {
          AppendAssociates([body], p.packets, ParseFrames(p.stop.tail + more).packets);
        }
    }
  }

  /** A prefix of a well-formed stream parses to the frames it holds in full. */
  lemma {:induction false} PrefixParse(bodies: seq<seq<u8>>, s: seq<u8>, unseen: seq<u8>) returns (m: nat)
    requires ValidBodies(bodies) && Wire(bodies) == s + unseen
    ensures m <= |bodies| && ParseFrames(s).packets == bodies[..m] && ParseFrames(s).stop.Waiting?
    ensures ParseFrames(s).stop.tail + unseen == Wire(bodies[m..])
    ensures NextFrame(ParseFrames(s).stop.tail).More?
  {
    hide FrameOf, ValidBody;
    if bodies == [] {
      assert s == [];
      return 0;
    }
    var f, w := FrameOf(bodies[0]), Wire(bodies[1..]);
    if |s| < |f| {
      assert s <= f by { assert s == (f + w)[..|s|] == f[..|s|]; }
      StrictPrefixIsMore(bodies[0], s);
      m := 0;
    } else {
      var s' := s[|f|..];
      assert (s + unseen)[..|f|] == s[..|f|] && (f + w)[..|f|] == f;
      assert s == f + s';
      assert w == s' + unseen by { assert (s + unseen)[|f|..] == s' + unseen && (f + w)[|f|..] == w; }
      NextFrameOf(bodies[0], s');
      var m' := PrefixParse(bodies[1..], s', unseen);
      m := m' + 1;
      assert bodies[..m] == [bodies[0]] + bodies[1..][..m'];
      assert bodies[m..] == bodies[1..][m'..];
    }
  }

  lemma StrictPrefixIsMore(body: seq<u8>, s: seq<u8>)
    requires ValidBody(body) && s <= FrameOf(body) && |s| < |FrameOf(body)|
    ensures NextFrame(s).More?
  {
    hide U32Bytes, U32Of;
    if |s| >= 4 {
      assert s[..4] == FrameOf(body)[..4] == U32Bytes(|body|);
    }
  }

  // The client's read task over chunks -------------------------------------------------------

  /** Read-task state: the bytes kept, the packets dispatched so far, the length that aborted it. */
  datatype Reader = Reader(buf: seq<u8>, dispatched: seq<seq<u8>>, aborted: Option<u32>)

  const FRESH_READER := Reader([], [], None)

  function Feed(r: Reader, chunk: seq<u8>): Reader {
    if r.aborted.Some? then r else
      var p := ParseFrames(r.buf + chunk);
      Reader(if p.stop.Waiting? then p.stop.tail else [],
             r.dispatched + p.packets,
             if p.stop.Broken? then Some(p.stop.len) else None)
  }

  function FeedAll(r: Reader, chunks: seq<seq<u8>>): Reader
    decreases |chunks|
  {
    if chunks == [] then r else FeedAll(Feed(r, chunks[0]), chunks[1..])
  }

  lemma {:induction false} FeedAllParses(r: Reader, chunks: seq<seq<u8>>)
    requires r.aborted.None? && NextFrame(r.buf).More?
    ensures var p := ParseFrames(r.buf + Concat(chunks));
            var r' := FeedAll(r, chunks);
            r'.dispatched == r.dispatched + p.packets
            && (p.stop.Waiting? ==> r'.aborted.None? && r'.buf == p.stop.tail)
            && (p.stop.Broken? ==> r'.aborted == Some(p.stop.len))
    decreases |chunks|
  {
    if chunks == [] {
      assert r.buf + [] == r.buf;
    } else {
      var r1 := Feed(r, chunks[0]);
      AppendAssociates(r.buf, chunks[0], Concat(chunks[1..]));
      ParseResumes(r.buf + chunks[0], Concat(chunks[1..]));
      if r1.aborted.None? {
        var _ := ParseIsSplit(r.buf + chunks[0]);
        FeedAllParses(r1, chunks[1..]);
        var q := ParseFrames(r1.buf + Concat(chunks[1..]));
        AppendAssociates(r.dispatched, ParseFrames(r.buf + chunks[0]).packets, q.packets);
      } else {
        AbortedStays(r1, chunks[1..]);
      }
    }
  }

  lemma {:induction false} AbortedStays(r: Reader, chunks: seq<seq<u8>>)
    requires r.aborted.Some?
    ensures FeedAll(r, chunks) == r
    decreases |chunks|
  {
    if chunks == [] {
    } else {
      AbortedStays(r, chunks[1..]);
    }
  }

  /** For every stream and every way of cutting it into chunks, the read task dispatches exactly
      the frames of the reference parse, and never holds more than one partial frame. */
  lemma ReadTaskRefinesParse(stream: seq<u8>, chunks: seq<seq<u8>>)
    requires Concat(chunks) == stream
    ensures var r := FeedAll(FRESH_READER, chunks);
            var p := ParseFrames(stream);
            r.dispatched == p.packets
            && r.aborted == (if p.stop.Broken? then Some(p.stop.len) else None)
            && (p.stop.Waiting? ==> r.buf == p.stop.tail && |r.buf| <= 262147)
  {
    assert NextFrame([]).More?;
    hide NextFrame, ParseFrames, FeedAll, Feed, Wire;
    FeedAllParses(FRESH_READER, chunks);
    assert [] + stream == stream;
    assert [] + ParseFrames(stream).packets == ParseFrames(stream).packets;
    var tail := ParseIsSplit(stream);
    if ParseFrames(stream).stop.Waiting? {
      TailIsShort(tail);
    }
  }

  // The server's handle_data over chunks -----------------------------------------------------

  /** One channel of the server: its buffer while registered, and the packets handed to dispatch. */
  datatype Channel = Channel(buffer: Option<seq<u8>>, dispatched: seq<seq<u8>>)

  const FRESH_CHANNEL := Channel(Some([]), [])

  /** Frames cut in this call are thrown away when an invalid length follows them. */
  function Accept(c: Channel, chunk: seq<u8>): Channel {
    if c.buffer.None? then c else
      match ParseFrames(c.buffer.value + chunk)
      case Parsed(packets, Waiting(tail)) => Channel(Some(tail), c.dispatched + packets)
      case Parsed(_, Broken(_)) => Channel(None, c.dispatched)
  }

  function AcceptAll(c: Channel, chunks: seq<seq<u8>>): Channel
    decreases |chunks|
  {
    if chunks == [] then c else AcceptAll(Accept(c, chunks[0]), chunks[1..])
  }

  lemma {:induction false} AcceptAllParses(c: Channel, chunks: seq<seq<u8>>)
    requires c.buffer.Some? && NextFrame(c.buffer.value).More?
    requires ParseFrames(c.buffer.value + Concat(chunks)).stop.Waiting?
    ensures var p := ParseFrames(c.buffer.value + Concat(chunks));
            AcceptAll(c, chunks) == Channel(Some(p.stop.tail), c.dispatched + p.packets)
    decreases |chunks|
  {
    var buf := c.buffer.value;
    if chunks == [] {
      assert buf + [] == buf;
      assert c.dispatched + [] == c.dispatched;
    } else {
      AppendAssociates(buf, chunks[0], Concat(chunks[1..]));
      ParseResumes(buf + chunks[0], Concat(chunks[1..]));
      var c1 := Accept(c, chunks[0]);
      var _ := ParseIsSplit(buf + chunks[0]);
      AcceptAllParses(c1, chunks[1..]);
      AppendAssociates(c.dispatched, ParseFrames(buf + chunks[0]).packets,
                       ParseFrames(c1.buffer.value + Concat(chunks[1..])).packets);
    }
  }

  /** Any two chunkings of `stream` make the server dispatch the same packets. */
  ghost predicate ServerChunkingIrrelevant(stream: seq<u8>) {
    forall one: seq<seq<u8>>, two: seq<seq<u8>> :: Concat(one) == stream && Concat(two) == stream ==>
      AcceptAll(FRESH_CHANNEL, one).dispatched == AcceptAll(FRESH_CHANNEL, two).dispatched
  }

  /** The server's answers do not depend on the chunking exactly when the stream holds no invalid
      length, or holds no complete frame before it; and then they are those of the reference parse. */
  lemma ServerChunkingLaw(stream: seq<u8>)
    ensures ServerChunkingIrrelevant(stream)
            <==> ParseFrames(stream).stop.Waiting? || ParseFrames(stream).packets == []
    ensures ServerChunkingIrrelevant(stream) ==>
              forall chunks: seq<seq<u8>> :: Concat(chunks) == stream ==>
                AcceptAll(FRESH_CHANNEL, chunks).dispatched == ParseFrames(stream).packets
  {
    hide ParseFrames, NextFrame, AcceptAll, Concat;
    var p := ParseFrames(stream);
    NothingIsLeft();
    if p.stop.Waiting? || p.packets == [] {
      forall chunks: seq<seq<u8>> | Concat(chunks) == stream
        ensures AcceptAll(FRESH_CHANNEL, chunks).dispatched == p.packets
      {
        assert [] + stream == stream && [] + p.packets == p.packets;
        if p.stop.Waiting? {
          AcceptAllParses(FRESH_CHANNEL, chunks);
        } else {
          NothingBeforeInvalid(FRESH_CHANNEL, chunks);
        }
      }
    } else {
      OneChunkDropsAll(stream);
      var chunks := FramesThenRest(stream);
    }
  }

  /** Cut right before the invalid length, everything ahead of it is dispatched. */
  lemma FramesThenRest(stream: seq<u8>) returns (chunks: seq<seq<u8>>)
    requires ParseFrames(stream).stop.Broken?
    ensures Concat(chunks) == stream && AcceptAll(FRESH_CHANNEL, chunks).dispatched == ParseFrames(stream).packets
  {
    var packets := ParseFrames(stream).packets;
    var tail := ParseIsSplit(stream);
    var frames := Wire(packets);
    chunks := [frames, tail];
    hide Wire, NextFrame, ParseFrames, AcceptAll;
    assert chunks[1..] == [tail] && [tail][1..] == chunks[2..];
    assert Concat([tail]) == tail + Concat<u8>([]);
    assert frames + [] == frames && [] + frames == frames && [] + tail == tail && [] + packets == packets;
    NothingIsLeft();
    ParseIsOnlySplit(packets, []);
    ParseInvalid(tail);
    AcceptTwo(FRESH_CHANNEL, frames, tail);
  }

  lemma NothingIsLeft()
    ensures NextFrame([]).More?
  {}

  lemma ParseInvalid(s: seq<u8>)
    requires NextFrame(s).Invalid?
    ensures ParseFrames(s) == Parsed([], Broken(NextFrame(s).len))
  {}

  /** The failing family: a stream with an invalid length, delivered in one chunk, reaches
      dispatch not at all. */
  lemma OneChunkDropsAll(stream: seq<u8>)
    requires ParseFrames(stream).stop.Broken?
    ensures Concat([stream]) == stream && AcceptAll(FRESH_CHANNEL, [stream]).dispatched == []
  {
    assert [stream][1..] == [];
    assert Concat([stream]) == stream + Concat([]);
    assert [] + stream == stream;
  }

  /** One whole packet, then a zero length: cut after the packet it is dispatched; in one piece
      it is lost. */
  lemma ServerDropsExample(body: seq<u8>)
    requires ValidBody(body)
    ensures AcceptAll(FRESH_CHANNEL, [FrameOf(body) + [0, 0, 0, 0]]).dispatched == []
    ensures AcceptAll(FRESH_CHANNEL, [FrameOf(body), [0, 0, 0, 0]]).dispatched == [body]
  {
    hide FrameOf;
    var f, zero: seq<u8> := FrameOf(body), [0, 0, 0, 0];
    assert zero[..4] == zero && NextFrame(zero) == Invalid(0);
    assert Wire([body]) == f + Wire([]) == f;
    assert f + [] == f && [] + f == f && [] + zero == zero;
    ParseIsOnlySplit([body], zero);
    ParseIsOnlySplit([body], []);
    OneChunkDropsAll(f + zero);
    AcceptTwo(FRESH_CHANNEL, f, zero);
  }

  lemma AcceptTwo(c: Channel, x: seq<u8>, y: seq<u8>)
    ensures AcceptAll(c, [x, y]) == Accept(Accept(c, x), y)
  {
    hide Accept;
    assert [x, y][1..] == [y] && [y][1..] == [];
    assert AcceptAll(Accept(c, x), [y]) == AcceptAll(Accept(Accept(c, x), y), []);
  }

  lemma {:induction false} NothingBeforeInvalid(c: Channel, chunks: seq<seq<u8>>)
    requires c.buffer.Some? ==> NextFrame(c.buffer.value).More?
    requires c.buffer.Some? ==> ParseFrames(c.buffer.value + Concat(chunks)).packets == []
    ensures AcceptAll(c, chunks).dispatched == c.dispatched
    decreases |chunks|
  {
    if chunks == [] {
    } else {
      if c.buffer.Some? {
        var buf := c.buffer.value;
        AppendAssociates(buf, chunks[0], Concat(chunks[1..]));
        ParseResumes(buf + chunks[0], Concat(chunks[1..]));
        var _ := ParseIsSplit(buf + chunks[0]);
      }
      NothingBeforeInvalid(Accept(c, chunks[0]), chunks[1..]);
    }
  }
}
