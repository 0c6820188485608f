/**
 One call at a time: an idle client and server, one request over, one answer back. Within the
 packet limit the caller gets the handler's answer and both ends are idle again. Past it the
 server drops the channel without an answer, or the client's read task aborts.
 */
module Exchange {
  import opened Bytes
  import opened Codec
  import opened Attributes
  import opened Packets
  import opened Responses
  import opened Frames
  import opened SftpServer
  import opened Answering
  import opened SftpClient
  import opened SftpClientTasks
  import opened Pipeline

  datatype Link = Link(client: Client, conn: Conn)

  /** No call is pending, and nothing is in a queue, a buffer or a pipe. */
  ghost predicate Idle(l: Link) {
    && l.client.pending == map[] && l.client.reading && l.client.writing && l.client.buf == []
    && l.client.written == |l.client.enqueued|
    && l.conn.buffer == Some([]) && l.conn.out == []
  }

  /** Over the packet limit, but not so long that the length word wraps. */
  predicate TooLong(length: nat) {
    MAX_SFTP_PACKET_SIZE < length < TWO_32
  }

  // The client's side -----------------------------------------------------------------------------

  /** A caller takes an id, enters the table and queues its packet, and the write task takes it. */
  function Sent(c: Client, request: Request<Metadata>): (c': Client)
    requires TableOk(c) && c.writing && c.written == |c.enqueued|
    ensures TableOk(c')
  {
    var t := |c.slots|;
    Apply(Apply(Apply(Apply(c, TakeId(request)), Insert(t)), Enqueue(t, true)), Step.Write)
  }

  lemma SentIs(c: Client, request: Request<Metadata>)
    requires c.pending == map[] && c.writing && c.written == |c.enqueued|
    ensures TableOk(c)
    ensures Sent(c, request)
            == c.(nextId := (c.nextId + 1) % TWO_32,
                  slots := c.slots + [Slot(Issue(c.nextId, request), true, true, [])],
                  pending := map[c.nextId := |c.slots|],
                  enqueued := c.enqueued + [|c.slots|],
                  written := |c.enqueued| + 1)
  {
    var t, s := |c.slots|, Slot(Issue(c.nextId, request), false, false, []);
    assert (c.slots + [s])[t := s.(inserted := true)] == c.slots + [s.(inserted := true)];
    assert (c.slots + [s.(inserted := true)])[t := s.(inserted := true, queued := true)]
        == c.slots + [s.(inserted := true, queued := true)];
    assert map[][c.nextId := t] == map[c.nextId := t];
  }

  /** The only pending call gets the answer that arrives under its id. */
  lemma AnswerArrives(c: Client, id: u32, t: nat, r: Response, body: seq<u8>)
    requires TableOk(c) && c.pending == map[id := t] && t < |c.slots|
    requires ValidBody(body) && DecodePacket(body) == Reply(id, r)
    ensures Finish(c.(buf := FrameOf(body)))
            == c.(buf := [], pending := map[], slots := c.slots[t := Fired(c.slots[t], Got(r))])
  {
    hide DecodePacket, FrameOf, NextFrame, ParseFrames;
    var d := c.(buf := FrameOf(body));
    assert Wire([body]) == FrameOf(body) + Wire([]) == FrameOf(body) + [];
    NothingIsLeft();
    ParseIsOnlySplit([body], []);
    assert FrameOf(body) + [] == FrameOf(body);
    assert [body][1..] == [];
    assert DispatchAll(d, [body]) == DispatchAll(DispatchResponse(d, body), []) == DispatchResponse(d, body);
    assert id in c.pending && c.pending - {id} == map[];
    assert ParseFrames(d.buf) == Parsed([body], Waiting([]));
  }

  /** An answer with an invalid length aborts the read task and fails the call. */
  lemma InvalidArrives(c: Client, id: u32, t: nat, bytes: seq<u8>)
    requires TableOk(c) && c.pending == map[id := t] && t < |c.slots| && NextFrame(bytes).Invalid?
    ensures var c' := Finish(c.(buf := bytes));
            !c'.reading && |c'.slots| == |c.slots| && c'.slots[t] == Fired(c.slots[t], Failed(Protocol))
  {
    hide NextFrame, Fired;
    ParseInvalid(bytes);
    assert id in c.pending && c.slots[t].issue.id == id;
  }

  // The server's side -----------------------------------------------------------------------------

  lemma PacketIsWire(i: Issue)
    requires Sendable(i)
    ensures PacketOf(i) == Wire(Bodies([i]))
  {
    hide Body, ValidBody, FrameOf;
    EncodedIsFramed(i);
    assert Bodies([i]) == [Body(i)] && [Body(i)][1..] == [];
    assert FrameOf(Body(i)) + [] == FrameOf(Body(i));
  }

  /** A packet over the limit starts with an invalid length. */
  lemma LongPacketInvalid(t: u8, payload: seq<u8>)
    requires TooLong(1 + |payload|)
    ensures NextFrame(Frame(t, payload)).Invalid?
  {
    hide U32Bytes, U32Of;
    var f := Frame(t, payload);
    assert f[..4] == U32Bytes(1 + |payload|);
    PopPushU32(1 + |payload|, []);
  }

  lemma {:induction false} InvalidStream(h: Handler, c: Conn, chunks: seq<seq<u8>>)
    requires c.buffer.Some? && NextFrame(c.buffer.value).More?
    requires NextFrame(c.buffer.value + Concat(chunks)).Invalid?
    ensures ReceiveAll(h, c, chunks) == c.(buffer := None)
    decreases |chunks|
  {
    hide NextFrame, Serve;
    assert c.buffer.value + [] == c.buffer.value;
    if chunks == [] {
    } else {
      var now := c.buffer.value + chunks[0];
      AppendAssociates(c.buffer.value, chunks[0], Concat(chunks[1..]));
      NextFrameGrows(now, Concat(chunks[1..]));
      if NextFrame(now).Invalid? {
        ParseInvalid(now);
        Unregistered(h, c.(buffer := None), chunks[1..]);
      } else {
        assert NextFrame(now).More?;
        ParseWaits(now);
        NothingServed(h, c.server);
        assert c.out + [] == c.out;
        InvalidStream(h, c.(buffer := Some(now)), chunks[1..]);
      }
    }
  }

  lemma ParseWaits(s: seq<u8>)
    requires NextFrame(s).More?
    ensures ParseFrames(s) == Parsed([], Waiting(s))
  {}

  lemma NothingServed(h: Handler, sv: Server)
    ensures Serve(h, sv, [], YES, 0) == Served(sv, [], true)
  {}

  /** The server's side of a call, however the request is cut on its way. */
  lemma RequestArrives(h: Handler, c: Conn, i: Issue, chunks: seq<seq<u8>>)
    requires c.buffer == Some([]) && c.out == [] && Concat(chunks) == PacketOf(i)
    ensures Sendable(i) ==>
              var log := c.server.log + [Seen(i)];
              ReceiveAll(h, c, chunks)
              == Conn(c.server.(log := log), Some([]), [EncodeResponse(i.id, Respond(h, log, Seen(i).request))])
    ensures TooLong(|Body(i)|) ==> ReceiveAll(h, c, chunks) == c.(buffer := None)
  {
    hide ReceiveAll, NextFrame, Respond, EncodeResponse, Seen, Body, Wire, PacketOf;
    NothingIsLeft();
    assert [] + Concat(chunks) == PacketOf(i);
    if Sendable(i) {
      PacketIsWire(i);
      ServerAnswersInOrder(h, c, [i], chunks);
      AnswerAlone(h, c.server.log, i);
      var sent := Answers(h, c.server.log, [i]);
      assert [] + sent == sent;
    }
    if TooLong(|Body(i)|) {
      LongRequestInvalid(i);
      InvalidStream(h, c, chunks);
    }
  }

  lemma LongRequestInvalid(i: Issue)
    requires TooLong(|Body(i)|)
    ensures NextFrame(PacketOf(i)).Invalid?
  {
    hide NextFrame, RequestPayload;
    var wire := i.request.Map(ToPacket);
    LongPacketInvalid(RequestType(wire), RequestPayload(i.id, wire));
  }

  // The whole exchange ----------------------------------------------------------------------------

  /** One call, with the request and the answer cut into the chunks `up` and `down`. */
  function Exchanged(h: Handler, l: Link, request: Request<Metadata>, up: seq<seq<u8>>, down: seq<seq<u8>>): Link
    requires TableOk(l.client) && l.client.writing && l.client.written == |l.client.enqueued|
  {
    Link(ReadChunks(Sent(l.client, request), down), ReceiveAll(h, l.conn, up).(out := []))
  }

  function NewIssue(l: Link, request: Request<Metadata>): Issue {
    Issue(l.client.nextId, request)
  }

  /** `up` carries the request, and `down` what the server sends for it. */
  predicate Carries(h: Handler, l: Link, request: Request<Metadata>, up: seq<seq<u8>>, down: seq<seq<u8>>) {
    Concat(up) == PacketOf(NewIssue(l, request)) && Concat(down) == Concat(ReceiveAll(h, l.conn, up).out)
  }

  /** The handler's answer to `request`, and its history with it. */
  function SeenNext(l: Link, request: Request<Metadata>): seq<Event> {
    l.conn.server.log + [Seen(NewIssue(l, request))]
  }

  function NextAnswer(h: Handler, l: Link, request: Request<Metadata>): Response {
    Respond(h, SeenNext(l, request), request.Map(Delivered))
  }

  /** An answer that fits: the caller has it, and both ends are idle again. */
  lemma FittingExchange(h: Handler, l: Link, request: Request<Metadata>, up: seq<seq<u8>>, down: seq<seq<u8>>)
    requires Idle(l) && Carries(h, l, request, up, down)
    requires Sendable(NewIssue(l, request)) && Moderate(NextAnswer(h, l, request))
    ensures TableOk(l.client)
    ensures var l' := Exchanged(h, l, request, up, down);
            && Idle(l') && l'.conn.server == l.conn.server.(log := SeenNext(l, request))
            && l'.client.slots
               == l.client.slots + [Slot(NewIssue(l, request), true, true, [Got(NextAnswer(h, l, request))])]
  {
    hide Sendable, Moderate, Respond, EncodeResponse, ReceiveAll, Finish, ReadChunks, DecodePacket, Sent, NextFrame,
         PacketOf, Answer;
    var i, r, c := NewIssue(l, request), NextAnswer(h, l, request), l.client;
    SentIs(c, request);
    RequestArrives(h, l.conn, i, up);
    AnswerFramed(h, l.conn.server.log, i);
    var body := [ResponseType(r)] + ResponsePayload(i.id, r);
    OneChunk(EncodeResponse(i.id, r));
    var c1 := Sent(c, request);
    NothingIsLeft();
    ClientChunkingIrrelevant(c1, down);
    assert [] + Concat(down) == FrameOf(body);
    AnswerArrives(c1, i.id, |c.slots|, r, body);
    var s := Slot(i, true, true, []);
    assert [] + [Got(r)] == [Got(r)];
    assert (c.slots + [s])[|c.slots| := Fired(s, Got(r))] == c.slots + [s.(results := [Got(r)])];
  }

  lemma OneChunk(s: seq<u8>)
    ensures Concat([s]) == s
  {
    assert [s][1..] == [];
    assert Concat([s]) == s + Concat<u8>([]);
  }

  lemma AnswerFramed(h: Handler, log: seq<Event>, i: Issue)
    requires Moderate(Respond(h, log + [Seen(i)], Seen(i).request))
    ensures var r := Respond(h, log + [Seen(i)], Seen(i).request);
            var body := [ResponseType(r)] + ResponsePayload(i.id, r);
            ValidBody(body) && EncodeResponse(i.id, r) == FrameOf(body) && DecodePacket(body) == Reply(i.id, r)
  {
    hide Moderate, Respond, EncodeResponse, DecodePacket, Seen, ValidBody, FrameOf;
    assert [i][..1] == [i] && SeenAll([i]) == [Seen(i)];
    ReplyIsFramed(h, log, [i], 0);
  }

  /** An answer over the limit: the handler has served the request, the caller gets a protocol
      error, and the read task is gone. */
  lemma LongAnswerAborts(h: Handler, l: Link, request: Request<Metadata>, up: seq<seq<u8>>, down: seq<seq<u8>>)
    requires Idle(l) && Carries(h, l, request, up, down)
    requires Sendable(NewIssue(l, request)) && TooLong(1 + |ResponsePayload(0, NextAnswer(h, l, request))|)
    ensures TableOk(l.client)
    ensures var l' := Exchanged(h, l, request, up, down);
            && !l'.client.reading && l'.conn.server == l.conn.server.(log := SeenNext(l, request))
            && |l'.client.slots| == |l.client.slots| + 1
            && l'.client.slots[|l.client.slots|] == Slot(NewIssue(l, request), true, true, [Failed(Protocol)])
  {
    hide Sendable, Respond, ReceiveAll, Finish, ReadChunks, DecodePacket, Sent, NextFrame, PacketOf, ResponsePayload;
    var i, r, c := NewIssue(l, request), NextAnswer(h, l, request), l.client;
    SentIs(c, request);
    RequestArrives(h, l.conn, i, up);
    SameLength(i.id, r);
    LongPacketInvalid(ResponseType(r), ResponsePayload(i.id, r));
    OneChunk(EncodeResponse(i.id, r));
    var c1 := Sent(c, request);
    NothingIsLeft();
    ClientChunkingIrrelevant(c1, down);
    assert [] + Concat(down) == EncodeResponse(i.id, r);
    InvalidArrives(c1, i.id, |c.slots|, EncodeResponse(i.id, r));
    assert [] + [Failed(Protocol)] == [Failed(Protocol)];
  }

  lemma SameLength(id: u32, r: Response)
    ensures |ResponsePayload(id, r)| == |ResponsePayload(0, r)|
  {
    hide U32Bytes, ResponseBody;
  }

  /** A request over the limit: the handler never sees it, the server drops the channel and sends
      nothing, and the call stays pending. */
  lemma LongRequestHangs(h: Handler, l: Link, request: Request<Metadata>, up: seq<seq<u8>>, down: seq<seq<u8>>)
    requires Idle(l) && Carries(h, l, request, up, down) && TooLong(|Body(NewIssue(l, request))|)
    ensures TableOk(l.client)
    ensures var l' := Exchanged(h, l, request, up, down);
            && l'.conn == l.conn.(buffer := None)
            && |l'.client.slots| == |l.client.slots| + 1
            && l'.client.slots[|l.client.slots|] == Slot(NewIssue(l, request), true, true, [])
  {
    hide Body, ReceiveAll, Finish, ReadChunks, Sent, NextFrame, PacketOf, Sendable;
    var i, c := NewIssue(l, request), l.client;
    SentIs(c, request);
    RequestArrives(h, l.conn, i, up);
    var c1 := Sent(c, request);
    NothingIsLeft();
    ClientChunkingIrrelevant(c1, down);
    assert [] + Concat(down) == [];
    FinishUnrolls(c1);
  }
}
