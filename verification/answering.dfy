/**
 What the server does with a stream of well-formed requests: the handler sees exactly those
 requests in order, and exactly one response frame with the same id is sent for each, in that
 order, however the stream is cut into chunks.
 */
module Answering {
  import opened Bytes
  import opened Codec
  import opened Attributes
  import opened Packets
  import opened Responses
  import opened Frames
  import opened SftpServer

  /** A request as the client API issues it, with the id it was given. */
  datatype Issue = Issue(id: u32, request: Request<Metadata>)

  /** The packet that carries it: type byte, then payload. */
  function Body(i: Issue): seq<u8> {
    var wire := i.request.Map(ToPacket);
    [RequestType(wire)] + RequestPayload(i.id, wire)
  }

  predicate Sendable(i: Issue) {
    |Body(i)| <= MAX_SFTP_PACKET_SIZE
  }

  predicate AllSendable(issues: seq<Issue>) {
    forall k :: 0 <= k < |issues| ==> Sendable(issues[k])
  }

  function Bodies(issues: seq<Issue>): (bs: seq<seq<u8>>)
    ensures |bs| == |issues| && forall k :: 0 <= k < |issues| ==> bs[k] == Body(issues[k])
    ensures AllSendable(issues) ==> ValidBodies(bs)
  {
    seq(|issues|, k requires 0 <= k < |issues| => Body(issues[k]))
  }

  /** The call that the handler sees for it. */
  function Seen(i: Issue): Event {
    Called(i.id, i.request.Map(Delivered))
  }

  function SeenAll(issues: seq<Issue>): (es: seq<Event>)
    ensures |es| == |issues| && forall k :: 0 <= k < |issues| ==> es[k] == Seen(issues[k])
  {
    seq(|issues|, k requires 0 <= k < |issues| => Seen(issues[k]))
  }

  /** What the client writes for an issue is the frame of its body. */
  lemma EncodedIsFramed(i: Issue)
    requires Sendable(i)
    ensures ValidBody(Body(i)) && EncodeRequest(i.id, i.request.Map(ToPacket)) == FrameOf(Body(i))
  {
    hide U32Bytes, RequestPayload, RequestType, ToPacket, Request<Metadata>.Map;
    assert Body(i) != [];
  }

  lemma MapTrip(r: Request<Metadata>)
    ensures !Extended(r.Map(ToPacket))
    ensures r.Map(ToPacket).Map(NormalForm).Map(FromPacket) == r.Map(Delivered)
  {
    if r.HasAttrs() {
      MetadataSettles(r.attrs);
      assert NormalForm(ToPacket(r.attrs)) == ToPacket(r.attrs);
    }
    hide ToPacket, FromPacket, NormalForm, Delivered;
  }

  /** One issued request, dispatched: the handler sees it and its answer carries the same id. */
  lemma DispatchIssue(h: Handler, sv: Server, i: Issue)
    requires Sendable(i)
    ensures var log := sv.log + [Seen(i)];
            Dispatch(h, sv, Body(i))
            == (sv.(log := log), Some(EncodeResponse(i.id, Respond(h, log, Seen(i).request))))
  {
    hide UnsupportedStatus, U32Bytes, U32Of, RequestPayload, DecodeRequest, Respond, EncodeResponse, ToPacket,
         FromPacket, NormalForm, Delivered, RequestFits, Request<Metadata>.Map, Request<FileAttrs>.Map;
    var wire := i.request.Map(ToPacket);
    MapTrip(i.request);
    SmallFrameFits(i.id, wire);
    RequestTrip(i.id, wire, []);
    assert RequestPayload(i.id, wire) + [] == RequestPayload(i.id, wire);
    assert Body(i)[1..] == RequestPayload(i.id, wire);
  }

  // A list of requests ------------------------------------------------------------------------

  const YES: nat -> bool := _ => true

  /** The response to the `k`th issue, given what the handler has seen by then. */
  function Answer(h: Handler, log: seq<Event>, issues: seq<Issue>, k: nat): Response
    requires k < |issues|
  {
    Respond(h, log + SeenAll(issues[..k + 1]), Seen(issues[k]).request)
  }

  function Answers(h: Handler, log: seq<Event>, issues: seq<Issue>): (out: seq<seq<u8>>)
    ensures |out| == |issues|
    ensures forall k :: 0 <= k < |issues| ==> out[k] == EncodeResponse(issues[k].id, Answer(h, log, issues, k))
  {
    seq(|issues|, k requires 0 <= k < |issues| => EncodeResponse(issues[k].id, Answer(h, log, issues, k)))
  }

  lemma AnswersSplit(h: Handler, log: seq<Event>, issues: seq<Issue>, m: nat)
    requires m <= |issues|
    ensures SeenAll(issues) == SeenAll(issues[..m]) + SeenAll(issues[m..])
    ensures Answers(h, log, issues)
            == Answers(h, log, issues[..m]) + Answers(h, log + SeenAll(issues[..m]), issues[m..])
  {
    hide EncodeResponse, Respond, Seen;
    forall k | 0 <= k < m
      ensures Answer(h, log, issues, k) == Answer(h, log, issues[..m], k)
    {
      assert issues[..m][..k + 1] == issues[..k + 1];
    }
    var log' := log + SeenAll(issues[..m]);
    forall k | m <= k < |issues|
      ensures Answer(h, log, issues, k) == Answer(h, log', issues[m..], k - m)
    {
      assert issues[..k + 1] == issues[..m] + issues[m..][..k - m + 1];
      assert log + SeenAll(issues[..k + 1]) == log' + SeenAll(issues[m..][..k - m + 1]);
    }
  }

  lemma AnswerAlone(h: Handler, log: seq<Event>, i: Issue)
    ensures SeenAll([i]) == [Seen(i)]
    ensures Answers(h, log, [i]) == [EncodeResponse(i.id, Respond(h, log + [Seen(i)], Seen(i).request))]
  {
    hide EncodeResponse, Respond, Seen;
    assert [i][..1] == [i];
    assert SeenAll([i]) == [Seen(i)];
  }

  lemma AnswersUncons(h: Handler, log: seq<Event>, issues: seq<Issue>)
    requires issues != []
    ensures SeenAll(issues) == [Seen(issues[0])] + SeenAll(issues[1..])
    ensures var log1 := log + [Seen(issues[0])];
            Answers(h, log, issues)
            == [EncodeResponse(issues[0].id, Respond(h, log1, Seen(issues[0]).request))] + Answers(h, log1, issues[1..])
  {
    AnswersSplit(h, log, issues, 1);
    assert issues[..1] == [issues[0]];
    AnswerAlone(h, log, issues[0]);
    hide EncodeResponse, Respond, Seen, SeenAll, Answers;
  }

  lemma {:induction false} ServeIssues(h: Handler, sv: Server, issues: seq<Issue>, k: nat)
    requires AllSendable(issues)
    ensures Serve(h, sv, Bodies(issues), YES, k)
            == Served(sv.(log := sv.log + SeenAll(issues)), Answers(h, sv.log, issues), true)
    decreases |issues|
  {
    hide Dispatch, Body, EncodeResponse, Respond, Seen, Sendable;
    if issues == [] {
      assert sv.log + [] == sv.log;
    } else {
      var sv1 := sv.(log := sv.log + [Seen(issues[0])]);
      DispatchIssue(h, sv, issues[0]);
      assert Bodies(issues)[1..] == Bodies(issues[1..]);
      ServeIssues(h, sv1, issues[1..], k + 1);
      AnswersUncons(h, sv.log, issues);
      AppendAssociates(sv.log, [Seen(issues[0])], SeenAll(issues[1..]));
    }
  }

  // Packets without an answer, and refused writes -------------------------------------------------

  /** A request that does not decode is neither seen by the handler nor answered, and no more is an
      empty packet. */
  lemma UndecodableIgnored(h: Handler, sv: Server, packet: seq<u8>)
    requires packet == [] || (3 <= packet[0] <= 20 && DecodeRequest(packet[0], packet[1..]).Fail?)
    ensures Dispatch(h, sv, packet) == (sv, None)
  {
    hide UnsupportedStatus, DecodeRequest;
  }

  /** The state after some packets, every answer being taken. */
  function StateAfter(h: Handler, sv: Server, packets: seq<seq<u8>>): Server
    decreases |packets|
  {
    if packets == [] then sv else StateAfter(h, Dispatch(h, sv, packets[0]).0, packets[1..])
  }

  function AnswersTo(h: Handler, sv: Server, packets: seq<seq<u8>>): seq<seq<u8>>
    decreases |packets|
  {
    if packets == [] then [] else
      var (sv', answer) := Dispatch(h, sv, packets[0]);
      (if answer.Some? then [answer.value] else []) + AnswersTo(h, sv', packets[1..])
  }

  /** The session takes the answers, if any, to these packets, the first of which is number `k`. */
  ghost predicate AllTaken(h: Handler, sv: Server, packets: seq<seq<u8>>, accepts: nat -> bool, k: nat)
    decreases |packets|
  {
    packets == []
    || (var (sv', answer) := Dispatch(h, sv, packets[0]);
        (answer.Some? ==> accepts(k)) && AllTaken(h, sv', packets[1..], accepts, k + 1))
  }

  /** A refused write ends the call with an error. The handler has seen the packet in question and
      those before it; none after it reaches the handler, and only the answers before it went out. */
  lemma {:induction false} RefusedWriteEnds(
      h: Handler, sv: Server, before: seq<seq<u8>>, packet: seq<u8>, later: seq<seq<u8>>, accepts: nat -> bool, k: nat)
    requires AllTaken(h, sv, before, accepts, k)
    requires Dispatch(h, StateAfter(h, sv, before), packet).1.Some? && !accepts(k + |before|)
    ensures Serve(h, sv, before + ([packet] + later), accepts, k)
            == Served(StateAfter(h, sv, before + [packet]), AnswersTo(h, sv, before), false)
    decreases |before|
  {
    hide Dispatch;
    if before == [] {
      assert before + ([packet] + later) == [packet] + later && before + [packet] == [packet];
      assert [packet][1..] == [];
    } else {
      assert (before + ([packet] + later))[1..] == before[1..] + ([packet] + later);
      assert (before + [packet])[1..] == before[1..] + [packet];
      RefusedWriteEnds(h, Dispatch(h, sv, before[0]).0, before[1..], packet, later, accepts, k + 1);
    }
  }

  /** Without a refusal everything is seen and answered. */
  lemma {:induction false} TakenWritesGoOn(h: Handler, sv: Server, packets: seq<seq<u8>>, accepts: nat -> bool, k: nat)
    requires AllTaken(h, sv, packets, accepts, k)
    ensures Serve(h, sv, packets, accepts, k)
            == Served(StateAfter(h, sv, packets), AnswersTo(h, sv, packets), true)
    decreases |packets|
  {
    hide Dispatch;
    if packets == [] {
    } else {
      TakenWritesGoOn(h, Dispatch(h, sv, packets[0]).0, packets[1..], accepts, k + 1);
    }
  }

  // Any chunking ------------------------------------------------------------------------------

  /** One registered channel over several `handle_data` calls with every write accepted. */
  datatype Conn = Conn(server: Server, buffer: Option<seq<u8>>, out: seq<seq<u8>>)

  function Receive(h: Handler, c: Conn, chunk: seq<u8>): Conn {
    if c.buffer.None? then c else
      match ParseFrames(c.buffer.value + chunk)
      case Parsed(_, Broken(_)) => c.(buffer := None)
      case Parsed(packets, Waiting(tail)) =>
        var s := Serve(h, c.server, packets, YES, 0);
        Conn(s.server, Some(tail), c.out + s.out)
  }

  /** The handler's history is never rewritten. */
  lemma DispatchGrows(h: Handler, sv: Server, packet: seq<u8>)
    ensures sv.log <= Dispatch(h, sv, packet).0.log
  {
    hide UnsupportedStatus, DecodeRequest, DecodeVersion, EncodeResponse, EncodeVersion, Respond, FromPacket;
  }

  lemma {:induction false} ServeGrows(h: Handler, sv: Server, packets: seq<seq<u8>>, accepts: nat -> bool, k: nat)
    ensures sv.log <= Serve(h, sv, packets, accepts, k).server.log
    decreases |packets|
  {
    hide Dispatch;
    if packets == [] {
    } else {
      DispatchGrows(h, sv, packets[0]);
      ServeGrows(h, Dispatch(h, sv, packets[0]).0, packets[1..], accepts, k + 1);
    }
  }

  lemma ReceiveGrows(h: Handler, c: Conn, chunk: seq<u8>)
    ensures c.server.log <= Receive(h, c, chunk).server.log
  {
    hide Serve, ParseFrames;
    if c.buffer.Some? {
      ServeGrows(h, c.server, ParseFrames(c.buffer.value + chunk).packets, YES, 0);
    }
  }

  function ReceiveAll(h: Handler, c: Conn, chunks: seq<seq<u8>>): Conn
    decreases |chunks|
  {
    if chunks == [] then c else ReceiveAll(h, Receive(h, c, chunks[0]), chunks[1..])
  }

  /** One chunk of a well-formed request stream answers the requests it completes, and no others. */
  lemma ReceivePrefix(h: Handler, c: Conn, issues: seq<Issue>, chunk: seq<u8>, unseen: seq<u8>) returns (m: nat)
    requires AllSendable(issues) && c.buffer.Some?
    requires c.buffer.value + chunk + unseen == Wire(Bodies(issues))
    ensures m <= |issues|
    ensures var c' := Receive(h, c, chunk);
            c'.server == c.server.(log := c.server.log + SeenAll(issues[..m]))
            && c'.out == c.out + Answers(h, c.server.log, issues[..m])
            && c'.buffer.Some? && NextFrame(c'.buffer.value).More?
            && c'.buffer.value + unseen == Wire(Bodies(issues[m..]))
  {
    hide Serve, Wire, NextFrame, ParseFrames, Answers, SeenAll;
    m := PrefixParse(Bodies(issues), c.buffer.value + chunk, unseen);
    assert Bodies(issues)[..m] == Bodies(issues[..m]);
    assert Bodies(issues)[m..] == Bodies(issues[m..]);
    ServeIssues(h, c.server, issues[..m], 0);
  }

  /** Whole streams: however the frames of `issues` are cut into chunks, the handler sees exactly
      those requests in order and their answers go out in the same order, one each. */
  lemma {:induction false} ServerAnswersInOrder(h: Handler, c: Conn, issues: seq<Issue>, chunks: seq<seq<u8>>)
    requires AllSendable(issues) && c.buffer.Some? && NextFrame(c.buffer.value).More?
    requires c.buffer.value + Concat(chunks) == Wire(Bodies(issues))
    ensures ReceiveAll(h, c, chunks)
            == Conn(c.server.(log := c.server.log + SeenAll(issues)), Some([]),
                    c.out + Answers(h, c.server.log, issues))
    decreases |chunks|
  {
    hide UnsupportedStatus;
    if chunks == [] {
      NothingLeft(issues, c.buffer.value);
      assert c.server.log + [] == c.server.log && c.out + [] == c.out;
    } else {
      hide Receive, Wire, NextFrame, Answers, SeenAll;
      AppendAssociates(c.buffer.value, chunks[0], Concat(chunks[1..]));
      var m := ReceivePrefix(h, c, issues, chunks[0], Concat(chunks[1..]));
      var c1 := Receive(h, c, chunks[0]);
      ServerAnswersInOrder(h, c1, issues[m..], chunks[1..]);
      AnswersSplit(h, c.server.log, issues, m);
      AppendAssociates(c.server.log, SeenAll(issues[..m]), SeenAll(issues[m..]));
      AppendAssociates(c.out, Answers(h, c.server.log, issues[..m]),
                       Answers(h, c.server.log + SeenAll(issues[..m]), issues[m..]));
    }
  }

  /** A buffer that holds no whole frame but all the bytes of the remaining requests is empty. */
  lemma NothingLeft(issues: seq<Issue>, buf: seq<u8>)
    requires AllSendable(issues) && NextFrame(buf).More? && buf + [] == Wire(Bodies(issues))
    ensures issues == [] && buf == []
  {
    if issues != [] {
      NextFrameOf(Bodies(issues)[0], Wire(Bodies(issues)[1..]));
    }
  }

  /** The runtime object on the successive chunks of one channel, with every write accepted. */
  method ServeChunks(rt: SftpServerRuntime, channel: ChannelId, chunks: seq<seq<u8>>) returns (out: seq<seq<u8>>)
    requires rt.Valid() && channel in rt.buffers
    modifies rt
    ensures rt.Valid()
    ensures Conn(rt.State(), if channel in rt.buffers then Some(rt.buffers[channel]) else None, out)
            == ReceiveAll(rt.handler, Conn(old(rt.State()), Some(old(rt.buffers)[channel]), []), chunks)
    ensures rt.buffers - {channel} == old(rt.buffers) - {channel}
  {
    hide ParseFrames, NextFrame;
    out := [];
    ghost var start := Conn(rt.State(), Some(rt.buffers[channel]), []);
    var i := 0;
    while i < |chunks| && channel in rt.buffers
      invariant 0 <= i <= |chunks| && rt.Valid() && rt.buffers - {channel} == old(rt.buffers) - {channel}
      invariant var c := Conn(rt.State(), if channel in rt.buffers then Some(rt.buffers[channel]) else None, out);
                ReceiveAll(rt.handler, start, chunks) == ReceiveAll(rt.handler, c, chunks[i..])
    {
      assert chunks[i..][0] == chunks[i] && chunks[i..][1..] == chunks[i + 1..];
      var ok, more := rt.HandleData(channel, chunks[i], YES);
      assert out + [] == out;
      out := out + more;
      i := i + 1;
    }
    if channel !in rt.buffers {
      Unregistered(rt.handler, Conn(rt.State(), None, out), chunks[i..]);
    }
  }

  lemma {:induction false} Unregistered(h: Handler, c: Conn, chunks: seq<seq<u8>>)
    requires c.buffer.None?
    ensures ReceiveAll(h, c, chunks) == c
    decreases |chunks|
  {
    if chunks == [] {
    } else {
      Unregistered(h, c, chunks[1..]);
    }
  }

  /** A packet of an unknown type reaches no handler and is answered with an "unsupported" status
      under id 0. */
  lemma UnknownTypeAnswered(h: Handler, sv: Server, packet: seq<u8>) returns (frame: seq<u8>)
    requires packet != [] && packet[0] != 1 && !(3 <= packet[0] <= 20)
    ensures Dispatch(h, sv, packet) == (sv, Some(frame)) && |frame| > 4
    ensures DecodePacket(frame[4..]) == Reply(0, UnsupportedStatus())
    ensures UnsupportedStatus().Status? && UnsupportedStatus().code == 8
  {
    hide Ascii, DecodePacket, U32Bytes, DecodeRequest, HandleInit, ResponsePayload;
    frame := EncodeResponse(0, UnsupportedStatus());
    DecodeEncoded(0, UnsupportedStatus());
  }

  // Handshake ---------------------------------------------------------------------------------

  /** The client's version test in `connect`, on the first packet it receives. */
  function AcceptedVersion(packet: seq<u8>): Option<u32> {
    if packet == [] || packet[0] != FXP_VERSION then None else
      match DecodeVersion(packet[1..])
      case Ok((version, _), _) => if version < 3 then None else Some(version)
      case Fail => None
  }

  /** INIT of any version with any extensions. Below version 3 the handler is not asked and the
      answer is version 3. Otherwise the handler is asked once, with the version and the first 128
      extensions, and its choice, raised to 3, is held and answered; a refusal goes unanswered. What
      is not a version packet is ignored. */
  lemma InitLaw(h: Handler, sv: Server, version: u32, pairs: seq<(Text, Text)>)
    requires forall i :: 0 <= i < |pairs| ==> PairFits(pairs[i])
    ensures Dispatch(h, sv, [1] + VersionPayload(version, pairs))
            == InitOutcome(h, sv, version, Inserted(FirstPairs(pairs), map[]))
  {
    hide UnsupportedStatus, DecodeVersion, VersionPayload, EncodeVersion, Inserted, PairFits;
    VersionTrip(version, pairs);
    var packet := [1] + VersionPayload(version, pairs);
    assert packet[0] == FXP_INIT && packet[1..] == VersionPayload(version, pairs);
  }

  function InitOutcome(h: Handler, sv: Server, version: u32, extensions: map<Text, Text>): (Server, Option<seq<u8>>) {
    var log := sv.log + [Initialized(version, extensions)];
    if version < 3 then (sv, Some(EncodeVersion(3)))
    else if h.init(log).Refused? then (sv.(log := log), None)
    else
      var agreed := Max(h.init(log).value, 3);
      (Server(agreed, true, log), Some(EncodeVersion(agreed)))
  }

  lemma BadInitIgnored(h: Handler, sv: Server, payload: seq<u8>)
    requires DecodeVersion(payload).Fail?
    ensures Dispatch(h, sv, [1] + payload) == (sv, None)
  {
    hide UnsupportedStatus, DecodeVersion;
    assert ([1] + payload)[1..] == payload;
  }

  /** The client's INIT gets a VERSION packet that the client accepts, naming the version that the
      server then holds: the handler's choice, raised to 3. A handler that refuses leaves it
      unanswered. */
  lemma HandshakeAgrees(h: Handler, sv: Server)
    ensures var (sv', answer) := Dispatch(h, sv, [1] + VersionPayload(3, []));
            var log := sv.log + [Initialized(3, map[])];
            match h.init(log)
            case Refused(_) => sv' == sv.(log := log) && answer.None?
            case Done(v) =>
              && sv' == Server(Max(v, 3), true, log)
              && answer.Some? && |answer.value| >= 4 && AcceptedVersion(answer.value[4..]) == Some(Max(v, 3))
  {
    hide UnsupportedStatus, U32Bytes, U32Of, DecodeVersion, VersionPayload, Dispatch;
    InitLaw(h, sv, 3, []);
    assert FirstPairs([]) == [] && Inserted([], map[]) == map[];
    var log := sv.log + [Initialized(3, map[])];
    if h.init(log).Done? {
      var agreed := Max(h.init(log).value, 3);
      VersionWithoutPairs(agreed);
      var packet := [FXP_VERSION] + VersionPayload(agreed, []);
      assert EncodeVersion(agreed)[4..] == packet;
      assert packet[1..] == VersionPayload(agreed, []);
    }
  }

  lemma VersionWithoutPairs(version: u32)
    ensures DecodeVersion(VersionPayload(version, [])) == Ok((version, map[]), [])
  {
    hide DecodeVersion, VersionPayload;
    VersionTrip(version, []);
  }
}
