/**
 The SFTP server runtime: per-channel reassembly, dispatch of decoded requests to a handler, and
 encoding of its answers.

 A handler may keep any state: it is a record of functions of the whole history of events it
 has seen, the last of which is the call being answered.
 */
module SftpServer {
  import opened Bytes
  import opened Codec
  import opened Attributes
  import opened Packets
  import opened Responses
  import opened Frames
  import Cursors

  // Handler -------------------------------------------------------------------------------

  datatype ErrorKind =
    | RemoteStatus | Protocol | ChannelIo | UnexpectedResponse | UnsupportedVersion
    | Unsupported | NoSuchFile | PermissionDenied

  /** A handler error: an SFTP error, or any other error with its display text. */
  datatype HandlerError = Sftp(kind: ErrorKind, message: Text) | Foreign(display: Text)

  datatype Outcome<+T> = Done(value: T) | Refused(error: HandlerError)

  datatype DirEntry = DirEntry(filename: Text, longname: Text, metadata: Metadata)

  datatype Event =
    | Initialized(version: u32, extensions: map<Text, Text>)
    | Called(id: u32, request: Request<Metadata>)

  /** One function per result type of the handler trait. */
  datatype Handler = Handler(
    init: seq<Event> -> Outcome<u32>,
    openFor: seq<Event> -> Outcome<Text>,
    doneFor: seq<Event> -> Outcome<()>,
    readFor: seq<Event> -> Outcome<seq<u8>>,
    listFor: seq<Event> -> Outcome<seq<DirEntry>>,
    statFor: seq<Event> -> Outcome<Metadata>
  )

  function StatusCode(kind: ErrorKind): u32 {
    match kind
    case NoSuchFile => SSH_FX_NO_SUCH_FILE
    case PermissionDenied => SSH_FX_PERMISSION_DENIED
    case Unsupported => SSH_FX_OP_UNSUPPORTED
    case Protocol => SSH_FX_BAD_MESSAGE
    case _ => SSH_FX_FAILURE
  }

  function DefaultMessage(kind: ErrorKind): Text {
    match kind
    case NoSuchFile => Ascii("no such file")
    case PermissionDenied => Ascii("permission denied")
    case Unsupported => Ascii("unsupported operation")
    case Protocol => Ascii("protocol error")
    case UnsupportedVersion => Ascii("unsupported version")
    case ChannelIo => Ascii("channel I/O error")
    case _ => Ascii("internal error")
  }

  function ErrorStatus(e: HandlerError): Response {
    match e
    case Sftp(kind, message) => Status(StatusCode(kind), if message == [] then DefaultMessage(kind) else message)
    case Foreign(display) => Status(SSH_FX_FAILURE, display)
  }

  function ToNameEntry(e: DirEntry): NameEntry {
    NameEntry(e.filename, e.longname, ToPacket(e.metadata))
  }

  function ToNameEntries(es: seq<DirEntry>): (ns: seq<NameEntry>)
    ensures |ns| == |es|
    ensures forall i :: 0 <= i < |ns| ==> InNormalForm(ns[i].attrs) && !HasExtended(ns[i].attrs.flags)
  {
    seq(|es|, i requires 0 <= i < |es| => ToNameEntry(es[i]))
  }

  // One function per shape of `handle_*`: what goes out for what the handler returned.

  function RespondHandle(o: Outcome<Text>): Response {
    match o
    case Done(handle) => Handle(handle)
    case Refused(e) => ErrorStatus(e)
  }

  function RespondUnit(o: Outcome<()>): Response {
    match o
    case Done(()) => Status(SSH_FX_OK, Ascii("OK"))
    case Refused(e) => ErrorStatus(e)
  }

  function RespondData(o: Outcome<seq<u8>>): Response {
    match o
    case Done(data) => if data == [] then Status(SSH_FX_EOF, Ascii("End of file")) else Data(data)
    case Refused(e) => ErrorStatus(e)
  }

  function RespondBatch(o: Outcome<seq<DirEntry>>): Response {
    match o
    case Done(es) => if es == [] then Status(SSH_FX_EOF, Ascii("End of directory")) else Name(ToNameEntries(es))
    case Refused(e) => ErrorStatus(e)
  }

  function RespondNames(o: Outcome<seq<DirEntry>>): Response {
    match o
    case Done(es) => Name(ToNameEntries(es))
    case Refused(e) => ErrorStatus(e)
  }

  function RespondAttrs(o: Outcome<Metadata>): Response {
    match o
    case Done(m) => Attrs(ToPacket(m))
    case Refused(e) => ErrorStatus(e)
  }

  /** The response to `request`, the last event of `log`. */
  function Respond(h: Handler, log: seq<Event>, request: Request<Metadata>): Response {
    if request.Open? || request.Opendir? then RespondHandle(h.openFor(log))
    else if request.Read? then RespondData(h.readFor(log))
    else if request.Readdir? then RespondBatch(h.listFor(log))
    else if request.Realpath? || request.Readlink? then RespondNames(h.listFor(log))
    else if request.Stat? || request.Lstat? || request.Fstat? then RespondAttrs(h.statFor(log))
    else RespondUnit(h.doneFor(log))
  }

  // Dispatch ------------------------------------------------------------------------------

  /** Negotiation state, and the events that have reached the handler. */
  datatype Server = Server(version: u32, negotiated: bool, log: seq<Event>)

  function EncodeVersion(version: u32): seq<u8> {
    Frame(FXP_VERSION, VersionPayload(version, []))
  }

  function HandleInit(h: Handler, sv: Server, payload: seq<u8>): (Server, Option<seq<u8>>) {
    match DecodeVersion(payload)
    case Fail => (sv, None)
    case Ok((version, extensions), _) =>
      if version < 3 then (sv, Some(EncodeVersion(3))) else
        var log := sv.log + [Initialized(version, extensions)];
        match h.init(log)
        case Refused(_) => (sv.(log := log), None)
        case Done(v) =>
          var agreed := Max(v, 3);
          (Server(agreed, true, log), Some(EncodeVersion(agreed)))
  }

  /** `dispatch_packet`: the new state and the frame to send, if any. A request that cannot be
      decoded gets no answer. */
  function Dispatch(h: Handler, sv: Server, packet: seq<u8>): (Server, Option<seq<u8>>) {
    hide UnsupportedStatus;
    if packet == [] then (sv, None)
    else if packet[0] == FXP_INIT then HandleInit(h, sv, packet[1..])
    else if 3 <= packet[0] <= 20 then
      match DecodeRequest(packet[0], packet[1..])
      case Fail => (sv, None)
      case Ok((id, wire), _) =>
        var request := wire.Map(FromPacket);
        var log := sv.log + [Called(id, request)];
        (sv.(log := log), Some(EncodeResponse(id, Respond(h, log, request))))
    else (sv, Some(EncodeResponse(0, UnsupportedStatus())))
  }

  function UnsupportedStatus(): Response {
    Status(SSH_FX_OP_UNSUPPORTED, Ascii("unsupported SFTP operation"))
  }

  /** The answers of one `handle_data` call. `accepts(k)` says whether the session takes the
      answer to the `k`th packet; a refused write ends the call with an error. */
  datatype Served = Served(server: Server, out: seq<seq<u8>>, ok: bool)

  function Serve(h: Handler, sv: Server, packets: seq<seq<u8>>, accepts: nat -> bool, k: nat): Served
    decreases |packets|
  {
    if packets == [] then Served(sv, [], true) else
      var (sv', answer) := Dispatch(h, sv, packets[0]);
      if answer.Some? && !accepts(k) then Served(sv', [], false) else
        var rest := Serve(h, sv', packets[1..], accepts, k + 1);
        rest.(out := (if answer.Some? then [answer.value] else []) + rest.out)
  }

  // Runtime object ------------------------------------------------------------------------

  type ChannelId = u32

  class SftpServerRuntime {
    const handler: Handler
    var buffers: map<ChannelId, seq<u8>>
    var channels: set<ChannelId>
    var negotiated: bool
    var version: u32
    var log: seq<Event>

    /** The two tables have the same keys, and every buffer is a strict prefix of one frame. */
    ghost predicate Valid()
      reads this
    {
      buffers.Keys == channels && forall c :: c in buffers ==> NextFrame(buffers[c]).More?
    }

    ghost function State(): Server
      reads this
    {
      Server(version, negotiated, log)
    }

    constructor (handler: Handler)
      ensures Valid() && this.handler == handler
      ensures buffers == map[] && State() == Server(3, false, [])
    {
      this.handler := handler;
      buffers, channels := map[], {};
      negotiated, version, log := false, 3, [];
    }

    method RegisterChannel(channel: ChannelId)
      requires Valid()
      modifies this
      ensures Valid()
      ensures buffers == old(buffers)[channel := []] && State() == old(State())
    {
      channels := channels + {channel};
      buffers := buffers[channel := []];
    }

    method HandleChannelClose(channel: ChannelId)
      requires Valid()
      modifies this
      ensures Valid()
      ensures buffers == old(buffers) - {channel} && State() == old(State())
    {
      channels := channels - {channel};
      buffers := buffers - {channel};
    }

    /** `handle_init`. */
    method NegotiateVersion(payload: seq<u8>) returns (answer: Option<seq<u8>>)
      modifies this
      ensures buffers == old(buffers) && channels == old(channels)
      ensures (State(), answer) == HandleInit(handler, old(State()), payload)
    {
      hide DecodeVersion, EncodeVersion;
      var decoded := Cursors.ReadVersion(payload);
      if decoded.None? {
        return None;
      }
      var (offered, extensions) := decoded.value;
      if offered < 3 {
        return Some(EncodeVersion(3));
      }
      log := log + [Initialized(offered, extensions)];
      var wanted := handler.init(log);
      if wanted.Refused? {
        return None;
      }
      version := Max(wanted.value, 3);
      negotiated := true;
      return Some(EncodeVersion(version));
    }

    /** `handle_open`, `handle_close` and so on: decode, call the handler, encode. */
    method HandleRequest(t: u8, payload: seq<u8>) returns (answer: Option<seq<u8>>)
      requires 3 <= t <= 20
      modifies this
      ensures buffers == old(buffers) && channels == old(channels)
      ensures (State(), answer) == Dispatch(handler, old(State()), [t] + payload)
    {
      hide DecodeRequest, Respond, EncodeResponse, FromPacket, Request<FileAttrs>.Map;
      assert ([t] + payload)[1..] == payload;
      var decoded := Cursors.ReadRequest(t, payload);
      if decoded.None? {
        return None;
      }
      var (id, wire) := decoded.value;
      var request := wire.Map(FromPacket);
      log := log + [Called(id, request)];
      var response := Respond(handler, log, request);
      var frame;
      if response.Name? {
        frame := Cursors.WriteName(id, response.entries);
      } else {
        frame := EncodeResponse(id, response);
      }
      return Some(frame);
    }

    /** `dispatch_packet`. */
    method DispatchPacket(packet: seq<u8>) returns (answer: Option<seq<u8>>)
      modifies this
      ensures buffers == old(buffers) && channels == old(channels)
      ensures (State(), answer) == Dispatch(handler, old(State()), packet)
    {
      hide DecodeRequest, HandleInit, EncodeResponse, Respond;
      if packet == [] {
        return None;
      }
      var t, payload := packet[0], packet[1..];
      assert packet == [t] + payload;
      if t == FXP_INIT {
        answer := NegotiateVersion(payload);
      } else if 3 <= t <= 20 {
        answer := HandleRequest(t, payload);
      } else {
        return Some(EncodeResponse(0, UnsupportedStatus()));
      }
    }

    /** The second loop of `handle_data`: answers the packets in order. */
    method AnswerPackets(packets: seq<seq<u8>>, accepts: nat -> bool) returns (ok: bool, out: seq<seq<u8>>)
      modifies this
      ensures buffers == old(buffers) && channels == old(channels)
      ensures Served(State(), out, ok) == Serve(handler, old(State()), packets, accepts, 0)
    {
      hide Dispatch;
      out := [];
      var k := 0;
      while k < |packets|
        invariant 0 <= k <= |packets|
        invariant buffers == old(buffers) && channels == old(channels)
        invariant var left := Serve(handler, State(), packets[k..], accepts, k);
                  Serve(handler, old(State()), packets, accepts, 0) == left.(out := out + left.out)
      {
        assert packets[k..][0] == packets[k] && packets[k..][1..] == packets[k + 1..];
        var answer := DispatchPacket(packets[k]);
        ghost var later := Serve(handler, State(), packets[k + 1..], accepts, k + 1).out;
        if answer.Some? {
          if !accepts(k) {
            assert out + [] == out;
            return false, out;
          }
          AppendAssociates(out, [answer.value], later);
          out := out + [answer.value];
        } else {
          assert [] + later == later;
        }
        k := k + 1;
      }
      assert out + [] == out;
      ok := true;
    }

    /** Reassembles the frames now complete on `channel`, answers them in order and returns the
        frames written to the session. An unregistered channel is an error; an invalid length
        unregisters the channel and drops what this call had cut. */
    method HandleData(channel: ChannelId, data: seq<u8>, accepts: nat -> bool)
      returns (ok: bool, out: seq<seq<u8>>)
      requires Valid()
      modifies this
      ensures Valid()
      ensures channel !in old(buffers) ==>
                !ok && out == [] && buffers == old(buffers) && State() == old(State())
      ensures channel in old(buffers) ==>
                match ParseFrames(old(buffers)[channel] + data)
                case Parsed(_, Broken(_)) =>
                  ok && out == [] && buffers == old(buffers) - {channel} && State() == old(State())
                case Parsed(packets, Waiting(tail)) =>
                  buffers == old(buffers)[channel := tail]
                  && Served(State(), out, ok) == Serve(handler, old(State()), packets, accepts, 0)
    {
      hide Serve, ParseFrames;
      if channel !in buffers {
        return false, [];
      }
      var parsed := CutFrames(buffers[channel] + data);
      if parsed.stop.Broken? {
        channels := channels - {channel};
        buffers := buffers - {channel};
        return true, [];
      }
      ghost var tail := ParseIsSplit(buffers[channel] + data);
      buffers := buffers[channel := parsed.stop.tail];
      ok, out := AnswerPackets(parsed.packets, accepts);
    }
  }

  /** The first loop of `handle_data`: cuts whole frames off the front of the buffer. */
  method CutFrames(data: seq<u8>) returns (parsed: Parsed)
    ensures parsed == ParseFrames(data)
  {
    hide U32Of;
    var buf := data;
    var packets := [];
    while true
      invariant ParseFrames(data) == Parsed(packets + ParseFrames(buf).packets, ParseFrames(buf).stop)
      decreases |buf|
    {
      if |buf| < 4 {
        break;
      }
      var len := U32Of(buf[..4]);
      if len > MAX_SFTP_PACKET_SIZE || len == 0 {
        assert packets + [] == packets;
        return Parsed(packets, Broken(len));
      }
      if |buf| < 4 + len {
        break;
      }
      assert NextFrame(buf) == Packet(buf[4..4 + len], buf[4 + len..]);
      AppendAssociates(packets, [buf[4..4 + len]], ParseFrames(buf[4 + len..]).packets);
      packets := packets + [buf[4..4 + len]];
      buf := buf[4 + len..];
    }
    assert packets + [] == packets;
    return Parsed(packets, Waiting(buf));
  }
}
