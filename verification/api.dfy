/**
 What a caller of the client API gets: how each method reads the completion of its request, and
 that this equals calling the handler directly, up to the wire's attribute and error mapping.
 */
module SftpApi {
  import opened Bytes
  import opened Attributes
  import opened Packets
  import opened Responses
  import opened SftpServer
  import opened Answering
  import opened SftpClient
  import opened Pipeline
  import opened PipelineTheorem

  datatype Value =
    | Nothing
    | HandleOf(handle: Text)
    | BytesOf(data: seq<u8>)
    | EntriesOf(entries: seq<DirEntry>)
    | MetadataOf(metadata: Metadata)
    | PathOf(path: Text)
    | Error(kind: ErrorKind)

  /** `sftp_error_kind_for_code`. */
  function KindForCode(code: u32): ErrorKind {
    if code == SSH_FX_NO_SUCH_FILE then NoSuchFile
    else if code == SSH_FX_PERMISSION_DENIED then PermissionDenied
    else if code == SSH_FX_BAD_MESSAGE then Protocol
    else if code == SSH_FX_OP_UNSUPPORTED then Unsupported
    else RemoteStatus
  }

  /** `check_status`, with the value of an OK status. */
  function CheckStatus(code: u32, ok: Value): Value {
    if code == SSH_FX_OK then ok else Error(KindForCode(code))
  }

  function FromNameEntry(e: NameEntry): DirEntry {
    DirEntry(e.filename, e.longname, FromPacket(e.attrs))
  }

  function FromNameEntries(es: seq<NameEntry>): (ds: seq<DirEntry>)
    ensures |ds| == |es| && forall i :: 0 <= i < |es| ==> ds[i] == FromNameEntry(es[i])
  {
    seq(|es|, i requires 0 <= i < |es| => FromNameEntry(es[i]))
  }

  /** The result of the API method that sent `request`, from the response it received. */
  function Interpret(request: Request<Metadata>, r: Response): Value {
    match request
    case Open(_, _, _) => ExpectHandle(r)
    case Opendir(_) => ExpectHandle(r)
    case Read(_, _, _) => ExpectData(r)
    case Readdir(_) => ExpectBatch(r)
    case Stat(_) => ExpectAttrs(r)
    case Lstat(_) => ExpectAttrs(r)
    case Fstat(_) => ExpectAttrs(r)
    case Realpath(_) => ExpectName(r)
    case Readlink(_) => ExpectName(r)
    case _ => ExpectStatus(r)
  }

  function ExpectData(r: Response): Value {
    match r
    case Data(data) => BytesOf(data)
    case Status(code, _) => if code == SSH_FX_EOF then BytesOf([]) else CheckStatus(code, BytesOf([]))
    case _ => Error(Protocol)
  }

  function ExpectBatch(r: Response): Value {
    match r
    case Name(es) => EntriesOf(FromNameEntries(es))
    case Status(code, _) => if code == SSH_FX_EOF then EntriesOf([]) else CheckStatus(code, EntriesOf([]))
    case _ => Error(Protocol)
  }

  function ExpectStatus(r: Response): Value {
    match r
    case Status(code, _) => CheckStatus(code, Nothing)
    case _ => Error(Protocol)
  }

  function ExpectHandle(r: Response): Value {
    match r
    case Handle(handle) => HandleOf(handle)
    case Status(code, _) => Error(KindForCode(code))
    case _ => Error(Protocol)
  }

  function ExpectAttrs(r: Response): Value {
    match r
    case Attrs(attrs) => MetadataOf(FromPacket(attrs))
    case Status(code, _) => Error(KindForCode(code))
    case _ => Error(Protocol)
  }

  function ExpectName(r: Response): Value {
    match r
    case Name(es) => if es == [] then Error(Protocol) else PathOf(es[0].filename)
    case Status(code, _) => Error(KindForCode(code))
    case _ => Error(Protocol)
  }

  function ApiResult(request: Request<Metadata>, c: Completion): Value {
    match c
    case Got(r) => Interpret(request, r)
    case Failed(kind) => Error(kind)
  }

  // Direct calls --------------------------------------------------------------------------------------

  /** How a handler error reaches the caller: four kinds survive, the rest become a remote status. */
  function Reported(e: HandlerError): ErrorKind {
    match e
    case Sftp(NoSuchFile, _) => NoSuchFile
    case Sftp(PermissionDenied, _) => PermissionDenied
    case Sftp(Unsupported, _) => Unsupported
    case Sftp(Protocol, _) => Protocol
    case _ => RemoteStatus
  }

  function DeliveredEntry(e: DirEntry): DirEntry {
    e.(metadata := Delivered(e.metadata))
  }

  function DeliveredEntries(es: seq<DirEntry>): (ds: seq<DirEntry>)
    ensures |ds| == |es| && forall i :: 0 <= i < |es| ==> ds[i] == DeliveredEntry(es[i])
  {
    seq(|es|, i requires 0 <= i < |es| => DeliveredEntry(es[i]))
  }

  function Direct<T>(o: Outcome<T>, f: T -> Value): Value {
    match o
    case Done(v) => f(v)
    case Refused(e) => Error(Reported(e))
  }

  /** The handler called directly, with no wire in between. */
  function DirectCall(h: Handler, log: seq<Event>, request: Request<Metadata>): Value {
    match request
    case Open(_, _, _) => Direct(h.openFor(log), handle => HandleOf(handle))
    case Opendir(_) => Direct(h.openFor(log), handle => HandleOf(handle))
    case Read(_, _, _) => Direct(h.readFor(log), data => BytesOf(data))
    case Readdir(_) => Direct(h.listFor(log), es => EntriesOf(DeliveredEntries(es)))
    case Stat(_) => Direct(h.statFor(log), m => MetadataOf(Delivered(m)))
    case Lstat(_) => Direct(h.statFor(log), m => MetadataOf(Delivered(m)))
    case Fstat(_) => Direct(h.statFor(log), m => MetadataOf(Delivered(m)))
    case Realpath(_) => Direct(h.listFor(log), es => FirstName(es))
    case Readlink(_) => Direct(h.listFor(log), es => FirstName(es))
    case _ => Direct(h.doneFor(log), _ => Nothing)
  }

  function FirstName(es: seq<DirEntry>): Value {
    if es == [] then Error(Protocol) else PathOf(es[0].filename)
  }

  lemma ErrorsReported(e: HandlerError)
    ensures ErrorStatus(e).Status? && ErrorStatus(e).code != SSH_FX_OK && ErrorStatus(e).code != SSH_FX_EOF
    ensures KindForCode(ErrorStatus(e).code) == Reported(e)
  {
    hide DefaultMessage;
  }

  lemma EntriesDelivered(es: seq<DirEntry>)
    ensures FromNameEntries(ToNameEntries(es)) == DeliveredEntries(es)
  {
    hide ToPacket, FromPacket, Delivered, InNormalForm, HasExtended;
    forall i | 0 <= i < |es|
      ensures FromNameEntries(ToNameEntries(es))[i] == DeliveredEntries(es)[i]
    {
      MetadataSettles(es[i].metadata);
    }
  }

  lemma RefusedIsReported<T>(o: Outcome<T>)
    requires o.Refused?
    ensures var r := ErrorStatus(o.error);
            ExpectHandle(r) == ExpectData(r) == ExpectBatch(r) == ExpectAttrs(r) == ExpectName(r) == ExpectStatus(r)
            == Error(Reported(o.error))
  {
    hide ErrorStatus, Reported, KindForCode;
    ErrorsReported(o.error);
  }

  lemma HandleIsDirect(o: Outcome<Text>)
    ensures ExpectHandle(RespondHandle(o)) == Direct(o, handle => HandleOf(handle))
  {
    hide ErrorStatus, Reported;
    if o.Refused? {
      RefusedIsReported(o);
    }
  }

  lemma DataIsDirect(o: Outcome<seq<u8>>)
    ensures ExpectData(RespondData(o)) == Direct(o, data => BytesOf(data))
  {
    hide ErrorStatus, Reported, Ascii;
    if o.Refused? {
      RefusedIsReported(o);
    }
  }

  lemma BatchIsDirect(o: Outcome<seq<DirEntry>>)
    ensures ExpectBatch(RespondBatch(o)) == Direct(o, es => EntriesOf(DeliveredEntries(es)))
  {
    hide ErrorStatus, Reported, Ascii, FromNameEntries, ToNameEntries, DeliveredEntries;
    if o.Refused? {
      RefusedIsReported(o);
    } else {
      EntriesDelivered(o.value);
      assert o.value == [] ==> DeliveredEntries(o.value) == [];
    }
  }

  lemma NameIsDirect(o: Outcome<seq<DirEntry>>)
    ensures ExpectName(RespondNames(o)) == Direct(o, es => FirstName(es))
  {
    hide ErrorStatus, Reported, ToPacket;
    if o.Refused? {
      RefusedIsReported(o);
    }
  }

  lemma AttrsIsDirect(o: Outcome<Metadata>)
    ensures ExpectAttrs(RespondAttrs(o)) == Direct(o, m => MetadataOf(Delivered(m)))
  {
    hide ErrorStatus, Reported, ToPacket, FromPacket, Delivered;
    if o.Refused? {
      RefusedIsReported(o);
    } else {
      MetadataSettles(o.value);
    }
  }

  lemma StatusIsDirect(o: Outcome<()>)
    ensures ExpectStatus(RespondUnit(o)) == Direct(o, _ => Nothing)
  {
    hide ErrorStatus, Reported, Ascii;
    if o.Refused? {
      RefusedIsReported(o);
    }
  }

  /** Answering over the wire and interpreting the response is the direct call: empty reads and
      listings come back as end-of-file and empty, values unchanged, errors by kind. */
  lemma InterpretedIsDirect(h: Handler, log: seq<Event>, request: Request<Metadata>)
    ensures Interpret(request, Respond(h, log, request)) == DirectCall(h, log, request)
  {
    hide ExpectHandle, ExpectData, ExpectBatch, ExpectName, ExpectAttrs, ExpectStatus, RespondHandle, RespondData,
         RespondBatch, RespondNames, RespondAttrs, RespondUnit, DeliveredEntries, Delivered, Reported;
    HandleIsDirect(h.openFor(log));
    DataIsDirect(h.readFor(log));
    BatchIsDirect(h.listFor(log));
    NameIsDirect(h.listFor(log));
    AttrsIsDirect(h.statFor(log));
    StatusIsDirect(h.doneFor(log));
  }

  /** The whole stack: at rest, every API call made through the pipeline has returned what the
      handler, called directly on that request at that point of its history, would give. */
  lemma PipelinedApiIsDirect(h: Handler, sv: Server, steps: seq<WorldStep>)
    requires IsHistory(h, Joined(sv), steps) && AtRest(Reached(h, Joined(sv), steps))
    requires ModerateLog(h, |sv.log|, Reached(h, Joined(sv), steps).conn.server.log)
    ensures var c := Reached(h, Joined(sv), steps).client;
            QueueOk(c)
            && (forall t :: 0 <= t < |c.slots| ==> t in c.enqueued)
            && forall i :: 0 <= i < |c.enqueued| ==>
                 var s := c.slots[c.enqueued[i]];
                 |s.results| == 1
                 && ApiResult(s.issue.request, s.results[0])
                    == DirectCall(h, sv.log + SeenAll(Issues(c)[..i + 1]), s.issue.request)
  {
    PipelineRefinesDirectCalls(h, sv, steps);
    var c := Reached(h, Joined(sv), steps).client;
    hide Reached, IsHistory, ModerateLog, AtRest, Respond, Interpret, DirectCall, QueueOk, SeenAll;
    forall i | 0 <= i < |c.enqueued|
      ensures var s := c.slots[c.enqueued[i]];
              |s.results| == 1
              && ApiResult(s.issue.request, s.results[0])
                 == DirectCall(h, sv.log + SeenAll(Issues(c)[..i + 1]), s.issue.request)
    {
      var request, log := Issues(c)[i].request, sv.log + SeenAll(Issues(c)[..i + 1]);
      InterpretSameForDelivered(h, log, request);
    }
  }

  /** The method reads the response by its own request; the handler saw that request delivered. */
  lemma InterpretSameForDelivered(h: Handler, log: seq<Event>, request: Request<Metadata>)
    ensures Interpret(request, Respond(h, log, request.Map(Delivered))) == DirectCall(h, log, request)
  {
    hide Interpret, DirectCall, Respond, Delivered, Request<Metadata>.Map;
    InterpretedIsDirect(h, log, request);
    RespondsToKind(h, log, request);
  }

  /** A response depends on the kind of request only, and on the handler's history. */
  lemma RespondsToKind(h: Handler, log: seq<Event>, request: Request<Metadata>)
    ensures Respond(h, log, request.Map(Delivered)) == Respond(h, log, request)
  {
    hide Delivered, RespondHandle, RespondUnit, RespondData, RespondBatch, RespondNames, RespondAttrs;
  }
}
