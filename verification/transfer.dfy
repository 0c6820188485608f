/**
 Whole-file upload and download in chunks, as calls of the client API one after the other, each of
 them over the wire. The handler is any that serves files by position: it may refuse any call, and
 may return any non-empty short read before end of file. What the remote side holds is read off
 the calls that the handler has granted. A call or an answer over the packet limit ends the session.
 */
module Transfer {
  import opened Bytes
  import opened Codec
  import opened Attributes
  import opened Packets
  import opened Responses
  import opened SftpServer
  import opened Answering
  import opened SftpClient
  import opened Pipeline
  import opened Exchange
  import opened SftpApi

  const SFTP_CHUNK_SIZE: u32 := 32768

  const READ: u32 := 0x1

  /** `WRITE | CREATE | TRUNCATE`. */
  const REPLACE: u32 := 0x2 + 0x8 + 0x10

  /** The longest path that fits an OPEN packet, and the longest handle that fits a WRITE packet
      with a full chunk. */
  const PATH_LIMIT: nat := 262127
  const HANDLE_LIMIT: nat := 229355

  /** The longest byte vector. */
  const ISIZE_MAX: nat := 0x7FFF_FFFF_FFFF_FFFF

  function NoAttrs(): Metadata {
    Metadata(None, None, None, None, None, None)
  }

  /** A file after `data` is written at `offset`: a gap is zero-filled, the rest is kept. */
  function WriteAt(file: seq<u8>, offset: nat, data: seq<u8>): seq<u8> {
    (if offset <= |file| then file[..offset] else file + seq(offset - |file|, _ => 0))
    + data
    + (if offset + |data| <= |file| then file[offset + |data|..] else [])
  }

  // Handlers that serve files by position --------------------------------------------------------------

  // The bits of an open mode.
  predicate Readable(mode: u32) { mode % 2 == 1 }
  predicate Appends(mode: u32) { mode / 0x4 % 2 == 1 }
  predicate Creates(mode: u32) { mode / 0x8 % 2 == 1 }
  predicate Truncates(mode: u32) { mode / 0x10 % 2 == 1 }

  /** Open for writing, and by position. */
  predicate Writable(mode: u32) { mode / 0x2 % 2 == 1 && !Appends(mode) }

  /** What a handle stands for. */
  datatype Opened = Opened(path: Text, mode: u32)

  datatype Store = Store(files: map<Text, seq<u8>>, handles: map<Text, Opened>) {
    /** Every offset into a file fits the protocol's 64 bits, and every handle names a file. */
    ghost predicate Valid() {
      (forall p :: p in files ==> |files[p]| < 0x1_0000_0000_0000_0000)
      && (forall h :: h in handles ==> handles[h].path in files)
    }

    /** The file behind a handle. */
    function File(handle: Text): seq<u8>
      requires handle in handles && handles[handle].path in files
    {
      files[handles[handle].path]
    }

    /** The files after `path` was opened: it is emptied or created, or stays as it is. */
    function AfterOpen(path: Text, mode: u32): map<Text, seq<u8>> {
      if path in files && !Truncates(mode) then files else files[path := []]
    }
  }

  /** The calls that the transfer loops make, with any open mode. */
  predicate InTransfer(r: Request<Metadata>) {
    |r.subject| < 0x8000_0000
    && match r
       case Open(_, _, attrs) => attrs == NoAttrs()
       case Read(_, _, len) => len == SFTP_CHUNK_SIZE
       case Write(_, _, data) => |data| <= SFTP_CHUNK_SIZE
       case Fstat(_) => true
       case Close(_) => true
       case _ => false
  }

  predicate IsTransfer(run: seq<Event>) {
    forall i :: 0 <= i < |run| ==> run[i].Called? && InTransfer(run[i].request)
  }

  /** Whether the handler granted `r`, the last call of `log`. */
  predicate Grants(h: Handler, log: seq<Event>, r: Request<Metadata>) {
    match r
    case Open(_, _, _) => h.openFor(log).Done?
    case Read(_, _, _) => h.readFor(log).Done?
    case Fstat(_) => h.statFor(log).Done?
    case _ => h.doneFor(log).Done?
  }

  /** The store after `r`, the last call of `log`, was made on `st`. */
  function Effect(h: Handler, log: seq<Event>, st: Store, r: Request<Metadata>): Store {
    if !Grants(h, log, r) then st else
      match r
      case Open(path, mode, _) =>
        Store(st.AfterOpen(path, mode), st.handles[h.openFor(log).value := Opened(path, mode)])
      case Write(handle, offset, data) =>
        if handle !in st.handles || st.handles[handle].path !in st.files || !Writable(st.handles[handle].mode) then st
        else st.(files := st.files[st.handles[handle].path := WriteAt(st.File(handle), offset, data)])
      case Close(handle) => st.(handles := st.handles - {handle})
      case _ => st
  }

  /** The answer to `r`, the last call of `log`, is right for a store `st`. */
  predicate Honest(h: Handler, log: seq<Event>, st: Store, r: Request<Metadata>) {
    Grants(h, log, r) ==>
      match r
      case Open(path, mode, _) => (path in st.files || Creates(mode)) && |h.openFor(log).value| < 0x8000_0000
      case Read(handle, offset, len) =>
        handle in st.handles && st.handles[handle].path in st.files ==>
          var (data, file) := (h.readFor(log).value, st.File(handle));
          if offset >= |file| || len == 0 then data == [] else 0 < |data| <= len && data <= file[offset..]
      case Fstat(handle) =>
        handle in st.handles && st.handles[handle].path in st.files && h.statFor(log).value.size.Some? ==>
          h.statFor(log).value.size.value == |st.File(handle)|
      case _ => true
  }

  /** The packet of the answer to `r`, the last call of `log`. */
  function AnswerLength(h: Handler, log: seq<Event>, r: Request<Metadata>): nat {
    1 + |ResponsePayload(0, Respond(h, log, r))|
  }

  /** What the remote side holds after `run`, from `start` at the end of `base`. */
  function Replay(h: Handler, base: seq<Event>, start: Store, run: seq<Event>): Store
    requires IsTransfer(run)
    decreases |run|
  {
    if run == [] then start else
      var before := run[..|run| - 1];
      Effect(h, base + run, Replay(h, base, start, before), run[|run| - 1].request)
  }

  function Refusals(h: Handler, base: seq<Event>, run: seq<Event>): nat
    requires IsTransfer(run)
    decreases |run|
  {
    if run == [] then 0 else
      Refusals(h, base, run[..|run| - 1]) + if Grants(h, base + run, run[|run| - 1].request) then 0 else 1
  }

  /** A client keeps to what it opened: reads and writes go through handles opened for that, with
      the open modes in question. */
  predicate Proper(modes: u32 -> bool, st: Store, r: Request<Metadata>) {
    match r
    case Open(_, mode, _) => modes(mode)
    case Read(handle, _, _) => handle in st.handles && Readable(st.handles[handle].mode)
    case Write(handle, _, _) => handle in st.handles && Writable(st.handles[handle].mode)
    case _ => r.subject in st.handles
  }

  predicate ProperRun(h: Handler, base: seq<Event>, start: Store, modes: u32 -> bool, run: seq<Event>)
    requires IsTransfer(run)
    decreases |run|
  {
    run == []
    || (var before := run[..|run| - 1];
        ProperRun(h, base, start, modes, before)
        && Proper(modes, Replay(h, base, start, before), run[|run| - 1].request))
  }

  /** From `start` on, the handler answers every proper sequence of transfer calls by position, and
      honours the bits of the given open modes. No answer is so long that its length word wraps. */
  ghost predicate Positional(h: Handler, base: seq<Event>, start: Store, modes: u32 -> bool) {
    forall run: seq<Event> :: IsTransfer(run) && ProperRun(h, base, start, modes, run) ==>
      Replay(h, base, start, run).Valid()
      && (run != [] ==>
            && Honest(h, base + run, Replay(h, base, start, run[..|run| - 1]), run[|run| - 1].request)
            && AnswerLength(h, base + run, run[|run| - 1].request) < TWO_32)
  }

  /** The answer to `r`, the last call of `log`: a refusal fits a packet, and so does a handle given
      out for `path`, with a chunk beside it. */
  predicate Short(h: Handler, log: seq<Event>, r: Request<Metadata>, path: Text) {
    if Grants(h, log, r) then r.Open? && r.subject == path ==> |h.openFor(log).value| <= HANDLE_LIMIT
    else AnswerLength(h, log, r) <= MAX_SFTP_PACKET_SIZE
  }

  ghost predicate Brief(h: Handler, base: seq<Event>, path: Text) {
    forall run: seq<Event> :: IsTransfer(run) && run != [] ==> Short(h, base + run, run[|run| - 1].request, path)
  }

  /** A call that a handler has no reason to refuse. */
  predicate Grantable(st: Store, r: Request<Metadata>) {
    match r
    case Open(path, mode, _) => path in st.files || Creates(mode)
    case Write(_, offset, data) => offset + |data| <= ISIZE_MAX
    case _ => true
  }

  /** It grants each of those. */
  ghost predicate Willing(h: Handler, base: seq<Event>, start: Store, modes: u32 -> bool) {
    forall run: seq<Event> :: IsTransfer(run) && ProperRun(h, base, start, modes, run) && run != [] ==>
      (Grantable(Replay(h, base, start, run[..|run| - 1]), run[|run| - 1].request) ==>
         Grants(h, base + run, run[|run| - 1].request))
  }

  /** Nothing stands in the way of a transfer of `path`. */
  ghost predicate Welcome(h: Handler, base: seq<Event>, start: Store, modes: u32 -> bool, path: Text) {
    Willing(h, base, start, modes) && Brief(h, base, path) && |path| <= PATH_LIMIT
  }

  // Lengths ------------------------------------------------------------------------------------------------

  function RequestLength(r: Request<Metadata>): nat
    requires InTransfer(r)
  {
    match r
    case Open(path, _, _) => 17 + |path|
    case Read(handle, _, _) => 21 + |handle|
    case Write(handle, _, data) => 21 + |handle| + |data|
    case _ => 9 + |r.subject|
  }

  lemma BodyLength(id: u32, r: Request<Metadata>)
    requires InTransfer(r)
    ensures |Body(Issue(id, r))| == RequestLength(r)
  {
    hide U32Bytes, U64Bytes;
    if r.Open? {
      NoAttrsAreShort();
    }
  }

  lemma NoAttrsAreShort()
    ensures |PushAttrs(ToPacket(NoAttrs()))| == 4
    ensures Delivered(NoAttrs()) == NoAttrs()
  {
    hide U32Bytes, U64Bytes;
  }

  /** The wire leaves transfer calls as they are. */
  lemma SeenAsMade(r: Request<Metadata>)
    requires InTransfer(r)
    ensures r.Map(Delivered) == r
  {
    NoAttrsAreShort();
    hide Delivered;
  }

  /** What the handler grants in a transfer fits a packet, except perhaps a handle. */
  lemma GrantedFits(h: Handler, log: seq<Event>, r: Request<Metadata>)
    requires InTransfer(r) && Grants(h, log, r)
    ensures !Respond(h, log, r).Name?
    ensures r.Open? ==> AnswerLength(h, log, r) == 9 + |h.openFor(log).value|
    ensures r.Read? && |h.readFor(log).value| <= SFTP_CHUNK_SIZE ==> AnswerLength(h, log, r) <= MAX_SFTP_PACKET_SIZE
    ensures !r.Open? && !r.Read? ==> AnswerLength(h, log, r) <= MAX_SFTP_PACKET_SIZE
  {
    hide U32Bytes, U64Bytes, Ascii;
    if r.Fstat? {
      AttrsAreShort(ToPacket(h.statFor(log).value));
      hide ToPacket, PushAttrs;
    }
  }

  lemma AttrsAreShort(a: FileAttrs)
    ensures |PushAttrs(a)| <= 32
  {
    hide U32Bytes, U64Bytes;
  }

  lemma NotNamed(h: Handler, log: seq<Event>, r: Request<Metadata>)
    requires InTransfer(r)
    ensures !Respond(h, log, r).Name?
  {
    hide Ascii;
  }

  // Calls --------------------------------------------------------------------------------------------------

  /** A call returns a value or an error, or it never returns. */
  datatype Reply = Answered(value: Value) | Unanswered

  datatype Result<+T> = Returned(value: T) | Erred | Hung | Panicked

  /** An SFTP session, with calls made one at a time. `base` is the handler's history before it. */
  class Session {
    const handler: Handler
    ghost const base: seq<Event>
    ghost const start: Store
    ghost const modes: u32 -> bool
    var link: Link

    ghost predicate Valid()
      reads this
    {
      base <= link.conn.server.log && IsTransfer(Run())
      && Positional(handler, base, start, modes) && ProperRun(handler, base, start, modes, Run())
    }

    ghost function Run(): seq<Event>
      requires base <= link.conn.server.log
      reads this
    {
      link.conn.server.log[|base|..]
    }

    /** The calls answered so far have left the session usable. */
    ghost predicate Alive()
      reads this
    {
      Idle(link)
    }

    function Log(): seq<Event>
      reads this
    {
      link.conn.server.log
    }

    ghost function Remote(): (st: Store)
      requires Valid()
      reads this
      ensures st.Valid()
    {
      Replay(handler, base, start, Run())
    }

    ghost function Refused(): nat
      requires Valid()
      reads this
    {
      Refusals(handler, base, Run())
    }

    constructor (handler: Handler, link: Link, ghost start: Store, ghost modes: u32 -> bool)
      requires Idle(link) && Positional(handler, link.conn.server.log, start, modes)
      ensures Valid() && Alive() && Remote() == start && Refused() == 0
      ensures this.handler == handler && base == link.conn.server.log && this.modes == modes
    {
      this.handler, this.link := handler, link;
      this.base, this.start, this.modes := link.conn.server.log, start, modes;
      new;
      assert Run() == [];
    }

    /** One API call over the wire, with the bytes cut in any way on both directions. A request over
        the packet limit is never answered; an answer over it is an error and ends the session;
        otherwise the result is the direct call of the handler at this point of its history. */
    method Call(request: Request<Metadata>) returns (reply: Reply)
      requires Valid() && Alive() && InTransfer(request) && Proper(modes, Remote(), request)
      modifies this
      ensures Valid()
      ensures RequestLength(request) > MAX_SFTP_PACKET_SIZE ==>
                reply == Unanswered && !Alive() && Remote() == old(Remote()) && Refused() == old(Refused())
      ensures RequestLength(request) <= MAX_SFTP_PACKET_SIZE ==>
                && Remote() == Effect(handler, Log(), old(Remote()), request)
                && Honest(handler, Log(), old(Remote()), request)
                && Refused() == old(Refused()) + (if Grants(handler, Log(), request) then 0 else 1)
                && Alive() == (AnswerLength(handler, Log(), request) <= MAX_SFTP_PACKET_SIZE)
                && reply == Answered(if Alive() then DirectCall(handler, Log(), request) else Error(Protocol))
      ensures Willing(handler, base, start, modes) && RequestLength(request) <= MAX_SFTP_PACKET_SIZE ==>
                (Grantable(old(Remote()), request) ==> Grants(handler, Log(), request))
      ensures forall path :: Brief(handler, base, path) && RequestLength(request) <= MAX_SFTP_PACKET_SIZE ==>
                Short(handler, Log(), request, path)
    {
      hide Effect, Honest, Grants, DirectCall, Brief, Replay, Refusals, Positional, Exchanged, ReceiveAll, PacketOf,
           RequestLength, AnswerLength, ApiResult, InTransfer, Proper, ProperRun, Willing, Grantable,
           Short;
      ghost var e, run := Called(link.client.nextId, request), Run();
      CallExtends(handler, base, start, modes, run, e);
      forall path | Brief(handler, base, path)
        ensures Short(handler, base + (run + [e]), request, path)
      {
        CallIsShort(handler, base, run, e, path);
      }
      assert base + (run + [e]) == Log() + [e];
      var packet := PacketOf(NewIssue(link, request));
      var up := CutAnywhere(packet);
      var down := CutAnywhere(Concat(ReceiveAll(handler, link.conn, up).out));
      Exchanging(handler, link, request, up, down);
      var t := |link.client.slots|;
      link := Exchanged(handler, link, request, up, down);
      assert RequestLength(request) <= MAX_SFTP_PACKET_SIZE ==> Run() == run + [e];
      var results := link.client.slots[t].results;
      reply := if results == [] then Unanswered else Answered(ApiResult(request, results[0]));
    }

    /** `SftpClient::open`. */
    method Open(path: Text, mode: u32) returns (r: Result<Text>)
      requires Valid() && Alive() && |path| < 0x8000_0000 && modes(mode)
      modifies this
      ensures Valid() && !r.Panicked?
      ensures r.Returned? <==> Alive() && Refused() == old(Refused())
      ensures r.Hung? <==> |path| > PATH_LIMIT
      ensures Refused() >= old(Refused())
      ensures r.Returned? ==>
                && (path in old(Remote()).files || Creates(mode))
                && Remote().handles == old(Remote()).handles[r.value := Opened(path, mode)]
                && Remote().files == old(Remote()).AfterOpen(path, mode) && |r.value| < 0x8000_0000
      ensures !r.Returned? ==>
                Remote().files == old(Remote()).files
                || ((path in old(Remote()).files || Creates(mode))
                    && Remote().files == old(Remote()).AfterOpen(path, mode))
      ensures Brief(handler, base, path) && |path| <= PATH_LIMIT ==>
                Alive() && (r.Returned? ==> |r.value| <= HANDLE_LIMIT)
      ensures Willing(handler, base, start, modes) && (path in old(Remote()).files || Creates(mode)) ==>
                Refused() == old(Refused())
    {
      hide Positional, ProperRun, Brief, Willing, IsTransfer, Replay, Refusals, WriteAt, Idle, Respond;
      var request := Request.Open(path, mode, NoAttrs());
      var reply := Call(request);
      OpenFits(handler, Log(), request);
      return if reply.Unanswered? then Hung
             else if reply.value.HandleOf? then Returned(reply.value.handle) else Erred;
    }

    /** `SftpFile::read`. */
    method Read(handle: Text, offset: u64) returns (r: Result<seq<u8>>)
      requires Valid() && Alive() && |handle| < 0x8000_0000
      requires handle in Remote().handles && Readable(Remote().handles[handle].mode)
      modifies this
      ensures Valid() && Remote() == old(Remote()) && !r.Panicked?
      ensures r.Returned? <==> Alive() && Refused() == old(Refused())
      ensures r.Hung? <==> |handle| > 262123
      ensures Refused() >= old(Refused())
      ensures r.Returned? ==>
                var file := Remote().File(handle);
                if offset >= |file| then r.value == []
                else 0 < |r.value| <= SFTP_CHUNK_SIZE && r.value <= file[offset..]
      ensures Willing(handler, base, start, modes) ==> Refused() == old(Refused())
      ensures forall path :: Brief(handler, base, path) && |handle| <= HANDLE_LIMIT ==> Alive()
    {
      hide Positional, ProperRun, Brief, Willing, IsTransfer, Replay, Refusals, WriteAt, Idle, Respond;
      var request := Request.Read(handle, offset, SFTP_CHUNK_SIZE);
      var reply := Call(request);
      ReadFits(handler, Log(), Remote(), request);
      return if reply.Unanswered? then Hung
             else if reply.value.BytesOf? then Returned(reply.value.data) else Erred;
    }

    /** `SftpFile::write`. */
    method Write(handle: Text, offset: u64, data: seq<u8>) returns (r: Result<()>)
      requires Valid() && Alive() && |handle| < 0x8000_0000 && |data| <= SFTP_CHUNK_SIZE
      requires handle in Remote().handles && Writable(Remote().handles[handle].mode)
      modifies this
      ensures Valid() && Remote().handles == old(Remote()).handles && !r.Panicked?
      ensures r.Returned? <==> Alive() && Refused() == old(Refused())
      ensures r.Hung? <==> |handle| + |data| > 262123
      ensures Refused() >= old(Refused())
      ensures var (path, files) := (old(Remote()).handles[handle].path, old(Remote()).files);
              Remote().files == if r.Returned? then files[path := WriteAt(files[path], offset, data)] else files
      ensures Willing(handler, base, start, modes) && offset + |data| <= ISIZE_MAX ==> Refused() == old(Refused())
      ensures forall path :: Brief(handler, base, path) && |handle| <= HANDLE_LIMIT ==> Alive()
    {
      hide Positional, ProperRun, Brief, Willing, IsTransfer, Replay, Refusals, WriteAt, Idle, Respond;
      var request := Request.Write(handle, offset, data);
      var reply := Call(request);
      ShortAnswer(handler, Log(), request);
      return if reply.Unanswered? then Hung else if reply.value.Nothing? then Returned(()) else Erred;
    }

    /** `SftpFile::metadata`. */
    method Metadata(handle: Text) returns (r: Result<Metadata>)
      requires Valid() && Alive() && handle in Remote().handles && |handle| < 0x8000_0000
      modifies this
      ensures Valid() && Remote() == old(Remote()) && !r.Panicked?
      ensures r.Returned? <==> Alive() && Refused() == old(Refused())
      ensures r.Hung? <==> |handle| > 262135
      ensures Refused() >= old(Refused())
      ensures r.Returned? && r.value.size.Some? ==> r.value.size.value == |Remote().File(handle)|
      ensures Willing(handler, base, start, modes) ==> Refused() == old(Refused())
      ensures forall path :: Brief(handler, base, path) && |handle| <= HANDLE_LIMIT ==> Alive()
    {
      hide Positional, ProperRun, Brief, Willing, IsTransfer, Replay, Refusals, WriteAt, Idle, Respond;
      var request := Request.Fstat(handle);
      var reply := Call(request);
      ShortAnswer(handler, Log(), request);
      return if reply.Unanswered? then Hung
             else if reply.value.MetadataOf? then Returned(reply.value.metadata) else Erred;
    }

    /** `SftpFile::close`. */
    method Close(handle: Text) returns (r: Result<()>)
      requires Valid() && Alive() && handle in Remote().handles && |handle| < 0x8000_0000
      modifies this
      ensures Valid() && Remote().files == old(Remote()).files && !r.Panicked?
      ensures Remote().handles == if r.Returned? then old(Remote()).handles - {handle} else old(Remote()).handles
      ensures r.Returned? <==> Alive() && Refused() == old(Refused())
      ensures r.Hung? <==> |handle| > 262135
      ensures Refused() >= old(Refused())
      ensures Willing(handler, base, start, modes) ==> Refused() == old(Refused())
      ensures forall path :: Brief(handler, base, path) && |handle| <= HANDLE_LIMIT ==> Alive()
    {
      hide Positional, ProperRun, Brief, Willing, IsTransfer, Replay, Refusals, WriteAt, Idle, Respond;
      var request := Request.Close(handle);
      var reply := Call(request);
      ShortAnswer(handler, Log(), request);
      return if reply.Unanswered? then Hung else if reply.value.Nothing? then Returned(()) else Erred;
    }
  }

  /** The network cuts bytes anywhere. */
  method CutAnywhere(bytes: seq<u8>) returns (chunks: seq<seq<u8>>)
    ensures Concat(chunks) == bytes
  {
    chunks := [];
    var rest := bytes;
    while rest != []
      invariant Concat(chunks) + rest == bytes
      decreases |rest|
    {
      var n: int := *;
      var k := if 1 <= n <= |rest| then n else |rest|;
      assert rest == rest[..k] + rest[k..];
      ConcatSnoc(chunks, rest[..k]);
      AppendAssociates(Concat(chunks), rest[..k], rest[k..]);
      chunks, rest := chunks + [rest[..k]], rest[k..];
    }
    assert Concat(chunks) + [] == Concat(chunks);
  }

  /** The three ways that an exchange of a transfer call can go. */
  lemma Exchanging(h: Handler, l: Link, request: Request<Metadata>, up: seq<seq<u8>>, down: seq<seq<u8>>)
    requires Idle(l) && InTransfer(request)
    requires Concat(up) == PacketOf(NewIssue(l, request)) && Concat(down) == Concat(ReceiveAll(h, l.conn, up).out)
    requires AnswerLength(h, l.conn.server.log + [Called(l.client.nextId, request)], request) < TWO_32
    ensures TableOk(l.client)
    ensures var (t, log, l') := (|l.client.slots|, l.conn.server.log + [Called(l.client.nextId, request)],
                                 Exchanged(h, l, request, up, down));
            && |l'.client.slots| == t + 1
            && var results := l'.client.slots[t].results;
               if RequestLength(request) > MAX_SFTP_PACKET_SIZE then
                 l'.conn.server == l.conn.server && !Idle(l') && results == []
               else
                 && l'.conn.server.log == log
                 && Idle(l') == (AnswerLength(h, log, request) <= MAX_SFTP_PACKET_SIZE)
                 && |results| == 1
                 && ApiResult(request, results[0]) == if Idle(l') then DirectCall(h, log, request) else Error(Protocol)
  {
    hide Exchanged, ReceiveAll, PacketOf, Respond, DirectCall, Interpret, RequestLength, Body, Delivered,
         Request<Metadata>.Map, ResponsePayload, Concat;
    var i := NewIssue(l, request);
    BodyLength(i.id, request);
    SeenAsMade(request);
    var log := SeenNext(l, request);
    NotNamed(h, log, request);
    LengthBound(request);
    hide InTransfer;
    if RequestLength(request) > MAX_SFTP_PACKET_SIZE {
      LongRequestHangs(h, l, request, up, down);
    } else if AnswerLength(h, log, request) <= MAX_SFTP_PACKET_SIZE {
      FittingExchange(h, l, request, up, down);
      InterpretSameForDelivered(h, log, request);
      assert (l.client.slots + [Slot(i, true, true, [Got(NextAnswer(h, l, request))])])[|l.client.slots|]
          == Slot(i, true, true, [Got(NextAnswer(h, l, request))]);
    } else {
      LongAnswerAborts(h, l, request, up, down);
    }
  }

  lemma LengthBound(r: Request<Metadata>)
    requires InTransfer(r)
    ensures RequestLength(r) < TWO_32
  {}

  /** One more call in the handler's history. */
  lemma CallExtends(
      h: Handler, base: seq<Event>, start: Store, modes: u32 -> bool, run: seq<Event>, e: Event)
    requires Positional(h, base, start, modes) && IsTransfer(run) && ProperRun(h, base, start, modes, run)
    requires e.Called? && InTransfer(e.request) && Proper(modes, Replay(h, base, start, run), e.request)
    ensures var (more, r) := (run + [e], e.request);
            var log := base + more;
            && IsTransfer(more) && ProperRun(h, base, start, modes, more)
            && Replay(h, base, start, more) == Effect(h, log, Replay(h, base, start, run), r)
            && Refusals(h, base, more) == Refusals(h, base, run) + (if Grants(h, log, r) then 0 else 1)
            && Honest(h, log, Replay(h, base, start, run), r)
            && AnswerLength(h, log, r) < TWO_32
            && (Willing(h, base, start, modes) && Grantable(Replay(h, base, start, run), r) ==> Grants(h, log, r))
  {
    hide Effect, Honest, Grants, AnswerLength, InTransfer, Store.Valid, Proper, Grantable;
    var more := run + [e];
    assert more[..|more| - 1] == run && more[|more| - 1] == e;
    assert IsTransfer(more) && ProperRun(h, base, start, modes, more);
    hide IsTransfer, ProperRun;
  }

  lemma CallIsShort(h: Handler, base: seq<Event>, run: seq<Event>, e: Event, path: Text)
    requires IsTransfer(run + [e]) && Brief(h, base, path)
    ensures Short(h, base + (run + [e]), e.request, path)
  {
    hide Short, InTransfer;
    var more := run + [e];
    assert more[|more| - 1] == e && more != [];
  }

  lemma OpenFits(h: Handler, log: seq<Event>, r: Request<Metadata>)
    requires InTransfer(r) && r.Open?
    ensures Grants(h, log, r) ==> AnswerLength(h, log, r) == 9 + |h.openFor(log).value|
    ensures Grants(h, log, r) <==> DirectCall(h, log, r).HandleOf?
  {
    hide Reported, AnswerLength;
    if Grants(h, log, r) {
      GrantedFits(h, log, r);
    }
  }

  lemma ReadFits(h: Handler, log: seq<Event>, st: Store, r: Request<Metadata>)
    requires InTransfer(r) && r.Read? && r.subject in st.handles && st.handles[r.subject].path in st.files
    ensures Grants(h, log, r) && Honest(h, log, st, r) ==> AnswerLength(h, log, r) <= MAX_SFTP_PACKET_SIZE
    ensures Grants(h, log, r) <==> DirectCall(h, log, r).BytesOf?
  {
    hide Reported, AnswerLength;
    if Grants(h, log, r) {
      GrantedFits(h, log, r);
    }
  }

  lemma ShortAnswer(h: Handler, log: seq<Event>, r: Request<Metadata>)
    requires InTransfer(r) && !r.Open? && !r.Read?
    ensures Grants(h, log, r) ==> AnswerLength(h, log, r) <= MAX_SFTP_PACKET_SIZE
    ensures Grants(h, log, r) <==> !DirectCall(h, log, r).Error?
  {
    hide Reported, AnswerLength;
    if Grants(h, log, r) {
      GrantedFits(h, log, r);
    }
  }

  // The transfer loops ----------------------------------------------------------------------------------------

  /** `read_to_vec`: a failing open, metadata or read is an error; a failing close is not. The
      vector is reserved by the reported size. */
  method ReadToVec(s: Session, path: Text) returns (r: Result<seq<u8>>)
    requires s.Valid() && s.Alive() && |path| < 0x8000_0000 && s.modes(READ)
    modifies s
    ensures s.Valid() && s.Remote().files == old(s.Remote()).files
    ensures r.Returned? ==> path in old(s.Remote()).files && r.value == old(s.Remote()).files[path]
    ensures r.Panicked? ==> path in old(s.Remote()).files && |old(s.Remote()).files[path]| > ISIZE_MAX
    ensures r.Erred? || r.Hung? ==> !s.Alive() || s.Refused() > old(s.Refused())
    ensures |path| > PATH_LIMIT ==> r.Hung?
    ensures Brief(s.handler, s.base, path) && |path| <= PATH_LIMIT ==> s.Alive() && !r.Hung?
    ensures Welcome(s.handler, s.base, s.start, s.modes, path) && path in old(s.Remote()).files ==> !r.Erred?
  {
    hide Positional, ProperRun, Brief, Willing, IsTransfer, Replay, Refusals, Idle, Readable, Creates, Truncates,
         Appends, Writable, Store.Valid;
    ReadMode();
    var acquired := s.Open(path, READ);
    if !acquired.Returned? {
      return if acquired.Hung? then Hung else Erred;
    }
    var handle := acquired.value;
    var meta := s.Metadata(handle);
    if !meta.Returned? {
      return if meta.Hung? then Hung else Erred;
    }
    ghost var file := s.Remote().files[path];
    if meta.value.size.Some? && meta.value.size.value > ISIZE_MAX {
      return Panicked;
    }
    var buf: seq<u8>, offset: u64 := [], 0;
    while true
      invariant s.Valid() && s.Alive() && s.Remote().files == old(s.Remote()).files
      invariant handle in s.Remote().handles && s.Remote().handles[handle] == Opened(path, READ)
      invariant s.Remote().files[path] == file
      invariant offset <= |file| && buf == file[..offset] && s.Refused() == old(s.Refused())
      decreases |file| - offset
    {
      var chunk := s.Read(handle, offset);
      if !chunk.Returned? {
        return if chunk.Hung? then Hung else Erred;
      }
      if chunk.value == [] {
        break;
      }
      assert file[..offset] + chunk.value == file[..offset + |chunk.value|];
      if |buf| + |chunk.value| > ISIZE_MAX {
        return Panicked;
      }
      offset := offset + |chunk.value|;
      buf := buf + chunk.value;
    }
    assert file[..offset] == file;
    var closed := s.Close(handle);
    return if closed.Hung? then Hung else Returned(buf);
  }

  lemma ReadMode()
    ensures Readable(READ) && !Creates(READ) && !Truncates(READ)
  {}

  /** The part of `data` that the first `k` chunks cover. */
  function Chunks(data: seq<u8>, k: nat): seq<u8> {
    data[..Min(k * SFTP_CHUNK_SIZE, |data|)]
  }

  /** `write_all`: it succeeds exactly when no call is refused and all of them fit; then the remote
      file is `data`. Otherwise nothing changed, or the file is a whole-chunk prefix of `data`.
      Other files are untouched either way. */
  method WriteAll(s: Session, path: Text, data: seq<u8>) returns (r: Result<()>)
    requires s.Valid() && s.Alive() && |path| < 0x8000_0000 && |data| <= ISIZE_MAX && s.modes(REPLACE)
    modifies s
    ensures s.Valid() && !r.Panicked?
    ensures r.Returned? <==> s.Alive() && s.Refused() == old(s.Refused())
    ensures s.Refused() >= old(s.Refused())
    ensures r.Returned? ==> s.Remote().files == old(s.Remote()).files[path := data]
    ensures !r.Returned? ==> s.Remote().files == old(s.Remote()).files
                             || exists k: nat :: s.Remote().files == old(s.Remote()).files[path := Chunks(data, k)]
    ensures |path| > PATH_LIMIT ==> r.Hung?
    ensures Brief(s.handler, s.base, path) && |path| <= PATH_LIMIT ==> s.Alive() && !r.Hung?
    ensures Welcome(s.handler, s.base, s.start, s.modes, path) ==> r.Returned?
  {
    hide WriteAt, Chunks, Positional, ProperRun, Brief, Willing, IsTransfer, Replay, Refusals, Idle;
    ghost var files := s.Remote().files;
    NoChunks(data);
    var acquired := s.Open(path, REPLACE);
    if !acquired.Returned? {
      return if acquired.Hung? then Hung else Erred;
    }
    var handle := acquired.value;
    var offset: u64 := 0;
    var k := 0;
    while offset < |data|
      invariant s.Valid() && s.Alive()
      invariant handle in s.Remote().handles && s.Remote().handles[handle] == Opened(path, REPLACE)
      invariant offset == Min(k * SFTP_CHUNK_SIZE, |data|)
      invariant s.Remote().files == files[path := Chunks(data, k)] && s.Refused() == old(s.Refused())
      decreases |data| - offset
    {
      var chunk := data[offset..Min(offset + SFTP_CHUNK_SIZE, |data|)];
      NextChunk(data, k, offset, chunk);
      var written := s.Write(handle, offset, chunk);
      if !written.Returned? {
        return if written.Hung? then Hung else Erred;
      }
      offset := offset + |chunk|;
      k := k + 1;
    }
    AllChunks(data, k);
    r := s.Close(handle);
  }

  lemma NoChunks(data: seq<u8>)
    ensures Chunks(data, 0) == []
  {}

  lemma AllChunks(data: seq<u8>, k: nat)
    requires k * SFTP_CHUNK_SIZE >= |data|
    ensures Chunks(data, k) == data
  {}

  lemma NextChunk(data: seq<u8>, k: nat, offset: nat, chunk: seq<u8>)
    requires offset == Min(k * SFTP_CHUNK_SIZE, |data|) < |data|
    requires chunk == data[offset..Min(offset + SFTP_CHUNK_SIZE, |data|)]
    ensures 0 < |chunk| <= SFTP_CHUNK_SIZE && offset + |chunk| == Min((k + 1) * SFTP_CHUNK_SIZE, |data|)
    ensures WriteAt(Chunks(data, k), offset, chunk) == Chunks(data, k + 1)
  {
    assert (k + 1) * SFTP_CHUNK_SIZE == k * SFTP_CHUNK_SIZE + SFTP_CHUNK_SIZE;
  }

  /** Upload then download is the identity, unless the handler refuses a call or a packet is over
      the limit. */
  method UploadThenDownload(s: Session, path: Text, data: seq<u8>) returns (r: Result<seq<u8>>)
    requires s.Valid() && s.Alive() && |path| < 0x8000_0000 && |data| <= ISIZE_MAX
    requires s.modes(READ) && s.modes(REPLACE)
    modifies s
    ensures s.Valid() && !r.Panicked?
    ensures r.Returned? ==> r.value == data && s.Remote().files == old(s.Remote()).files[path := data]
    ensures !r.Returned? ==> !s.Alive() || s.Refused() > old(s.Refused())
    ensures Brief(s.handler, s.base, path) && |path| <= PATH_LIMIT ==> s.Alive() && !r.Hung?
    ensures Welcome(s.handler, s.base, s.start, s.modes, path) ==> r.Returned?
  {
    hide Positional, ProperRun, Brief, Willing, IsTransfer, Replay, Refusals, Idle;
    var written := WriteAll(s, path, data);
    if !written.Returned? {
      return if written.Hung? then Hung else Erred;
    }
    r := ReadToVec(s, path);
  }
}
