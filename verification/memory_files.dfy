/**
 A handler that keeps its files in memory, as the integration tests have one: it serves files by
 position, so the transfer theorems hold of it from any point of its history on.
 */
module MemoryFiles {
  import opened Bytes
  import opened Codec
  import opened Attributes
  import opened Packets
  import opened Responses
  import opened SftpServer
  import opened Answering
  import opened SftpClient
  import opened Pipeline
  import opened Exchange
  import opened Transfer

  predicate Writes(mode: u32) {
    mode / 0x2 % 2 == 1 || mode / 0x8 % 2 == 1
  }

  predicate OpenFile(st: Store, handle: Text) {
    handle in st.handles && st.handles[handle].path in st.files
  }

  /** Whether the call succeeds on the files it finds. */
  predicate Succeeds(st: Store, r: Request<Metadata>) {
    match r
    case Open(path, mode, _) => Writes(mode) || path in st.files
    case Read(handle, _, _) => OpenFile(st, handle)
    case Write(handle, offset, data) => OpenFile(st, handle) && offset + |data| < 0x1_0000_0000_0000_0000
    case Fstat(handle) => OpenFile(st, handle)
    case Close(_) => true
    case _ => false
  }

  /** The files after the call. A handle is the path it was opened for. */
  function Next(st: Store, r: Request<Metadata>): Store {
    if !Succeeds(st, r) then st else
      match r
      case Open(path, mode, _) =>
        Store(if Writes(mode) then st.files[path := []] else st.files, st.handles[path := Opened(path, mode)])
      case Write(handle, offset, data) =>
        st.(files := st.files[st.handles[handle].path := WriteAt(st.File(handle), offset, data)])
      case Close(handle) => st.(handles := st.handles - {handle})
      case _ => st
  }

  function Kept(log: seq<Event>): Store
    decreases |log|
  {
    if log == [] then Store(map[], map[]) else
      var st, e := Kept(log[..|log| - 1]), log[|log| - 1];
      if e.Called? then Next(st, e.request) else st
  }

  function Slice(file: seq<u8>, offset: nat, len: nat): seq<u8> {
    if offset >= |file| then [] else file[offset..Min(offset + len, |file|)]
  }

  /** The outcome of the last call of `log`. */
  function Attempted<T>(log: seq<Event>, f: (Store, Request<Metadata>) -> T): Outcome<T> {
    if log == [] || !log[|log| - 1].Called? then Refused(Sftp(Unsupported, [])) else
      var st, r := Kept(log[..|log| - 1]), log[|log| - 1].request;
      if Succeeds(st, r) then Done(f(st, r)) else Refused(Sftp(NoSuchFile, []))
  }

  function DataOf(st: Store, r: Request<Metadata>): seq<u8> {
    if r.Read? && OpenFile(st, r.subject) then Slice(st.File(r.subject), r.offset, r.len) else []
  }

  function SizeOf(st: Store, r: Request<Metadata>): Metadata {
    if OpenFile(st, r.subject) && |st.File(r.subject)| < 0x1_0000_0000_0000_0000 then
      NoAttrs().(size := Some(|st.File(r.subject)|))
    else NoAttrs()
  }

  const IN_MEMORY := Handler(
    log => Done(3),
    log => Attempted(log, (st, r: Request<Metadata>) => r.subject),
    log => Attempted(log, (st, r) => ()),
    log => Attempted(log, DataOf),
    log => Refused(Sftp(Unsupported, [])),
    log => Attempted(log, SizeOf))

  lemma NextValid(st: Store, r: Request<Metadata>)
    requires st.Valid()
    ensures Next(st, r).Valid()
  {
    if r.Write? && Succeeds(st, r) {
      WriteAtBytes(st.File(r.subject), r.offset, r.data);
    }
    hide WriteAt;
  }

  /** What a positional write leaves, byte by byte. */
  lemma WriteAtBytes(file: seq<u8>, offset: nat, data: seq<u8>)
    ensures var out := WriteAt(file, offset, data);
            && |out| == Max(|file|, offset + |data|)
            && forall i :: 0 <= i < |out| ==>
                 out[i] == if offset <= i < offset + |data| then data[i - offset]
                           else if i < |file| then file[i] else 0
  {}

  /** The modes whose bits the handler honours: it takes every mode with WRITE or CREATE for one that
      creates and empties, and no other. */
  predicate Honoured(mode: u32) {
    if Writes(mode) then Creates(mode) && Truncates(mode) else !Truncates(mode)
  }

  /** These are exactly the modes: an existing file with contents is treated as the bits say if and
      only if TRUNCATE goes with writing; a missing one if and only if CREATE does. */
  lemma OpenModes(log: seq<Event>, id: u32, path: Text, mode: u32)
    requires |path| < 0x8000_0000
    ensures var (r, all) := (Request.Open(path, mode, NoAttrs()),
                             log + [Called(id, Request.Open(path, mode, NoAttrs()))]);
            && (path in Kept(log).files && Kept(log).files[path] != [] ==>
                  (Effect(IN_MEMORY, all, Kept(log), r).files == Kept(all).files <==> Writes(mode) == Truncates(mode)))
            && (path !in Kept(log).files ==>
                  (Honest(IN_MEMORY, all, Kept(log), r) <==> (Writes(mode) ==> Creates(mode))))
  {
    var all := log + [Called(id, Request.Open(path, mode, NoAttrs()))];
    assert all[..|all| - 1] == log && all[|all| - 1] == Called(id, Request.Open(path, mode, NoAttrs()));
    if path in Kept(log).files {
      assert Kept(log).files[path := []][path] == [];
    }
    hide Creates, Truncates, Writes;
  }

  lemma {:induction false} KeptValid(log: seq<Event>)
    ensures Kept(log).Valid()
    decreases |log|
  {
    hide Next;
    if log == [] {
    } else {
      KeptValid(log[..|log| - 1]);
      if log[|log| - 1].Called? {
        NextValid(Kept(log[..|log| - 1]), log[|log| - 1].request);
      }
    }
  }

  /** One proper transfer call has the effect and the honesty of a positional handler. */
  lemma CallIsPositional(log: seq<Event>, e: Event)
    requires e.Called? && InTransfer(e.request) && Proper(Honoured, Kept(log), e.request)
    ensures Effect(IN_MEMORY, log + [e], Kept(log), e.request) == Kept(log + [e])
    ensures Honest(IN_MEMORY, log + [e], Kept(log), e.request)
    ensures Grantable(Kept(log), e.request) ==> Grants(IN_MEMORY, log + [e], e.request)
  {
    hide Effect, Honest, Kept, Grants, Grantable, InTransfer, Proper;
    CallEffect(log, e);
    CallHonest(log, e);
    if Grantable(Kept(log), e.request) {
      CallGranted(log, e);
    }
  }

  lemma CallEffect(log: seq<Event>, e: Event)
    requires e.Called? && InTransfer(e.request) && Proper(Honoured, Kept(log), e.request)
    ensures Effect(IN_MEMORY, log + [e], Kept(log), e.request) == Kept(log + [e])
  {
    hide WriteAt, Store.Valid, Truncates, Readable, Writable, Kept, DataOf, SizeOf;
    GrantsAsKept(log, e);
    NextKept(log, e);
  }

  lemma CallHonest(log: seq<Event>, e: Event)
    requires e.Called? && InTransfer(e.request) && Proper(Honoured, Kept(log), e.request)
    ensures Honest(IN_MEMORY, log + [e], Kept(log), e.request)
  {
    hide WriteAt, Store.Valid, Truncates, Readable, Writable, Kept, Next;
    GrantsAsKept(log, e);
    KeptFiles(log);
  }

  lemma CallGranted(log: seq<Event>, e: Event)
    requires e.Called? && InTransfer(e.request) && Proper(Honoured, Kept(log), e.request)
    requires Grantable(Kept(log), e.request)
    ensures Grants(IN_MEMORY, log + [e], e.request)
  {
    hide WriteAt, Store.Valid, Truncates, Readable, Writable, Kept, Next, DataOf, SizeOf;
    GrantsAsKept(log, e);
    KeptFiles(log);
  }

  lemma NextKept(log: seq<Event>, e: Event)
    requires e.Called?
    ensures Kept(log + [e]) == Next(Kept(log), e.request)
  {
    assert (log + [e])[..|log|] == log;
  }

  lemma KeptFiles(log: seq<Event>)
    ensures forall h :: h in Kept(log).handles ==>
              OpenFile(Kept(log), h) && |Kept(log).File(h)| < 0x1_0000_0000_0000_0000
  {
    KeptValid(log);
    hide Kept;
  }

  /** The outcomes of a call, from the files kept. */
  lemma GrantsAsKept(log: seq<Event>, e: Event)
    requires e.Called?
    ensures var (all, st, r) := (log + [e], Kept(log), e.request);
            if Succeeds(st, r) then
              && IN_MEMORY.openFor(all) == Done(r.subject) && IN_MEMORY.doneFor(all) == Done(())
              && IN_MEMORY.readFor(all) == Done(DataOf(st, r)) && IN_MEMORY.statFor(all) == Done(SizeOf(st, r))
            else IN_MEMORY.openFor(all).Refused? && IN_MEMORY.doneFor(all).Refused?
                 && IN_MEMORY.readFor(all).Refused? && IN_MEMORY.statFor(all).Refused?
  {
    hide Kept, Succeeds, DataOf, SizeOf;
    assert (log + [e])[..|log|] == log && (log + [e])[|log|] == e;
  }

  /** Its answer is a handle as long as the path, or fits a packet. */
  lemma CallIsBrief(log: seq<Event>, e: Event)
    requires e.Called? && InTransfer(e.request)
    ensures AnswerLength(IN_MEMORY, log + [e], e.request) < TWO_32
    ensures if Grants(IN_MEMORY, log + [e], e.request) then
              e.request.Open? ==> IN_MEMORY.openFor(log + [e]).value == e.request.subject
            else AnswerLength(IN_MEMORY, log + [e], e.request) <= MAX_SFTP_PACKET_SIZE
  {
    var all := log + [e];
    assert all[..|all| - 1] == log && all[|all| - 1] == e;
    hide Kept, AnswerLength, Succeeds;
    if Grants(IN_MEMORY, all, e.request) {
      GrantedFits(IN_MEMORY, all, e.request);
    } else {
      RefusalIsShort(all, e.request);
    }
  }

  lemma RefusalIsShort(log: seq<Event>, r: Request<Metadata>)
    requires InTransfer(r) && !Grants(IN_MEMORY, log, r)
    ensures AnswerLength(IN_MEMORY, log, r) <= MAX_SFTP_PACKET_SIZE
  {
    hide Respond, ErrorStatus, ResponsePayload, Grants;
    RefusedQuietly(log, r);
    ErrorIsShort(Unsupported);
    ErrorIsShort(NoSuchFile);
  }

  lemma RefusedQuietly(log: seq<Event>, r: Request<Metadata>)
    requires InTransfer(r) && !Grants(IN_MEMORY, log, r)
    ensures Respond(IN_MEMORY, log, r) == ErrorStatus(Sftp(Unsupported, []))
            || Respond(IN_MEMORY, log, r) == ErrorStatus(Sftp(NoSuchFile, []))
  {
    hide ErrorStatus, Kept, Succeeds, Ascii;
  }

  lemma ErrorIsShort(kind: ErrorKind)
    ensures |ResponsePayload(0, ErrorStatus(Sftp(kind, [])))| <= 64
  {
    hide U32Bytes;
  }

  lemma {:induction false} ReplayIsKept(base: seq<Event>, run: seq<Event>)
    requires IsTransfer(run) && ProperRun(IN_MEMORY, base, Kept(base), Honoured, run)
    ensures Replay(IN_MEMORY, base, Kept(base), run) == Kept(base + run)
    decreases |run|
  {
    hide Kept, Effect;
    if run == [] {
      assert base + run == base;
    } else {
      var before, e := run[..|run| - 1], run[|run| - 1];
      ReplayIsKept(base, before);
      assert base + run == (base + before) + [e];
      CallIsPositional(base + before, e);
    }
  }

  /** The last call of a proper run, answered from the files kept. */
  lemma LastCall(base: seq<Event>, run: seq<Event>)
    requires IsTransfer(run) && run != [] && ProperRun(IN_MEMORY, base, Kept(base), Honoured, run)
    ensures var (st, r) := (Replay(IN_MEMORY, base, Kept(base), run[..|run| - 1]), run[|run| - 1].request);
            && Honest(IN_MEMORY, base + run, st, r) && AnswerLength(IN_MEMORY, base + run, r) < TWO_32
            && (Grantable(st, r) ==> Grants(IN_MEMORY, base + run, r))
  {
    hide Kept, Honest, Replay, Effect, AnswerLength, Grants, Grantable, InTransfer;
    var before, e := run[..|run| - 1], run[|run| - 1];
    ReplayIsKept(base, before);
    assert base + run == (base + before) + [e];
    CallIsPositional(base + before, e);
    CallIsBrief(base + before, e);
  }

  lemma InMemoryIsPositional(base: seq<Event>)
    ensures Positional(IN_MEMORY, base, Kept(base), Honoured)
    ensures Willing(IN_MEMORY, base, Kept(base), Honoured)
  {
    hide Kept, Honest, Replay, Effect, AnswerLength, Grants, Grantable, ProperRun, InTransfer;
    forall run: seq<Event> | IsTransfer(run) && ProperRun(IN_MEMORY, base, Kept(base), Honoured, run)
      ensures Replay(IN_MEMORY, base, Kept(base), run).Valid()
    {
      ReplayIsKept(base, run);
      KeptValid(base + run);
    }
    forall run: seq<Event> | IsTransfer(run) && ProperRun(IN_MEMORY, base, Kept(base), Honoured, run) && run != []
      ensures var (st, r) := (Replay(IN_MEMORY, base, Kept(base), run[..|run| - 1]), run[|run| - 1].request);
              && Honest(IN_MEMORY, base + run, st, r) && AnswerLength(IN_MEMORY, base + run, r) < TWO_32
              && (Grantable(st, r) ==> Grants(IN_MEMORY, base + run, r))
    {
      LastCall(base, run);
    }
  }

  /** For a path that leaves room for a chunk, no packet of a transfer is over the limit. */
  lemma InMemoryIsBrief(base: seq<Event>, path: Text)
    requires |path| <= HANDLE_LIMIT
    ensures Brief(IN_MEMORY, base, path)
  {
    hide Kept, Honest, Replay, Effect, AnswerLength, Attempted, InTransfer;
    forall run: seq<Event> | IsTransfer(run) && run != []
      ensures Short(IN_MEMORY, base + run, run[|run| - 1].request, path)
    {
      var before, e := run[..|run| - 1], run[|run| - 1];
      assert base + run == (base + before) + [e];
      CallIsBrief(base + before, e);
    }
  }

  /** A longer path can still be opened for replacing, which empties the file ... */
  lemma LongPathOpens(l: Link, path: Text, up: seq<seq<u8>>, down: seq<seq<u8>>)
    requires Idle(l) && |path| <= PATH_LIMIT
    requires Carries(IN_MEMORY, l, Request.Open(path, REPLACE, NoAttrs()), up, down)
    ensures TableOk(l.client)
    ensures var l' := Exchanged(IN_MEMORY, l, Request.Open(path, REPLACE, NoAttrs()), up, down);
            && Idle(l') && |l'.client.slots| == |l.client.slots| + 1
            && l'.client.slots[|l.client.slots|].results == [Got(Handle(path))]
            && path in Kept(l'.conn.server.log).files && Kept(l'.conn.server.log).files[path] == []
  {
    hide Exchanged, ReceiveAll, PacketOf, Concat, ResponsePayload, Body, Kept, Delivered, Request<Metadata>.Map;
    var request := Request.Open(path, REPLACE, NoAttrs());
    var log := l.conn.server.log + [Called(l.client.nextId, request)];
    ReplaceGranted(l.conn.server.log, l.client.nextId, path);
    SeenAsMade(request);
    BodyLength(l.client.nextId, request);
    hide Respond, IsTransfer;
    FittingExchange(IN_MEMORY, l, request, up, down);
  }

  lemma ReplaceGranted(log: seq<Event>, id: u32, path: Text)
    requires |path| <= PATH_LIMIT
    ensures var (r, all) := (Request.Open(path, REPLACE, NoAttrs()),
                             log + [Called(id, Request.Open(path, REPLACE, NoAttrs()))]);
            && Respond(IN_MEMORY, all, r) == Handle(path) && AnswerLength(IN_MEMORY, all, r) <= MAX_SFTP_PACKET_SIZE
            && path in Kept(all).files && Kept(all).files[path] == []
  {
    var r := Request.Open(path, REPLACE, NoAttrs());
    var all := log + [Called(id, r)];
    assert all[..|all| - 1] == log && all[|all| - 1].request == r;
    assert Writes(REPLACE);
    hide AnswerLength;
    GrantedFits(IN_MEMORY, all, r);
  }

  /** ... but with the handle as long as the path, the first full chunk is over the limit: the
      server drops the channel, and the upload never returns. */
  lemma LongPathHangs(h: Handler, l: Link, path: Text, data: seq<u8>, up: seq<seq<u8>>, down: seq<seq<u8>>)
    requires Idle(l) && HANDLE_LIMIT < |path| <= PATH_LIMIT && |data| == SFTP_CHUNK_SIZE
    requires Carries(h, l, Request.Write(path, 0, data), up, down)
    ensures TableOk(l.client)
    ensures var l' := Exchanged(h, l, Request.Write(path, 0, data), up, down);
            && l'.conn == l.conn.(buffer := None)
            && |l'.client.slots| == |l.client.slots| + 1 && l'.client.slots[|l.client.slots|].results == []
  {
    hide Exchanged, ReceiveAll, PacketOf, Concat, Body;
    BodyLength(l.client.nextId, Request.Write(path, 0, data));
    LongRequestHangs(h, l, Request.Write(path, 0, data), up, down);
  }
}
