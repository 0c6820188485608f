/**
 Client and server joined by two byte pipes. Callers, the write task, the server and the read
 task take steps in any order, and each pipe hands over its bytes in chunks of any size.

 The main theorem: whenever everything sent has been delivered, every request has completed
 exactly once, with the handler's answer to that very request, and the pending table is empty.
 */
module Pipeline {
  import opened Bytes
  import opened Codec
  import opened Attributes
  import opened Packets
  import opened Responses
  import opened Frames
  import opened SftpServer
  import opened Answering
  import opened SftpClient

  /** `up` and `down` are the bytes in flight towards the server and the client. */
  datatype World = World(client: Client, up: seq<u8>, conn: Conn, down: seq<u8>)

  datatype WorldStep =
    | Call(request: Request<Metadata>)
    | Register(slot: nat)
    | Queue(slot: nat)
    | ClientWrite
    | ServerRecv(n: nat)
    | ClientRecv(n: nat)
    | ClientCut

  /** After the handshake, with an empty channel buffer and nothing in flight. */
  function Joined(sv: Server): World {
    World(START, [], Conn(sv, Some([]), []), [])
  }

  function PacketOf(i: Issue): seq<u8> {
    EncodeRequest(i.id, i.request.Map(ToPacket))
  }

  predicate Possible(w: World, st: WorldStep) {
    match st
    case Call(request) => |w.client.slots| < MAX_CALLS && Sendable(Issue(w.client.nextId, request))
    case Register(t) => Enabled(w.client, Insert(t))
    case Queue(t) => Enabled(w.client, Enqueue(t, true))
    case ClientWrite =>
      Enabled(w.client, Step.Write) && w.client.enqueued[w.client.written] < |w.client.slots|
    case ServerRecv(n) => n <= |w.up|
    case ClientRecv(n) => n <= |w.down| && Enabled(w.client, Arrive(w.down[..n]))
    case ClientCut => Enabled(w.client, Cut)
  }

  function Next(h: Handler, w: World, st: WorldStep): World
    requires TableOk(w.client) && Possible(w, st)
  {
    hide Receive, PacketOf, NextFrame, Sendable, TableOk;
    match st
    case Call(request) => w.(client := Apply(w.client, TakeId(request)))
    case Register(t) => w.(client := Apply(w.client, Insert(t)))
    case Queue(t) => w.(client := Apply(w.client, Enqueue(t, true)))
    case ClientWrite =>
      w.(client := Apply(w.client, Step.Write),
         up := w.up + PacketOf(w.client.slots[w.client.enqueued[w.client.written]].issue))
    case ServerRecv(n) =>
      var conn := Receive(h, w.conn, w.up[..n]);
      w.(up := w.up[n..], conn := conn.(out := []), down := w.down + Concat(conn.out))
    case ClientRecv(n) => w.(client := Apply(w.client, Arrive(w.down[..n])), down := w.down[n..])
    case ClientCut => w.(client := Apply(w.client, Cut))
  }

  ghost predicate IsHistory(h: Handler, w: World, steps: seq<WorldStep>)
    decreases |steps|
  {
    TableOk(w.client)
    && (steps == [] || (Possible(w, steps[0]) && IsHistory(h, Next(h, w, steps[0]), steps[1..])))
  }

  ghost function Reached(h: Handler, w: World, steps: seq<WorldStep>): World
    requires IsHistory(h, w, steps)
    decreases |steps|
  {
    if steps == [] then w else Reached(h, Next(h, w, steps[0]), steps[1..])
  }

  // Answers that fit the protocol -----------------------------------------------------------------

  /** The answer fits one frame, and a NAME batch has 16 bytes per entry. */
  predicate Moderate(r: Response) {
    1 + |ResponsePayload(0, r)| <= MAX_SFTP_PACKET_SIZE
    && (r.Name? ==> |PushEntries(r.entries)| >= 16 * |r.entries|)
  }

  /** Every answer that the handler gave from its `n`th event on is moderate. */
  predicate ModerateLog(h: Handler, n: nat, log: seq<Event>) {
    forall i :: n <= i < |log| && log[i].Called? ==> Moderate(Respond(h, log[..i + 1], log[i].request))
  }

  lemma ModeratePrefix(h: Handler, n: nat, log: seq<Event>, log': seq<Event>)
    requires ModerateLog(h, n, log') && log <= log'
    ensures ModerateLog(h, n, log)
  {
    hide Moderate, Respond;
    forall i | n <= i < |log| && log[i].Called?
      ensures Moderate(Respond(h, log[..i + 1], log[i].request))
    {
      assert log'[..i + 1] == log[..i + 1];
    }
  }

  /** In terms of the requests that were seen. */
  lemma ModerateAnswer(h: Handler, log: seq<Event>, issues: seq<Issue>, k: nat, i: nat)
    requires i < k <= |issues| && ModerateLog(h, |log|, log + SeenAll(issues[..k]))
    ensures Moderate(Answer(h, log, issues, i))
  {
    hide Moderate, Respond, Delivered, Request<Metadata>.Map;
    var seen, n := log + SeenAll(issues[..k]), |log| + i;
    assert seen[n] == Seen(issues[i]);
    assert seen[..n + 1] == log + SeenAll(issues[..i + 1]);
  }

  lemma {:induction false} EntrySizes(es: seq<NameEntry>, i: nat)
    requires i < |es|
    ensures |es[i].filename| + |es[i].longname| <= |PushEntries(es)|
  {
    hide U32Bytes, PushAttrs;
    if i > 0 {
      EntrySizes(es[1..], i - 1);
    }
  }

  lemma AttrsAreNormal(h: Handler, log: seq<Event>, request: Request<Metadata>)
    ensures var r := Respond(h, log, request);
            && (r.Attrs? ==> InNormalForm(r.attrs) && !HasExtended(r.attrs.flags))
            && (r.Name? ==> forall i :: 0 <= i < |r.entries| ==>
                  InNormalForm(r.entries[i].attrs) && !HasExtended(r.entries[i].attrs.flags))
  {
    hide ToPacket, ToNameEntries, DefaultMessage, StatusCode, InNormalForm, HasExtended, Ascii;
  }

  lemma ModerateFits(h: Handler, log: seq<Event>, request: Request<Metadata>)
    requires Moderate(Respond(h, log, request))
    ensures ResponseFits(Respond(h, log, request))
  {
    hide U32Bytes, U32Of, PushAttrs, InNormalForm, HasExtended, PushEntries, Respond, Ascii;
    AttrsAreNormal(h, log, request);
    var r := Respond(h, log, request);
    if r.Name? {
      forall i | 0 <= i < |r.entries|
        ensures EntryFits(r.entries[i])
      {
        EntrySizes(r.entries, i);
      }
    }
  }

  // Responses on the wire ---------------------------------------------------------------------------

  function ReplyBody(h: Handler, log: seq<Event>, issues: seq<Issue>, i: nat): seq<u8>
    requires i < |issues|
  {
    var r := Answer(h, log, issues, i);
    [ResponseType(r)] + ResponsePayload(issues[i].id, r)
  }

  function Replies(h: Handler, log: seq<Event>, issues: seq<Issue>): (bs: seq<seq<u8>>)
    ensures |bs| == |issues|
    ensures forall i :: 0 <= i < |issues| ==> bs[i] == ReplyBody(h, log, issues, i)
  {
    hide ReplyBody;
    seq(|issues|, i requires 0 <= i < |issues| => ReplyBody(h, log, issues, i))
  }

  /** The response packets for issues `j` up to `k`. */
  function ReplyBodies(h: Handler, log: seq<Event>, issues: seq<Issue>, j: nat, k: nat): (bs: seq<seq<u8>>)
    requires j <= k <= |issues|
    ensures |bs| == k - j
  {
    Replies(h, log, issues)[j..k]
  }

  lemma ReplyIsFramed(h: Handler, log: seq<Event>, issues: seq<Issue>, i: nat)
    requires i < |issues| && Moderate(Answer(h, log, issues, i))
    ensures ValidBody(ReplyBody(h, log, issues, i))
    ensures EncodeResponse(issues[i].id, Answer(h, log, issues, i)) == FrameOf(ReplyBody(h, log, issues, i))
    ensures DecodePacket(ReplyBody(h, log, issues, i)) == Reply(issues[i].id, Answer(h, log, issues, i))
  {
    hide U32Bytes, U32Of, Respond, ResponseBody, DecodePacket, ResponseFits, SeenAll;
    var r := Answer(h, log, issues, i);
    ModerateFits(h, log + SeenAll(issues[..i + 1]), Seen(issues[i]).request);
    DecodeEncoded(issues[i].id, r);
    assert EncodeResponse(issues[i].id, r)[4..] == ReplyBody(h, log, issues, i);
  }

  lemma RepliesValid(h: Handler, log: seq<Event>, issues: seq<Issue>, k: nat)
    requires k <= |issues| && ModerateLog(h, |log|, log + SeenAll(issues[..k]))
    ensures ValidBodies(Replies(h, log, issues)[..k])
  {
    hide Replies, ReplyBody, ValidBody, Moderate, ModerateLog, Answer;
    forall i | 0 <= i < k
      ensures ValidBody(Replies(h, log, issues)[..k][i])
    {
      ModerateAnswer(h, log, issues, k, i);
      ReplyIsFramed(h, log, issues, i);
    }
  }

  /** The frames that the server sends for a batch are the wire form of its replies. */
  lemma {:induction false} AnswersAreWire(h: Handler, log: seq<Event>, issues: seq<Issue>, j: nat, k: nat)
    requires j <= k <= |issues| && ModerateLog(h, |log|, log + SeenAll(issues[..k]))
    ensures ValidBodies(ReplyBodies(h, log, issues, j, k))
    ensures Concat(Answers(h, log, issues)[j..k]) == Wire(ReplyBodies(h, log, issues, j, k))
    decreases k - j
  {
    hide ReplyBody, FrameOf, ValidBody, Moderate, ModerateLog, Answer, EncodeResponse, Answers, Replies, SeenAll;
    RepliesValid(h, log, issues, k);
    var sent, bodies := Answers(h, log, issues), Replies(h, log, issues);
    assert bodies[j..k] == bodies[..k][j..];
    if j < k {
      AnswersAreWire(h, log, issues, j + 1, k);
      ModerateAnswer(h, log, issues, k, j);
      ReplyIsFramed(h, log, issues, j);
      assert sent[j..k][1..] == sent[j + 1..k];
      assert bodies[j..k][1..] == bodies[j + 1..k];
    } else {
      assert sent[j..k] == [];
    }
  }

  // Invariant ---------------------------------------------------------------------------------------

  /** Write-queue bookkeeping: every queued call appears once, in `enqueued`; calls not yet queued
      have no result. */
  predicate QueueOk(c: Client) {
    c.written <= |c.enqueued|
    && (forall i :: 0 <= i < |c.enqueued| ==>
          c.enqueued[i] < |c.slots| && c.slots[c.enqueued[i]].inserted && c.slots[c.enqueued[i]].queued)
    && (forall i, j :: 0 <= i < j < |c.enqueued| ==> c.enqueued[i] != c.enqueued[j])
    && (forall t :: 0 <= t < |c.slots| ==> CallOk(c, t))
  }

  predicate CallOk(c: Client, t: nat)
    requires t < |c.slots|
  {
    Sendable(c.slots[t].issue)
    && (if c.slots[t].queued then t in c.enqueued else c.slots[t].results == [])
  }

  /** The requests of some calls, in the order given. */
  function IssuesAt(slots: seq<Slot>, order: seq<nat>): (issues: seq<Issue>)
    requires forall i :: 0 <= i < |order| ==> order[i] < |slots|
    ensures |issues| == |order|
    ensures forall i :: 0 <= i < |issues| ==> issues[i] == slots[order[i]].issue
  {
    seq(|order|, i requires 0 <= i < |order| => slots[order[i]].issue)
  }

  /** The requests in the order they reach the wire. */
  function Issues(c: Client): (issues: seq<Issue>)
    requires QueueOk(c)
    ensures |issues| == |c.enqueued|
    ensures forall i :: 0 <= i < |issues| ==> issues[i] == c.slots[c.enqueued[i]].issue
  {
    hide CallOk;
    IssuesAt(c.slots, c.enqueued)
  }

  ghost predicate ClientOk(c: Client) {
    Safe(c) && |c.slots| <= MAX_CALLS && c.reading && c.writing && QueueOk(c)
  }

  /** The first `j` requests on the wire have their answers; the others have nothing yet. */
  ghost predicate ResultsOk(h: Handler, log: seq<Event>, c: Client, issues: seq<Issue>, j: nat) {
    |issues| == |c.enqueued|
    && forall i :: 0 <= i < |c.enqueued| ==>
         c.enqueued[i] < |c.slots|
         && c.slots[c.enqueued[i]].results == if i < j then [Got(Answer(h, log, issues, i))] else []
  }

  /** The bytes between the two ends: `written` of `issues` are on their way or have arrived. */
  datatype Flow = Flow(issues: seq<Issue>, written: nat, conn: Conn, up: seq<u8>, buf: seq<u8>, down: seq<u8>)

  /** `k` requests have reached the handler and `j` answers their callers; what lies between is,
      in order, in the two buffers and the two pipes. */
  ghost predicate FlowOk(h: Handler, sv: Server, f: Flow, k: nat, j: nat) {
    && AllSendable(f.issues) && j <= k <= f.written <= |f.issues|
    && f.conn.buffer.Some? && f.conn.out == []
    && f.conn.server == sv.(log := sv.log + SeenAll(f.issues[..k]))
    && NextFrame(f.conn.buffer.value).More?
    && f.conn.buffer.value + f.up == Wire(Bodies(f.issues[k..f.written]))
    && ValidBodies(ReplyBodies(h, sv.log, f.issues, j, k))
    && f.buf + f.down == Wire(ReplyBodies(h, sv.log, f.issues, j, k))
  }

  function FlowOf(w: World): Flow
    requires QueueOk(w.client)
  {
    Flow(Issues(w.client), w.client.written, w.conn, w.up, w.client.buf, w.down)
  }

  ghost predicate Inv(h: Handler, sv: Server, w: World, k: nat, j: nat) {
    ClientOk(w.client) && FlowOk(h, sv, FlowOf(w), k, j)
    && ResultsOk(h, sv.log, w.client, Issues(w.client), j)
  }

  lemma InvStarts(h: Handler, sv: Server)
    ensures Inv(h, sv, Joined(sv), 0, 0)
  {
    hide Answer, ReplyBody, Body, Sendable, U32Of;
    var c := START;
    assert Issues(c) == [] && SeenAll([]) == [] && sv.log + [] == sv.log;
    assert Bodies([]) == [];
  }

  // The bytes in flight -----------------------------------------------------------------------------

  /** An answer depends only on what came before it on the wire. */
  lemma AnswerStable(h: Handler, log: seq<Event>, issues: seq<Issue>, more: seq<Issue>, i: nat)
    requires i < |issues|
    ensures Answer(h, log, issues + more, i) == Answer(h, log, issues, i)
  {
    assert (issues + more)[..i + 1] == issues[..i + 1];
  }

  lemma RepliesStable(h: Handler, log: seq<Event>, issues: seq<Issue>, more: seq<Issue>, j: nat, k: nat)
    requires j <= k <= |issues|
    ensures ReplyBodies(h, log, issues + more, j, k) == ReplyBodies(h, log, issues, j, k)
  {
    hide Answer, Replies;
    var all, some := Replies(h, log, issues + more), Replies(h, log, issues);
    forall i | 0 <= i < |issues|
      ensures all[i] == some[i]
    {
      AnswerStable(h, log, issues, more, i);
    }
    assert all[j..k] == some[j..k];
  }

  lemma QueueKeepsFlow(h: Handler, sv: Server, f: Flow, x: Issue, k: nat, j: nat)
    requires FlowOk(h, sv, f, k, j) && Sendable(x)
    ensures FlowOk(h, sv, f.(issues := f.issues + [x]), k, j)
  {
    hide Answer, Wire, Bodies, SeenAll, ReplyBodies, NextFrame, Sendable;
    assert (f.issues + [x])[..k] == f.issues[..k];
    assert (f.issues + [x])[k..f.written] == f.issues[k..f.written];
    RepliesStable(h, sv.log, f.issues, [x], j, k);
  }

  lemma WireGrows(issues: seq<Issue>, last: Issue)
    requires AllSendable(issues) && Sendable(last)
    ensures AllSendable(issues + [last])
    ensures Wire(Bodies(issues + [last])) == Wire(Bodies(issues)) + PacketOf(last)
  {
    EncodedIsFramed(last);
    hide Sendable, Body, FrameOf, ValidBody;
    assert Bodies(issues + [last]) == Bodies(issues) + [Body(last)];
    WireAppend(Bodies(issues), [Body(last)]);
    assert [Body(last)][1..] == [];
    assert Wire([Body(last)]) == FrameOf(Body(last)) + Wire([]);
  }

  lemma SendableSlice(issues: seq<Issue>, k: nat, n: nat)
    requires AllSendable(issues) && k <= n < |issues|
    ensures AllSendable(issues[k..n]) && Sendable(issues[n]) && issues[k..n] + [issues[n]] == issues[k..n + 1]
  {
    hide Sendable;
  }

  lemma WriteKeepsFlow(h: Handler, sv: Server, f: Flow, k: nat, j: nat)
    requires FlowOk(h, sv, f, k, j) && f.written < |f.issues|
    ensures FlowOk(h, sv, f.(written := f.written + 1, up := f.up + PacketOf(f.issues[f.written])), k, j)
  {
    hide Answer, SeenAll, ReplyBodies, NextFrame, Sendable, Bodies, Wire, PacketOf, ValidBodies;
    var n := f.written;
    SendableSlice(f.issues, k, n);
    hide AllSendable;
    WireGrows(f.issues[k..n], f.issues[n]);
    AppendAssociates(f.conn.buffer.value, f.up, PacketOf(f.issues[n]));
  }

  lemma SeenSplit(log: seq<Event>, issues: seq<Issue>, k: nat, k': nat)
    requires k <= k' <= |issues|
    ensures log + SeenAll(issues[..k']) == (log + SeenAll(issues[..k])) + SeenAll(issues[k..k'])
  {
    hide Seen;
    assert issues[..k'] == issues[..k] + issues[k..k'];
  }

  /** The answers to one received batch, sent when `k` requests had been seen before. */
  lemma SentWhileAt(h: Handler, log: seq<Event>, issues: seq<Issue>, k: nat, k': nat)
    requires k <= k' <= |issues| && ModerateLog(h, |log|, log + SeenAll(issues[..k']))
    ensures ValidBodies(ReplyBodies(h, log, issues, k, k'))
    ensures Concat(Answers(h, log + SeenAll(issues[..k]), issues[k..k'])) == Wire(ReplyBodies(h, log, issues, k, k'))
  {
    hide Answer, Wire, SeenAll, ReplyBodies, ModerateLog, EncodeResponse, Answers;
    var seen := issues[..k'];
    assert seen[..k'] == seen;
    AnswersSplit(h, log, seen, k);
    assert seen[..k] == issues[..k] && seen[k..] == issues[k..k'];
    AnswersAreWire(h, log, seen, k, k');
    assert Answers(h, log, seen)[k..k'] == Answers(h, log + SeenAll(issues[..k]), issues[k..k']);
    assert seen + issues[k'..] == issues;
    RepliesStable(h, log, seen, issues[k'..], k, k');
  }

  lemma RepliesJoin(h: Handler, log: seq<Event>, issues: seq<Issue>, j: nat, k: nat, k': nat)
    requires j <= k <= k' <= |issues| && ModerateLog(h, |log|, log + SeenAll(issues[..k']))
    ensures ValidBodies(ReplyBodies(h, log, issues, j, k)) && ValidBodies(ReplyBodies(h, log, issues, k, k'))
    ensures ValidBodies(ReplyBodies(h, log, issues, j, k'))
    ensures Wire(ReplyBodies(h, log, issues, j, k'))
            == Wire(ReplyBodies(h, log, issues, j, k)) + Wire(ReplyBodies(h, log, issues, k, k'))
  {
    hide Replies, ModerateLog, ValidBody, SeenAll;
    RepliesValid(h, log, issues, k');
    var all := Replies(h, log, issues);
    var valid := all[..k'];
    hide ReplyBody, Wire;
    SameSlice(all, j, k, k');
    SameSlice(all, j, k', k');
    SameSlice(all, k, k', k');
    assert valid[j..k'] == valid[j..k] + valid[k..k'];
    WireAppend(valid[j..k], valid[k..k']);
  }

  lemma SameSlice<T>(s: seq<T>, i: nat, j: nat, n: nat)
    requires i <= j <= n <= |s|
    ensures s[..n][i..j] == s[i..j]
  {}

  function ServerMove(h: Handler, f: Flow, n: nat): Flow
    requires n <= |f.up|
  {
    var conn := Receive(h, f.conn, f.up[..n]);
    f.(up := f.up[n..], conn := conn.(out := []), down := f.down + Concat(conn.out))
  }

  /** The server has gone from `k` to `k'` requests seen and holds the start of the next one. */
  ghost predicate Taken(h: Handler, sv: Server, issues: seq<Issue>, conn: Conn, unseen: seq<u8>, k: nat, k': nat)
    requires k <= k' <= |issues| && AllSendable(issues)
  {
    hide Sendable, NextFrame, ValidBody;
    && conn.server == sv.(log := sv.log + SeenAll(issues[..k']))
    && conn.out == Answers(h, sv.log + SeenAll(issues[..k]), issues[k..k'])
    && conn.buffer.Some? && NextFrame(conn.buffer.value).More?
    && conn.buffer.value + unseen == Wire(Bodies(issues[k'..]))
  }

  lemma SendableSuffix(issues: seq<Issue>, k: nat)
    requires AllSendable(issues) && k <= |issues|
    ensures AllSendable(issues[k..])
  {
    hide Sendable;
  }

  lemma WrittenTaken(h: Handler, sv: Server, written: seq<Issue>, conn: Conn, up: seq<u8>, n: nat, k: nat)
    returns (k': nat)
    requires k <= |written| && AllSendable(written) && AllSendable(written[k..]) && n <= |up|
    requires conn.server == sv.(log := sv.log + SeenAll(written[..k])) && conn.buffer.Some? && conn.out == []
    requires conn.buffer.value + up == Wire(Bodies(written[k..]))
    ensures k <= k' <= |written| && Taken(h, sv, written, Receive(h, conn, up[..n]), up[n..], k, k')
  {
    hide Answer, Wire, Bodies, SeenAll, NextFrame, Receive, Answers, AllSendable, ValidBodies;
    var chunk, unseen, ahead := up[..n], up[n..], written[k..];
    assert up == chunk + unseen;
    AppendAssociates(conn.buffer.value, chunk, unseen);
    var m := ReceivePrefix(h, conn, ahead, chunk, unseen);
    k' := k + m;
    assert ahead[..m] == written[k..k'] && ahead[m..] == written[k'..];
    SendableSuffix(written, k');
    SeenSplit(sv.log, written, k, k');
    var sent := Answers(h, conn.server.log, written[k..k']);
    assert [] + sent == sent;
  }

  /** Any chunk makes the server see some more of what was written, in order. */
  lemma ServerTakes(h: Handler, sv: Server, f: Flow, n: nat, k: nat, j: nat) returns (k': nat)
    requires FlowOk(h, sv, f, k, j) && n <= |f.up|
    ensures k <= k' <= f.written && AllSendable(f.issues[..f.written])
    ensures Taken(h, sv, f.issues[..f.written], Receive(h, f.conn, f.up[..n]), f.up[n..], k, k')
  {
    hide Answer, Wire, Bodies, SeenAll, ReplyBodies, NextFrame, Receive, Answers, Sendable, ValidBodies, Taken;
    var written := f.issues[..f.written];
    assert AllSendable(written);
    assert written[..k] == f.issues[..k] && written[k..] == f.issues[k..f.written];
    SendableSuffix(written, k);
    hide AllSendable;
    k' := WrittenTaken(h, sv, written, f.conn, f.up, n, k);
  }

  lemma ServerKeepsFlow(h: Handler, sv: Server, f: Flow, n: nat, k: nat, j: nat) returns (k': nat)
    requires FlowOk(h, sv, f, k, j) && n <= |f.up|
    requires ModerateLog(h, |sv.log|, ServerMove(h, f, n).conn.server.log)
    ensures FlowOk(h, sv, ServerMove(h, f, n), k', j)
  {
    hide Answer, Wire, Bodies, SeenAll, ReplyBodies, NextFrame, Receive, Answers, ModerateLog, Sendable;
    k' := ServerTakes(h, sv, f, n, k, j);
    var written := f.issues[..f.written];
    assert written[..k'] == f.issues[..k'] && written[..k] == f.issues[..k];
    assert written[k..k'] == f.issues[k..k'] && written[k'..] == f.issues[k'..f.written];
    SentWhileAt(h, sv.log, f.issues, k, k');
    RepliesJoin(h, sv.log, f.issues, j, k, k');
    AppendAssociates(f.buf, f.down, Concat(Receive(h, f.conn, f.up[..n]).out));
  }

  lemma ArriveKeepsFlow(h: Handler, sv: Server, f: Flow, n: nat, k: nat, j: nat)
    requires FlowOk(h, sv, f, k, j) && n <= |f.down|
    ensures FlowOk(h, sv, f.(buf := f.buf + f.down[..n], down := f.down[n..]), k, j)
  {
    hide Answer, Wire, Bodies, SeenAll, ReplyBodies, NextFrame, Sendable;
    assert f.down == f.down[..n] + f.down[n..];
    AppendAssociates(f.buf, f.down[..n], f.down[n..]);
  }

  /** A cut takes the packet that answers the oldest unanswered request. */
  lemma CutKeepsFlow(h: Handler, sv: Server, f: Flow, k: nat, j: nat)
    requires FlowOk(h, sv, f, k, j) && !NextFrame(f.buf).More?
    ensures j < k <= |f.issues| && NextFrame(f.buf).Packet?
    ensures NextFrame(f.buf).body == ReplyBody(h, sv.log, f.issues, j)
    ensures FlowOk(h, sv, f.(buf := NextFrame(f.buf).rest), k, j + 1)
  {
    var bs := ReplyBodies(h, sv.log, f.issues, j, k);
    assert bs == [] ==> f.buf + f.down == [];
    assert bs != [];
    hide Answer, Bodies, SeenAll, ReplyBody, NextFrame, Sendable, U32Bytes, U32Of, FrameOf;
    NextFrameGrows(f.buf, f.down);
    NextFrameOf(bs[0], Wire(bs[1..]));
    hide Wire;
    assert bs[1..] == ReplyBodies(h, sv.log, f.issues, j + 1, k);
  }
}
