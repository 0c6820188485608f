/**
 Every run of the joined client and server keeps the pipeline invariant; at rest it says that the
 pipelined calls refine direct calls of the handler, one after the other.
 */
module PipelineTheorem {
  import opened Bytes
  import opened Attributes
  import opened Packets
  import opened Responses
  import opened Frames
  import opened SftpServer
  import opened Answering
  import opened SftpClient
  import opened Pipeline

  // Client steps ------------------------------------------------------------------------------------

  /** Steps that leave the wire order and the enqueued calls alone. */
  lemma InvIgnores(h: Handler, sv: Server, w: World, c': Client, k: nat, j: nat)
    requires Inv(h, sv, w, k, j) && ClientOk(c')
    requires c'.enqueued == w.client.enqueued && c'.written == w.client.written && c'.buf == w.client.buf
    requires forall i :: 0 <= i < |c'.enqueued| ==>
               c'.slots[c'.enqueued[i]].issue == w.client.slots[c'.enqueued[i]].issue
               && c'.slots[c'.enqueued[i]].results == w.client.slots[c'.enqueued[i]].results
    ensures Inv(h, sv, w.(client := c'), k, j)
  {
    hide Safe, Answer, FlowOk;
    assert Issues(c') == Issues(w.client);
  }

  lemma CallKeepsInv(h: Handler, sv: Server, w: World, request: Request<Metadata>, k: nat, j: nat)
    requires Inv(h, sv, w, k, j) && Possible(w, Call(request))
    ensures Inv(h, sv, Next(h, w, Call(request)), k, j)
  {
    hide Answer, FlowOk, Sendable;
    var c, c' := w.client, Apply(w.client, TakeId(request));
    StepKeepsSafe(c, TakeId(request));
    forall t | 0 <= t < |c'.slots|
      ensures CallOk(c', t)
    {
      assert t < |c.slots| ==> CallOk(c, t);
    }
    InvIgnores(h, sv, w, c', k, j);
  }

  lemma RegisterKeepsInv(h: Handler, sv: Server, w: World, t: nat, k: nat, j: nat)
    requires Inv(h, sv, w, k, j) && Possible(w, Register(t))
    ensures Inv(h, sv, Next(h, w, Register(t)), k, j)
  {
    hide Answer, FlowOk, Sendable;
    var c, c' := w.client, Apply(w.client, Insert(t));
    StepKeepsSafe(c, Insert(t));
    forall u | 0 <= u < |c'.slots|
      ensures CallOk(c', u)
    {
      assert CallOk(c, u);
    }
    InvIgnores(h, sv, w, c', k, j);
  }

  lemma QueueKeepsClient(c: Client, t: nat)
    requires ClientOk(c) && Enabled(c, Enqueue(t, true))
    ensures var c' := Apply(c, Enqueue(t, true));
            && ClientOk(c') && Issues(c') == Issues(c) + [c.slots[t].issue] && Sendable(c.slots[t].issue)
            && |c'.slots| == |c.slots| && c.slots[t].results == [] && c'.enqueued == c.enqueued + [t]
            && c'.written == c.written && c'.buf == c.buf
            && forall u :: 0 <= u < |c.slots| ==> c'.slots[u].results == c.slots[u].results
  {
    hide Sendable;
    assert CallOk(c, t);
    var c' := Apply(c, Enqueue(t, true));
    StepKeepsSafe(c, Enqueue(t, true));
    forall u | 0 <= u < |c'.slots|
      ensures CallOk(c', u)
    {
      assert CallOk(c, u);
      assert u in c.enqueued ==> u in c'.enqueued;
      assert t == c'.enqueued[|c.enqueued|];
    }
  }

  lemma QueueKeepsResults(
      h: Handler, log: seq<Event>, c: Client, c': Client, issues: seq<Issue>, x: Issue, t: nat, j: nat)
    requires j <= |c.enqueued| && ResultsOk(h, log, c, issues, j)
    requires t < |c.slots| == |c'.slots| && c.slots[t].results == [] && c'.enqueued == c.enqueued + [t]
    requires forall u :: 0 <= u < |c.slots| ==> c'.slots[u].results == c.slots[u].results
    ensures ResultsOk(h, log, c', issues + [x], j)
  {
    hide Answer;
    forall i | 0 <= i < |c'.enqueued|
      ensures c'.enqueued[i] < |c'.slots|
      ensures c'.slots[c'.enqueued[i]].results == if i < j then [Got(Answer(h, log, issues + [x], i))] else []
    {
      if i < |issues| {
        AnswerStable(h, log, issues, [x], i);
      }
    }
  }

  lemma QueueKeepsInv(h: Handler, sv: Server, w: World, t: nat, k: nat, j: nat)
    requires Inv(h, sv, w, k, j) && Possible(w, Queue(t))
    ensures Inv(h, sv, Next(h, w, Queue(t)), k, j)
  {
    hide Answer, Sendable, SlotOk, TableOk, QueueOk, ResultsOk, Apply, Wire, Bodies, SeenAll, ReplyBodies, NextFrame;
    var c, c' := w.client, Apply(w.client, Enqueue(t, true));
    hide Safe;
    QueueKeepsClient(c, t);
    assert j <= |Issues(c)|;
    hide FlowOk;
    QueueKeepsResults(h, sv.log, c, c', Issues(c), c.slots[t].issue, t, j);
    QueueKeepsFlow(h, sv, FlowOf(w), c.slots[t].issue, k, j);
  }

  /** Writing and receiving leave the calls as they are. */
  lemma SameCalls(h: Handler, log: seq<Event>, c: Client, c': Client, j: nat)
    requires ClientOk(c) && ResultsOk(h, log, c, Issues(c), j)
    requires c' == c.(written := c'.written, buf := c'.buf) && c'.written <= |c.enqueued|
    ensures ClientOk(c') && Issues(c') == Issues(c) && ResultsOk(h, log, c', Issues(c'), j)
  {
    hide Answer, Sendable, SlotOk;
    SameTable(c, c');
    forall t | 0 <= t < |c'.slots|
      ensures CallOk(c', t)
    {
      assert CallOk(c, t);
    }
    hide Safe, CallOk;
    assert Issues(c') == Issues(c);
  }

  lemma WriteKeepsInv(h: Handler, sv: Server, w: World, k: nat, j: nat)
    requires Inv(h, sv, w, k, j) && Possible(w, ClientWrite)
    ensures Inv(h, sv, Next(h, w, ClientWrite), k, j)
  {
    hide Answer, FlowOk, Sendable, PacketOf, SlotOk, ResultsOk, CallOk;
    var c, c' := w.client, Apply(w.client, Step.Write);
    SameCalls(h, sv.log, c, c', j);
    hide Safe, ClientOk;
    WriteKeepsFlow(h, sv, FlowOf(w), k, j);
  }

  lemma ServerKeepsInv(h: Handler, sv: Server, w: World, n: nat, k: nat, j: nat) returns (k': nat)
    requires Inv(h, sv, w, k, j) && Possible(w, ServerRecv(n))
    requires ModerateLog(h, |sv.log|, Next(h, w, ServerRecv(n)).conn.server.log)
    ensures Inv(h, sv, Next(h, w, ServerRecv(n)), k', j)
  {
    hide Answer, FlowOk, Safe, ResultsOk, QueueOk, ModerateLog, Receive;
    k' := ServerKeepsFlow(h, sv, FlowOf(w), n, k, j);
  }

  lemma ArriveKeepsInv(h: Handler, sv: Server, w: World, n: nat, k: nat, j: nat)
    requires Inv(h, sv, w, k, j) && Possible(w, ClientRecv(n))
    ensures Inv(h, sv, Next(h, w, ClientRecv(n)), k, j)
  {
    hide Answer, FlowOk, Sendable, NextFrame, SlotOk, ResultsOk, CallOk;
    var c, c' := w.client, Apply(w.client, Arrive(w.down[..n]));
    SameCalls(h, sv.log, c, c', j);
    hide Safe, ClientOk;
    ArriveKeepsFlow(h, sv, FlowOf(w), n, k, j);
  }

  /** Dispatching the answer to the oldest unanswered request fires that caller and no other. */
  lemma CutFiresOldest(h: Handler, log: seq<Event>, c: Client, j: nat)
    requires ClientOk(c) && j < |c.enqueued| && ResultsOk(h, log, c, Issues(c), j)
    ensures var r := Got(Answer(h, log, Issues(c), j));
            Fire(c, Issues(c)[j].id, r).slots
            == c.slots[c.enqueued[j] := c.slots[c.enqueued[j]].(results := [r])]
  {
    hide Answer, Sendable;
    var t := c.enqueued[j];
    assert SlotOk(c, t) && IsPending(c, t);
    assert [] + [Got(Answer(h, log, Issues(c), j))] == [Got(Answer(h, log, Issues(c), j))];
  }

  lemma AnsweredKeepsClient(h: Handler, log: seq<Event>, c: Client, c': Client, j: nat)
    requires ClientOk(c) && j < |c.enqueued| && ResultsOk(h, log, c, Issues(c), j)
    requires Safe(c') && c'.reading && c'.writing && c'.enqueued == c.enqueued && c'.written == c.written
    requires c'.slots
             == c.slots[c.enqueued[j] := c.slots[c.enqueued[j]].(results := [Got(Answer(h, log, Issues(c), j))])]
    ensures ClientOk(c') && Issues(c') == Issues(c) && ResultsOk(h, log, c', Issues(c'), j + 1)
  {
    hide Safe, Answer, Sendable;
    forall t | 0 <= t < |c'.slots|
      ensures CallOk(c', t)
    {
      assert CallOk(c, t);
    }
    assert Issues(c') == Issues(c);
  }

  lemma CutIsFiring(c: Client, body: seq<u8>, rest: seq<u8>, id: u32, r: Response)
    requires TableOk(c) && c.reading && NextFrame(c.buf) == Packet(body, rest)
    requires body != [] && DecodePacket(body) == Reply(id, r)
    ensures Apply(c, Cut) == Fire(c, id, Got(r)).(buf := rest)
  {
    hide DecodePacket, NextFrame;
  }

  lemma CutKeepsSafe(c: Client)
    requires Safe(c) && |c.slots| <= MAX_CALLS && Enabled(c, Cut)
    ensures Safe(Apply(c, Cut))
  {
    hide SlotOk, DecodePacket;
    assert |Apply(c, Cut).slots| == |c.slots|;
    StepKeepsSafe(c, Cut);
  }

  lemma CutKeepsClient(h: Handler, log: seq<Event>, c: Client, j: nat, body: seq<u8>, rest: seq<u8>)
    requires ClientOk(c) && j < |c.enqueued| && ResultsOk(h, log, c, Issues(c), j)
    requires NextFrame(c.buf) == Packet(body, rest) && body != []
    requires DecodePacket(body) == Reply(Issues(c)[j].id, Answer(h, log, Issues(c), j))
    ensures var c' := Apply(c, Cut);
            ClientOk(c') && Issues(c') == Issues(c) && ResultsOk(h, log, c', Issues(c'), j + 1)
            && c'.buf == rest && c'.written == c.written
  {
    hide Answer, NextFrame, QueueOk, ResultsOk, SlotOk, DispatchResponse, DecodePacket;
    CutKeepsSafe(c);
    CutIsFiring(c, body, rest, Issues(c)[j].id, Answer(h, log, Issues(c), j));
    CutFiresOldest(h, log, c, j);
    hide Safe, Apply, Fire;
    AnsweredKeepsClient(h, log, c, Apply(c, Cut), j);
  }

  lemma CutKeepsInv(h: Handler, sv: Server, w: World, k: nat, j: nat)
    requires Inv(h, sv, w, k, j) && Possible(w, ClientCut) && ModerateLog(h, |sv.log|, w.conn.server.log)
    ensures Inv(h, sv, Next(h, w, ClientCut), k, j + 1)
  {
    hide Answer, ModerateLog, Moderate, NextFrame, QueueOk, ResultsOk, Safe, ReplyBody, DecodePacket, Apply, FlowOk;
    var c, issues := w.client, Issues(w.client);
    CutKeepsFlow(h, sv, FlowOf(w), k, j);
    AnswersSoFar(h, sv, FlowOf(w), k, j);
    ReplyIsFramed(h, sv.log, issues, j);
    CutKeepsClient(h, sv.log, c, j, NextFrame(c.buf).body, NextFrame(c.buf).rest);
  }

  /** The answer that the client is about to cut is one the handler has given. */
  lemma AnswersSoFar(h: Handler, sv: Server, f: Flow, k: nat, j: nat)
    requires FlowOk(h, sv, f, k, j) && j < k && ModerateLog(h, |sv.log|, f.conn.server.log)
    ensures j < |f.issues| && Moderate(Answer(h, sv.log, f.issues, j))
  {
    hide Answer, ModerateLog, Moderate, NextFrame, Wire, ReplyBodies, SeenAll, Bodies, AllSendable, ValidBodies;
    ModerateAnswer(h, sv.log, f.issues, k, j);
  }

  lemma StepKeepsInv(h: Handler, sv: Server, w: World, st: WorldStep, k: nat, j: nat) returns (k': nat, j': nat)
    requires TableOk(w.client) && Inv(h, sv, w, k, j) && Possible(w, st)
    requires ModerateLog(h, |sv.log|, Next(h, w, st).conn.server.log)
    ensures Inv(h, sv, Next(h, w, st), k', j')
  {
    hide Inv, ModerateLog, Possible, Next;
    k', j' := k, j;
    match st {
      case Call(request) => CallKeepsInv(h, sv, w, request, k, j);
      case Register(t) => RegisterKeepsInv(h, sv, w, t, k, j);
      case Queue(t) => QueueKeepsInv(h, sv, w, t, k, j);
      case ClientWrite => WriteKeepsInv(h, sv, w, k, j);
      case ServerRecv(n) => k' := ServerKeepsInv(h, sv, w, n, k, j);
      case ClientRecv(n) => ArriveKeepsInv(h, sv, w, n, k, j);
      case ClientCut => CutLeavesServer(h, w); CutKeepsInv(h, sv, w, k, j); j' := j + 1;
    }
  }

  lemma CutLeavesServer(h: Handler, w: World)
    requires TableOk(w.client) && Possible(w, ClientCut)
    ensures Next(h, w, ClientCut).conn == w.conn
  {
    hide Apply;
  }

  lemma StepGrowsLog(h: Handler, w: World, st: WorldStep)
    requires TableOk(w.client) && Possible(w, st)
    ensures w.conn.server.log <= Next(h, w, st).conn.server.log
  {
    hide Apply, Receive, PacketOf, Enabled, Sendable;
    if st.ServerRecv? {
      ReceiveGrows(h, w.conn, w.up[..st.n]);
    }
  }

  lemma {:induction false} HistoryGrowsLog(h: Handler, w: World, steps: seq<WorldStep>)
    requires IsHistory(h, w, steps)
    ensures w.conn.server.log <= Reached(h, w, steps).conn.server.log
    decreases |steps|
  {
    hide Possible, Next;
    if steps == [] {
    } else {
      StepGrowsLog(h, w, steps[0]);
      HistoryGrowsLog(h, Next(h, w, steps[0]), steps[1..]);
    }
  }

  lemma {:induction false} HistoryKeepsInv(h: Handler, sv: Server, w: World, steps: seq<WorldStep>, k: nat, j: nat)
    returns (k': nat, j': nat)
    requires Inv(h, sv, w, k, j) && IsHistory(h, w, steps)
    requires ModerateLog(h, |sv.log|, Reached(h, w, steps).conn.server.log)
    ensures Inv(h, sv, Reached(h, w, steps), k', j')
    decreases |steps|
  {
    hide Inv, ModerateLog, Possible, Next;
    k', j' := k, j;
    if steps == [] {
    } else {
      HistoryGrowsLog(h, Next(h, w, steps[0]), steps[1..]);
      ModeratePrefix(h, |sv.log|, Next(h, w, steps[0]).conn.server.log, Reached(h, w, steps).conn.server.log);
      k', j' := StepKeepsInv(h, sv, w, steps[0], k, j);
      k', j' := HistoryKeepsInv(h, sv, Next(h, w, steps[0]), steps[1..], k', j');
    }
  }

  // At rest -----------------------------------------------------------------------------------------

  /** Everything sent has been delivered: each call's packet was written, both pipes are empty and
      the read task has cut what it could. */
  predicate AtRest(w: World) {
    (forall t :: 0 <= t < |w.client.slots| ==> w.client.slots[t].queued)
    && w.client.written == |w.client.enqueued|
    && w.up == [] && w.down == [] && NextFrame(w.client.buf).More?
  }

  /** Bytes that hold no whole frame but are the wire form of some bodies are no bytes at all. */
  lemma NoFrameNoBodies(bodies: seq<seq<u8>>, buf: seq<u8>)
    requires ValidBodies(bodies) && NextFrame(buf).More? && buf + [] == Wire(bodies)
    ensures bodies == []
  {
    assert buf + [] == buf;
    if bodies != [] {
      NextFrameOf(bodies[0], Wire(bodies[1..]));
    }
  }

  lemma RestMeansAllSeen(h: Handler, sv: Server, f: Flow, k: nat, j: nat)
    requires FlowOk(h, sv, f, k, j) && f.written == |f.issues| && f.up == [] && f.down == [] && NextFrame(f.buf).More?
    ensures k == j == |f.issues|
  {
    hide NextFrame, Wire, ReplyBody, Body, Sendable;
    NoFrameNoBodies(Bodies(f.issues[k..f.written]), f.conn.buffer.value);
    NoFrameNoBodies(ReplyBodies(h, sv.log, f.issues, j, k), f.buf);
  }

  /** The pipeline refines direct calls. In every history from the handshake on, with at most
      2^32 - 10 calls, any interleaving and any chunking, once the world is at rest: the handler
      has seen exactly the issued requests in wire order; every call is on the wire once and has
      completed exactly once, with the handler's answer to that very request; and the pending
      table is empty. Only the answers given in this history have to fit the protocol. */
  lemma PipelineRefinesDirectCalls(h: Handler, sv: Server, steps: seq<WorldStep>)
    requires IsHistory(h, Joined(sv), steps) && AtRest(Reached(h, Joined(sv), steps))
    requires ModerateLog(h, |sv.log|, Reached(h, Joined(sv), steps).conn.server.log)
    ensures var w := Reached(h, Joined(sv), steps);
            QueueOk(w.client)
            && var (c, issues) := (w.client, Issues(w.client));
            && w.conn.server == sv.(log := sv.log + SeenAll(issues))
            && c.pending == map[]
            && |c.enqueued| == |issues| && (forall t :: 0 <= t < |c.slots| ==> t in c.enqueued)
            && (forall i :: 0 <= i < |issues| ==>
                  c.slots[c.enqueued[i]].results == [Got(Answer(h, sv.log, issues, i))])
  {
    hide Inv, IsHistory, Reached, AtRest, ModerateLog, QueueOk, Answer, SeenAll;
    InvStarts(h, sv);
    var k, j := HistoryKeepsInv(h, sv, Joined(sv), steps, 0, 0);
    RestGivesAnswers(h, sv, Reached(h, Joined(sv), steps), k, j);
  }

  lemma RestGivesAnswers(h: Handler, sv: Server, w: World, k: nat, j: nat)
    requires Inv(h, sv, w, k, j) && AtRest(w)
    ensures QueueOk(w.client)
    ensures w.conn.server == sv.(log := sv.log + SeenAll(Issues(w.client)))
    ensures w.client.pending == map[]
    ensures forall t :: 0 <= t < |w.client.slots| ==> t in w.client.enqueued
    ensures forall i :: 0 <= i < |w.client.enqueued| ==>
              w.client.slots[w.client.enqueued[i]].results == [Got(Answer(h, sv.log, Issues(w.client), i))]
  {
    hide Answer, NextFrame, Wire, Bodies, SeenAll, ReplyBodies, Sendable;
    var c, issues := w.client, Issues(w.client);
    RestMeansAllSeen(h, sv, FlowOf(w), k, j);
    assert issues[..|issues|] == issues;
    assert forall id :: id in c.pending ==> IsPending(c, c.pending[id]);
    forall t | 0 <= t < |c.slots|
      ensures t in c.enqueued && c.slots[t].results != [] && !IsPending(c, t)
    {
      assert CallOk(c, t) && SlotOk(c, t);
      var i :| 0 <= i < |c.enqueued| && c.enqueued[i] == t;
    }
  }

  // Progress ----------------------------------------------------------------------------------------

  /** How far a call still is from the write queue. */
  function Distance(s: Slot): nat {
    if s.queued then 0 else if s.inserted then 1 else 2
  }

  function Backlog(slots: seq<Slot>): nat {
    if slots == [] then 0 else Distance(slots[0]) + Backlog(slots[1..])
  }

  lemma {:induction false} BacklogUpdate(slots: seq<Slot>, t: nat, s: Slot)
    requires t < |slots|
    ensures Backlog(slots[t := s]) == Backlog(slots) - Distance(slots[t]) + Distance(s)
  {
    hide Distance;
    if t > 0 {
      assert slots[t := s][1..] == slots[1..][t - 1 := s];
      BacklogUpdate(slots[1..], t - 1, s);
    } else {
      assert slots[t := s][1..] == slots[1..];
    }
  }

  lemma {:induction false} SameBacklog(slots: seq<Slot>, slots': seq<Slot>)
    requires |slots| == |slots'| && forall t :: 0 <= t < |slots| ==> Distance(slots[t]) == Distance(slots'[t])
    ensures Backlog(slots) == Backlog(slots')
  {
    if slots == [] {
    } else {
      SameBacklog(slots[1..], slots'[1..]);
    }
  }

  /** A step that does something: not a new call and not an empty chunk. */
  predicate Works(st: WorldStep) {
    !st.Call? && (st.ServerRecv? || st.ClientRecv? ==> st.n > 0)
  }

  ghost predicate RankDrops(w: World, w': World) {
    var (a, a') := (Backlog(w.client.slots), Backlog(w'.client.slots));
    var (b, b') := (|w.client.enqueued| - w.client.written, |w'.client.enqueued| - w'.client.written);
    a' < a || (a' == a && (b' < b || (b' == b && (|w'.up| < |w.up| || (|w'.up| == |w.up|
      && (|w'.down| < |w.down| || (|w'.down| == |w.down| && |w'.client.buf| < |w.client.buf|)))))))
  }

  /** Every working step lowers a lexicographic rank, so without new calls every schedule ends. */
  lemma StepLowersRank(h: Handler, w: World, st: WorldStep)
    requires ClientOk(w.client) && Possible(w, st) && Works(st)
    ensures RankDrops(w, Next(h, w, st))
  {
    var c := w.client;
    assert TableOk(c);
    if st.Register? {
      assert CallOk(c, st.slot);
    }
    hide Safe, Sendable, DecodePacket, Receive, PacketOf, Backlog, NextFrame;
    match st {
      case Register(t) => BacklogUpdate(c.slots, t, c.slots[t].(inserted := true));
      case Queue(t) => BacklogUpdate(c.slots, t, c.slots[t].(queued := true));
      case ClientWrite =>
      case ServerRecv(n) =>
      case ClientRecv(n) =>
      case ClientCut => CutShrinks(c);
    }
  }

  lemma CutShrinks(c: Client)
    requires TableOk(c) && Enabled(c, Cut)
    ensures var c' := Apply(c, Cut);
            |c'.buf| < |c.buf| && Backlog(c'.slots) == Backlog(c.slots)
            && c'.enqueued == c.enqueued && c'.written == c.written
  {
    hide DecodePacket, Backlog, U32Of;
    SameBacklog(c.slots, Apply(c, Cut).slots);
  }

  /** No deadlock: a world not at rest can always take a working step. */
  lemma NeverStuck(w: World) returns (st: WorldStep)
    requires ClientOk(w.client) && !AtRest(w)
    ensures Works(st) && Possible(w, st)
  {
    var c := w.client;
    hide Safe, Sendable, NextFrame;
    if c.written < |c.enqueued| {
      st := ClientWrite;
    } else if t :| 0 <= t < |c.slots| && !c.slots[t].queued {
      st := if c.slots[t].inserted then Queue(t) else Register(t);
    } else if w.up != [] {
      st := ServerRecv(|w.up|);
    } else if !NextFrame(c.buf).More? {
      st := ClientCut;
    } else {
      st := ClientRecv(|w.down|);
    }
  }

  /** An order in which the calls made so far may reach the wire. */
  ghost predicate WireOrder(c: Client, order: seq<nat>) {
    c.enqueued <= order
    && (forall i :: 0 <= i < |order| ==> order[i] < |c.slots|)
    && (forall i, j :: 0 <= i < j < |order| ==> order[i] != order[j])
  }

  /** Whatever the order, the handler's answers to the calls made so far are moderate. */
  ghost predicate ModerateCalls(h: Handler, log: seq<Event>, c: Client) {
    forall order :: WireOrder(c, order) ==> ModerateLog(h, |log|, log + SeenAll(IssuesAt(c.slots, order)))
  }

  /** Without new calls, orders only get fewer. */
  lemma CallsStayModerate(h: Handler, log: seq<Event>, c: Client, c': Client)
    requires ModerateCalls(h, log, c) && c.enqueued <= c'.enqueued && |c'.slots| == |c.slots|
    requires forall t :: 0 <= t < |c.slots| ==> c'.slots[t].issue == c.slots[t].issue
    ensures ModerateCalls(h, log, c')
  {
    hide ModerateLog, SeenAll;
    forall order | WireOrder(c', order)
      ensures ModerateLog(h, |log|, log + SeenAll(IssuesAt(c'.slots, order)))
    {
      assert WireOrder(c, order);
      assert IssuesAt(c'.slots, order) == IssuesAt(c.slots, order);
    }
  }

  lemma WorkKeepsCalls(h: Handler, w: World, st: WorldStep)
    requires TableOk(w.client) && Possible(w, st) && Works(st)
    ensures var (c, c') := (w.client, Next(h, w, st).client);
            c.enqueued <= c'.enqueued && |c'.slots| == |c.slots|
            && forall t :: 0 <= t < |c.slots| ==> c'.slots[t].issue == c.slots[t].issue
  {
    hide Receive, PacketOf, Sendable, NextFrame, DecodePacket;
  }

  /** What the handler sees after a step is still the start of the wire order. */
  lemma StepSeesIssues(h: Handler, sv: Server, w: World, st: WorldStep, k: nat, j: nat)
    requires TableOk(w.client) && Inv(h, sv, w, k, j) && Possible(w, st)
    ensures Next(h, w, st).conn.server.log <= sv.log + SeenAll(Issues(w.client))
  {
    hide Answer, Safe, QueueOk, ResultsOk, Wire, Bodies, ReplyBodies, NextFrame, Sendable, Receive, Apply, PacketOf,
         Answers;
    var issues := Issues(w.client);
    if st.ServerRecv? {
      var k' := ServerTakes(h, sv, FlowOf(w), st.n, k, j);
      assert issues[..w.client.written][..k'] == issues[..k'];
      SeenStarts(sv.log, issues, k');
    } else {
      SeenStarts(sv.log, issues, k);
    }
  }

  lemma SeenStarts(log: seq<Event>, issues: seq<Issue>, k: nat)
    requires k <= |issues|
    ensures log + SeenAll(issues[..k]) <= log + SeenAll(issues)
  {
    hide Seen;
    assert log + SeenAll(issues[..k]) == (log + SeenAll(issues))[..|log| + k];
  }

  lemma IssuesAreModerate(h: Handler, log: seq<Event>, c: Client)
    requires QueueOk(c) && ModerateCalls(h, log, c)
    ensures ModerateLog(h, |log|, log + SeenAll(Issues(c)))
  {
    hide CallOk, ModerateLog, SeenAll;
    assert WireOrder(c, c.enqueued);
  }

  /** A working step keeps the invariant, and the remaining answers moderate. */
  lemma WorkKeepsInv(h: Handler, sv: Server, w: World, st: WorldStep, k: nat, j: nat) returns (k': nat, j': nat)
    requires TableOk(w.client) && Inv(h, sv, w, k, j) && Possible(w, st) && Works(st)
    requires ModerateCalls(h, sv.log, w.client)
    ensures Inv(h, sv, Next(h, w, st), k', j') && ModerateCalls(h, sv.log, Next(h, w, st).client)
  {
    InvMeans(h, sv, w, k, j);
    hide Inv, Possible, Next, ModerateCalls, ModerateLog, SeenAll, Works, QueueOk, Safe;
    WorkKeepsCalls(h, w, st);
    CallsStayModerate(h, sv.log, w.client, Next(h, w, st).client);
    IssuesAreModerate(h, sv.log, w.client);
    StepSeesIssues(h, sv, w, st, k, j);
    ModeratePrefix(h, |sv.log|, Next(h, w, st).conn.server.log, sv.log + SeenAll(Issues(w.client)));
    k', j' := StepKeepsInv(h, sv, w, st, k, j);
  }

  lemma {:induction false} RestIsReachableFrom(h: Handler, sv: Server, w: World, k: nat, j: nat)
    returns (steps: seq<WorldStep>)
    requires Inv(h, sv, w, k, j) && ModerateCalls(h, sv.log, w.client)
    ensures IsHistory(h, w, steps) && AtRest(Reached(h, w, steps))
    ensures ModerateLog(h, |sv.log|, Reached(h, w, steps).conn.server.log)
    ensures forall i :: 0 <= i < |steps| ==> Works(steps[i])
    decreases Backlog(w.client.slots), |w.client.enqueued| - w.client.written, |w.up|, |w.down|, |w.client.buf|
  {
    hide Inv, Possible, Next, AtRest, ModerateLog, ModerateCalls, ClientOk, Backlog, Works;
    InvMeans(h, sv, w, k, j);
    steps := [];
    if AtRest(w) {
      SeenIsModerate(h, sv, w, k, j);
    } else {
      var st := NeverStuck(w);
      StepLowersRank(h, w, st);
      var k', j' := WorkKeepsInv(h, sv, w, st, k, j);
      InvMeans(h, sv, Next(h, w, st), k', j');
      hide IsHistory, Reached;
      var later := RestIsReachableFrom(h, sv, Next(h, w, st), k', j');
      HistoryCons(h, w, st, later);
      steps := [st] + later;
    }
  }

  lemma SeenIsModerate(h: Handler, sv: Server, w: World, k: nat, j: nat)
    requires Inv(h, sv, w, k, j) && ModerateCalls(h, sv.log, w.client)
    ensures ModerateLog(h, |sv.log|, w.conn.server.log)
  {
    hide Answer, Safe, QueueOk, ResultsOk, Wire, Bodies, ReplyBodies, NextFrame, Sendable, ModerateLog, ModerateCalls,
         SeenAll;
    IssuesAreModerate(h, sv.log, w.client);
    SeenStarts(sv.log, Issues(w.client), k);
    ModeratePrefix(h, |sv.log|, w.conn.server.log, sv.log + SeenAll(Issues(w.client)));
  }

  /** Hence in every history whose answers fit, the calls already made can all be brought to
      completion, if their answers fit in whatever order the calls reach the wire. */
  lemma RestIsReachable(h: Handler, sv: Server, past: seq<WorldStep>) returns (steps: seq<WorldStep>)
    requires IsHistory(h, Joined(sv), past)
    requires ModerateLog(h, |sv.log|, Reached(h, Joined(sv), past).conn.server.log)
    requires ModerateCalls(h, sv.log, Reached(h, Joined(sv), past).client)
    ensures var w := Reached(h, Joined(sv), past);
            && IsHistory(h, w, steps) && AtRest(Reached(h, w, steps))
            && ModerateLog(h, |sv.log|, Reached(h, w, steps).conn.server.log)
    ensures forall i :: 0 <= i < |steps| ==> Works(steps[i])
  {
    hide Inv, Possible, Next, AtRest, ModerateLog, ModerateCalls, Works;
    InvStarts(h, sv);
    var k, j := HistoryKeepsInv(h, sv, Joined(sv), past, 0, 0);
    steps := RestIsReachableFrom(h, sv, Reached(h, Joined(sv), past), k, j);
  }

  lemma InvMeans(h: Handler, sv: Server, w: World, k: nat, j: nat)
    requires Inv(h, sv, w, k, j)
    ensures ClientOk(w.client) && TableOk(w.client) && w.client.written <= |w.client.enqueued|
  {
    hide FlowOk, ResultsOk, SlotOk, CallOk;
  }

  lemma HistoryCons(h: Handler, w: World, st: WorldStep, later: seq<WorldStep>)
    requires TableOk(w.client) && Possible(w, st) && IsHistory(h, Next(h, w, st), later)
    ensures IsHistory(h, w, [st] + later) && Reached(h, w, [st] + later) == Reached(h, Next(h, w, st), later)
  {
    hide Possible, Next;
    assert ([st] + later)[1..] == later;
  }
}
