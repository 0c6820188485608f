/**
 The pipelined SFTP client: a request-id counter, a table of pending calls, a write task and a
 read task. Callers and tasks interleave freely, so the client is a step system; a run is any
 sequence of enabled steps. Class `SftpClientRuntime` is the mutable form.
 */
module SftpClient {
  import opened Bytes
  import opened Attributes
  import opened Packets
  import opened Responses
  import opened Frames
  import opened SftpServer
  import opened Answering

  /** What a one-shot sender can deliver to its caller. */
  datatype Completion = Got(response: Response) | Failed(kind: ErrorKind)

  /** One call of `send_and_await`: `inserted` once its sender is in the table, `queued` once the
      write queue took its packet or refused it, `results` everything its sender has delivered. */
  datatype Slot = Slot(issue: Issue, inserted: bool, queued: bool, results: seq<Completion>)

  datatype AbortReason = BadLength(len: u32) | WriteFailed | ChannelClosed

  /** `slots` lists the calls in the order they took their ids; `enqueued` the order in which
      their packets entered the write queue, of which the write task has taken `written`. */
  datatype Client = Client(
    nextId: u32,
    slots: seq<Slot>,
    pending: map<u32, nat>,
    enqueued: seq<nat>,
    written: nat,
    buf: seq<u8>,
    reading: bool,
    writing: bool,
    abortReason: Option<AbortReason>
  )

  const WRITE_QUEUE: nat := 256
  const MAX_CALLS: nat := 0x1_0000_0000 - 10

  /** State after `connect`. */
  const START := Client(10, [], map[], [], 0, [], true, true, None)

  // Table operations --------------------------------------------------------------------------

  /** Every table entry names a call that took that id. */
  predicate TableOk(c: Client) {
    forall id :: id in c.pending ==> c.pending[id] < |c.slots| && c.slots[c.pending[id]].issue.id == id
  }

  predicate IsPending(c: Client, t: nat)
    requires t < |c.slots|
  {
    c.slots[t].issue.id in c.pending && c.pending[c.slots[t].issue.id] == t
  }

  function Fired(s: Slot, r: Completion): Slot {
    s.(results := s.results + [r])
  }

  /** Remove the sender under `id`, if any, and fire it. */
  function Fire(c: Client, id: u32, r: Completion): (c': Client)
    requires TableOk(c)
    ensures TableOk(c') && c' == c.(pending := c'.pending, slots := c'.slots)
  {
    if id !in c.pending then c else
      var t := c.pending[id];
      c.(pending := c.pending - {id}, slots := c.slots[t := Fired(c.slots[t], r)])
  }

  /** Take every sender out of the table and fail it. */
  function Drain(c: Client, kind: ErrorKind): (c': Client)
    requires TableOk(c)
    ensures TableOk(c') && c' == c.(pending := c'.pending, slots := c'.slots)
  {
    c.(pending := map[],
       slots := seq(|c.slots|, t requires 0 <= t < |c.slots| =>
                      if IsPending(c, t) then Fired(c.slots[t], Failed(kind)) else c.slots[t]))
  }

  function CompletionOf(reply: Reply): Completion {
    if reply.Reply? then Got(reply.response) else Failed(Protocol)
  }

  function DispatchResponse(c: Client, packet: seq<u8>): (c': Client)
    requires TableOk(c)
    ensures TableOk(c') && c' == c.(pending := c'.pending, slots := c'.slots)
  {
    if packet == [] then c else
      var reply := DecodePacket(packet);
      Fire(c, reply.id, CompletionOf(reply))
  }

  // Steps -------------------------------------------------------------------------------------

  datatype Step =
    | TakeId(request: Request<Metadata>)
    | Insert(slot: nat)
    | Enqueue(slot: nat, accepted: bool)
    | Write
    | WriteExit(failed: bool)
    | Arrive(chunk: seq<u8>)
    | Cut
    | PeerClose

  predicate Enabled(c: Client, st: Step) {
    match st
    case TakeId(_) => true
    case Insert(t) => t < |c.slots| && !c.slots[t].inserted
    case Enqueue(t, accepted) =>
      t < |c.slots| && c.slots[t].inserted && !c.slots[t].queued
      && (c.writing ==> accepted) && (accepted ==> |c.enqueued| - c.written < WRITE_QUEUE)
    case Write => c.writing && c.written < |c.enqueued|
    case WriteExit(_) => c.writing
    case Arrive(_) => c.reading && NextFrame(c.buf).More?
    case Cut => c.reading && !NextFrame(c.buf).More?
    case PeerClose => c.reading && NextFrame(c.buf).More?
  }

  function Apply(c: Client, st: Step): (c': Client)
    requires TableOk(c) && Enabled(c, st)
    ensures TableOk(c')
  {
    match st
    case TakeId(request) =>
      c.(nextId := (c.nextId + 1) % TWO_32, slots := c.slots + [Slot(Issue(c.nextId, request), false, false, [])])
    case Insert(t) =>
      c.(pending := c.pending[c.slots[t].issue.id := t], slots := c.slots[t := c.slots[t].(inserted := true)])
    case Enqueue(t, accepted) =>
      c.(slots := c.slots[t := c.slots[t].(queued := true)],
         enqueued := if accepted then c.enqueued + [t] else c.enqueued)
    case Write => c.(written := c.written + 1)
    case WriteExit(failed) =>
      Drain(c, ChannelIo).(writing := false, abortReason := Some(if failed then WriteFailed else ChannelClosed))
    case Arrive(chunk) => c.(buf := c.buf + chunk)
    case Cut =>
      (match NextFrame(c.buf)
       case Packet(body, rest) => DispatchResponse(c, body).(buf := rest)
       case Invalid(len) => Drain(c, Protocol).(buf := [], reading := false, abortReason := Some(BadLength(len)))
       case More => c)
    case PeerClose => c.(reading := false)
  }

  ghost predicate IsRun(c: Client, steps: seq<Step>)
    requires TableOk(c)
    decreases |steps|
  {
    steps == [] || (Enabled(c, steps[0]) && IsRun(Apply(c, steps[0]), steps[1..]))
  }

  ghost function After(c: Client, steps: seq<Step>): Client
    requires TableOk(c) && IsRun(c, steps)
    decreases |steps|
  {
    if steps == [] then c else After(Apply(c, steps[0]), steps[1..])
  }

  // Safety --------------------------------------------------------------------------------------

  function IdOf(t: nat): u32 {
    (10 + t) % TWO_32
  }

  /** A sender is in the table or has fired once, never both; before insertion it is neither. */
  predicate SlotOk(c: Client, t: nat)
    requires t < |c.slots|
  {
    var s := c.slots[t];
    s.issue.id == IdOf(t)
    && (if s.inserted then IsPending(c, t) <==> s.results == [] else s.results == [] && !IsPending(c, t))
    && |s.results| <= 1
  }

  ghost predicate Safe(c: Client) {
    TableOk(c) && c.nextId == IdOf(|c.slots|) && forall t :: 0 <= t < |c.slots| ==> SlotOk(c, t)
  }

  lemma FireKeepsSafe(c: Client, id: u32, r: Completion)
    requires Safe(c)
    ensures Safe(Fire(c, id, r))
  {
    var c' := Fire(c, id, r);
    forall t | 0 <= t < |c.slots|
      ensures SlotOk(c', t)
    {
      assert SlotOk(c, t);
    }
  }

  lemma DrainKeepsSafe(c: Client, kind: ErrorKind)
    requires Safe(c)
    ensures Safe(Drain(c, kind))
  {
    var c' := Drain(c, kind);
    forall t | 0 <= t < |c.slots|
      ensures SlotOk(c', t)
    {
      assert SlotOk(c, t);
    }
  }

  lemma InsertKeepsSafe(c: Client, t: nat)
    requires Safe(c) && |c.slots| <= MAX_CALLS && Enabled(c, Insert(t))
    ensures Safe(Apply(c, Insert(t)))
  {
    var c' := Apply(c, Insert(t));
    forall k | 0 <= k < |c.slots|
      ensures SlotOk(c', k)
    {
      assert SlotOk(c, k) && SlotOk(c, t);
      assert k != t ==> IdOf(k) != IdOf(t);
    }
  }

  lemma StepKeepsSafe(c: Client, st: Step)
    requires Safe(c) && Enabled(c, st) && |Apply(c, st).slots| <= MAX_CALLS
    ensures Safe(Apply(c, st))
  {
    var c' := Apply(c, st);
    match st {
      case TakeId(_) =>
        forall k | 0 <= k < |c'.slots|
          ensures SlotOk(c', k)
        {
          if k < |c.slots| {
            assert SlotOk(c, k);
          } else {
            assert c'.slots[k].issue.id == IdOf(k);
            assert forall id :: id in c.pending ==> c.pending[id] != k;
          }
        }
      case Insert(t) => InsertKeepsSafe(c, t);
      case Enqueue(t, _) =>
        forall k | 0 <= k < |c'.slots|
          ensures SlotOk(c', k)
        {
          assert SlotOk(c, k);
        }
      case WriteExit(_) => DrainKeepsSafe(c, ChannelIo); SameTable(Drain(c, ChannelIo), c');
      case Cut =>
        match NextFrame(c.buf) {
          case Packet(body, rest) =>
            if body != [] {
              FireKeepsSafe(c, DecodePacket(body).id, CompletionOf(DecodePacket(body)));
            }
            SameTable(DispatchResponse(c, body), c');
          case Invalid(_) => DrainKeepsSafe(c, Protocol); SameTable(Drain(c, Protocol), c');
          case More =>
        }
      case _ => SameTable(c, c');
    }
  }

  lemma SameTable(c: Client, c': Client)
    requires Safe(c) && c.nextId == c'.nextId && c.slots == c'.slots && c.pending == c'.pending
    ensures Safe(c')
  {
    forall k | 0 <= k < |c'.slots|
      ensures SlotOk(c', k)
    {
      assert SlotOk(c, k);
    }
  }

  lemma StepGrows(c: Client, st: Step)
    requires TableOk(c) && Enabled(c, st)
    ensures |c.slots| <= |Apply(c, st).slots|
    ensures forall t :: 0 <= t < |c.slots| ==> c.slots[t].results <= Apply(c, st).slots[t].results
  {}

  /** Calls are never forgotten, and what a sender delivered is never taken back. */
  lemma {:induction false} RunGrows(c: Client, steps: seq<Step>)
    requires TableOk(c) && IsRun(c, steps)
    ensures |c.slots| <= |After(c, steps).slots|
    ensures forall t :: 0 <= t < |c.slots| ==> c.slots[t].results <= After(c, steps).slots[t].results
    decreases |steps|
  {
    hide Enabled, Apply;
    if steps == [] {
    } else {
      StepGrows(c, steps[0]);
      RunGrows(Apply(c, steps[0]), steps[1..]);
    }
  }

  lemma {:induction false} RunKeepsSafe(c: Client, steps: seq<Step>)
    requires Safe(c) && IsRun(c, steps) && |After(c, steps).slots| <= MAX_CALLS
    ensures Safe(After(c, steps))
    decreases |steps|
  {
    hide Enabled, Apply, SlotOk;
    if steps == [] {
    } else {
      RunGrows(Apply(c, steps[0]), steps[1..]);
      StepKeepsSafe(c, steps[0]);
      RunKeepsSafe(Apply(c, steps[0]), steps[1..]);
    }
  }

  /** Request-table safety over every run of at most 2^32 - 10 calls: ids are distinct and never
      0, and each inserted sender is either pending and unfired, or gone and fired exactly once. */
  lemma RequestTableSafety(steps: seq<Step>)
    requires IsRun(START, steps) && |After(START, steps).slots| <= MAX_CALLS
    ensures var c := After(START, steps);
            && TableOk(c) && 0 !in c.pending
            && (forall t :: 0 <= t < |c.slots| ==> c.slots[t].issue.id != 0)
            && (forall t, u :: 0 <= t < u < |c.slots| ==> c.slots[t].issue.id != c.slots[u].issue.id)
            && (forall t :: 0 <= t < |c.slots| && c.slots[t].inserted ==>
                  |c.slots[t].results| == if IsPending(c, t) then 0 else 1)
            && (forall t :: 0 <= t < |c.slots| && !c.slots[t].inserted ==>
                  c.slots[t].results == [] && !IsPending(c, t))
  {
    RunKeepsSafe(START, steps);
    SafeMeans(After(START, steps));
  }

  lemma SafeMeans(c: Client)
    requires Safe(c) && |c.slots| <= MAX_CALLS
    ensures 0 !in c.pending
    ensures forall t :: 0 <= t < |c.slots| ==> c.slots[t].issue.id != 0
    ensures forall t, u :: 0 <= t < u < |c.slots| ==> c.slots[t].issue.id != c.slots[u].issue.id
    ensures forall t :: 0 <= t < |c.slots| && c.slots[t].inserted ==>
              |c.slots[t].results| == if IsPending(c, t) then 0 else 1
    ensures forall t :: 0 <= t < |c.slots| && !c.slots[t].inserted ==>
              c.slots[t].results == [] && !IsPending(c, t)
  {
    forall t | 0 <= t < |c.slots|
      ensures c.slots[t].issue.id == 10 + t && SlotOk(c, t)
    {
      assert SlotOk(c, t);
    }
  }

  /** The ids of a run without any bound, wrapping around after 2^32 calls. */
  predicate Numbered(c: Client) {
    c.nextId == IdOf(|c.slots|) && forall t :: 0 <= t < |c.slots| ==> c.slots[t].issue.id == IdOf(t)
  }

  lemma StepKeepsNumbers(c: Client, st: Step)
    requires TableOk(c) && Enabled(c, st) && Numbered(c)
    ensures Numbered(Apply(c, st))
  {
    hide DecodePacket, NextFrame;
  }

  lemma {:induction false} RunKeepsNumbers(c: Client, steps: seq<Step>)
    requires TableOk(c) && IsRun(c, steps) && Numbered(c)
    ensures Numbered(After(c, steps))
    decreases |steps|
  {
    hide Enabled, Apply, Numbered;
    if steps == [] {
    } else {
      StepKeepsNumbers(c, steps[0]);
      RunKeepsNumbers(Apply(c, steps[0]), steps[1..]);
    }
  }

  /** The bound is exact: in every run, however long, the ids handed out are nonzero if and only if
      there are at most 2^32 - 10 of them, and distinct if and only if there are at most 2^32. */
  lemma IdLaw(steps: seq<Step>)
    requires IsRun(START, steps)
    ensures var slots := After(START, steps).slots;
            && ((forall t :: 0 <= t < |slots| ==> slots[t].issue.id != 0) <==> |slots| <= MAX_CALLS)
            && ((forall t, u :: 0 <= t < u < |slots| ==> slots[t].issue.id != slots[u].issue.id)
                <==> |slots| <= TWO_32)
  {
    hide IsRun, After, Enabled, Apply;
    RunKeepsNumbers(START, steps);
    var slots := After(START, steps).slots;
    assert IdOf(MAX_CALLS) == 0 && IdOf(0) == IdOf(TWO_32);
    if |slots| > MAX_CALLS {
      assert slots[MAX_CALLS].issue.id == 0;
    }
    if |slots| > TWO_32 {
      assert slots[0].issue.id == slots[TWO_32].issue.id;
    }
  }

  /** A packet fires at most the one sender that waits under its own id, decoded or not, and
      leaves every other call alone. */
  lemma PacketFiresOwnId(c: Client, packet: seq<u8>, t: nat)
    requires Safe(c) && |c.slots| <= MAX_CALLS && packet != [] && t < |c.slots|
    ensures var addressed := FXP_STATUS <= packet[0] <= FXP_ATTRS && |packet| >= 5
                             && U32Of(packet[1..5]) == c.slots[t].issue.id;
            DispatchResponse(c, packet).slots[t]
            == if addressed && IsPending(c, t) then
                 Fired(c.slots[t], match DecodePacket(packet)
                                   case Reply(_, response) => Got(response)
                                   case Garbled(_) => Failed(Protocol))
               else c.slots[t]
  {
    hide DecodePacket;
    PacketConcernsItsId(packet);
    assert SlotOk(c, t);
    assert IdOf(t) == 10 + t;
  }

  /** Unknown types, a VERSION packet after the handshake and packets too short for an id fire
      nothing and change nothing. */
  lemma IgnoredPackets(c: Client, packet: seq<u8>)
    requires Safe(c) && |c.slots| <= MAX_CALLS && packet != []
    requires !(FXP_STATUS <= packet[0] <= FXP_ATTRS) || |packet| < 5
    ensures DispatchResponse(c, packet) == c
  {
    hide DecodePacket;
    PacketConcernsItsId(packet);
    SafeMeans(c);
  }

  /** Either drain fails everything then pending, once, and nothing else, and empties the table. */
  lemma DrainFailsAllPending(c: Client, kind: ErrorKind, t: nat)
    requires Safe(c) && t < |c.slots|
    ensures Drain(c, kind).pending == map[]
    ensures Drain(c, kind).slots[t].results
            == if c.slots[t].inserted && c.slots[t].results == [] then [Failed(kind)] else c.slots[t].results
  {
    assert SlotOk(c, t);
    assert [] + [Failed(kind)] == [Failed(kind)];
  }

  /** The write task ends by failing everything then pending with a channel error, for good. */
  lemma WriteExitFails(c: Client, failed: bool, t: nat)
    requires Safe(c) && c.writing && t < |c.slots|
    ensures var c' := Apply(c, WriteExit(failed));
            && !c'.writing && c'.pending == map[]
            && c'.abortReason == Some(if failed then WriteFailed else ChannelClosed)
            && c'.slots[t].results
               == if c.slots[t].inserted && c.slots[t].results == [] then [Failed(ChannelIo)] else c.slots[t].results
  {
    DrainFailsAllPending(c, ChannelIo, t);
    hide Drain;
  }

  /** Once the read task has stopped, after a channel close or an abort, no call completes any more
      until the write task ends: what is pending then, or called later, hangs. */
  lemma {:induction false} NoReaderNoResults(c: Client, steps: seq<Step>, t: nat)
    requires TableOk(c) && IsRun(c, steps) && !c.reading && WriteExit(true) !in steps && WriteExit(false) !in steps
    requires t < |c.slots|
    ensures !After(c, steps).reading && t < |After(c, steps).slots|
    ensures After(c, steps).slots[t].results == c.slots[t].results
    decreases |steps|
  {
    if steps == [] {
    } else {
      StoppedStep(c, steps[0], t);
      hide Apply, Enabled;
      NoReaderNoResults(Apply(c, steps[0]), steps[1..], t);
    }
  }

  lemma StoppedStep(c: Client, st: Step, t: nat)
    requires TableOk(c) && Enabled(c, st) && !c.reading && !st.WriteExit? && t < |c.slots|
    ensures !Apply(c, st).reading && |c.slots| <= |Apply(c, st).slots|
    ensures Apply(c, st).slots[t].results == c.slots[t].results
  {
    hide DecodePacket, NextFrame;
  }

  /** A channel close stops the read task and completes nothing. */
  lemma CloseCompletesNothing(c: Client, t: nat)
    requires TableOk(c) && Enabled(c, PeerClose) && t < |c.slots|
    ensures var c' := Apply(c, PeerClose);
            && !c'.reading && c'.pending == c.pending
            && |c'.slots| == |c.slots| && c'.slots[t].results == c.slots[t].results
  {}

  /** At most 256 packets wait for the write task, and a packet is held back only when 256 do. */
  lemma {:induction false} WriteQueueBound(c: Client, steps: seq<Step>)
    requires TableOk(c) && IsRun(c, steps) && c.written <= |c.enqueued| <= c.written + 256
    ensures var c' := After(c, steps);
            && c'.written <= |c'.enqueued| <= c'.written + 256
            && forall t :: 0 <= t < |c'.slots| && c'.slots[t].inserted && !c'.slots[t].queued && c'.writing ==>
                 (Enabled(c', Enqueue(t, true)) <==> |c'.enqueued| < c'.written + 256)
    decreases |steps|
  {
    if steps == [] {
    } else {
      StepKeepsBound(c, steps[0]);
      hide Apply;
      WriteQueueBound(Apply(c, steps[0]), steps[1..]);
    }
  }

  lemma StepKeepsBound(c: Client, st: Step)
    requires TableOk(c) && Enabled(c, st) && c.written <= |c.enqueued| <= c.written + 256
    ensures Apply(c, st).written <= |Apply(c, st).enqueued| <= Apply(c, st).written + 256
  {
    hide DecodePacket, NextFrame;
  }

  // Reordering -----------------------------------------------------------------------------------

  function DispatchAll(c: Client, packets: seq<seq<u8>>): (c': Client)
    requires TableOk(c)
    ensures TableOk(c') && c' == c.(pending := c'.pending, slots := c'.slots)
    decreases |packets|
  {
    if packets == [] then c else DispatchAll(DispatchResponse(c, packets[0]), packets[1..])
  }

  lemma {:induction false} DispatchAllSnoc(c: Client, packets: seq<seq<u8>>, last: seq<u8>)
    requires TableOk(c)
    ensures DispatchAll(c, packets + [last]) == DispatchResponse(DispatchAll(c, packets), last)
    decreases |packets|
  {
    hide DispatchResponse;
    if packets == [] {
      assert [last][1..] == [] && packets + [last] == [last];
    } else {
      assert (packets + [last])[1..] == packets[1..] + [last];
      DispatchAllSnoc(DispatchResponse(c, packets[0]), packets[1..], last);
    }
  }

  predicate Nonempty(packets: seq<seq<u8>>) {
    forall i :: 0 <= i < |packets| ==> packets[i] != []
  }

  /** No two packets concern the same id. */
  predicate OnePerId(packets: seq<seq<u8>>)
    requires Nonempty(packets)
  {
    forall i, j :: 0 <= i < j < |packets| ==> DecodePacket(packets[i]).id != DecodePacket(packets[j]).id
  }

  /** The completion that a set of packets holds for each id. */
  function Verdicts(packets: seq<seq<u8>>): map<u32, Completion>
    requires Nonempty(packets)
  {
    if packets == [] then map[] else
      var last := DecodePacket(packets[|packets| - 1]);
      Verdicts(packets[..|packets| - 1])[last.id := CompletionOf(last)]
  }

  lemma {:induction false} VerdictsAre(packets: seq<seq<u8>>)
    requires Nonempty(packets) && OnePerId(packets)
    ensures forall id :: id in Verdicts(packets) ==>
              exists p :: p in packets && DecodePacket(p).id == id
                          && Verdicts(packets)[id] == CompletionOf(DecodePacket(p))
    ensures forall p :: p in packets ==>
              DecodePacket(p).id in Verdicts(packets)
              && Verdicts(packets)[DecodePacket(p).id] == CompletionOf(DecodePacket(p))
  {
    hide DecodePacket, CompletionOf;
    if packets == [] {
    } else {
      var n := |packets| - 1;
      VerdictsAre(packets[..n]);
      forall p | p in packets
        ensures DecodePacket(p).id in Verdicts(packets)
        ensures Verdicts(packets)[DecodePacket(p).id] == CompletionOf(DecodePacket(p))
      {
        var i :| 0 <= i < |packets| && packets[i] == p;
        if i < n {
          assert p == packets[..n][i];
        }
      }
    }
  }

  /** The table after each id in `m` has been completed once. */
  function Settle(c: Client, m: map<u32, Completion>): Client
    requires TableOk(c)
  {
    c.(pending := c.pending - m.Keys,
       slots := seq(|c.slots|, t requires 0 <= t < |c.slots| =>
                      var s := c.slots[t];
                      if IsPending(c, t) && s.issue.id in m then Fired(s, m[s.issue.id]) else s))
  }

  lemma SettleOne(c: Client, m: map<u32, Completion>, id: u32, r: Completion)
    requires TableOk(c) && id !in m
    ensures TableOk(Settle(c, m)) && Fire(Settle(c, m), id, r) == Settle(c, m[id := r])
  {
    hide Fired;
    var d, e := Settle(c, m), Settle(c, m[id := r]);
    assert m[id := r].Keys == m.Keys + {id};
    assert d.pending - {id} == e.pending;
    assert id in c.pending <==> id in d.pending;
    forall t | 0 <= t < |c.slots|
      ensures e.slots[t] == if c.slots[t].issue.id == id && IsPending(c, t) then Fired(d.slots[t], r) else d.slots[t]
    {}
    if id in c.pending {
      assert e.slots == d.slots[c.pending[id] := Fired(d.slots[c.pending[id]], r)];
    } else {
      assert e.slots == d.slots && e.pending == d.pending;
    }
  }

  lemma {:induction false} DispatchAllSettles(c: Client, packets: seq<seq<u8>>)
    requires TableOk(c) && Nonempty(packets) && OnePerId(packets)
    ensures DispatchAll(c, packets) == Settle(c, Verdicts(packets))
  {
    hide DecodePacket, CompletionOf;
    if packets == [] {
      assert c.pending - {} == c.pending;
    } else {
      var n := |packets| - 1;
      var front, last := packets[..n], packets[n];
      assert packets == front + [last];
      DispatchAllSnoc(c, front, last);
      DispatchAllSettles(c, front);
      VerdictsAre(front);
      assert DecodePacket(last).id !in Verdicts(front);
      SettleOne(c, Verdicts(front), DecodePacket(last).id, CompletionOf(DecodePacket(last)));
    }
  }

  /** Reordering is harmless: two orders of the same responses, one per request, leave the same
      table and the same results; once every pending id is covered, the table is empty. This is
      what section 6.1 of draft-ietf-secsh-filexfer-02 asks of a client. */
  lemma ReorderingIsHarmless(c: Client, packets: seq<seq<u8>>, reordered: seq<seq<u8>>)
    requires TableOk(c) && Nonempty(packets) && OnePerId(packets)
    requires multiset(packets) == multiset(reordered)
    ensures DispatchAll(c, packets) == DispatchAll(c, reordered)
    ensures (forall id :: id in c.pending ==> exists p :: p in packets && DecodePacket(p).id == id)
            ==> DispatchAll(c, reordered).pending == map[]
  {
    hide DecodePacket, CompletionOf, DispatchAll;
    SamePackets(packets, reordered);
    DispatchAllSettles(c, packets);
    DispatchAllSettles(c, reordered);
    VerdictsAre(packets);
    VerdictsAre(reordered);
    assert Verdicts(packets) == Verdicts(reordered);
  }

  lemma SamePackets(packets: seq<seq<u8>>, reordered: seq<seq<u8>>)
    requires Nonempty(packets) && OnePerId(packets) && multiset(packets) == multiset(reordered)
    ensures Nonempty(reordered) && OnePerId(reordered)
    ensures forall p :: p in packets <==> p in reordered
  {
    hide DecodePacket;
    forall p
      ensures p in packets <==> p in reordered
    {
      assert p in multiset(packets) <==> p in multiset(reordered);
    }
    forall i | 0 <= i < |reordered|
      ensures reordered[i] != []
    {
      assert reordered[i] in packets;
    }
    forall i, j | 0 <= i < j < |reordered|
      ensures DecodePacket(reordered[i]).id != DecodePacket(reordered[j]).id
    {
      var p, q := reordered[i], reordered[j];
      if DecodePacket(p).id == DecodePacket(q).id {
        assert p in packets && q in packets;
        var a :| 0 <= a < |packets| && packets[a] == p;
        var b :| 0 <= b < |packets| && packets[b] == q;
        assert a == b;
        TwoOccurrences(reordered, i, j);
        OneOccurrence(packets, a);
        assert false;
      }
    }
  }

  lemma TwoOccurrences(s: seq<seq<u8>>, i: nat, j: nat)
    requires i < j < |s| && s[i] == s[j]
    ensures multiset(s)[s[i]] >= 2
  {
    assert s == s[..j] + s[j..];
    assert s[i] in s[..j] && s[j] in s[j..];
  }

  lemma OneOccurrence(s: seq<seq<u8>>, a: nat)
    requires a < |s| && forall i :: 0 <= i < |s| && i != a ==> s[i] != s[a]
    ensures multiset(s)[s[a]] == 1
  {
    assert s == s[..a] + [s[a]] + s[a + 1..];
    assert s[a] !in s[..a] && s[a] !in s[a + 1..];
  }
}
