/**
 The client's shared state as an object, with the bodies of `send_and_await`, `dispatch_response`,
 `read_task` and `write_task` as methods. Each method is one step of module `SftpClient`, except
 `ReadData`, which runs the read task on one `Data` message and amounts to a run of steps.
 */
module SftpClientTasks {
  import opened Bytes
  import opened Codec
  import opened Attributes
  import opened Packets
  import opened Responses
  import opened Frames
  import opened SftpServer
  import opened Answering
  import opened SftpClient
  import Cursors

  /** The read task's inner loop, in closed form: dispatch every whole frame in the buffer, then
      wait on the tail or abort on an invalid length. */
  function Finish(c: Client): (c': Client)
    requires TableOk(c)
    ensures TableOk(c')
  {
    var p := ParseFrames(c.buf);
    Stopped(DispatchAll(c, p.packets), p.stop)
  }

  function Stopped(c: Client, stop: Stop): (c': Client)
    requires TableOk(c)
    ensures TableOk(c')
  {
    match stop
    case Waiting(tail) => c.(buf := tail)
    case Broken(len) => Drain(c, Protocol).(buf := [], reading := false, abortReason := Some(BadLength(len)))
  }

  /** Dispatch never looks at the reassembly buffer. */
  lemma {:induction false} DispatchAllIgnoresBuffer(c: Client, packets: seq<seq<u8>>, buf: seq<u8>)
    requires TableOk(c)
    ensures DispatchAll(c.(buf := buf), packets) == DispatchAll(c, packets).(buf := buf)
    decreases |packets|
  {
    hide DecodePacket, CompletionOf;
    if packets == [] {
    } else {
      assert DispatchResponse(c.(buf := buf), packets[0]) == DispatchResponse(c, packets[0]).(buf := buf);
      DispatchAllIgnoresBuffer(DispatchResponse(c, packets[0]), packets[1..], buf);
    }
  }

  lemma StoppedIgnoresBuffer(c: Client, packets: seq<seq<u8>>, stop: Stop, buf: seq<u8>)
    requires TableOk(c)
    ensures Stopped(DispatchAll(c.(buf := buf), packets), stop) == Stopped(DispatchAll(c, packets), stop)
  {
    DispatchAllIgnoresBuffer(c, packets, buf);
    hide DispatchAll;
    var d := DispatchAll(c, packets);
    assert Drain(d.(buf := buf), Protocol) == Drain(d, Protocol).(buf := buf);
  }

  /** One round of the loop is one `Cut` step. */
  lemma FinishUnrolls(c: Client)
    requires TableOk(c) && c.reading
    ensures Finish(c) == match NextFrame(c.buf)
                         case More => c
                         case Invalid(_) => Apply(c, Cut)
                         case Packet(_, _) => Finish(Apply(c, Cut))
  {
    hide DecodePacket, CompletionOf, Drain, DispatchResponse, U32Of, NextFrame;
    if NextFrame(c.buf).Packet? {
      var Packet(body, rest) := NextFrame(c.buf);
      var p, q := ParseFrames(c.buf), ParseFrames(rest);
      assert p.packets[1..] == q.packets;
      StoppedIgnoresBuffer(DispatchResponse(c, body), q.packets, q.stop, rest);
    }
  }

  lemma {:induction false} CutsAreRun(c: Client) returns (steps: seq<Step>)
    requires TableOk(c) && c.reading
    ensures IsRun(c, steps) && After(c, steps) == Finish(c)
    decreases |c.buf|
  {
    hide Drain, DispatchResponse, U32Of, Finish;
    FinishUnrolls(c);
    match NextFrame(c.buf) {
      case More => steps := [];
      case Invalid(_) =>
        steps := [Cut];
        assert IsRun(Apply(c, Cut), []);
        assert [Cut][1..] == [];
      case Packet(_, _) =>
        var later := CutsAreRun(Apply(c, Cut));
        steps := [Cut] + later;
        assert steps[1..] == later;
    }
  }

  /** A chunk handled by the read task without interruption is a run: its arrival, then one cut
      per frame. So whatever holds of all runs holds of `ReadData`. */
  lemma ReadDataIsRun(c: Client, chunk: seq<u8>) returns (steps: seq<Step>)
    requires TableOk(c) && c.reading && NextFrame(c.buf).More?
    ensures IsRun(c, steps) && After(c, steps) == Finish(c.(buf := c.buf + chunk))
  {
    hide NextFrame, Finish;
    var later := CutsAreRun(Apply(c, Arrive(chunk)));
    steps := [Arrive(chunk)] + later;
    assert steps[1..] == later;
  }

  // Any chunking ------------------------------------------------------------------------------

  /** The read task over several Data messages; an aborted task reads no more. */
  function ReadChunks(c: Client, chunks: seq<seq<u8>>): Client
    requires TableOk(c)
    decreases |chunks|
  {
    if chunks == [] || !c.reading then c
    else ReadChunks(Finish(c.(buf := c.buf + chunks[0])), chunks[1..])
  }

  lemma {:induction false} DispatchAllAppend(c: Client, a: seq<seq<u8>>, b: seq<seq<u8>>)
    requires TableOk(c)
    ensures DispatchAll(c, a + b) == DispatchAll(DispatchAll(c, a), b)
    decreases |a|
  {
    hide DispatchResponse;
    if a == [] {
      assert a + b == b;
    } else {
      assert (a + b)[1..] == a[1..] + b;
      DispatchAllAppend(DispatchResponse(c, a[0]), a[1..], b);
    }
  }

  /** Finishing in two instalments is finishing at once. */
  lemma FinishResumes(c: Client, more: seq<u8>)
    requires TableOk(c) && c.reading
    ensures var c1 := Finish(c);
            Finish(c.(buf := c.buf + more)) == if c1.reading then Finish(c1.(buf := c1.buf + more)) else c1
  {
    hide DispatchAll, Drain, ParseFrames;
    var p := ParseFrames(c.buf);
    ParseResumes(c.buf, more);
    if p.stop.Waiting? {
      var q := ParseFrames(p.stop.tail + more);
      DispatchAllAppend(c, p.packets, q.packets);
      StoppedIgnoresBuffer(c, p.packets + q.packets, q.stop, c.buf + more);
      StoppedIgnoresBuffer(DispatchAll(c, p.packets), q.packets, q.stop, p.stop.tail + more);
    } else {
      StoppedIgnoresBuffer(c, p.packets, p.stop, c.buf + more);
    }
  }

  /** For every stream and every way of cutting it, the read task leaves the client, with every
      call's results, exactly as if the stream had come in one piece. */
  lemma {:induction false} ClientChunkingIrrelevant(c: Client, chunks: seq<seq<u8>>)
    requires TableOk(c) && c.reading && NextFrame(c.buf).More?
    ensures ReadChunks(c, chunks) == Finish(c.(buf := c.buf + Concat(chunks)))
    decreases |chunks|
  {
    if chunks == [] {
      assert c.buf + [] == c.buf;
      FinishUnrolls(c);
    } else {
      hide Finish;
      var c1 := Finish(c.(buf := c.buf + chunks[0]));
      AppendAssociates(c.buf, chunks[0], Concat(chunks[1..]));
      FinishResumes(c.(buf := c.buf + chunks[0]), Concat(chunks[1..]));
      if c1.reading {
        FinishedWaits(c.(buf := c.buf + chunks[0]));
        ClientChunkingIrrelevant(c1, chunks[1..]);
      }
    }
  }

  lemma FinishedWaits(c: Client)
    requires TableOk(c) && Finish(c).reading
    ensures NextFrame(Finish(c).buf).More?
  {
    hide DispatchAll, Drain, NextFrame;
    var _ := ParseIsSplit(c.buf);
  }

  function AllFailed(kind: ErrorKind, ids: set<u32>): map<u32, Completion> {
    map id | id in ids :: Failed(kind)
  }

  /** The drain loop part way: the senders under `ids` have been failed. */
  function DrainOnly(c: Client, kind: ErrorKind, ids: set<u32>): Client
    requires TableOk(c)
  {
    Settle(c, AllFailed(kind, ids))
  }

  lemma DrainNothing(c: Client, kind: ErrorKind)
    requires TableOk(c)
    ensures DrainOnly(c, kind, {}) == c
  {
    assert c.pending - {} == c.pending;
  }

  lemma DrainOneMore(c: Client, kind: ErrorKind, ids: set<u32>, id: u32)
    requires TableOk(c) && id !in ids
    ensures TableOk(DrainOnly(c, kind, ids))
    ensures Fire(DrainOnly(c, kind, ids), id, Failed(kind)) == DrainOnly(c, kind, ids + {id})
  {
    hide Settle, Fire;
    assert AllFailed(kind, ids)[id := Failed(kind)] == AllFailed(kind, ids + {id});
    SettleOne(c, AllFailed(kind, ids), id, Failed(kind));
  }

  lemma DrainedAll(c: Client, kind: ErrorKind, ids: set<u32>)
    requires TableOk(c) && DrainOnly(c, kind, ids).pending == map[]
    ensures DrainOnly(c, kind, ids) == Drain(c, kind)
  {
    forall id | id in c.pending
      ensures id in ids
    {
      assert id !in DrainOnly(c, kind, ids).pending;
    }
  }

  class SftpClientRuntime {
    var nextId: u32
    var slots: seq<Slot>
    var pending: map<u32, nat>
    var enqueued: seq<nat>
    var written: nat
    var buf: seq<u8>
    var reading: bool
    var writing: bool
    var abortReason: Option<AbortReason>

    ghost function View(): Client
      reads this
    {
      Client(nextId, slots, pending, enqueued, written, buf, reading, writing, abortReason)
    }

    constructor ()
      ensures View() == START
    {
      nextId, slots, pending := 10, [], map[];
      enqueued, written, buf := [], 0, [];
      reading, writing, abortReason := true, true, None;
    }

    /** `next_request_id`, for a new call. */
    method NextRequestId(request: Request<Metadata>) returns (slot: nat)
      requires TableOk(View())
      modifies this
      ensures slot == |old(slots)|
      ensures View() == Apply(old(View()), TakeId(request))
    {
      slot := |slots|;
      slots := slots + [Slot(Issue(nextId, request), false, false, [])];
      nextId := (nextId + 1) % TWO_32;
    }

    /** The locked insertion in `send_and_await`. */
    method InsertPending(slot: nat)
      requires TableOk(View()) && Enabled(View(), Insert(slot))
      modifies this
      ensures View() == Apply(old(View()), Insert(slot))
    {
      pending := pending[slots[slot].issue.id := slot];
      slots := slots[slot := slots[slot].(inserted := true)];
    }

    /** Handing the packet to the write queue. */
    method SendToWriter(slot: nat, accepted: bool)
      requires TableOk(View()) && Enabled(View(), Enqueue(slot, accepted))
      modifies this
      ensures View() == Apply(old(View()), Enqueue(slot, accepted))
    {
      slots := slots[slot := slots[slot].(queued := true)];
      if accepted {
        enqueued := enqueued + [slot];
      }
    }

    /** Take the sender under `id` out of the table, if there is one, and let it fire. */
    method FireSender(id: u32, r: Completion)
      requires TableOk(View())
      modifies this
      ensures View() == Fire(old(View()), id, r) && pending == old(pending) - {id}
    {
      if id in pending {
        var slot := pending[id];
        pending := pending - {id};
        slots := slots[slot := Fired(slots[slot], r)];
      } else {
        assert pending - {id} == pending;
      }
    }

    /** `dispatch_response`. */
    method Dispatch(packet: seq<u8>)
      requires TableOk(View())
      modifies this
      ensures View() == DispatchResponse(old(View()), packet)
    {
      hide DecodePacket, Fire;
      if packet != [] {
        var reply := Cursors.ReadPacket(packet);
        FireSender(reply.id, CompletionOf(reply));
      }
    }

    /** The drain loop shared by the two tasks: senders leave the table in no particular order. */
    method DrainPending(kind: ErrorKind)
      requires TableOk(View())
      modifies this
      ensures View() == Drain(old(View()), kind)
    {
      ghost var start := View();
      ghost var done: set<u32> := {};
      DrainNothing(start, kind);
      hide DrainOnly, Drain, Fire, TableOk;
      while pending != map[]
        invariant TableOk(View()) && View() == DrainOnly(start, kind, done) && pending.Keys !! done
        decreases |pending|
      {
        var id :| id in pending;
        DrainOneMore(start, kind, done, id);
        FireSender(id, Failed(kind));
        done := done + {id};
      }
      DrainedAll(start, kind, done);
    }

    /** One round of the read task's inner loop. */
    method CutFrame() returns (again: bool)
      requires TableOk(View()) && reading
      modifies this
      ensures again == NextFrame(old(buf)).Packet?
      ensures View() == if NextFrame(old(buf)).More? then old(View()) else Apply(old(View()), Cut)
    {
      hide Drain, DispatchResponse, U32Of;
      if |buf| < 4 {
        return false;
      }
      var len := U32Of(buf[..4]);
      if len > MAX_SFTP_PACKET_SIZE || len == 0 {
        DrainPending(Protocol);
        buf := [];
        reading := false;
        abortReason := Some(BadLength(len));
        return false;
      }
      if |buf| < 4 + len {
        return false;
      }
      var packet, rest := buf[4..4 + len], buf[4 + len..];
      Dispatch(packet);
      buf := rest;
      return true;
    }

    /** The read task on one `Data` message: append it, then cut and dispatch whole frames. */
    method ReadData(chunk: seq<u8>)
      requires TableOk(View()) && reading
      modifies this
      ensures View() == Finish(old(View()).(buf := old(buf) + chunk))
    {
      hide Drain, DispatchResponse, U32Of, Finish;
      buf := buf + chunk;
      ghost var start := View();
      var again := true;
      while again
        invariant TableOk(View()) && (again ==> reading)
        invariant Finish(start) == if again then Finish(View()) else View()
        decreases again, |buf|
      {
        FinishUnrolls(View());
        again := CutFrame();
      }
    }

    /** The read task on a sequence of Data messages. */
    method ReadAll(chunks: seq<seq<u8>>)
      requires TableOk(View()) && reading && NextFrame(buf).More?
      modifies this
      ensures View() == Finish(old(View()).(buf := old(buf) + Concat(chunks)))
    {
      hide Finish, NextFrame, Concat;
      ghost var start := View();
      ClientChunkingIrrelevant(start, chunks);
      var i := 0;
      while i < |chunks| && reading
        invariant 0 <= i <= |chunks| && TableOk(View())
        invariant ReadChunks(start, chunks) == ReadChunks(View(), chunks[i..])
      {
        assert chunks[i..][0] == chunks[i] && chunks[i..][1..] == chunks[i + 1..];
        ReadData(chunks[i]);
        i := i + 1;
      }
    }

    /** The end of the write task, after a failed write or a closed queue. */
    method WriteTaskExit(failed: bool)
      requires TableOk(View()) && writing
      modifies this
      ensures View() == Apply(old(View()), WriteExit(failed))
    {
      hide Drain;
      var reason := if failed then WriteFailed else ChannelClosed;
      DrainPending(ChannelIo);
      writing := false;
      abortReason := Some(reason);
    }
  }
}
