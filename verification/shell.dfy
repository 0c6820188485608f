/**
 Shell byte streams: readers that hand out at most as many bytes as the caller's buffer takes and
 keep the rest. For every message sequence and every sequence of buffer sizes, no byte is lost,
 repeated or moved.
 */
module Shell {
  import opened Bytes
  import opened Exec

  function Payload(m: Message): seq<u8> {
    if m.Data? || m.ExtendedData? then m.data else []
  }

  function Payloads(ms: seq<Message>): seq<u8> {
    if ms == [] then [] else Payload(ms[0]) + Payloads(ms[1..])
  }

  /** The exit recorded after `ms`: the last one wins. */
  function LastExit(ms: seq<Message>, before: CommandExit): CommandExit {
    if ms == [] then before
    else match ms[|ms| - 1]
      case ExitStatus(status) => Status(status)
      case ExitSignal(signal, coreDumped) => Signal(signal, coreDumped)
      case _ => LastExit(ms[..|ms| - 1], before)
  }

  lemma {:induction false} PayloadsAppend(a: seq<Message>, b: seq<Message>)
    ensures Payloads(a + b) == Payloads(a) + Payloads(b)
  {
    hide Payload;
    if a == [] {
      assert a + b == b;
    } else {
      PayloadsAppend(a[1..], b);
      assert (a + b)[1..] == a[1..] + b;
      AppendAssociates(Payload(a[0]), Payloads(a[1..]), Payloads(b));
    }
  }

  lemma PayloadsOne(m: Message)
    ensures Payloads([m]) == Payload(m)
  {
    assert [m][1..] == [] && Payload(m) + [] == Payload(m);
  }

  /** A message after which `read` returns. */
  predicate Ends(m: Message) {
    m.Data? || m.ExtendedData? || m.Close?
  }

  /** Where a waiting `read` stops: at a payload, whose leftover goes to its own stream's buffer, or
      closed, at a Close or at the end of the channel. */
  ghost predicate Stopped(inbox: seq<Message>, taken: nat, closed: bool, stdout: seq<u8>, stderr: seq<u8>) {
    taken <= |inbox|
    && (if taken > 0 && Ends(inbox[taken - 1]) then
          closed == inbox[taken - 1].Close?
          && (stdout != [] ==> inbox[taken - 1].Data?)
          && (stderr != [] ==> inbox[taken - 1].ExtendedData?)
        else closed && taken == |inbox| && stdout == [] && stderr == [])
  }

  class ShellHandle {
    var inbox: seq<Message>
    var stdoutBuf: seq<u8>
    var stderrBuf: seq<u8>
    var exit: CommandExit
    var closed: bool

    /** At most one of the two leftovers is non-empty. */
    ghost predicate Valid()
      reads this
    {
      stdoutBuf == [] || stderrBuf == []
    }

    ghost function Leftover(): seq<u8>
      reads this
    {
      stdoutBuf + stderrBuf
    }

    constructor (inbox: seq<Message>)
      ensures Valid() && this.inbox == inbox && Leftover() == [] && exit == Missing && !closed
    {
      this.inbox := inbox;
      stdoutBuf, stderrBuf, exit, closed := [], [], Missing, false;
    }

    /** `ShellHandle::read` with a buffer of `size` bytes. What was left over, followed by the
        payload taken now, is what is returned followed by what is left over. `taken` counts the
        messages consumed: none while bytes are left over, else up to the first payload or Close.
        Bytes are left over only when the buffer was filled. */
    method Read(size: nat) returns (out: seq<u8>, ghost taken: nat)
      requires Valid()
      modifies this
      ensures Valid() && |out| <= size
      ensures taken <= |old(inbox)| && inbox == old(inbox)[taken..]
      ensures old(Leftover()) + Payloads(old(inbox)[..taken]) == out + Leftover()
      ensures exit == LastExit(old(inbox)[..taken], old(exit))
      ensures forall i :: 0 <= i < taken - 1 ==> !Ends(old(inbox)[i])
      ensures Leftover() != [] ==> |out| == size
      ensures old(stdoutBuf) != [] ==> stderrBuf == []
      ensures old(stderrBuf) != [] ==> stdoutBuf == []
      ensures size == 0 || old(Leftover()) != [] || old(closed) ==> taken == 0 && closed == old(closed)
      ensures size > 0 && old(Leftover()) == [] && !old(closed) ==>
                Stopped(old(inbox), taken, closed, stdoutBuf, stderrBuf)
    {
      hide Payload, LastExit, Ends;
      out, taken := [], 0;
      assert inbox[0..] == inbox;
      NothingTaken(inbox, exit);
      if size == 0 {
        assert Leftover() + [] == [] + Leftover();
      } else if stdoutBuf != [] {
        var n := Min(|stdoutBuf|, size);
        assert stdoutBuf == stdoutBuf[..n] + stdoutBuf[n..];
        out, stdoutBuf := stdoutBuf[..n], stdoutBuf[n..];
      } else if stderrBuf != [] {
        var n := Min(|stderrBuf|, size);
        assert stderrBuf == stderrBuf[..n] + stderrBuf[n..];
        out, stderrBuf := stderrBuf[..n], stderrBuf[n..];
      } else if !closed {
        out, taken := Wait(size);
        assert [] + Payloads(old(inbox)[..taken]) == Payloads(old(inbox)[..taken]);
      }
    }

    /** The message loop of `read`, entered with nothing left over. */
    method Wait(size: nat) returns (out: seq<u8>, ghost taken: nat)
      requires stdoutBuf == [] && stderrBuf == [] && !closed && size > 0
      modifies this
      ensures Valid() && |out| <= size
      ensures taken <= |old(inbox)| && inbox == old(inbox)[taken..]
      ensures Payloads(old(inbox)[..taken]) == out + Leftover()
      ensures exit == LastExit(old(inbox)[..taken], old(exit))
      ensures forall i :: 0 <= i < taken - 1 ==> !Ends(old(inbox)[i])
      ensures Leftover() != [] ==> |out| == size
      ensures Stopped(old(inbox), taken, closed, stdoutBuf, stderrBuf)
    {
      hide Payload, LastExit, Payloads;
      out, taken := [], 0;
      assert inbox[0..] == inbox;
      NothingTaken(inbox, exit);
      while true
        invariant taken <= |old(inbox)| && inbox == old(inbox)[taken..]
        invariant stdoutBuf == [] && stderrBuf == [] && !closed && out == []
        invariant Payloads(old(inbox)[..taken]) == []
        invariant exit == LastExit(old(inbox)[..taken], old(exit))
        invariant forall i :: 0 <= i < taken ==> !Ends(old(inbox)[i])
        decreases |inbox|
      {
        if inbox == [] {
          closed := true;
          return;
        }
        var m := inbox[0];
        ghost var before := old(inbox)[..taken];
        inbox := inbox[1..];
        taken := taken + 1;
        assert old(inbox)[..taken] == before + [m];
        TakeOne(before, m);
        ExitOne(before, m, old(exit));
        match m {
          case Data(data) =>
            out, stdoutBuf := Split(data, size);
            assert Leftover() == stdoutBuf;
            return;
          case ExtendedData(_, data) =>
            out, stderrBuf := Split(data, size);
            assert Leftover() == stderrBuf;
            return;
          case ExitStatus(status) => exit := Status(status);
          case ExitSignal(signal, coreDumped) => exit := Signal(signal, coreDumped);
          case Close =>
            closed := true;
            return;
          case _ =>
        }
      }
    }
  }

  /** What fits the caller's buffer, and what is left over. */
  method Split(data: seq<u8>, size: nat) returns (out: seq<u8>, rest: seq<u8>)
    ensures data == out + rest && |out| <= size && (rest != [] ==> |out| == size)
  {
    var n := Min(|data|, size);
    out, rest := data[..n], [];
    if n < |data| {
      rest := data[n..];
    }
  }

  lemma NothingTaken(inbox: seq<Message>, exit: CommandExit)
    ensures Payloads(inbox[..0]) == [] && LastExit(inbox[..0], exit) == exit
  {}

  lemma ExitOne(before: seq<Message>, m: Message, exit: CommandExit)
    ensures LastExit(before + [m], exit)
            == match m
               case ExitStatus(status) => Status(status)
               case ExitSignal(signal, coreDumped) => Signal(signal, coreDumped)
               case _ => LastExit(before, exit)
  {
    assert (before + [m])[..|before|] == before;
  }

  lemma TakeOne(before: seq<Message>, m: Message)
    ensures Payloads(before + [m]) == Payloads(before) + Payload(m)
    ensures Payloads(before) == [] ==> Payloads(before + [m]) == Payload(m)
    ensures m.Data? || m.ExtendedData? ==> Payload(m) == m.data
    ensures !m.Data? && !m.ExtendedData? ==> Payload(m) == []
    ensures (before + [m])[..|before|] == before && (before + [m])[|before|] == m
  {
    PayloadsAppend(before, [m]);
    PayloadsOne(m);
  }

  /** Any number of reads with any buffer sizes: everything returned, then what is left over, is
      exactly the payload of the messages taken, in arrival order. */
  method ReadMany(shell: ShellHandle, sizes: seq<nat>) returns (outs: seq<seq<u8>>, ghost taken: nat)
    requires shell.Valid()
    modifies shell
    ensures shell.Valid() && |outs| == |sizes| && Within(outs, sizes)
    ensures taken <= |old(shell.inbox)| && shell.inbox == old(shell.inbox)[taken..]
    ensures old(shell.Leftover()) + Payloads(old(shell.inbox)[..taken]) == Concat(outs) + shell.Leftover()
  {
    hide Payloads, Concat, Payload, LastExit, Ends, Stopped;
    outs, taken := [], 0;
    ghost var start, first := shell.inbox, shell.Leftover();
    NothingRead(start, first);
    for k := 0 to |sizes|
      invariant shell.Valid() && |outs| == k && Within(outs, sizes)
      invariant taken <= |start| && shell.inbox == start[taken..]
      invariant Accounted(first, start, taken, outs, shell.Leftover())
    {
      hide Accounted, Within;
      ghost var left := shell.Leftover();
      var out, more := shell.Read(sizes[k]);
      AccountedStep(first, start, taken, outs, left, more, out, shell.Leftover());
      WithinStep(outs, sizes, out);
      outs, taken := outs + [out], taken + more;
    }
  }

  /** No read returns more than its buffer takes. */
  predicate Within(outs: seq<seq<u8>>, sizes: seq<nat>) {
    |outs| <= |sizes| && forall i :: 0 <= i < |outs| ==> |outs[i]| <= sizes[i]
  }

  lemma WithinStep(outs: seq<seq<u8>>, sizes: seq<nat>, out: seq<u8>)
    requires Within(outs, sizes) && |outs| < |sizes| && |out| <= sizes[|outs|]
    ensures Within(outs + [out], sizes)
  {}

  /** Everything returned so far, then what is left, is what was there at first, then the payload
      of the first `taken` messages. */
  ghost predicate Accounted(first: seq<u8>, start: seq<Message>, taken: nat, outs: seq<seq<u8>>, left: seq<u8>) {
    taken <= |start| && first + Payloads(start[..taken]) == Concat(outs) + left
  }

  lemma NothingRead(start: seq<Message>, first: seq<u8>)
    ensures Accounted(first, start, 0, [], first) && start[0..] == start
  {
    assert start[..0] == [] && first + [] == [] + first;
  }

  lemma AccountedStep(first: seq<u8>, start: seq<Message>, taken: nat, outs: seq<seq<u8>>, left: seq<u8>,
                      more: nat, out: seq<u8>, left': seq<u8>)
    requires Accounted(first, start, taken, outs, left) && taken + more <= |start|
    requires left + Payloads(start[taken..][..more]) == out + left'
    ensures Accounted(first, start, taken + more, outs + [out], left')
            && start[taken..][more..] == start[taken + more..]
  {
    ConcatSnoc(outs, out);
    PayloadsResume(start, taken, more);
    Shift(first, Payloads(start[..taken]), Concat(outs), left, Payloads(start[taken..][..more]), out, left');
  }

  lemma PayloadsResume(ms: seq<Message>, k: nat, more: nat)
    requires k + more <= |ms|
    ensures ms[k..][more..] == ms[k + more..]
    ensures Payloads(ms[..k + more]) == Payloads(ms[..k]) + Payloads(ms[k..][..more])
  {
    assert ms[..k + more] == ms[..k] + ms[k..][..more];
    PayloadsAppend(ms[..k], ms[k..][..more]);
  }

  lemma Shift(a: seq<u8>, p: seq<u8>, c: seq<u8>, l: seq<u8>, q: seq<u8>, out: seq<u8>, l': seq<u8>)
    requires a + p == c + l && l + q == out + l'
    ensures a + (p + q) == (c + out) + l'
  {
    AppendAssociates(a, p, q);
    AppendAssociates(c, l, q);
    AppendAssociates(c, out, l');
  }

  // The async wrapper -----------------------------------------------------------------------------------------

  /** What can happen around `ShellAsyncIo`: the bridge task takes a channel message, or finds the
      channel ended (`None`), or the reader polls with room for `room` bytes. */
  datatype Event = Arrives(m: Option<Message>) | Poll(room: nat)

  predicate EndsBridge(m: Option<Message>) {
    m.None? || m.value.Close?
  }

  function Forwarded(m: Option<Message>): seq<u8> {
    if m.None? then [] else Payload(m.value)
  }

  class ShellAsyncIo {
    var rx: seq<seq<u8>>
    var rxClosed: bool
    var readBuf: seq<u8>
    var readPos: nat
    var exit: CommandExit

    ghost predicate Valid()
      reads this
    {
      readPos <= |readBuf|
    }

    /** Bytes taken from the bridge but not yet returned. */
    ghost function Remaining(): seq<u8>
      requires Valid()
      reads this
    {
      readBuf[readPos..]
    }

    /** All bytes on their way to the reader. */
    ghost function Ahead(): seq<u8>
      requires Valid()
      reads this
    {
      Remaining() + Concat(rx)
    }

    constructor ()
      ensures Valid() && rx == [] && !rxClosed && Remaining() == [] && exit == Missing
    {
      rx, rxClosed, readBuf, readPos, exit := [], false, [], 0, Missing;
    }

    /** The bridge: payloads go to the reader in order and exits to the shared slot; Close or the
        end of the channel ends it. */
    method Bridge(m: Option<Message>)
      requires Valid()
      modifies this
      ensures Valid() && Remaining() == old(Remaining())
      ensures rxClosed <==> old(rxClosed) || m.None? || m == Some(Close)
      ensures Ahead() == old(Ahead()) + if old(rxClosed) then [] else Forwarded(m)
      ensures exit == if old(rxClosed) || m.None? then old(exit) else LastExit([m.value], old(exit))
    {
      if rxClosed {
        return;
      }
      if m.None? {
        rxClosed := true;
        return;
      }
      match m.value {
        case Data(data) => Forward(data);
        case ExtendedData(_, data) => Forward(data);
        case ExitStatus(status) => exit := Status(status);
        case ExitSignal(signal, coreDumped) => exit := Signal(signal, coreDumped);
        case Close => rxClosed := true;
        case _ =>
      }
    }

    method Forward(data: seq<u8>)
      requires Valid()
      modifies this`rx
      ensures Valid() && Ahead() == old(Ahead()) + data
    {
      ConcatSnoc(rx, data);
      AppendAssociates(Remaining(), Concat(rx), data);
      rx := rx + [data];
    }

    /** `poll_read`: pending exactly when nothing is ahead and more may come; at most one chunk is
        taken, and only when nothing of the last one remains. */
    method PollRead(room: nat) returns (ready: bool, out: seq<u8>)
      requires Valid()
      modifies this
      ensures Valid() && |out| <= room && rxClosed == old(rxClosed) && exit == old(exit)
      ensures old(Ahead()) == out + Ahead()
      ensures !ready <==> old(Remaining()) == [] && old(rx) == [] && !rxClosed
      ensures Remaining() != [] ==> |out| == room
      ensures rx == if old(Remaining()) == [] && old(rx) != [] then old(rx)[1..] else old(rx)
    {
      out := [];
      if readPos < |readBuf| {
        var n := Min(|readBuf| - readPos, room);
        out := readBuf[readPos..readPos + n];
        assert readBuf[readPos..] == out + readBuf[readPos + n..];
        AppendAssociates(out, readBuf[readPos + n..], Concat(rx));
        readPos := readPos + n;
        return true, out;
      }
      assert Remaining() == [];
      if rx == [] {
        return rxClosed, [];
      }
      var data := rx[0];
      rx := rx[1..];
      var n := Min(|data|, room);
      out := data[..n];
      if n < |data| {
        readBuf, readPos := data, n;
      }
      assert data == data[..n] + data[n..];
      assert Remaining() == data[n..];
      AppendAssociates(out, data[n..], Concat(rx));
      assert [] + Concat(old(rx)) == Concat(old(rx));
      return true, out;
    }
  }

  /** The messages that pass the bridge before it ends. */
  function Passed(events: seq<Event>, ended: bool): seq<u8> {
    if events == [] || ended then []
    else match events[0]
      case Poll(_) => Passed(events[1..], false)
      case Arrives(m) => Forwarded(m) + Passed(events[1..], EndsBridge(m))
  }

  lemma {:induction false} PassedSnoc(events: seq<Event>, ended: bool, e: Event)
    ensures Passed(events + [e], ended)
            == Passed(events, ended) + if e.Arrives? && !HasEnded(events, ended) then Forwarded(e.m) else []
    ensures HasEnded(events + [e], ended) <==> HasEnded(events, ended) || (e.Arrives? && EndsBridge(e.m))
  {
    hide Forwarded, EndsBridge;
    if events == [] || ended {
      if !ended {
        assert [e][1..] == [] && [] + [e] == [e];
        if e.Arrives? {
          assert Forwarded(e.m) + [] == [] + Forwarded(e.m);
        }
      } else {
        EndedStays(events, e);
      }
    } else {
      assert (events + [e])[1..] == events[1..] + [e];
      var closes := events[0].Arrives? && EndsBridge(events[0].m);
      PassedSnoc(events[1..], closes, e);
      if events[0].Arrives? {
        AppendAssociates(Forwarded(events[0].m), Passed(events[1..], closes),
                         if e.Arrives? && !HasEnded(events, ended) then Forwarded(e.m) else []);
      }
    }
  }

  predicate HasEnded(events: seq<Event>, ended: bool) {
    if events == [] || ended then ended
    else HasEnded(events[1..], events[0].Arrives? && EndsBridge(events[0].m))
  }

  lemma EndedStays(events: seq<Event>, e: Event)
    ensures HasEnded(events, true) && HasEnded(events + [e], true)
  {}

  /** Any interleaving of arrivals and polls: bytes returned, then bytes still ahead, are exactly
      the payloads that passed the bridge, in order. */
  method Drive(io: ShellAsyncIo, events: seq<Event>) returns (outs: seq<seq<u8>>)
    requires io.Valid()
    modifies io
    ensures io.Valid()
    ensures old(io.Ahead()) + Passed(events, old(io.rxClosed)) == Concat(outs) + io.Ahead()
  {
    hide Forwarded;
    outs := [];
    ghost var first, ended := io.Ahead(), io.rxClosed;
    for k := 0 to |events|
      invariant io.Valid() && io.rxClosed == HasEnded(events[..k], ended)
      invariant first + Passed(events[..k], ended) == Concat(outs) + io.Ahead()
    {
      var e := events[k];
      assert events[..k + 1] == events[..k] + [e];
      PassedSnoc(events[..k], ended, e);
      ghost var before, passed := io.Ahead(), Passed(events[..k], ended);
      match e {
        case Arrives(m) =>
          io.Bridge(m);
          ghost var p := if HasEnded(events[..k], ended) then [] else Forwarded(m);
          Shift(first, passed, Concat(outs), before, p, [], io.Ahead());
          assert Concat(outs) + [] == Concat(outs);
        case Poll(room) =>
          var _, out := io.PollRead(room);
          ConcatSnoc(outs, out);
          Shift(first, passed, Concat(outs), before, [], out, io.Ahead());
          outs := outs + [out];
      }
    }
    assert events[..|events|] == events;
  }
}
