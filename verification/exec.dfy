/**
 Remote command execution, both ends: the server's streaming pump and one-shot response, and the
 client's `Session::command` collector. Sections 5.3, 6.5 and 6.10 of RFC 4254.
 */
module Exec {
  import opened Bytes

  datatype CommandExit = Status(code: u32) | Signal(name: string, coreDumped: bool) | Missing

  /** What a channel delivers. */
  datatype Message =
    | Success
    | Failure
    | Data(data: seq<u8>)
    | ExtendedData(code: u32, data: seq<u8>)
    | ExitStatus(status: u32)
    | ExitSignal(signal: string, coreDumped: bool)
    | Eof
    | Close
    | Other

  function ExitMessages(exit: CommandExit): seq<Message> {
    match exit
    case Status(code) => [ExitStatus(code)]
    case Signal(name, coreDumped) => [ExitSignal(name, coreDumped)]
    case Missing => []
  }

  function ExitIn(m: Message): CommandExit {
    match m
    case ExitStatus(status) => Status(status)
    case ExitSignal(signal, coreDumped) => Signal(signal, coreDumped)
    case _ => Missing
  }

  // The streaming pump -------------------------------------------------------------------------------------------

  /** Commands from a streaming handler to the pump. */
  datatype Command = Stdout(data: seq<u8>) | Stderr(data: seq<u8>) | Exited(exit: CommandExit)

  datatype HandlerEnd = Returned | Failed | Panicked

  predicate HasExit(cmds: seq<Command>) {
    exists i :: 0 <= i < |cmds| && cmds[i].Exited?
  }

  function Emit(cmd: Command): seq<Message> {
    match cmd
    case Stdout(data) => [Data(data)]
    case Stderr(data) => [ExtendedData(1, data)]
    case Exited(exit) => ExitMessages(exit)
  }

  /** What the commands up to and including the first exit put on the channel. */
  function Emitted(cmds: seq<Command>): seq<Message> {
    if cmds == [] then []
    else if cmds[0].Exited? then Emit(cmds[0])
    else Emit(cmds[0]) + Emitted(cmds[1..])
  }

  function DefaultExit(end: HandlerEnd): Message {
    ExitStatus(if end == Returned then 0 else 1)
  }

  /** The whole channel trace of a handler that issued `cmds` and ended as `end`. */
  function ExecTrace(cmds: seq<Command>, end: HandlerEnd): seq<Message> {
    [Success] + (Emitted(cmds) + ((if HasExit(cmds) then [] else [DefaultExit(end)]) + [Eof, Close]))
  }

  datatype Phase = Pumping | Awaiting | Done

  /** Handler and pump as concurrent processes around the command queue. `issued` is every command
      sent through the handler's context, `open` whether the queue still takes them. The context
      may outlive the handler, in a task of its own, until it is `dropped`. */
  datatype Pump = Pump(
    issued: seq<Command>,
    queue: seq<Command>,
    open: bool,
    dropped: bool,
    end: Option<HandlerEnd>,
    phase: Phase,
    exitSent: bool,
    trace: seq<Message>
  )

  const LAUNCHED := Pump([], [], true, false, None, Pumping, false, [Success])

  datatype PumpStep =
    | Send(cmd: Command)
    | DropContext
    | HandlerEnds(how: HandlerEnd)
    | Receive
    | QueueEnds
    | CloseQueue
    | Finish

  predicate CanStep(p: Pump, st: PumpStep) {
    match st
    case Send(_) => !p.dropped
    case DropContext => !p.dropped
    case HandlerEnds(_) => p.end.None?
    case Receive => p.phase.Pumping? && p.queue != []
    case QueueEnds => p.phase.Pumping? && p.queue == [] && p.end.Some? && p.dropped
    case CloseQueue => p.phase.Awaiting? && p.exitSent && p.open
    case Finish => p.phase.Awaiting? && p.end.Some?
  }

  function PumpNext(p: Pump, st: PumpStep): Pump
    requires CanStep(p, st)
  {
    match st
    case Send(cmd) => p.(issued := p.issued + [cmd], queue := if p.open then p.queue + [cmd] else p.queue)
    case DropContext => p.(dropped := true)
    case HandlerEnds(how) => p.(end := Some(how))
    case Receive =>
      var cmd, p' := p.queue[0], p.(queue := p.queue[1..]);
      if cmd.Exited? then
        if p.exitSent then p' else p'.(exitSent := true, phase := Awaiting, trace := p.trace + Emit(cmd))
      else if p.exitSent then p' else p'.(trace := p.trace + Emit(cmd))
    case QueueEnds => p.(phase := Awaiting)
    case CloseQueue => p.(open := false)
    case Finish =>
      p.(phase := Done,
         trace := p.trace + ((if p.exitSent then [] else [DefaultExit(p.end.value)]) + [Eof, Close]))
  }

  ghost predicate PumpRun(p: Pump, steps: seq<PumpStep>)
    decreases |steps|
  {
    steps == [] || (CanStep(p, steps[0]) && PumpRun(PumpNext(p, steps[0]), steps[1..]))
  }

  ghost function PumpAfter(p: Pump, steps: seq<PumpStep>): Pump
    requires PumpRun(p, steps)
    decreases |steps|
  {
    if steps == [] then p else PumpAfter(PumpNext(p, steps[0]), steps[1..])
  }

  lemma {:induction false} EmittedAppend(a: seq<Command>, b: seq<Command>)
    ensures Emitted(a + b) == if HasExit(a) then Emitted(a) else Emitted(a) + Emitted(b)
    ensures HasExit(a + b) <==> HasExit(a) || HasExit(b)
  {
    hide Emit;
    if a == [] {
      assert a + b == b;
    } else {
      EmittedAppend(a[1..], b);
      assert (a + b)[1..] == a[1..] + b;
      assert HasExit(a) <==> a[0].Exited? || HasExit(a[1..]) by { HasExitUncons(a); }
      HasExitUncons(a + b);
    }
  }

  lemma HasExitUncons(cmds: seq<Command>)
    requires cmds != []
    ensures HasExit(cmds) <==> cmds[0].Exited? || HasExit(cmds[1..])
  {
    if HasExit(cmds) && !cmds[0].Exited? {
      var i :| 0 <= i < |cmds| && cmds[i].Exited?;
      assert cmds[1..][i - 1].Exited?;
    }
    if HasExit(cmds[1..]) {
      var i :| 0 <= i < |cmds[1..]| && cmds[1..][i].Exited?;
      assert cmds[i + 1].Exited?;
    }
  }

  /** Between steps: while pumping, the trace shows what has left the queue; afterwards it shows
      all that will ever be shown of the handler's commands. */
  ghost predicate PumpInv(p: Pump) {
    match p.phase
    case Pumping =>
      p.open && !p.exitSent && |p.queue| <= |p.issued|
      && var taken := p.issued[..|p.issued| - |p.queue|];
         p.issued == taken + p.queue && !HasExit(taken) && p.trace == [Success] + Emitted(taken)
    case Awaiting =>
      p.exitSent == HasExit(p.issued) && (p.exitSent || p.dropped) && p.trace == [Success] + Emitted(p.issued)
    case Done => p.end.Some? && (HasExit(p.issued) || p.dropped) && p.trace == ExecTrace(p.issued, p.end.value)
  }

  lemma SendKeepsInv(p: Pump, cmd: Command)
    requires PumpInv(p) && CanStep(p, Send(cmd))
    ensures PumpInv(PumpNext(p, Send(cmd)))
  {
    hide Emit, Emitted, HasExit;
    var p' := PumpNext(p, Send(cmd));
    if p.phase.Pumping? {
      assert p'.issued[..|p'.issued| - |p'.queue|] == p.issued[..|p.issued| - |p.queue|];
    } else {
      EmittedAppend(p.issued, [cmd]);
    }
  }

  lemma EmittedOne(cmd: Command)
    ensures Emitted([cmd]) == Emit(cmd) && (HasExit([cmd]) <==> cmd.Exited?)
  {
    HasExitUncons([cmd]);
    assert [cmd][1..] == [] && Emit(cmd) + [] == Emit(cmd);
  }

  lemma ReceiveKeepsInv(p: Pump)
    requires PumpInv(p) && CanStep(p, Receive)
    ensures PumpInv(PumpNext(p, Receive))
  {
    hide Emit, Emitted, HasExit;
    var taken, cmd, later := p.issued[..|p.issued| - |p.queue|], p.queue[0], p.queue[1..];
    assert p.issued == (taken + [cmd]) + later;
    EmittedOne(cmd);
    EmittedAppend(taken, [cmd]);
    EmittedAppend(taken + [cmd], later);
    AppendAssociates([Success], Emitted(taken), Emit(cmd));
    if !cmd.Exited? {
      assert p.issued[..|p.issued| - |later|] == taken + [cmd];
    }
  }

  lemma PumpStepKeepsInv(p: Pump, st: PumpStep)
    requires PumpInv(p) && CanStep(p, st)
    ensures PumpInv(PumpNext(p, st))
  {
    match st {
      case Send(cmd) => SendKeepsInv(p, cmd);
      case DropContext =>
      case HandlerEnds(_) =>
      case Receive => ReceiveKeepsInv(p);
      case QueueEnds =>
        assert p.issued[..|p.issued|] == p.issued;
      case CloseQueue =>
      case Finish =>
        hide Emitted, HasExit, Emit;
        AppendAssociates([Success], Emitted(p.issued),
                         (if p.exitSent then [] else [DefaultExit(p.end.value)]) + [Eof, Close]);
    }
  }

  lemma {:induction false} PumpRunKeepsInv(p: Pump, steps: seq<PumpStep>)
    requires PumpInv(p) && PumpRun(p, steps)
    ensures PumpInv(PumpAfter(p, steps))
    decreases |steps|
  {
    hide PumpInv, PumpNext, CanStep;
    if steps == [] {
    } else {
      PumpStepKeepsInv(p, steps[0]);
      PumpRunKeepsInv(PumpNext(p, steps[0]), steps[1..]);
    }
  }

  /** The streaming trace: for every handler, every ending and every interleaving, a finished pump
      has put exactly `ExecTrace` of the handler's commands on the channel, whatever is sent later.
      It finishes only after an exit or when the context is gone, even if the handler has ended. */
  lemma StreamingTrace(steps: seq<PumpStep>)
    requires PumpRun(LAUNCHED, steps) && PumpAfter(LAUNCHED, steps).phase.Done?
    ensures var p := PumpAfter(LAUNCHED, steps);
            p.end.Some? && (HasExit(p.issued) || p.dropped) && p.trace == ExecTrace(p.issued, p.end.value)
  {
    assert LAUNCHED.issued[..0] == [];
    PumpRunKeepsInv(LAUNCHED, steps);
  }

  /** The loop of the pump on a handler that has ended, as the program writes it. */
  method RunPump(cmds: seq<Command>, end: HandlerEnd) returns (trace: seq<Message>)
    ensures trace == ExecTrace(cmds, end)
  {
    hide Emit, ExitMessages;
    trace := [Success];
    var exitSent := false;
    var i := 0;
    while i < |cmds|
      invariant 0 <= i <= |cmds| && !exitSent
      invariant [Success] + Emitted(cmds) == trace + Emitted(cmds[i..])
      invariant HasExit(cmds) <==> HasExit(cmds[i..])
    {
      var cmd := cmds[i];
      HasExitUncons(cmds[i..]);
      assert cmds[i..][0] == cmd && cmds[i..][1..] == cmds[i + 1..];
      if cmd.Exited? {
        exitSent := true;
        trace := trace + Emit(cmd);
        break;
      }
      AppendAssociates(trace, Emit(cmd), Emitted(cmds[i + 1..]));
      trace := trace + Emit(cmd);
      i := i + 1;
    }
    assert exitSent <==> HasExit(cmds);
    assert [Success] + Emitted(cmds) == trace by {
      assert !exitSent ==> trace + [] == trace;
    }
    ghost var tail := (if HasExit(cmds) then [] else [DefaultExit(end)]) + [Eof, Close];
    AppendAssociates([Success], Emitted(cmds), tail);
    if !exitSent {
      trace := trace + [DefaultExit(end)];
    }
    trace := trace + [Eof];
    trace := trace + [Close];
  }

  /** The exit a handler reports: its first, or by how it ended. */
  function HandlerExit(cmds: seq<Command>, end: HandlerEnd): CommandExit {
    if cmds == [] then Status(if end == Returned then 0 else 1)
    else if cmds[0].Exited? then cmds[0].exit
    else HandlerExit(cmds[1..], end)
  }

  /** How many commands come before the first exit. */
  function UntilExit(cmds: seq<Command>): (k: nat)
    ensures k <= |cmds| && (k < |cmds| ==> cmds[k].Exited?) && forall i :: 0 <= i < k ==> !cmds[i].Exited?
  {
    if cmds == [] || cmds[0].Exited? then 0 else 1 + UntilExit(cmds[1..])
  }

  /** The messages that `ms` are for the outputs `cmds`: standard error is extended data of type 1. */
  predicate Carry(ms: seq<Message>, cmds: seq<Command>) {
    |ms| == |cmds|
    && forall i :: 0 <= i < |ms| ==>
         (cmds[i].Stdout? && ms[i] == Data(cmds[i].data)) || (cmds[i].Stderr? && ms[i] == ExtendedData(1, cmds[i].data))
  }

  lemma CarryCons(cmds: seq<Command>, later: seq<Message>)
    requires cmds != [] && !cmds[0].Exited? && Carry(later, cmds[1..][..UntilExit(cmds[1..])])
    ensures Carry(Emit(cmds[0]) + later, cmds[..UntilExit(cmds)])
  {
    var k := UntilExit(cmds);
    assert cmds[..k] == [cmds[0]] + cmds[1..][..k - 1];
  }

  lemma {:induction false} EmittedShape(cmds: seq<Command>, end: HandlerEnd) returns (outs: seq<Message>)
    ensures Carry(outs, cmds[..UntilExit(cmds)])
    ensures Emitted(cmds) + (if HasExit(cmds) then [] else [DefaultExit(end)])
            == outs + ExitMessages(HandlerExit(cmds, end))
  {
    if cmds == [] {
      outs := [];
    } else {
      HasExitUncons(cmds);
      hide HasExit;
      if cmds[0].Exited? {
        outs := [];
        assert Emit(cmds[0]) + [] == [] + ExitMessages(cmds[0].exit);
      } else {
        var later := EmittedShape(cmds[1..], end);
        outs := Emit(cmds[0]) + later;
        CarryCons(cmds, later);
        hide Emit, Carry, ExitMessages, DefaultExit;
        var default := if HasExit(cmds) then [] else [DefaultExit(end)];
        AppendAssociates(Emit(cmds[0]), Emitted(cmds[1..]), default);
        AppendAssociates(Emit(cmds[0]), later, ExitMessages(HandlerExit(cmds[1..], end)));
      }
    }
  }

  /** Every trace is the confirmation, one message per output before the first exit in the order they
      were issued, then the handler's exit, EOF and Close, each of them once; only a handler whose
      first exit is `Missing` leaves the exit out. */
  lemma TraceShape(cmds: seq<Command>, end: HandlerEnd)
    ensures var (t, k, exit) := (ExecTrace(cmds, end), UntilExit(cmds), HandlerExit(cmds, end));
            && |t| == k + (if exit.Missing? then 3 else 4)
            && t[0] == Success && Carry(t[1..1 + k], cmds[..k])
            && (exit.Status? ==> t[1 + k] == ExitStatus(exit.code))
            && (exit.Signal? ==> t[1 + k] == ExitSignal(exit.name, exit.coreDumped))
            && t[|t| - 2] == Eof && t[|t| - 1] == Close
  {
    hide Emitted, HasExit, HandlerExit, DefaultExit, Carry;
    var outs := EmittedShape(cmds, end);
    CarryLength(outs, cmds[..UntilExit(cmds)]);
    var t, last := ExecTrace(cmds, end), ExitMessages(HandlerExit(cmds, end));
    var default := if HasExit(cmds) then [] else [DefaultExit(end)];
    AppendAssociates(Emitted(cmds), default, [Eof, Close]);
    AppendAssociates(outs, last, [Eof, Close]);
    assert t == [Success] + (outs + (last + [Eof, Close]));
    assert t[1..1 + |outs|] == outs;
    assert last != [] ==> t[1 + |outs|] == last[0];
  }

  lemma CarryLength(ms: seq<Message>, cmds: seq<Command>)
    requires Carry(ms, cmds)
    ensures |ms| == |cmds|
  {}

  /** The exit that a handler reports: that of its first exit command, or else 0 or 1 by how it ended. */
  lemma {:induction false} HandlerExitIs(cmds: seq<Command>, end: HandlerEnd)
    ensures var k := UntilExit(cmds);
            HandlerExit(cmds, end)
            == if k < |cmds| then cmds[k].exit else if end.Returned? then Status(0) else Status(1)
  {
    if cmds == [] || cmds[0].Exited? {
    } else {
      HandlerExitIs(cmds[1..], end);
    }
  }

  // One-shot responses ---------------------------------------------------------------------------------------------

  function Nonempty(data: seq<u8>, m: Message): seq<Message> {
    if data == [] then [] else [m]
  }

  function ResponseTrace(stdout: seq<u8>, stderr: seq<u8>, exit: CommandExit): seq<Message> {
    [Success] + (Nonempty(stdout, Data(stdout))
                 + (Nonempty(stderr, ExtendedData(1, stderr)) + (ExitMessages(exit) + [Eof, Close])))
  }

  /** The messages of a response, by case. */
  lemma ResponseShape(stdout: seq<u8>, stderr: seq<u8>, exit: CommandExit)
    ensures var t := ResponseTrace(stdout, stderr, exit);
            var last := match exit
                        case Status(code) => [ExitStatus(code), Eof, Close]
                        case Signal(name, coreDumped) => [ExitSignal(name, coreDumped), Eof, Close]
                        case Missing => [Eof, Close];
            if stdout == [] && stderr == [] then t == [Success] + last
            else if stderr == [] then t == [Success, Data(stdout)] + last
            else if stdout == [] then t == [Success, ExtendedData(1, stderr)] + last
            else t == [Success, Data(stdout), ExtendedData(1, stderr)] + last
  {}

  /** `send_exec_response`: message by message, giving up at the first the session refuses. */
  method SendExecResponse(stdout: seq<u8>, stderr: seq<u8>, exit: CommandExit, accepts: nat -> bool)
    returns (ok: bool, trace: seq<Message>)
    ensures trace <= ResponseTrace(stdout, stderr, exit)
    ensures ok ==> trace == ResponseTrace(stdout, stderr, exit)
    ensures !ok ==> !accepts(|trace|)
    ensures forall i :: 0 <= i < |trace| ==> accepts(i)
  {
    ghost var last := ExitMessages(exit) + [Eof, Close];
    ghost var after := Nonempty(stderr, ExtendedData(1, stderr)) + last;
    ghost var whole := ResponseTrace(stdout, stderr, exit);
    hide ExitMessages, Nonempty, ResponseTrace;
    trace := [];
    ok, trace := Append(trace, Success, accepts, Nonempty(stdout, Data(stdout)) + after, whole);
    if !ok { return; }
    ok, trace := AppendAll(trace, Nonempty(stdout, Data(stdout)), accepts, after, whole);
    if !ok { return; }
    ok, trace := AppendAll(trace, Nonempty(stderr, ExtendedData(1, stderr)), accepts, last, whole);
    if !ok { return; }
    ok, trace := AppendAll(trace, ExitMessages(exit), accepts, [Eof, Close], whole);
    if !ok { return; }
    ok, trace := Append(trace, Eof, accepts, [Close], whole);
    if !ok { return; }
    ok, trace := Append(trace, Close, accepts, [], whole);
    assert trace + [] == trace;
  }

  /** One session call: the message goes out if the session takes it. */
  method Append(
      trace: seq<Message>, m: Message, accepts: nat -> bool, ghost rest: seq<Message>, ghost whole: seq<Message>)
    returns (ok: bool, trace': seq<Message>)
    requires whole == trace + ([m] + rest) && forall i :: 0 <= i < |trace| ==> accepts(i)
    ensures trace' <= whole && (ok ==> whole == trace' + rest)
    ensures !ok ==> !accepts(|trace'|)
    ensures forall i :: 0 <= i < |trace'| ==> accepts(i)
  {
    AppendAssociates(trace, [m], rest);
    ok := accepts(|trace|);
    trace' := if ok then trace + [m] else trace;
  }

  method AppendAll(
      trace: seq<Message>, ms: seq<Message>, accepts: nat -> bool, ghost rest: seq<Message>, ghost whole: seq<Message>)
    returns (ok: bool, trace': seq<Message>)
    requires |ms| <= 1 && whole == trace + (ms + rest) && forall i :: 0 <= i < |trace| ==> accepts(i)
    ensures trace' <= whole && (ok ==> whole == trace' + rest)
    ensures !ok ==> !accepts(|trace'|)
    ensures forall i :: 0 <= i < |trace'| ==> accepts(i)
  {
    if ms == [] {
      assert ms + rest == rest;
      return true, trace;
    }
    assert ms == [ms[0]];
    ok, trace' := Append(trace, ms[0], accepts, rest, whole);
  }
}
