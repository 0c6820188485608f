/**
 `Session::command`: the client folds the messages of an exec channel into a bounded result, and
 answers a confirmed request with stdin and EOF. Fed the server's traces it returns exactly what
 the handler produced.
 */
module ExecClient {
  import opened Bytes
  import opened Exec

  datatype Output = Output(exit: CommandExit, stdout: seq<u8>, stderr: seq<u8>)

  datatype CommandError = Rejected | StdoutLimit | StderrLimit | SendFailed | Disconnected | Unconfirmed

  datatype CommandResult = Ok(output: Output) | Err(error: CommandError)

  /** What the client writes to the channel. */
  datatype Action = SendData(data: seq<u8>) | SendEof | SendClose

  /** The command's stdin and limits, whether the channel takes its data and its EOF, and whether
      the connection is found closed when the messages run out. */
  datatype Setup = Setup(
    stdin: seq<u8>,
    stdoutLimit: nat,
    stderrLimit: nat,
    dataOk: bool,
    eofOk: bool,
    connectionClosed: bool
  )

  // Reference: what a message sequence means -----------------------------------------------------------------------

  /** The messages before the first Close. */
  function Live(ms: seq<Message>): seq<Message> {
    if ms == [] || ms[0].Close? then [] else [ms[0]] + Live(ms[1..])
  }

  function StdoutOf(ms: seq<Message>): seq<u8> {
    if ms == [] then [] else (if ms[0].Data? then ms[0].data else []) + StdoutOf(ms[1..])
  }

  function StderrOf(ms: seq<Message>): seq<u8> {
    if ms == [] then [] else (if ms[0].ExtendedData? then ms[0].data else []) + StderrOf(ms[1..])
  }

  function FirstExit(ms: seq<Message>): CommandExit {
    if ms == [] then Missing
    else if !ExitIn(ms[0]).Missing? then ExitIn(ms[0])
    else FirstExit(ms[1..])
  }

  /** Confirmed, not rejected, within the limits, and the reply to the confirmation goes out. */
  predicate Fine(cfg: Setup, live: seq<Message>) {
    && Success in live && Failure !in live
    && |StdoutOf(live)| <= cfg.stdoutLimit && |StderrOf(live)| <= cfg.stderrLimit
    && cfg.eofOk && (cfg.stdin == [] || cfg.dataOk)
  }

  /** The condition under which a command succeeds. */
  predicate Succeeds(cfg: Setup, ms: seq<Message>) {
    Fine(cfg, Live(ms)) && (Close in ms || !cfg.connectionClosed)
  }

  function Meaning(ms: seq<Message>): Output {
    Output(FirstExit(Live(ms)), StdoutOf(Live(ms)), StderrOf(Live(ms)))
  }

  /** What answering a confirmed request sends. */
  function Reply(cfg: Setup): seq<Action> {
    (if cfg.stdin == [] then [] else [SendData(cfg.stdin)]) + [SendEof]
  }

  // The collector as a fold ----------------------------------------------------------------------------------------

  datatype State = Running | Closed | Fatal(error: CommandError)

  datatype Collector = Collector(
    stdout: seq<u8>,
    stderr: seq<u8>,
    exit: CommandExit,
    exitObserved: bool,
    stdinSent: bool,
    confirmed: bool,
    sent: seq<Action>,
    state: State
  )

  const FRESH := Collector([], [], Missing, false, false, false, [], Running)

  function Answer(cfg: Setup, c: Collector): Collector {
    if c.stdinSent then c.(confirmed := true)
    else if cfg.stdin != [] && !cfg.dataOk then c.(confirmed := true, state := Fatal(SendFailed))
    else if !cfg.eofOk then
      c.(confirmed := true, state := Fatal(SendFailed),
         sent := c.sent + if cfg.stdin == [] then [] else [SendData(cfg.stdin)])
    else c.(confirmed := true, stdinSent := true, sent := c.sent + Reply(cfg))
  }

  function Fail(c: Collector, error: CommandError): Collector {
    c.(state := Fatal(error), sent := c.sent + [SendClose])
  }

  function Observe(c: Collector, exit: CommandExit): Collector {
    if c.exitObserved then c else c.(exit := exit, exitObserved := true)
  }

  function Take(cfg: Setup, c: Collector, m: Message): Collector {
    match m
    case Success => Answer(cfg, c)
    case Failure => Fail(c, Rejected)
    case Data(data) =>
      if |c.stdout| + |data| > cfg.stdoutLimit then Fail(c, StdoutLimit) else c.(stdout := c.stdout + data)
    case ExtendedData(_, data) =>
      if |c.stderr| + |data| > cfg.stderrLimit then Fail(c, StderrLimit) else c.(stderr := c.stderr + data)
    case ExitStatus(status) => Observe(c, Status(status))
    case ExitSignal(signal, coreDumped) => Observe(c, Signal(signal, coreDumped))
    case Eof => c
    case Close => c.(state := Closed)
    case Other => c
  }

  function Collect(cfg: Setup, c: Collector, ms: seq<Message>): Collector
    decreases |ms|
  {
    if ms == [] || !c.state.Running? then c else Collect(cfg, Take(cfg, c, ms[0]), ms[1..])
  }

  /** After the loop. */
  function Conclude(cfg: Setup, c: Collector): (CommandResult, seq<Action>) {
    if c.state.Fatal? then (Err(c.state.error), c.sent)
    else if c.state.Running? && cfg.connectionClosed then (Err(Disconnected), c.sent)
    else if !c.confirmed then (Err(Unconfirmed), c.sent)
    else (Ok(Output(c.exit, c.stdout, c.stderr)), c.sent + [SendClose])
  }

  function Command(cfg: Setup, ms: seq<Message>): (CommandResult, seq<Action>) {
    Conclude(cfg, Collect(cfg, FRESH, ms))
  }

  /** The program's loop. */
  method RunCommand(cfg: Setup, ms: seq<Message>) returns (r: CommandResult, sent: seq<Action>)
    ensures (r, sent) == Command(cfg, ms)
  {
    var stdout: seq<u8>, stderr: seq<u8>, exit := [], [], Missing;
    var exitObserved, stdinSent, confirmed, closed := false, false, false, false;
    sent := [];
    var i := 0;
    while i < |ms|
      invariant 0 <= i <= |ms| && !closed
      invariant Collect(cfg, FRESH, ms)
                == Collect(cfg, Collector(stdout, stderr, exit, exitObserved, stdinSent, confirmed, sent, Running),
                           ms[i..])
    {
      var m := ms[i];
      assert ms[i..][0] == m && ms[i..][1..] == ms[i + 1..];
      i := i + 1;
      match m {
        case Success =>
          confirmed := true;
          ghost var before := sent;
          if !stdinSent {
            if cfg.stdin != [] {
              if !cfg.dataOk {
                return Err(SendFailed), sent;
              }
              sent := sent + [SendData(cfg.stdin)];
            }
            if !cfg.eofOk {
              assert cfg.stdin == [] ==> sent + [] == sent;
              return Err(SendFailed), sent;
            }
            sent := sent + [SendEof];
            stdinSent := true;
            assert sent == before + Reply(cfg);
          }
        case Failure =>
          return Err(Rejected), sent + [SendClose];
        case Data(data) =>
          if |stdout| + |data| > cfg.stdoutLimit {
            return Err(StdoutLimit), sent + [SendClose];
          }
          stdout := stdout + data;
        case ExtendedData(_, data) =>
          if |stderr| + |data| > cfg.stderrLimit {
            return Err(StderrLimit), sent + [SendClose];
          }
          stderr := stderr + data;
        case ExitStatus(status) =>
          if !exitObserved {
            exit, exitObserved := Status(status), true;
          }
        case ExitSignal(signal, coreDumped) =>
          if !exitObserved {
            exit, exitObserved := Signal(signal, coreDumped), true;
          }
        case Eof =>
        case Close =>
          closed := true;
          break;
        case Other =>
      }
    }
    if !closed && cfg.connectionClosed {
      return Err(Disconnected), sent;
    }
    if !confirmed {
      return Err(Unconfirmed), sent;
    }
    return Ok(Output(exit, stdout, stderr)), sent + [SendClose];
  }

  // What the collector holds ---------------------------------------------------------------------------------------

  /** After the messages `seen`, none of them a Close or a failure. */
  predicate Holds(cfg: Setup, c: Collector, seen: seq<Message>) {
    && c.state.Running? && Close !in seen && Failure !in seen
    && c.stdout == StdoutOf(seen) && |c.stdout| <= cfg.stdoutLimit
    && c.stderr == StderrOf(seen) && |c.stderr| <= cfg.stderrLimit
    && c.exit == FirstExit(seen) && c.exitObserved == !c.exit.Missing?
    && c.confirmed == c.stdinSent == (Success in seen)
    && (c.confirmed ==> cfg.eofOk && (cfg.stdin == [] || cfg.dataOk))
    && c.sent == if c.confirmed then Reply(cfg) else []
  }

  lemma {:induction false} StreamsAppend(a: seq<Message>, b: seq<Message>)
    ensures StdoutOf(a + b) == StdoutOf(a) + StdoutOf(b)
    ensures StderrOf(a + b) == StderrOf(a) + StderrOf(b)
    ensures FirstExit(a + b) == if FirstExit(a).Missing? then FirstExit(b) else FirstExit(a)
  {
    if a == [] {
      assert a + b == b;
    } else {
      StreamsAppend(a[1..], b);
      assert (a + b)[1..] == a[1..] + b;
      var m := a[0];
      AppendAssociates(if m.Data? then m.data else [], StdoutOf(a[1..]), StdoutOf(b));
      AppendAssociates(if m.ExtendedData? then m.data else [], StderrOf(a[1..]), StderrOf(b));
    }
  }

  lemma StreamsOfOne(m: Message)
    ensures StdoutOf([m]) == if m.Data? then m.data else []
    ensures StderrOf([m]) == if m.ExtendedData? then m.data else []
    ensures FirstExit([m]) == ExitIn(m)
  {
    assert [m][1..] == [];
  }

  /** One message either keeps the picture, or closes the channel, or rules success out. */
  lemma TakeHolds(cfg: Setup, c: Collector, seen: seq<Message>, m: Message)
    requires Holds(cfg, c, seen)
    ensures var c' := Take(cfg, c, m);
            match c'.state
            case Running => Holds(cfg, c', seen + [m])
            case Closed => m.Close? && c' == c.(state := Closed)
            case Fatal(_) =>
              !m.Close?
              && (m.Failure? || |StdoutOf(seen + [m])| > cfg.stdoutLimit || |StderrOf(seen + [m])| > cfg.stderrLimit
                  || (m.Success? && !(cfg.eofOk && (cfg.stdin == [] || cfg.dataOk))))
  {
    hide StdoutOf, StderrOf, FirstExit;
    StreamsAppend(seen, [m]);
    StreamsOfOne(m);
    assert StdoutOf(seen) + [] == StdoutOf(seen) && StderrOf(seen) + [] == StderrOf(seen);
    assert [] + Reply(cfg) == Reply(cfg);
    assert forall x :: x in seen + [m] <==> x in seen || x == m;
  }

  /** Whatever rules success out, more messages do not bring it back. */
  lemma NotFineStays(cfg: Setup, seen: seq<Message>, m: Message, more: seq<Message>)
    requires m.Failure? || |StdoutOf(seen + [m])| > cfg.stdoutLimit || |StderrOf(seen + [m])| > cfg.stderrLimit
             || (m.Success? && !(cfg.eofOk && (cfg.stdin == [] || cfg.dataOk)))
    ensures !Fine(cfg, (seen + [m]) + more)
  {
    hide StdoutOf, StderrOf, FirstExit;
    StreamsAppend(seen + [m], more);
    assert ((seen + [m]) + more)[|seen|] == m;
  }

  lemma {:induction false} CollectMeans(cfg: Setup, c: Collector, seen: seq<Message>, ms: seq<Message>)
    requires Holds(cfg, c, seen)
    ensures var (end, live) := (Collect(cfg, c, ms), seen + Live(ms));
            match end.state
            case Running => Close !in ms && Holds(cfg, end, live)
            case Closed => Close in ms && Holds(cfg, end.(state := Running), live)
            case Fatal(_) => !Fine(cfg, live)
    decreases |ms|
  {
    hide StdoutOf, StderrOf, FirstExit, Take, Fine, Holds;
    HoldsRunning(cfg, c, seen);
    if ms == [] {
      assert seen + [] == seen;
    } else {
      var m, rest := ms[0], ms[1..];
      assert ms == [m] + rest;
      TakeHolds(cfg, c, seen, m);
      var c' := Take(cfg, c, m);
      match c'.state {
        case Running =>
          HoldsNoClose(cfg, c', seen, m);
          AppendAssociates(seen, [m], Live(rest));
          CollectMeans(cfg, c', seen + [m], rest);
        case Closed =>
          assert Collect(cfg, c', rest) == c';
          assert seen + [] == seen;
          assert c'.(state := Running) == c;
        case Fatal(_) =>
          assert Collect(cfg, c', rest) == c';
          AppendAssociates(seen, [m], Live(rest));
          NotFineStays(cfg, seen, m, Live(rest));
      }
    }
  }

  lemma HoldsRunning(cfg: Setup, c: Collector, seen: seq<Message>)
    requires Holds(cfg, c, seen)
    ensures c.state.Running?
  {}

  lemma HoldsNoClose(cfg: Setup, c: Collector, seen: seq<Message>, m: Message)
    requires Holds(cfg, c, seen + [m])
    ensures !m.Close?
  {
    assert (seen + [m])[|seen|] == m;
  }

  /** For every message sequence: the command succeeds exactly when `Succeeds`, and then returns the
      concatenated Data, the concatenated ExtendedData and the first exit seen before the Close,
      having sent its stdin (if any) and one EOF, in this order, before closing. */
  lemma CommandLaw(cfg: Setup, ms: seq<Message>)
    ensures Command(cfg, ms).0.Ok? <==> Succeeds(cfg, ms)
    ensures Succeeds(cfg, ms) ==>
              Command(cfg, ms)
              == (Ok(Meaning(ms)),
                  if cfg.stdin == [] then [SendEof, SendClose] else [SendData(cfg.stdin), SendEof, SendClose])
  {
    hide StdoutOf, StderrOf, FirstExit, Collect, Holds, Fine, Reply;
    FreshHolds(cfg);
    CollectMeans(cfg, FRESH, [], ms);
    assert [] + Live(ms) == Live(ms);
    var end := Collect(cfg, FRESH, ms);
    if !end.state.Fatal? {
      HoldsMeans(cfg, end.(state := Running), Live(ms));
    }
  }

  /** What is held at the end, in terms of the messages. */
  lemma HoldsMeans(cfg: Setup, c: Collector, live: seq<Message>)
    requires Holds(cfg, c, live)
    ensures c.confirmed <==> Fine(cfg, live)
    ensures Output(c.exit, c.stdout, c.stderr) == Output(FirstExit(live), StdoutOf(live), StderrOf(live))
    ensures c.confirmed ==>
              c.sent + [SendClose]
              == if cfg.stdin == [] then [SendEof, SendClose] else [SendData(cfg.stdin), SendEof, SendClose]
  {
    hide StdoutOf, StderrOf, FirstExit;
    ReplyIs(cfg);
    hide Reply;
  }

  // Failing commands -----------------------------------------------------------------------------------------------

  /** Nothing in `seen` has closed the channel or ruled success out. */
  predicate Hopeful(cfg: Setup, seen: seq<Message>) {
    && Close !in seen && Failure !in seen
    && |StdoutOf(seen)| <= cfg.stdoutLimit && |StderrOf(seen)| <= cfg.stderrLimit
    && (Success in seen ==> cfg.eofOk && (cfg.stdin == [] || cfg.dataOk))
  }

  /** What has been sent by then. */
  function SentBy(cfg: Setup, seen: seq<Message>): seq<Action> {
    if Success !in seen then [] else if cfg.stdin == [] then [SendEof] else [SendData(cfg.stdin), SendEof]
  }

  lemma ReplyIs(cfg: Setup)
    ensures Reply(cfg) == if cfg.stdin == [] then [SendEof] else [SendData(cfg.stdin), SendEof]
  {
    assert [] + [SendEof] == [SendEof];
  }

  lemma HoldsSent(cfg: Setup, c: Collector, seen: seq<Message>)
    requires Holds(cfg, c, seen)
    ensures c.sent == SentBy(cfg, seen)
  {
    ReplyIs(cfg);
    hide Reply;
  }

  lemma HopefulUncons(cfg: Setup, seen: seq<Message>, m: Message)
    requires Hopeful(cfg, seen + [m])
    ensures Hopeful(cfg, seen) && !m.Close? && !m.Failure?
    ensures |StdoutOf(seen + [m])| == |StdoutOf(seen)| + (if m.Data? then |m.data| else 0)
    ensures |StderrOf(seen + [m])| == |StderrOf(seen)| + (if m.ExtendedData? then |m.data| else 0)
  {
    hide StdoutOf, StderrOf;
    StreamsAppend(seen, [m]);
    StreamsOfOne(m);
    assert (seen + [m])[|seen|] == m;
    assert forall x :: x in seen ==> x in seen + [m];
  }

  /** The loop has taken a hopeful beginning and holds what it said. */
  lemma {:induction false} CollectHopeful(cfg: Setup, seen: seq<Message>, more: seq<Message>) returns (c: Collector)
    requires Hopeful(cfg, seen)
    ensures Holds(cfg, c, seen) && Collect(cfg, FRESH, seen + more) == Collect(cfg, c, more)
    decreases |seen|
  {
    if seen == [] {
      c := FRESH;
      assert seen + more == more;
      FreshHolds(cfg);
    } else {
      var n := |seen| - 1;
      var before, m := seen[..n], seen[n];
      assert seen == before + [m];
      HopefulUncons(cfg, before, m);
      AppendAssociates(before, [m], more);
      var b := CollectHopeful(cfg, before, [m] + more);
      assert ([m] + more)[1..] == more;
      c := Take(cfg, b, m);
      HoldsRunning(cfg, b, before);
      TakeHopeful(cfg, b, before, m);
    }
  }

  lemma TakeHopeful(cfg: Setup, c: Collector, seen: seq<Message>, m: Message)
    requires Holds(cfg, c, seen) && Hopeful(cfg, seen + [m])
    ensures Holds(cfg, Take(cfg, c, m), seen + [m])
  {
    HopefulUncons(cfg, seen, m);
    TakeHolds(cfg, c, seen, m);
    assert m in seen + [m];
    hide StdoutOf, StderrOf, FirstExit;
  }

  /** The message that ends a command in failure, after a hopeful beginning: the error, and all that
      has been sent by then. Nothing after it matters. */
  lemma FatalLaw(cfg: Setup, seen: seq<Message>, m: Message, rest: seq<Message>)
    requires Hopeful(cfg, seen)
    ensures var (outcome, sent) := (Command(cfg, seen + ([m] + rest)), SentBy(cfg, seen));
            && (m.Failure? ==> outcome == (Err(Rejected), sent + [SendClose]))
            && (m.Data? && |StdoutOf(seen)| + |m.data| > cfg.stdoutLimit ==>
                  outcome == (Err(StdoutLimit), sent + [SendClose]))
            && (m.ExtendedData? && |StderrOf(seen)| + |m.data| > cfg.stderrLimit ==>
                  outcome == (Err(StderrLimit), sent + [SendClose]))
            && (m.Success? && Success !in seen && cfg.stdin != [] && !cfg.dataOk ==> outcome == (Err(SendFailed), []))
            && (m.Success? && Success !in seen && (cfg.stdin == [] || cfg.dataOk) && !cfg.eofOk ==>
                  outcome == (Err(SendFailed), if cfg.stdin == [] then [] else [SendData(cfg.stdin)]))
  {
    hide StdoutOf, StderrOf, FirstExit;
    var c := CollectHopeful(cfg, seen, [m] + rest);
    HoldsSent(cfg, c, seen);
    assert ([m] + rest)[1..] == rest;
    var c' := Take(cfg, c, m);
    assert c'.state.Fatal? ==> Collect(cfg, c', rest) == c';
    assert cfg.stdin != [] ==> [] + [SendData(cfg.stdin)] == [SendData(cfg.stdin)];
  }

  /** Commands that run out of messages, or whose channel closes, before success. */
  lemma EndLaw(cfg: Setup, seen: seq<Message>, rest: seq<Message>)
    requires Hopeful(cfg, seen)
    ensures cfg.connectionClosed ==> Command(cfg, seen) == (Err(Disconnected), SentBy(cfg, seen))
    ensures !cfg.connectionClosed && Success !in seen ==> Command(cfg, seen) == (Err(Unconfirmed), [])
    ensures Success !in seen ==> Command(cfg, seen + ([Close] + rest)) == (Err(Unconfirmed), [])
  {
    hide StdoutOf, StderrOf, FirstExit, Take;
    var c := CollectHopeful(cfg, seen, []);
    HoldsSent(cfg, c, seen);
    assert seen + [] == seen;
    var d := CollectHopeful(cfg, seen, [Close] + rest);
    assert ([Close] + rest)[1..] == rest;
    assert Take(cfg, d, Close) == d.(state := Closed) by { TakeClose(cfg, d); }
    assert Collect(cfg, d.(state := Closed), rest) == d.(state := Closed);
  }

  lemma TakeClose(cfg: Setup, c: Collector)
    ensures Take(cfg, c, Close) == c.(state := Closed)
  {}

  /** The two laws and `CommandLaw` cover every message sequence: it is hopeful, or it has a first
      message that closes the channel or is fatal. */
  lemma {:induction false} FirstStop(cfg: Setup, ms: seq<Message>) returns (n: nat)
    ensures n <= |ms| && Hopeful(cfg, ms[..n])
    ensures n < |ms| ==>
              var (seen, m) := (ms[..n], ms[n]);
              m.Close? || m.Failure?
              || (m.Data? && |StdoutOf(seen)| + |m.data| > cfg.stdoutLimit)
              || (m.ExtendedData? && |StderrOf(seen)| + |m.data| > cfg.stderrLimit)
              || (m.Success? && Success !in seen && !(cfg.eofOk && (cfg.stdin == [] || cfg.dataOk)))
  {
    n := 0;
    assert Hopeful(cfg, ms[..0]);
    while n < |ms| && Hopeful(cfg, ms[..n + 1])
      invariant n <= |ms| && Hopeful(cfg, ms[..n])
    {
      n := n + 1;
    }
    if n < |ms| {
      assert ms[..n + 1] == ms[..n] + [ms[n]];
      hide StdoutOf, StderrOf;
      StreamsAppend(ms[..n], [ms[n]]);
      StreamsOfOne(ms[n]);
      assert forall x :: x in ms[..n + 1] <==> x in ms[..n] || x == ms[n];
    }
  }

  lemma FreshHolds(cfg: Setup)
    ensures Holds(cfg, FRESH, [])
  {}

  /** At every moment of every run, successful or not: the buffers stay within the limits, and what
      has been sent is nothing before the confirmation, then a prefix of stdin and EOF, each at
      most once and in this order, possibly followed by the close of a failing command. */
  lemma {:induction false} SendsAndLimits(cfg: Setup, ms: seq<Message>)
    ensures var c := Collect(cfg, FRESH, ms);
            && |c.stdout| <= cfg.stdoutLimit && |c.stderr| <= cfg.stderrLimit
            && (!c.confirmed ==> c.sent <= [SendClose])
            && (c.sent <= Reply(cfg) || c.sent == [SendClose] || c.sent == Reply(cfg) + [SendClose])
  {
    FreshHolds(cfg);
    BoundsKept(cfg, FRESH, [], ms);
  }

  predicate Bounded(cfg: Setup, c: Collector) {
    && |c.stdout| <= cfg.stdoutLimit && |c.stderr| <= cfg.stderrLimit
    && (!c.confirmed ==> c.sent <= [SendClose])
    && (c.sent <= Reply(cfg) || c.sent == [SendClose] || c.sent == Reply(cfg) + [SendClose])
  }

  lemma {:induction false} BoundsKept(cfg: Setup, c: Collector, seen: seq<Message>, ms: seq<Message>)
    requires Holds(cfg, c, seen)
    ensures Bounded(cfg, Collect(cfg, c, ms))
    decreases |ms|
  {
    if ms == [] {
    } else {
      var c' := Take(cfg, c, ms[0]);
      TakeBounded(cfg, c, seen, ms[0]);
      TakeHolds(cfg, c, seen, ms[0]);
      hide Take, StdoutOf, StderrOf, FirstExit;
      if c'.state.Running? {
        BoundsKept(cfg, c', seen + [ms[0]], ms[1..]);
      } else {
        assert Collect(cfg, c', ms[1..]) == c';
      }
    }
  }

  lemma TakeBounded(cfg: Setup, c: Collector, seen: seq<Message>, m: Message)
    requires Holds(cfg, c, seen)
    ensures Bounded(cfg, c) && Bounded(cfg, Take(cfg, c, m))
  {
    hide StdoutOf, StderrOf, FirstExit;
    assert [] + [SendClose] == [SendClose] && [] + Reply(cfg) == Reply(cfg);
    assert cfg.stdin != [] ==> [] + [SendData(cfg.stdin)] <= Reply(cfg);
  }

  // End to end -----------------------------------------------------------------------------------------------------

  /** The handler's output on each stream before its first exit. */
  function HandlerStdout(cmds: seq<Exec.Command>): seq<u8> {
    if cmds == [] || cmds[0].Exited? then []
    else (if cmds[0].Stdout? then cmds[0].data else []) + HandlerStdout(cmds[1..])
  }

  function HandlerStderr(cmds: seq<Exec.Command>): seq<u8> {
    if cmds == [] || cmds[0].Exited? then []
    else (if cmds[0].Stderr? then cmds[0].data else []) + HandlerStderr(cmds[1..])
  }

  /** Messages that neither confirm, refuse nor close. */
  predicate Quiet(ms: seq<Message>) {
    forall i :: 0 <= i < |ms| ==> !ms[i].Success? && !ms[i].Failure? && !ms[i].Close?
  }

  lemma {:induction false} LiveOfQuiet(ms: seq<Message>)
    requires Quiet(ms)
    ensures Live(ms + [Close]) == ms
  {
    if ms != [] {
      LiveOfQuiet(ms[1..]);
      assert (ms + [Close])[1..] == ms[1..] + [Close];
      assert ms == [ms[0]] + ms[1..];
    } else {
      assert ([] + [Close])[0] == Close;
    }
  }

  lemma EmitMeans(cmd: Exec.Command)
    ensures Quiet(Emit(cmd))
    ensures StdoutOf(Emit(cmd)) == if cmd.Stdout? then cmd.data else []
    ensures StderrOf(Emit(cmd)) == if cmd.Stderr? then cmd.data else []
    ensures FirstExit(Emit(cmd)) == if cmd.Exited? then cmd.exit else Missing
  {
    if Emit(cmd) != [] {
      StreamsOfOne(Emit(cmd)[0]);
      assert Emit(cmd) == [Emit(cmd)[0]];
    }
  }

  lemma {:induction false} EmittedMeans(cmds: seq<Exec.Command>, end: HandlerEnd)
    ensures Quiet(Emitted(cmds))
    ensures StdoutOf(Emitted(cmds)) == HandlerStdout(cmds) && StderrOf(Emitted(cmds)) == HandlerStderr(cmds)
    ensures HasExit(cmds) ==> FirstExit(Emitted(cmds)) == HandlerExit(cmds, end)
    ensures !HasExit(cmds) ==> FirstExit(Emitted(cmds)) == Missing && HandlerExit(cmds, end) == ExitIn(DefaultExit(end))
  {
    if cmds == [] {
    } else {
      HasExitUncons(cmds);
      EmitMeans(cmds[0]);
      EmittedMeans(cmds[1..], end);
      StreamsAppend(Emit(cmds[0]), Emitted(cmds[1..]));
      hide Emit, StdoutOf, StderrOf, FirstExit;
    }
  }

  /** The live part of a trace that starts with the confirmation and ends with EOF and Close. */
  lemma TraceMeans(body: seq<Message>)
    requires Quiet(body)
    ensures var trace := [Success] + (body + [Eof, Close]);
            && Close in trace && Success in Live(trace) && Failure !in Live(trace)
            && StdoutOf(Live(trace)) == StdoutOf(body) && StderrOf(Live(trace)) == StderrOf(body)
            && FirstExit(Live(trace)) == FirstExit(body)
  {
    hide StdoutOf, StderrOf, FirstExit, Live;
    LiveOfTrace(body);
    var quiet := body + [Eof];
    StreamsAppend([Success], quiet);
    StreamsAppend(body, [Eof]);
    StreamsOfOne(Success);
    StreamsOfOne(Eof);
    assert StdoutOf(body) + [] == StdoutOf(body) && StderrOf(body) + [] == StderrOf(body);
    assert [] + StdoutOf(quiet) == StdoutOf(quiet) && [] + StderrOf(quiet) == StderrOf(quiet);
  }

  lemma LiveOfTrace(body: seq<Message>)
    requires Quiet(body)
    ensures var trace := [Success] + (body + [Eof, Close]);
            && Live(trace) == [Success] + (body + [Eof])
            && Close in trace && Success in Live(trace) && Failure !in Live(trace)
  {
    var trace, quiet := [Success] + (body + [Eof, Close]), body + [Eof];
    assert trace[1..] == quiet + [Close];
    LiveOfQuiet(quiet);
    assert Live(trace) == [Success] + quiet;
    assert trace[|trace| - 1] == Close && ([Success] + quiet)[0] == Success;
  }

  lemma StreamingBody(cmds: seq<Exec.Command>, end: HandlerEnd) returns (body: seq<Message>)
    ensures Quiet(body) && ExecTrace(cmds, end) == [Success] + (body + [Eof, Close])
    ensures StdoutOf(body) == HandlerStdout(cmds) && StderrOf(body) == HandlerStderr(cmds)
    ensures FirstExit(body) == HandlerExit(cmds, end)
  {
    var default := if HasExit(cmds) then [] else [DefaultExit(end)];
    body := Emitted(cmds) + default;
    AppendAssociates(Emitted(cmds), default, [Eof, Close]);
    EmittedMeans(cmds, end);
    StreamsAppend(Emitted(cmds), default);
    StreamsOfOne(DefaultExit(end));
    hide Emitted, HasExit, HandlerStdout, HandlerStderr, HandlerExit;
    assert StdoutOf(Emitted(cmds)) + [] == StdoutOf(Emitted(cmds));
    assert StderrOf(Emitted(cmds)) + [] == StderrOf(Emitted(cmds));
  }

  /** End to end, streaming: for every handler and every interleaving of its pump, a client whose
      limits the output respects gets exactly the handler's stdout, stderr and exit, and the
      limits are the only thing that can come between. */
  lemma StreamingEndToEnd(cfg: Setup, steps: seq<PumpStep>)
    requires PumpRun(LAUNCHED, steps) && PumpAfter(LAUNCHED, steps).phase.Done?
    requires cfg.eofOk && cfg.dataOk
    ensures var p := PumpAfter(LAUNCHED, steps);
            p.end.Some?
            && var out := Output(HandlerExit(p.issued, p.end.value), HandlerStdout(p.issued), HandlerStderr(p.issued));
               Command(cfg, p.trace).0.Ok? <==> |out.stdout| <= cfg.stdoutLimit && |out.stderr| <= cfg.stderrLimit
    ensures var p := PumpAfter(LAUNCHED, steps);
            Command(cfg, p.trace).0.Ok? ==>
              Command(cfg, p.trace).0
              == Ok(Output(HandlerExit(p.issued, p.end.value), HandlerStdout(p.issued), HandlerStderr(p.issued)))
  {
    hide PumpRun, PumpAfter, HasExit, ExecTrace, HandlerStdout, HandlerStderr, HandlerExit, StdoutOf, StderrOf,
         FirstExit, Live, Command;
    StreamingTrace(steps);
    var p := PumpAfter(LAUNCHED, steps);
    var body := StreamingBody(p.issued, p.end.value);
    TraceMeans(body);
    CommandLaw(cfg, p.trace);
  }

  /** End to end, one-shot: the same for `send_exec_response`. */
  lemma ResponseEndToEnd(cfg: Setup, stdout: seq<u8>, stderr: seq<u8>, exit: CommandExit)
    requires cfg.eofOk && cfg.dataOk
    ensures Command(cfg, ResponseTrace(stdout, stderr, exit)).0.Ok?
            <==> |stdout| <= cfg.stdoutLimit && |stderr| <= cfg.stderrLimit
    ensures Command(cfg, ResponseTrace(stdout, stderr, exit)).0.Ok? ==>
              Command(cfg, ResponseTrace(stdout, stderr, exit)).0 == Ok(Output(exit, stdout, stderr))
  {
    var body := ResponseBody(stdout, stderr, exit);
    hide StdoutOf, StderrOf, FirstExit, Live, Command, ResponseTrace;
    TraceMeans(body);
    CommandLaw(cfg, ResponseTrace(stdout, stderr, exit));
  }

  lemma ResponseBody(stdout: seq<u8>, stderr: seq<u8>, exit: CommandExit) returns (body: seq<Message>)
    ensures Quiet(body) && ResponseTrace(stdout, stderr, exit) == [Success] + (body + [Eof, Close])
    ensures StdoutOf(body) == stdout && StderrOf(body) == stderr && FirstExit(body) == exit
  {
    hide StdoutOf, StderrOf, FirstExit, ExitMessages, Nonempty, Quiet;
    var a, b, c := Nonempty(stdout, Data(stdout)), Nonempty(stderr, ExtendedData(1, stderr)), ExitMessages(exit);
    body := a + (b + c);
    EmitMeans(Exited(exit));
    NonemptyMeans(stdout, Data(stdout));
    NonemptyMeans(stderr, ExtendedData(1, stderr));
    QuietAppend(b, c);
    QuietAppend(a, b + c);
    StreamsAppend(a, b + c);
    StreamsAppend(b, c);
    AppendAssociates(a, b + c, [Eof, Close]);
    AppendAssociates(b, c, [Eof, Close]);
    assert [] + stderr == stderr && stdout + [] == stdout && stderr + [] == stderr;
  }

  lemma QuietAppend(a: seq<Message>, b: seq<Message>)
    requires Quiet(a) && Quiet(b)
    ensures Quiet(a + b)
  {}

  lemma NonemptyMeans(data: seq<u8>, m: Message)
    requires m == Data(data) || m == ExtendedData(1, data)
    ensures Quiet(Nonempty(data, m)) && FirstExit(Nonempty(data, m)) == Missing
    ensures StdoutOf(Nonempty(data, m)) == if m.Data? then data else []
    ensures StderrOf(Nonempty(data, m)) == if m.ExtendedData? then data else []
  {
    StreamsOfOne(m);
  }
}
