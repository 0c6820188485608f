/**
 Trust on first use over a store that connections share. Each connection looks its server's key
 up under the read lock, and later, if the key was not found, adds it under the write lock; looks
 and additions of different connections interleave freely.
 */
module KnownHostsTrust {
  import opened Bytes
  import opened KnownHosts

  // Sequences of additions -----------------------------------------------------------------------------------

  /** `add_entry`, whose failure is ignored. */
  function Adopted(es: seq<Entry>, a: Attempt): seq<Entry> {
    if a.key.None? then es else Added(es, a.host, a.port, a.key.value, a.algorithm)
  }

  function AddAll(es: seq<Entry>, added: seq<Attempt>): seq<Entry>
    decreases |added|
  {
    if added == [] then es else AddAll(Adopted(es, added[0]), added[1..])
  }

  lemma {:induction false} AddAllAppend(es: seq<Entry>, a: seq<Attempt>, b: seq<Attempt>)
    ensures AddAll(es, a + b) == AddAll(AddAll(es, a), b)
    decreases |a|
  {
    hide Adopted;
    if a == [] {
      assert a + b == b;
    } else {
      assert (a + b)[1..] == a[1..] + b;
      AddAllAppend(Adopted(es, a[0]), a[1..], b);
    }
  }

  /** What decides about an endpoint: the entries of the first store, perhaps without those for any
      port; a key added for its very port; a key added for any port; or nothing. */
  datatype Standing = AsBefore(ported: bool) | ByPort(key: seq<u8>) | ByHost(key: seq<u8>) | Forgotten

  function Restand(st: Standing, host: string, port: u16, a: Attempt): Standing {
    if a.key.None? || !HostMatches(host, a.host) then st
    else if a.port == port then ByPort(a.key.value)
    else if a.port == 0 then ByHost(a.key.value)
    else if a.port == 22 then Forgotten
    else match st
      case AsBefore(_) => AsBefore(true)
      case ByHost(_) => Forgotten
      case _ => st
  }

  function StandingFrom(st: Standing, host: string, port: u16, added: seq<Attempt>): Standing
    decreases |added|
  {
    if added == [] then st else StandingFrom(Restand(st, host, port, added[0]), host, port, added[1..])
  }

  /** The verdict on the endpoint, and what it would be without the entries for any port. */
  function Says(st: Standing, es: seq<Entry>, host: string, port: u16, key: seq<u8>): Verdict {
    match st
    case AsBefore(ported) => VerdictOf(if ported then Ported(es) else es, host, port, key)
    case ByPort(k) => Pin(k, key)
    case ByHost(k) => Pin(k, key)
    case Forgotten => NotFound
  }

  function SaysPorted(st: Standing, es: seq<Entry>, host: string, port: u16, key: seq<u8>): Verdict {
    match st
    case AsBefore(_) => VerdictOf(Ported(es), host, port, key)
    case ByPort(k) => Pin(k, key)
    case _ => NotFound
  }

  predicate StandsAs(st: Standing, first: seq<Entry>, es: seq<Entry>, host: string, port: u16, key: seq<u8>) {
    VerdictOf(es, host, port, key) == Says(st, first, host, port, key)
    && VerdictOf(Ported(es), host, port, key) == SaysPorted(st, first, host, port, key)
  }

  lemma {:induction false} PortedAppend(a: seq<Entry>, b: seq<Entry>)
    ensures Ported(a + b) == Ported(a) + Ported(b)
  {
    if a == [] {
      assert a + b == b;
    } else {
      PortedAppend(a[1..], b);
      assert (a + b)[1..] == a[1..] + b;
      AppendAssociates(if a[0].port == 0 then [] else [a[0]], Ported(a[1..]), Ported(b));
    }
  }

  lemma {:induction false} PortedTwice(es: seq<Entry>)
    ensures Ported(Ported(es)) == Ported(es)
  {
    if es == [] {
    } else {
      PortedTwice(es[1..]);
      PortedAppend(if es[0].port == 0 then [] else [es[0]], Ported(es[1..]));
    }
  }

  lemma {:induction false} RetainAppend(a: seq<Entry>, b: seq<Entry>, host: string, port: u16)
    ensures Retain(a + b, host, port) == Retain(a, host, port) + Retain(b, host, port)
  {
    hide Displaced;
    if a == [] {
      assert a + b == b;
    } else {
      RetainAppend(a[1..], b, host, port);
      assert (a + b)[1..] == a[1..] + b;
      AppendAssociates(if Displaced(a[0], host, port) then [] else [a[0]], Retain(a[1..], host, port),
                       Retain(b, host, port));
    }
  }

  /** Dropping the entries for any port and dropping the displaced ones commute. */
  lemma {:induction false} PortedRetains(es: seq<Entry>, host: string, port: u16)
    ensures Ported(Retain(es, host, port)) == Retain(Ported(es), host, port)
  {
    hide Displaced;
    if es == [] {
    } else {
      var e := es[0];
      PortedRetains(es[1..], host, port);
      PortedAppend(if Displaced(e, host, port) then [] else [e], Retain(es[1..], host, port));
      RetainAppend(if e.port == 0 then [] else [e], Ported(es[1..]), host, port);
      assert Ported([e]) == if e.port == 0 then [] else [e];
      assert Retain([e], host, port) == if Displaced(e, host, port) then [] else [e];
    }
  }

  lemma PortedAdded(es: seq<Entry>, a: Attempt)
    requires a.key.Some?
    ensures Ported(Adopted(es, a))
            == if a.port == 0 then Retain(Ported(es), a.host, 0) else Adopted(Ported(es), a)
  {
    hide Retain;
    var e := NewEntry(a.host, a.port, a.key.value, a.algorithm);
    PortedAppend(Retain(es, a.host, a.port), [e]);
    PortedRetains(es, a.host, a.port);
    assert Ported([e]) == if a.port == 0 then [] else [e];
  }

  lemma RestandStep(st: Standing, first: seq<Entry>, es: seq<Entry>, host: string, port: u16, key: seq<u8>, a: Attempt)
    requires port != 0 && StandsAs(st, first, es, host, port, key)
    ensures StandsAs(Restand(st, host, port, a), first, Adopted(es, a), host, port, key)
  {
    if a.key.Some? {
      HostMatchesIsEquivalence(host, a.host, host);
      hide HostMatches, VerdictOf, Retain, Ported;
      AddEntryEffect(es, a.host, a.port, a.key.value, a.algorithm, host, port, key);
      PortedAdded(es, a);
      PortedTwice(es);
      if a.port == 0 {
        RetainEffect(Ported(es), a.host, 0, host, port, key);
      } else {
        AddEntryEffect(Ported(es), a.host, a.port, a.key.value, a.algorithm, host, port, key);
      }
    }
  }

  /** Every verdict after any sequence of additions to any store. */
  lemma {:induction false} AdditionsEffect(
      st: Standing, first: seq<Entry>, es: seq<Entry>, added: seq<Attempt>, host: string, port: u16, key: seq<u8>)
    requires port != 0 && StandsAs(st, first, es, host, port, key)
    ensures StandsAs(StandingFrom(st, host, port, added), first, AddAll(es, added), host, port, key)
    decreases |added|
  {
    hide StandsAs, Restand, Adopted;
    if added == [] {
    } else {
      RestandStep(st, first, es, host, port, key, added[0]);
      AdditionsEffect(Restand(st, host, port, added[0]), first, Adopted(es, added[0]), added[1..], host, port, key);
    }
  }

  // Interleaved connections -----------------------------------------------------------------------------------

  /** A connection that has looked: the verdict it saw, and whether it has added its key since. */
  datatype Contact = Contact(attempt: Attempt, verdict: Verdict, learnt: bool)

  datatype Shared = Shared(entries: seq<Entry>, contacts: seq<Contact>)

  datatype Move = Look(attempt: Attempt) | Learn(contact: nat)

  predicate CanMove(s: Shared, m: Move) {
    match m
    case Look(_) => true
    case Learn(i) => i < |s.contacts| && s.contacts[i].verdict == NotFound && !s.contacts[i].learnt
  }

  function MoveNext(s: Shared, m: Move): Shared
    requires CanMove(s, m)
  {
    match m
    case Look(a) => s.(contacts := s.contacts + [Contact(a, Check(s.entries, a.host, a.port, a.key), false)])
    case Learn(i) =>
      Shared(Adopted(s.entries, s.contacts[i].attempt), s.contacts[i := s.contacts[i].(learnt := true)])
  }

  ghost predicate IsRun(s: Shared, moves: seq<Move>)
    decreases |moves|
  {
    moves == [] || (CanMove(s, moves[0]) && IsRun(MoveNext(s, moves[0]), moves[1..]))
  }

  ghost function After(s: Shared, moves: seq<Move>): Shared
    requires IsRun(s, moves)
    decreases |moves|
  {
    if moves == [] then s else After(MoveNext(s, moves[0]), moves[1..])
  }

  /** The attempts that a run adds, in order. */
  ghost function Learning(s: Shared, moves: seq<Move>): seq<Attempt>
    requires IsRun(s, moves)
    decreases |moves|
  {
    if moves == [] then [] else
      (if moves[0].Learn? then [s.contacts[moves[0].contact].attempt] else [])
      + Learning(MoveNext(s, moves[0]), moves[1..])
  }

  lemma {:induction false} RunAdds(s: Shared, moves: seq<Move>)
    requires IsRun(s, moves)
    ensures After(s, moves).entries == AddAll(s.entries, Learning(s, moves))
    decreases |moves|
  {
    hide Adopted, Check;
    if moves == [] {
    } else {
      var s1 := MoveNext(s, moves[0]);
      RunAdds(s1, moves[1..]);
      if moves[0].Learn? {
        var a, later := s.contacts[moves[0].contact].attempt, Learning(s1, moves[1..]);
        assert ([a] + later)[1..] == later;
      } else {
        assert [] + Learning(s1, moves[1..]) == Learning(s1, moves[1..]);
      }
    }
  }

  /** The exact law: the verdict on any endpoint at the end of any run, from any store. */
  lemma SharedVerdict(s: Shared, moves: seq<Move>, host: string, port: u16, key: seq<u8>)
    requires IsRun(s, moves) && port != 0
    ensures VerdictOf(After(s, moves).entries, host, port, key)
            == Says(StandingFrom(AsBefore(false), host, port, Learning(s, moves)), s.entries, host, port, key)
  {
    RunAdds(s, moves);
    AdditionsEffect(AsBefore(false), s.entries, s.entries, Learning(s, moves), host, port, key);
  }

  // Trust on first use -----------------------------------------------------------------------------------------

  /** The endpoint's key is `key`, by its port or by its host. */
  predicate Keyed(st: Standing, key: seq<u8>) {
    st == ByPort(key) || st == ByHost(key)
  }

  lemma {:induction false} NeverAsBefore(st: Standing, host: string, port: u16, added: seq<Attempt>)
    requires !st.AsBefore?
    ensures !StandingFrom(st, host, port, added).AsBefore?
    decreases |added|
  {
    hide HostMatches;
    if added == [] {
    } else {
      NeverAsBefore(Restand(st, host, port, added[0]), host, port, added[1..]);
    }
  }

  /** A contact whose key the run has just added. */
  predicate JustLearnt(s: Shared, i: nat) {
    CanMove(s, Learn(i)) && s.contacts[i].attempt.key.Some? && s.contacts[i].attempt.port != 0
  }

  /** Exactly when the endpoint still has the key that contact `i` added, after any further moves. */
  lemma PinLaw(s: Shared, i: nat, moves: seq<Move>)
    requires JustLearnt(s, i) && IsRun(MoveNext(s, Learn(i)), moves)
    ensures var (a, s1) := (s.contacts[i].attempt, MoveNext(s, Learn(i)));
            (forall q :: VerdictOf(After(s1, moves).entries, a.host, a.port, q) == Pin(a.key.value, q))
            <==> Keyed(StandingFrom(ByPort(a.key.value), a.host, a.port, Learning(s1, moves)), a.key.value)
  {
    var a, s1 := s.contacts[i].attempt, MoveNext(s, Learn(i));
    var k, added := a.key.value, Learning(s1, moves);
    var st := StandingFrom(ByPort(k), a.host, a.port, added);
    RunAdds(s1, moves);
    NeverAsBefore(ByPort(k), a.host, a.port, added);
    HostMatchesIsEquivalence(a.host, a.host, a.host);
    hide StandingFrom, After, IsRun, Learning, AddAll, VerdictOf, HostMatches, Added;
    forall q
      ensures VerdictOf(After(s1, moves).entries, a.host, a.port, q) == Says(st, s.entries, a.host, a.port, q)
    {
      assert StandsAs(AsBefore(false), s.entries, s.entries, a.host, a.port, q);
      RestandStep(AsBefore(false), s.entries, s.entries, a.host, a.port, q, a);
      AdditionsEffect(ByPort(k), s.entries, s1.entries, added, a.host, a.port, q);
    }
    assert Pin(k, k) == Match;
    if !Keyed(st, k) {
      assert VerdictOf(After(s1, moves).entries, a.host, a.port, k) == Says(st, s.entries, a.host, a.port, k) != Match;
    }
  }

  /** The additions that can take a pin away: for any port of the host, for port 22 when that is
      another port, or another key for the endpoint from a connection that looked too early. */
  predicate Breaks(a: Attempt, early: bool, host: string, port: u16, key: seq<u8>) {
    a.key.Some? && HostMatches(host, a.host)
    && (a.port == 0 || (a.port == 22 && port != 22) || (a.port == port && early && a.key.value != key))
  }

  /** No addition of the run is one of these; the first `n` contacts looked too early. */
  ghost predicate Unbroken(s: Shared, moves: seq<Move>, n: nat, host: string, port: u16, key: seq<u8>)
    requires IsRun(s, moves)
    decreases |moves|
  {
    moves == []
    || ((moves[0].Learn? ==>
           !Breaks(s.contacts[moves[0].contact].attempt, moves[0].contact < n, host, port, key))
        && Unbroken(MoveNext(s, moves[0]), moves[1..], n, host, port, key))
  }

  /** Whoever looked later at the pinned endpoint has found it. */
  ghost predicate LateFound(s: Shared, n: nat, host: string, port: u16) {
    forall i :: n <= i < |s.contacts| && HostMatches(host, s.contacts[i].attempt.host)
                && s.contacts[i].attempt.port == port && s.contacts[i].attempt.key.Some?
                ==> s.contacts[i].verdict != NotFound
  }

  lemma PinnedSameHost(es: seq<Entry>, host: string, host': string, port: u16, key: seq<u8>)
    requires Pinned(es, host, port, key) && HostMatches(host, host')
    ensures Pinned(es, host', port, key)
  {
    forall e | e in es
      ensures Applies(e, host, port) <==> Applies(e, host', port)
    {
      HostMatchesIsEquivalence(e.hostname, host, host');
      HostMatchesIsEquivalence(e.hostname, host', host);
      HostMatchesIsEquivalence(host, host', host);
    }
    hide Applies;
  }

  lemma MoveKeepsPin(s: Shared, m: Move, n: nat, host: string, port: u16, key: seq<u8>)
    requires port != 0 && CanMove(s, m) && Pinned(s.entries, host, port, key) && LateFound(s, n, host, port)
    requires m.Learn? ==> !Breaks(s.contacts[m.contact].attempt, m.contact < n, host, port, key)
    ensures Pinned(MoveNext(s, m).entries, host, port, key) && LateFound(MoveNext(s, m), n, host, port)
  {
    match m {
      case Look(a) =>
        if a.key.Some? && HostMatches(host, a.host) && a.port == port {
          PinnedDecides(s.entries, host, port, key, a.key.value);
          SameHostSameVerdict(s.entries, host, a.host, port, a.key.value);
        }
        hide Pinned, VerdictOf, HostMatches;
      case Learn(i) =>
        var a := s.contacts[i].attempt;
        if a.key.Some? {
          if HostMatches(host, a.host) && a.port == port {
            AddedPins(s.entries, a.host, port, key, a.algorithm);
            HostMatchesIsEquivalence(host, a.host, host);
            hide HostMatches;
            PinnedSameHost(Adopted(s.entries, a), a.host, host, port, key);
          } else {
            OtherAddKeepsPin(s.entries, host, port, key, a.host, a.port, a.key.value, a.algorithm);
          }
        }
        hide Pinned, VerdictOf, HostMatches;
    }
  }

  lemma {:induction false} RunKeepsPin(s: Shared, moves: seq<Move>, n: nat, host: string, port: u16, key: seq<u8>)
    requires port != 0 && IsRun(s, moves) && Pinned(s.entries, host, port, key) && LateFound(s, n, host, port)
    requires Unbroken(s, moves, n, host, port, key)
    ensures Pinned(After(s, moves).entries, host, port, key)
    decreases |moves|
  {
    hide Pinned, LateFound, CanMove, MoveNext, Breaks;
    if moves == [] {
    } else {
      MoveKeepsPin(s, moves[0], n, host, port, key);
      RunKeepsPin(MoveNext(s, moves[0]), moves[1..], n, host, port, key);
    }
  }

  /** Trust on first use, for every interleaving from any state: once contact `i` has added its
      key, and as long as nothing breaks the pin, an attempt on the endpoint is accepted if and only
      if it presents that key or one that cannot be serialised, and refused as changed otherwise. */
  lemma TrustOnFirstUse(s: Shared, i: nat, moves: seq<Move>, later: Attempt)
    requires JustLearnt(s, i) && SameEndpoint(s.contacts[i].attempt, later)
    requires IsRun(MoveNext(s, Learn(i)), moves)
    requires var a := s.contacts[i].attempt;
             Unbroken(MoveNext(s, Learn(i)), moves, |s.contacts|, a.host, a.port, a.key.value)
    ensures DecisionFor(s.contacts[i].verdict, true) == Accept
    ensures DecisionFor(Check(After(MoveNext(s, Learn(i)), moves).entries, later.host, later.port, later.key), true)
            == if later.key.None? || later.key == s.contacts[i].attempt.key then Accept else KeyChanged
  {
    var a, s1 := s.contacts[i].attempt, MoveNext(s, Learn(i));
    AddedPins(s.entries, a.host, a.port, a.key.value, a.algorithm);
    RunKeepsPin(s1, moves, |s.contacts|, a.host, a.port, a.key.value);
    var store := After(s1, moves).entries;
    hide After, IsRun, Unbroken;
    if later.key.Some? {
      PinnedDecides(store, a.host, a.port, a.key.value, later.key.value);
      SameHostSameVerdict(store, a.host, later.host, later.port, later.key.value);
    }
  }

  // What breaks it -------------------------------------------------------------------------------------------------

  lemma NothingKnown(host: string, port: u16, key: Option<seq<u8>>)
    ensures Check([], host, port, key) == NotFound
  {}

  /** Two overlapping first contacts are both accepted, and the later addition takes the key of the
      first away. */
  lemma OverlapForgets(host: string, port: u16, k1: seq<u8>, k2: seq<u8>, algorithm: string)
    requires port != 0 && k1 != k2
    ensures var (a, b) := (Attempt(host, port, Some(k1), algorithm), Attempt(host, port, Some(k2), algorithm));
            var moves := [Look(a), Look(b), Learn(0), Learn(1)];
            && IsRun(Shared([], []), moves)
            && var end := After(Shared([], []), moves);
               && (forall i :: 0 <= i < |end.contacts| ==> DecisionFor(end.contacts[i].verdict, true) == Accept)
               && DecisionFor(Check(end.entries, host, port, Some(k1)), true) == KeyChanged
  {
    var a, b := Attempt(host, port, Some(k1), algorithm), Attempt(host, port, Some(k2), algorithm);
    NothingKnown(host, port, Some(k1));
    NothingKnown(host, port, Some(k2));
    HostMatchesIsEquivalence(host, host, host);
    AddEntryEffect(Adopted([], a), host, port, k2, algorithm, host, port, k1);
    hide Added, VerdictOf, HostMatches;
    var s1 := Shared([], [Contact(a, NotFound, false)]);
    var s2 := Shared([], [Contact(a, NotFound, false), Contact(b, NotFound, false)]);
    var s3 := Shared(Adopted([], a), [Contact(a, NotFound, true), Contact(b, NotFound, false)]);
    var s4 := Shared(Adopted(Adopted([], a), b), [Contact(a, NotFound, true), Contact(b, NotFound, true)]);
    assert MoveNext(Shared([], []), Look(a)) == s1 && MoveNext(s1, Look(b)) == s2;
    assert MoveNext(s2, Learn(0)) == s3 && MoveNext(s3, Learn(1)) == s4;
    FourMoves(Shared([], []), Look(a), Look(b), Learn(0), Learn(1), s1, s2, s3, s4);
  }

  lemma FourMoves(s: Shared, m1: Move, m2: Move, m3: Move, m4: Move, s1: Shared, s2: Shared, s3: Shared, s4: Shared)
    requires CanMove(s, m1) && MoveNext(s, m1) == s1 && CanMove(s1, m2) && MoveNext(s1, m2) == s2
    requires CanMove(s2, m3) && MoveNext(s2, m3) == s3 && CanMove(s3, m4) && MoveNext(s3, m4) == s4
    ensures IsRun(s, [m1, m2, m3, m4]) && After(s, [m1, m2, m3, m4]) == s4
  {
    hide CanMove, MoveNext;
    assert [m1, m2, m3, m4][1..] == [m2, m3, m4] && [m2, m3, m4][1..] == [m3, m4];
    assert [m3, m4][1..] == [m4] && [m4][1..] == [];
    assert IsRun(s4, []) && After(s4, []) == s4;
    assert IsRun(s3, [m4]) && After(s3, [m4]) == s4;
    assert IsRun(s2, [m3, m4]) && After(s2, [m3, m4]) == s4;
    assert IsRun(s1, [m2, m3, m4]) && After(s1, [m2, m3, m4]) == s4;
  }

  /** A first contact on port 22 makes the store forget the key accepted on another port of the
      same host, and any key is accepted there again. */
  lemma MixedPortsForget(host: string, k1: seq<u8>, k2: seq<u8>, k3: seq<u8>, algorithm: string)
    ensures var (a, b) := (Attempt(host, 2222, Some(k1), algorithm), Attempt(host, 22, Some(k2), algorithm));
            var moves := [Look(a), Learn(0), Look(b), Learn(1)];
            && IsRun(Shared([], []), moves)
            && DecisionFor(Check(After(Shared([], []), moves).entries, host, 2222, Some(k3)), true) == Accept
  {
    var a, b := Attempt(host, 2222, Some(k1), algorithm), Attempt(host, 22, Some(k2), algorithm);
    NothingKnown(host, 2222, Some(k1));
    NothingKnown(host, 22, Some(k2));
    HostMatchesIsEquivalence(host, host, host);
    AddEntryEffect([], host, 2222, k1, algorithm, host, 22, k2);
    AddEntryEffect(Adopted([], a), host, 22, k2, algorithm, host, 2222, k3);
    assert Ported([]) == [];
    hide Added, VerdictOf, HostMatches, Ported;
    var s1 := Shared([], [Contact(a, NotFound, false)]);
    var s2 := Shared(Adopted([], a), [Contact(a, NotFound, true)]);
    var s3 := Shared(Adopted([], a), [Contact(a, NotFound, true), Contact(b, NotFound, false)]);
    var s4 := Shared(Adopted(Adopted([], a), b), [Contact(a, NotFound, true), Contact(b, NotFound, true)]);
    assert MoveNext(Shared([], []), Look(a)) == s1 && MoveNext(s1, Learn(0)) == s2;
    assert MoveNext(s2, Look(b)) == s3 && MoveNext(s3, Learn(1)) == s4;
    FourMoves(Shared([], []), Look(a), Learn(0), Look(b), Learn(1), s1, s2, s3, s4);
  }
}
