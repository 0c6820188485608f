/**
 The known-hosts store: verdicts on a presented key, `add_entry`, `merge`, and when one addition
 leaves another alone.
 */
module KnownHosts {
  import opened Bytes

  datatype Entry = Entry(
    hostname: string,
    port: u16,
    algorithm: string,
    keyBlob: seq<u8>,
    comment: Option<string>,
    revoked: bool
  )

  // Hosts -----------------------------------------------------------------------------------------------

  function LowerAscii(c: char): char {
    if 'A' <= c <= 'Z' then c + 32 as char else c
  }

  /** `host_matches`: equality up to ASCII case. */
  predicate HostMatches(a: string, b: string) {
    |a| == |b| && forall i :: 0 <= i < |a| ==> LowerAscii(a[i]) == LowerAscii(b[i])
  }

  lemma HostMatchesIsEquivalence(a: string, b: string, c: string)
    ensures HostMatches(a, a)
    ensures HostMatches(a, b) ==> HostMatches(b, a)
    ensures HostMatches(a, b) && HostMatches(b, c) ==> HostMatches(a, c)
  {
    hide LowerAscii;
  }

  /** The same host up to the case of ASCII letters, character by character. */
  predicate Recasing(a: string, b: string) {
    |a| == |b|
    && forall i :: 0 <= i < |a| ==>
         a[i] == b[i]
         || ('A' <= a[i] <= 'Z' && b[i] as int == a[i] as int + 32)
         || ('A' <= b[i] <= 'Z' && a[i] as int == b[i] as int + 32)
  }

  lemma HostMatchesIsRecasing(a: string, b: string)
    ensures HostMatches(a, b) <==> Recasing(a, b)
  {
    forall i | 0 <= i < |a| && i < |b|
      ensures LowerAscii(a[i]) == LowerAscii(b[i])
              <==> a[i] == b[i]
                   || ('A' <= a[i] <= 'Z' && b[i] as int == a[i] as int + 32)
                   || ('A' <= b[i] <= 'Z' && a[i] as int == b[i] as int + 32)
    {
      SameLetter(a[i], b[i]);
    }
    hide LowerAscii;
  }

  lemma SameLetter(x: char, y: char)
    ensures LowerAscii(x) == LowerAscii(y)
            <==> x == y || ('A' <= x <= 'Z' && y as int == x as int + 32)
                 || ('A' <= y <= 'Z' && x as int == y as int + 32)
  {
    LowerAsciiCode(x);
    LowerAsciiCode(y);
  }

  lemma LowerAsciiCode(c: char)
    ensures LowerAscii(c) as int == c as int + if 'A' <= c <= 'Z' then 32 else 0
  {}

  // Verdicts ----------------------------------------------------------------------------------------------

  /** In increasing order of precedence. */
  datatype Verdict = NotFound | Changed | Match | Revoked {
    function Rank(): nat {
      match this case NotFound => 0 case Changed => 1 case Match => 2 case Revoked => 3
    }
  }

  function Join(a: Verdict, b: Verdict): Verdict {
    if a.Rank() >= b.Rank() then a else b
  }

  /** The entry speaks about this endpoint; port 0 stands for any port. */
  predicate Applies(e: Entry, host: string, port: u16) {
    HostMatches(e.hostname, host) && (e.port == 0 || e.port == port)
  }

  function Opinion(e: Entry, host: string, port: u16, key: seq<u8>): Verdict {
    if !Applies(e, host, port) then NotFound
    else if e.revoked then Revoked
    else if e.keyBlob == key then Match
    else Changed
  }

  /** The join of the opinions of all entries. */
  function VerdictOf(es: seq<Entry>, host: string, port: u16, key: seq<u8>): Verdict {
    if es == [] then NotFound else Join(Opinion(es[0], host, port, key), VerdictOf(es[1..], host, port, key))
  }

  lemma {:induction false} VerdictIsLeastUpperBound(es: seq<Entry>, host: string, port: u16, key: seq<u8>)
    ensures forall e :: e in es ==> Opinion(e, host, port, key).Rank() <= VerdictOf(es, host, port, key).Rank()
    ensures VerdictOf(es, host, port, key) == NotFound
            || exists e :: e in es && Opinion(e, host, port, key) == VerdictOf(es, host, port, key)
  {
    hide Opinion;
    if es == [] {
    } else {
      VerdictIsLeastUpperBound(es[1..], host, port, key);
      assert es == [es[0]] + es[1..];
      assert es[0] in es;
    }
  }

  /** The entry is about this endpoint. */
  predicate About(e: Entry, host: string, port: u16) {
    Recasing(e.hostname, host) && (e.port == 0 || e.port == port)
  }

  /** What each verdict means for the entries about the endpoint: one is revoked; none is, and one has
      the key; none is, none has the key, and there is one; there is none. */
  lemma VerdictMeans(es: seq<Entry>, host: string, port: u16, key: seq<u8>)
    ensures var revoked := exists e :: e in es && About(e, host, port) && e.revoked;
            var known := exists e :: e in es && About(e, host, port) && e.keyBlob == key;
            var any := exists e :: e in es && About(e, host, port);
            VerdictOf(es, host, port, key)
            == if revoked then Revoked else if known then Match else if any then Changed else NotFound
  {
    forall e | e in es
      ensures Applies(e, host, port) <==> About(e, host, port)
    {
      HostMatchesIsRecasing(e.hostname, host);
    }
    VerdictIsLeastUpperBound(es, host, port, key);
    hide About, Applies, VerdictOf;
  }

  /** Every recasing of a host gets the same verdict. */
  lemma RecasedVerdict(es: seq<Entry>, host: string, host': string, port: u16, key: seq<u8>)
    requires Recasing(host, host')
    ensures VerdictOf(es, host, port, key) == VerdictOf(es, host', port, key)
  {
    HostMatchesIsRecasing(host, host');
    SameHostSameVerdict(es, host, host', port, key);
  }

  /** A concatenated store gives the higher of the two verdicts, so `merge` never lowers one. */
  lemma {:induction false} VerdictJoins(a: seq<Entry>, b: seq<Entry>, host: string, port: u16, key: seq<u8>)
    ensures VerdictOf(a + b, host, port, key) == Join(VerdictOf(a, host, port, key), VerdictOf(b, host, port, key))
  {
    hide Opinion;
    if a == [] {
      assert a + b == b;
    } else {
      VerdictJoins(a[1..], b, host, port, key);
      assert (a + b)[1..] == a[1..] + b;
    }
  }

  /** The order of the entries never matters, nor do repetitions. */
  lemma VerdictIgnoresOrder(a: seq<Entry>, b: seq<Entry>, host: string, port: u16, key: seq<u8>)
    requires forall e :: e in a <==> e in b
    ensures VerdictOf(a, host, port, key) == VerdictOf(b, host, port, key)
  {
    VerdictIsLeastUpperBound(a, host, port, key);
    VerdictIsLeastUpperBound(b, host, port, key);
    hide VerdictOf, Opinion;
  }

  // Adding an entry ------------------------------------------------------------------------------------------

  /** The retain predicate of `add_entry`, negated: entries it removes. */
  predicate Displaced(e: Entry, host: string, port: u16) {
    HostMatches(e.hostname, host) && (e.port == port || e.port == 0 || port == 0 || port == 22)
  }

  function Retain(es: seq<Entry>, host: string, port: u16): seq<Entry> {
    if es == [] then []
    else (if Displaced(es[0], host, port) then [] else [es[0]]) + Retain(es[1..], host, port)
  }

  function NewEntry(host: string, port: u16, key: seq<u8>, algorithm: string): Entry {
    Entry(host, port, algorithm, key, None, false)
  }

  function Added(es: seq<Entry>, host: string, port: u16, key: seq<u8>, algorithm: string): seq<Entry> {
    Retain(es, host, port) + [NewEntry(host, port, key, algorithm)]
  }

  lemma {:induction false} RetainIs(es: seq<Entry>, host: string, port: u16)
    ensures forall e :: e in Retain(es, host, port) <==> e in es && !Displaced(e, host, port)
  {
    hide Displaced;
    if es == [] {
    } else {
      RetainIs(es[1..], host, port);
      assert es == [es[0]] + es[1..];
    }
  }

  /** What `key` gets from a store whose only word on the endpoint is `trusted`. */
  function Pin(trusted: seq<u8>, key: seq<u8>): Verdict {
    if key == trusted then Match else Changed
  }

  function Ported(es: seq<Entry>): seq<Entry> {
    if es == [] then [] else (if es[0].port == 0 then [] else [es[0]]) + Ported(es[1..])
  }

  /** Every verdict after `add_entry(host, port, key)`, for every query:
      - other hosts: unchanged;
      - the endpoint itself, and every port of the host when `port` is 0: decided by the new key;
      - other ports of the host, after port 22: forgotten;
      - other ports of the host, otherwise: what the entries with an explicit port said. */
  lemma {:induction false} AddEntryEffect(
      es: seq<Entry>, host: string, port: u16, key: seq<u8>, algorithm: string, h: string, p: u16, k: seq<u8>)
    ensures VerdictOf(Added(es, host, port, key, algorithm), h, p, k)
            == if !HostMatches(h, host) then VerdictOf(es, h, p, k)
               else if port == 0 || p == port then Pin(key, k)
               else if port == 22 then NotFound
               else VerdictOf(Ported(es), h, p, k)
  {
    var e := NewEntry(host, port, key, algorithm);
    VerdictJoins(Retain(es, host, port), [e], h, p, k);
    HostMatchesIsEquivalence(host, h, host);
    HostMatchesIsEquivalence(h, host, h);
    assert VerdictOf([e], h, p, k) == Opinion(e, h, p, k);
    RetainEffect(es, host, port, h, p, k);
  }

  lemma {:induction false} RetainEffect(es: seq<Entry>, host: string, port: u16, h: string, p: u16, k: seq<u8>)
    ensures VerdictOf(Retain(es, host, port), h, p, k)
            == if !HostMatches(h, host) then VerdictOf(es, h, p, k)
               else if port == 0 || p == port || port == 22 then NotFound
               else VerdictOf(Ported(es), h, p, k)
  {
    if es == [] {
    } else {
      var e := es[0];
      RetainEffect(es[1..], host, port, h, p, k);
      HostMatchesIsEquivalence(e.hostname, host, h);
      HostMatchesIsEquivalence(h, host, h);
      HostMatchesIsEquivalence(e.hostname, h, host);
      hide HostMatches;
      UnconsVerdict(Displaced(e, host, port), e, Retain(es[1..], host, port), h, p, k);
      UnconsVerdict(e.port == 0, e, Ported(es[1..]), h, p, k);
    }
  }

  lemma UnconsVerdict(dropped: bool, e: Entry, rest: seq<Entry>, h: string, p: u16, k: seq<u8>)
    ensures VerdictOf((if dropped then [] else [e]) + rest, h, p, k)
            == if dropped then VerdictOf(rest, h, p, k) else Join(Opinion(e, h, p, k), VerdictOf(rest, h, p, k))
  {
    hide Opinion;
    if dropped {
      assert [] + rest == rest;
    } else {
      assert ([e] + rest)[1..] == rest;
    }
  }

  // Pins -------------------------------------------------------------------------------------------------------

  datatype Decision = Accept | Reject | KeyRevoked | KeyChanged

  /** A connection attempt: the endpoint and the key presented; a key that cannot be serialised
      is `None`. */
  datatype Attempt = Attempt(host: string, port: u16, key: Option<seq<u8>>, algorithm: string)

  function Check(es: seq<Entry>, host: string, port: u16, key: Option<seq<u8>>): Verdict {
    if key.None? then NotFound else VerdictOf(es, host, port, key.value)
  }

  /** `check_server_key` with a known-hosts store: the answer to a verdict. */
  function DecisionFor(v: Verdict, acceptNew: bool): Decision {
    match v
    case Match => Accept
    case Revoked => KeyRevoked
    case Changed => KeyChanged
    case NotFound => if acceptNew then Accept else Reject
  }

  /** Without accept-new, exactly the keys known for the endpoint and revoked nowhere are accepted. */
  lemma StrictDecision(es: seq<Entry>, host: string, port: u16, key: Option<seq<u8>>)
    ensures DecisionFor(Check(es, host, port, key), false) == Accept
            <==> key.Some?
                 && (exists e :: e in es && About(e, host, port) && e.keyBlob == key.value)
                 && !exists e :: e in es && About(e, host, port) && e.revoked
    ensures key.None? || !(exists e :: e in es && About(e, host, port)) ==>
              DecisionFor(Check(es, host, port, key), false) == Reject
  {
    hide About, VerdictOf;
    if key.Some? {
      VerdictMeans(es, host, port, key.value);
    }
  }

  predicate SameEndpoint(a: Attempt, b: Attempt) {
    HostMatches(a.host, b.host) && a.port == b.port
  }

  /** The endpoint is pinned to `key`: the entries that apply to it name its very port, are not
      revoked and hold `key`, and there is one. */
  ghost predicate Pinned(es: seq<Entry>, host: string, port: u16, key: seq<u8>) {
    (forall e :: e in es && Applies(e, host, port) ==> e.port == port && !e.revoked && e.keyBlob == key)
    && exists e :: e in es && Applies(e, host, port)
  }

  lemma PinnedDecides(es: seq<Entry>, host: string, port: u16, key: seq<u8>, k: seq<u8>)
    requires Pinned(es, host, port, key)
    ensures VerdictOf(es, host, port, k) == Pin(key, k)
  {
    VerdictIsLeastUpperBound(es, host, port, k);
    hide VerdictOf, Applies;
    var e :| e in es && Applies(e, host, port);
    assert Opinion(e, host, port, k) == Pin(key, k);
  }

  lemma AddedPins(es: seq<Entry>, host: string, port: u16, key: seq<u8>, algorithm: string)
    ensures Pinned(Added(es, host, port, key, algorithm), host, port, key)
  {
    RetainIs(es, host, port);
    HostMatchesIsEquivalence(host, host, host);
    var e := NewEntry(host, port, key, algorithm);
    assert e in Added(es, host, port, key, algorithm);
    hide HostMatches, Retain;
  }

  /** When a pin survives another `add_entry`: exactly when that is for another host, or for a port
      other than 0, 22 and the pinned one, or again for the same key on this port or on any port. */
  lemma PinSurvives(
      es: seq<Entry>, host: string, port: u16, key: seq<u8>, h: string, p: u16, k: seq<u8>, algorithm: string)
    requires port != 0 && Pinned(es, host, port, key)
    ensures (forall q :: VerdictOf(Added(es, h, p, k, algorithm), host, port, q) == Pin(key, q))
            <==> !HostMatches(host, h) || (p != 0 && p != 22 && p != port) || ((p == port || p == 0) && k == key)
  {
    var es' := Added(es, h, p, k, algorithm);
    if !HostMatches(host, h) || (p != 0 && p != 22 && p != port) {
      OtherAddKeepsPin(es, host, port, key, h, p, k, algorithm);
      forall q
        ensures VerdictOf(es', host, port, q) == Pin(key, q)
      {
        PinnedDecides(es', host, port, key, q);
      }
    } else {
      forall q
        ensures VerdictOf(es', host, port, q) == if p == 0 || p == port then Pin(k, q) else NotFound
      {
        AddEntryEffect(es, h, p, k, algorithm, host, port, q);
      }
      assert VerdictOf(es', host, port, key) == if p == 0 || p == port then Pin(k, key) else NotFound;
    }
  }

  lemma OtherAddKeepsPin(
      es: seq<Entry>, host: string, port: u16, key: seq<u8>, h: string, p: u16, k: seq<u8>, algorithm: string)
    requires port != 0 && Pinned(es, host, port, key)
    requires !HostMatches(host, h) || (p != 0 && p != 22 && p != port)
    ensures Pinned(Added(es, h, p, k, algorithm), host, port, key)
  {
    var es', n := Added(es, h, p, k, algorithm), NewEntry(h, p, k, algorithm);
    RetainIs(es, h, p);
    var e :| e in es && Applies(e, host, port);
    HostMatchesIsEquivalence(e.hostname, host, h);
    HostMatchesIsEquivalence(host, e.hostname, h);
    HostMatchesIsEquivalence(h, host, h);
    hide HostMatches, Retain;
    assert !Displaced(e, h, p);
    assert e in es' && Applies(e, host, port);
    assert !Applies(n, host, port);
  }

  lemma {:induction false} SameHostSameVerdict(es: seq<Entry>, h: string, h': string, p: u16, k: seq<u8>)
    requires HostMatches(h, h')
    ensures VerdictOf(es, h, p, k) == VerdictOf(es, h', p, k)
  {
    if es == [] {
    } else {
      SameHostSameVerdict(es[1..], h, h', p, k);
      HostMatchesIsEquivalence(es[0].hostname, h, h');
      HostMatchesIsEquivalence(es[0].hostname, h', h);
      HostMatchesIsEquivalence(h, h', h);
      hide HostMatches;
    }
  }

  /** Whatever the store says about the endpoint, revoked or pinned to another key, a key that
      cannot be serialised is accepted. */
  lemma UnserialisableAccepted(es: seq<Entry>, revoked: Entry, host: string, port: u16)
    requires revoked in es && revoked.revoked && Applies(revoked, host, port)
    ensures DecisionFor(Check(es, host, port, None), true) == Accept
    ensures forall key :: DecisionFor(Check(es, host, port, Some(key)), true) == KeyRevoked
  {
    forall key
      ensures VerdictOf(es, host, port, key) == Revoked
    {
      VerdictIsLeastUpperBound(es, host, port, key);
    }
  }
}
