/**
 Saving a store and loading it back: the entries return in order and without warnings, with port
 22 turned into 0 (any port), since `save` prints both as a plain host. What that does to verdicts
 is stated exactly.
 */
module KnownHostsRoundTrip {
  import opened Bytes
  import opened KnownHosts
  import opened KnownHostsText

  // Entries that survive printing ------------------------------------------------------------------------------

  /** Words separated by single spaces, at least one. */
  predicate SingleSpaced(s: string) {
    s != [] && s == JoinWords(SplitWords(s))
  }

  predicate PlainHost(e: Entry) {
    e.hostname != [] && ',' !in e.hostname && e.hostname[0] != '['
    && e.hostname != "@cert-authority"
    && (!e.revoked ==> e.hostname != "@revoked" && e.hostname[0] != '#' && e.hostname[0] != '|')
  }

  /** The shape of the fields of any parsed entry. */
  predicate Fielded(e: Entry) {
    Solid(e.hostname) && Word(e.algorithm) && e.keyBlob != [] && (e.comment.Some? ==> SingleSpaced(e.comment.value))
  }

  predicate HostSurvives(e: Entry) {
    if Bracketed(e) then !EndsWith(e.hostname, ']') else PlainHost(e)
  }

  /** A printed line of this entry reads back as the entry. */
  predicate Printable(e: Entry) {
    Fielded(e) && HostSurvives(e)
  }

  function Loaded(e: Entry): Entry {
    if e.port == 22 then e.(port := 0) else e
  }

  function LoadedAll(es: seq<Entry>): (ls: seq<Entry>)
    ensures |ls| == |es| && forall i :: 0 <= i < |es| ==> ls[i] == Loaded(es[i])
  {
    seq(|es|, i requires 0 <= i < |es| => Loaded(es[i]))
  }

  // Words --------------------------------------------------------------------------------------------------------

  lemma {:induction false} WordLengthOf(w: string, rest: string)
    requires Solid(w) && (rest == [] || IsSpace(rest[0]))
    ensures WordLength(w + rest) == |w|
  {
    hide IsSpace;
    if w == [] {
      assert w + rest == rest;
    } else {
      assert (w + rest)[1..] == w[1..] + rest;
      WordLengthOf(w[1..], rest);
    }
  }

  lemma SplitFirstWord(w: string, rest: string)
    requires Word(w) && (rest == [] || IsSpace(rest[0]))
    ensures SplitWords(w + rest) == [w] + SplitWords(rest)
  {
    hide IsSpace;
    WordLengthOf(w, rest);
    assert (w + rest)[0] == w[0];
    assert TrimStart(w + rest) == w + rest;
    assert (w + rest)[..|w|] == w && (w + rest)[|w|..] == rest;
  }

  lemma SplitAfterSpace(s: string)
    ensures SplitWords(" " + s) == SplitWords(s)
  {
    assert (" " + s)[1..] == s;
    assert TrimStart(" " + s) == TrimStart(s);
  }

  /** `w` + " " + `rest` splits into `w` and the words of `rest`. */
  lemma SplitSpaced(w: string, rest: string)
    requires Word(w)
    ensures SplitWords(w + " " + rest) == [w] + SplitWords(rest)
  {
    hide SplitWords;
    AppendAssociates(w, " ", rest);
    assert IsSpace((" " + rest)[0]);
    SplitFirstWord(w, " " + rest);
    SplitAfterSpace(rest);
  }

  /** Only spaces separate joined words, and none is at either end. */
  lemma {:induction false} JoinedWords(ws: seq<string>)
    requires ws != [] && forall i :: 0 <= i < |ws| ==> Word(ws[i])
    ensures var s := JoinWords(ws);
            s != [] && !IsSpace(s[0]) && !IsSpace(s[|s| - 1])
            && forall i :: 0 <= i < |s| && IsSpace(s[i]) ==> s[i] == ' '
  {
    hide IsSpace;
    if |ws| > 1 {
      JoinedWords(ws[1..]);
      var s, w, t := JoinWords(ws), ws[0], JoinWords(ws[1..]);
      assert s == w + " " + t;
      assert s[|s| - 1] == t[|t| - 1];
      forall i | 0 <= i < |s|
        ensures IsSpace(s[i]) ==> s[i] == ' '
      {
        assert s[i] == if i < |w| then w[i] else if i == |w| then ' ' else t[i - |w| - 1];
      }
    }
  }

  // Hosts --------------------------------------------------------------------------------------------------------

  lemma {:induction false} NoCommas(s: string, n: nat)
    requires ',' !in s && n <= |s|
    ensures SplitCommasFrom(s, n) == [s]
    decreases |s| - n
  {
    if n < |s| {
      NoCommas(s, n + 1);
    }
  }

  lemma {:induction false} LastFindSkips(s: string, pattern: string, k: nat, i: nat)
    requires k < i <= |s| && pattern <= s[k..]
    requires forall j :: k < j < i ==> !(pattern <= s[j..])
    ensures LastFind(s, pattern, i) == Some(k)
    decreases i
  {
    if i > k + 1 {
      LastFindSkips(s, pattern, k, i - 1);
    }
  }

  lemma LastBracket(host: string, digits: string)
    requires digits != [] && forall i :: 0 <= i < |digits| ==> IsDigit(digits[i])
    ensures var inner := host + "]:" + digits;
            LastSplit(inner, "]:") == Some((host, digits)) && !EndsWith(inner, ']')
  {
    var inner := host + "]:" + digits;
    assert IsDigit(digits[|digits| - 1]) && inner[|inner| - 1] == digits[|digits| - 1];
    assert inner[|host|..][..2] == "]:";
    forall j | |host| < j < |inner|
      ensures !("]:" <= inner[j..])
    {
      assert inner[j] == if j == |host| + 1 then ':' else digits[j - |host| - 2];
      assert j > |host| + 1 ==> IsDigit(inner[j]);
      assert inner[j..][0] != "]:"[0];
    }
    LastFindSkips(inner, "]:", |host|, |inner|);
    assert inner[..|host|] == host && inner[|host| + 2..] == digits;
  }

  lemma BracketedHost(host: string, port: u16)
    requires !EndsWith(host, ']')
    ensures ParseHosts("[" + host + "]:" + Decimal(port)) == [(host, port)]
  {
    hide Decimal, LastSplit, ParseU16, SplitCommas;
    var digits := Decimal(port);
    assert ("[" + host + "]:" + digits)[1..] == host + "]:" + digits;
    LastBracket(host, digits);
    ParseDecimal(port);
  }

  lemma HostPartParses(e: Entry)
    requires Printable(e)
    ensures ParseHosts(HostPart(e)) == [(e.hostname, Loaded(e).port)]
  {
    hide SplitWords, JoinWords, Solid, Decimal;
    if Bracketed(e) {
      BracketedHost(e.hostname, e.port);
    } else {
      NoCommas(e.hostname, 0);
      hide IsSpace;
      assert SplitCommas(e.hostname) == [e.hostname];
    }
  }

  lemma HostPartIsSolid(e: Entry)
    requires Fielded(e)
    ensures Solid(HostPart(e)) && (Bracketed(e) ==> HostPart(e) != [] && HostPart(e)[0] == '[')
  {
    if Bracketed(e) {
      var digits, host := Decimal(e.port), HostPart(e);
      assert host == "[" + e.hostname + "]:" + digits;
      forall i | 0 <= i < |host|
        ensures !IsSpace(host[i])
      {
        if 1 <= i < 1 + |e.hostname| {
          assert host[i] == e.hostname[i - 1];
        } else if i >= |e.hostname| + 3 {
          assert host[i] == digits[i - |e.hostname| - 3] && IsDigit(host[i]);
        }
      }
    }
  }

  // One line -----------------------------------------------------------------------------------------------------

  function CommentWords(e: Entry): seq<string> {
    if e.comment.Some? then SplitWords(e.comment.value) else []
  }

  /** The fields after the host. */
  function TailFields(b: Base64, e: Entry): seq<string> {
    [e.algorithm, b.encode(e.keyBlob)] + CommentWords(e)
  }

  lemma Base64IsWord(b: Base64, e: Entry)
    requires Faithful(b) && e.keyBlob != []
    ensures Word(b.encode(e.keyBlob)) && Base64Text(b.encode(e.keyBlob))
    ensures b.decode(b.encode(e.keyBlob)) == Some(e.keyBlob)
  {
    var s := b.encode(e.keyBlob);
    forall i | 0 <= i < |s|
      ensures !IsSpace(s[i])
    {
      assert Base64Char(s[i]);
    }
  }

  lemma TailSplits(b: Base64, e: Entry)
    requires Faithful(b) && Fielded(e)
    ensures SplitWords(PrintTail(b, e)) == TailFields(b, e)
  {
    hide Word, Solid, IsSpace, SplitWords, JoinWords, Faithful, Base64Text;
    var key, cm := b.encode(e.keyBlob), CommentPart(e);
    Base64IsWord(b, e);
    SplitSpaced(e.algorithm, key + cm);
    SpaceIsSpace();
    assert cm != [] ==> cm[0] == ' ';
    SplitFirstWord(key, cm);
    if e.comment.Some? {
      SplitAfterSpace(e.comment.value);
    } else {
      NoWords();
    }
  }

  lemma BodySplits(b: Base64, e: Entry)
    requires Faithful(b) && Fielded(e)
    ensures SplitWords(PrintBody(b, e)) == (if HostPart(e) == [] then [] else [HostPart(e)]) + TailFields(b, e)
  {
    HostPartIsSolid(e);
    TailSplits(b, e);
    hide SplitWords, HostPart, PrintTail, TailFields, Faithful, Fielded;
    if HostPart(e) == [] {
      assert PrintBody(b, e) == " " + PrintTail(b, e);
      SplitAfterSpace(PrintTail(b, e));
      assert [] + TailFields(b, e) == TailFields(b, e);
    } else {
      SplitSpaced(HostPart(e), PrintTail(b, e));
    }
  }

  lemma NoWords()
    ensures SplitWords("") == []
  {}

  /** White space is spaces, and none at the end. */
  predicate Lined(s: string) {
    s != [] && !IsSpace(s[|s| - 1]) && forall i :: 0 <= i < |s| && IsSpace(s[i]) ==> s[i] == ' '
  }

  predicate Trimmed(s: string) {
    Lined(s) && !IsSpace(s[0])
  }

  lemma TailShape(b: Base64, e: Entry)
    requires Faithful(b) && Fielded(e)
    ensures Trimmed(PrintTail(b, e))
  {
    Base64IsWord(b, e);
    JoinedWords(TailFields(b, e));
    TailIsJoined(b, e);
  }

  lemma TailIsJoined(b: Base64, e: Entry)
    requires Fielded(e)
    ensures PrintTail(b, e) == JoinWords(TailFields(b, e))
  {
    hide IsSpace, SplitWords;
    var a, k, ws := e.algorithm, b.encode(e.keyBlob), CommentWords(e);
    assert ([a, k] + ws)[1..] == [k] + ws;
    assert ([k] + ws)[1..] == ws;
    CommentHasWords(e);
    assert JoinWords([k] + ws) == k + CommentPart(e) by {
      if ws == [] {
        assert [k] + ws == [k] && k + "" == k;
      } else {
        AppendAssociates(k, " ", JoinWords(ws));
      }
    }
  }

  lemma CommentHasWords(e: Entry)
    requires Fielded(e)
    ensures e.comment.Some? ==> SplitWords(e.comment.value) != []
  {
    assert JoinWords([]) == "";
  }

  lemma BodyShape(b: Base64, e: Entry)
    requires Faithful(b) && Fielded(e)
    ensures Lined(PrintBody(b, e)) && (HostPart(e) != [] ==> Trimmed(PrintBody(b, e)))
  {
    TailShape(b, e);
    HostPartIsSolid(e);
    hide HostPart, PrintTail, IsSpace, Faithful, Fielded;
    var s, h, t := PrintBody(b, e), HostPart(e), PrintTail(b, e);
    assert s[|s| - 1] == t[|t| - 1];
    forall i | 0 <= i < |s|
      ensures IsSpace(s[i]) ==> s[i] == ' '
    {
      assert s[i] == if i < |h| then h[i] else if i == |h| then ' ' else t[i - |h| - 1];
    }
    assert h != [] ==> s[0] == h[0];
  }

  lemma {:induction false} NoTrimEnd(s: string)
    requires s == [] || !IsSpace(s[|s| - 1])
    ensures TrimEnd(s) == s
  {}

  lemma TrimKeeps(s: string)
    requires Trimmed(s)
    ensures Trim(s) == s && s != []
  {
    NoTrimEnd(s);
  }

  lemma FieldsParse(b: Base64, e: Entry)
    requires Faithful(b) && Printable(e)
    ensures ParseFields(b, [HostPart(e)] + TailFields(b, e), e.revoked) == [Loaded(e)]
  {
    var parts := [HostPart(e)] + TailFields(b, e);
    HostPartParses(e);
    Base64IsWord(b, e);
    CommentHasWords(e);
    hide ParseHosts, IsSpace, HostPart, Faithful;
    assert parts[2] == b.encode(e.keyBlob) && parts[3..] == CommentWords(e);
    hide SplitWords, JoinWords;
  }

  /** A word followed by a space starts a line that begins with a marker only if it is that marker. */
  lemma MarkerOnly(marker: string, w: string, rest: string)
    requires Word(marker) && Word(w)
    ensures marker + " " <= w + " " + rest ==> w == marker
  {
    hide IsSpace;
    var line, m := w + " " + rest, marker + " ";
    assert IsSpace(' ') by { SpaceIsSpace(); }
    assert forall i :: 0 <= i < |w| ==> line[i] == w[i];
    assert IsSpace(line[|w|]);
    if m <= line {
      assert forall i :: 0 <= i < |marker| ==> line[i] == m[i] == marker[i];
      assert IsSpace(line[|marker|]) by { assert line[|marker|] == m[|marker|]; }
      assert |w| == |marker|;
      assert line[..|w|] == w && m[..|w|] == marker;
    }
  }

  lemma SpaceIsSpace()
    ensures IsSpace(' ')
  {}

  lemma MarkersAreWords()
    ensures Word("@revoked") && Word("@cert-authority")
    ensures REVOKED == "@revoked" + " " && CERT_AUTHORITY == "@cert-authority" + " "
  {}

  /** A printed body begins with neither marker, `#` nor `|`, unless a revoked marker precedes it. */
  lemma BodyStart(b: Base64, e: Entry)
    requires Faithful(b) && Printable(e)
    ensures HostPart(e) != []
    ensures !(CERT_AUTHORITY <= PrintBody(b, e))
    ensures !e.revoked ==> !(REVOKED <= PrintBody(b, e)) && PrintBody(b, e)[0] != '#' && PrintBody(b, e)[0] != '|'
  {
    MarkersAreWords();
    HostPartIsSolid(e);
    var h := HostPart(e);
    MarkerOnly("@revoked", h, PrintTail(b, e));
    MarkerOnly("@cert-authority", h, PrintTail(b, e));
    assert PrintBody(b, e)[0] == h[0];
    if Bracketed(e) {
      assert h[0] == '[';
      assert "@revoked"[0] != '[' && "@cert-authority"[0] != '[';
    }
  }

  lemma ParseTrimmed(b: Base64, line: string, rest: string, revoked: bool)
    requires line != [] && Trim(line) == line && line[0] != '#' && line[0] != '|' && !(CERT_AUTHORITY <= line)
    requires revoked == (REVOKED <= line) && rest == (if revoked then line[|REVOKED|..] else line)
    requires !(CERT_AUTHORITY <= rest)
    ensures ParseEntry(b, line) == ParseFields(b, SplitWords(rest), revoked)
    ensures ParseEntry(b, line) != [] ==>
              forall number :: ParseLine(b, line, number) == Content(ParseEntry(b, line), [])
  {
    hide Trim, SplitWords, ParseFields;
  }

  lemma LineParses(b: Base64, e: Entry, number: nat)
    requires Faithful(b) && Printable(e)
    ensures ParseLine(b, PrintEntry(b, e), number) == Content([Loaded(e)], [])
  {
    hide Faithful, HostSurvives, Fielded, PrintBody, TailFields, SplitWords, ParseFields, IsSpace, Loaded, Trim,
         ParseLine, ParseEntry;
    var body, line := PrintBody(b, e), PrintEntry(b, e);
    BodyShape(b, e);
    BodyStart(b, e);
    BodySplits(b, e);
    FieldsParse(b, e);
    if e.revoked {
      RevokedLine(body);
      assert line[|REVOKED|..] == body;
    } else {
      assert line == "" + body == body;
      TrimKeeps(line);
    }
    ParseTrimmed(b, line, body, e.revoked);
  }

  lemma RevokedLine(body: string)
    requires Lined(body)
    ensures var line := REVOKED + body;
            line != [] && Trim(line) == line && line[0] == '@' && !(CERT_AUTHORITY <= line)
            && REVOKED <= line && line[|REVOKED|..] == body
  {
    var line := REVOKED + body;
    assert line[0] == '@' && line[1] == 'r' && line[|line| - 1] == body[|body| - 1];
    NoTrimEnd(line);
    assert CERT_AUTHORITY[1] == 'c';
  }

  // Entries that do not survive printing --------------------------------------------------------------------------

  lemma SolidPart(s: string, i: nat, j: nat)
    requires Solid(s) && i <= j <= |s|
    ensures Solid(s[i..j])
  {
    hide IsSpace;
  }

  lemma {:induction false} CommaPartsSolid(s: string, n: nat)
    requires Solid(s) && n <= |s|
    ensures forall i :: 0 <= i < |SplitCommasFrom(s, n)| ==> Solid(SplitCommasFrom(s, n)[i])
    decreases |s|, |s| - n
  {
    hide IsSpace, Solid;
    if n < |s| {
      if s[n] == ',' {
        SolidPart(s, 0, n);
        SolidPart(s, n + 1, |s|);
        assert s[0..n] == s[..n] && s[n + 1..|s|] == s[n + 1..];
        CommaPartsSolid(s[n + 1..], 0);
      } else {
        CommaPartsSolid(s, n + 1);
      }
    }
  }

  lemma {:induction false} CommaPartsHaveNone(s: string, n: nat)
    requires n <= |s| && ',' !in s[..n]
    ensures forall i :: 0 <= i < |SplitCommasFrom(s, n)| ==> ',' !in SplitCommasFrom(s, n)[i]
    decreases |s|, |s| - n
  {
    if n == |s| {
      assert s[..n] == s;
    } else if s[n] == ',' {
      CommaPartsHaveNone(s[n + 1..], 0);
    } else {
      assert s[..n + 1] == s[..n] + [s[n]];
      CommaPartsHaveNone(s, n + 1);
    }
  }

  /** Parsed hosts have no white space; brackets and commas never come back. */
  lemma HostsParsed(pattern: string)
    requires Solid(pattern)
    ensures forall i :: 0 <= i < |ParseHosts(pattern)| ==> Solid(ParseHosts(pattern)[i].0)
    ensures pattern != [] && pattern[0] == '[' ==> |ParseHosts(pattern)| == 1 && |ParseHosts(pattern)[0].0| < |pattern|
    ensures !(pattern != [] && pattern[0] == '[') ==>
              forall i :: 0 <= i < |ParseHosts(pattern)| ==> ',' !in ParseHosts(pattern)[i].0
  {
    hide IsSpace, LastFind, ParseU16, SplitCommasFrom;
    if pattern != [] && pattern[0] == '[' {
      assert Solid(pattern[1..]);
    } else {
      CommaPartsSolid(pattern, 0);
      CommaPartsHaveNone(pattern, 0);
    }
  }

  /** Splitting undoes joining. */
  lemma {:induction false} JoinSplits(ws: seq<string>)
    requires forall i :: 0 <= i < |ws| ==> Word(ws[i])
    ensures SplitWords(JoinWords(ws)) == ws
  {
    if ws == [] {
      NoWords();
    } else if |ws| == 1 {
      hide SplitWords, IsSpace;
      assert ws[0] + "" == ws[0];
      SplitFirstWord(ws[0], "");
      NoWords();
      assert [ws[0]] + [] == ws;
    } else {
      hide SplitWords, Word;
      JoinSplits(ws[1..]);
      SplitSpaced(ws[0], JoinWords(ws[1..]));
    }
  }

  lemma JoinedIsSingleSpaced(ws: seq<string>)
    requires ws != [] && forall i :: 0 <= i < |ws| ==> Word(ws[i])
    ensures SingleSpaced(JoinWords(ws))
  {
    hide IsSpace;
    JoinSplits(ws);
    JoinedWords(ws);
  }

  lemma FieldsParsed(b: Base64, parts: seq<string>, revoked: bool)
    requires Faithful(b) && forall i :: 0 <= i < |parts| ==> Word(parts[i])
    ensures forall e :: e in ParseFields(b, parts, revoked) ==> Fielded(e)
  {
    if |parts| >= 3 {
      HostsParsed(parts[0]);
      if |parts| > 3 {
        JoinedIsSingleSpaced(parts[3..]);
      }
      hide ParseHosts, IsSpace, SingleSpaced, JoinWords;
    }
  }

  lemma LineParsed(b: Base64, line: string, number: nat)
    requires Faithful(b)
    ensures forall e :: e in ParseLine(b, line, number).entries ==> Fielded(e)
  {
    hide Faithful, Fielded, ParseFields, SplitWords, Trim, Word;
    forall parts: seq<string>, revoked | forall i :: 0 <= i < |parts| ==> Word(parts[i])
      ensures forall e :: e in ParseFields(b, parts, revoked) ==> Fielded(e)
    {
      FieldsParsed(b, parts, revoked);
    }
  }

  lemma {:induction false} LinesParsed(b: Base64, lines: seq<string>, number: nat)
    requires Faithful(b)
    ensures forall e :: e in ParseLines(b, lines, number).entries ==> Fielded(e)
    decreases |lines|
  {
    hide Faithful, Fielded, ParseLine;
    if lines == [] {
    } else {
      LineParsed(b, lines[0], number);
      LinesParsed(b, lines[1..], number + 1);
    }
  }

  lemma OneParsed(b: Base64, parts: seq<string>, revoked: bool, e: Entry) returns (i: nat)
    requires e in ParseFields(b, parts, revoked)
    ensures |parts| >= 3 && i < |ParseHosts(parts[0])|
    ensures ParseHosts(parts[0])[i].0 == e.hostname && parts[1] == e.algorithm && e.revoked == revoked
  {
    hide ParseHosts, JoinWords;
    i :| 0 <= i < |ParseFields(b, parts, revoked)| && ParseFields(b, parts, revoked)[i] == e;
  }

  /** A host that is read from its own field, but not as it was printed. */
  lemma HostMisread(b: Base64, e: Entry, revoked: bool)
    requires Faithful(b) && Fielded(e)
    requires if Bracketed(e) then EndsWith(e.hostname, ']')
             else e.hostname != [] && (',' in e.hostname || e.hostname[0] == '[')
    ensures Loaded(e) !in ParseFields(b, [HostPart(e)] + TailFields(b, e), revoked)
  {
    var parts := [HostPart(e)] + TailFields(b, e);
    if Bracketed(e) {
      ClosingBracketLost(e);
    } else {
      HostsParsed(e.hostname);
    }
    hide ParseHosts, ParseFields, SplitWords, Faithful, Fielded;
    if Loaded(e) in ParseFields(b, parts, revoked) {
      var i := OneParsed(b, parts, revoked, Loaded(e));
    }
  }

  lemma ClosingBracketLost(e: Entry)
    requires Bracketed(e) && EndsWith(e.hostname, ']')
    ensures |ParseHosts(HostPart(e))| == 1 && |ParseHosts(HostPart(e))[0].0| < |e.hostname|
  {
    hide Decimal, LastSplit, ParseU16, SplitCommas;
    var host, digits := e.hostname, Decimal(e.port);
    assert HostPart(e)[1..] == host + "]:" + digits;
    LastBracket(host, digits);
    ParseDecimal(e.port);
  }

  /** When the host is lost, the algorithm is read as the host. */
  lemma FieldsShifted(b: Base64, e: Entry, revoked: bool)
    requires Faithful(b) && Fielded(e) && (e.hostname == [] || '@' in e.hostname)
    ensures Loaded(e) !in ParseFields(b, TailFields(b, e), revoked)
  {
    var parts, key := TailFields(b, e), b.encode(e.keyBlob);
    Base64IsWord(b, e);
    hide Faithful, ParseFields, SplitWords, Fielded;
    if Loaded(e) in ParseFields(b, parts, revoked) {
      var i := OneParsed(b, parts, revoked, Loaded(e));
      Base64Host(key);
    }
  }

  lemma Base64Host(key: string)
    requires key != [] && Base64Text(key)
    ensures '@' !in key && ParseHosts(key) == [(key, 0)]
  {
    assert Base64Char(key[0]) && ',' !in key && '@' !in key;
    NoCommas(key, 0);
  }

  /** What remains of a line after its markers. */
  function Unmarked(line: string): string {
    var rest := if REVOKED <= line then line[|REVOKED|..] else line;
    if CERT_AUTHORITY <= rest then rest[|CERT_AUTHORITY|..] else rest
  }

  /** What a line is read as, in terms of the trimmed line. */
  lemma LineReads(b: Base64, line: string, t: string, number: nat)
    requires t != [] && Trim(line) == t == Trim(t)
    ensures ParseLine(b, line, number).entries
            == if t[0] == '#' || t[0] == '|' || CERT_AUTHORITY <= t then []
               else ParseFields(b, SplitWords(Unmarked(t)), REVOKED <= t)
  {
    hide Trim, SplitWords, ParseFields;
  }

  lemma WrongFlag(b: Base64, parts: seq<string>, e: Entry)
    requires !e.revoked
    ensures e !in ParseFields(b, parts, true)
  {
    hide ParseFields;
    if e in ParseFields(b, parts, true) {
      var i := OneParsed(b, parts, true, e);
    }
  }

  lemma MarkedPrefix(w: string, rest: string)
    ensures w + " " <= w + " " + rest && (w + " " + rest)[|w| + 1..] == rest
  {}

  /** A line whose host is empty is read with its other fields shifted. */
  lemma EmptyHostMisread(b: Base64, e: Entry, number: nat)
    requires Faithful(b) && Fielded(e) && HostPart(e) == []
    ensures Loaded(e) !in ParseLine(b, PrintEntry(b, e), number).entries
  {
    hide Trim, SplitWords, ParseFields, ParseLine, TailFields, Faithful, Fielded, PrintTail, IsSpace, Decimal, Lined,
         Trimmed;
    var line, body, tail := PrintEntry(b, e), PrintBody(b, e), PrintTail(b, e);
    assert e.hostname == [] && body == " " + tail;
    TailShape(b, e);
    TailSplits(b, e);
    FieldsShifted(b, e, e.revoked);
    if e.revoked {
      BodyShape(b, e);
      RevokedLine(body);
      SplitAfterSpace(tail);
      LineReads(b, line, line, number);
      assert !(CERT_AUTHORITY <= body) by {
        assert body[0] == ' ' && CERT_AUTHORITY[0] == '@';
      }
      assert Unmarked(line) == body;
    } else {
      assert line == "" + body == body;
      TrimKeeps(tail);
      TrimAfterSpace(tail);
      WrongFlag(b, SplitWords(Unmarked(tail)), Loaded(e));
      LineReads(b, line, tail, number);
    }
  }

  lemma TrimAfterSpace(s: string)
    ensures Trim(" " + s) == Trim(s)
  {
    assert (" " + s)[1..] == s;
  }

  /** A host that looks like syntax is read as that syntax. */
  lemma PlainMisread(b: Base64, e: Entry, number: nat)
    requires Faithful(b) && Fielded(e) && !e.revoked && HostPart(e) != [] && !HostSurvives(e)
    ensures Loaded(e) !in ParseLine(b, PrintEntry(b, e), number).entries
  {
    hide Trim, SplitWords, ParseFields, ParseLine, TailFields, Faithful, Fielded, PrintTail, IsSpace, Decimal, Lined,
         Trimmed;
    var h, body := HostPart(e), PrintBody(b, e);
    assert PrintEntry(b, e) == "" + body == body;
    BodyShape(b, e);
    TrimKeeps(body);
    BodySplits(b, e);
    MarkersAreWords();
    MarkedPrefix(h, PrintTail(b, e));
    assert body[0] == h[0];
    WrongFlag(b, SplitWords(Unmarked(body)), Loaded(e));
    LineReads(b, body, body, number);
    if Bracketed(e) || ',' in e.hostname || e.hostname[0] == '[' {
      HostMisread(b, e, false);
    }
  }

  lemma RevokedMisread(b: Base64, e: Entry, number: nat)
    requires Faithful(b) && Fielded(e) && e.revoked && HostPart(e) != [] && !HostSurvives(e)
    ensures Loaded(e) !in ParseLine(b, PrintEntry(b, e), number).entries
  {
    hide Trim, SplitWords, ParseFields, ParseLine, TailFields, Faithful, Fielded, PrintTail, IsSpace, Decimal, Lined,
         Trimmed;
    var h, line, body, tail := HostPart(e), PrintEntry(b, e), PrintBody(b, e), PrintTail(b, e);
    BodyShape(b, e);
    RevokedLine(body);
    LineReads(b, line, line, number);
    HostPartIsSolid(e);
    MarkersAreWords();
    MarkedPrefix(h, tail);
    if CERT_AUTHORITY <= body {
      MarkerOnly("@cert-authority", h, tail);
      assert h[0] == "@cert-authority"[0] == '@';
      TailSplits(b, e);
      FieldsShifted(b, e, true);
    } else {
      BodySplits(b, e);
      HostMisread(b, e, true);
    }
  }

  /** A line reads back as the entry it was printed for if and only if the host survives;
      otherwise the entry is not even among those read. */
  lemma LineParsesIff(b: Base64, e: Entry, number: nat)
    requires Faithful(b) && Fielded(e)
    ensures ParseLine(b, PrintEntry(b, e), number) == Content([Loaded(e)], []) <==> HostSurvives(e)
    ensures Loaded(e) in ParseLine(b, PrintEntry(b, e), number).entries <==> HostSurvives(e)
  {
    hide Faithful, Fielded, ParseLine, PrintEntry;
    if HostSurvives(e) {
      LineParses(b, e, number);
    } else if HostPart(e) == [] {
      EmptyHostMisread(b, e, number);
    } else if e.revoked {
      RevokedMisread(b, e, number);
    } else {
      PlainMisread(b, e, number);
    }
  }

  // A whole file -------------------------------------------------------------------------------------------------

  lemma {:induction false} LineLengthOf(line: string, rest: string)
    requires forall i :: 0 <= i < |line| ==> line[i] != '\n'
    ensures LineLength(line + "\n" + rest) == |line|
  {
    if line == [] {
      assert (line + "\n" + rest)[0] == '\n';
    } else {
      assert (line + "\n" + rest)[1..] == line[1..] + "\n" + rest;
      LineLengthOf(line[1..], rest);
    }
  }

  lemma FirstLine(line: string, rest: string)
    requires !EndsWith(line, '\r') && forall i :: 0 <= i < |line| ==> line[i] != '\n'
    ensures Lines(line + "\n" + rest) == [line] + Lines(rest)
  {
    LineLengthOf(line, rest);
    var s := line + "\n" + rest;
    assert s[..|line|] == line && s[|line| + 1..] == rest;
  }

  lemma OneLine(marker: string, body: string)
    requires Lined(body) && (marker == "" || marker == REVOKED)
    ensures var line := marker + body;
            !EndsWith(line, '\r') && forall i :: 0 <= i < |line| ==> line[i] != '\n'
  {
    var line := marker + body;
    assert IsSpace('\n') && IsSpace('\r');
    hide IsSpace;
    forall i | 0 <= i < |line|
      ensures line[i] != '\n'
    {
      assert line[i] == if i < |marker| then marker[i] else body[i - |marker|];
    }
    assert line[|line| - 1] == body[|body| - 1];
  }

  lemma PrintedLine(b: Base64, e: Entry)
    requires Faithful(b) && Fielded(e)
    ensures var line := PrintEntry(b, e);
            !EndsWith(line, '\r') && forall i :: 0 <= i < |line| ==> line[i] != '\n'
  {
    hide Faithful, Fielded, PrintBody, HostPart, Trimmed, Lined, EndsWith;
    BodyShape(b, e);
    OneLine(if e.revoked then REVOKED else "", PrintBody(b, e));
  }

  ghost predicate AllPrintable(es: seq<Entry>) {
    forall i :: 0 <= i < |es| ==> Printable(es[i])
  }

  ghost predicate AllFielded(es: seq<Entry>) {
    forall i :: 0 <= i < |es| ==> Fielded(es[i])
  }

  /** What a saved store is read as, without the warnings. */
  function Reread(b: Base64, es: seq<Entry>, number: nat): seq<Entry> {
    ParseLines(b, Lines(PrintEntries(b, es)), number).entries
  }

  /** The first entry takes the first line. */
  lemma LinesUncons(b: Base64, es: seq<Entry>, number: nat)
    requires Faithful(b) && es != [] && Fielded(es[0])
    ensures var (first, rest) := (ParseLine(b, PrintEntry(b, es[0]), number),
                                  ParseLines(b, Lines(PrintEntries(b, es[1..])), number + 1));
            ParseLines(b, Lines(PrintEntries(b, es)), number)
            == Content(first.entries + rest.entries, first.warnings + rest.warnings)
  {
    hide Faithful, Fielded, PrintEntry, ParseLine, EndsWith;
    var line, rest := PrintEntry(b, es[0]), PrintEntries(b, es[1..]);
    PrintedLine(b, es[0]);
    FirstLine(line, rest);
    hide Lines;
    assert ([line] + Lines(rest))[1..] == Lines(rest);
  }

  lemma {:induction false} LinesParse(b: Base64, es: seq<Entry>, number: nat)
    requires Faithful(b) && AllPrintable(es)
    ensures ParseLines(b, Lines(PrintEntries(b, es)), number) == Content(LoadedAll(es), [])
    decreases |es|
  {
    hide Faithful, HostSurvives, Fielded, PrintEntry, ParseLine, Loaded;
    if es == [] {
    } else {
      LinesUncons(b, es, number);
      LineParses(b, es[0], number);
      LinesParse(b, es[1..], number + 1);
      assert LoadedAll(es) == [Loaded(es[0])] + LoadedAll(es[1..]);
    }
  }

  /** Once entries are owed, no later line makes up for them. */
  lemma {:induction false} GapStays(b: Base64, owed: seq<Entry>, es: seq<Entry>, number: nat)
    requires Faithful(b) && AllFielded(es) && owed != []
    ensures Reread(b, es, number) != owed + LoadedAll(es)
    decreases |es|
  {
    hide Faithful, HostSurvives, Fielded, PrintEntry, ParseLine, Loaded, PrintEntries, Lines;
    if es == [] {
      NoEntries(b);
    } else {
      LinesUncons(b, es, number);
      LineParsesIff(b, es[0], number);
      var first, later := ParseLine(b, PrintEntry(b, es[0]), number).entries, Reread(b, es[1..], number + 1);
      hide ParseLines;
      var all := first + later;
      assert forall i :: 0 <= i < |first| ==> all[i] in first;
      if all == owed + LoadedAll(es) {
        assert LoadedAll(es) == [Loaded(es[0])] + LoadedAll(es[1..]);
        assert all[|owed|] == Loaded(es[0]);
        if |first| <= |owed| {
          var owed' := owed[|first|..] + [Loaded(es[0])];
          assert later == all[|first|..] == owed' + LoadedAll(es[1..]);
          GapStays(b, owed', es[1..], number + 1);
        }
      }
    }
  }

  lemma NoEntries(b: Base64)
    ensures Lines(PrintEntries(b, [])) == []
  {}

  lemma {:induction false} RereadSurvives(b: Base64, es: seq<Entry>, number: nat)
    requires Faithful(b) && AllFielded(es) && Reread(b, es, number) == LoadedAll(es)
    ensures AllPrintable(es)
    decreases |es|
  {
    hide Faithful, HostSurvives, Fielded, PrintEntry, ParseLine, Loaded, PrintEntries, Lines;
    if es == [] {
    } else {
      LinesUncons(b, es, number);
      LineParsesIff(b, es[0], number);
      var first, later := ParseLine(b, PrintEntry(b, es[0]), number).entries, Reread(b, es[1..], number + 1);
      assert LoadedAll(es) == [Loaded(es[0])] + LoadedAll(es[1..]);
      if first == [] {
        assert later == first + later;
        GapStays(b, [Loaded(es[0])], es[1..], number + 1);
        assert false;
      }
      assert first[0] == (first + later)[0] == Loaded(es[0]);
      assert later == (first + later)[1..] == LoadedAll(es[1..]);
      RereadSurvives(b, es[1..], number + 1);
    }
  }

  /** Save then load: the entries come back, in order and with port 22 as 0, if and only if every
      one of them is printable; and then there are no warnings. */
  lemma SaveLoad(b: Base64, es: seq<Entry>)
    requires Faithful(b)
    ensures ParseContent(b, PrintEntries(b, es)).entries == LoadedAll(es) <==> AllPrintable(es)
    ensures AllPrintable(es) ==> ParseContent(b, PrintEntries(b, es)) == Content(LoadedAll(es), [])
  {
    hide ParseLines, PrintEntries, Lines, Faithful, Fielded, HostSurvives, Loaded;
    var content := ParseContent(b, PrintEntries(b, es));
    if AllPrintable(es) {
      LinesParse(b, es, 1);
    }
    if content.entries == LoadedAll(es) {
      LinesParsed(b, Lines(PrintEntries(b, es)), 1);
      forall i | 0 <= i < |es|
        ensures Fielded(es[i])
      {
        assert Loaded(es[i]) == content.entries[i];
        LoadedFielded(es[i]);
      }
      RereadSurvives(b, es, 1);
    }
  }

  /** A host with a comma comes back as two hosts. */
  lemma CommaHostLost(b: Base64, key: seq<u8>)
    requires Faithful(b)
    ensures var e := Entry("a,b", 0, "ssh-ed25519", key, None, false);
            ParseContent(b, PrintEntries(b, [e])) != Content([Loaded(e)], [])
  {
    hide ParseContent, PrintEntries, Faithful, Fielded;
    var e := Entry("a,b", 0, "ssh-ed25519", key, None, false);
    SaveLoad(b, [e]);
    assert "a,b"[1] == ',' && !Printable([e][0]);
    assert LoadedAll([e]) == [Loaded(e)];
  }

  lemma LoadedFielded(e: Entry)
    ensures Fielded(Loaded(e)) ==> Fielded(e)
  {
    hide Solid, Word, SingleSpaced;
  }

  /** A second save and load changes nothing more. */
  lemma SecondSaveLoad(b: Base64, es: seq<Entry>)
    requires Faithful(b) && AllPrintable(es)
    ensures var once := ParseContent(b, PrintEntries(b, es)).entries;
            ParseContent(b, PrintEntries(b, once)) == Content(once, [])
  {
    hide Faithful, ParseContent, PrintEntries, Fielded, HostSurvives;
    SaveLoad(b, es);
    var once := LoadedAll(es);
    forall i | 0 <= i < |once|
      ensures Printable(once[i])
    {
      LoadedPrintable(es[i]);
    }
    SaveLoad(b, once);
    assert LoadedAll(once) == once;
  }

  lemma LoadedPrintable(e: Entry)
    requires Printable(e)
    ensures Printable(Loaded(e))
  {
    hide Solid, Word, SingleSpaced, EndsWith;
  }

  /** Only the entries for port 22. */
  function OnPort22(es: seq<Entry>): seq<Entry> {
    if es == [] then [] else (if es[0].port == 22 then [es[0]] else []) + OnPort22(es[1..])
  }

  /** The exact effect on verdicts: after loading, the entries for port 22 also speak on every
      other port of their host. */
  lemma {:induction false} LoadedVerdict(es: seq<Entry>, host: string, port: u16, key: seq<u8>)
    ensures VerdictOf(LoadedAll(es), host, port, key)
            == Join(VerdictOf(es, host, port, key), VerdictOf(OnPort22(es), host, 22, key))
    decreases |es|
  {
    hide HostMatches;
    if es == [] {
    } else {
      LoadedVerdict(es[1..], host, port, key);
      assert LoadedAll(es)[1..] == LoadedAll(es[1..]);
      UnconsVerdict(es[0].port != 22, es[0], OnPort22(es[1..]), host, 22, key);
    }
  }

  lemma {:induction false} Port22IsPart(es: seq<Entry>, host: string, key: seq<u8>)
    ensures VerdictOf(OnPort22(es), host, 22, key).Rank() <= VerdictOf(es, host, 22, key).Rank()
    decreases |es|
  {
    hide Opinion;
    if es == [] {
    } else {
      Port22IsPart(es[1..], host, key);
      UnconsVerdict(es[0].port != 22, es[0], OnPort22(es[1..]), host, 22, key);
    }
  }

  /** Verdicts at port 22 never change, and no verdict changes when no entry has port 22. */
  lemma LoadedVerdictUnchanged(es: seq<Entry>, host: string, port: u16, key: seq<u8>)
    requires port == 22 || forall i :: 0 <= i < |es| ==> es[i].port != 22
    ensures VerdictOf(LoadedAll(es), host, port, key) == VerdictOf(es, host, port, key)
  {
    LoadedVerdict(es, host, port, key);
    Port22IsPart(es, host, key);
    if port != 22 {
      assert LoadedAll(es) == es;
    }
  }
}
