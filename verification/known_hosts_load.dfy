/**
 What a known-hosts file means, shape by shape: host patterns, the fields of a line, the lines that
 give entries, nothing or a warning, and whole files.
 */
module KnownHostsLoad {
  import opened Bytes
  import opened KnownHosts
  import opened KnownHostsText
  import opened KnownHostsRoundTrip

  // Host patterns --------------------------------------------------------------------------------------------------

  function JoinCommas(hosts: seq<string>): string {
    if hosts == [] then "" else if |hosts| == 1 then hosts[0] else hosts[0] + "," + JoinCommas(hosts[1..])
  }

  predicate CommaFree(hosts: seq<string>) {
    forall i :: 0 <= i < |hosts| ==> ',' !in hosts[i]
  }

  lemma {:induction false} FirstComma(host: string, rest: string, n: nat)
    requires ',' !in host && n <= |host|
    ensures SplitCommasFrom(host + "," + rest, n) == [host] + SplitCommas(rest)
    decreases |host| - n
  {
    var s := host + "," + rest;
    if n == |host| {
      assert s[n] == ',' && s[..n] == host && s[n + 1..] == rest;
    } else {
      assert s[n] == host[n];
      FirstComma(host, rest, n + 1);
    }
  }

  lemma {:induction false} CommasSplit(hosts: seq<string>)
    requires hosts != [] && CommaFree(hosts)
    ensures SplitCommas(JoinCommas(hosts)) == hosts
  {
    if |hosts| == 1 {
      NoCommas(hosts[0], 0);
    } else {
      CommasSplit(hosts[1..]);
      FirstComma(hosts[0], JoinCommas(hosts[1..]), 0);
    }
  }

  /** A list of hosts: all of them, in order, for any port. */
  lemma HostList(hosts: seq<string>)
    requires hosts != [] && CommaFree(hosts) && !("[" <= JoinCommas(hosts))
    ensures var parsed := ParseHosts(JoinCommas(hosts));
            |parsed| == |hosts| && forall i :: 0 <= i < |hosts| ==> parsed[i] == (hosts[i], 0)
  {
    hide SplitCommas;
    CommasSplit(hosts);
    var pattern := JoinCommas(hosts);
    assert |pattern| > 0 ==> pattern[..1] == [pattern[0]];
  }

  /** `pattern` occurs nowhere in `s`. */
  predicate Absent(s: string, pattern: string) {
    forall k :: 0 <= k < |s| ==> !(pattern <= s[k..])
  }

  lemma {:induction false} NotFoundBelow(s: string, pattern: string, i: nat)
    requires i <= |s| && forall k :: 0 <= k < i ==> !(pattern <= s[k..])
    ensures LastFind(s, pattern, i) == None
    decreases i
  {
    if i == 0 {
    } else {
      NotFoundBelow(s, pattern, i - 1);
    }
  }

  /** Splitting at the last colon. */
  lemma LastColon(host: string, port: string)
    requires ':' !in port
    ensures LastSplit(host + ":" + port, ":") == Some((host, port))
  {
    var s := host + ":" + port;
    assert s[|host|..][..1] == ":";
    forall j | |host| < j < |s|
      ensures !(":" <= s[j..])
    {
      assert s[j] == port[j - |host| - 1];
      assert s[j..][0] == s[j];
    }
    LastFindSkips(s, ":", |host|, |s|);
    assert s[..|host|] == host && s[|host| + 1..] == port;
  }

  lemma NoColon(s: string)
    requires ':' !in s
    ensures LastSplit(s, ":") == None
  {
    forall k | 0 <= k < |s|
      ensures !(":" <= s[k..])
    {
      assert s[k..][0] == s[k];
    }
    NotFoundBelow(s, ":", |s|);
  }

  /** `[host:port]`, and what is not of that form inside brackets. */
  lemma InBrackets(host: string, port: string)
    requires ':' !in port
    ensures ParseHosts("[" + (host + ":" + port) + "]")
            == match ParseU16(port)
               case Some(p) => [(host, p)]
               case None => [(host + ":" + port, 0)]
    ensures ParseHosts("[" + port + "]") == [(port, 0)]
  {
    hide LastSplit, ParseU16, SplitCommas;
    LastColon(host, port);
    NoColon(port);
    Bracketing(host + ":" + port);
    Bracketing(port);
  }

  lemma Bracketing(x: string)
    ensures var s := "[" + x + "]";
            s[0] == '[' && EndsWith(s[1..], ']') && s[1..][..|s| - 2] == x
  {
    assert ("[" + x + "]")[1..] == x + "]";
  }

  /** `[host]:port`, where a closing bracket too many is dropped, and what is not of that form. */
  lemma AfterBrackets(host: string, port: string)
    requires Absent(port, "]:") && !EndsWith(port, ']')
    ensures ParseHosts("[" + (host + "]:" + port))
            == match ParseU16(port)
               case Some(p) => [(if EndsWith(host, ']') then host[..|host| - 1] else host, p)]
               case None => [(host + "]:" + port, 0)]
  {
    hide ParseU16, SplitCommas, Absent;
    var s := host + "]:" + port;
    BracketColon(host, port);
    hide LastSplit;
    assert ("[" + s)[1..] == s;
    assert s[|s| - 1] == if port == [] then ':' else port[|port| - 1];
  }

  lemma BracketColon(host: string, port: string)
    requires Absent(port, "]:")
    ensures LastSplit(host + "]:" + port, "]:") == Some((host, port))
  {
    var s := host + "]:" + port;
    assert s[|host|..][..2] == "]:";
    forall j | |host| < j < |s|
      ensures !("]:" <= s[j..])
    {
      if j > |host| + 1 {
        assert s[j..] == port[j - |host| - 2..];
      } else {
        assert s[j..][0] == ':';
      }
    }
    LastFindSkips(s, "]:", |host|, |s|);
    assert s[..|host|] == host && s[|host| + 2..] == port;
  }

  lemma OpenBracketOnly(x: string)
    requires !EndsWith(x, ']') && Absent(x, "]:")
    ensures ParseHosts("[" + x) == [(x, 0)]
  {
    hide ParseU16, SplitCommas;
    NotFoundBelow(x, "]:", |x|);
    assert ("[" + x)[1..] == x;
  }

  /** A port is a decimal number below 65536, with an optional sign. */
  lemma Ports(d: string)
    requires d != [] && AllDigits(d)
    ensures ParseU16(d) == ParseU16("+" + d) == if DigitsValue(d) < 65536 then Some(DigitsValue(d)) else None
  {
    hide DigitsValue;
    assert ("+" + d)[1..] == d;
    assert IsDigit(d[0]);
  }

  /** Nothing else is. */
  lemma NoPort(s: string, k: nat)
    requires k < |s| && !('0' <= s[k] <= '9') && (k == 0 ==> s[0] != '+' || |s| == 1)
    ensures ParseU16(s) == None && ParseU16("") == None
  {
    hide DigitsValue;
    var d := if s[0] == '+' then s[1..] else s;
    if d != [] {
      assert !IsDigit(d[if s[0] == '+' then k - 1 else k]);
      assert !AllDigits(d);
    }
  }

  /** Decimal notation, digit by digit. */
  lemma Digits(s: string, c: char)
    requires AllDigits(s) && '0' <= c <= '9'
    ensures var t := s + [c];
            && AllDigits(t)
            && DigitsValue(t) == DigitsValue(s) * 10 + (c as int - 48)
    ensures DigitsValue("") == 0
  {
    var t := s + [c];
    assert t[..|t| - 1] == s;
  }

  // Fields ---------------------------------------------------------------------------------------------------------

  predicate Blank(s: string) {
    forall i :: 0 <= i < |s| ==> IsSpace(s[i])
  }

  /** The ASCII characters that count as white space. */
  lemma AsciiSpaces(c: char)
    requires c as int < 0x80
    ensures IsSpace(c) <==> c as int in {9, 10, 11, 12, 13, 32}
  {}

  /** Words with any white space between them. */
  function Spread(words: seq<string>, gaps: seq<string>): string
    requires |gaps| == |words|
  {
    if words == [] then "" else words[0] + gaps[0] + Spread(words[1..], gaps[1..])
  }

  predicate Gaps(gaps: seq<string>) {
    forall i :: 0 <= i < |gaps| ==> Blank(gaps[i]) && (i < |gaps| - 1 ==> gaps[i] != [])
  }

  predicate Words(words: seq<string>) {
    forall i :: 0 <= i < |words| ==> Word(words[i])
  }

  lemma {:induction false} TrimStartBlank(gap: string, s: string)
    requires Blank(gap)
    ensures TrimStart(gap + s) == TrimStart(s)
  {
    hide IsSpace;
    if gap == [] {
      assert gap + s == s;
    } else {
      assert (gap + s)[1..] == gap[1..] + s;
      TrimStartBlank(gap[1..], s);
    }
  }

  lemma SplitAfterBlank(gap: string, s: string)
    requires Blank(gap)
    ensures SplitWords(gap + s) == SplitWords(s)
  {
    hide IsSpace;
    TrimStartBlank(gap, s);
  }

  /** However the words are spread out, splitting finds exactly them. */
  lemma {:induction false} SplitSpread(words: seq<string>, gaps: seq<string>)
    requires |gaps| == |words| && Words(words) && Gaps(gaps)
    ensures SplitWords(Spread(words, gaps)) == words
  {
    if words == [] {
      NoWords();
    } else {
      var w, gap, later := words[0], gaps[0], Spread(words[1..], gaps[1..]);
      SplitSpread(words[1..], gaps[1..]);
      hide IsSpace, SplitWords;
      AppendAssociates(w, gap, later);
      if gap == [] {
        assert gap + later == later;
        assert words[1..] == [] && later == "";
      } else {
        assert (gap + later)[0] == gap[0];
      }
      SplitFirstWord(w, gap + later);
      SplitAfterBlank(gap, later);
    }
  }

  lemma {:induction false} TrimEndBlank(s: string, gap: string)
    requires Blank(gap)
    ensures TrimEnd(s + gap) == TrimEnd(s)
    decreases |gap|
  {
    hide IsSpace;
    if gap == [] {
      assert s + gap == s;
    } else {
      var n := |gap| - 1;
      assert (s + gap)[..|s + gap| - 1] == s + gap[..n] && (s + gap)[|s + gap| - 1] == gap[n];
      TrimEndBlank(s, gap[..n]);
    }
  }

  /** No white space at either end. */
  predicate Solidly(s: string) {
    s != [] && !IsSpace(s[0]) && !IsSpace(s[|s| - 1])
  }

  lemma Trims(lead: string, t: string, trail: string)
    requires Blank(lead) && Blank(trail) && Solidly(t)
    ensures Trim(lead + t + trail) == t && Trim(t) == t
  {
    hide IsSpace;
    AppendAssociates(lead, t, trail);
    TrimStartBlank(lead, t + trail);
    assert (t + trail)[0] == t[0];
    TrimEndBlank(t, trail);
  }

  // Lines ----------------------------------------------------------------------------------------------------------

  lemma BlankLine(b: Base64, line: string, number: nat)
    requires Blank(line)
    ensures ParseLine(b, line, number) == Content([], [])
  {
    assert line + "" == line;
    TrimStartBlank(line, "");
    hide IsSpace, ParseEntry;
  }

  /** Lines without entries: a comment gives nothing; a hashed host or a certificate authority gives
      one warning with the line's number and text. */
  lemma OtherLines(b: Base64, lead: string, t: string, trail: string, number: nat)
    requires Blank(lead) && Blank(trail) && Solidly(t)
    ensures var line := ParseLine(b, lead + t + trail, number);
            && (t[0] == '#' ==> line == Content([], []))
            && (t[0] == '|' ==> line == Content([], [Warning(number, t, Hashed)]))
            && ("@cert-authority " <= t ==> line == Content([], [Warning(number, t, CertAuthority)]))
  {
    hide IsSpace, Trim, SplitWords, ParseEntry;
    Trims(lead, t, trail);
    assert "@cert-authority "[0] == '@' && CERT_AUTHORITY == "@cert-authority ";
  }

  /** The markers that a line with entries can start with. */
  function Marker(revoked: bool, authority: bool): string {
    (if revoked then "@revoked " else "") + if revoked && authority then "@cert-authority " else ""
  }

  /** The entries for the hosts of a pattern. */
  function EntriesFor(hosts: seq<(string, u16)>, algorithm: string, key: seq<u8>, comment: Option<string>,
                      revoked: bool): (es: seq<Entry>)
    ensures |es| == |hosts|
    ensures forall i :: 0 <= i < |es| ==>
              es[i] == Entry(hosts[i].0, hosts[i].1, algorithm, key, comment, revoked)
  {
    seq(|hosts|, i requires 0 <= i < |hosts| =>
          Entry(hosts[i].0, hosts[i].1, algorithm, key, comment, revoked))
  }

  /** A line is plain unless it starts like one of the other kinds. */
  predicate Plain(fields: string, revoked: bool, authority: bool) {
    Solidly(fields)
    && (revoked && !authority ==> !("@cert-authority " <= fields))
    && (!revoked ==>
          fields[0] != '#' && fields[0] != '|' && !("@revoked " <= fields) && !("@cert-authority " <= fields))
  }

  /** The text after the markers decides, with any white space between and around the fields. */
  lemma MarkedLine(b: Base64, lead: string, fields: string, trail: string, revoked: bool, authority: bool, number: nat)
    requires Blank(lead) && Blank(trail) && Plain(fields, revoked, authority)
    ensures var (t, es) := (Marker(revoked, authority) + fields, ParseFields(b, SplitWords(fields), revoked));
            ParseLine(b, lead + t + trail, number)
            == if es == [] then Content([], [Warning(number, t, Unparsable)]) else Content(es, [])
  {
    hide SplitWords, ParseFields, Trim, ParseLine, Marker, Plain, Unmarked, IsSpace, Blank;
    var t := Marker(revoked, authority) + fields;
    MarkerStarts(fields, revoked, authority);
    Trims(lead, t, trail);
    LineReads(b, lead + t + trail, t, number);
    EntriesOrWarning(b, lead + t + trail, t, number);
  }

  lemma EntriesOrWarning(b: Base64, line: string, t: string, number: nat)
    requires t != [] && Trim(line) == t && t[0] != '#' && t[0] != '|' && !(CERT_AUTHORITY <= t)
    ensures var read := ParseLine(b, line, number);
            read.warnings == if read.entries == [] then [Warning(number, t, Unparsable)] else []
  {
    hide Trim, ParseEntry;
  }

  /** A line with fewer than three fields, or whose third is not base64, is reported and skipped. */
  lemma UnparsableLine(b: Base64, lead: string, words: seq<string>, gaps: seq<string>, trail: string,
                       revoked: bool, authority: bool, number: nat)
    requires Blank(lead) && Blank(trail) && |gaps| == |words| && Words(words) && Gaps(gaps)
    requires Plain(Spread(words, gaps), revoked, authority)
    requires |words| < 3 || b.decode(words[2]).None?
    ensures var t := Marker(revoked, authority) + Spread(words, gaps);
            ParseLine(b, lead + t + trail, number) == Content([], [Warning(number, t, Unparsable)])
  {
    hide Spread, SplitWords, ParseLine, Word, Plain, Marker;
    SplitSpread(words, gaps);
    MarkedLine(b, lead, Spread(words, gaps), trail, revoked, authority, number);
  }

  lemma SpaceTable()
    ensures !IsSpace('@')
  {}

  lemma MarkerStarts(fields: string, revoked: bool, authority: bool)
    requires Plain(fields, revoked, authority)
    ensures var t := Marker(revoked, authority) + fields;
            && Solidly(t) && t[0] != '#' && t[0] != '|'
            && (REVOKED <= t <==> revoked) && !(CERT_AUTHORITY <= t) && Unmarked(t) == fields
  {
    hide IsSpace, Unmarked;
    if revoked {
      AppendAssociates("@revoked ", if authority then "@cert-authority " else "", fields);
      RevokedStarts(fields, authority);
    } else {
      assert Marker(false, authority) + fields == fields;
      UnmarkedStarts(fields);
    }
  }

  lemma RevokedStarts(fields: string, authority: bool)
    requires Plain(fields, true, authority)
    ensures var t := "@revoked " + ((if authority then "@cert-authority " else "") + fields);
            Solidly(t) && t[0] == '@' && REVOKED <= t && !(CERT_AUTHORITY <= t) && Unmarked(t) == fields
  {
    SpaceTable();
    hide IsSpace;
    var ca := "@cert-authority ";
    var inner := (if authority then ca else "") + fields;
    var t := "@revoked " + inner;
    assert REVOKED == "@revoked " && CERT_AUTHORITY == ca;
    assert t[|t| - 1] == fields[|fields| - 1];
    assert t[1] == 'r' && ca[1] == 'c';
    assert t[|"@revoked "|..] == inner;
    if authority {
      assert inner[..|ca|] == ca && inner[|ca|..] == fields;
    } else {
      assert inner == fields;
    }
  }

  lemma UnmarkedStarts(fields: string)
    requires Plain(fields, false, false)
    ensures !(REVOKED <= fields) && !(CERT_AUTHORITY <= fields) && Unmarked(fields) == fields
  {
    hide IsSpace;
    assert REVOKED == "@revoked " && CERT_AUTHORITY == "@cert-authority ";
  }

  /** A line with entries: one for each host of its pattern, in order, with the line's algorithm, key,
      comment and marker, whatever white space separates the fields. */
  lemma EntryLine(b: Base64, lead: string, pattern: string, algorithm: string, key: string, comment: seq<string>,
                  gaps: seq<string>, trail: string, revoked: bool, authority: bool, number: nat)
    requires Blank(lead) && Blank(trail) && Words([pattern, algorithm, key] + comment)
    requires |gaps| == 3 + |comment| && Gaps(gaps) && gaps[|gaps| - 1] == ""
    requires Plain(Spread([pattern, algorithm, key] + comment, gaps), revoked, authority)
    requires b.decode(key).Some? && ParseHosts(pattern) != []
    ensures var fields := Spread([pattern, algorithm, key] + comment, gaps);
            ParseLine(b, lead + (Marker(revoked, authority) + fields) + trail, number)
            == Content(EntriesFor(ParseHosts(pattern), algorithm, b.decode(key).value,
                                  if comment == [] then None else Some(JoinWords(comment)), revoked), [])
  {
    hide ParseHosts, Spread, SplitWords, ParseLine, Word, Plain, Marker;
    var words := [pattern, algorithm, key] + comment;
    SplitSpread(words, gaps);
    assert words[0] == pattern && words[1] == algorithm && words[2] == key && words[3..] == comment;
    var comments := if comment == [] then None else Some(JoinWords(comment));
    assert ParseFields(b, words, revoked)
        == EntriesFor(ParseHosts(pattern), algorithm, b.decode(key).value, comments, revoked);
    MarkedLine(b, lead, Spread(words, gaps), trail, revoked, authority, number);
  }

  /** So each host of a list gets the line's verdict, on every port and whatever its case. */
  lemma ListedVerdict(hosts: seq<string>, i: nat, host: string, algorithm: string, key: seq<u8>,
                      comment: Option<string>, revoked: bool, port: u16, presented: seq<u8>)
    requires hosts != [] && CommaFree(hosts) && !("[" <= JoinCommas(hosts)) && i < |hosts|
    requires Recasing(hosts[i], host)
    ensures var es := EntriesFor(ParseHosts(JoinCommas(hosts)), algorithm, key, comment, revoked);
            VerdictOf(es, host, port, presented)
            == if revoked then Revoked else if presented == key then Match else Changed
  {
    HostList(hosts);
    var es := EntriesFor(ParseHosts(JoinCommas(hosts)), algorithm, key, comment, revoked);
    hide ParseHosts, JoinCommas, VerdictOf, Recasing;
    VerdictMeans(es, host, port, presented);
    assert es[i] in es && es[i] == Entry(hosts[i], 0, algorithm, key, comment, revoked);
    forall e | e in es
      ensures e.keyBlob == key && e.revoked == revoked
    {
      var k :| 0 <= k < |es| && es[k] == e;
    }
  }

  // Files ----------------------------------------------------------------------------------------------------------

  /** Lines, each ended by a line feed or by a carriage return and a line feed. */
  function Terminated(lines: seq<string>, crlf: seq<bool>): string
    requires |crlf| == |lines|
  {
    if lines == [] then "" else
      lines[0] + (if crlf[0] then "\r\n" else "\n") + Terminated(lines[1..], crlf[1..])
  }

  predicate OneLiners(lines: seq<string>) {
    forall i :: 0 <= i < |lines| ==> '\n' !in lines[i] && !EndsWith(lines[i], '\r')
  }

  lemma LineEnd(line: string, crlf: bool, rest: string)
    requires '\n' !in line && !EndsWith(line, '\r')
    ensures Lines(line + (if crlf then "\r\n" else "\n") + rest) == [line] + Lines(rest)
  {
    if crlf {
      CrLfEnd(line, rest);
    } else {
      FirstLine(line, rest);
    }
  }

  lemma CrLfEnd(line: string, rest: string)
    requires '\n' !in line
    ensures Lines(line + "\r\n" + rest) == [line] + Lines(rest)
  {
    var long, s := line + "\r", line + "\r\n" + rest;
    assert s == long + "\n" + rest;
    LineLengthOf(long, rest);
    hide LineLength;
    assert s[..|long|] == long && s[|long| + 1..] == rest && long[..|line|] == line && EndsWith(long, '\r');
    assert s[..|long| - 1] == line;
  }

  /** A file splits into its lines; the last one need not be ended. */
  lemma {:induction false} FileLines(lines: seq<string>, crlf: seq<bool>, last: string)
    requires |crlf| == |lines| && OneLiners(lines) && '\n' !in last
    ensures Lines(Terminated(lines, crlf) + last) == lines + if last == [] then [] else [last]
  {
    hide Lines;
    if lines == [] {
      assert "" + last == last;
      LastLine(last);
    } else {
      var end, rest := if crlf[0] then "\r\n" else "\n", Terminated(lines[1..], crlf[1..]);
      FileLines(lines[1..], crlf[1..], last);
      AppendAssociates(lines[0] + end, rest, last);
      LineEnd(lines[0], crlf[0], rest + last);
    }
  }

  lemma LastLine(last: string)
    requires '\n' !in last
    ensures Lines(last) == if last == [] then [] else [last]
  {
    if last != [] {
      var n := LineLength(last);
    }
  }

  /** A file is read line by line, the first line being number 1. */
  lemma {:induction false} LineByLine(b: Base64, lines: seq<string>, number: nat)
    ensures var all := ParseLines(b, lines, number);
            && all.entries == Concat(seq(|lines|, i requires 0 <= i < |lines| =>
                                           ParseLine(b, lines[i], number + i).entries))
            && all.warnings == Concat(seq(|lines|, i requires 0 <= i < |lines| =>
                                            ParseLine(b, lines[i], number + i).warnings))
    decreases |lines|
  {
    hide ParseLine;
    if lines == [] {
    } else {
      var later := lines[1..];
      LineByLine(b, later, number + 1);
      var es := seq(|lines|, i requires 0 <= i < |lines| => ParseLine(b, lines[i], number + i).entries);
      var ws := seq(|lines|, i requires 0 <= i < |lines| => ParseLine(b, lines[i], number + i).warnings);
      assert es[1..] == seq(|later|, i requires 0 <= i < |later| => ParseLine(b, later[i], number + 1 + i).entries);
      assert ws[1..] == seq(|later|, i requires 0 <= i < |later| => ParseLine(b, later[i], number + 1 + i).warnings);
    }
  }

  lemma FileRead(b: Base64, content: string)
    ensures var (all, lines) := (ParseContent(b, content), Lines(content));
            && all.entries == Concat(seq(|lines|, i requires 0 <= i < |lines| =>
                                           ParseLine(b, lines[i], 1 + i).entries))
            && all.warnings == Concat(seq(|lines|, i requires 0 <= i < |lines| =>
                                            ParseLine(b, lines[i], 1 + i).warnings))
  {
    hide Lines, ParseLines, ParseLine;
    LineByLine(b, Lines(content), 1);
  }

  // Printed lines --------------------------------------------------------------------------------------------------

  /** A port is printed without leading zeros. */
  lemma {:induction false} NoLeadingZero(n: nat)
    ensures n > 0 ==> Decimal(n)[0] != '0'
    ensures n < 10 ==> |Decimal(n)| == 1
  {
    if n < 10 {
    } else {
      NoLeadingZero(n / 10);
      assert Decimal(n)[0] == Decimal(n / 10)[0];
    }
  }

  /** The host part: plain for ports 0 and 22, else in brackets before the port. */
  function PrintedHost(e: Entry): string {
    if e.port == 0 || e.port == 22 then e.hostname else "[" + e.hostname + "]:" + Decimal(e.port)
  }

  /** `save` prints the fields one space apart: the marker of a revoked key, the host, the algorithm,
      the key and the words of the comment. */
  lemma PrintedText(b: Base64, e: Entry)
    requires Fielded(e)
    ensures PrintEntry(b, e)
            == (if e.revoked then "@revoked " else "")
               + (PrintedHost(e) + " " + JoinWords([e.algorithm, b.encode(e.keyBlob)] + CommentWords(e)))
  {
    hide SplitWords, JoinWords, Fielded, Decimal;
    TailIsJoined(b, e);
    assert REVOKED == "@revoked ";
  }
}
