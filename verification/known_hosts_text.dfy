/**
 The known-hosts file format: `KnownHostsEntry::parse` and its helpers, the content parser with its
 warnings, and the printer of `save`. Base64 is a parameter with its round-trip contract.
 */
module KnownHostsText {
  import opened Bytes
  import opened KnownHosts

  // String library ------------------------------------------------------------------------------------------

  /** Unicode White_Space, as `char::is_whitespace`. */
  predicate IsSpace(c: char) {
    var n := c as int;
    9 <= n <= 13 || n == 0x20 || n == 0x85 || n == 0xA0 || n == 0x1680 || 0x2000 <= n <= 0x200A
    || n == 0x2028 || n == 0x2029 || n == 0x202F || n == 0x205F || n == 0x3000
  }

  predicate Solid(s: string) {
    forall i :: 0 <= i < |s| ==> !IsSpace(s[i])
  }

  predicate Word(s: string) {
    s != [] && Solid(s)
  }

  function TrimStart(s: string): (t: string)
    ensures |t| <= |s| && (t == [] || !IsSpace(t[0]))
  {
    if s != [] && IsSpace(s[0]) then TrimStart(s[1..]) else s
  }

  function TrimEnd(s: string): string {
    if s != [] && IsSpace(s[|s| - 1]) then TrimEnd(s[..|s| - 1]) else s
  }

  function Trim(s: string): string {
    TrimEnd(TrimStart(s))
  }

  /** Length of the longest prefix without white space. */
  function WordLength(s: string): (n: nat)
    ensures n <= |s| && Solid(s[..n]) && (n < |s| ==> IsSpace(s[n]))
  {
    if s == [] || IsSpace(s[0]) then 0 else
      var n := 1 + WordLength(s[1..]);
      assert s[..n] == [s[0]] + s[1..][..n - 1];
      n
  }

  function SplitWords(s: string): (ws: seq<string>)
    ensures forall i :: 0 <= i < |ws| ==> Word(ws[i])
    decreases |s|
  {
    var t := TrimStart(s);
    if t == [] then [] else
      var n := WordLength(t);
      [t[..n]] + SplitWords(t[n..])
  }

  function JoinWords(ws: seq<string>): string {
    if ws == [] then "" else if |ws| == 1 then ws[0] else ws[0] + " " + JoinWords(ws[1..])
  }

  predicate EndsWith(s: string, c: char) {
    s != [] && s[|s| - 1] == c
  }

  /** The last position below `i` where `pattern` occurs. */
  function LastFind(s: string, pattern: string, i: nat): (k: Option<nat>)
    requires i <= |s|
    ensures k.Some? ==> k.value < i && pattern <= s[k.value..]
  {
    if i == 0 then None
    else if pattern <= s[i - 1..] then Some(i - 1)
    else LastFind(s, pattern, i - 1)
  }

  /** `rsplit_once`. */
  function LastSplit(s: string, pattern: string): Option<(string, string)> {
    match LastFind(s, pattern, |s|)
    case None => None
    case Some(k) => Some((s[..k], s[k + |pattern|..]))
  }

  function SplitCommas(s: string): seq<string> {
    SplitCommasFrom(s, 0)
  }

  function SplitCommasFrom(s: string, n: nat): seq<string>
    requires n <= |s|
    decreases |s| - n
  {
    if n == |s| then [s]
    else if s[n] == ',' then [s[..n]] + SplitCommasFrom(s[n + 1..], 0)
    else SplitCommasFrom(s, n + 1)
  }

  // Numbers ----------------------------------------------------------------------------------------------------

  predicate IsDigit(c: char) {
    '0' <= c <= '9'
  }

  predicate AllDigits(s: string) {
    forall i :: 0 <= i < |s| ==> IsDigit(s[i])
  }

  function DigitsValue(s: string): nat
    requires AllDigits(s)
  {
    if s == [] then 0 else
      assert IsDigit(s[|s| - 1]);
      DigitsValue(s[..|s| - 1]) * 10 + (s[|s| - 1] as int - '0' as int)
  }

  /** `str::parse::<u16>`: an optional plus sign, at least one digit, no overflow. */
  function ParseU16(s: string): Option<u16> {
    var d := if s != [] && s[0] == '+' then s[1..] else s;
    if d == [] || !AllDigits(d) then None
    else if DigitsValue(d) >= 0x1_0000 then None
    else Some(DigitsValue(d))
  }

  function Decimal(n: nat): (s: string)
    ensures s != [] && AllDigits(s) && DigitsValue(s) == n
  {
    var last := [('0' as int + n % 10) as char];
    if n < 10 then
      assert last[..0] == [];
      last
    else
      var s := Decimal(n / 10) + last;
      assert s[..|s| - 1] == Decimal(n / 10);
      s
  }

  lemma ParseDecimal(n: u16)
    ensures ParseU16(Decimal(n)) == Some(n)
  {
    assert IsDigit(Decimal(n)[0]);
  }

  // Lines --------------------------------------------------------------------------------------------------------

  /** Position of the first line feed, or the length. */
  function LineLength(s: string): (n: nat)
    ensures n <= |s| && (forall i :: 0 <= i < n ==> s[i] != '\n') && (n < |s| ==> s[n] == '\n')
  {
    if s == [] || s[0] == '\n' then 0 else 1 + LineLength(s[1..])
  }

  /** `str::lines`: a carriage return goes with the line feed it precedes. */
  function Lines(s: string): seq<string>
    decreases |s|
  {
    if s == [] then [] else
      var n := LineLength(s);
      if n == |s| then [s]
      else [if EndsWith(s[..n], '\r') then s[..n - 1] else s[..n]] + Lines(s[n + 1..])
  }

  // Parser ---------------------------------------------------------------------------------------------------------

  /** Base64 as the program uses it. */
  datatype Base64 = Base64(encode: seq<u8> -> string, decode: string -> Option<seq<u8>>)

  predicate Base64Char(c: char) {
    'A' <= c <= 'Z' || 'a' <= c <= 'z' || '0' <= c <= '9' || c == '+' || c == '/' || c == '='
  }

  predicate Base64Text(s: string) {
    forall i :: 0 <= i < |s| ==> Base64Char(s[i])
  }

  /** Decoding undoes encoding, the text is of the alphabet, and only no text denotes no bytes. */
  ghost predicate Faithful(b: Base64) {
    (forall bytes: seq<u8> ::
       b.decode(b.encode(bytes)) == Some(bytes) && Base64Text(b.encode(bytes))
       && (bytes != [] ==> b.encode(bytes) != []))
    && forall s: string :: b.decode(s) == Some([]) ==> s == ""
  }

  /** `parse_host_pattern`. */
  function ParseHosts(pattern: string): seq<(string, u16)> {
    if pattern != [] && pattern[0] == '[' then
      var inner := pattern[1..];
      if EndsWith(inner, ']') then
        var before := inner[..|inner| - 1];
        (match LastSplit(before, ":")
         case Some((host, port)) => if ParseU16(port).Some? then [(host, ParseU16(port).value)] else [(before, 0)]
         case None => [(before, 0)])
      else
        (match LastSplit(inner, "]:")
         case Some((host, port)) =>
           if ParseU16(port).Some? then
             [(if EndsWith(host, ']') then host[..|host| - 1] else host, ParseU16(port).value)]
           else [(inner, 0)]
         case None => [(inner, 0)])
    else
      var hosts := SplitCommas(pattern);
      seq(|hosts|, i requires 0 <= i < |hosts| => (hosts[i], 0))
  }

  const REVOKED := "@revoked "
  const CERT_AUTHORITY := "@cert-authority "

  /** `KnownHostsEntry::parse`. */
  function ParseEntry(b: Base64, line: string): seq<Entry> {
    var trimmed := Trim(line);
    if trimmed == [] || trimmed[0] == '#' then [] else
      var revoked := REVOKED <= trimmed;
      var rest := if revoked then trimmed[|REVOKED|..] else trimmed;
      var rest' := if CERT_AUTHORITY <= rest then rest[|CERT_AUTHORITY|..] else rest;
      ParseFields(b, SplitWords(rest'), revoked)
  }

  function ParseFields(b: Base64, parts: seq<string>, revoked: bool): seq<Entry> {
    if |parts| < 3 || b.decode(parts[2]).None? then [] else
      var hosts := ParseHosts(parts[0]);
      var comment := if |parts| > 3 then Some(JoinWords(parts[3..])) else None;
      seq(|hosts|, i requires 0 <= i < |hosts| =>
            Entry(hosts[i].0, hosts[i].1, parts[1], b.decode(parts[2]).value, comment, revoked))
  }

  datatype Reason = Hashed | CertAuthority | Unparsable
  datatype Warning = Warning(line: nat, content: string, reason: Reason)
  datatype Content = Content(entries: seq<Entry>, warnings: seq<Warning>)

  /** One line of a known-hosts file, numbered from 1. */
  function ParseLine(b: Base64, line: string, number: nat): Content {
    var trimmed := Trim(line);
    if trimmed == [] || trimmed[0] == '#' then Content([], [])
    else if trimmed[0] == '|' then Content([], [Warning(number, trimmed, Hashed)])
    else if CERT_AUTHORITY <= trimmed then Content([], [Warning(number, trimmed, CertAuthority)])
    else
      var entries := ParseEntry(b, trimmed);
      if entries != [] then Content(entries, []) else Content([], [Warning(number, trimmed, Unparsable)])
  }

  function ParseLines(b: Base64, lines: seq<string>, number: nat): Content {
    if lines == [] then Content([], []) else
      var first, rest := ParseLine(b, lines[0], number), ParseLines(b, lines[1..], number + 1);
      Content(first.entries + rest.entries, first.warnings + rest.warnings)
  }

  function ParseContent(b: Base64, content: string): Content {
    ParseLines(b, Lines(content), 1)
  }

  // Printer ----------------------------------------------------------------------------------------------------------

  predicate Bracketed(e: Entry) {
    e.port != 0 && e.port != 22
  }

  function HostPart(e: Entry): string {
    if Bracketed(e) then "[" + e.hostname + "]:" + Decimal(e.port) else e.hostname
  }

  function CommentPart(e: Entry): string {
    if e.comment.Some? then " " + e.comment.value else ""
  }

  /** The line that `save` prints for an entry, without the line feed. */
  function PrintEntry(b: Base64, e: Entry): string {
    (if e.revoked then REVOKED else "") + PrintBody(b, e)
  }

  function PrintBody(b: Base64, e: Entry): string {
    HostPart(e) + " " + PrintTail(b, e)
  }

  function PrintTail(b: Base64, e: Entry): string {
    e.algorithm + " " + (b.encode(e.keyBlob) + CommentPart(e))
  }

  function PrintEntries(b: Base64, es: seq<Entry>): string {
    if es == [] then "" else PrintEntry(b, es[0]) + "\n" + PrintEntries(b, es[1..])
  }
}
