/**
 The wire format in numbers, as sections 3 to 7 of draft-ietf-secsh-filexfer-02 and the packet
 encoders lay it out: a packet is its length, its type and a list of fields. Every encoder produces
 exactly the bytes of its list, and every type byte is read as its own kind of packet.
 */
module Layout {
  import opened Bytes
  import opened Codec
  import opened Attributes
  import opened Packets
  import opened Responses
  import opened SftpServer
  import opened SftpApi
  import opened Transfer

  // Fields -----------------------------------------------------------------------------------------------

  datatype Field = Byte(b: u8) | Word(w: u32) | Long(l: u64) | Str(s: seq<u8>)

  /** Most significant byte first; a string is its length and its bytes. */
  function FieldBytes(f: Field): seq<u8> {
    match f
    case Byte(b) => [b]
    case Word(w) => WordBytes(w)
    case Long(l) => WordBytes(l / 0x1_0000_0000) + WordBytes(l % 0x1_0000_0000)
    case Str(s) => WordBytes(|s| % 0x1_0000_0000) + s
  }

  function WordBytes(w: u32): (b: seq<u8>)
    ensures |b| == 4
  {
    [w / 0x100_0000, w / 0x1_0000 % 0x100, w / 0x100 % 0x100, w % 0x100]
  }

  function Laid(fs: seq<Field>): seq<u8> {
    if fs == [] then [] else FieldBytes(fs[0]) + Laid(fs[1..])
  }

  lemma {:induction false} LaidAppend(a: seq<Field>, b: seq<Field>)
    ensures Laid(a + b) == Laid(a) + Laid(b)
  {
    hide FieldBytes;
    if a == [] {
      assert a + b == b;
    } else {
      LaidAppend(a[1..], b);
      assert (a + b)[1..] == a[1..] + b;
      AppendAssociates(FieldBytes(a[0]), Laid(a[1..]), Laid(b));
    }
  }

  lemma LaidCons(f: Field, rest: seq<Field>)
    ensures Laid([f] + rest) == FieldBytes(f) + Laid(rest)
  {
    hide FieldBytes;
    assert ([f] + rest)[1..] == rest;
  }

  lemma LaidOne(f: Field)
    ensures Laid([f]) == FieldBytes(f)
  {
    hide FieldBytes;
    assert [f][1..] == [] && FieldBytes(f) + [] == FieldBytes(f);
  }

  lemma LaidTwo(f: Field, g: Field)
    ensures Laid([f, g]) == FieldBytes(f) + FieldBytes(g)
  {
    hide FieldBytes, Laid;
    assert [f, g] == [f] + [g];
    LaidCons(f, [g]);
    LaidOne(g);
  }

  // Primitive fields -----------------------------------------------------------------------------------------

  lemma WordWritten(w: u32)
    ensures U32Bytes(w) == WordBytes(w)
  {
    assert w / 0x100 / 0x100 / 0x100 == w / 0x100_0000;
    assert w / 0x100 / 0x100 % 0x100 == w / 0x1_0000 % 0x100;
  }

  /** Words are read with the most significant byte first. */
  lemma WordRead(a: u8, b: u8, c: u8, d: u8)
    ensures U32Of([a, b, c, d]) == a * 0x100_0000 + b * 0x1_0000 + c * 0x100 + d
  {}

  lemma LongWritten(l: u64)
    ensures U64Bytes(l) == FieldBytes(Long(l))
  {
    hide WordBytes, U32Bytes;
    WordWritten(l / 0x1_0000_0000);
    WordWritten(l % 0x1_0000_0000);
  }

  lemma LongRead(high: seq<u8>, low: seq<u8>)
    requires |high| == 4 && |low| == 4
    ensures U64Of(high + low) == U32Of(high) * 0x1_0000_0000 + U32Of(low)
  {
    hide U32Of;
    assert (high + low)[..4] == high && (high + low)[4..] == low;
  }

  lemma StrWritten(s: seq<u8>)
    ensures PushBytes(s) == FieldBytes(Str(s))
  {
    hide U32Bytes, WordBytes;
    WordWritten(|s| % 0x1_0000_0000);
  }

  lemma FieldsWritten(w: u32, l: u64, s: seq<u8>)
    ensures U32Bytes(w) == FieldBytes(Word(w)) && U64Bytes(l) == FieldBytes(Long(l))
    ensures PushBytes(s) == FieldBytes(Str(s))
  {
    hide U32Bytes, U64Bytes, PushBytes, WordBytes;
    WordWritten(w);
    LongWritten(l);
    StrWritten(s);
  }

  /** What a reader takes: the string after its length, or nothing when the length is over 262144 or
      past the end. */
  lemma StrRead(a: u8, b: u8, c: u8, d: u8, rest: seq<u8>)
    ensures var n := a * 0x100_0000 + b * 0x1_0000 + c * 0x100 + d;
            PopBytes([a, b, c, d] + rest) == if n > 262144 || n > |rest| then Fail else Ok(rest[..n], rest[n..])
  {
    hide U32Of, U32Bytes, PushBytes;
    WordRead(a, b, c, d);
    var s := [a, b, c, d] + rest;
    assert s[..4] == [a, b, c, d] && s[4..] == rest;
  }

  // Attributes --------------------------------------------------------------------------------------------------

  function When(present: bool, fs: seq<Field>): seq<Field> {
    if present then fs else []
  }

  /** Flag bits 0x1, 0x2, 0x4 and 0x8 announce size, owner, permissions and times, in this order. */
  function AttrFields(a: FileAttrs): seq<Field> {
    [Word(a.flags)]
    + (When(a.flags % 2 == 1, [Long(a.size.GetOr(0))])
       + (When(a.flags / 2 % 2 == 1, [Word(a.uid.GetOr(0)), Word(a.gid.GetOr(0))])
          + (When(a.flags / 4 % 2 == 1, [Word(a.permissions.GetOr(0))])
             + When(a.flags / 8 % 2 == 1, [Word(a.atime.GetOr(0)), Word(a.mtime.GetOr(0))]))))
  }

  lemma PairLaid(present: bool, v: Option<u32>, w: Option<u32>)
    ensures PushPair(present, v, w) == Laid(When(present, [Word(v.GetOr(0)), Word(w.GetOr(0))]))
  {
    hide FieldBytes, U32Bytes;
    FieldsWritten(v.GetOr(0), 0, []);
    FieldsWritten(w.GetOr(0), 0, []);
    LaidTwo(Word(v.GetOr(0)), Word(w.GetOr(0)));
  }

  lemma OptLaid(present: bool, v: Option<u32>, l: Option<u64>)
    ensures PushOpt32(present, v) == Laid(When(present, [Word(v.GetOr(0))]))
    ensures PushOpt64(present, l) == Laid(When(present, [Long(l.GetOr(0))]))
  {
    hide FieldBytes, U32Bytes, U64Bytes;
    FieldsWritten(v.GetOr(0), l.GetOr(0), []);
    LaidOne(Word(v.GetOr(0)));
    LaidOne(Long(l.GetOr(0)));
  }

  lemma AttrsLayout(a: FileAttrs)
    ensures PushAttrs(a) == Laid(AttrFields(a))
    ensures HasExtended(a.flags) <==> a.flags / 0x8000_0000 % 2 == 1
  {
    hide Laid, When, PushOpt32, PushOpt64, PushPair, U32Bytes, FieldBytes;
    OptLaid(a.flags / 4 % 2 == 1, a.permissions, None);
    OptLaid(a.flags % 2 == 1, None, a.size);
    PairLaid(a.flags / 2 % 2 == 1, a.uid, a.gid);
    PairLaid(a.flags / 8 % 2 == 1, a.atime, a.mtime);
    var times := When(a.flags / 8 % 2 == 1, [Word(a.atime.GetOr(0)), Word(a.mtime.GetOr(0))]);
    var perms := When(a.flags / 4 % 2 == 1, [Word(a.permissions.GetOr(0))]);
    var ids := When(a.flags / 2 % 2 == 1, [Word(a.uid.GetOr(0)), Word(a.gid.GetOr(0))]);
    var size := When(a.flags % 2 == 1, [Long(a.size.GetOr(0))]);
    LaidAppend(perms, times);
    LaidAppend(ids, perms + times);
    LaidAppend(size, ids + (perms + times));
    LaidCons(Word(a.flags), size + (ids + (perms + times)));
    FieldsWritten(a.flags, 0, []);
  }

  // Requests ----------------------------------------------------------------------------------------------------

  /** Type, id and fields of every request. */
  function RequestFields(id: u32, r: WireRequest): seq<Field> {
    match r
    case Open(path, mode, attrs) => [Byte(3), Word(id), Str(path)] + ([Word(mode)] + AttrFields(attrs))
    case Close(handle) => [Byte(4), Word(id), Str(handle)]
    case Read(handle, offset, len) => [Byte(5), Word(id), Str(handle)] + [Long(offset), Word(len)]
    case Write(handle, offset, data) => [Byte(6), Word(id), Str(handle)] + [Long(offset), Str(data)]
    case Lstat(path) => [Byte(7), Word(id), Str(path)]
    case Fstat(handle) => [Byte(8), Word(id), Str(handle)]
    case Setstat(path, attrs) => [Byte(9), Word(id), Str(path)] + AttrFields(attrs)
    case Fsetstat(handle, attrs) => [Byte(10), Word(id), Str(handle)] + AttrFields(attrs)
    case Opendir(path) => [Byte(11), Word(id), Str(path)]
    case Readdir(handle) => [Byte(12), Word(id), Str(handle)]
    case Remove(path) => [Byte(13), Word(id), Str(path)]
    case Mkdir(path, attrs) => [Byte(14), Word(id), Str(path)] + AttrFields(attrs)
    case Rmdir(path) => [Byte(15), Word(id), Str(path)]
    case Realpath(path) => [Byte(16), Word(id), Str(path)]
    case Stat(path) => [Byte(17), Word(id), Str(path)]
    case Rename(from, to) => [Byte(18), Word(id), Str(from)] + [Str(to)]
    case Readlink(path) => [Byte(19), Word(id), Str(path)]
    case Symlink(link, target) => [Byte(20), Word(id), Str(link)] + [Str(target)]
  }

  /** A packet: the length of what follows, then the fields. */
  function Packed(fs: seq<Field>): seq<u8> {
    WordBytes(|Laid(fs)| % 0x1_0000_0000) + Laid(fs)
  }

  lemma FrameLaid(t: u8, payload: seq<u8>, fs: seq<Field>)
    requires Laid(fs) == [t] + payload
    ensures Frame(t, payload) == Packed(fs)
  {
    hide U32Bytes, WordBytes, Laid;
    WordWritten((1 + |payload|) % 0x1_0000_0000);
  }

  lemma HeadLaid(t: u8, id: u32, subject: seq<u8>, tail: seq<Field>)
    ensures Laid([Byte(t), Word(id), Str(subject)] + tail)
            == [t] + (U32Bytes(id) + (PushBytes(subject) + Laid(tail)))
  {
    hide U32Bytes, PushBytes, Laid, WordBytes;
    FieldsWritten(id, 0, subject);
    assert [Byte(t), Word(id), Str(subject)] + tail == [Byte(t)] + ([Word(id)] + ([Str(subject)] + tail));
    LaidCons(Byte(t), [Word(id)] + ([Str(subject)] + tail));
    LaidCons(Word(id), [Str(subject)] + tail);
    LaidCons(Str(subject), tail);
  }

  /** The fields after the leading string. */
  function TailFields(r: WireRequest): seq<Field> {
    match r
    case Open(_, mode, attrs) => [Word(mode)] + AttrFields(attrs)
    case Read(_, offset, len) => [Long(offset), Word(len)]
    case Write(_, offset, data) => [Long(offset), Str(data)]
    case Setstat(_, attrs) => AttrFields(attrs)
    case Fsetstat(_, attrs) => AttrFields(attrs)
    case Mkdir(_, attrs) => AttrFields(attrs)
    case Rename(_, target) => [Str(target)]
    case Symlink(_, target) => [Str(target)]
    case _ => []
  }

  lemma TailLaid(r: WireRequest)
    ensures RequestTail(r) == Laid(TailFields(r))
  {
    hide U32Bytes, U64Bytes, PushBytes, PushAttrs, AttrFields, FieldBytes, Laid;
    match r
    case Open(_, mode, attrs) =>
      FieldsWritten(mode, 0, []);
      AttrsLayout(attrs);
      LaidCons(Word(mode), AttrFields(attrs));
    case Read(_, offset, len) => FieldsWritten(len, offset, []); LaidTwo(Long(offset), Word(len));
    case Write(_, offset, data) => FieldsWritten(0, offset, data); LaidTwo(Long(offset), Str(data));
    case Setstat(_, attrs) => AttrsLayout(attrs);
    case Fsetstat(_, attrs) => AttrsLayout(attrs);
    case Mkdir(_, attrs) => AttrsLayout(attrs);
    case Rename(_, target) => FieldsWritten(0, 0, target); LaidOne(Str(target));
    case Symlink(_, target) => FieldsWritten(0, 0, target); LaidOne(Str(target));
    case _ => LaidNothing();
  }

  lemma LaidNothing()
    ensures Laid([]) == []
  {}

  lemma RequestTable(id: u32, r: WireRequest)
    ensures RequestFields(id, r) == [Byte(RequestType(r)), Word(id), Str(r.subject)] + TailFields(r)
  {
    hide AttrFields;
  }

  /** Every request goes out as its row of the table, whatever its id and fields. */
  lemma RequestLayout(id: u32, r: WireRequest)
    ensures EncodeRequest(id, r) == Packed(RequestFields(id, r))
  {
    hide U32Bytes, PushBytes, RequestTail, RequestFields, TailFields, Laid, Packed, Frame;
    RequestTable(id, r);
    TailLaid(r);
    HeadLaid(RequestType(r), id, r.subject, TailFields(r));
    FrameLaid(RequestType(r), RequestPayload(id, r), RequestFields(id, r));
  }

  /** Every type byte is read as its own request. */
  lemma RequestKinds(t: u8, s: seq<u8>)
    requires 3 <= t <= 20 && DecodeRequest(t, s).Ok?
    ensures var r := DecodeRequest(t, s).value.1;
            && (t == 3 ==> r.Open?) && (t == 4 ==> r.Close?) && (t == 5 ==> r.Read?) && (t == 6 ==> r.Write?)
            && (t == 7 ==> r.Lstat?) && (t == 8 ==> r.Fstat?) && (t == 9 ==> r.Setstat?) && (t == 10 ==> r.Fsetstat?)
            && (t == 11 ==> r.Opendir?) && (t == 12 ==> r.Readdir?) && (t == 13 ==> r.Remove?) && (t == 14 ==> r.Mkdir?)
            && (t == 15 ==> r.Rmdir?) && (t == 16 ==> r.Realpath?) && (t == 17 ==> r.Stat?) && (t == 18 ==> r.Rename?)
            && (t == 19 ==> r.Readlink?) && (t == 20 ==> r.Symlink?)
  {
    hide PopU32, PopString, PopWithU32AndAttrs, PopRange, PopBlock, PopAttrs;
  }

  // Responses ---------------------------------------------------------------------------------------------------

  function EntryFields(e: NameEntry): seq<Field> {
    [Str(e.filename)] + ([Str(e.longname)] + AttrFields(e.attrs))
  }

  function EntriesFields(es: seq<NameEntry>): seq<Field> {
    if es == [] then [] else EntryFields(es[0]) + EntriesFields(es[1..])
  }

  /** Type, id and fields of every response; a status ends with the language tag. */
  function ResponseFields(id: u32, r: Response): (fs: seq<Field>)
    ensures |fs| >= 2
  {
    match r
    case Status(code, message) => [Byte(101), Word(id)] + [Word(code), Str(message), Str([0x65, 0x6E])]
    case Handle(handle) => [Byte(102), Word(id)] + [Str(handle)]
    case Data(data) => [Byte(103), Word(id)] + [Str(data)]
    case Name(entries) => [Byte(104), Word(id)] + ([Word(|entries| % 0x1_0000_0000)] + EntriesFields(entries))
    case Attrs(attrs) => [Byte(105), Word(id)] + AttrFields(attrs)
  }

  lemma {:induction false} EntriesLaid(es: seq<NameEntry>)
    ensures PushEntries(es) == Laid(EntriesFields(es))
  {
    hide PushAttrs, PushBytes, AttrFields, FieldBytes;
    if es == [] {
    } else {
      var e := es[0];
      EntriesLaid(es[1..]);
      hide Laid, PushEntries;
      EntryLaid(e);
      LaidAppend(EntryFields(e), EntriesFields(es[1..]));
      assert PushEntries(es) == PushEntry(e) + PushEntries(es[1..]) by { EntriesUncons(es); }
    }
  }

  lemma EntriesUncons(es: seq<NameEntry>)
    requires es != []
    ensures PushEntries(es) == PushEntry(es[0]) + PushEntries(es[1..])
  {}

  lemma EntryLaid(e: NameEntry)
    ensures PushEntry(e) == Laid(EntryFields(e))
  {
    hide PushAttrs, PushBytes, AttrFields, FieldBytes, Laid;
    FieldsWritten(0, 0, e.filename);
    FieldsWritten(0, 0, e.longname);
    AttrsLayout(e.attrs);
    LaidCons(Str(e.longname), AttrFields(e.attrs));
    LaidCons(Str(e.filename), [Str(e.longname)] + AttrFields(e.attrs));
  }

  lemma BodyLaid(r: Response)
    ensures Laid(ResponseFields(0, r)[2..]) == ResponseBody(r)
  {
    hide U32Bytes, PushBytes, PushAttrs, PushEntries, AttrFields, EntriesFields, FieldBytes, Laid;
    match r
    case Status(code, message) =>
      FieldsWritten(code, 0, message);
      FieldsWritten(0, 0, Ascii("en"));
      assert Ascii("en") == [0x65, 0x6E];
      var en := Str([0x65, 0x6E]);
      assert ResponseFields(0, r)[2..] == [Word(code)] + [Str(message), en];
      LaidTwo(Str(message), en);
      LaidCons(Word(code), [Str(message), en]);
    case Handle(handle) =>
      FieldsWritten(0, 0, handle);
      assert ResponseFields(0, r)[2..] == [Str(handle)];
      LaidOne(Str(handle));
    case Data(data) =>
      FieldsWritten(0, 0, data);
      assert ResponseFields(0, r)[2..] == [Str(data)];
      LaidOne(Str(data));
    case Name(entries) =>
      var n: u32 := |entries| % 0x1_0000_0000;
      FieldsWritten(n, 0, []);
      EntriesLaid(entries);
      assert ResponseFields(0, r)[2..] == [Word(n)] + EntriesFields(entries);
      LaidCons(Word(n), EntriesFields(entries));
    case Attrs(attrs) =>
      AttrsLayout(attrs);
      assert ResponseFields(0, r)[2..] == AttrFields(attrs);
  }

  lemma ResponseTable(id: u32, r: Response)
    ensures ResponseFields(id, r) == [Byte(ResponseType(r))] + ([Word(id)] + ResponseFields(0, r)[2..])
  {
    hide AttrFields, EntriesFields;
  }

  /** Every response goes out as its row of the table, whatever its id and contents. */
  lemma ResponseLayout(id: u32, r: Response)
    ensures EncodeResponse(id, r) == Packed(ResponseFields(id, r))
  {
    hide U32Bytes, ResponseBody, ResponseFields, Laid, Packed, Frame, WordBytes, ResponseType;
    ResponseTable(id, r);
    var rest := ResponseFields(0, r)[2..];
    BodyLaid(r);
    LaidCons(Byte(ResponseType(r)), [Word(id)] + rest);
    LaidCons(Word(id), rest);
    FieldsWritten(id, 0, []);
    FrameLaid(ResponseType(r), ResponsePayload(id, r), ResponseFields(id, r));
  }

  /** Every type byte is read as its own response, and no other type as any. */
  lemma ResponseKinds(packet: seq<u8>)
    requires packet != []
    ensures !(101 <= packet[0] <= 105) ==> DecodePacket(packet) == Garbled(0)
    ensures DecodePacket(packet).Reply? ==>
              var r := DecodePacket(packet).response;
              && (packet[0] == 101 ==> r.Status?) && (packet[0] == 102 ==> r.Handle?) && (packet[0] == 103 ==> r.Data?)
              && (packet[0] == 104 ==> r.Name?) && (packet[0] == 105 ==> r.Attrs?)
  {
    hide PopU32, PopString, PopBytes, PopEntries, PopAttrs;
  }

  /** So the bytes of a row are read as that response. */
  lemma ResponseRead(id: u32, r: Response)
    requires ResponseFits(r)
    ensures Laid(ResponseFields(id, r)) != [] && DecodePacket(Laid(ResponseFields(id, r))) == Reply(id, r)
  {
    hide ResponseFields, Laid, DecodePacket, ResponseFits, EncodeResponse, WordBytes;
    ResponseLayout(id, r);
    DecodeEncoded(id, r);
    assert Packed(ResponseFields(id, r))[4..] == Laid(ResponseFields(id, r));
  }

  /** And the bytes of a request's row as that request. */
  lemma RequestRead(id: u32, r: WireRequest)
    requires RequestFits(r)
    ensures var packet := Laid(RequestFields(id, r));
            |packet| > 0 && packet[0] == RequestType(r)
            && DecodeRequest(packet[0], packet[1..]) == Ok((id, r.Map(NormalForm)), [])
  {
    hide RequestFields, Laid, DecodeRequest, RequestFits, RequestPayload, NormalForm, WordBytes, U32Bytes;
    RequestLayout(id, r);
    RequestTrip(id, r, []);
    var payload := RequestPayload(id, r);
    assert payload + [] == payload;
    assert EncodeRequest(id, r)[4..] == [RequestType(r)] + payload;
    assert Packed(RequestFields(id, r))[4..] == Laid(RequestFields(id, r));
    assert ([RequestType(r)] + payload)[1..] == payload;
  }

  // Handshake -----------------------------------------------------------------------------------------------------

  /** The INIT packet of the client and the VERSION packet of the server, for version 3. */
  lemma HandshakeBytes()
    ensures Frame(FXP_INIT, VersionPayload(3, [])) == [0, 0, 0, 9, 1, 0, 0, 0, 3, 0, 0, 0, 0]
    ensures EncodeVersion(3) == [0, 0, 0, 9, 2, 0, 0, 0, 3, 0, 0, 0, 0]
  {
    hide U32Bytes;
    WordWritten(9);
    WordWritten(3);
    WordWritten(0);
  }

  /** Extension pairs follow their count, each name before its value. */
  function PairFields(pairs: seq<(Text, Text)>): seq<Field> {
    if pairs == [] then [] else [Str(pairs[0].0), Str(pairs[0].1)] + PairFields(pairs[1..])
  }

  lemma {:induction false} PairsLaid(pairs: seq<(Text, Text)>)
    ensures PushPairs(pairs) == Laid(PairFields(pairs))
  {
    if pairs == [] {
    } else {
      var pair := [Str(pairs[0].0), Str(pairs[0].1)];
      PairsLaid(pairs[1..]);
      hide PushBytes, FieldBytes, Laid;
      FieldsWritten(0, 0, pairs[0].0);
      FieldsWritten(0, 0, pairs[0].1);
      LaidTwo(Str(pairs[0].0), Str(pairs[0].1));
      LaidAppend(pair, PairFields(pairs[1..]));
    }
  }

  lemma VersionLayout(version: u32, pairs: seq<(Text, Text)>)
    ensures VersionPayload(version, pairs)
            == Laid([Word(version)] + ([Word(|pairs| % 0x1_0000_0000)] + PairFields(pairs)))
  {
    hide U32Bytes, PushPairs, PairFields, Laid, FieldBytes;
    var n: u32 := |pairs| % 0x1_0000_0000;
    FieldsWritten(version, 0, []);
    FieldsWritten(n, 0, []);
    PairsLaid(pairs);
    LaidCons(Word(n), PairFields(pairs));
    LaidCons(Word(version), [Word(n)] + PairFields(pairs));
  }

  // Status codes ----------------------------------------------------------------------------------------------------

  /** The code and the text of a refusal: a handler's own message is kept, an empty one replaced. */
  lemma ErrorStatuses(kind: ErrorKind, message: Text)
    ensures var Status(code, text) := ErrorStatus(Sftp(kind, message));
            && code == (match kind
                        case NoSuchFile => 2
                        case PermissionDenied => 3
                        case Unsupported => 8
                        case Protocol => 5
                        case RemoteStatus => 4
                        case ChannelIo => 4
                        case UnexpectedResponse => 4
                        case UnsupportedVersion => 4)
            && (message != [] ==> text == message)
    ensures ErrorStatus(Foreign(message)) == Status(4, message)
  {
    hide DefaultMessage;
  }

  /** The text is that ASCII string. */
  predicate Reads(text: Text, s: string) {
    |text| == |s| && forall i :: 0 <= i < |s| ==> text[i] == s[i] as int
  }

  lemma DefaultMessages(kind: ErrorKind)
    ensures Reads(ErrorStatus(Sftp(kind, [])).message,
                  match kind
                  case NoSuchFile => "no such file"
                  case PermissionDenied => "permission denied"
                  case Unsupported => "unsupported operation"
                  case Protocol => "protocol error"
                  case UnsupportedVersion => "unsupported version"
                  case ChannelIo => "channel I/O error"
                  case RemoteStatus => "internal error"
                  case UnexpectedResponse => "internal error")
  {
    match kind
    case NoSuchFile =>
    case PermissionDenied =>
    case Unsupported =>
    case Protocol =>
    case UnsupportedVersion =>
    case ChannelIo =>
    case RemoteStatus =>
    case UnexpectedResponse =>
  }

  /** The statuses of the other answers ... */
  lemma OtherStatuses()
    ensures RespondUnit(Done(())).Status? && RespondData(Done([])).Status? && RespondBatch(Done([])).Status?
    ensures RespondUnit(Done(())).code == 0 && Reads(RespondUnit(Done(())).message, "OK")
    ensures RespondData(Done([])).code == 1 && Reads(RespondData(Done([])).message, "End of file")
    ensures RespondBatch(Done([])).code == 1 && Reads(RespondBatch(Done([])).message, "End of directory")
  {}

  lemma UnsupportedIs()
    ensures UnsupportedStatus().Status? && UnsupportedStatus().code == 8
    ensures Reads(UnsupportedStatus().message, "unsupported SFTP operation")
  {}

  /** ... and how the client reads every code. */
  lemma StatusCodes(code: u32, text: Text)
    ensures ExpectStatus(Status(code, text))
            == if code == 0 then Nothing
               else Error(if code == 2 then NoSuchFile else if code == 3 then PermissionDenied
                          else if code == 5 then Protocol else if code == 8 then Unsupported else RemoteStatus)
    ensures ExpectHandle(Status(code, text)).Error? && ExpectAttrs(Status(code, text)).Error?
            && ExpectName(Status(code, text)).Error?
    ensures code <= 1 ==>
              ExpectData(Status(code, text)) == BytesOf([]) && ExpectBatch(Status(code, text)) == EntriesOf([])
    ensures code > 1 ==>
              ExpectData(Status(code, text)) == ExpectBatch(Status(code, text)) == ExpectStatus(Status(code, text))
  {}

  /** What each method makes of each kind of response; the wrong kind is a protocol error. */
  lemma Readings(r: Response)
    ensures !r.Status? ==>
              && ExpectStatus(r) == Error(Protocol)
              && ExpectHandle(r) == (if r.Handle? then HandleOf(r.handle) else Error(Protocol))
              && ExpectData(r) == (if r.Data? then BytesOf(r.data) else Error(Protocol))
              && ExpectName(r)
                 == (if r.Name? && r.entries != [] then PathOf(r.entries[0].filename) else Error(Protocol))
              && (if r.Attrs? then ExpectAttrs(r) == MetadataOf(FromPacket(r.attrs))
                  else ExpectAttrs(r) == Error(Protocol))
              && (if r.Name? then ExpectBatch(r) == EntriesOf(FromNameEntries(r.entries))
                  else ExpectBatch(r) == Error(Protocol))
  {
    hide FromPacket, FromNameEntries;
  }

  /** Which field of an entry and of the metadata goes where, and comes from where. */
  lemma EntryFieldsKept(e: DirEntry, n: NameEntry)
    ensures ToNameEntry(e).filename == e.filename && ToNameEntry(e).longname == e.longname
    ensures ToNameEntry(e).attrs == ToPacket(e.metadata)
    ensures FromNameEntry(n).filename == n.filename && FromNameEntry(n).longname == n.longname
    ensures FromNameEntry(n).metadata == FromPacket(n.attrs)
  {
    hide ToPacket, FromPacket;
  }

  lemma MetadataFieldsKept(m: Metadata, a: FileAttrs)
    ensures var p := ToPacket(m);
            && p.size == m.size && p.permissions == m.permissions
            && (m.uid.Some? ==> p.uid == m.uid) && (m.gid.Some? ==> p.gid == m.gid)
            && (m.accessed.Some? ==> p.atime == Some(m.accessed.value % 0x1_0000_0000))
            && (m.modified.Some? ==> p.mtime == Some(m.modified.value % 0x1_0000_0000))
            && (p.flags % 2 == 1 <==> m.size.Some?)
            && (p.flags / 2 % 2 == 1 <==> m.uid.Some? || m.gid.Some?)
            && (p.flags / 4 % 2 == 1 <==> m.permissions.Some?)
            && (p.flags / 8 % 2 == 1 <==> m.accessed.Some? || m.modified.Some?)
            && p.flags < 16
    ensures FromPacket(a) == Metadata(a.size, a.uid, a.gid, a.permissions, a.atime, a.mtime)
  {}

  // Open modes --------------------------------------------------------------------------------------------------------

  /** The OPEN packets of a download and of an upload. */
  lemma TransferOpens(id: u32, path: Text)
    ensures EncodeRequest(id, Open(path, READ, ToPacket(NoAttrs())))
            == Packed([Byte(3), Word(id), Str(path), Word(0x1), Word(0)])
    ensures EncodeRequest(id, Open(path, REPLACE, ToPacket(NoAttrs())))
            == Packed([Byte(3), Word(id), Str(path), Word(0x1A), Word(0)])
  {
    hide Packed, EncodeRequest;
    var none := ToPacket(NoAttrs());
    assert AttrFields(none) == [Word(0)];
    RequestLayout(id, Open(path, READ, none));
    RequestLayout(id, Open(path, REPLACE, none));
    assert RequestFields(id, Open(path, READ, none)) == [Byte(3), Word(id), Str(path), Word(0x1), Word(0)];
    assert RequestFields(id, Open(path, REPLACE, none)) == [Byte(3), Word(id), Str(path), Word(0x1A), Word(0)];
  }
}
