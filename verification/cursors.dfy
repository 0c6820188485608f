/**
 The decoders in the form they have in the program: a cursor that `pop_*` advances through one
 payload, and loops over counted lists. Every method is proved against the functions of modules
 `Codec`, `Attributes`, `Packets` and `Responses`; on every byte string each of them fails or
 stops with its cursor inside the payload.
 */
module Cursors {
  import opened Bytes
  import opened Codec
  import opened Attributes
  import opened Packets
  import opened Responses

  /** A pop from `before` behaved like `p`: same value and the cursor at the bytes `p` left. */
  ghost predicate Took<T>(data: seq<u8>, before: nat, after: nat, r: Option<T>, p: Parse<T>) {
    before <= after <= |data|
    && match p
       case Ok(v, rest) => r == Some(v) && data[after..] == rest
       case Fail => r == None
  }

  class Cursor {
    const data: seq<u8>
    var pos: nat

    ghost predicate Valid()
      reads this
    {
      pos <= |data|
    }

    ghost function Ahead(): seq<u8>
      requires Valid()
      reads this
    {
      data[pos..]
    }

    constructor (data: seq<u8>)
      ensures Valid() && this.data == data && pos == 0
    {
      this.data := data;
      pos := 0;
    }

    method U32() returns (r: Option<u32>)
      requires Valid()
      modifies this
      ensures Took(data, old(pos), pos, r, PopU32(old(Ahead())))
    {
      if pos + 4 > |data| {
        return None;
      }
      var word := data[pos..pos + 4];
      assert word == data[pos..][..4];
      pos := pos + 4;
      return Some(U32Of(word));
    }

    method U64() returns (r: Option<u64>)
      requires Valid()
      modifies this
      ensures Took(data, old(pos), pos, r, PopU64(old(Ahead())))
    {
      if pos + 8 > |data| {
        return None;
      }
      var words := data[pos..pos + 8];
      assert words == data[pos..][..8];
      pos := pos + 8;
      return Some(U64Of(words));
    }

    method Bytes() returns (r: Option<seq<u8>>)
      requires Valid()
      modifies this
      ensures Took(data, old(pos), pos, r, PopBytes(old(Ahead())))
    {
      hide U32Bytes, U32Of;
      var len := U32();
      if len.None? || len.value > MAX_SFTP_PACKET_SIZE || pos + len.value > |data| {
        return None;
      }
      var bytes := data[pos..pos + len.value];
      assert bytes == data[pos..][..len.value];
      pos := pos + len.value;
      return Some(bytes);
    }

    method String() returns (r: Option<Text>)
      requires Valid()
      modifies this
      ensures Took(data, old(pos), pos, r, PopString(old(Ahead())))
    {
      hide PopBytes;
      var bytes := Bytes();
      if bytes.None? || !ValidUtf8(bytes.value) {
        return None;
      }
      return Some(bytes.value);
    }

    /** The fields that the flag word announces, filled into a default record. */
    method Fields(flags: u32) returns (r: Option<FileAttrs>)
      requires Valid()
      modifies this
      ensures Took(data, old(pos), pos, r, PopFields(flags, old(Ahead())))
    {
      hide PopU32, PopU64, U32Bytes, U64Bytes, HasSize, HasUidGid, HasPermissions, HasTimes;
      var attrs := FileAttrs(flags, None, None, None, None, None, None);
      if HasSize(flags) {
        var size := U64();
        if size.None? { return None; }
        attrs := attrs.(size := size);
      }
      if HasUidGid(flags) {
        var uid := U32();
        if uid.None? { return None; }
        var gid := U32();
        if gid.None? { return None; }
        attrs := attrs.(uid := uid, gid := gid);
      }
      if HasPermissions(flags) {
        var permissions := U32();
        if permissions.None? { return None; }
        attrs := attrs.(permissions := permissions);
      }
      if HasTimes(flags) {
        var atime := U32();
        if atime.None? { return None; }
        var mtime := U32();
        if mtime.None? { return None; }
        attrs := attrs.(atime := atime, mtime := mtime);
      }
      return Some(attrs);
    }

    method Attrs() returns (r: Option<FileAttrs>)
      requires Valid()
      modifies this
      ensures Took(data, old(pos), pos, r, PopAttrs(old(Ahead())))
    {
      hide PopU32, PopFields, U32Bytes, InNormalForm;
      var flags := U32();
      if flags.None? {
        return None;
      }
      var attrs := Fields(flags.value);
      if attrs.None? {
        return None;
      }
      if HasExtended(flags.value) {
        var count := U32();
        if count.None? || count.value > 0 {
          return None;
        }
      }
      return attrs;
    }

    /** What follows the leading string in a request of type `t`. */
    method Tail(t: u8, subject: Text) returns (r: Option<WireRequest>)
      requires Valid() && 3 <= t <= 20
      modifies this
      ensures Took(data, old(pos), pos, r, DecodeTail(t, subject, old(Ahead())))
    {
      hide PopU32, PopU64, PopBytes, PopString, PopAttrs;
      match t {
        case 3 =>
          var pflags := U32();
          if pflags.None? { return None; }
          var attrs := Attrs();
          if attrs.None? { return None; }
          return Some(Open(subject, pflags.value, attrs.value));
        case 5 =>
          var offset := U64();
          if offset.None? { return None; }
          var len := U32();
          if len.None? { return None; }
          return Some(Read(subject, offset.value, len.value));
        case 6 =>
          var offset := U64();
          if offset.None? { return None; }
          var block := Bytes();
          if block.None? { return None; }
          return Some(Write(subject, offset.value, block.value));
        case 18 =>
          var target := String();
          if target.None? { return None; }
          return Some(Rename(subject, target.value));
        case 20 =>
          var target := String();
          if target.None? { return None; }
          return Some(Symlink(subject, target.value));
        case 4 => return Some(Close(subject));
        case 7 => return Some(Lstat(subject));
        case 8 => return Some(Fstat(subject));
        case 11 => return Some(Opendir(subject));
        case 12 => return Some(Readdir(subject));
        case 13 => return Some(Remove(subject));
        case 15 => return Some(Rmdir(subject));
        case 16 => return Some(Realpath(subject));
        case 17 => return Some(Stat(subject));
        case 19 => return Some(Readlink(subject));
        case _ =>
          var attrs := Attrs();
          if attrs.None? { return None; }
          return Some(if t == 9 then Setstat(subject, attrs.value)
                      else if t == 10 then Fsetstat(subject, attrs.value) else Mkdir(subject, attrs.value));
      }
    }

    method Entry() returns (r: Option<NameEntry>)
      requires Valid()
      modifies this
      ensures Took(data, old(pos), pos, r, PopEntry(old(Ahead())))
    {
      hide PopString, PopAttrs;
      var filename := String();
      if filename.None? { return None; }
      var longname := String();
      if longname.None? { return None; }
      var attrs := Attrs();
      if attrs.None? { return None; }
      return Some(NameEntry(filename.value, longname.value, attrs.value));
    }
  }

  /** The `decode_*_request` functions. */
  method ReadRequest(t: u8, payload: seq<u8>) returns (r: Option<(u32, WireRequest)>)
    requires 3 <= t <= 20
    ensures r == match DecodeRequest(t, payload)
                 case Ok(v, _) => Some(v)
                 case Fail => None
  {
    hide PopU32, PopString, DecodeTail, U32Bytes;
    var cursor := new Cursor(payload);
    assert payload[0..] == payload;
    var id := cursor.U32();
    if id.None? { return None; }
    var subject := cursor.String();
    if subject.None? { return None; }
    var request := cursor.Tail(t, subject.value);
    if request.None? { return None; }
    return Some((id.value, request.value));
  }

  lemma {:induction false} PopEntriesSnoc(n: nat, s: seq<u8>)
    ensures PopEntries(n + 1, s)
            == match PopEntries(n, s)
               case Fail => Fail
               case Ok(es, rest) =>
                 match PopEntry(rest)
                 case Fail => Fail
                 case Ok(e, rest') => Ok(es + [e], rest')
  {
    hide PopEntry;
    match PopEntry(s) {
      case Fail =>
      case Ok(e, s1) =>
        if n == 0 {
          assert [e] + [] == [] + [e];
        } else {
          PopEntriesSnoc(n - 1, s1);
          if PopEntries(n - 1, s1).Ok? && PopEntry(PopEntries(n - 1, s1).rest).Ok? {
            AppendAssociates([e], PopEntries(n - 1, s1).value, [PopEntry(PopEntries(n - 1, s1).rest).value]);
          }
        }
    }
  }

  lemma {:induction false} PopEntriesFails(n: nat, m: nat, s: seq<u8>)
    requires n <= m && PopEntries(n, s).Fail?
    ensures PopEntries(m, s).Fail?
  {
    hide PopEntry;
    if n > 0 && PopEntry(s).Ok? {
      PopEntriesFails(n - 1, m - 1, PopEntry(s).rest);
    }
  }

  /** `decode_name`, with its capped loop. */
  method ReadName(payload: seq<u8>) returns (r: Option<(u32, seq<NameEntry>)>)
    ensures r == match DecodeResponse(FXP_NAME, payload)
                 case Ok((id, response), _) => if response.Name? then Some((id, response.entries)) else None
                 case Fail => None
  {
    hide PopEntry, PopU32, U32Bytes;
    var cursor := new Cursor(payload);
    assert payload[0..] == payload;
    var id := cursor.U32();
    if id.None? { return None; }
    ghost var body := cursor.Ahead();
    var declared := cursor.U32();
    if declared.None? { return None; }
    ghost var s := cursor.Ahead();
    var count := NameCount(declared.value, |payload| - cursor.pos);
    var entries := [];
    for i := 0 to count
      invariant cursor.Valid() && cursor.data == payload
      invariant PopEntries(i, s) == Ok(entries, cursor.Ahead())
    {
      PopEntriesSnoc(i, s);
      var entry := cursor.Entry();
      if entry.None? {
        PopEntriesFails(i + 1, count, s);
        return None;
      }
      entries := entries + [entry.value];
    }
    return Some((id.value, entries));
  }

  /** `decode_status`. */
  method ReadStatus(payload: seq<u8>) returns (r: Option<(u32, Response)>)
    ensures r == match DecodeResponse(FXP_STATUS, payload) case Ok(v, _) => Some(v) case Fail => None
  {
    hide PopString, PopU32, U32Bytes;
    var cursor := new Cursor(payload);
    assert payload[0..] == payload;
    var id := cursor.U32();
    if id.None? { return None; }
    var code := cursor.U32();
    if code.None? { return None; }
    var message := cursor.String();
    if message.None? { return None; }
    var language := cursor.String();
    if language.None? { return None; }
    return Some((id.value, Status(code.value, message.value)));
  }

  /** `decode_handle`. */
  method ReadHandle(payload: seq<u8>) returns (r: Option<(u32, Response)>)
    ensures r == match DecodeResponse(FXP_HANDLE, payload) case Ok(v, _) => Some(v) case Fail => None
  {
    hide PopString, PopU32, U32Bytes;
    var cursor := new Cursor(payload);
    assert payload[0..] == payload;
    var id := cursor.U32();
    if id.None? { return None; }
    var handle := cursor.String();
    if handle.None? { return None; }
    return Some((id.value, Handle(handle.value)));
  }

  /** `decode_data`. */
  method ReadBytes(payload: seq<u8>) returns (r: Option<(u32, Response)>)
    ensures r == match DecodeResponse(FXP_DATA, payload) case Ok(v, _) => Some(v) case Fail => None
  {
    hide PopBytes, PopU32, U32Bytes;
    var cursor := new Cursor(payload);
    assert payload[0..] == payload;
    var id := cursor.U32();
    if id.None? { return None; }
    var data := cursor.Bytes();
    if data.None? { return None; }
    return Some((id.value, Data(data.value)));
  }

  /** `decode_attrs`. */
  method ReadAttrs(payload: seq<u8>) returns (r: Option<(u32, Response)>)
    ensures r == match DecodeResponse(FXP_ATTRS, payload) case Ok(v, _) => Some(v) case Fail => None
  {
    hide PopAttrs, PopU32, U32Bytes;
    var cursor := new Cursor(payload);
    assert payload[0..] == payload;
    var id := cursor.U32();
    if id.None? { return None; }
    var attrs := cursor.Attrs();
    if attrs.None? { return None; }
    return Some((id.value, Attrs(attrs.value)));
  }

  /** The decoding part of `dispatch_response`: a packet that cannot be decoded still concerns the id
      in its first word. */
  method ReadPacket(packet: seq<u8>) returns (reply: Reply)
    requires packet != []
    ensures reply == DecodePacket(packet)
  {
    hide DecodeResponse, U32Of;
    var payload := packet[1..];
    var decoded: Option<(u32, Response)> := None;
    if packet[0] == FXP_STATUS {
      decoded := ReadStatus(payload);
    } else if packet[0] == FXP_HANDLE {
      decoded := ReadHandle(payload);
    } else if packet[0] == FXP_DATA {
      decoded := ReadBytes(payload);
    } else if packet[0] == FXP_NAME {
      var named := ReadName(payload);
      NameIsName(payload);
      decoded := if named.Some? then Some((named.value.0, Name(named.value.1))) else None;
    } else if packet[0] == FXP_ATTRS {
      decoded := ReadAttrs(payload);
    } else {
      return Garbled(0);
    }
    return if decoded.Some? then Reply(decoded.value.0, decoded.value.1) else Garbled(FallbackId(payload));
  }

  lemma NameIsName(payload: seq<u8>)
    ensures DecodeResponse(FXP_NAME, payload).Ok? ==> DecodeResponse(FXP_NAME, payload).value.1.Name?
  {
    hide PopU32, PopEntries;
  }

  /** `encode_name_response`, growing its buffer entry by entry. */
  method WriteName(id: u32, entries: seq<NameEntry>) returns (frame: seq<u8>)
    ensures frame == EncodeResponse(id, Name(entries))
  {
    hide U32Bytes, PushBytes, PushAttrs;
    var buf := U32Bytes(id);
    buf := buf + U32Bytes(|entries| % TWO_32);
    ghost var head := buf;
    for i := 0 to |entries|
      invariant buf == head + PushEntries(entries[..i])
    {
      var e := entries[i];
      ghost var before := buf;
      buf := buf + PushBytes(e.filename);
      buf := buf + PushBytes(e.longname);
      buf := buf + PushAttrs(e.attrs);
      ThreePushes(before, e);
      assert entries[..i + 1] == entries[..i] + [e];
      PushEntriesSnoc(entries[..i], e);
      AppendAssociates(head, PushEntries(entries[..i]), PushEntry(e));
    }
    assert entries[..|entries|] == entries;
    AppendAssociates(U32Bytes(id), U32Bytes(|entries| % TWO_32), PushEntries(entries));
    frame := Frame(FXP_NAME, buf);
  }

  lemma ThreePushes(buf: seq<u8>, e: NameEntry)
    ensures ((buf + PushBytes(e.filename)) + PushBytes(e.longname)) + PushAttrs(e.attrs) == buf + PushEntry(e)
  {
    hide PushBytes, PushAttrs;
  }

  lemma {:induction false} PopExtensionsSnoc(n: nat, s: seq<u8>, known: map<Text, Text>)
    ensures PopExtensions(n + 1, s, known)
            == match PopExtensions(n, s, known)
               case Fail => Fail
               case Ok(m, rest) => PopExtensions(1, rest, m)
    decreases n
  {
    hide PopString;
    if n > 0 && PopString(s).Ok? && PopString(PopString(s).rest).Ok? {
      var Ok(key, s1) := PopString(s);
      var Ok(value, s2) := PopString(s1);
      PopExtensionsSnoc(n - 1, s2, known[key := value]);
    }
  }

  lemma {:induction false} PopExtensionsFails(n: nat, m: nat, s: seq<u8>, known: map<Text, Text>)
    requires n <= m && PopExtensions(n, s, known).Fail?
    ensures PopExtensions(m, s, known).Fail?
    decreases n
  {
    hide PopString;
    if n > 0 && PopString(s).Ok? && PopString(PopString(s).rest).Ok? {
      var Ok(key, s1) := PopString(s);
      var Ok(value, s2) := PopString(s1);
      PopExtensionsFails(n - 1, m - 1, s2, known[key := value]);
    }
  }

  /** `decode_version`, shared by INIT and VERSION packets. */
  method ReadVersion(payload: seq<u8>) returns (r: Option<(u32, map<Text, Text>)>)
    ensures r == match DecodeVersion(payload)
                 case Ok(v, _) => Some(v)
                 case Fail => None
  {
    hide PopString, PopU32, U32Bytes;
    var cursor := new Cursor(payload);
    assert payload[0..] == payload;
    var version := cursor.U32();
    if version.None? { return None; }
    var declared := cursor.U32();
    if declared.None? { return None; }
    ghost var s := cursor.Ahead();
    var count := ExtensionCount(declared.value, |payload| - cursor.pos);
    var extensions: map<Text, Text> := map[];
    for i := 0 to count
      invariant cursor.Valid() && cursor.data == payload
      invariant PopExtensions(i, s, map[]) == Ok(extensions, cursor.Ahead())
    {
      PopExtensionsSnoc(i, s, map[]);
      var key := cursor.String();
      if key.None? {
        PopExtensionsFails(i + 1, count, s, map[]);
        return None;
      }
      var value := cursor.String();
      if value.None? {
        PopExtensionsFails(i + 1, count, s, map[]);
        return None;
      }
      extensions := extensions[key.value := value.value];
    }
    return Some((version.value, extensions));
  }
}
