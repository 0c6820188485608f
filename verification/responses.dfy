/**
 SFTP responses, types 101 to 105, and the exact law of NAME batches: the reader caps the entry
 count at one per 16 remaining bytes although the shortest entry takes only 12.
 */
module Responses {
  import opened Bytes
  import opened Codec
  import opened Attributes
  import opened Packets

  datatype NameEntry = NameEntry(filename: Text, longname: Text, attrs: FileAttrs)

  datatype Response =
    | Status(code: u32, message: Text)
    | Handle(handle: Text)
    | Data(data: seq<u8>)
    | Name(entries: seq<NameEntry>)
    | Attrs(attrs: FileAttrs)

  const MAX_NAME_ENTRIES: nat := 65536

  // Name entries ----------------------------------------------------------------------

  function PushEntry(e: NameEntry): (b: seq<u8>) {
    PushBytes(e.filename) + (PushBytes(e.longname) + PushAttrs(e.attrs))
  }

  function PopEntry(s: seq<u8>): Parse<NameEntry> {
    var (filename, s1) :- PopString(s);
    var (longname, s2) :- PopString(s1);
    var (attrs, s3) :- PopAttrs(s2);
    Ok(NameEntry(filename, longname, attrs), s3)
  }

  predicate EntryFits(e: NameEntry) {
    |e.filename| <= MAX_SFTP_PACKET_SIZE && |e.longname| <= MAX_SFTP_PACKET_SIZE && !HasExtended(e.attrs.flags)
  }

  function NormalEntry(e: NameEntry): NameEntry {
    e.(attrs := NormalForm(e.attrs))
  }

  lemma EntryTrip(e: NameEntry, rest: seq<u8>)
    requires EntryFits(e)
    ensures PopEntry(PushEntry(e) + rest) == Ok(NormalEntry(e), rest)
  {
    hide U32Bytes, U32Of, PushBytes, PopBytes, PopString, PushAttrs, PopAttrs, NormalForm, ValidUtf8;
    var f, l, a := PushBytes(e.filename), PushBytes(e.longname), PushAttrs(e.attrs);
    AppendAssociates(f, l + a, rest);
    AppendAssociates(l, a, rest);
    PopPushString(e.filename, l + (a + rest));
    PopPushString(e.longname, a + rest);
    AttrsTrip(e.attrs, rest);
  }

  function PushEntries(es: seq<NameEntry>): seq<u8> {
    if es == [] then [] else PushEntry(es[0]) + PushEntries(es[1..])
  }

  lemma {:induction false} PushEntriesSnoc(es: seq<NameEntry>, e: NameEntry)
    ensures PushEntries(es + [e]) == PushEntries(es) + PushEntry(e)
  {
    hide PushEntry;
    if es == [] {
      assert [e][1..] == [];
      assert es + [e] == [e];
    } else {
      PushEntriesSnoc(es[1..], e);
      assert (es + [e])[1..] == es[1..] + [e];
      AppendAssociates(PushEntry(es[0]), PushEntries(es[1..]), PushEntry(e));
    }
  }

  function PopEntries(n: nat, s: seq<u8>): (r: Parse<seq<NameEntry>>)
    ensures r.Ok? ==> |r.value| == n
  {
    if n == 0 then Ok([], s) else
      var (e, s1) :- PopEntry(s);
      var (es, s2) :- PopEntries(n - 1, s1);
      Ok([e] + es, s2)
  }

  function NormalEntries(es: seq<NameEntry>): seq<NameEntry> {
    seq(|es|, i requires 0 <= i < |es| => NormalEntry(es[i]))
  }

  /** Reading `n` of the written entries gives the first `n` and leaves the others unread. */
  lemma {:induction false} EntriesTrip(n: nat, es: seq<NameEntry>)
    requires n <= |es| && forall i :: 0 <= i < |es| ==> EntryFits(es[i])
    ensures PopEntries(n, PushEntries(es)) == Ok(NormalEntries(es[..n]), PushEntries(es[n..]))
  {
    hide PushEntry, PopEntry, EntryFits, NormalEntry;
    if n > 0 {
      EntryTrip(es[0], PushEntries(es[1..]));
      EntriesTrip(n - 1, es[1..]);
      assert es[1..][n - 1..] == es[n..];
      assert NormalEntries(es[..n]) == [NormalEntry(es[0])] + NormalEntries(es[1..][..n - 1]);
    }
  }

  // Encoding --------------------------------------------------------------------------

  function ResponseType(r: Response): (t: u8)
    ensures FXP_STATUS <= t <= FXP_ATTRS
  {
    match r
    case Status(_, _) => FXP_STATUS
    case Handle(_) => FXP_HANDLE
    case Data(_) => FXP_DATA
    case Name(_) => FXP_NAME
    case Attrs(_) => FXP_ATTRS
  }

  function ResponseBody(r: Response): seq<u8> {
    match r
    case Status(code, message) => U32Bytes(code) + (PushBytes(message) + PushBytes(Ascii("en")))
    case Handle(handle) => PushBytes(handle)
    case Data(data) => PushBytes(data)
    case Name(entries) => U32Bytes(|entries| % TWO_32) + PushEntries(entries)
    case Attrs(attrs) => PushAttrs(attrs)
  }

  function ResponsePayload(id: u32, r: Response): seq<u8> {
    U32Bytes(id) + ResponseBody(r)
  }

  function EncodeResponse(id: u32, r: Response): seq<u8> {
    Frame(ResponseType(r), ResponsePayload(id, r))
  }

  // Decoding --------------------------------------------------------------------------

  function DecodeStatus(s: seq<u8>): Parse<Response> {
    var (code, s1) :- PopU32(s);
    var (message, s2) :- PopString(s1);
    var (_, s3) :- PopString(s2);
    Ok(Status(code, message), s3)
  }

  /** The number of entries that `decode_name` reads when the count word says `count`. */
  function NameCount(count: nat, remaining: nat): nat {
    Min(Min(count, remaining / 16), MAX_NAME_ENTRIES)
  }

  function DecodeName(s: seq<u8>): Parse<Response> {
    var (count, s1) :- PopU32(s);
    var (es, s2) :- PopEntries(NameCount(count, |s1|), s1);
    Ok(Name(es), s2)
  }

  function DecodeBody(t: u8, s: seq<u8>): Parse<Response>
    requires FXP_STATUS <= t <= FXP_ATTRS
  {
    if t == FXP_STATUS then DecodeStatus(s)
    else if t == FXP_HANDLE then
      var (h, s1) :- PopString(s); Ok(Handle(h), s1)
    else if t == FXP_DATA then
      var (d, s1) :- PopBytes(s); Ok(Data(d), s1)
    else if t == FXP_NAME then DecodeName(s)
    else
      var (a, s1) :- PopAttrs(s); Ok(Attrs(a), s1)
  }

  /** The `decode_*` function of response type `t`, on the payload after the type byte. */
  function DecodeResponse(t: u8, s: seq<u8>): Parse<(u32, Response)>
    requires FXP_STATUS <= t <= FXP_ATTRS
  {
    var (id, s1) :- PopU32(s);
    var (r, s2) :- DecodeBody(t, s1);
    Ok((id, r), s2)
  }

  // NAME prefix law -------------------------------------------------------------------

  /** Decoding an encoded batch of `n` entries totalling `B` bytes yields exactly the first
      `min(n, B/16, 65536)` of them. */
  lemma NamePrefix(es: seq<NameEntry>)
    requires forall i :: 0 <= i < |es| ==> EntryFits(es[i])
    ensures var k := NameCount(|es| % TWO_32, |PushEntries(es)|);
            k <= |es| && DecodeName(ResponseBody(Name(es))) == Ok(Name(NormalEntries(es[..k])), PushEntries(es[k..]))
  {
    hide PushEntries, PopEntries, EntryFits, U32Bytes, U32Of, NormalEntries;
    var k := NameCount(|es| % TWO_32, |PushEntries(es)|);
    PopPushU32(|es| % TWO_32, PushEntries(es));
    EntriesTrip(k, es);
  }

  /** No entry is lost exactly when the batch has 16 bytes per entry and at most 65536 entries. */
  lemma NameComplete(es: seq<NameEntry>)
    requires forall i :: 0 <= i < |es| ==> EntryFits(es[i])
    ensures DecodeName(ResponseBody(Name(es))) == Ok(Name(NormalEntries(es)), [])
            <==> |PushEntries(es)| >= 16 * |es| && |es| <= 65536
  {
    hide PushEntries, PopEntries, EntryFits, DecodeName, ResponseBody;
    NamePrefix(es);
    var k := NameCount(|es| % TWO_32, |PushEntries(es)|);
    assert |NormalEntries(es[..k])| == k && |NormalEntries(es)| == |es|;
    if k == |es| {
      assert es[..k] == es && es[k..] == [];
      assert PushEntries([]) == [] by { PushNothing(); }
    }
  }

  lemma PushNothing()
    ensures PushEntries([]) == []
  {}

  /** Under the frame limit the 65536 cap never decides: the 16-byte rule is the tighter one. */
  lemma FrameLimitBeatsEntryCap(id: u32, es: seq<NameEntry>)
    requires |EncodeResponse(id, Name(es))| <= 4 + MAX_SFTP_PACKET_SIZE
    ensures |PushEntries(es)| / 16 < 65536
  {
    hide PushEntries, U32Bytes;
  }

  // Reading what was written ------------------------------------------------------------

  predicate NamesFit(es: seq<NameEntry>) {
    (forall i :: 0 <= i < |es| ==> EntryFits(es[i]) && InNormalForm(es[i].attrs))
    && |PushEntries(es)| >= 16 * |es| && |es| <= MAX_NAME_ENTRIES
  }

  /** Responses that the client reads back unchanged. */
  predicate ResponseFits(r: Response) {
    match r
    case Status(_, message) => |message| <= MAX_SFTP_PACKET_SIZE
    case Handle(handle) => |handle| <= MAX_SFTP_PACKET_SIZE
    case Data(data) => |data| <= MAX_SFTP_PACKET_SIZE
    case Name(entries) => NamesFit(entries)
    case Attrs(attrs) => InNormalForm(attrs) && !HasExtended(attrs.flags)
  }

  lemma StatusTrip(code: u32, message: Text)
    requires |message| <= MAX_SFTP_PACKET_SIZE
    ensures DecodeStatus(ResponseBody(Status(code, message))) == Ok(Status(code, message), [])
  {
    hide U32Bytes, U32Of, PushBytes, PopBytes, PopString, ValidUtf8, Ascii;
    var lang := PushBytes(Ascii("en"));
    assert lang + [] == lang;
    PopPushU32(code, PushBytes(message) + lang);
    PopPushString(message, lang);
    PopPushString(Ascii("en"), []);
  }

  lemma NormalEntriesAre(es: seq<NameEntry>)
    requires forall i :: 0 <= i < |es| ==> InNormalForm(es[i].attrs)
    ensures NormalEntries(es) == es
  {}

  lemma BodyTrip(r: Response)
    requires ResponseFits(r)
    ensures DecodeBody(ResponseType(r), ResponseBody(r)) == Ok(r, [])
  {
    hide U32Bytes, U32Of, PushBytes, PopBytes, PopString, PushAttrs, PopAttrs, NormalForm, ValidUtf8,
         DecodeName, DecodeStatus, PushEntries, PopEntries, Ascii;
    match r {
      case Status(code, message) => StatusTrip(code, message);
      case Handle(handle) => PopPushString(handle, []); assert PushBytes(handle) + [] == PushBytes(handle);
      case Data(data) => PopPushBytes(data, []); assert PushBytes(data) + [] == PushBytes(data);
      case Name(es) => NameComplete(es); NormalEntriesAre(es);
      case Attrs(a) => AttrsTrip(a, []); assert PushAttrs(a) + [] == PushAttrs(a);
    }
  }

  lemma ResponseTrip(id: u32, r: Response)
    requires ResponseFits(r)
    ensures DecodeResponse(ResponseType(r), ResponsePayload(id, r)) == Ok((id, r), [])
  {
    hide U32Bytes, U32Of, ResponseBody, DecodeBody, ResponseFits;
    PopPushU32(id, ResponseBody(r));
    BodyTrip(r);
  }

  /** HANDLE, DATA and ATTRS payloads are accepted only in the form they are written. */
  lemma ResponseCanonical(t: u8, s: seq<u8>)
    requires t == FXP_HANDLE || t == FXP_DATA || t == FXP_ATTRS
    requires DecodeResponse(t, s).Ok?
    ensures var ((id, r), rest) := (DecodeResponse(t, s).value, DecodeResponse(t, s).rest);
            ResponseType(r) == t
            && ((r.Attrs? ==> !HasExtended(r.attrs.flags)) ==> s == ResponsePayload(id, r) + rest)
  {
    hide U32Bytes, U32Of, PushBytes, PopBytes, PopString, PushAttrs, PopAttrs, ValidUtf8;
    var id, s1 := PopU32(s).value, PopU32(s).rest;
    var r, rest := DecodeBody(t, s1).value, DecodeBody(t, s1).rest;
    AppendAssociates(U32Bytes(id), ResponseBody(r), rest);
    if t == FXP_ATTRS {
      PopAttrsCanonical(s1);
      assert [] + rest == rest;
    }
  }

  // Client-side dispatch decoding ---------------------------------------------------------

  /** Outcome of decoding one packet in the read task: the id whose caller it concerns, with the
      response or with a decoding error. */
  datatype Reply = Reply(id: u32, response: Response) | Garbled(id: u32)

  function FallbackId(s: seq<u8>): u32 {
    if |s| >= 4 then U32Of(s[..4]) else 0
  }

  function DecodePacket(packet: seq<u8>): Reply
    requires packet != []
  {
    if FXP_STATUS <= packet[0] <= FXP_ATTRS then
      match DecodeResponse(packet[0], packet[1..])
      case Ok((id, r), _) => Reply(id, r)
      case Fail => Garbled(FallbackId(packet[1..]))
    else Garbled(0)
  }

  /** Decoded or garbled, a packet of types 101 to 105 concerns the id in its first word; every
      other packet concerns id 0, which is never issued. */
  lemma PacketConcernsItsId(packet: seq<u8>)
    requires packet != []
    ensures DecodePacket(packet).id
            == if FXP_STATUS <= packet[0] <= FXP_ATTRS && |packet| >= 5 then U32Of(packet[1..5]) else 0
  {
    hide DecodeBody;
    if |packet| >= 5 {
      assert packet[1..][..4] == packet[1..5];
    }
  }

  lemma DecodeEncoded(id: u32, r: Response)
    requires ResponseFits(r)
    ensures EncodeResponse(id, r)[4..] != [] && DecodePacket(EncodeResponse(id, r)[4..]) == Reply(id, r)
  {
    hide U32Bytes, U32Of, ResponsePayload, DecodeResponse, ResponseFits;
    var f := EncodeResponse(id, r);
    assert f[4..] == [ResponseType(r)] + ResponsePayload(id, r);
    assert f[4..][1..] == ResponsePayload(id, r);
    ResponseTrip(id, r);
  }
}
