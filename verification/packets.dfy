/**
 SFTP packets: the requests of types 3 to 20 and the responses of types 101 to 105, as the
 `encode_*` functions write them and the `decode_*` functions read them.

 `Request<A>` is generic in its attribute record: `FileAttrs` on the wire, `Metadata` in the
 client's and the handler's API.
 */
module Packets {
  import opened Bytes
  import opened Codec
  import opened Attributes

  const FXP_INIT: u8 := 1
  const FXP_VERSION: u8 := 2
  const FXP_STATUS: u8 := 101
  const FXP_HANDLE: u8 := 102
  const FXP_DATA: u8 := 103
  const FXP_NAME: u8 := 104
  const FXP_ATTRS: u8 := 105

  const SSH_FX_OK: u32 := 0
  const SSH_FX_EOF: u32 := 1
  const SSH_FX_NO_SUCH_FILE: u32 := 2
  const SSH_FX_PERMISSION_DENIED: u32 := 3
  const SSH_FX_FAILURE: u32 := 4
  const SSH_FX_BAD_MESSAGE: u32 := 5
  const SSH_FX_OP_UNSUPPORTED: u32 := 8

  // Requests ------------------------------------------------------------------------

  datatype Request<A> =
    | Open(subject: Text, pflags: u32, attrs: A)
    | Close(subject: Text)
    | Read(subject: Text, offset: u64, len: u32)
    | Write(subject: Text, offset: u64, data: seq<u8>)
    | Lstat(subject: Text)
    | Fstat(subject: Text)
    | Setstat(subject: Text, attrs: A)
    | Fsetstat(subject: Text, attrs: A)
    | Opendir(subject: Text)
    | Readdir(subject: Text)
    | Remove(subject: Text)
    | Mkdir(subject: Text, attrs: A)
    | Rmdir(subject: Text)
    | Realpath(subject: Text)
    | Stat(subject: Text)
    | Rename(subject: Text, target: Text)
    | Readlink(subject: Text)
    | Symlink(subject: Text, target: Text)
  {
    predicate HasAttrs() {
      Open? || Setstat? || Fsetstat? || Mkdir?
    }

    function Map<B>(f: A -> B): (r: Request<B>)
      ensures r.subject == subject && r.HasAttrs() == HasAttrs()
      ensures HasAttrs() ==> r.attrs == f(attrs)
    {
      match this
      case Open(s, p, a) => Open(s, p, f(a))
      case Close(s) => Close(s)
      case Read(s, o, n) => Read(s, o, n)
      case Write(s, o, d) => Write(s, o, d)
      case Lstat(s) => Lstat(s)
      case Fstat(s) => Fstat(s)
      case Setstat(s, a) => Setstat(s, f(a))
      case Fsetstat(s, a) => Fsetstat(s, f(a))
      case Opendir(s) => Opendir(s)
      case Readdir(s) => Readdir(s)
      case Remove(s) => Remove(s)
      case Mkdir(s, a) => Mkdir(s, f(a))
      case Rmdir(s) => Rmdir(s)
      case Realpath(s) => Realpath(s)
      case Stat(s) => Stat(s)
      case Rename(s, t) => Rename(s, t)
      case Readlink(s) => Readlink(s)
      case Symlink(s, t) => Symlink(s, t)
    }
  }

  type WireRequest = Request<FileAttrs>

  function RequestType<A>(r: Request<A>): (t: u8)
    ensures 3 <= t <= 20
  {
    match r
    case Open(_, _, _) => 3
    case Close(_) => 4
    case Read(_, _, _) => 5
    case Write(_, _, _) => 6
    case Lstat(_) => 7
    case Fstat(_) => 8
    case Setstat(_, _) => 9
    case Fsetstat(_, _) => 10
    case Opendir(_) => 11
    case Readdir(_) => 12
    case Remove(_) => 13
    case Mkdir(_, _) => 14
    case Rmdir(_) => 15
    case Realpath(_) => 16
    case Stat(_) => 17
    case Rename(_, _) => 18
    case Readlink(_) => 19
    case Symlink(_, _) => 20
  }

  /** What follows the request id and the leading string. */
  function RequestTail(r: WireRequest): seq<u8> {
    match r
    case Open(_, pflags, attrs) => U32Bytes(pflags) + PushAttrs(attrs)
    case Read(_, offset, len) => U64Bytes(offset) + U32Bytes(len)
    case Write(_, offset, data) => U64Bytes(offset) + PushBytes(data)
    case Setstat(_, attrs) => PushAttrs(attrs)
    case Fsetstat(_, attrs) => PushAttrs(attrs)
    case Mkdir(_, attrs) => PushAttrs(attrs)
    case Rename(_, target) => PushBytes(target)
    case Symlink(_, target) => PushBytes(target)
    case _ => []
  }

  function RequestPayload(id: u32, r: WireRequest): (p: seq<u8>) {
    U32Bytes(id) + (PushBytes(r.subject) + RequestTail(r))
  }

  function PopWithU32AndAttrs(s: seq<u8>): Parse<(u32, FileAttrs)> {
    var (v, s1) :- PopU32(s);
    var (a, s2) :- PopAttrs(s1);
    Ok((v, a), s2)
  }

  function PopRange(s: seq<u8>): Parse<(u64, u32)> {
    var (offset, s1) :- PopU64(s);
    var (len, s2) :- PopU32(s1);
    Ok((offset, len), s2)
  }

  function PopBlock(s: seq<u8>): Parse<(u64, seq<u8>)> {
    var (offset, s1) :- PopU64(s);
    var (data, s2) :- PopBytes(s1);
    Ok((offset, data), s2)
  }

  function DecodeTail(t: u8, subject: Text, s: seq<u8>): Parse<WireRequest>
    requires 3 <= t <= 20
  {
    match t
    case 3 => var (x, s1) :- PopWithU32AndAttrs(s); Ok(Open(subject, x.0, x.1), s1)
    case 4 => Ok(Close(subject), s)
    case 5 => var (x, s1) :- PopRange(s); Ok(Read(subject, x.0, x.1), s1)
    case 6 => var (x, s1) :- PopBlock(s); Ok(Write(subject, x.0, x.1), s1)
    case 7 => Ok(Lstat(subject), s)
    case 8 => Ok(Fstat(subject), s)
    case 9 => var (a, s1) :- PopAttrs(s); Ok(Setstat(subject, a), s1)
    case 10 => var (a, s1) :- PopAttrs(s); Ok(Fsetstat(subject, a), s1)
    case 11 => Ok(Opendir(subject), s)
    case 12 => Ok(Readdir(subject), s)
    case 13 => Ok(Remove(subject), s)
    case 14 => var (a, s1) :- PopAttrs(s); Ok(Mkdir(subject, a), s1)
    case 15 => Ok(Rmdir(subject), s)
    case 16 => Ok(Realpath(subject), s)
    case 17 => Ok(Stat(subject), s)
    case 18 => var (x, s1) :- PopString(s); Ok(Rename(subject, x), s1)
    case 19 => Ok(Readlink(subject), s)
    case _ => var (x, s1) :- PopString(s); Ok(Symlink(subject, x), s1)
  }

  /** The `decode_*_request` function of packet type `t`, on the payload after the type byte. */
  function DecodeRequest(t: u8, s: seq<u8>): Parse<(u32, WireRequest)>
    requires 3 <= t <= 20
  {
    var (id, s1) :- PopU32(s);
    var (subject, s2) :- PopString(s1);
    var (r, s3) :- DecodeTail(t, subject, s2);
    Ok((id, r), s3)
  }

  // Requests: reading what was written --------------------------------------------------

  predicate Extended(r: WireRequest) {
    r.HasAttrs() && HasExtended(r.attrs.flags)
  }

  /** The fields fit the reader's per-string limit and no EXTENDED flag is set. */
  predicate RequestFits(r: WireRequest) {
    |r.subject| <= MAX_SFTP_PACKET_SIZE
    && !Extended(r)
    && (r.Write? ==> |r.data| <= MAX_SFTP_PACKET_SIZE)
    && (r.Rename? || r.Symlink? ==> |r.target| <= MAX_SFTP_PACKET_SIZE)
  }

  lemma PopPushWithU32AndAttrs(v: u32, a: FileAttrs, rest: seq<u8>)
    requires !HasExtended(a.flags)
    ensures PopWithU32AndAttrs((U32Bytes(v) + PushAttrs(a)) + rest) == Ok((v, NormalForm(a)), rest)
  {
    hide U32Bytes, U32Of, PushAttrs, PopAttrs, NormalForm;
    AppendAssociates(U32Bytes(v), PushAttrs(a), rest);
    PopPushU32(v, PushAttrs(a) + rest);
    AttrsTrip(a, rest);
  }

  lemma PopPushRange(offset: u64, len: u32, rest: seq<u8>)
    ensures PopRange((U64Bytes(offset) + U32Bytes(len)) + rest) == Ok((offset, len), rest)
  {
    hide U32Bytes, U32Of, U64Bytes, U64Of;
    AppendAssociates(U64Bytes(offset), U32Bytes(len), rest);
    PopPushU64(offset, U32Bytes(len) + rest);
    PopPushU32(len, rest);
  }

  lemma PopPushBlock(offset: u64, data: seq<u8>, rest: seq<u8>)
    requires |data| <= MAX_SFTP_PACKET_SIZE
    ensures PopBlock((U64Bytes(offset) + PushBytes(data)) + rest) == Ok((offset, data), rest)
  {
    hide U32Bytes, U32Of, U64Bytes, U64Of, PushBytes, PopBytes;
    AppendAssociates(U64Bytes(offset), PushBytes(data), rest);
    PopPushU64(offset, PushBytes(data) + rest);
    PopPushBytes(data, rest);
  }

  lemma DecodeTailTrip(r: WireRequest, rest: seq<u8>)
    requires RequestFits(r)
    ensures DecodeTail(RequestType(r), r.subject, RequestTail(r) + rest) == Ok(r.Map(NormalForm), rest)
  {
    hide U32Bytes, U32Of, U64Bytes, U64Of, PushBytes, PopBytes, PopString, PushAttrs, PopAttrs, NormalForm,
         PopWithU32AndAttrs, PopRange, PopBlock, ValidUtf8;
    if r.HasAttrs() {
      AttrsTrip(r.attrs, rest);
    }
    match r {
      case Open(_, pflags, attrs) => PopPushWithU32AndAttrs(pflags, attrs, rest);
      case Read(_, offset, len) => PopPushRange(offset, len, rest);
      case Write(_, offset, data) => PopPushBlock(offset, data, rest);
      case Setstat(_, attrs) =>
      case Fsetstat(_, attrs) =>
      case Mkdir(_, attrs) =>
      case Rename(_, target) => PopPushString(target, rest);
      case Symlink(_, target) => PopPushString(target, rest);
      case _ => assert [] + rest == rest;
    }
  }

  /** Every request is read back as written, with its attributes in normal form. */
  lemma RequestTrip(id: u32, r: WireRequest, rest: seq<u8>)
    requires RequestFits(r)
    ensures DecodeRequest(RequestType(r), RequestPayload(id, r) + rest) == Ok((id, r.Map(NormalForm)), rest)
  {
    hide U32Bytes, U32Of, PushBytes, PopBytes, PopString, RequestTail, DecodeTail, NormalForm, ValidUtf8;
    AppendAssociates(U32Bytes(id), PushBytes(r.subject) + RequestTail(r), rest);
    AppendAssociates(PushBytes(r.subject), RequestTail(r), rest);
    PopPushU32(id, PushBytes(r.subject) + (RequestTail(r) + rest));
    PopPushString(r.subject, RequestTail(r) + rest);
    DecodeTailTrip(r, rest);
  }

  // Requests: what is accepted was written ----------------------------------------------

  lemma DecodeTailCanonical(t: u8, subject: Text, s: seq<u8>)
    requires 3 <= t <= 20 && DecodeTail(t, subject, s).Ok?
    ensures var r := DecodeTail(t, subject, s).value;
            RequestType(r) == t && r.subject == subject
            && (!Extended(r) ==> s == RequestTail(r) + DecodeTail(t, subject, s).rest)
  {
    hide U32Bytes, U32Of, U64Bytes, U64Of, PushBytes, PopBytes, PopString, PushAttrs, PopAttrs, ValidUtf8;
    var r, rest := DecodeTail(t, subject, s).value, DecodeTail(t, subject, s).rest;
    match t {
      case 3 =>
        var s1 := PopU32(s).rest;
        PopAttrsCanonical(s1);
        if !HasExtended(r.attrs.flags) {
          assert [] + rest == rest;
          AppendAssociates(U32Bytes(r.pflags), PushAttrs(r.attrs), rest);
        }
      case 5 => AppendAssociates(U64Bytes(r.offset), U32Bytes(r.len), rest);
      case 6 => AppendAssociates(U64Bytes(r.offset), PushBytes(r.data), rest);
      case 9 => PopAttrsCanonical(s); assert [] + rest == rest;
      case 10 => PopAttrsCanonical(s); assert [] + rest == rest;
      case 14 => PopAttrsCanonical(s); assert [] + rest == rest;
      case 18 =>
      case 20 =>
      case _ => assert [] + rest == rest;
    }
  }

  /** Whatever a request decoder accepts is, byte for byte, the encoding of its result
      (EXTENDED flag apart). */
  lemma RequestCanonical(t: u8, s: seq<u8>)
    requires 3 <= t <= 20 && DecodeRequest(t, s).Ok?
    ensures var (id, r) := DecodeRequest(t, s).value;
            RequestType(r) == t
            && (!Extended(r) ==> s == RequestPayload(id, r) + DecodeRequest(t, s).rest)
  {
    hide U32Bytes, U32Of, PushBytes, PopBytes, PopString, RequestTail, DecodeTail, ValidUtf8;
    var id, s1 := PopU32(s).value, PopU32(s).rest;
    var subject, s2 := PopString(s1).value, PopString(s1).rest;
    var r, s3 := DecodeTail(t, subject, s2).value, DecodeTail(t, subject, s2).rest;
    DecodeTailCanonical(t, subject, s2);
    AppendAssociates(PushBytes(subject), RequestTail(r), s3);
    AppendAssociates(U32Bytes(id), PushBytes(subject) + RequestTail(r), s3);
  }

  // Framing -----------------------------------------------------------------------------

  /** `frame`: the 32-bit length counts the type byte and wraps as the program's casts do. */
  function Frame(t: u8, payload: seq<u8>): (f: seq<u8>)
    ensures |f| == 5 + |payload|
  {
    U32Bytes((1 + |payload|) % TWO_32) + ([t] + payload)
  }

  function EncodeRequest(id: u32, r: WireRequest): seq<u8> {
    Frame(RequestType(r), RequestPayload(id, r))
  }

  /** A request whose frame stays inside the packet limit has fields inside it too. */
  lemma SmallFrameFits(id: u32, r: WireRequest)
    requires |EncodeRequest(id, r)| <= 4 + MAX_SFTP_PACKET_SIZE
    requires !Extended(r)
    ensures RequestFits(r)
  {
    hide U32Bytes, U32Of, U64Bytes, U64Of, PushAttrs;
  }

  /** Two requests share an encoding exactly when they have the same id and normal form. */
  lemma EncodingInjective(id: u32, r: WireRequest, id': u32, r': WireRequest)
    requires RequestFits(r) && RequestFits(r')
    ensures EncodeRequest(id, r) == EncodeRequest(id', r')
            <==> id == id' && r.Map(NormalForm) == r'.Map(NormalForm)
  {
    EncodesNormalForm(id, r);
    EncodesNormalForm(id', r');
    hide U32Bytes, U32Of, RequestPayload, DecodeRequest, RequestFits, NormalForm, Request<FileAttrs>.Map;
    var f, f' := EncodeRequest(id, r), EncodeRequest(id', r');
    var p, p' := RequestPayload(id, r), RequestPayload(id', r');
    assert f[4] == RequestType(r) && f'[4] == RequestType(r');
    assert f[5..] == p && f'[5..] == p';
    assert p + [] == p && p' + [] == p';
    RequestTrip(id, r, []);
    RequestTrip(id', r', []);
  }

  /** Only the normal form of the attributes is written. */
  lemma EncodesNormalForm(id: u32, r: WireRequest)
    ensures EncodeRequest(id, r.Map(NormalForm)) == EncodeRequest(id, r)
  {
    hide U32Bytes, U64Bytes, PushBytes, NormalForm, PushAttrs;
    if r.HasAttrs() {
      PushesNormalForm(r.attrs);
    }
  }

  // INIT and VERSION ----------------------------------------------------------------------

  /** Both carry a version and a counted list of extension pairs (this repository's layout). */
  function VersionPayload(version: u32, pairs: seq<(Text, Text)>): seq<u8> {
    U32Bytes(version) + (U32Bytes(|pairs| % TWO_32) + PushPairs(pairs))
  }

  function PushPairs(pairs: seq<(Text, Text)>): seq<u8> {
    if pairs == [] then [] else (PushBytes(pairs[0].0) + PushBytes(pairs[0].1)) + PushPairs(pairs[1..])
  }

  function PopExtensions(n: nat, s: seq<u8>, known: map<Text, Text>): Parse<map<Text, Text>>
    decreases n
  {
    if n == 0 then Ok(known, s) else
      var (key, s1) :- PopString(s);
      var (value, s2) :- PopString(s1);
      PopExtensions(n - 1, s2, known[key := value])
  }

  function ExtensionCount(count: nat, remaining: nat): nat {
    Min(Min(count, remaining / 8), 128)
  }

  function DecodeVersion(s: seq<u8>): Parse<(u32, map<Text, Text>)> {
    var (version, s1) :- PopU32(s);
    var (count, s2) :- PopU32(s1);
    var (extensions, s3) :- PopExtensions(ExtensionCount(count, |s2|), s2, map[]);
    Ok((version, extensions), s3)
  }

  /** Later pairs win, as in a map that is filled in order. */
  function Inserted(pairs: seq<(Text, Text)>, known: map<Text, Text>): map<Text, Text> {
    if pairs == [] then known else Inserted(pairs[1..], known[pairs[0].0 := pairs[0].1])
  }

  predicate PairFits(pair: (Text, Text)) {
    |pair.0| <= MAX_SFTP_PACKET_SIZE && |pair.1| <= MAX_SFTP_PACKET_SIZE
  }

  lemma {:induction false} PairsTrip(k: nat, pairs: seq<(Text, Text)>, known: map<Text, Text>)
    requires k <= |pairs| && forall i :: 0 <= i < |pairs| ==> PairFits(pairs[i])
    ensures PopExtensions(k, PushPairs(pairs), known) == Ok(Inserted(pairs[..k], known), PushPairs(pairs[k..]))
  {
    hide PushBytes, PopString;
    if k == 0 {
    } else {
      var (key, value) := pairs[0];
      var later := PushPairs(pairs[1..]);
      AppendAssociates(PushBytes(key), PushBytes(value), later);
      PopPushString(key, PushBytes(value) + later);
      PopPushString(value, later);
      PairsTrip(k - 1, pairs[1..], known[key := value]);
      assert pairs[..k][1..] == pairs[1..][..k - 1] && pairs[1..][k - 1..] == pairs[k..];
    }
  }

  lemma {:induction false} PairsTakeEight(pairs: seq<(Text, Text)>)
    ensures |PushPairs(pairs)| >= 8 * |pairs|
  {
    hide U32Bytes;
    if pairs == [] {
    } else {
      PairsTakeEight(pairs[1..]);
    }
  }

  /** The pairs that are read; the count word is cut to 32 bits. */
  function FirstPairs(pairs: seq<(Text, Text)>): seq<(Text, Text)> {
    pairs[..Min(|pairs| % TWO_32, 128)]
  }

  /** A version packet is read back with the first 128 of its extension pairs. */
  lemma VersionTrip(version: u32, pairs: seq<(Text, Text)>)
    requires forall i :: 0 <= i < |pairs| ==> PairFits(pairs[i])
    ensures var k := Min(|pairs| % TWO_32, 128);
            k <= |pairs|
            && DecodeVersion(VersionPayload(version, pairs))
               == Ok((version, Inserted(pairs[..k], map[])), PushPairs(pairs[k..]))
  {
    hide U32Bytes, U32Of, PushPairs, PopExtensions, PairFits;
    var k, n := Min(|pairs| % TWO_32, 128), |pairs| % TWO_32;
    PairsTakeEight(pairs);
    assert n <= |pairs| <= |PushPairs(pairs)| / 8;
    PopPushU32(version, U32Bytes(n) + PushPairs(pairs));
    PopPushU32(n, PushPairs(pairs));
    PairsTrip(k, pairs, map[]);
  }

  predicate DistinctKeys(pairs: seq<(Text, Text)>) {
    forall i, j :: 0 <= i < j < |pairs| ==> pairs[i].0 != pairs[j].0
  }

  lemma {:induction false} InsertedKeys(pairs: seq<(Text, Text)>, known: map<Text, Text>)
    requires DistinctKeys(pairs)
    requires forall i :: 0 <= i < |pairs| ==> pairs[i].0 !in known
    ensures |Inserted(pairs, known)| == |known| + |pairs|
  {
    if pairs == [] {
    } else {
      InsertedKeys(pairs[1..], known[pairs[0].0 := pairs[0].1]);
    }
  }

  /** The extensions, listed in any order, come back exactly when there are at most 128 of them. */
  lemma VersionComplete(version: u32, pairs: seq<(Text, Text)>)
    requires (forall i :: 0 <= i < |pairs| ==> PairFits(pairs[i])) && |pairs| < TWO_32
    requires DistinctKeys(pairs)
    ensures DecodeVersion(VersionPayload(version, pairs)) == Ok((version, Inserted(pairs, map[])), [])
            <==> |pairs| <= 128
  {
    hide DecodeVersion, VersionPayload, PairFits, Inserted, PushPairs;
    VersionTrip(version, pairs);
    var k := Min(|pairs|, 128);
    assert DistinctKeys(pairs[..k]);
    hide DistinctKeys;
    InsertedKeys(pairs, map[]);
    InsertedKeys(pairs[..k], map[]);
    if k == |pairs| {
      assert pairs[..k] == pairs && pairs[k..] == [];
      NoPairs();
    }
  }

  lemma NoPairs()
    ensures PushPairs([]) == []
  {
  }
}
