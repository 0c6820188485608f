/**
 The primitive fields of an SFTP packet (`push_*` and `pop_*`), as functions on byte strings.

 A `Pop` function looks at the bytes from the cursor onwards and gives the value with the bytes
 that follow it, so each field has two laws: popping what was pushed gives the value back and
 stops right after it, and whatever a pop accepts is exactly the push of its value.
 The classes in module `Cursors` are the mutable forms.
 */
module Codec {
  import opened Bytes

  const MAX_SFTP_PACKET_SIZE: u32 := 256 * 1024

  datatype Parse<+T> = Ok(value: T, rest: seq<u8>) | Fail {
    predicate IsFailure() {
      Fail?
    }
    function PropagateFailure<U>(): Parse<U>
      requires Fail?
    {
      Fail
    }
    function Extract(): (T, seq<u8>)
      requires Ok?
    {
      (value, rest)
    }
  }

  function PopU32(s: seq<u8>): (r: Parse<u32>)
    ensures r.Ok? ==> s == U32Bytes(r.value) + r.rest
    ensures r.Fail? <==> |s| < 4
  {
    if |s| < 4 then Fail else
      U32BytesInverse(s[..4]);
      Ok(U32Of(s[..4]), s[4..])
  }

  lemma PopPushU32(v: u32, rest: seq<u8>)
    ensures PopU32(U32Bytes(v) + rest) == Ok(v, rest)
  {
    assert (U32Bytes(v) + rest)[..4] == U32Bytes(v);
    assert (U32Bytes(v) + rest)[4..] == rest;
  }

  function PopU64(s: seq<u8>): (r: Parse<u64>)
    ensures r.Ok? ==> s == U64Bytes(r.value) + r.rest
    ensures r.Fail? <==> |s| < 8
  {
    if |s| < 8 then Fail else
      U64BytesInverse(s[..8]);
      Ok(U64Of(s[..8]), s[8..])
  }

  lemma PopPushU64(v: u64, rest: seq<u8>)
    ensures PopU64(U64Bytes(v) + rest) == Ok(v, rest)
  {
    assert (U64Bytes(v) + rest)[..8] == U64Bytes(v);
    assert (U64Bytes(v) + rest)[8..] == rest;
  }

  /** `push_bytes`: the length is truncated to 32 bits by the cast in the program. */
  function PushBytes(data: seq<u8>): (b: seq<u8>)
    ensures |b| == 4 + |data|
  {
    U32Bytes(|data| % TWO_32) + data
  }

  function PopBytes(s: seq<u8>): (r: Parse<seq<u8>>)
    ensures r.Ok? ==> |r.value| <= MAX_SFTP_PACKET_SIZE && s == PushBytes(r.value) + r.rest
  {
    hide U32Bytes, U32Of, PushBytes;
    var (len, t) :- PopU32(s);
    if len > MAX_SFTP_PACKET_SIZE || |t| < len then Fail else
      PushedBytes(len, t);
      Ok(t[..len], t[len..])
  }

  lemma PushedBytes(len: u32, t: seq<u8>)
    requires len <= |t|
    ensures U32Bytes(len) + t == PushBytes(t[..len]) + t[len..]
  {
    hide U32Bytes;
    assert t == t[..len] + t[len..];
    AppendAssociates(U32Bytes(len), t[..len], t[len..]);
  }

  lemma PopPushBytes(data: seq<u8>, rest: seq<u8>)
    requires |data| <= MAX_SFTP_PACKET_SIZE
    ensures PopBytes(PushBytes(data) + rest) == Ok(data, rest)
  {
    assert PushBytes(data) + rest == U32Bytes(|data|) + (data + rest);
    PopPushU32(|data|, data + rest);
    assert (data + rest)[..|data|] == data && (data + rest)[|data|..] == rest;
  }

  function PopString(s: seq<u8>): (r: Parse<Text>)
    ensures r.Ok? ==> |r.value| <= MAX_SFTP_PACKET_SIZE && s == PushBytes(r.value) + r.rest
  {
    var (b, t) :- PopBytes(s);
    if ValidUtf8(b) then Ok(b, t) else Fail
  }

  lemma PopPushString(text: Text, rest: seq<u8>)
    requires |text| <= MAX_SFTP_PACKET_SIZE
    ensures PopString(PushBytes(text) + rest) == Ok(text, rest)
  {
    PopPushBytes(text, rest);
  }
}
