/**
 File attributes: the wire record of section 5 of draft-ietf-secsh-filexfer-02, the public
 metadata record, and what one trip over the wire does to each.
 */
module Attributes {
  import opened Bytes
  import opened Codec

  datatype FileAttrs = FileAttrs(
    flags: u32,
    size: Option<u64>,
    uid: Option<u32>,
    gid: Option<u32>,
    permissions: Option<u32>,
    atime: Option<u32>,
    mtime: Option<u32>
  )

  // `flags & MASK != 0` for the single-bit masks of the protocol.
  predicate HasSize(flags: u32) { flags % 2 == 1 }
  predicate HasUidGid(flags: u32) { flags / 2 % 2 == 1 }
  predicate HasPermissions(flags: u32) { flags / 4 % 2 == 1 }
  predicate HasTimes(flags: u32) { flags / 8 % 2 == 1 }
  predicate HasExtended(flags: u32) { flags >= 0x8000_0000 }

  // One optional field --------------------------------------------------------------

  function PushOpt32(present: bool, v: Option<u32>): (b: seq<u8>)
    ensures |b| == if present then 4 else 0
  {
    if present then U32Bytes(v.GetOr(0)) else []
  }

  function PopOpt32(present: bool, s: seq<u8>): (r: Parse<Option<u32>>)
    ensures r.Ok? ==> r.value.Some? == present && s == PushOpt32(present, r.value) + r.rest
  {
    if present then
      var (v, t) :- PopU32(s);
      Ok(Some(v), t)
    else Ok(None, s)
  }

  function PushOpt64(present: bool, v: Option<u64>): (b: seq<u8>)
    ensures |b| == if present then 8 else 0
  {
    if present then U64Bytes(v.GetOr(0)) else []
  }

  function PopOpt64(present: bool, s: seq<u8>): (r: Parse<Option<u64>>)
    ensures r.Ok? ==> r.value.Some? == present && s == PushOpt64(present, r.value) + r.rest
  {
    if present then
      var (v, t) :- PopU64(s);
      Ok(Some(v), t)
    else Ok(None, s)
  }

  /** Two words under one flag (uid and gid, atime and mtime). */
  function PushPair(present: bool, v: Option<u32>, w: Option<u32>): (b: seq<u8>)
    ensures |b| == if present then 8 else 0
  {
    if present then U32Bytes(v.GetOr(0)) + U32Bytes(w.GetOr(0)) else []
  }

  function PopPair(present: bool, s: seq<u8>): (r: Parse<(Option<u32>, Option<u32>)>)
    ensures r.Ok? ==> r.value.0.Some? == r.value.1.Some? == present
    ensures r.Ok? ==> s == PushPair(present, r.value.0, r.value.1) + r.rest
  {
    if present then
      var (v, s1) :- PopU32(s);
      var (w, s2) :- PopU32(s1);
      Ok((Some(v), Some(w)), s2)
    else Ok((None, None), s)
  }

  /** What a flag says about a field: absent without it, 0 when flagged but empty. */
  function Fill<T>(present: bool, v: Option<T>, zero: T): Option<T> {
    if present then Some(v.GetOr(zero)) else None
  }

  lemma PopPushOpt32(present: bool, v: Option<u32>, rest: seq<u8>)
    ensures PopOpt32(present, PushOpt32(present, v) + rest) == Ok(Fill(present, v, 0), rest)
  {
    if present {
      PopPushU32(v.GetOr(0), rest);
    } else {
      assert PushOpt32(present, v) + rest == rest;
    }
  }

  lemma PopPushOpt64(present: bool, v: Option<u64>, rest: seq<u8>)
    ensures PopOpt64(present, PushOpt64(present, v) + rest) == Ok(Fill(present, v, 0), rest)
  {
    if present {
      PopPushU64(v.GetOr(0), rest);
    } else {
      assert PushOpt64(present, v) + rest == rest;
    }
  }

  lemma PopPushPair(present: bool, v: Option<u32>, w: Option<u32>, rest: seq<u8>)
    ensures PopPair(present, PushPair(present, v, w) + rest) == Ok((Fill(present, v, 0), Fill(present, w, 0)), rest)
  {
    if present {
      var v', w' := v.GetOr(0), w.GetOr(0);
      PopPushU32(w', rest);
      PopPushU32(v', U32Bytes(w') + rest);
      assert PushPair(present, v, w) + rest == U32Bytes(v') + (U32Bytes(w') + rest);
    } else {
      assert PushPair(present, v, w) + rest == rest;
    }
  }

  // The whole record ----------------------------------------------------------------

  /** `push_attrs`: an EXTENDED flag is written but no extended count follows it. */
  function PushAttrs(a: FileAttrs): seq<u8> {
    U32Bytes(a.flags) + PushFields(a)
  }

  function PushFields(a: FileAttrs): seq<u8> {
    PushOpt64(HasSize(a.flags), a.size)
    + (PushPair(HasUidGid(a.flags), a.uid, a.gid)
       + (PushOpt32(HasPermissions(a.flags), a.permissions)
          + PushPair(HasTimes(a.flags), a.atime, a.mtime)))
  }

  lemma Reassociate(a: seq<u8>, b: seq<u8>, c: seq<u8>, d: seq<u8>, rest: seq<u8>)
    ensures (a + (b + (c + d))) + rest == a + (b + (c + (d + rest)))
  {}

  /** The fields after the flag word, before the extended count. */
  function PopFields(flags: u32, s: seq<u8>): (r: Parse<FileAttrs>)
    ensures r.Ok? ==> r.value.flags == flags && InNormalForm(r.value)
  {
    var (size, s1) :- PopOpt64(HasSize(flags), s);
    var (ids, s2) :- PopPair(HasUidGid(flags), s1);
    var (permissions, s3) :- PopOpt32(HasPermissions(flags), s2);
    var (times, s4) :- PopPair(HasTimes(flags), s3);
    Ok(FileAttrs(flags, size, ids.0, ids.1, permissions, times.0, times.1), s4)
  }

  lemma PopFieldsCanonical(flags: u32, s: seq<u8>)
    requires PopFields(flags, s).Ok?
    ensures s == PushFields(PopFields(flags, s).value) + PopFields(flags, s).rest
  {
    hide HasSize, HasUidGid, HasPermissions, HasTimes, PushOpt64, PushOpt32, PushPair, PopOpt64, PopOpt32, PopPair;
    var Ok(size, s1) := PopOpt64(HasSize(flags), s);
    var Ok(ids, s2) := PopPair(HasUidGid(flags), s1);
    var Ok(permissions, s3) := PopOpt32(HasPermissions(flags), s2);
    var Ok(times, s4) := PopPair(HasTimes(flags), s3);
    Reassociate(PushOpt64(HasSize(flags), size), PushPair(HasUidGid(flags), ids.0, ids.1),
                PushOpt32(HasPermissions(flags), permissions), PushPair(HasTimes(flags), times.0, times.1), s4);
  }

  function PopAttrs(s: seq<u8>): (r: Parse<FileAttrs>)
    ensures r.Ok? ==> InNormalForm(r.value)
  {
    var (flags, s1) :- PopU32(s);
    var (a, s2) :- PopFields(flags, s1);
    if HasExtended(flags) then
      var (extendedCount, s3) :- PopU32(s2);
      if extendedCount > 0 then Fail else Ok(a, s3)
    else Ok(a, s2)
  }

  /** The count word that the reader, but not the writer, expects under EXTENDED. */
  function CountWord(flags: u32): seq<u8> {
    if HasExtended(flags) then U32Bytes(0) else []
  }

  /** What `PopAttrs` accepts is the push of its result, plus the count word under EXTENDED. */
  lemma PopAttrsCanonical(s: seq<u8>)
    requires PopAttrs(s).Ok?
    ensures var r := PopAttrs(s);
            s == PushAttrs(r.value) + (CountWord(r.value.flags) + r.rest)
  {
    hide U32Bytes, U32Of, PushFields, PopFields;
    var flags, s1 := PopU32(s).value, PopU32(s).rest;
    var a, s2 := PopFields(flags, s1).value, PopFields(flags, s1).rest;
    PopFieldsCanonical(flags, s1);
    AppendAssociates(U32Bytes(flags), PushFields(a), s2);
    assert s2 == CountWord(flags) + PopAttrs(s).rest;
  }

  /** Exactly the flagged fields are present. */
  predicate InNormalForm(a: FileAttrs) {
    a.size.Some? == HasSize(a.flags)
    && a.uid.Some? == a.gid.Some? == HasUidGid(a.flags)
    && a.permissions.Some? == HasPermissions(a.flags)
    && a.atime.Some? == a.mtime.Some? == HasTimes(a.flags)
  }

  function NormalForm(a: FileAttrs): (n: FileAttrs)
    ensures InNormalForm(n)
    ensures InNormalForm(a) ==> n == a
  {
    FileAttrs(
      a.flags,
      Fill(HasSize(a.flags), a.size, 0),
      Fill(HasUidGid(a.flags), a.uid, 0),
      Fill(HasUidGid(a.flags), a.gid, 0),
      Fill(HasPermissions(a.flags), a.permissions, 0),
      Fill(HasTimes(a.flags), a.atime, 0),
      Fill(HasTimes(a.flags), a.mtime, 0))
  }

  lemma PopPushFields(a: FileAttrs, rest: seq<u8>)
    ensures PopFields(a.flags, PushFields(a) + rest) == Ok(NormalForm(a), rest)
  {
    hide HasSize, HasUidGid, HasPermissions, HasTimes, PushOpt64, PushOpt32, PushPair, PopOpt64, PopOpt32, PopPair,
         Fill;
    var times := PushPair(HasTimes(a.flags), a.atime, a.mtime);
    var perms := PushOpt32(HasPermissions(a.flags), a.permissions);
    var ids := PushPair(HasUidGid(a.flags), a.uid, a.gid);
    PopPushPair(HasTimes(a.flags), a.atime, a.mtime, rest);
    PopPushOpt32(HasPermissions(a.flags), a.permissions, times + rest);
    PopPushPair(HasUidGid(a.flags), a.uid, a.gid, perms + (times + rest));
    PopPushOpt64(HasSize(a.flags), a.size, ids + (perms + (times + rest)));
    Reassociate(PushOpt64(HasSize(a.flags), a.size), ids, perms, times, rest);
  }

  lemma PushesNormalForm(a: FileAttrs)
    ensures PushAttrs(NormalForm(a)) == PushAttrs(a)
  {
    hide U32Bytes, U64Bytes;
  }

  /** Popping a pushed record gives its normal form and stops right after it exactly when the
      EXTENDED flag is clear: with the flag set the reader takes the next word of the packet
      for a count that the writer never wrote. */
  lemma AttrsTrip(a: FileAttrs, rest: seq<u8>)
    ensures PopAttrs(PushAttrs(a) + rest) == Ok(NormalForm(a), rest) <==> !HasExtended(a.flags)
    ensures HasExtended(a.flags) ==>
              PopAttrs(PushAttrs(a) + rest)
              == if |rest| >= 4 && U32Of(rest[..4]) == 0 then Ok(NormalForm(a), rest[4..]) else Fail
  {
    hide U32Bytes, U32Of, PushFields, PopFields, NormalForm, InNormalForm, HasExtended;
    AppendAssociates(U32Bytes(a.flags), PushFields(a), rest);
    PopPushU32(a.flags, PushFields(a) + rest);
    PopPushFields(a, rest);
  }

  // Public metadata -----------------------------------------------------------------

  datatype Metadata = Metadata(
    size: Option<u64>,
    uid: Option<u32>,
    gid: Option<u32>,
    permissions: Option<u32>,
    accessed: Option<u64>,
    modified: Option<u64>
  )

  function Widen(v: Option<u32>): Option<u64> {
    if v.Some? then Some(v.value) else None
  }

  function FromPacket(a: FileAttrs): Metadata {
    Metadata(a.size, a.uid, a.gid, a.permissions, Widen(a.atime), Widen(a.mtime))
  }

  function Flag(present: bool, mask: u32): u32 {
    if present then mask else 0
  }

  function Truncated(v: Option<u64>): u32 {
    v.GetOr(0) % TWO_32
  }

  /** The record that `to_packet` builds: one flag per group, groups completed with 0. */
  function ToPacket(m: Metadata): (a: FileAttrs)
    ensures InNormalForm(a) && !HasExtended(a.flags)
  {
    var ids := m.uid.Some? || m.gid.Some?;
    var times := m.accessed.Some? || m.modified.Some?;
    FileAttrs(
      Flag(m.size.Some?, 1) + Flag(ids, 2) + Flag(m.permissions.Some?, 4) + Flag(times, 8),
      m.size,
      Fill(ids, m.uid, 0),
      Fill(ids, m.gid, 0),
      m.permissions,
      if times then Some(Truncated(m.accessed)) else None,
      if times then Some(Truncated(m.modified)) else None)
  }

  /** `SftpMetadata::to_packet`, which fills a default record step by step. */
  method BuildPacket(m: Metadata) returns (attrs: FileAttrs)
    ensures attrs == ToPacket(m)
  {
    attrs := FileAttrs(0, None, None, None, None, None, None);
    if m.size.Some? {
      attrs := attrs.(flags := attrs.flags + 1, size := m.size);
    }
    if m.uid.Some? || m.gid.Some? {
      attrs := attrs.(flags := attrs.flags + 2, uid := Some(m.uid.GetOr(0)), gid := Some(m.gid.GetOr(0)));
    }
    if m.permissions.Some? {
      attrs := attrs.(flags := attrs.flags + 4, permissions := m.permissions);
    }
    if m.accessed.Some? {
      var mtime := if m.modified.Some? then m.modified.value % TWO_32 else 0;
      attrs := attrs.(flags := attrs.flags + 8, atime := Some(m.accessed.value % TWO_32), mtime := Some(mtime));
    } else if m.modified.Some? {
      attrs := attrs.(flags := attrs.flags + 8, atime := Some(0), mtime := Some(m.modified.value % TWO_32));
    }
  }

  /** Metadata after one trip: a lone member of a pair gains a 0 partner, times lose their high word. */
  function Delivered(m: Metadata): Metadata {
    var ids := m.uid.Some? || m.gid.Some?;
    var times := m.accessed.Some? || m.modified.Some?;
    m.(uid := Fill(ids, m.uid, 0), gid := Fill(ids, m.gid, 0),
       accessed := if times then Some(Truncated(m.accessed)) else None,
       modified := if times then Some(Truncated(m.modified)) else None)
  }

  /** What delivery does to each field: size and permissions stay, the other member of a pair is 0, and
      times lose all but their low 32 bits. */
  lemma DeliveredIs(m: Metadata)
    ensures var d := Delivered(m);
            && d.size == m.size && d.permissions == m.permissions
            && (if m.uid.None? && m.gid.None? then d.uid == d.gid == None
                else d.uid == Some(m.uid.GetOr(0)) && d.gid == Some(m.gid.GetOr(0)))
            && (if m.accessed.None? && m.modified.None? then d.accessed == d.modified == None
                else d.accessed == Some(m.accessed.GetOr(0) % 0x1_0000_0000)
                     && d.modified == Some(m.modified.GetOr(0) % 0x1_0000_0000))
  {}

  /** Metadata that both members of each pair share and whose times fit 32 bits. */
  predicate Paired(m: Metadata) {
    m.uid.Some? == m.gid.Some? && m.accessed.Some? == m.modified.Some?
    && m.accessed.GetOr(0) < TWO_32 && m.modified.GetOr(0) < TWO_32
  }

  /** The pure part of the trip: `Delivered(m)` is `m` itself exactly when `m` is paired,
      and a second trip changes nothing. */
  lemma MetadataSettles(m: Metadata)
    ensures FromPacket(ToPacket(m)) == Delivered(m)
    ensures Delivered(m) == m <==> Paired(m)
    ensures Delivered(Delivered(m)) == Delivered(m)
  {}

  /** Metadata written to the wire is read back as `Delivered(m)`, with nothing left over. */
  lemma MetadataTrip(m: Metadata, rest: seq<u8>)
    ensures var r := PopAttrs(PushAttrs(ToPacket(m)) + rest);
            r.Ok? && FromPacket(r.value) == Delivered(m) && r.rest == rest
  {
    var a := ToPacket(m);
    AttrsTrip(a, rest);
    MetadataSettles(m);
  }
}
