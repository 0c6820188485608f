/**
 Directory listing: `SftpDir::read` hands out entries one by one from batches that the handler
 returns and the NAME encoding carries. The reader's 16-bytes-per-entry cap can shorten a batch,
 and a batch shortened to nothing looks like the end of the directory; the laws below are exact.
 */
module Listing {
  import opened Bytes
  import opened Codec
  import opened Attributes
  import opened Packets
  import opened Responses
  import opened SftpServer
  import opened SftpClient
  import opened Pipeline
  import opened SftpApi

  type Batch = Outcome<seq<DirEntry>>

  /** The response to the batch fits one frame. */
  predicate Framed(b: Batch) {
    1 + |ResponsePayload(0, RespondBatch(b))| <= MAX_SFTP_PACKET_SIZE
  }

  /** Bytes that the entries take in a NAME response. */
  function Size(es: seq<DirEntry>): nat {
    |PushEntries(ToNameEntries(es))|
  }

  /** The entries of a batch that reach the caller. */
  function Received(es: seq<DirEntry>): seq<DirEntry> {
    DeliveredEntries(es)[..Min(|es|, Size(es) / 16)]
  }

  /** `readdir_batch`: the response to the batch, encoded, decoded and interpreted. */
  function ReaddirBatch(id: u32, handle: Text, b: Batch): Value {
    var packet := [ResponseType(RespondBatch(b))] + ResponsePayload(id, RespondBatch(b));
    var reply := DecodePacket(packet);
    ApiResult(Readdir(handle), CompletionOf(reply))
  }

  lemma {:induction false} PushEntriesLong(es: seq<NameEntry>)
    ensures |PushEntries(es)| >= 12 * |es|
  {
    hide U32Bytes, PushAttrs;
    if es == [] {
    } else {
      PushEntriesLong(es[1..]);
      assert |PushAttrs(es[0].attrs)| >= 4 by { AttrsTakeAWord(es[0].attrs); }
    }
  }

  lemma AttrsTakeAWord(a: FileAttrs)
    ensures |PushAttrs(a)| >= 4
  {}

  /** What one call of `readdir_batch` yields, for every batch that fits a frame. */
  lemma BatchReceived(id: u32, handle: Text, b: Batch)
    requires Framed(b)
    ensures ReaddirBatch(id, handle, b)
            == match b
               case Done(es) => EntriesOf(Received(es))
               case Refused(e) => Error(Reported(e))
  {
    hide U32Bytes, U32Of, PushEntries, ToNameEntries, DeliveredEntries, ErrorStatus, Reported, Ascii, ResponseBody,
         DecodeBody;
    if b.Done? && b.value != [] {
      NamesReceived(id, b.value);
    } else {
      var r := RespondBatch(b);
      if b.Refused? {
        ErrorsReported(b.error);
        RefusedIsReported(b);
      } else {
        assert DeliveredEntries([]) == [];
      }
      StatusFits(id, r);
      ResponseTrip(id, r);
      var packet := [ResponseType(r)] + ResponsePayload(id, r);
      assert packet[1..] == ResponsePayload(id, r);
    }
  }

  lemma StatusFits(id: u32, r: Response)
    requires r.Status? && 1 + |ResponsePayload(0, r)| <= MAX_SFTP_PACKET_SIZE
    ensures ResponseFits(r)
  {
    hide U32Bytes, Ascii;
  }

  lemma NamesReceived(id: u32, es: seq<DirEntry>)
    requires es != [] && Framed(Done(es))
    ensures var packet := [FXP_NAME] + ResponsePayload(id, Name(ToNameEntries(es)));
            DecodePacket(packet).Reply? && DecodePacket(packet).response.Name?
            && FromNameEntries(DecodePacket(packet).response.entries) == Received(es)
  {
    hide U32Bytes, U32Of, PushEntries, PopEntries, InNormalForm, HasExtended, NormalForm, Delivered, ToPacket,
         FromPacket;
    var ns := ToNameEntries(es);
    forall i | 0 <= i < |ns|
      ensures EntryFits(ns[i])
    {
      EntrySizes(ns, i);
    }
    PushEntriesLong(ns);
    NamePrefix(ns);
    var k := NameCount(|ns| % TWO_32, |PushEntries(ns)|);
    assert k == Min(|es|, Size(es) / 16);
    var packet := [FXP_NAME] + ResponsePayload(id, Name(ns));
    assert packet[1..] == ResponsePayload(id, Name(ns));
    PopPushU32(id, ResponseBody(Name(ns)));
    EntriesDelivered(es);
    NormalEntriesAre(ns[..k]);
    hide ResponseBody, DecodeName, ToNameEntries;
    assert FromNameEntries(ns[..k]) == FromNameEntries(ns)[..k];
  }

  /** Nothing of a batch is lost exactly when it has 16 bytes per entry. */
  lemma BatchComplete(es: seq<DirEntry>)
    ensures Received(es) == DeliveredEntries(es) <==> Size(es) >= 16 * |es|
  {
    hide PushEntries, DeliveredEntries, ToNameEntries;
    assert |Received(es)| == Min(|es|, Size(es) / 16);
  }

  // The cursor ------------------------------------------------------------------------------------------

  datatype Item = Next(entry: DirEntry) | End | Failure(kind: ErrorKind)

  /** All entries handed out until `End` or the first error, for a handler that returns the
      batches of `script` and then empty ones. */
  function Heard(script: seq<Batch>): (seq<DirEntry>, Item) {
    if script == [] then ([], End) else
      match script[0]
      case Refused(e) => ([], Failure(Reported(e)))
      case Done(es) =>
        if Received(es) == [] then ([], End) else
          var (later, end) := Heard(script[1..]);
          (Received(es) + later, end)
  }

  class SftpDir {
    const handle: Text
    var script: seq<Batch>
    var pendingEntries: seq<DirEntry>

    /** Every batch still to come fits a frame. */
    ghost predicate Valid()
      reads this
    {
      forall i :: 0 <= i < |script| ==> Framed(script[i])
    }

    ghost function ToCome(): (seq<DirEntry>, Item)
      reads this
    {
      (pendingEntries + Heard(script).0, Heard(script).1)
    }

    constructor (handle: Text, script: seq<Batch>)
      requires forall i :: 0 <= i < |script| ==> Framed(script[i])
      ensures Valid() && this.script == script && pendingEntries == [] && ToCome() == Heard(script)
    {
      this.handle := handle;
      this.script := script;
      pendingEntries := [];
      new;
      assert [] + Heard(script).0 == Heard(script).0;
    }

    /** `SftpDir::read`. */
    method Read(id: u32) returns (item: Item)
      requires Valid()
      modifies this
      ensures Valid()
      ensures item.Next? ==> old(ToCome()) == ([item.entry] + ToCome().0, ToCome().1)
      ensures item.Next? ==>
                (|pendingEntries| < |old(pendingEntries)| && script == old(script)) || |script| < |old(script)|
      ensures !item.Next? ==> old(ToCome()) == ([], item)
      ensures !item.Next? ==> |script| <= |old(script)| && pendingEntries == old(pendingEntries)
    {
      hide Received, Framed, ReaddirBatch;
      if pendingEntries != [] {
        item := Next(pendingEntries[0]);
        assert pendingEntries == [pendingEntries[0]] + pendingEntries[1..];
        AppendAssociates([pendingEntries[0]], pendingEntries[1..], Heard(script).0);
        pendingEntries := pendingEntries[1..];
        return;
      }
      assert [] + Heard(script).0 == Heard(script).0;
      var batch: Batch := Done([]);
      if script != [] {
        batch := script[0];
        script := script[1..];
      } else {
        NothingFramed();
      }
      var value := ReaddirBatch(id, handle, batch);
      BatchReceived(id, handle, batch);
      if !value.EntriesOf? {
        return Failure(if value.Error? then value.kind else Protocol);
      }
      if value.entries == [] {
        return End;
      }
      item := Next(value.entries[0]);
      pendingEntries := value.entries[1..];
      assert value.entries == [value.entries[0]] + pendingEntries;
      AppendAssociates([value.entries[0]], pendingEntries, Heard(script).0);
    }
  }

  lemma NothingFramed()
    ensures Framed(Done([])) && Received([]) == []
  {
    hide U32Bytes;
  }

  /** Reading until there is no next entry yields exactly what is heard of the handler's batches. */
  method ListAll(dir: SftpDir, id: u32) returns (entries: seq<DirEntry>, end: Item)
    requires dir.Valid()
    modifies dir
    ensures (entries, end) == old(dir.ToCome())
  {
    hide Heard, Framed;
    entries := [];
    end := dir.Read(id);
    ghost var all := old(dir.ToCome());
    assert end.Next? ==> [] + ([end.entry] + dir.ToCome().0) == [end.entry] + dir.ToCome().0;
    while end.Next?
      invariant dir.Valid()
      invariant end.Next? ==> all == (entries + ([end.entry] + dir.ToCome().0), dir.ToCome().1)
      invariant !end.Next? ==> all == (entries, end)
      decreases |dir.script|, |dir.pendingEntries|, end.Next?
    {
      AppendAssociates(entries, [end.entry], dir.ToCome().0);
      entries := entries + [end.entry];
      end := dir.Read(id);
      assert !end.Next? ==> entries + [] == entries;
    }
  }

  // Completeness -------------------------------------------------------------------------------------------

  /** What the handler lists: its batches up to the first empty one or the first error. */
  function Listed(script: seq<Batch>): (seq<DirEntry>, Item) {
    if script == [] then ([], End) else
      match script[0]
      case Refused(e) => ([], Failure(Reported(e)))
      case Done(es) =>
        if es == [] then ([], End) else
          var (later, end) := Listed(script[1..]);
          (DeliveredEntries(es) + later, end)
  }

  /** Each of those batches has 16 bytes per entry. */
  predicate Roomy(script: seq<Batch>) {
    script == [] || script[0].Refused? || script[0].value == []
    || (Size(script[0].value) >= 16 * |script[0].value| && Roomy(script[1..]))
  }

  lemma {:induction false} HeardIsShorter(script: seq<Batch>)
    ensures if Roomy(script) then Heard(script) == Listed(script) else |Heard(script).0| < |Listed(script).0|
  {
    hide Size, DeliveredEntries;
    if script == [] || script[0].Refused? {
    } else {
      var es := script[0].value;
      HeardIsShorter(script[1..]);
      BatchComplete(es);
      assert |Received(es)| == Min(|es|, Size(es) / 16) && |DeliveredEntries(es)| == |es|;
    }
  }

  /** A listing is the concatenation, in order, of the handler's batches up to the first empty one,
      or up to its first error, exactly when each of them has 16 bytes per entry. */
  lemma ListingComplete(script: seq<Batch>)
    ensures Heard(script) == Listed(script) <==> Roomy(script)
  {
    HeardIsShorter(script);
  }

  /** The failing family: a batch of one entry shorter than 16 bytes ends the listing unseen. */
  lemma ShortEntryEndsListing(e: DirEntry, later: seq<Batch>)
    requires Size([e]) < 16
    ensures Heard([Done([e])] + later) == ([], End)
  {
    hide Size;
    assert ([Done([e])] + later)[0] == Done([e]);
  }

  /** There is such an entry: a one-letter name with nothing else takes 13 bytes. */
  lemma ShortEntryExists()
    ensures Size([DirEntry(Ascii("a"), [], Metadata(None, None, None, None, None, None))]) == 13
  {
    hide U32Bytes, U64Bytes;
    var e := DirEntry(Ascii("a"), [], Metadata(None, None, None, None, None, None));
    assert ToNameEntries([e])[0] == ToNameEntry(e);
    assert ToNameEntries([e])[1..] == [];
  }
}
