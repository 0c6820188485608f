/**
 The store as the mutable object that the client shares between connections.
 */
module KnownHostsStore {
  import opened Bytes
  import opened KnownHosts
  import opened KnownHostsTrust
  import opened KnownHostsText
  import opened KnownHostsRoundTrip

  class Store {
    var entries: seq<Entry>
    var warnings: seq<Warning>

    constructor ()
      ensures entries == [] && warnings == []
    {
      entries, warnings := [], [];
    }

    /** `check`: one pass with two flags, cut short by a revoked entry. */
    method CheckKey(host: string, port: u16, key: Option<seq<u8>>) returns (v: Verdict)
      ensures v == Check(entries, host, port, key)
    {
      hide HostMatches;
      if key.None? {
        return NotFound;
      }
      var sawMatch, sawMismatch := false, false;
      ghost var all := VerdictOf(entries, host, port, key.value);
      var i := 0;
      while i < |entries|
        invariant 0 <= i <= |entries|
        invariant all == Join(if sawMatch then Match else if sawMismatch then Changed else NotFound,
                              VerdictOf(entries[i..], host, port, key.value))
      {
        var e := entries[i];
        assert entries[i..][0] == e && entries[i..][1..] == entries[i + 1..];
        if HostMatches(e.hostname, host) && (e.port == 0 || e.port == port) {
          if e.revoked {
            return Revoked;
          }
          if e.keyBlob == key.value {
            sawMatch := true;
          } else {
            sawMismatch := true;
          }
        }
        i := i + 1;
      }
      return if sawMatch then Match else if sawMismatch then Changed else NotFound;
    }

    /** `add_entry`; a key that cannot be serialised is an error and changes nothing. */
    method AddEntry(host: string, port: u16, key: Option<seq<u8>>, algorithm: string) returns (ok: bool)
      modifies this
      ensures ok == key.Some? && warnings == old(warnings)
      ensures entries == if ok then Added(old(entries), host, port, key.value, algorithm) else old(entries)
      ensures ok ==> entries[|entries| - 1] == Entry(host, port, algorithm, key.value, None, false)
                     && entries[..|entries| - 1] == Retain(old(entries), host, port)
    {
      hide Displaced;
      if key.None? {
        return false;
      }
      var kept := [];
      for i := 0 to |entries|
        invariant entries == old(entries) && warnings == old(warnings)
        invariant Retain(entries, host, port) == kept + Retain(entries[i..], host, port)
      {
        assert entries[i..][0] == entries[i] && entries[i..][1..] == entries[i + 1..];
        if !Displaced(entries[i], host, port) {
          AppendAssociates(kept, [entries[i]], Retain(entries[i + 1..], host, port));
          kept := kept + [entries[i]];
        } else {
          assert [] + Retain(entries[i + 1..], host, port) == Retain(entries[i + 1..], host, port);
        }
      }
      assert kept + [] == kept;
      entries := kept + [NewEntry(host, port, key.value, algorithm)];
      return true;
    }

    /** `merge`. */
    method Merge(other: Store)
      modifies this
      ensures entries == old(entries) + old(other.entries)
      ensures warnings == old(warnings) + old(other.warnings)
      ensures forall host, port: u16, key: seq<u8> ::
                VerdictOf(entries, host, port, key).Rank() >= VerdictOf(old(entries), host, port, key).Rank()
    {
      ghost var mine, theirs := entries, other.entries;
      entries, warnings := entries + other.entries, warnings + other.warnings;
      forall host, port: u16, key: seq<u8>
        ensures VerdictOf(mine + theirs, host, port, key).Rank() >= VerdictOf(mine, host, port, key).Rank()
      {
        VerdictJoins(mine, theirs, host, port, key);
      }
    }

    /** `check_server_key` for a client that has a store: a look under the read lock, then, after
        whatever additions other connections get in between, an addition under the write lock. */
    method CheckServerKey(a: Attempt, acceptNew: bool, between: seq<Attempt>) returns (d: Decision)
      modifies this
      ensures warnings == old(warnings)
      ensures var verdict := Check(old(entries), a.host, a.port, a.key);
              && d == DecisionFor(verdict, acceptNew)
              && entries
                 == AddAll(old(entries), between + if verdict == NotFound && acceptNew then [a] else [])
    {
      hide VerdictOf, Added;
      var status := CheckKey(a.host, a.port, a.key);
      ghost var first := entries;
      for i := 0 to |between|
        invariant warnings == old(warnings) && AddAll(first, between) == AddAll(entries, between[i..])
      {
        var other := between[i];
        assert between[i..][0] == other && between[i..][1..] == between[i + 1..];
        var _ := AddEntry(other.host, other.port, other.key, other.algorithm);
      }
      ghost var mine := if status == NotFound && acceptNew then [a] else [];
      AddAllAppend(first, between, mine);
      assert mine != [] ==> mine[1..] == [];
      match status {
        case Match => return Accept;
        case Revoked => return KeyRevoked;
        case Changed => return KeyChanged;
        case NotFound =>
          if acceptNew {
            var _ := AddEntry(a.host, a.port, a.key, a.algorithm);
            return Accept;
          }
          return Reject;
      }
    }

    /** The print loop of `save`. */
    method Print(b: Base64) returns (output: string)
      ensures output == PrintEntries(b, entries)
    {
      hide PrintEntry;
      output := "";
      for i := 0 to |entries|
        invariant PrintEntries(b, entries) == output + PrintEntries(b, entries[i..])
      {
        assert entries[i..][0] == entries[i] && entries[i..][1..] == entries[i + 1..];
        AppendAssociates(output, PrintEntry(b, entries[i]) + "\n", PrintEntries(b, entries[i + 1..]));
        output := output + (PrintEntry(b, entries[i]) + "\n");
      }
      assert output + "" == output;
    }

    /** Loading a file's content into this store: `parse_known_hosts_content` line by line. */
    method Load(b: Base64, content: string)
      modifies this
      ensures Content(entries, warnings) == ParseContent(b, content)
    {
      hide ParseLine, Lines;
      var lines := Lines(content);
      entries, warnings := [], [];
      for i := 0 to |lines|
        invariant var rest := ParseLines(b, lines[i..], i + 1);
                  ParseLines(b, lines, 1) == Content(entries + rest.entries, warnings + rest.warnings)
      {
        var parsed := ParseLine(b, lines[i], i + 1);
        ghost var rest := ParseLines(b, lines[i + 1..], i + 2);
        assert lines[i..][0] == lines[i] && lines[i..][1..] == lines[i + 1..];
        AppendAssociates(entries, parsed.entries, rest.entries);
        AppendAssociates(warnings, parsed.warnings, rest.warnings);
        entries, warnings := entries + parsed.entries, warnings + parsed.warnings;
      }
      assert entries + [] == entries && warnings + [] == warnings;
    }

    /** A saved store loaded into a fresh one answers every query on port 22 as before. */
    method SaveThenLoad(b: Base64) returns (copy: Store)
      requires Faithful(b)
      ensures fresh(copy) && (copy.entries == LoadedAll(entries) <==> AllPrintable(entries))
      ensures AllPrintable(entries) ==>
                copy.warnings == []
                && forall host, key: seq<u8> ::
                     VerdictOf(copy.entries, host, 22, key) == VerdictOf(entries, host, 22, key)
    {
      hide Faithful, AllPrintable, ParseContent, PrintEntries, VerdictOf, LoadedAll;
      var output := Print(b);
      copy := new Store();
      copy.Load(b, output);
      SaveLoad(b, entries);
      forall host, key: seq<u8> | AllPrintable(entries)
        ensures VerdictOf(copy.entries, host, 22, key) == VerdictOf(entries, host, 22, key)
      {
        LoadedVerdictUnchanged(entries, host, 22, key);
      }
    }
  }
}
