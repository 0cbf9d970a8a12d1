/** Preparing the slots of a new name and looking names up in a listing. */
module NameEntries {

  import opened Base
  import opened Slots
  import opened LongNames
  import opened ShortNames
  import opened DirectoryParser
  import opened DirectoryEdits

  // -------------------------------------------------------------------- lookup

  predicate Matches(name: string, short: ShortName, wanted: string) {
    EqIgnoreCase(name, wanted) || EqIgnoreCase(ShortText(short), wanted)
  }

  /** The first entry that matches, by long name or by 8.3 alias. */
  method FindParsedEntry(parsed: seq<LocatedEntry>, wanted: string) returns (r: Option<nat>)
    ensures r.Some? ==> r.value < |parsed| && Matches(parsed[r.value].name, Name(parsed[r.value].entry), wanted)
    ensures forall j :: 0 <= j < (if r.Some? then r.value else |parsed|) ==>
              !Matches(parsed[j].name, Name(parsed[j].entry), wanted)
  {
    hide Matches;
    for j := 0 to |parsed|
      invariant forall k :: 0 <= k < j ==> !Matches(parsed[k].name, Name(parsed[k].entry), wanted)
    {
      if Matches(parsed[j].name, Name(parsed[j].entry), wanted) {
        return Some(j);
      }
    }
    return None;
  }

  ghost predicate Absent(es: seq<Entry>, wanted: string) {
    forall j :: 0 <= j < |es| ==> !Matches(es[j].name, Name(es[j].slot), wanted)
  }

  /** Names the driver stores so that they read back: ASCII, no trailing dot. */
  predicate Plain(name: string) {
    AllAscii(name) && name != "" && name[|name| - 1] != '.'
  }

  // --------------------------------------------------------------- preparation

  /** `longs` are the slots of `units`, last chunk first, for one checksum. */
  ghost predicate AreLongSlots(longs: seq<Slot>, units: seq<Unit>, checksum: Byte) {
    && |longs| == ChunkCount(|units|)
    && |longs| <= MAX_LONG_SLOTS
    && forall q :: 0 <= q < |longs| ==>
         IsLongEntry(longs[q], |longs| - q, q == 0, checksum, Chunk(units, |longs| - 1 - q))
  }

  method LongSlots(units: seq<Unit>, checksum: Byte) returns (longs: seq<Slot>)
    requires |units| <= MAX_UNITS
    ensures AreLongSlots(longs, units, checksum)
  {
    hide IsLongEntry, Chunk;
    longs := [];
    var count := ChunkCount(|units|);
    var index := count;
    while index > 0
      invariant 0 <= index <= count && |longs| == count - index
      invariant forall q :: 0 <= q < |longs| ==>
                  IsLongEntry(longs[q], count - q, q == 0, checksum, Chunk(units, count - 1 - q))
    {
      index := index - 1;
      var slot := NewLongEntry(index + 1, index == count - 1, checksum, Chunk(units, index));
      longs := longs + [slot];
    }
  }

  lemma LongSlotMember(s: Slot, sequence: Byte, count: nat, checksum: Byte, units: seq<Unit>)
    requires 1 <= sequence <= count <= MAX_LONG_SLOTS
    requires IsLongEntry(s, sequence, sequence == count, checksum, units)
    ensures Member(s, sequence, count, checksum)
  {
  }

  lemma {:induction false} LongSlotsJoin(longs: seq<Slot>, units: seq<Unit>, checksum: Byte, run: seq<Slot>, k: nat)
    requires AreLongSlots(longs, units, checksum) && k <= |longs| <= |run|
    requires forall q :: 0 <= q < |longs| ==> run[q] == longs[q]
    ensures Joined(run, |longs|, k) == Stored(units, k)
  {
    if k > 0 {
      LongSlotsJoin(longs, units, checksum, run, k - 1);
      var q := |longs| - k;
      assert IsLongEntry(longs[q], |longs| - q, q == 0, checksum, Chunk(units, |longs| - 1 - q));
    }
  }

  /** The prepared slots, followed by any entry with the short name, are a run. */
  lemma LongSlotsRun(name: string, longs: seq<Slot>, s: Slot)
    requires EncodeLongName(name).Some?
    requires AreLongSlots(longs, EncodeLongName(name).value, Checksum(Name(s)))
    requires !IsEnd(s) && IsShortEntry(s)
    ensures IsRun(longs + [s], name) && longs != []
  {
    hide Stored, Joined, DecodeLongName, EncodeLongName, Checksum;
    var units, m, run := EncodeLongName(name).value, |longs|, longs + [s];
    StoredRoundTrip(name);
    LongSlotsJoin(longs, units, Checksum(Name(s)), run, m);
    forall q | 0 <= q < m ensures Member(run[q], m - q, m, Checksum(Name(run[m]))) {
      assert IsLongEntry(longs[q], m - q, q == 0, Checksum(Name(s)), Chunk(units, m - 1 - q));
      LongSlotMember(longs[q], m - q, m, Checksum(Name(s)), Chunk(units, m - 1 - q));
    }
  }

  /** What preparing `name` next to the taken short names must deliver. */
  ghost predicate Prepared(name: string, taken: seq<ShortName>, short: ShortName, longs: seq<Slot>) {
    && Legal(short)
    && (longs == [] ==> ShortOf(name) == Some(short))
    && (longs != [] ==> EncodeLongName(name).Some? && ShortOf(name).None? && short !in taken)
    && (longs != [] ==> AreLongSlots(longs, EncodeLongName(name).value, Checksum(short)))
  }

  /** The name under which a prepared entry is listed. */
  ghost function StoredName(name: string, short: ShortName, longs: seq<Slot>): string {
    if longs == [] then ShortText(short) else name
  }

  /** The name under which an entry created as `name` is listed. */
  ghost function StoredAs(name: string): string {
    if ShortOf(name).Some? then ShortText(ShortOf(name).value) else name
  }

  lemma StoredNameIs(name: string, taken: seq<ShortName>, short: ShortName, longs: seq<Slot>)
    requires Prepared(name, taken, short, longs)
    ensures StoredName(name, short, longs) == StoredAs(name)
    ensures ShortOf(name).Some? || EncodeLongName(name).Some?
  {
    hide ShortOf, EncodeLongName, ShortText, AreLongSlots, Legal;
  }

  method PrepareNameEntries(taken: seq<ShortName>, name: string) returns (r: Option<(ShortName, seq<Slot>)>)
    ensures r.Some? ==> Prepared(name, taken, r.value.0, r.value.1)
    ensures ShortOf(name).None? && EncodeLongName(name).None? ==> r.None?
    ensures |taken| < MAX_TAIL && (ShortOf(name).Some? || EncodeLongName(name).Some?) ==> r.Some?
  {
    hide ShortOf, EncodeLongName, Legal, IsLongEntry, Checksum, Alias;
    var short := GetFatFilename(name);
    if short.Some? {
      ShortOfLegal(name);
      return Some((short.value, []));
    }
    var units := EncodeLongName(name);
    if units.None? {
      return None;
    }
    EncodedLength(name);
    var alias := GenerateShortAlias(name, taken);
    if alias.None? {
      return None;
    }
    var longs := LongSlots(units.value, Checksum(alias.value));
    return Some((alias.value, longs));
  }

  lemma EncodedLength(name: string)
    requires EncodeLongName(name).Some?
    ensures 1 <= |EncodeLongName(name).value| <= MAX_UNITS
  {
    EncodedHasNoNul(name);
  }

  /** Prepared slots plus their entry form a run listed under the stored name. */
  lemma PreparedRun(name: string, taken: seq<ShortName>, short: ShortName, longs: seq<Slot>, s: Slot)
    requires Prepared(name, taken, short, longs) && Name(s) == short && IsShortEntry(s)
    ensures IsRun(longs + [s], StoredName(name, short, longs))
  {
    hide ShortOf, EncodeLongName, AreLongSlots, Checksum;
    assert short[0] == s[0] && !IsEnd(s);
    if longs != [] {
      LongSlotsRun(name, longs, s);
    } else {
      assert longs + [s] == [s];
    }
  }

  // ---------------------------------------------------- distinctness and lookup

  /** A prepared name that matches nothing has an unused short name. */
  lemma PreparedIsNew(name: string, es: seq<Entry>, taken: seq<ShortName>, short: ShortName, longs: seq<Slot>, j: nat)
    requires Plain(name) && Absent(es, name) && j < |es|
    requires |taken| == |es| && forall k :: 0 <= k < |es| ==> taken[k] == Name(es[k].slot)
    requires Prepared(name, taken, short, longs)
    ensures Name(es[j].slot) != short
  {
    if longs == [] {
      ShortRoundTrip(name);
      assert !Matches(es[j].name, Name(es[j].slot), name);
    } else {
      assert taken[j] in taken;
    }
  }

  /** The new entry matches the name it was created under. */
  lemma PreparedMatches(name: string, taken: seq<ShortName>, short: ShortName, longs: seq<Slot>)
    requires Plain(name) && Prepared(name, taken, short, longs)
    ensures Matches(StoredName(name, short, longs), short, name)
  {
    if longs == [] {
      ShortRoundTrip(name);
    }
  }
}
