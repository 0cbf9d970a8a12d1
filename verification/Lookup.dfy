/** Listing a directory of a volume and finding entries by name. */
module Lookup {

  import opened Base
  import opened Slots
  import opened FatTable
  import opened Ownership
  import opened LongNames
  import opened ShortNames
  import opened DirectoryParser
  import opened DirectoryEdits
  import opened NameEntries
  import opened ClusterData
  import opened FatVolume
  import opened FileData
  import opened Forest
  import opened TreeEdits
  import opened TreeOps
  import opened VolumeState
  import opened ResizeState
  import opened FileResize
  import opened FileAccess
  import opened DirectoryState
  import opened DirectorySlots

  // ------------------------------------------------------------------- listings

  ghost function ListingOf(v: Volume, d: nat): seq<Entry>
    reads v
  {
    Listing(SlotsOf(v, d))
  }

  /** `es'` is `es`, in order, with `e` put in somewhere. */
  ghost predicate Gained(es: seq<Entry>, e: Entry, es': seq<Entry>) {
    exists k: nat :: k <= |es| && es' == es[..k] + [e] + es[k..]
  }

  lemma GainedAt(es: seq<Entry>, e: Entry, es': seq<Entry>, pre: seq<Entry>, post: seq<Entry>)
    requires es == pre + post && es' == pre + [e] + post
    ensures Gained(es, e, es')
  {
    var k := |pre|;
    assert es[..k] == pre && es[k..] == post;
  }

  /** Every listed entry is the live one at its own slot. */
  lemma {:induction false} EntriesAreLive(ss: seq<Slot>, lo: nat, hi: nat, j: nat)
    requires lo <= hi <= |ss| && j < |Entries(ss, lo, hi)|
    ensures var e := Entries(ss, lo, hi)[j];
            lo <= e.index < hi && IsShortEntry(ss[e.index]) && e == EntryAt(ss, e.index)
  {
    hide EntryAt, IsShortEntry;
    if lo < hi && j < |Entries(ss, lo, hi - 1)| {
      EntriesAreLive(ss, lo, hi - 1, j);
    }
  }

  /** A listing runs through the slots in order, so it never repeats an entry. */
  lemma {:induction false} EntriesAscend(ss: seq<Slot>, lo: nat, hi: nat, j: nat, k: nat)
    requires lo <= hi <= |ss| && j < k < |Entries(ss, lo, hi)|
    ensures Entries(ss, lo, hi)[j].index < Entries(ss, lo, hi)[k].index
  {
    hide EntryAt, IsShortEntry;
    var front := Entries(ss, lo, hi - 1);
    if k < |front| {
      EntriesAscend(ss, lo, hi - 1, j, k);
    } else {
      EntriesAreLive(ss, lo, hi - 1, j);
    }
  }

  lemma ListingAt(ss: seq<Slot>, j: nat)
    requires j < |Listing(ss)|
    ensures var e := Listing(ss)[j]; Live(ss, e.index) && e.index < |ss| && e == EntryAt(ss, e.index)
  {
    hide EntryAt;
    EntriesAreLive(ss, 0, End(ss), j);
  }

  /** Every live entry is listed. */
  lemma {:induction false} LiveIsListed(ss: seq<Slot>, i: nat)
    requires Live(ss, i)
    ensures i < |ss| && EntryAt(ss, i) in Listing(ss)
  {
    hide EntryAt, Live, Entries;
    ListingAround(ss, i);
    assert (Entries(ss, 0, i) + [EntryAt(ss, i)])[|Entries(ss, 0, i)|] == EntryAt(ss, i);
  }

  /** The short names of the live entries are pairwise distinct. */
  ghost predicate DistinctNames(ss: seq<Slot>) {
    forall i: nat, j: nat :: Live(ss, i) && Live(ss, j) && i != j ==> Name(ss[i]) != Name(ss[j])
  }

  // --------------------------------------------------------------------- lookup

  /** `found` is what the parser reports for the live entry `i` of `d`. */
  ghost predicate IsEntry(v: Volume, d: nat, i: nat, found: LocatedEntry)
    reads v
  {
    && d in v.layout.chains && Live(SlotsOf(v, d), i)
    && i < |DirLocations(v.layout.chains[d], v.clusterSize / SLOT_SIZE)|
    && found == Locate(EntryAt(SlotsOf(v, d), i), DirLocations(v.layout.chains[d], v.clusterSize / SLOT_SIZE))
  }

  ghost predicate EntryMatches(e: Entry, wanted: string) {
    Matches(e.name, Name(e.slot), wanted)
  }

  method ReadEntries(v: Volume, dirCluster: nat) returns (r: Option<seq<LocatedEntry>>)
    requires Good(v) && dirCluster in v.layout.dirs
    ensures dirCluster in v.layout.chains
    ensures r.Some? ==> Located(ListingOf(v, dirCluster),
              DirLocations(v.layout.chains[dirCluster], v.clusterSize / SLOT_SIZE), r.value)
    ensures v.reliable ==> r.Some?
  {
    hide Consistent, DirSlots, DirLocations, Listing, Located, OnDisk, Shaped, IsChain;
    DirFacts(v, dirCluster);
    var loaded := LoadDirectorySlots(v, dirCluster, v.layout.chains[dirCluster]);
    if loaded.None? {
      return None;
    }
    var parsed := ParseDirectoryEntries(loaded.value.0);
    return Some(parsed);
  }

  lemma LocatedIsEntry(v: Volume, d: nat, parsed: seq<LocatedEntry>, j: nat)
    requires d in v.layout.chains && j < |parsed|
    requires Located(ListingOf(v, d), DirLocations(v.layout.chains[d], v.clusterSize / SLOT_SIZE), parsed)
    ensures j < |ListingOf(v, d)| == |parsed| && IsEntry(v, d, ListingOf(v, d)[j].index, parsed[j])
    ensures parsed[j].name == ListingOf(v, d)[j].name && parsed[j].entry == ListingOf(v, d)[j].slot
  {
    hide DirSlots, DirLocations, Listing, EntryAt, Live;
    ListingAt(SlotsOf(v, d), j);
  }

  /** Nothing listed before `i` matches; `i` does. */
  ghost predicate FirstMatch(ss: seq<Slot>, wanted: string, i: nat) {
    && i < |ss| && EntryMatches(EntryAt(ss, i), wanted)
    && exists j :: 0 <= j < |Listing(ss)| && Listing(ss)[j].index == i
                   && forall k :: 0 <= k < j ==> !EntryMatches(Listing(ss)[k], wanted)
  }

  method FindEntryByName(v: Volume, dirCluster: nat, name: string) returns (r: Option<LocatedEntry>, ghost i: nat)
    requires Good(v) && dirCluster in v.layout.dirs
    ensures r.Some? ==> IsEntry(v, dirCluster, i, r.value) && FirstMatch(SlotsOf(v, dirCluster), name, i)
    ensures r.None? && v.reliable ==> Absent(ListingOf(v, dirCluster), name)
  {
    hide Consistent, DirSlots, DirLocations, Listing, Located, IsEntry, FirstMatch, Matches;
    i := 0;
    var parsed := ReadEntries(v, dirCluster);
    if parsed.None? {
      return None, 0;
    }
    var found := FindParsedEntry(parsed.value, name);
    LookupMeans(v, dirCluster, parsed.value, name, if found.Some? then found.value else |parsed.value|);
    if found.None? {
      return None, 0;
    }
    i := ListingOf(v, dirCluster)[found.value].index;
    return Some(parsed.value[found.value]), i;
  }

  lemma LookupMeans(v: Volume, d: nat, parsed: seq<LocatedEntry>, name: string, n: nat)
    requires d in v.layout.chains && n <= |parsed|
    requires Located(ListingOf(v, d), DirLocations(v.layout.chains[d], v.clusterSize / SLOT_SIZE), parsed)
    requires forall j :: 0 <= j < n ==> !Matches(parsed[j].name, Name(parsed[j].entry), name)
    requires n < |parsed| ==> Matches(parsed[n].name, Name(parsed[n].entry), name)
    ensures |ListingOf(v, d)| == |parsed|
    ensures n == |parsed| ==> Absent(ListingOf(v, d), name)
    ensures n < |parsed| ==>
              var i := ListingOf(v, d)[n].index;
              IsEntry(v, d, i, parsed[n]) && FirstMatch(SlotsOf(v, d), name, i)
  {
    hide DirSlots, DirLocations, Listing, Matches, EntryAt, IsEntry, Live;
    assert |ListingOf(v, d)| == |parsed|;
    forall j | 0 <= j < |parsed|
      ensures parsed[j].name == ListingOf(v, d)[j].name && parsed[j].entry == ListingOf(v, d)[j].slot
    {
      LocatedIsEntry(v, d, parsed, j);
    }
    if n < |parsed| {
      LocatedIsEntry(v, d, parsed, n);
      ListingAt(SlotsOf(v, d), n);
    }
  }
}
