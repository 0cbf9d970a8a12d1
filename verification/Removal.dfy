/** Removing files and empty directories from a consistent volume. */
module Removal {

  import opened Base
  import opened Slots
  import opened FatTable
  import opened Ownership
  import opened ShortNames
  import opened DirectoryParser
  import opened DirectoryEdits
  import opened NameEntries
  import opened ClusterData
  import opened FatVolume
  import opened FileData
  import opened Forest
  import opened TreeEdits
  import opened TreeOps
  import opened VolumeState
  import opened ResizeState
  import opened FileResize
  import opened DirectoryState
  import opened DirectorySlots
  import opened Lookup

  // ------------------------------------------------------------------- marking slots

  /** The slots `[lo, lo + k)` are marked deleted. */
  ghost predicate Marking(ss: seq<Slot>, lo: nat, k: nat, ss': seq<Slot>) {
    && |ss'| == |ss| && lo + k <= |ss|
    && forall q :: 0 <= q < |ss| ==> ss'[q] == if lo <= q < lo + k then MarkDeleted(ss[q]) else ss[q]
  }

  lemma MarkingNext(ss: seq<Slot>, lo: nat, k: nat, ss': seq<Slot>)
    requires Marking(ss, lo, k, ss') && lo + k < |ss|
    ensures ss'[lo + k] == ss[lo + k]
    ensures Marking(ss, lo, k + 1, WithSlot(ss', lo + k, MarkDeleted(ss[lo + k])))
  {
  }

  lemma MarkingNone(ss: seq<Slot>, lo: nat)
    requires lo <= |ss|
    ensures Marking(ss, lo, 0, ss)
  {
  }

  lemma MarkingLength(ss: seq<Slot>, lo: nat, k: nat, ss': seq<Slot>)
    requires Marking(ss, lo, k, ss')
    ensures |ss'| == |ss| && lo + k <= |ss|
  {
  }

  lemma MarkingAll(ss: seq<Slot>, i: nat, k: nat, ss': seq<Slot>)
    requires i < |ss| && k == EntryAt(ss, i).longSlots && Marking(ss, i - k, k + 1, ss')
    ensures ss' == Deleted(ss, i)
  {
    hide EntryAt;
  }

  /** What an entry found by the parser says about the slots behind it. */
  lemma EntryPlaces(v: Volume, d: nat, i: nat, found: LocatedEntry)
    requires Good(v) && d in v.layout.dirs && IsEntry(v, d, i, found)
    ensures var ls := DirLocations(v.layout.chains[d], v.clusterSize / SLOT_SIZE);
            var k := |found.lfnLocations|;
            && |ls| == |SlotsOf(v, d)| && k <= i < |ls| && k == EntryAt(SlotsOf(v, d), i).longSlots
            && found.lfnLocations == ls[i - k..i] && found.location == ls[i] && found.entry == SlotsOf(v, d)[i]
  {
    hide Consistent, DirSlots, DirLocations, EntryAt, Live, Shaped, OnDisk;
    DirFacts(v, d);
  }

  lemma SlotAtPlace(g: Geometry, t: Table, disk: Disk, chains: Chains, d: nat, i: nat, at: Location)
    requires Sane(g) && Owned(t, chains, g.reserved) && Formatted(t, disk, g.clusterSize)
    requires d in chains && i < |DirSlots(disk, chains[d])|
    requires i < |DirLocations(chains[d], PerCluster(g))| && at == DirLocations(chains[d], PerCluster(g))[i]
    ensures InCluster(disk, at) && SlotAt(disk[at.cluster], at.index) == DirSlots(disk, chains[d])[i]
  {
    hide Owned, DirSlots, DirLocations, OthersUntouched, Formatted, Stored, WithSlot;
    StoreSlot(g, t, disk, chains, d, i, DirSlots(disk, chains[d])[i], at);
  }

  /** Marks the long-name slots of an entry, then the entry itself, deleted. */
  method MarkEntryDeleted(v: Volume, located: LocatedEntry, ghost d: nat, ghost i: nat) returns (ok: bool)
    requires Good(v) && d in v.layout.dirs && IsEntry(v, d, i, located)
    modifies v`disk
    ensures Formatted(v.Table(), v.disk, v.clusterSize) && OthersUntouched(old(v.disk), v.disk, v.layout.chains, d)
    ensures ok ==> i < |old(SlotsOf(v, d))| && SlotsOf(v, d) == Deleted(old(SlotsOf(v, d)), i)
    ensures v.reliable ==> ok
  {
    hide Tree, Owned, DirSlots, DirLocations, OthersUntouched, Formatted, Shaped, OnDisk, Marking, IsChain, WithSlot,
      InCluster, Kept, EntryAt, IsEntry, Deleted, SlotAt, Live;
    ghost var g, t, disk0, chains, ss0 := Geo(v), v.Table(), v.disk, v.layout.chains, SlotsOf(v, d);
    DirFacts(v, d);
    EntryPlaces(v, d, i, located);
    var count := |located.lfnLocations|;
    ghost var lo: nat := i - count;
    UntouchedSelf(disk0, chains, d);
    MarkingNone(ss0, lo);
    var k := 0;
    while k < count
      invariant 0 <= k <= count
      invariant Formatted(t, v.disk, v.clusterSize) && OthersUntouched(disk0, v.disk, chains, d)
      invariant Marking(ss0, lo, k, SlotsOf(v, d))
    {
      ghost var disk1 := v.disk;
      var at := located.lfnLocations[k];
      MarkingLength(ss0, lo, k, SlotsOf(v, d));
      MarkingNext(ss0, lo, k, SlotsOf(v, d));
      SlotAtPlace(g, t, v.disk, chains, d, lo + k, at);
      var entry := ReadDirectoryEntry(v, at);
      if entry.None? {
        return false;
      }
      StoreSlotInCluster(g, t, v.disk, chains, d, lo + k, MarkDeleted(ss0[lo + k]), at);
      var stored := PersistDirectoryEntry(v, at, MarkDeleted(entry.value));
      if !stored {
        TornSlot(g, t, disk1, chains, d, lo + k, entry.value, at, v.disk);
      }
      UntouchedTrans(disk0, disk1, v.disk, chains, d);
      if !stored {
        return false;
      }
      k := k + 1;
    }
    ghost var disk1 := v.disk;
    MarkingLength(ss0, lo, count, SlotsOf(v, d));
    MarkingNext(ss0, lo, count, SlotsOf(v, d));
    StoreSlotInCluster(g, t, v.disk, chains, d, i, MarkDeleted(ss0[i]), located.location);
    ok := PersistDirectoryEntry(v, located.location, MarkDeleted(located.entry));
    if ok {
      MarkingAll(ss0, i, count, SlotsOf(v, d));
    } else {
      TornSlot(g, t, disk1, chains, d, i, located.entry, located.location, v.disk);
    }
    UntouchedTrans(disk0, disk1, v.disk, chains, d);
  }

  // ---------------------------------------------------------------------- removing

  /** Removes a file, or a directory that holds nothing, and frees its chain. */
  method DeleteDirectoryEntry(v: Volume, located: LocatedEntry, ghost d: nat, ghost i: nat) returns (ok: bool)
    requires Good(v) && d in v.layout.dirs && IsEntry(v, d, i, located)
    requires Removable(ViewOf(v.disk, v.layout), located.entry, Cluster(located.entry))
    modifies v`disk, v`copies, v`layout, v.fat.words
    ensures ok ==> Good(v) && v.layout == Without(old(v.layout), Cluster(located.entry))
    ensures ok ==> i < |old(SlotsOf(v, d))| && SlotsOf(v, d) == Deleted(old(SlotsOf(v, d)), i)
    ensures ok ==> Preserved(old(v.disk), old(v.layout), v.disk, v.layout, {d, Cluster(located.entry)})
    ensures ok && Cluster(located.entry) == 0 ==> v.Table() == old(v.Table())
    ensures ok && Cluster(located.entry) in old(v.layout.chains) ==>
              v.Table() == Zeroed(old(v.Table()), old(v.layout.chains)[Cluster(located.entry)])
    ensures v.reliable ==> ok && (old(v.Synced()) ==> v.Synced())
    ensures !ok ==> v.Table() == old(v.Table()) && v.layout == old(v.layout) && v.copies == old(v.copies)
    ensures !ok ==> OthersUntouched(old(v.disk), v.disk, v.layout.chains, d)
  {
    hide Consistent, DirSlots, DirLocations, OthersUntouched, Formatted, Shaped, OnDisk, IsChain, EntryAt, IsEntry,
      Deleted, Removable, Preserved, Zeroed, Cluster, Live, Without;
    ghost var g, t0, disk0, l0 := Geo(v), v.Table(), v.disk, v.layout;
    var first := Cluster(located.entry);
    DirFacts(v, d);
    EntryIsLive(v, d, i, located);
    ghost var ss0 := SlotsOf(v, d);
    var marked := MarkEntryDeleted(v, located, d, i);
    if !marked {
      return false;
    }
    DeleteState(g, t0, disk0, l0, d, i, first, v.disk, ss0);
    if first == 0 {
      v.layout := Without(l0, 0);
      WithoutKeeps(l0, 0, d);
      return true;
    }
    var freed := v.fat.FreeChain(first);
    var persisted := v.PersistFat();
    v.layout := Without(l0, first);
    WithoutKeeps(l0, first, d);
    return true;
  }

  lemma EntryIsLive(v: Volume, d: nat, i: nat, found: LocatedEntry)
    requires IsEntry(v, d, i, found)
    ensures d in v.layout.chains && i < |SlotsOf(v, d)| && Live(SlotsOf(v, d), i) && found.entry == SlotsOf(v, d)[i]
  {
    hide DirSlots, DirLocations, EntryAt;
  }

  lemma WithoutKeeps(l: Layout, f: nat, d: nat)
    requires d in l.chains && f != d
    ensures d in Without(l, f).chains && Without(l, f).chains[d] == l.chains[d]
  {
  }

  /** The state after marking and freeing, and what freeing does to the table. */
  lemma DeleteState(g: Geometry, t: Table, disk: Disk, l: Layout, d: nat, i: nat, f: nat, disk': Disk, ss: seq<Slot>)
    requires d in l.dirs && d in l.chains && ss == DirSlots(disk, l.chains[d])
    requires i < |ss| && Live(ss, i) && DirSlots(disk', l.chains[d]) == Deleted(ss, i)
    requires Consistent(g, t, disk, l) && Removable(ViewOf(disk, l), ss[i], f)
    requires Formatted(t, disk', g.clusterSize) && OthersUntouched(disk, disk', l.chains, d)
    ensures f != d && (f != 0 ==> f in l.chains) && 0 !in l.chains
    ensures var t' := if f == 0 then t else FreeFrom(t, f).0;
            Consistent(g, t', disk', Without(l, f)) && Preserved(disk, l, disk', Without(l, f), {d, f})
    ensures f != 0 ==> FreeFrom(t, f) == (Zeroed(t, l.chains[f]), true)
  {
    hide Tree, DirSlots, Deleted, Removable, OthersUntouched, Formatted, Owned, Zeroed, Live, Preserved, Without,
      FreeFrom;
    TreeKeys(g.root, g.clusterSize, ViewOf(disk, l), l);
    DeleteCommit(g, t, disk, l, d, i, f, if f in l.chains then Zeroed(t, l.chains[f]) else t, disk');
    if f != 0 {
      OwnedParts(t, l.chains, g.reserved);
      ChainFreed(t, l.chains, f);
    }
  }

  lemma ChainFreed(t: Table, chains: Chains, f: nat)
    requires Sized(t) && AreChains(t, chains) && f in chains
    ensures FreeFrom(t, f) == (Zeroed(t, chains[f]), true)
  {
    hide IsChain, FreeFrom, Zeroed;
    ChainInRange(t, chains, f);
    FreeFromChain(t, chains[f]);
  }

  /** The listing loses exactly the entry of slot `i`; the others keep their order. */
  ghost predicate ListingLoses(ss: seq<Slot>, ss': seq<Slot>, i: nat) {
    && Live(ss, i) && !Live(ss', i) && i < |ss|
    && Gained(Listing(ss'), EntryAt(ss, i), Listing(ss))
  }

  lemma DeletedLoses(ss: seq<Slot>, i: nat)
    requires i < |ss| && Live(ss, i)
    ensures ListingLoses(ss, Deleted(ss, i), i)
    ensures DistinctNames(ss) ==> DistinctNames(Deleted(ss, i))
  {
    hide EntryAt, Entries, Deleted, Name, IsShortEntry;
    DeletionRemoves(ss, i);
    DeletionLive(ss, i, i);
    GainedAt(Listing(Deleted(ss, i)), EntryAt(ss, i), Listing(ss), Entries(ss, 0, i), Entries(ss, i + 1, End(ss)));
    forall j: nat | Live(Deleted(ss, i), j) ensures Live(ss, j) && Deleted(ss, i)[j] == ss[j] {
      DeletionLive(ss, i, j);
    }
  }

  // --------------------------------------------------------------------------- files

  lemma RegularRemovable(v: Volume, d: nat, i: nat, found: LocatedEntry)
    requires Good(v) && d in v.layout.dirs && IsEntry(v, d, i, found) && IsRegular(found.entry)
    ensures Removable(ViewOf(v.disk, v.layout), found.entry, Cluster(found.entry))
  {
    hide Tree, DirSlots, DirLocations, EntryAt, Live, Cluster, Empty, Owned, Formatted, IsNormal;
    var g, sl := Geo(v), ViewOf(v.disk, v.layout);
    EntryIsLive(v, d, i, found);
    TreeKeys(g.root, g.clusterSize, sl, v.layout);
    RegularHolds(g.root, g.clusterSize, sl, v.layout, d, i);
  }

  /** Removes the file a name leads to; refuses anything but a regular file. */
  method UnlinkFile(v: Volume, parentCluster: nat, name: string) returns (ok: bool, ghost i: nat)
    requires Good(v) && parentCluster in v.layout.dirs
    modifies v`disk, v`copies, v`layout, v.fat.words
    ensures ok ==> FirstMatch(old(SlotsOf(v, parentCluster)), name, i) && IsRegular(old(SlotsOf(v, parentCluster))[i])
    ensures ok ==> Good(v) && v.layout == Without(old(v.layout), Cluster(old(SlotsOf(v, parentCluster))[i]))
    ensures ok ==> SlotsOf(v, parentCluster) == Deleted(old(SlotsOf(v, parentCluster)), i)
    ensures ok ==> ListingLoses(old(SlotsOf(v, parentCluster)), SlotsOf(v, parentCluster), i)
    ensures ok ==> Preserved(old(v.disk), old(v.layout), v.disk, v.layout,
              {parentCluster, Cluster(old(SlotsOf(v, parentCluster))[i])})
    ensures ok && Cluster(old(SlotsOf(v, parentCluster))[i]) == 0 ==> v.Table() == old(v.Table())
    ensures ok && DistinctNames(old(SlotsOf(v, parentCluster))) ==> DistinctNames(SlotsOf(v, parentCluster))
    ensures v.reliable && old(v.Synced()) ==> v.Synced()
    ensures !ok ==> v.Table() == old(v.Table()) && v.layout == old(v.layout) && v.copies == old(v.copies)
    ensures !ok ==> OthersUntouched(old(v.disk), v.disk, v.layout.chains, parentCluster)
    ensures v.reliable && !ok ==> v.disk == old(v.disk)
    ensures v.reliable && !ok ==>
              || Absent(ListingOf(v, parentCluster), name)
              || (FirstMatch(SlotsOf(v, parentCluster), name, i) && !IsRegular(SlotsOf(v, parentCluster)[i]))
  {
    hide Consistent, DirSlots, DirLocations, EntryAt, Live, IsEntry, FirstMatch, Absent, Listing, Removable, Cluster,
      Without, Preserved, IsRegular, Deleted, DistinctNames, ListingLoses, OthersUntouched;
    UntouchedSelf(v.disk, v.layout.chains, parentCluster);
    var file;
    file, i := FindEntryByName(v, parentCluster, name);
    if file.None? {
      return false, i;
    }
    EntryIsLive(v, parentCluster, i, file.value);
    MatchBound(SlotsOf(v, parentCluster), name, i);
    if !IsRegular(file.value.entry) {
      return false, i;
    }
    RegularRemovable(v, parentCluster, i, file.value);
    DeletedLoses(SlotsOf(v, parentCluster), i);
    ok := DeleteDirectoryEntry(v, file.value, parentCluster, i);
  }

  lemma MatchBound(ss: seq<Slot>, name: string, i: nat)
    requires FirstMatch(ss, name, i)
    ensures i < |ss|
  {
  }

  // --------------------------------------------------------------------- directories

  /** In a consistent tree, nothing but a directory carries a dot name. */
  lemma DotIsDirectory(v: Volume, d: nat, i: nat)
    requires Good(v) && d in v.layout.dirs && d in v.layout.chains && Live(SlotsOf(v, d), i) && i < |SlotsOf(v, d)|
    ensures IsDotName(Name(SlotsOf(v, d)[i])) ==> IsDirectory(SlotsOf(v, d)[i])
  {
    hide DirSlots, Live, Cluster, Name, IsDotName, IsDirectory, Shaped, Owned, Formatted, DirOk, AllHeld, SizeOk,
      OwnedCluster;
    var sl := ViewOf(v.disk, v.layout);
    assert EntryOk(v.layout, v.clusterSize, Place(d, i), sl[d][i]);
  }

  /** Whether a directory holds nothing but its dot entries. */
  method DirectoryIsEmpty(v: Volume, dirCluster: nat) returns (r: Option<bool>)
    requires Good(v) && dirCluster in v.layout.dirs
    ensures r.Some? ==> (r.value <==> Empty(SlotsOf(v, dirCluster)))
    ensures v.reliable ==> r.Some?
  {
    hide Consistent, DirSlots, DirLocations, Listing, Located, Live, IsDotName, Name, Empty, EntryAt;
    var parsed := ReadEntries(v, dirCluster);
    if parsed.None? {
      return None;
    }
    EmptyMeans(v, dirCluster, parsed.value);
    var j := 0;
    while j < |parsed.value|
      invariant 0 <= j <= |parsed.value|
      invariant forall k :: 0 <= k < j ==> IsDotName(Name(parsed.value[k].entry))
    {
      if !IsDotName(Name(parsed.value[j].entry)) {
        return Some(false);
      }
      j := j + 1;
    }
    return Some(true);
  }

  lemma EmptyMeans(v: Volume, d: nat, parsed: seq<LocatedEntry>)
    requires Good(v) && d in v.layout.dirs && d in v.layout.chains
    requires Located(ListingOf(v, d), DirLocations(v.layout.chains[d], v.clusterSize / SLOT_SIZE), parsed)
    ensures Empty(SlotsOf(v, d)) <==> forall k :: 0 <= k < |parsed| ==> IsDotName(Name(parsed[k].entry))
  {
    hide Consistent, DirSlots, DirLocations, Listing, EntryAt, Live, IsDotName, Name, IsDirectory, IsEntry;
    var ss := SlotsOf(v, d);
    forall k | 0 <= k < |parsed| ensures k < |Listing(ss)| && Live(ss, Listing(ss)[k].index)
      && parsed[k].entry == ss[Listing(ss)[k].index] {
      LocatedIsEntry(v, d, parsed, k);
      ListingAt(ss, k);
    }
    if forall k :: 0 <= k < |parsed| ==> IsDotName(Name(parsed[k].entry)) {
      forall i: nat | Live(ss, i) ensures IsDirectory(ss[i]) && IsDotName(Name(ss[i])) {
        LiveIsListed(ss, i);
        var k :| 0 <= k < |Listing(ss)| && Listing(ss)[k] == EntryAt(ss, i);
        LocatedIsEntry(v, d, parsed, k);
        DotIsDirectory(v, d, i);
      }
    }
  }

  /** Removes an empty directory; refuses files, the root and the dot entries. */
  method RemoveDirectory(v: Volume, parentCluster: nat, name: string) returns (ok: bool, ghost i: nat)
    requires Good(v) && parentCluster in v.layout.dirs
    modifies v`disk, v`copies, v`layout, v.fat.words
    ensures ok ==> FirstMatch(old(SlotsOf(v, parentCluster)), name, i) && IsDirectory(old(SlotsOf(v, parentCluster))[i])
    ensures ok ==> Good(v) && v.layout == Without(old(v.layout), Cluster(old(SlotsOf(v, parentCluster))[i]))
    ensures ok ==> Erasable(old(v.disk), old(v.layout), old(SlotsOf(v, parentCluster))[i])
    ensures ok ==> SlotsOf(v, parentCluster) == Deleted(old(SlotsOf(v, parentCluster)), i)
    ensures ok ==> ListingLoses(old(SlotsOf(v, parentCluster)), SlotsOf(v, parentCluster), i)
    ensures ok ==> Preserved(old(v.disk), old(v.layout), v.disk, v.layout,
              {parentCluster, Cluster(old(SlotsOf(v, parentCluster))[i])})
    ensures ok ==> Cluster(old(SlotsOf(v, parentCluster))[i]) in old(v.layout.chains)
    ensures ok ==> v.Table() == Zeroed(old(v.Table()), old(v.layout.chains)[Cluster(old(SlotsOf(v, parentCluster))[i])])
    ensures ok && DistinctNames(old(SlotsOf(v, parentCluster))) ==> DistinctNames(SlotsOf(v, parentCluster))
    ensures v.reliable && old(v.Synced()) ==> v.Synced()
    ensures !ok ==> v.Table() == old(v.Table()) && v.layout == old(v.layout) && v.copies == old(v.copies)
    ensures !ok ==> OthersUntouched(old(v.disk), v.disk, v.layout.chains, parentCluster)
    ensures v.reliable && !ok ==> v.disk == old(v.disk)
    ensures v.reliable && !ok ==>
              || Absent(ListingOf(v, parentCluster), name)
              || (FirstMatch(SlotsOf(v, parentCluster), name, i)
                && !Erasable(v.disk, v.layout, SlotsOf(v, parentCluster)[i]))
  {
    hide Consistent, DirSlots, DirLocations, EntryAt, Live, IsEntry, FirstMatch, Absent, Listing, Removable, Cluster,
      Without, Preserved, IsDirectory, Deleted, DistinctNames, ListingLoses, IsDotName, Name, Empty, Zeroed,
      OthersUntouched;
    UntouchedSelf(v.disk, v.layout.chains, parentCluster);
    var directory;
    directory, i := FindEntryByName(v, parentCluster, name);
    if directory.None? {
      return false, i;
    }
    var entry := directory.value.entry;
    EntryIsLive(v, parentCluster, i, directory.value);
    MatchBound(SlotsOf(v, parentCluster), name, i);
    if !IsDirectory(entry) || Cluster(entry) == 0 || IsDotName(Name(entry)) {
      return false, i;
    }
    ChildIsDirectory(v, parentCluster, i, directory.value);
    var empty := DirectoryIsEmpty(v, Cluster(entry));
    if empty.None? || !empty.value {
      return false, i;
    }
    DirectoryRemovable(v, parentCluster, i, directory.value);
    DeletedLoses(SlotsOf(v, parentCluster), i);
    ok := DeleteDirectoryEntry(v, directory.value, parentCluster, i);
  }

  /** The entries rmdir accepts. */
  ghost predicate Erasable(disk: Disk, l: Layout, s: Slot) {
    IsDirectory(s) && Cluster(s) != 0 && !IsDotName(Name(s)) && Empty(DirSlotsOf(disk, l, Cluster(s)))
  }

  lemma ChildIsDirectory(v: Volume, d: nat, i: nat, found: LocatedEntry)
    requires Good(v) && d in v.layout.dirs && IsEntry(v, d, i, found)
    requires IsDirectory(found.entry) && Cluster(found.entry) != 0 && !IsDotName(Name(found.entry))
    ensures Cluster(found.entry) in v.layout.dirs && Cluster(found.entry) in v.layout.chains
  {
    hide Tree, DirSlots, DirLocations, EntryAt, Live, Cluster, Empty, Owned, Formatted, IsDirectory, IsDotName, Name;
    var g, sl := Geo(v), ViewOf(v.disk, v.layout);
    EntryIsLive(v, d, i, found);
    TreeKeys(g.root, g.clusterSize, sl, v.layout);
    OwnerHolds(g.root, g.clusterSize, sl, v.layout, d, i);
  }

  lemma DirectoryRemovable(v: Volume, d: nat, i: nat, found: LocatedEntry)
    requires Good(v) && d in v.layout.dirs && IsEntry(v, d, i, found)
    requires IsDirectory(found.entry) && Cluster(found.entry) != 0 && !IsDotName(Name(found.entry))
    requires Empty(SlotsOf(v, Cluster(found.entry)))
    ensures Removable(ViewOf(v.disk, v.layout), found.entry, Cluster(found.entry))
  {
    hide Consistent, DirSlots, DirLocations, EntryAt, Live, Cluster, Empty, IsDirectory, IsDotName, Name;
    ChildIsDirectory(v, d, i, found);
  }
}
