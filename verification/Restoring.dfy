/** Undoing a creation restores the listing and the table. */
module Restoring {

  import opened Base
  import opened Slots
  import opened FatTable
  import opened Ownership
  import opened ShortNames
  import opened DirectoryParser
  import opened DirectoryEdits
  import opened NameEntries
  import opened ClusterData
  import opened FatVolume
  import opened Forest
  import opened TreeEdits
  import opened TreeOps
  import opened VolumeState
  import opened ResizeState
  import opened FileResize
  import opened FileAccess
  import opened DirectoryState
  import opened DirectorySlots
  import opened Lookup
  import opened Creation
  import opened MakeDirectory
  import opened Removal
  import opened Walking

  lemma ListingNeverRepeats(ss: seq<Slot>, j: nat, k: nat)
    requires j < |Listing(ss)| && k < |Listing(ss)| && Listing(ss)[j] == Listing(ss)[k]
    ensures j == k
  {
    hide Entries;
    if j < k {
      EntriesAscend(ss, 0, End(ss), j, k);
    } else if k < j {
      EntriesAscend(ss, 0, End(ss), k, j);
    }
  }

  lemma GainedWithout(es: seq<Entry>, e: Entry, all: seq<Entry>) returns (j: nat)
    requires Gained(es, e, all)
    ensures j < |all| && all[j] == e && es == all[..j] + all[j + 1..]
  {
    j :| j <= |es| && all == es[..j] + [e] + es[j..];
    assert all[..j] == es[..j] && all[j + 1..] == es[j..];
  }

  /** Taking an entry out of a listing leaves only one possible rest. */
  lemma GainedUnique(ss: seq<Slot>, e: Entry, es: seq<Entry>, es2: seq<Entry>)
    requires Gained(es, e, Listing(ss)) && Gained(es2, e, Listing(ss))
    ensures es == es2
  {
    hide Listing, Gained;
    var j := GainedWithout(es, e, Listing(ss));
    var k := GainedWithout(es2, e, Listing(ss));
    ListingNeverRepeats(ss, j, k);
  }

  /** Creating an entry and losing it again restores the listing. */
  lemma GainThenLose(ss: seq<Slot>, ss1: seq<Slot>, ss2: seq<Slot>, x: nat)
    requires ListingGains(ss, ss1, x) && ListingLoses(ss1, ss2, x)
    ensures Listing(ss2) == Listing(ss)
  {
    hide Listing, EntryAt, Live, Gained;
    GainedUnique(ss1, EntryAt(ss1, x), Listing(ss), Listing(ss2));
  }

  /** A name that names only `x` is found there, and nowhere else. */
  lemma OnlyNameFound(ss: seq<Slot>, name: string, x: nat)
    requires NamesOnly(ss, name, x) && Live(ss, x)
    ensures !Absent(Listing(ss), name)
    ensures forall i :: FirstMatch(ss, name, i) ==> i == x
  {
    hide Listing, EntryAt, Live, Matches;
    LiveIsListed(ss, x);
    assert EntryMatches(EntryAt(ss, x), name);
    forall i | FirstMatch(ss, name, i) ensures i == x {
      var j :| 0 <= j < |Listing(ss)| && Listing(ss)[j].index == i;
      ListingAt(ss, j);
    }
  }

  /** Create, then unlink: the listing is restored, and the table unless the directory grew; `mid` is in between. */
  method CreateThenUnlink(v: Volume, dirCluster: nat, name: string)
    returns (created: bool, ghost x: nat, ghost mid: seq<Slot>)
    requires Good(v) && dirCluster in v.layout.dirs && v.reliable && Plain(name)
    modifies v`disk, v`copies, v`layout, v.fat.words
    ensures Good(v)
    ensures created ==> Absent(old(ListingOf(v, dirCluster)), name) && Nameable(name)
    ensures created ==> ListingGains(old(SlotsOf(v, dirCluster)), mid, x) && NamesOnly(mid, name, x)
    ensures created ==>
              IsRegular(mid[x]) && EntryAt(mid, x).name == StoredAs(name) && SlotsOf(v, dirCluster) == Deleted(mid, x)
    ensures !created ==>
              || !Absent(old(ListingOf(v, dirCluster)), name) || !Nameable(name)
              || |old(ListingOf(v, dirCluster))| >= MAX_TAIL || FreeList(v.Table()) == []
    ensures created ==> ListingOf(v, dirCluster) == old(ListingOf(v, dirCluster))
    ensures created && |SlotsOf(v, dirCluster)| == |old(SlotsOf(v, dirCluster))| ==> v.Table() == old(v.Table())
  {
    hide Consistent, DirSlots, DirLocations, Listing, EntryAt, Live, Plain, Absent, FirstMatch, NamesOnly,
      ListingGains, ListingLoses, Preserved, IsEntry, Deleted, Without, OnlyEnds, FreeList, DistinctNames, SameHolders,
      Cluster, IsRegular, Nameable, Contents, IsPlace;
    ghost var l0, ss0 := v.layout, SlotsOf(v, dirCluster);
    var file;
    mid := [];
    file, x := CreateFile(v, dirCluster, name);
    if file.None? {
      return false, 0, [];
    }
    ghost var ss1 := SlotsOf(v, dirCluster);
    mid := ss1;
    OnlyNameFound(ss1, name, x);
    NewFileIsEmpty(v, file.value.location, dirCluster, x);
    SameKeys(l0, v.layout);
    var removed; ghost var i;
    removed, i := UnlinkFile(v, dirCluster, name);
    GainThenLose(ss0, ss1, SlotsOf(v, dirCluster), x);
    created := true;
  }

  /** An empty file has no chain. */
  lemma NewFileIsEmpty(v: Volume, at: Location, d: nat, x: nat)
    requires Good(v) && FileHandle(v, at, d, x) && FileBytes(v, d, x) == []
    ensures Cluster(EntryOf(v, d, x)) == 0
  {
    hide Consistent, DirSlots, DirLocations, Live, Cluster, Size, Contents;
    FileBytesLength(v, at, d, x);
    FileFacts(Geo(v), v.Table(), v.disk, v.layout, d, x, EntryOf(v, d, x));
  }

  /** Mkdir, then rmdir: the same for directories. */
  method MakeThenRemove(v: Volume, parentCluster: nat, name: string)
    returns (created: bool, ghost x: nat, ghost mid: seq<Slot>)
    requires Good(v) && parentCluster in v.layout.dirs && v.reliable && Plain(name)
    modifies v`disk, v`copies, v`layout, v`reserved, v.fat.words
    ensures Good(v)
    ensures created ==> Absent(old(ListingOf(v, parentCluster)), name) && Nameable(name)
    ensures created ==> ListingGains(old(SlotsOf(v, parentCluster)), mid, x) && NamesOnly(mid, name, x)
    ensures created ==>
              && IsDirectory(mid[x])
              && EntryAt(mid, x).name == StoredAs(name)
              && SlotsOf(v, parentCluster) == Deleted(mid, x)
    ensures !created ==>
              || !Absent(old(ListingOf(v, parentCluster)), name) || !Nameable(name)
              || |old(ListingOf(v, parentCluster))| >= MAX_TAIL || NearlyFull(v.Table())
    ensures created ==> ListingOf(v, parentCluster) == old(ListingOf(v, parentCluster))
    ensures created && |SlotsOf(v, parentCluster)| == |old(SlotsOf(v, parentCluster))| ==> v.Table() == old(v.Table())
  {
    hide Consistent, DirSlots, DirLocations, Listing, EntryAt, Live, Plain, Absent, FirstMatch, NamesOnly,
      ListingGains, ListingLoses, Preserved, IsEntry, Deleted, Without, OnlyEnds, FreeList, DistinctNames, SameHolders,
      Cluster, IsDirectory, IsDotName, Name, Nameable, NearlyFull, Empty, Zeroed;
    ghost var t0, ss0 := v.Table(), SlotsOf(v, parentCluster);
    var made; ghost var n;
    mid := [];
    made, x, n := CreateDirectory(v, parentCluster, name);
    if !made {
      return false, 0, [];
    }
    ghost var ss1 := SlotsOf(v, parentCluster);
    mid := ss1;
    GainsLive(ss0, ss1, x);
    OnlyNameFound(ss1, name, x);
    NewDirectoryHeld(v, parentCluster, x, n);
    var removed; ghost var i;
    removed, i := RemoveDirectory(v, parentCluster, name);
    GainThenLose(ss0, ss1, SlotsOf(v, parentCluster), x);
    DeletedLength(ss1, x);
    if |SlotsOf(v, parentCluster)| == |ss0| {
      ZeroedBack(t0, n);
    }
    created := true;
  }

  lemma GainsLive(ss: seq<Slot>, ss': seq<Slot>, x: nat)
    requires ListingGains(ss, ss', x)
    ensures Live(ss', x) && x < |ss'|
  {
  }

  lemma DeletedLength(ss: seq<Slot>, i: nat)
    requires i < |ss|
    ensures |Deleted(ss, i)| == |ss|
  {
  }

  lemma ZeroedBack(t: Table, n: nat)
    requires n < |t| && t[n] == FREE
    ensures Zeroed(t[n := EOF], [n]) == t
  {
  }

  /** What the tree says about the entry that holds a directory. */
  lemma NewDirectoryHeld(v: Volume, d: nat, x: nat, n: nat)
    requires Good(v) && n in v.layout.holder && v.layout.holder[n] == Place(d, x) && n in v.layout.dirs
    ensures d in v.layout.dirs && x < |SlotsOf(v, d)|
    ensures var s := SlotsOf(v, d)[x]; IsDirectory(s) && !IsDotName(Name(s)) && Cluster(s) == n && n != 0
  {
    hide DirSlots, Live, Cluster, IsNormal, Name, IsDotName, Shaped, Owned, Formatted, DirOk, SizeOk, EntriesOk;
    assert Held(ViewOf(v.disk, v.layout), v.layout, n);
  }
}
