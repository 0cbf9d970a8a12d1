/** Truncating a file through its directory entry, with rollback. */
module FileResize {

  import opened Base
  import opened Slots
  import opened FatTable
  import opened Ownership
  import opened DirectoryParser
  import opened ClusterData
  import opened FatVolume
  import opened FileData
  import opened Forest
  import opened TreeOps
  import opened VolumeState
  import opened ResizeState

  const MAX_FILE_SIZE := 0xFFFF_FFFF

  ghost function Geo(v: Volume): Geometry
    reads v
  {
    Geometry(v.rootCluster, v.clusterSize, v.reserved)
  }

  /** The volume is consistent. */
  ghost predicate Good(v: Volume)
    reads v, v.fat.words
  {
    Consistent(Geo(v), v.Table(), v.disk, v.layout)
  }

  ghost function SlotsOf(v: Volume, d: nat): seq<Slot>
    reads v
  {
    if d in v.layout.chains then DirSlots(v.disk, v.layout.chains[d]) else []
  }

  /** `at` is where entry `i` of directory `d` is stored. */
  ghost predicate IsPlace(v: Volume, at: Location, d: nat, i: nat)
    reads v
  {
    && d in v.layout.dirs && d in v.layout.chains
    && i < |DirLocations(v.layout.chains[d], PerCluster(Geo(v)))|
    && at == DirLocations(v.layout.chains[d], PerCluster(Geo(v)))[i]
  }

  /** `at` is the place of a live file entry: a handle not yet removed. */
  ghost predicate FileHandle(v: Volume, at: Location, d: nat, i: nat)
    reads v
  {
    IsPlace(v, at, d, i) && Live(SlotsOf(v, d), i) && IsRegular(SlotsOf(v, d)[i])
  }

  // ----------------------------------------------------------------- entry transfer

  ghost predicate InCluster(disk: Disk, at: Location) {
    at.offset == SLOT_SIZE * at.index && at.cluster in disk && at.offset + SLOT_SIZE <= |disk[at.cluster]|
  }

  method ReadDirectoryEntry(v: Volume, at: Location) returns (r: Option<Slot>)
    ensures r.Some? ==> InCluster(v.disk, at) && r.value == SlotAt(v.disk[at.cluster], at.index)
    ensures v.reliable && InCluster(v.disk, at) ==> r.Some?
  {
    if SLOT_SIZE * at.index != at.offset {
      return None;
    }
    var region := v.ReadCluster(at.cluster);
    if region.None? || at.offset + SLOT_SIZE > |region.value| {
      return None;
    }
    return Some(SlotAt(region.value, at.index));
  }

  method PersistDirectoryEntry(v: Volume, at: Location, s: Slot) returns (ok: bool)
    modifies v`disk
    ensures ok ==> InCluster(old(v.disk), at) && v.disk == Stored(old(v.disk), at, s)
    ensures !ok ==> OnlyIn(old(v.disk), v.disk, [at.cluster])
    ensures v.reliable && InCluster(old(v.disk), at) ==> ok
    ensures InCluster(old(v.disk), at) && s == SlotAt(old(v.disk)[at.cluster], at.index) ==> v.disk == old(v.disk)
  {
    if SLOT_SIZE * at.index != at.offset {
      return false;
    }
    var region := v.ReadCluster(at.cluster);
    if region.None? || at.offset + SLOT_SIZE > |region.value| {
      return false;
    }
    ok := v.WriteCluster(at.cluster, Splice(region.value, at.offset, s));
    if s == SlotAt(region.value, at.index) {
      assert Splice(region.value, at.offset, s) == region.value;
      assert v.disk[at.cluster] == region.value;
    }
  }

  /** What a handle's location holds. */
  lemma HandleSlot(v: Volume, at: Location, d: nat, i: nat)
    requires Good(v) && IsPlace(v, at, d, i)
    ensures i < |SlotsOf(v, d)| && InCluster(v.disk, at) && SlotAt(v.disk[at.cluster], at.index) == SlotsOf(v, d)[i]
  {
    hide Tree, Data, SlotsIn, DirLocations, Owned;
    SlotCount(Geo(v), v.Table(), v.disk, v.layout.chains, d);
    StoreSlot(Geo(v), v.Table(), v.disk, v.layout.chains, d, i, SlotsOf(v, d)[i], at);
  }

  // ------------------------------------------------------------------- chain walking

  /** The `index`-th cluster of a chain. */
  method ClusterAt(v: Volume, first: nat, index: nat, ghost cs: seq<nat>) returns (r: Option<nat>)
    requires Sized(v.Table()) && IsChain(v.Table(), cs) && cs[0] == first
    ensures r == if index < |cs| then Some(cs[index]) else None
  {
    hide IsChain;
    ChainBasics(v.Table(), cs);
    var cluster: nat := first;
    for k := 0 to index
      invariant k < |cs| && cluster == cs[k]
    {
      ChainNext(v.Table(), cs, k);
      var next := v.fat.NextCluster(cluster);
      if next.None? {
        return None;
      }
      cluster := next.value;
    }
    return Some(cluster);
  }

  // -------------------------------------------------------------------------- growing

  /**
    Allocates the clusters a growth needs and links them behind the chain.
    Without enough space the table is left word for word.
   */
  method AllocateGrowth(v: Volume, file: Slot, oldCount: nat, newCount: nat, ghost cs: seq<nat>)
    returns (ok: bool, file': Slot, start: Option<nat>)
    requires Sized(v.Table()) && oldCount == |cs| && oldCount <= newCount
    requires if Cluster(file) == 0 then cs == [] else IsChain(v.Table(), cs) && cs[0] == Cluster(file)
    requires forall c :: c in cs ==> c < |v.Table()| && v.Table()[c] != FREE
    modifies v.fat.words
    ensures ok <==> newCount - oldCount <= |FreeList(old(v.Table()))|
    ensures ok ==> GrownTable(old(v.Table()), cs, newCount - oldCount, v.Table())
    ensures ok ==> file' == if oldCount == 0 && newCount > 0 then SetCluster(file, FreeList(old(v.Table()))[0])
              else file
    ensures ok ==> start == if newCount > oldCount then Some(FreeList(old(v.Table()))[0]) else None
    ensures !ok ==> v.Table() == old(v.Table()) && file' == file
  {
    hide FreeList, Linked, SetCluster, Cluster;
    ghost var t0, n := v.Table(), newCount - oldCount;
    if newCount <= oldCount {
      return true, file, None;
    }
    var first := v.fat.AllocateChain(newCount - oldCount);
    if first.None? {
      return false, file, None;
    }
    if oldCount == 0 {
      return true, SetCluster(file, first.value), Some(first.value);
    }
    ghost var t1 := v.Table();
    OldChainStays(t0, cs, n, t1);
    var last := ClusterAt(v, Cluster(file), oldCount - 1, cs);
    var linked := v.fat.Set(last.value, first.value);
    LinksBehind(t0, cs, n, t1, v.Table());
    return true, file, Some(first.value);
  }

  lemma OldChainStays(t: Table, cs: seq<nat>, n: nat, t1: Table)
    requires Sized(t) && IsChain(t, cs) && 0 < n <= |FreeList(t)| && Linked(t, FreeList(t)[..n], t1)
    requires forall c :: c in cs ==> c < |t| && t[c] != FREE
    ensures Sized(t1) && IsChain(t1, cs) && FreeList(t)[0] < |t1|
    ensures forall c :: c in cs ==> c !in FreeList(t)[..n]
  {
    hide IsChain, FreeList;
    FreePrefix(t, n);
    ChainFrame(t, t1, cs);
  }

  lemma LinksBehind(t: Table, cs: seq<nat>, n: nat, t1: Table, t2: Table)
    requires cs != [] && 0 < n <= |FreeList(t)| && Linked(t, FreeList(t)[..n], t1)
    requires forall c :: c in cs ==> c < |t| && c !in FreeList(t)[..n]
    requires FreeList(t)[0] < |t| && Sized(t) && cs[|cs| - 1] < |t1|
    requires t2 == t1[cs[|cs| - 1] := FreeList(t)[0]]
    ensures Extended(t, cs[|cs| - 1], n, t2)
  {
    hide FreeList;
    assert cs[|cs| - 1] in cs;
  }

  /**
    Undoes a growth in memory: the old chain ends where it did, the new
    clusters are free again, the entry names its old first cluster.
   */
  method RollbackGrowth(v: Volume, file: Slot, oldFirst: nat, oldCount: nat, start: Option<nat>,
                        ghost t0: Table, ghost cs: seq<nat>, ghost n: nat)
    returns (file': Slot)
    requires Sized(t0) && oldCount == |cs| && GrownTable(t0, cs, n, v.Table()) && |v.Table()| == |t0|
    requires cs != [] ==> IsChain(t0, cs) && cs[0] == oldFirst
    requires forall c :: c in cs ==> c < |t0| && t0[c] != FREE
    requires start == if n > 0 then Some(FreeList(t0)[0]) else None
    modifies v.fat.words
    ensures v.Table() == if cs == [] then t0 else t0[cs[|cs| - 1] := EOF]
    ensures file' == if cs == [] then SetCluster(file, oldFirst) else file
  {
    hide FreeList, SetCluster, Linked, Extended;
    file' := file;
    ghost var t1 := v.Table();
    if oldCount == 0 {
      file' := SetCluster(file, oldFirst);
    } else {
      GrownWalk(t0, cs, n, t1);
      var last := ClusterAt(v, oldFirst, oldCount - 1, GrownChain(t0, cs, n));
      var ended := v.fat.Set(last.value, EOF);
    }
    GrownUndo(t0, cs, n, t1);
    if start.Some? {
      var freed := v.fat.FreeChain(start.value);
    }
  }

  /** The grown table still holds the old chain, with the new one behind it. */
  lemma GrownWalk(t: Table, cs: seq<nat>, n: nat, t1: Table)
    requires Sized(t) && cs != [] && IsChain(t, cs) && GrownTable(t, cs, n, t1)
    requires forall c :: c in cs ==> c < |t| && t[c] != FREE
    ensures |t1| == |t| && IsChain(t1, GrownChain(t, cs, n))
    ensures GrownChain(t, cs, n)[|cs| - 1] == cs[|cs| - 1] && GrownChain(t, cs, n)[0] == cs[0]
  {
    hide FreeList, IsChain;
    if n == 0 {
      assert GrownChain(t, cs, n) == cs;
    } else {
      FreshApart(t, cs, n);
      ExtendedIsChain(t, cs, n, t1);
    }
  }

  lemma FreshApart(t: Table, cs: seq<nat>, n: nat)
    requires n <= |FreeList(t)| && forall c :: c in cs ==> c < |t| && t[c] != FREE
    ensures forall c :: c in cs ==> c !in FreeList(t)[..n]
  {
    hide FreeList;
    FreePrefix(t, n);
  }

  lemma GrownUndo(t: Table, cs: seq<nat>, n: nat, t1: Table)
    requires Sized(t) && GrownTable(t, cs, n, t1) && |t1| == |t|
    requires cs != [] ==> IsChain(t, cs)
    requires forall c :: c in cs ==> c < |t| && t[c] != FREE
    ensures n == 0 && cs == [] ==> t1 == t
    ensures n == 0 && cs != [] ==> t1[cs[|cs| - 1] := EOF] == t[cs[|cs| - 1] := EOF]
    ensures n > 0 && cs == [] ==> FreeFrom(t1, FreeList(t)[0]) == (t, true)
    ensures n > 0 && cs != [] ==> FreeFrom(t1[cs[|cs| - 1] := EOF], FreeList(t)[0]) == (t[cs[|cs| - 1] := EOF], true)
  {
    hide FreeList, FreeFrom;
    if n > 0 {
      if cs == [] {
        AllocateThenFree(t, n, t1);
      } else {
        FreshApart(t, cs, n);
        UndoExtended(t, cs, n, t1);
      }
    }
  }

  /** Re-marking the end of a chain changes no successor and no free cluster. */
  lemma SameSuccessors(t: Table, cs: seq<nat>)
    requires Sized(t) && IsChain(t, cs)
    ensures var u := t[cs[|cs| - 1] := EOF];
            && (forall c: nat :: Next(u, c) == Next(t, c))
            && FreeList(u) == FreeList(t)
  {
    var last := cs[|cs| - 1];
    var u := t[last := EOF];
    assert t[last] >= END_OF_CHAIN;
    FreeListSame(t, u, 2);
  }

  /**
    How a truncation ends: done, refused with nothing changed, undone so that
    nothing can be seen of it, or cut short at its very last transfers.
   */
  datatype Outcome = Done | Refused | Undone | CutShort

  /** An undone growth cannot be seen: same successors, free clusters, chains and bytes. */
  ghost predicate Unseen(t: Table, disk: Disk, l: Layout, file: Slot, t': Table, disk': Disk) {
    && |t'| == |t| && FreeList(t') == FreeList(t) && (forall c: nat :: Next(t', c) == Next(t, c))
    && OthersUntouched(disk, disk', l.chains, Cluster(file))
    && Contents(disk', l.chains, file) == Contents(disk, l.chains, file)
  }

  /** The file's chain has grown in the table and its new bytes are zero. */
  ghost predicate GrownInPlace(t: Table, disk: Disk, l: Layout, d: nat, file: Slot, size: nat, clusterSize: nat,
                               t': Table, disk': Disk) {
    && Fits(t, Size(file), size, clusterSize) && Size(file) < size
    && var cs, n := ChainOf(l.chains, file), ClustersFor(size, clusterSize) - ClustersFor(Size(file), clusterSize);
    && 0 <= n && GrownTable(t, cs, n, t')
    && ZeroIn(disk', GrownChain(t, cs, n), Size(file), size)
    && BothUntouched(disk, disk', l.chains, Cluster(file), d)
  }

  ghost predicate ZeroIn(disk: Disk, cs: seq<nat>, lo: nat, hi: nat) {
    hi <= |Data(disk, cs)| && forall k :: lo <= k < hi ==> Data(disk, cs)[k] == 0
  }

  ghost predicate BothUntouched(disk: Disk, disk': Disk, chains: Chains, f: nat, d: nat) {
    forall h :: h in chains && h != f && h != d ==> Data(disk', chains[h]) == Data(disk, chains[h])
  }

  /**
    Grows a file: allocate, zero the new bytes, persist the table, store the
    entry. If zeroing or persisting fails, the growth is undone; only the
    entry itself can be left unstored, when all the rest is in place.
   */
  method GrowExistingFile(v: Volume, file: Slot, at: Location, oldSize: nat, newSize: nat, ghost d: nat, ghost i: nat)
    returns (ok: bool, file': Slot, ghost outcome: Outcome)
    requires Good(v) && FileHandle(v, at, d, i) && file == SlotsOf(v, d)[i]
    requires oldSize == Size(file) < newSize <= MAX_FILE_SIZE
    modifies v`disk, v`copies, v`layout, v.fat.words
    ensures ok <==> outcome == Done
    ensures ok ==> Good(v) && FileTruncated(old(v.disk), old(v.layout), v.disk, v.layout, d, i, file, file', newSize)
    ensures ok ==> v.Synced()
    ensures outcome == Refused <==> !Fits(old(v.Table()), oldSize, newSize, v.clusterSize)
    ensures outcome == Refused ==> v.Table() == old(v.Table()) && v.disk == old(v.disk) && v.copies == old(v.copies)
    ensures !ok ==> v.layout == old(v.layout)
    ensures outcome == Undone ==> Good(v) && Cluster(file') == Cluster(file)
    ensures outcome == Undone ==> Unseen(old(v.Table()), old(v.disk), v.layout, file, v.Table(), v.disk)
    ensures outcome == CutShort ==> v.Synced()
    ensures outcome == CutShort ==>
              GrownInPlace(old(v.Table()), old(v.disk), v.layout, d, file, newSize, v.clusterSize, v.Table(), v.disk)
    ensures v.reliable ==> outcome == Done || outcome == Refused
  {
    hide Consistent, FileTruncated, FreeList, Live, Data, DirLocations, SlotsIn, Cluster, Size, IsChain, GrownTable,
      ClustersFor, OthersUntouched, Contents, SetCluster, SetSize, Next, OnlyIn, OnDisk, Resized, GrownChains,
      GrownInPlace, Unseen;
    ghost var g, t0, disk0, l0 := Geo(v), v.Table(), v.disk, v.layout;
    ghost var cs := ChainOf(l0.chains, file);
    FileFacts(g, t0, disk0, l0, d, i, file);
    HandleSlot(v, at, d, i);
    Basics(v, file);
    GrowCounts(v.clusterSize, oldSize, newSize);
    var oldCount := ClustersFor(oldSize, v.clusterSize);
    var newCount := ClustersFor(newSize, v.clusterSize);
    var oldFirst := Cluster(file);
    var enough, file1, start := AllocateGrowth(v, file, oldCount, newCount, cs);
    if !enough {
      return false, file, Refused;
    }
    ghost var n, t1 := newCount - oldCount, v.Table();
    GrowReady(g, t0, disk0, l0, d, i, file, cs, n, t1, file1, newSize);
    var zeroed := ZeroFileRange(v, Cluster(file1), oldSize, newSize - oldSize, GrownChain(t0, cs, n));
    var persisted := false;
    if zeroed {
      persisted := v.PersistFat();
    }
    if !persisted {
      file' := RollbackGrowth(v, file1, oldFirst, oldCount, start, t0, cs, n);
      GrowUndone(g, t0, disk0, l0, d, i, file, cs, n, v.Table(), v.disk, newSize, file1, file');
      return false, file', Undone;
    }
    ghost var disk1 := v.disk;
    file' := SetSize(file1, newSize);
    GrowCommit(g, t0, disk0, l0, d, i, file, cs, n, t1, v.disk, file', newSize, at);
    ok := PersistDirectoryEntry(v, at, file');
    if ok {
      v.layout := Resized(l0, d, i, Cluster(file), GrownChain(t0, cs, n)[0], GrownChains(t0, l0.chains, cs, n));
      outcome := Done;
    } else {
      HalfGrown(g, t0, disk0, l0, d, i, file, cs, n, t1, disk1, v.disk, at, newSize);
      outcome := CutShort;
    }
  }

  /** What is in place when only the entry could not be stored. */
  lemma HalfGrown(g: Geometry, t: Table, disk: Disk, l: Layout, d: nat, i: nat, s: Slot, cs: seq<nat>, n: nat,
                  t1: Table, disk1: Disk, disk2: Disk, at: Location, size: nat)
    requires Consistent(g, t, disk, l)
    requires d in l.dirs && d in l.chains && Live(DirSlots(disk, l.chains[d]), i)
    requires s == DirSlots(disk, l.chains[d])[i] && IsRegular(s) && cs == ChainOf(l.chains, s)
    requires i < |DirLocations(l.chains[d], PerCluster(g))| && at == DirLocations(l.chains[d], PerCluster(g))[i]
    requires GrownTable(t, cs, n, t1) && g.clusterSize > 0 && Fits(t, Size(s), size, g.clusterSize) && Size(s) < size
    requires n == ClustersFor(size, g.clusterSize) - ClustersFor(Size(s), g.clusterSize)
    requires OnlyIn(disk, disk1, GrownChain(t, cs, n)) && OnlyIn(disk1, disk2, [at.cluster])
    requires ZeroIn(disk1, GrownChain(t, cs, n), Size(s), size)
    ensures GrownInPlace(t, disk, l, d, s, size, g.clusterSize, t1, disk2)
  {
    hide Tree, DirSlots, Live, Data, Owned, IsChain, FreeList, Cluster, Size, OnlyIn, ClustersFor, DirLocations,
      GrownTable;
    var f, grown := Cluster(s), GrownChain(t, cs, n);
    FileFacts(g, t, disk, l, d, i, s);
    StoreSlot(g, t, disk, l.chains, d, i, s, at);
    FreeNotElsewhere(t, l.chains, g.reserved, f, n);
    OwnedParts(t, l.chains, g.reserved);
    OwnChainNotElsewhere(l.chains, d);
    if f != 0 {
      OwnChainNotElsewhere(l.chains, f);
    }
    EntryOutside(t, l.chains, g.reserved, d, f, cs, n, at.cluster);
    WriteSparesOthers(t, disk, disk1, l.chains, g.reserved, f, grown);
    WriteSparesOthers(t, disk1, disk2, l.chains, g.reserved, d, [at.cluster]);
    OnlyInElsewhere(disk1, disk2, [at.cluster], grown);
  }

  /** A directory's own clusters are apart from a file's, old or new. */
  lemma EntryOutside(t: Table, chains: Chains, reserved: set<nat>, d: nat, f: nat, cs: seq<nat>, n: nat, c: nat)
    requires Owned(t, chains, reserved) && d in chains && c in chains[d] && IsChainOf(chains, f, cs) && f != d
    requires n <= |FreeList(t)|
    ensures c !in GrownChain(t, cs, n)
  {
    hide FreeList, IsChain;
    FreshUnused(t, chains, reserved, n);
    assert Used(chains, c);
  }

  lemma Basics(v: Volume, file: Slot)
    requires Good(v)
    ensures v.clusterSize > 0
    ensures OthersUntouched(v.disk, v.disk, v.layout.chains, Cluster(file))
  {
    hide Tree, Owned, Formatted, Data, Cluster;
  }

  /** There are enough free clusters to grow from one size to the other. */
  ghost predicate Fits(t: Table, oldSize: nat, newSize: nat, clusterSize: nat) {
    clusterSize > 0 && ClustersFor(newSize, clusterSize) - ClustersFor(oldSize, clusterSize) <= |FreeList(t)|
  }

  lemma GrowCounts(clusterSize: nat, oldSize: nat, newSize: nat)
    requires oldSize < newSize && clusterSize > 0
    ensures ClustersFor(oldSize, clusterSize) <= ClustersFor(newSize, clusterSize)
    ensures ClustersFor(newSize, clusterSize) > 0
    ensures oldSize == 0 ==> ClustersFor(oldSize, clusterSize) == 0
  {
    hide Start;
    ClustersMonotone(oldSize, newSize, clusterSize);
    ClustersCover(newSize, clusterSize);
  }

  /** After allocation the grown chain is in place and long enough. */
  lemma GrowReady(g: Geometry, t: Table, disk: Disk, l: Layout, d: nat, i: nat, s: Slot, cs: seq<nat>, n: nat,
                  t1: Table, s1: Slot, size: nat)
    requires Consistent(g, t, disk, l)
    requires d in l.dirs && d in l.chains && Live(DirSlots(disk, l.chains[d]), i)
    requires s == DirSlots(disk, l.chains[d])[i] && IsRegular(s) && cs == ChainOf(l.chains, s)
    requires n <= |FreeList(t)| && GrownTable(t, cs, n, t1) && g.clusterSize > 0
    requires size > 0 && |cs| + n == ClustersFor(size, g.clusterSize) > 0
    requires s1 == if cs == [] then SetCluster(s, FreeList(t)[0]) else s
    ensures |t1| == |t| && GrownChain(t, cs, n) != []
    ensures OnDisk(t1, disk, GrownChain(t, cs, n), g.clusterSize)
    ensures GrownChain(t, cs, n)[0] == Cluster(s1)
    ensures size <= |Data(disk, GrownChain(t, cs, n))|
    ensures SetSize(s1, size) == GrownEntry(s, GrownChain(t, cs, n)[0], size)
  {
    hide Tree, DirSlots, Live, Data, Owned, IsChain, FreeList, Start, GrownTable, Cluster, Size, SetCluster, SetSize,
      ClustersFor;
    var cs' := GrownChain(t, cs, n);
    assert |cs'| == |cs| + n;
    FileFacts(g, t, disk, l, d, i, s);
    OwnGrown(t, l.chains, g.reserved, Cluster(s), cs, n, t1);
    FormattedFrame(t, disk, t1, disk, cs', g.clusterSize);
    assert OnlyIn(disk, disk, cs');
    ChainOnDisk(g, t1, disk, l.chains[cs'[0] := cs'], cs'[0]);
    ChainFits(t1, l.chains[cs'[0] := cs'], g.reserved, cs'[0]);
    ClusterRoundTrip(s, cs'[0]);
    SameCluster(s);
    DataLength(disk, cs', g.clusterSize);
    ClustersCover(size, g.clusterSize);
  }

  /** Storing the cluster an entry already has changes nothing. */
  lemma SameCluster(s: Slot)
    ensures SetCluster(s, Cluster(s)) == s
  {
    NumberOfFour([s[26], s[27], s[20], s[21]]);
    FourBytes(s[26], s[27], s[20], s[21]);
    var r := SetCluster(s, Cluster(s));
    assert forall k :: 0 <= k < 32 ==> r[k] == s[k];
  }

  lemma FourBytes(a: Byte, b: Byte, c: Byte, d: Byte)
    ensures var n := 0x1_0000 * LittleEndian(c, d) + LittleEndian(a, b);
            && n % 0x100 == a && (n / 0x100) % 0x100 == b
            && (n / 0x1_0000) % 0x100 == c && (n / 0x100_0000) % 0x100 == d
  {
    var n := 0x1_0000 * LittleEndian(c, d) + LittleEndian(a, b);
    assert n / 0x100 == 0x100 * LittleEndian(c, d) + b;
    assert n / 0x1_0000 == LittleEndian(c, d);
    assert n / 0x100_0000 == d;
  }

  /** The state after an undone growth. */
  lemma GrowUndone(g: Geometry, t: Table, disk: Disk, l: Layout, d: nat, i: nat, s: Slot, cs: seq<nat>, n: nat,
                   t2: Table, disk2: Disk, size: nat, s1: Slot, s2: Slot)
    requires Consistent(g, t, disk, l)
    requires d in l.dirs && d in l.chains && Live(DirSlots(disk, l.chains[d]), i)
    requires s == DirSlots(disk, l.chains[d])[i] && IsRegular(s) && cs == ChainOf(l.chains, s)
    requires n <= |FreeList(t)| && OnlyIn(disk, disk2, GrownChain(t, cs, n))
    requires SameOutside(Data(disk, GrownChain(t, cs, n)), Data(disk2, GrownChain(t, cs, n)), Size(s), size)
    requires forall c :: c in cs ==> c < |t|
    requires t2 == if cs == [] then t else t[cs[|cs| - 1] := EOF]
    requires s2 == if cs == [] then SetCluster(s1, Cluster(s)) else s1
    requires cs != [] ==> s1 == s
    ensures Consistent(g, t2, disk2, l)
    ensures Cluster(s2) == Cluster(s)
    ensures Unseen(t, disk, l, s, t2, disk2)
  {
    hide Consistent, Live, Data, FreeList, Cluster, Size, SetCluster, OnlyIn, IsChain, Next, Contents, OthersUntouched,
      DirSlots;
    RolledBack(g, t, disk, l, d, i, s, cs, t2, disk2, n, size);
    FileFacts(g, t, disk, l, d, i, s);
    ClusterRoundTrip(s1, Cluster(s));
    if cs != [] {
      SameSuccessors(t, cs);
      assert cs[|cs| - 1] in cs && |t2| == |t|;
    }
  }

  // ------------------------------------------------------------------------ shrinking

  /** Cuts the chain of a file behind the clusters to keep. */
  method CutChain(v: Volume, first: nat, keep: nat, ghost cs: seq<nat>) returns (ok: bool)
    requires Sized(v.Table()) && cs != [] && IsChain(v.Table(), cs) && cs[0] == first
    requires 0 < keep <= |cs|
    modifies v.fat.words
    ensures ok && ShrunkTable(old(v.Table()), cs, keep, v.Table())
  {
    hide IsChain, Cut, FreeFrom;
    ghost var t0 := v.Table();
    var last := ClusterAt(v, first, keep - 1, cs);
    ChainNext(t0, cs, keep - 1);
    CutByFreeing(t0, cs, keep);
    var firstFreed := v.fat.NextCluster(last.value);
    var ended := v.fat.Set(last.value, EOF);
    LastInRange(t0, cs, keep);
    if firstFreed.Some? {
      var freed := v.fat.FreeChain(firstFreed.value);
    }
    return true;
  }

  lemma LastInRange(t: Table, cs: seq<nat>, keep: nat)
    requires IsChain(t, cs) && 0 < keep <= |cs|
    ensures cs[keep - 1] < |t|
  {
  }

  method FreeWhole(v: Volume, first: nat, ghost cs: seq<nat>) returns (ok: bool)
    requires Sized(v.Table()) && cs != [] && IsChain(v.Table(), cs) && cs[0] == first
    modifies v.fat.words
    ensures ok && ShrunkTable(old(v.Table()), cs, 0, v.Table())
  {
    hide IsChain, FreeFrom, Zeroed;
    FreeFromChain(v.Table(), cs);
    ok := v.fat.FreeChain(first);
  }

  /** Shrinks a file: free what it no longer needs, then store the entry. */
  method ShrinkExistingFile(v: Volume, file: Slot, at: Location, newSize: nat, ghost d: nat, ghost i: nat)
    returns (ok: bool, file': Slot)
    requires Good(v) && FileHandle(v, at, d, i) && file == SlotsOf(v, d)[i]
    requires newSize < Size(file)
    modifies v`disk, v`copies, v`layout, v.fat.words
    ensures ok ==> Good(v) && FileTruncated(old(v.disk), old(v.layout), v.disk, v.layout, d, i, file, file', newSize)
    ensures ok && old(v.Synced()) ==> v.Synced()
    ensures !ok ==> v.layout == old(v.layout)
    ensures !ok ==> ShrunkInPlace(old(v.Table()), old(v.disk), v.layout, d, file, newSize, v.clusterSize, v.Table(),
              v.disk)
    ensures v.reliable ==> ok
  {
    hide Consistent, FileTruncated, Live, Data, DirLocations, SlotsIn, Cluster, Size, IsChain, ClustersFor, SetCluster,
      SetSize, Resized, ShrunkTable, ShrunkChains, OnDisk, OnlyIn, ShrunkInPlace;
    ghost var g, t0, disk0, l0 := Geo(v), v.Table(), v.disk, v.layout;
    ghost var cs := ChainOf(l0.chains, file);
    FileFacts(g, t0, disk0, l0, d, i, file);
    HandleSlot(v, at, d, i);
    Basics(v, file);
    KeepCounts(v.clusterSize, newSize, Size(file));
    file' := file;
    var first := Cluster(file);
    assert first != 0;
    if newSize == 0 {
      var freed := FreeWhole(v, first, cs);
      file' := SetSize(SetCluster(file, 0), 0);
    } else {
      var keep := ClustersFor(newSize, v.clusterSize);
      var cut := CutChain(v, first, keep, cs);
      file' := SetSize(file, newSize);
    }
    OnlyInSelf(disk0, [at.cluster]);
    var persisted := v.PersistFat();
    if !persisted {
      HalfShrunk(g, t0, disk0, l0, d, i, file, cs, v.Table(), v.disk, at, newSize);
      return false, file;
    }
    ShrinkCommit(g, t0, disk0, l0, d, i, file, cs, v.Table(), file', newSize, at);
    ok := PersistDirectoryEntry(v, at, file');
    if ok {
      v.layout := Resized(l0, d, i, Cluster(file), Cluster(file'),
        ShrunkChains(l0.chains, Cluster(file), ClustersFor(newSize, v.clusterSize)));
    } else {
      HalfShrunk(g, t0, disk0, l0, d, i, file, cs, v.Table(), v.disk, at, newSize);
    }
  }

  /** The chain is cut in the table; every other chain but the directory's keeps its bytes. */
  ghost predicate ShrunkInPlace(t: Table, disk: Disk, l: Layout, d: nat, file: Slot, size: nat, clusterSize: nat,
                                t': Table, disk': Disk) {
    && size < Size(file) && clusterSize > 0
    && ShrunkTable(t, ChainOf(l.chains, file), ClustersFor(size, clusterSize), t')
    && OthersUntouched(disk, disk', l.chains, d)
  }

  lemma HalfShrunk(g: Geometry, t: Table, disk: Disk, l: Layout, d: nat, i: nat, s: Slot, cs: seq<nat>, t1: Table,
                   disk': Disk, at: Location, size: nat)
    requires Consistent(g, t, disk, l)
    requires d in l.dirs && d in l.chains && Live(DirSlots(disk, l.chains[d]), i)
    requires s == DirSlots(disk, l.chains[d])[i] && IsRegular(s) && cs == ChainOf(l.chains, s)
    requires i < |DirLocations(l.chains[d], PerCluster(g))| && at == DirLocations(l.chains[d], PerCluster(g))[i]
    requires size < Size(s) && g.clusterSize > 0 && ShrunkTable(t, cs, ClustersFor(size, g.clusterSize), t1)
    requires OnlyIn(disk, disk', [at.cluster])
    ensures ShrunkInPlace(t, disk, l, d, s, size, g.clusterSize, t1, disk')
  {
    hide Tree, DirSlots, Live, Data, Owned, IsChain, Cluster, Size, OnlyIn, ClustersFor, DirLocations, ShrunkTable,
      OthersUntouched;
    SlotCount(g, t, disk, l.chains, d);
    StoreSlot(g, t, disk, l.chains, d, i, s, at);
    OwnedParts(t, l.chains, g.reserved);
    OwnChainNotElsewhere(l.chains, d);
    WriteSparesOthers(t, disk, disk', l.chains, g.reserved, d, [at.cluster]);
  }

  lemma KeepCounts(clusterSize: nat, newSize: nat, oldSize: nat)
    requires newSize < oldSize && clusterSize > 0
    ensures ClustersFor(newSize, clusterSize) <= ClustersFor(oldSize, clusterSize)
    ensures 0 < ClustersFor(oldSize, clusterSize)
    ensures newSize == 0 <==> ClustersFor(newSize, clusterSize) == 0
  {
    hide Start;
    ClustersMonotone(newSize, oldSize, clusterSize);
    ClustersCover(newSize, clusterSize);
    ClustersCover(oldSize, clusterSize);
  }

  // ----------------------------------------------------------------------- truncation

  /**
    Truncates the file behind a live handle: its bytes become the prefix, or
    get zeros appended; every other file and directory keeps its bytes.
   */
  method TruncateExistingFile(v: Volume, at: Location, newSize: nat, ghost d: nat, ghost i: nat)
    returns (ok: bool, ghost file': Slot, ghost outcome: Outcome)
    requires Good(v) && FileHandle(v, at, d, i)
    modifies v`disk, v`copies, v`layout, v.fat.words
    ensures ok || v.reliable ==> Good(v)
    ensures ok ==> Attributes(old(SlotsOf(v, d)[i])) == 32 && newSize <= MAX_FILE_SIZE
    ensures ok ==> FileTruncated(old(v.disk), old(v.layout), v.disk, v.layout, d, i, old(SlotsOf(v, d)[i]), file',
              newSize)
    ensures ok <==> outcome == Done
    ensures !ok ==> v.layout == old(v.layout)
    ensures outcome == Refused ==> v.Table() == old(v.Table()) && v.disk == old(v.disk) && v.copies == old(v.copies)
    ensures outcome == Undone ==>
              Good(v) && Unseen(old(v.Table()), old(v.disk), v.layout, old(SlotsOf(v, d)[i]), v.Table(), v.disk)
    ensures outcome == CutShort ==>
              || (v.Synced() && GrownInPlace(old(v.Table()), old(v.disk), v.layout, d, old(SlotsOf(v, d)[i]), newSize,
                v.clusterSize, v.Table(), v.disk))
              || ShrunkInPlace(old(v.Table()), old(v.disk), v.layout, d, old(SlotsOf(v, d)[i]), newSize, v.clusterSize,
                v.Table(), v.disk)
    ensures v.reliable ==> (ok <==> Truncatable(old(SlotsOf(v, d)[i]), newSize, old(v.Table()), v.clusterSize))
    ensures v.reliable && !ok ==> outcome == Refused
    ensures (ok || v.reliable) && old(v.Synced()) ==> v.Synced()
  {
    hide Consistent, FileTruncated, Live, Data, DirLocations, SlotsIn, Size, ClustersFor, FreeList, OthersUntouched,
      Contents, Next, Cluster, Unseen, GrownInPlace, ShrunkInPlace;
    HandleSlot(v, at, d, i);
    Basics(v, SlotsOf(v, d)[i]);
    file' := SlotsOf(v, d)[i];
    var entry := ReadDirectoryEntry(v, at);
    if entry.None? {
      return false, file', Refused;
    }
    var file := entry.value;
    if Attributes(file) != 32 {
      return false, file', Refused;
    }
    var oldSize := Size(file);
    if newSize > MAX_FILE_SIZE {
      return false, file', Refused;
    }
    if newSize == oldSize {
      SameSize(Geo(v), v.Table(), v.disk, v.layout, d, i, file);
      return true, file', Done;
    }
    var stored: Slot;
    if newSize < oldSize {
      ShrinkAlwaysFits(v.Table(), oldSize, newSize, v.clusterSize);
      ok, stored := ShrinkExistingFile(v, file, at, newSize, d, i);
      outcome := if ok then Done else CutShort;
    } else {
      ok, stored, outcome := GrowExistingFile(v, file, at, oldSize, newSize, d, i);
    }
    file' := stored;
  }

  /** When truncation is possible: a plain file, a 32-bit size, enough space. */
  ghost predicate Truncatable(s: Slot, size: nat, t: Table, clusterSize: nat) {
    Attributes(s) == 32 && size <= MAX_FILE_SIZE && Fits(t, Size(s), size, clusterSize)
  }

  lemma ShrinkAlwaysFits(t: Table, oldSize: nat, newSize: nat, clusterSize: nat)
    requires newSize <= oldSize && clusterSize > 0
    ensures Fits(t, oldSize, newSize, clusterSize)
  {
    hide ClustersFor, FreeList;
    ClustersMonotone(newSize, oldSize, clusterSize);
  }

  lemma SameSize(g: Geometry, t: Table, disk: Disk, l: Layout, d: nat, i: nat, s: Slot)
    requires Consistent(g, t, disk, l)
    requires d in l.dirs && d in l.chains && Live(DirSlots(disk, l.chains[d]), i)
    requires s == DirSlots(disk, l.chains[d])[i] && IsRegular(s)
    ensures FileTruncated(disk, l, disk, l, d, i, s, s, Size(s))
    ensures Fits(t, Size(s), Size(s), g.clusterSize)
  {
    hide Consistent, Live, Data, Size, Cluster, Owned, IsChain, ClustersFor, SlotsIn, FreeList;
    FileFacts(g, t, disk, l, d, i, s);
    SaneSize(g, t, disk, l);
    var b := Contents(disk, l.chains, s);
    assert b[..Size(s)] == b;
    assert WithSlot(DirSlots(disk, l.chains[d]), i, s) == DirSlots(disk, l.chains[d]);
  }

  lemma SaneSize(g: Geometry, t: Table, disk: Disk, l: Layout)
    requires Consistent(g, t, disk, l)
    ensures g.clusterSize > 0
  {
  }
}
