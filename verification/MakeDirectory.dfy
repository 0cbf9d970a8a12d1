/** Creating directories, with rollback of the new directory's own cluster. */
module MakeDirectory {

  import opened Base
  import opened Slots
  import opened FatTable
  import opened Ownership
  import opened LongNames
  import opened ShortNames
  import opened DirectoryParser
  import opened DirectoryEdits
  import opened NameEntries
  import opened ClusterData
  import opened FatVolume
  import opened FileData
  import opened Forest
  import opened TreeEdits
  import opened TreeOps
  import opened VolumeState
  import opened ResizeState
  import opened FileResize
  import opened FileAccess
  import opened DirectoryState
  import opened DirectorySlots
  import opened Lookup
  import opened Creation

  // ------------------------------------------- a cluster on its way into the tree

  /** An allocated cluster that nobody owns yet counts as reserved. */
  lemma Reserve(t: Table, chains: Chains, reserved: set<nat>, n: nat, t': Table)
    requires Owned(t, chains, reserved) && FreeList(t) != [] && n == FreeList(t)[0]
    requires Linked(t, FreeList(t)[..1], t')
    ensures Owned(t', chains, reserved + {n}) && n !in reserved
    ensures 2 <= n < |t'| && |t'| == |t| && t[n] == FREE && t' == t[n := EOF]
  {
    hide FreeList, IsChain;
    FreshUnused(t, chains, reserved, 1);
    assert FreeList(t)[..1] == [n];
    assert n in FreeList(t)[..1];
    forall f | f in chains ensures IsChain(t', chains[f]) {
      ChainInRange(t, chains, f);
      assert n !in chains[f];
      ChainFrame(t, t', chains[f]);
    }
  }

  /** Giving it back. */
  lemma Release(t: Table, chains: Chains, reserved: set<nat>, n: nat)
    requires Owned(t, chains, reserved + {n}) && n !in reserved && 2 <= n < |t|
    ensures Owned(t[n := FREE], chains, reserved)
    ensures n !in chains
  {
    hide IsChain;
    assert !Used(chains, n);
    var t' := t[n := FREE];
    forall f | f in chains ensures IsChain(t', chains[f]) && f != n {
      ChainInRange(t, chains, f);
      assert n !in chains[f];
      ChainFrame(t, t', chains[f]);
      assert chains[f][0] in chains[f];
    }
  }

  /** Turning it into a chain of its own. */
  lemma Join(t: Table, chains: Chains, reserved: set<nat>, n: nat)
    requires Owned(t, chains, reserved + {n}) && n !in reserved && 2 <= n < |t| && t[n] == EOF
    ensures Owned(t, chains[n := [n]], reserved)
  {
    hide IsChain, Used, Owned;
    var t0 := t[n := FREE];
    Release(t, chains, reserved, n);
    JoinSplit(t, chains, reserved, n);
    assert IsChain(t, [n]) by { SingleChain(t, n); }
    JoinOnly(t0, t, chains, reserved, n);
    ReplaceChain(t0, t, chains, n, [n], reserved);
  }

  lemma SingleChain(t: Table, n: nat)
    requires 2 <= n < |t| && t[n] == EOF
    ensures IsChain(t, [n])
  {
  }

  lemma JoinSplit(t: Table, chains: Chains, reserved: set<nat>, n: nat)
    requires Owned(t, chains, reserved + {n}) && n !in reserved && 2 <= n < |t| && t[n] == EOF
    ensures forall c :: 2 <= c < |t| && c !in reserved ==> (t[c] != FREE <==> c in [n] || UsedElsewhere(chains, n, c))
    ensures !Used(chains, n)
  {
    hide IsChain, UsedElsewhere, Used;
    assert !Used(chains, n);
    forall c | 2 <= c < |t| && c !in reserved ensures t[c] != FREE <==> c in [n] || UsedElsewhere(chains, n, c) {
      UsedSplit(chains, n, c);
      NotAChain(t, chains, n);
    }
  }

  lemma NotAChain(t: Table, chains: Chains, n: nat)
    requires AreChains(t, chains) && !Used(chains, n)
    ensures n !in chains
  {
    forall f | f in chains ensures f != n {
      ChainInRange(t, chains, f);
      assert chains[f][0] in chains[f];
    }
  }

  lemma JoinOnly(t0: Table, t: Table, chains: Chains, reserved: set<nat>, n: nat)
    requires 2 <= n < |t| && t0 == t[n := FREE] && IsChain(t, [n]) && !Used(chains, n)
    requires Owned(t0, chains, reserved)
    ensures OnlyChain(t0, t, chains, n, [n])
  {
    hide IsChain;
    forall c: nat | UsedElsewhere(chains, n, c) ensures c < |t| && t[c] == t0[c] && c != n {
      var g :| g in chains && g != n && c in chains[g];
      ChainInRange(t0, chains, g);
    }
  }

  // -------------------------------------------------------------- the new directory

  /** The bytes of a new directory: its two dot entries, then zeros. */
  ghost function InitialDirectory(clusterSize: nat, n: nat, parent: nat): seq<Byte>
    requires clusterSize >= 2 * SLOT_SIZE
  {
    Splice(Splice(Zeros(clusterSize), 0, DirectoryEntry(DotName(false), n)), SLOT_SIZE,
      DirectoryEntry(DotName(true), parent))
  }

  method InitializeDirectoryCluster(v: Volume, cluster: nat, parentCluster: nat) returns (ok: bool)
    requires v.clusterSize >= 2 * SLOT_SIZE
    requires cluster in v.disk ==> |v.disk[cluster]| == v.clusterSize
    modifies v`disk
    ensures ok ==>
              && cluster in old(v.disk)
              && v.disk == old(v.disk)[cluster := InitialDirectory(v.clusterSize, cluster, parentCluster)]
    ensures v.reliable && cluster in old(v.disk) ==> ok
    ensures !ok ==> OnlyIn(old(v.disk), v.disk, [cluster])
  {
    hide DirectoryEntry, DotName, Splice;
    var buffer: seq<Byte> := seq(v.clusterSize, _ => 0);
    assert buffer == Zeros(v.clusterSize);
    buffer := Splice(buffer, 0, DirectoryEntry(DotName(false), cluster));
    buffer := Splice(buffer, SLOT_SIZE, DirectoryEntry(DotName(true), parentCluster));
    ok := v.WriteCluster(cluster, buffer);
  }

  lemma NewDirectoryEntry(short: ShortName, c: nat)
    requires c <= 0xFFFF_FFFF && short[0] != 0x00 && short[0] != 0xE5
    ensures var s := DirectoryEntry(short, c);
            Name(s) == short && IsDirectory(s) && IsShortEntry(s) && Cluster(s) == c && !IsEnd(s)
  {
    hide SetCluster, Cluster;
    var e := NewEntry(short, DIRECTORY_ATTRIBUTES);
    ClusterRoundTrip(e, c);
    assert e[..11] == short && e[11] == DIRECTORY_ATTRIBUTES;
    NameAndAttributes(e);
    NameAndAttributes(SetCluster(e, c));
  }

  lemma NameAndAttributes(s: Slot)
    ensures s[0] == Name(s)[0] && s[11] == Attributes(s)
  {
  }

  /** The slots of the initial bytes: two entries, then only end markers. */
  lemma InitialSlots(clusterSize: nat, n: nat, parent: nat)
    requires clusterSize >= 2 * SLOT_SIZE
    ensures var ss := SlotsIn(InitialDirectory(clusterSize, n, parent));
            && |ss| >= 2 && ss[0] == DirectoryEntry(DotName(false), n) && ss[1] == DirectoryEntry(DotName(true), parent)
            && forall i :: 2 <= i < |ss| ==> IsEnd(ss[i])
  {
    hide SlotsIn, Splice, DirectoryEntry, DotName, Zeros;
    var z, dot, dotDot := Zeros(clusterSize), DirectoryEntry(DotName(false), n), DirectoryEntry(DotName(true), parent);
    ZerosAreEnds(clusterSize);
    SlotsSplice(z, 0, dot);
    SlotsSplice(Splice(z, 0, dot), 1, dotDot);
    var ss := SlotsIn(InitialDirectory(clusterSize, n, parent));
    assert ss == SlotsIn(z)[0 := dot][1 := dotDot];
  }

  /** Two dot entries and nothing but end markers: a well-formed new directory. */
  lemma InitialIsNewDirectory(root: nat, l: Layout, d: nat, s: Slot, n: nat, ns: seq<Slot>)
    requires |ns| >= 2 && ns[0] == DirectoryEntry(DotName(false), n) && ns[1] == DirectoryEntry(DotName(true), d)
    requires forall i :: 2 <= i < |ns| ==> IsEnd(ns[i])
    requires IsDirectory(s) && !IsDotName(Name(s)) && Cluster(s) == n
    requires n !in l.chains && 0 < n <= 0xFFFF_FFFF && 0 < d <= 0xFFFF_FFFF
    ensures NewDirectory(root, l, d, s, n, ns) && Empty(ns)
  {
    hide DirectoryEntry, DotName, Cluster, IsDirectory, EntryAt, Name;
    DotStarts();
    NewDirectoryEntry(DotName(false), n);
    NewDirectoryEntry(DotName(true), d);
    EndUnique(ns, 2);
    TwoEntriesShaped(ns);
  }

  lemma DotStarts()
    ensures DotName(false)[0] == DotName(true)[0] == 0x2E
  {
  }

  lemma TwoEntriesShaped(ns: seq<Slot>)
    requires |ns| >= 2 && IsShortEntry(ns[0]) && IsShortEntry(ns[1]) && End(ns) == 2
    requires forall i :: 2 <= i < |ns| ==> IsEnd(ns[i])
    ensures Shaped(ns)
  {
    hide EntryAt, OwnsLong, Live, End;
    assert Barrier(ns[0]) && Barrier(ns[1]);
  }

  // -------------------------------------------------------------------- volume states

  /** The geometry while the cluster `n` is on its way into the tree. */
  ghost function Holding(g: Geometry, n: nat): Geometry {
    g.(reserved := g.reserved + {n})
  }

  /** Allocating and filling the new cluster keeps the volume consistent. */
  lemma ClusterAllocated(g: Geometry, t: Table, disk: Disk, l: Layout, d: nat, n: nat, t': Table, b: seq<Byte>)
    requires FreeList(t) != [] && n == FreeList(t)[0] && Linked(t, FreeList(t)[..1], t') && |b| == g.clusterSize
    requires Consistent(g, t, disk, l) && d in l.dirs
    ensures n !in g.reserved && 2 <= n < |t'| && |t'| == |t| && t[n] == FREE && t' == t[n := EOF]
    ensures Consistent(Holding(g, n), t', disk[n := b], l) && Preserved(disk, l, disk[n := b], l, {d})
    ensures d in l.chains && DirSlots(disk[n := b], l.chains[d]) == DirSlots(disk, l.chains[d])
  {
    hide Tree, Owned, FreeList, Linked, Data, SlotsIn;
    Reserve(t, l.chains, g.reserved, n, t');
    ReservedUnused(t', l.chains, g.reserved + {n}, n);
    UnusedCluster(g, t, t', disk, l, n, b, disk[n := b]);
    TreeKeys(g.root, g.clusterSize, ViewOf(disk, l), l);
    ViewFrame(disk, disk[n := b], l, l);
  }

  lemma ReservedUnused(t: Table, chains: Chains, reserved: set<nat>, n: nat)
    requires Owned(t, chains, reserved) && n in reserved && 2 <= n < |t|
    ensures !Used(chains, n)
  {
  }

  /** Giving the new cluster back keeps the volume consistent. */
  lemma GivenBack(g: Geometry, t: Table, disk: Disk, l: Layout, n: nat)
    requires n !in g.reserved && 2 <= n < |t| && Consistent(Holding(g, n), t, disk, l)
    ensures Consistent(g, t[n := FREE], disk, l) && n !in l.chains
  {
    hide Tree, Owned;
    Release(t, l.chains, g.reserved, n);
  }

  /** The new directory's cluster joins the tree together with its entry. */
  lemma DirectoryCreated(g: Geometry, t: Table, disk: Disk, l: Layout, d: nat, disk1: Disk, disk': Disk, l0: Layout,
                         a: nat, longs: seq<Slot>, s: Slot, name: string, n: nat, x: nat)
    requires n !in g.reserved && 2 <= n < |t| && t[n] == EOF && x == a + |longs|
    requires Preserved(disk, l0, disk1, l, {d})
    requires d in l.dirs && d in l.chains && IsRun(longs + [s], name)
    requires IsDirectory(s) && !IsDotName(Name(s)) && Cluster(s) == n
    requires Consistent(Holding(g, n), t, disk1, l)
    requires Formatted(t, disk', g.clusterSize) && OthersUntouched(disk1, disk', l.chains, d)
    requires Inserted(DirSlots(disk1, l.chains[d]), a, longs + [s], DirSlots(disk', l.chains[d]))
    requires g.clusterSize >= 2 * SLOT_SIZE && Get(disk', n) == InitialDirectory(g.clusterSize, n, d)
    ensures Consistent(g, t, disk', WithDirectory(l, d, x, n))
              && Preserved(disk, l0, disk', WithDirectory(l, d, x, n), {d})
    ensures n !in l.chains && Empty(DirSlots(disk', [n])) && Sized(t)
  {
    hide Consistent, Preserved, DirSlots, Inserted, IsRun, IsDirectory, Cluster, Formatted, OthersUntouched,
      InitialDirectory, NewDirectory, Empty, WithDirectory, Owned;
    var run := longs + [s];
    assert run[|run| - 1] == s;
    GivenBack(g, t, disk1, l, n);
    JoinState(g, t, disk1, l, n);
    DirBounds(g, t, disk1, l, d, n);
    SingleSlots(disk', n);
    InitialSlots(g.clusterSize, n, d);
    InitialIsNewDirectory(g.root, l, d, s, n, DirSlots(disk', [n]));
    InsertDirectoryCommit(g, t, t[n := FREE], disk1, l, d, disk', a, run, name, x, n);
    PreservedTrans(disk, l0, disk1, l, disk', WithDirectory(l, d, x, n), {d});
  }

  lemma JoinState(g: Geometry, t: Table, disk: Disk, l: Layout, n: nat)
    requires n !in g.reserved && 2 <= n < |t| && t[n] == EOF && Consistent(Holding(g, n), t, disk, l)
    ensures Owned(t, l.chains[n := [n]], g.reserved)
  {
    hide Tree, Owned;
    Join(t, l.chains, g.reserved, n);
  }

  lemma DirBounds(g: Geometry, t: Table, disk: Disk, l: Layout, d: nat, n: nat)
    requires 2 <= n < |t| && Consistent(Holding(g, n), t, disk, l) && d in l.chains
    ensures n <= 0xFFFF_FFFF && 0 < d <= 0xFFFF_FFFF && Sized(t)
  {
    hide Tree, IsChain;
    ChainInRange(t, l.chains, d);
  }

  lemma SingleSlots(disk: Disk, n: nat)
    ensures DirSlots(disk, [n]) == SlotsIn(Get(disk, n))
  {
    hide SlotsIn;
    assert Data(disk, [n]) == Get(disk, n) + Data(disk, []) == Get(disk, n);
  }

  // ------------------------------------------------------------------------ the method

  /** At most one cluster is left to allocate. */
  ghost predicate NearlyFull(t: Table) {
    forall c, c' :: 2 <= c < |t| && 2 <= c' < |t| && t[c] == FREE && t[c'] == FREE ==> c == c'
  }

  lemma FullThenFreed(t: Table, n: nat)
    requires FreeList(t) == [] && n < |t|
    ensures NearlyFull(t[n := FREE])
  {
    FreeListExact(t, 2);
  }

  lemma FullIsNearlyFull(t: Table)
    requires FreeList(t) == []
    ensures NearlyFull(t)
  {
    FreeListExact(t, 2);
  }

  /** Frees the cluster of a directory that could not be entered. */
  method RollbackAllocatedChain(v: Volume, cluster: nat)
    modifies v`copies, v.fat.words
    ensures cluster < |old(v.Table())| && old(v.Table())[cluster] == EOF ==>
              v.Table() == old(v.Table())[cluster := FREE]
    ensures v.reliable ==> v.Synced()
  {
    ghost var t0 := v.Table();
    var freed := v.fat.FreeChain(cluster);
    assert cluster < |t0| && t0[cluster] == EOF ==> Next(t0, cluster) == None;
    var persisted := v.PersistFat();
  }

  lemma LegalName(short: ShortName)
    requires Legal(short)
    ensures short[0] != 0x00 && short[0] != 0xE5 && !IsDotName(short)
  {
    DotStarts();
  }

  /** Facts that outlast the change of ownership after the entry is stored. */
  lemma LengthenedParts(v: Volume, d: nat, disk: Disk, l: Layout, ss: seq<Slot>, t: Table, disk1: Disk)
    requires Lengthened(v, d, disk, l, ss, t, disk1)
    ensures Consistent(Geo(v), v.Table(), disk1, v.layout) && d in v.layout.dirs && d in v.layout.chains
    ensures SameHolders(l, v.layout) && Preserved(disk, l, disk1, v.layout, {d}) && |v.Table()| == |t|
    ensures OnlyEnds(ss, DirSlots(disk1, v.layout.chains[d]))
  {
  }

  lemma KeptWord(t: Table, disk: Disk, t': Table, disk': Disk, reserved: set<nat>, n: nat)
    requires Kept(t, disk, t', disk', reserved) && n in reserved && 2 <= n < |t|
    ensures n < |t'| && t'[n] == t[n] && Get(disk', n) == Get(disk, n)
  {
  }

  /** Stores the entry of a directory whose cluster is ready, or frees the cluster. */
  method EnterDirectory(v: Volume, parentCluster: nat, cluster: nat, name: string, short: ShortName, longs: seq<Slot>,
                        ghost taken: seq<ShortName>, ghost reserved: set<nat>)
    returns (ok: bool, ghost x: nat)
    requires Good(v) && parentCluster in v.layout.dirs
    requires v.reserved == reserved + {cluster} && cluster !in reserved
    requires 2 <= cluster < |v.Table()| && v.Table()[cluster] == EOF && v.clusterSize >= 2 * SLOT_SIZE
    requires Get(v.disk, cluster) == InitialDirectory(v.clusterSize, cluster, parentCluster)
    requires Absent(ListingOf(v, parentCluster), name) && AreTaken(SlotsOf(v, parentCluster), taken)
             && Prepared(name, taken, short, longs)
    modifies v`disk, v`copies, v`layout, v`reserved, v.fat.words
    ensures v.reserved == reserved
    ensures Preserved(old(v.disk), old(v.layout), v.disk, v.layout, {parentCluster})
    ensures ok || v.reliable ==> Good(v)
    ensures (ok || v.reliable) && old(v.Synced()) ==> v.Synced()
    ensures ok ==> ListingGains(old(SlotsOf(v, parentCluster)), SlotsOf(v, parentCluster), x)
    ensures ok ==> x < |SlotsOf(v, parentCluster)| && EntryAt(SlotsOf(v, parentCluster), x).name == StoredAs(name)
    ensures ok ==> IsDirectory(SlotsOf(v, parentCluster)[x]) && Cluster(SlotsOf(v, parentCluster)[x]) == cluster
    ensures Nameable(name)
    ensures ok ==> cluster !in old(v.layout.chains) && v.layout.dirs == old(v.layout.dirs) + {cluster}
    ensures ok ==>
              && cluster in v.layout.holder
              && v.layout.holder[cluster] == Place(parentCluster, x)
              && Empty(SlotsOf(v, cluster))
    ensures ok && Plain(name) ==> NamesOnly(SlotsOf(v, parentCluster), name, x)
    ensures ok && Plain(name) && DistinctNames(old(SlotsOf(v, parentCluster))) ==>
              DistinctNames(SlotsOf(v, parentCluster))
    ensures ok && |SlotsOf(v, parentCluster)| == |old(SlotsOf(v, parentCluster))| ==>
              v.Table() == old(v.Table()) && v.layout.chains == old(v.layout.chains)[cluster := [cluster]]
    ensures !ok ==> SameHolders(old(v.layout), v.layout)
    ensures v.reliable && !ok ==> NearlyFull(v.Table())
    ensures v.reliable && !ok ==> OnlyEnds(old(SlotsOf(v, parentCluster)), SlotsOf(v, parentCluster))
  {
    hide Consistent, Preserved, DirSlots, DirLocations, Shaped, OnDisk, FreeList, OnlyEnds, Kept, Inserted, Formatted,
      OthersUntouched, Listing, Absent, Prepared, Plain, NamesOnly, DistinctNames, Live, EntryAt, IsRun, Legal,
      SameHolders, ListingGains, IsPlace, Cluster, ArePlaces, AreTaken, InitialDirectory, NearlyFull, Empty,
      Lengthened, IsDirectory, IsDotName, Name, IsShortEntry, DirectoryEntry, ShortOf, EncodeLongName, StoredAs;
    ghost var g, d, n := Geometry(v.rootCluster, v.clusterSize, reserved), parentCluster, cluster;
    ghost var t0, disk0, l0, ss0 := v.Table(), v.disk, v.layout, SlotsOf(v, d);
    x := 0;
    DirFacts(v, d);
    assert Geo(v) == Holding(g, n);
    DirBounds(g, t0, disk0, l0, d, n);
    PreparedLegal(name, taken, short, longs);
    LegalName(short);
    NewDirectoryEntry(short, cluster);
    var entry := DirectoryEntry(short, cluster);
    var stored; ghost var a, disk1;
    stored, a, disk1 := PersistNewEntry(v, parentCluster, longs, entry);
    ghost var t2, l2 := v.Table(), v.layout;
    OthersSpared(v, d, disk0, l0, ss0, t0, disk1);
    LengthenedParts(v, d, disk0, l0, ss0, t0, disk1);
    KeptWord(t0, disk0, t2, v.disk, v.reserved, n);
    StoredNameIs(name, taken, short, longs);
    v.reserved := reserved;
    if stored.None? {
      RollbackAllocatedChain(v, cluster);
      if v.reliable {
        GivenBack(g, t2, disk1, l2, n);
        FullThenFreed(t2, n);
      }
      return false, 0;
    }
    x := a + |longs|;
    PreparedRun(name, taken, short, longs, entry);
    DirectoryCreated(g, t2, disk0, l2, d, disk1, v.disk, l0, a, longs, entry, StoredName(name, short, longs), n, x);
    CreatedMeans(ss0, a, longs, entry, DirSlots(v.disk, l2.chains[d]), name, taken, x);
    GainsBound(ss0, DirSlots(v.disk, l2.chains[d]), x);
    v.layout := WithDirectory(l2, d, x, n);
    SameKeys(l0, l2);
    return true, x;
  }

  lemma GainsBound(ss: seq<Slot>, ss': seq<Slot>, x: nat)
    requires ListingGains(ss, ss', x)
    ensures x < |ss'|
  {
  }

  lemma SameKeys(l: Layout, l': Layout)
    requires SameHolders(l, l')
    ensures l'.chains.Keys == l.chains.Keys && l'.dirs == l.dirs
  {
  }

  /** Creates an empty directory; refuses a name that matches a listed entry. */
  method CreateDirectory(v: Volume, parentCluster: nat, name: string) returns (ok: bool, ghost x: nat, ghost n: nat)
    requires Good(v) && parentCluster in v.layout.dirs
    modifies v`disk, v`copies, v`layout, v`reserved, v.fat.words
    ensures v.reserved == old(v.reserved)
    ensures Preserved(old(v.disk), old(v.layout), v.disk, v.layout, {parentCluster})
    ensures ok || v.reliable ==> Good(v)
    ensures (ok || v.reliable) && old(v.Synced()) ==> v.Synced()
    ensures ok ==> Absent(old(ListingOf(v, parentCluster)), name) && Nameable(name)
    ensures ok ==> ListingGains(old(SlotsOf(v, parentCluster)), SlotsOf(v, parentCluster), x)
    ensures ok ==> x < |SlotsOf(v, parentCluster)| && EntryAt(SlotsOf(v, parentCluster), x).name == StoredAs(name)
    ensures ok ==> IsDirectory(SlotsOf(v, parentCluster)[x]) && Cluster(SlotsOf(v, parentCluster)[x]) == n
    ensures ok ==> n !in old(v.layout.chains) && v.layout.dirs == old(v.layout.dirs) + {n}
    ensures ok ==> n in v.layout.holder && v.layout.holder[n] == Place(parentCluster, x) && Empty(SlotsOf(v, n))
    ensures ok && Plain(name) ==> NamesOnly(SlotsOf(v, parentCluster), name, x)
    ensures ok && Plain(name) && DistinctNames(old(SlotsOf(v, parentCluster))) ==>
              DistinctNames(SlotsOf(v, parentCluster))
    ensures ok ==> n < |old(v.Table())| && old(v.Table())[n] == FREE
    ensures ok && |SlotsOf(v, parentCluster)| == |old(SlotsOf(v, parentCluster))| ==>
              v.Table() == old(v.Table())[n := EOF] && v.layout.chains == old(v.layout.chains)[n := [n]]
    ensures !ok ==> SameHolders(old(v.layout), v.layout)
    ensures v.reliable && !ok ==> OnlyEnds(old(SlotsOf(v, parentCluster)), SlotsOf(v, parentCluster))
    ensures v.reliable && !ok ==>
              || !Absent(old(ListingOf(v, parentCluster)), name) || !Nameable(name)
              || |old(ListingOf(v, parentCluster))| >= MAX_TAIL || NearlyFull(v.Table())
  {
    hide Consistent, Preserved, DirSlots, DirLocations, Shaped, OnDisk, FreeList, OnlyEnds, Listing, Absent, Prepared,
      Plain, NamesOnly, DistinctNames, Live, EntryAt, SameHolders, ListingGains, AreTaken, Nameable, InitialDirectory,
      NearlyFull, Empty, Linked, IsDirectory, Cluster, StoredAs, OnlyIn;
    ghost var g, d, t0, disk0, l0, ss0 := Geo(v), parentCluster, v.Table(), v.disk, v.layout, SlotsOf(v, parentCluster);
    x, n := 0, 0;
    DirFacts(v, d);
    SelfSame(disk0, l0, ss0, d);
    var prepared; ghost var taken;
    prepared, taken := PrepareNew(v, parentCluster, name);
    if prepared.None? {
      return false, 0, 0;
    }
    AllocationReady(g, t0, disk0, l0);
    var cluster := v.fat.AllocateChain(1);
    if cluster.None? {
      FullIsNearlyFull(t0);
      return false, 0, 0;
    }
    ghost var t1 := v.Table();
    n := cluster.value;
    FreshOnDisk(g, t0, disk0, l0);
    var initialized := InitializeDirectoryCluster(v, cluster.value, parentCluster);
    if !initialized {
      SpareSpared(g, t0, disk0, l0, d, n, v.disk);
      var freed := v.fat.FreeChain(cluster.value);
      return false, 0, 0;
    }
    InitialLength(v.clusterSize, n, d);
    ClusterAllocated(g, t0, disk0, l0, d, n, t1, InitialDirectory(v.clusterSize, n, d));
    var persisted := v.PersistFat();
    if !persisted {
      RollbackAllocatedChain(v, cluster.value);
      return false, 0, 0;
    }
    v.reserved := v.reserved + {n};
    ghost var disk2 := v.disk;
    ok, x := EnterDirectory(v, parentCluster, cluster.value, name, prepared.value.0, prepared.value.1, taken,
      g.reserved);
    PreservedTrans(disk0, l0, disk2, l0, v.disk, v.layout, {d});
  }

  /** Scribbling over the cluster just allocated harms nobody. */
  lemma SpareSpared(g: Geometry, t: Table, disk: Disk, l: Layout, d: nat, c: nat, disk': Disk)
    requires Consistent(g, t, disk, l) && FreeList(t) != [] && c == FreeList(t)[0] && OnlyIn(disk, disk', [c])
    ensures Preserved(disk, l, disk', l, {d})
  {
    hide Tree, Owned, FreeList, OnlyIn, Data, Formatted;
    FreeClusterUnused(t, l.chains, g.reserved, c);
    SpareDisk(g, t, disk, l, c, disk', t);
  }

  lemma AllocationReady(g: Geometry, t: Table, disk: Disk, l: Layout)
    requires Consistent(g, t, disk, l)
    ensures Sized(t) && g.clusterSize >= 2 * SLOT_SIZE
  {
    hide Tree;
  }

  lemma InitialLength(clusterSize: nat, n: nat, parent: nat)
    requires clusterSize >= 2 * SLOT_SIZE
    ensures |InitialDirectory(clusterSize, n, parent)| == clusterSize
  {
  }
}
