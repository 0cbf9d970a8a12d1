/** Loading a directory and finding or making room for new entries. */
module DirectorySlots {

  import opened Base
  import opened Slots
  import opened FatTable
  import opened Ownership
  import opened DirectoryParser
  import opened DirectoryEdits
  import opened ClusterData
  import opened FatVolume
  import opened FileData
  import opened Forest
  import opened TreeOps
  import opened VolumeState
  import opened ResizeState
  import opened FileResize
  import opened DirectoryState

  // -------------------------------------------------------------------- loading

  lemma RawAppend(a: seq<LocatedSlot>, b: seq<LocatedSlot>)
    ensures Raw(a + b) == Raw(a) + Raw(b)
    ensures Locations(a + b) == Locations(a) + Locations(b)
  {
  }

  method ClusterSlots(cluster: nat, region: seq<Byte>) returns (slots: seq<LocatedSlot>)
    ensures Raw(slots) == SlotsIn(region)
    ensures Locations(slots) == ClusterLocations(cluster, |region| / SLOT_SIZE)
  {
    slots := [];
    var index := 0;
    while index < |region| / SLOT_SIZE
      invariant 0 <= index <= |region| / SLOT_SIZE && |slots| == index
      invariant forall k :: 0 <= k < index ==>
                slots[k] == LocatedSlot(SlotAt(region, k), Location(cluster, k, SLOT_SIZE * k))
    {
      slots := slots + [LocatedSlot(SlotAt(region, index), Location(cluster, index, SLOT_SIZE * index))];
      index := index + 1;
    }
  }

  /** `slots` are the first `k` clusters of the directory stored in `cs`. */
  ghost predicate Loaded(disk: Disk, cs: seq<nat>, k: nat, perCluster: nat, slots: seq<LocatedSlot>) {
    && k <= |cs|
    && Raw(slots) == DirSlots(disk, cs[..k])
    && Locations(slots) == DirLocations(cs[..k], perCluster)
  }

  lemma LoadedNext(disk: Disk, cs: seq<nat>, k: nat, perCluster: nat, slots: seq<LocatedSlot>, more: seq<LocatedSlot>)
    requires Loaded(disk, cs, k, perCluster, slots) && k < |cs| && Holds(disk, cs, SLOT_SIZE * perCluster)
    requires Raw(more) == SlotsIn(disk[cs[k]]) && Locations(more) == ClusterLocations(cs[k], perCluster)
    ensures Loaded(disk, cs, k + 1, perCluster, slots + more)
  {
    hide SlotsIn, Start, Raw, Locations;
    var pre := cs[..k];
    assert cs[..k + 1] == pre + [cs[k]];
    DataSplit(disk, pre, [cs[k]]);
    assert Data(disk, [cs[k]]) == disk[cs[k]] by {
      assert Data(disk, [cs[k]]) == Get(disk, cs[k]) + Data(disk, []);
    }
    DataLength(disk, pre, SLOT_SIZE * perCluster);
    StartScale(k, perCluster);
    SlotsAppend(Data(disk, pre), disk[cs[k]]);
    DirLocationsSplit(pre, [cs[k]], perCluster);
    assert DirLocations([cs[k]], perCluster) == ClusterLocations(cs[k], perCluster) by {
      assert DirLocations([cs[k]], perCluster) == ClusterLocations(cs[k], perCluster) + DirLocations([], perCluster);
    }
    RawAppend(slots, more);
  }

  lemma LoadedNone(disk: Disk, cs: seq<nat>, perCluster: nat)
    ensures Loaded(disk, cs, 0, perCluster, [])
  {
    assert cs[..0] == [];
    assert SlotsIn([]) == [];
  }

  /** Every slot of a directory, with its location, and the last cluster. */
  method LoadDirectorySlots(v: Volume, first: nat, ghost cs: seq<nat>) returns (r: Option<(seq<LocatedSlot>, nat)>)
    requires OnDisk(v.Table(), v.disk, cs, v.clusterSize) && cs[0] == first
    requires v.clusterSize == SLOT_SIZE * (v.clusterSize / SLOT_SIZE)
    ensures r.Some? ==> Raw(r.value.0) == DirSlots(v.disk, cs)
    ensures r.Some? ==> Locations(r.value.0) == DirLocations(cs, v.clusterSize / SLOT_SIZE)
    ensures r.Some? ==> r.value.1 == cs[|cs| - 1]
    ensures v.reliable ==> r.Some?
  {
    hide IsChain, Loaded, DirSlots, DirLocations, Raw, Locations;
    ghost var per := v.clusterSize / SLOT_SIZE;
    ChainBasics(v.Table(), cs);
    var slots: seq<LocatedSlot> := [];
    var cluster: nat := first;
    ghost var k: nat := 0;
    LoadedNone(v.disk, cs, per);
    while true
      invariant k < |cs| && cluster == cs[k]
      invariant Loaded(v.disk, cs, k, per, slots)
      decreases |cs| - k
    {
      var region := v.ReadCluster(cluster);
      if region.None? {
        return None;
      }
      var more := ClusterSlots(cluster, region.value);
      LoadedNext(v.disk, cs, k, per, slots, more);
      slots := slots + more;
      ChainNext(v.Table(), cs, k);
      var next := v.fat.NextCluster(cluster);
      if next.None? {
        LoadedAll(v.disk, cs, per, slots);
        return Some((slots, cluster));
      }
      cluster, k := next.value, k + 1;
    }
  }

  lemma LoadedAll(disk: Disk, cs: seq<nat>, perCluster: nat, slots: seq<LocatedSlot>)
    requires Loaded(disk, cs, |cs|, perCluster, slots)
    ensures Raw(slots) == DirSlots(disk, cs) && Locations(slots) == DirLocations(cs, perCluster)
  {
    assert cs[..|cs|] == cs;
  }

  /** A live directory of a consistent volume can be loaded. */
  lemma DirFacts(v: Volume, d: nat)
    requires Good(v) && d in v.layout.dirs
    ensures d in v.layout.chains && OnDisk(v.Table(), v.disk, v.layout.chains[d], v.clusterSize)
    ensures v.layout.chains[d] != [] && v.layout.chains[d][0] == d
    ensures v.clusterSize == SLOT_SIZE * (v.clusterSize / SLOT_SIZE) && v.clusterSize / SLOT_SIZE >= 2
    ensures Shaped(SlotsOf(v, d)) && PerCluster(Geo(v)) == v.clusterSize / SLOT_SIZE
    ensures |SlotsOf(v, d)| == |DirLocations(v.layout.chains[d], v.clusterSize / SLOT_SIZE)|
  {
    hide Tree, Owned, Data, SlotsIn, Shaped, IsChain, Start, DirLocations;
    var g := Geo(v);
    TreeKeys(g.root, g.clusterSize, ViewOf(v.disk, v.layout), v.layout);
    ChainOnDisk(g, v.Table(), v.disk, v.layout.chains, d);
    ShapedIn(g.root, g.clusterSize, ViewOf(v.disk, v.layout), v.layout, d);
    SlotCount(g, v.Table(), v.disk, v.layout.chains, d);
    ChainBasics(v.Table(), v.layout.chains[d]);
  }

  // ------------------------------------------------------------------ extending

  method ClearCluster(v: Volume, cluster: nat) returns (ok: bool)
    requires cluster in v.disk ==> |v.disk[cluster]| == v.clusterSize
    modifies v`disk
    ensures ok ==> cluster in old(v.disk) && v.disk == old(v.disk)[cluster := Zeros(v.clusterSize)]
    ensures v.reliable && cluster in old(v.disk) ==> ok
    ensures !ok ==> OnlyIn(old(v.disk), v.disk, [cluster])
  {
    var buffer: seq<Byte> := seq(v.clusterSize, _ => 0);
    assert buffer == Zeros(v.clusterSize);
    ok := v.WriteCluster(cluster, buffer);
  }

  /** Links a new cleared cluster to the end of a directory. */
  method AppendDirectoryCluster(v: Volume, last: nat, ghost d: nat) returns (r: Option<nat>)
    requires Good(v) && d in v.layout.dirs && d in v.layout.chains && v.layout.chains[d] != []
    requires last == v.layout.chains[d][|v.layout.chains[d]| - 1]
    modifies v`disk, v`copies, v`layout, v.fat.words
    ensures r.Some? ==> Good(v) && v.Synced()
    ensures r.Some? ==> v.layout == ExtendedLayout(old(v.layout), d, r.value)
    ensures r.Some? ==>
              && SlotsOf(v, d) == old(SlotsOf(v, d)) + SlotsIn(Zeros(v.clusterSize))
              && AllEnd(SlotsIn(Zeros(v.clusterSize)))
    ensures r.Some? ==> Preserved(old(v.disk), old(v.layout), v.disk, v.layout, {d})
    ensures r.Some? ==> Kept(old(v.Table()), old(v.disk), v.Table(), v.disk, v.reserved)
    ensures v.reliable ==> (r.Some? <==> FreeList(old(v.Table())) != [])
    ensures r.None? ==> Good(v) && v.layout == old(v.layout) && SlotsOf(v, d) == old(SlotsOf(v, d))
    ensures r.None? ==> Invisible(old(v.Table()), old(v.disk), v.layout, v.Table(), v.disk)
    ensures r.None? ==> Kept(old(v.Table()), old(v.disk), v.Table(), v.disk, v.reserved)
    ensures v.reliable && r.None? ==> v.disk == old(v.disk) && v.Table() == old(v.Table()) && v.copies == old(v.copies)
  {
    hide Consistent, FreeList, Linked, Extended, IsChain, Preserved, DirSlots, AllEnd, Zeros, OnDisk, Shaped, Kept,
      Invisible, OnlyIn, FreeFrom;
    ghost var g, t0, disk0, l0 := Geo(v), v.Table(), v.disk, v.layout;
    AppendReady(g, t0, disk0, l0, d);
    var c := v.fat.AllocateChain(1);
    if c.None? {
      NothingVisible(t0, disk0, l0);
      KeptSelf(t0, disk0, v.reserved);
      return None;
    }
    ghost var t1 := v.Table();
    FreshOnDisk(g, t0, disk0, l0);
    LastBehind(g, t0, disk0, l0, d, t1);
    var linked := v.fat.Set(last, c.value);
    ghost var t2 := v.Table();
    AppendLinked(g, t0, disk0, l0, d, t1, t2);
    OnlyInSelf(disk0, [c.value]);
    var persisted := v.PersistFat();
    var cleared := false;
    if persisted {
      cleared := ClearCluster(v, c.value);
    }
    if !cleared {
      AppendUndone(g, t0, disk0, l0, d, t2, v.disk, c.value);
      var ended := v.fat.Set(last, EOF);
      var freed := v.fat.FreeChain(c.value);
      var again := v.PersistFat();
      return None;
    }
    ExtendCommit(g, t0, disk0, l0, d, t2, v.disk, c.value);
    ExtendKeeps(g, t0, disk0, l0, d, t2, v.disk, c.value);
    v.layout := ExtendedLayout(l0, d, c.value);
    return c;
  }

  /** Same successors, same free clusters, same bytes in every chain. */
  ghost predicate Invisible(t: Table, disk: Disk, l: Layout, t': Table, disk': Disk) {
    && |t'| == |t| && FreeList(t') == FreeList(t)
    && (forall c: nat :: Next(t', c) == Next(t, c))
    && forall h :: h in l.chains ==> Data(disk', l.chains[h]) == Data(disk, l.chains[h])
  }

  lemma NothingVisible(t: Table, disk: Disk, l: Layout)
    ensures Invisible(t, disk, l, t, disk)
  {
  }

  /** Unlinking and freeing a cluster that could not be cleared hides the attempt. */
  lemma AppendUndone(g: Geometry, t: Table, disk: Disk, l: Layout, d: nat, t2: Table, disk': Disk, c: nat)
    requires Consistent(g, t, disk, l) && d in l.dirs && d in l.chains && l.chains[d] != []
    requires FreeList(t) != [] && c == FreeList(t)[0] && Extended(t, l.chains[d][|l.chains[d]| - 1], 1, t2)
    requires OnlyIn(disk, disk', [c]) && |t2| == |t|
    ensures var last := l.chains[d][|l.chains[d]| - 1];
            && last < |t|
            && FreeFrom(t2[last := EOF], c) == (t[last := EOF], true)
            && Consistent(g, t[last := EOF], disk', l)
            && Invisible(t, disk, l, t[last := EOF], disk')
            && Kept(t, disk, t[last := EOF], disk', g.reserved)
            && DirSlots(disk', l.chains[d]) == DirSlots(disk, l.chains[d])
  {
    hide Tree, Owned, FreeList, Extended, IsChain, Data, SlotsIn, FreeFrom, Next, Kept, OnlyIn;
    var cs, last := l.chains[d], l.chains[d][|l.chains[d]| - 1];
    AppendReady(g, t, disk, l, d);
    assert last in cs;
    FreshApart(t, cs, 1);
    UndoExtended(t, cs, 1, t2);
    SameSuccessors(t, cs);
    TreeKeys(g.root, g.clusterSize, ViewOf(disk, l), l);
    OwnRemarked(t, l.chains, g.reserved, d, cs, t[last := EOF]);
    FreeClusterUnused(t, l.chains, g.reserved, c);
    SpareDisk(g, t, disk, l, c, disk', t[last := EOF]);
    ViewFrame(disk, disk', l, l);
    RemarkKept(t, disk, l.chains, g.reserved, d, c, disk');
  }

  lemma FreeClusterUnused(t: Table, chains: Chains, reserved: set<nat>, c: nat)
    requires Owned(t, chains, reserved) && FreeList(t) != [] && c == FreeList(t)[0]
    ensures 2 <= c < |t| && !Used(chains, c) && c !in reserved && t[c] == FREE
  {
    hide FreeList, Owned;
    FreshUnused(t, chains, reserved, 1);
    assert c in FreeList(t)[..1];
  }

  /** Bytes of a cluster nobody uses may change. */
  lemma SpareDisk(g: Geometry, t: Table, disk: Disk, l: Layout, c: nat, disk': Disk, t': Table)
    requires !Used(l.chains, c) && 2 <= c < |t| == |t'| && Formatted(t, disk, g.clusterSize) && OnlyIn(disk, disk', [c])
    ensures Formatted(t', disk', g.clusterSize)
    ensures forall h :: h in l.chains ==> Data(disk', l.chains[h]) == Data(disk, l.chains[h])
  {
    hide Data;
    assert disk' == disk[c := disk'[c]];
    UnusedCluster(g, t, t', disk, l, c, disk'[c], disk');
  }

  lemma RemarkKept(t: Table, disk: Disk, chains: Chains, reserved: set<nat>, d: nat, c: nat, disk': Disk)
    requires Owned(t, chains, reserved) && d in chains && chains[d] != [] && chains[d][|chains[d]| - 1] < |t|
    requires c !in reserved && OnlyIn(disk, disk', [c])
    ensures Kept(t, disk, t[chains[d][|chains[d]| - 1] := EOF], disk', reserved)
  {
    hide IsChain;
    var last := chains[d][|chains[d]| - 1];
    forall k | k in reserved && 2 <= k < |t| ensures k != last && k != c {
      assert !Used(chains, k);
      assert last in chains[d];
    }
  }

  lemma ExtendKeeps(g: Geometry, t: Table, disk: Disk, l: Layout, d: nat, t': Table, disk': Disk, c: nat)
    requires Consistent(g, t, disk, l) && d in l.chains && l.chains[d] != []
    requires Extended(t, l.chains[d][|l.chains[d]| - 1], 1, t') && FreeList(t) != [] && c == FreeList(t)[0]
    requires disk' == disk[c := Zeros(g.clusterSize)]
    ensures Kept(t, disk, t', disk', g.reserved)
  {
    hide Tree, Owned, Extended, FreeList, Zeros, Kept;
    ExtendKept(g, t, disk, l, d, t', disk', c);
  }

  lemma AppendReady(g: Geometry, t: Table, disk: Disk, l: Layout, d: nat)
    requires Consistent(g, t, disk, l) && d in l.dirs && d in l.chains && l.chains[d] != []
    ensures Sized(t) && IsChain(t, l.chains[d])
    ensures forall c :: c in l.chains[d] ==> c < |t| && t[c] != FREE
  {
    hide Tree, IsChain;
    ChainInRange(t, l.chains, d);
  }

  lemma FreshOnDisk(g: Geometry, t: Table, disk: Disk, l: Layout)
    requires Consistent(g, t, disk, l) && FreeList(t) != []
    ensures 2 <= FreeList(t)[0] < |t| && FreeList(t)[0] in disk && |disk[FreeList(t)[0]]| == g.clusterSize
  {
    hide Tree, Owned, FreeList;
    FreePrefix(t, 1);
  }

  lemma LastBehind(g: Geometry, t: Table, disk: Disk, l: Layout, d: nat, t1: Table)
    requires Consistent(g, t, disk, l) && d in l.dirs && d in l.chains && l.chains[d] != []
    requires FreeList(t) != [] && Linked(t, FreeList(t)[..1], t1)
    ensures l.chains[d][|l.chains[d]| - 1] < |t1| == |t|
  {
    hide Tree, FreeList, IsChain;
    ChainInRange(t, l.chains, d);
    assert l.chains[d][|l.chains[d]| - 1] in l.chains[d];
  }

  lemma AppendLinked(g: Geometry, t: Table, disk: Disk, l: Layout, d: nat, t1: Table, t2: Table)
    requires Consistent(g, t, disk, l) && d in l.dirs && d in l.chains && l.chains[d] != []
    requires FreeList(t) != [] && Linked(t, FreeList(t)[..1], t1) && FreeList(t)[0] < |t|
    requires l.chains[d][|l.chains[d]| - 1] < |t1| && FreeList(t)[0] <= 0xFFFF_FFFF
    requires t2 == t1[l.chains[d][|l.chains[d]| - 1] := FreeList(t)[0]]
    ensures Extended(t, l.chains[d][|l.chains[d]| - 1], 1, t2)
  {
    hide Consistent, FreeList, Extended, IsChain, Linked;
    AppendReady(g, t, disk, l, d);
    FreshApart(t, l.chains[d], 1);
    LinksBehind(t, l.chains[d], 1, t1, t2);
  }

  // ------------------------------------------------------------- finding free slots

  /** The slots `[a, b)` may be overwritten: deleted, or past the end. */
  ghost predicate Free(ss: seq<Slot>, a: nat, b: nat) {
    && a <= b <= |ss| && a <= End(ss)
    && forall q :: a <= q < b && q < End(ss) ==> IsDeleted(ss[q])
  }

  /** From slot `b` on there is room for `needed` slots. */
  ghost predicate RoomAt(ss: seq<Slot>, b: nat, needed: nat) { Free(ss, b, b + needed) }

  /** A free run of slots found in `[a, n)`. */
  ghost predicate FreeRun(ss: seq<Slot>, ls: seq<Location>, a: nat, n: nat, run: seq<Location>) {
    |ss| == |ls| && Free(ss, a, n) && run == ls[a..n]
  }

  /** The first run of `needed` free slots, or the free suffix. */
  method FindFreeRun(slots: seq<LocatedSlot>, needed: nat) returns (run: seq<Location>, ghost a: nat)
    requires needed > 0
    ensures |run| <= needed
    ensures a + |run| <= |slots| && FreeRun(Raw(slots), Locations(slots), a, a + |run|, run)
    ensures |run| < needed ==> a + |run| == |slots|
    ensures forall b: nat :: b < a || |run| < needed ==> !RoomAt(Raw(slots), b, needed)
  {
    hide FreeRun, RoomAt;
    ghost var ss, ls := Raw(slots), Locations(slots);
    run, a := [], 0;
    var pastEnd := false;
    var n := 0;
    FreeRunNone(ss, ls, 0);
    while n < |slots|
      invariant 0 <= a <= n <= |slots| && |run| == n - a && |run| < needed
      invariant FreeRun(ss, ls, a, n, run)
      invariant pastEnd <==> End(ss) < n
      invariant !pastEnd ==> n <= End(ss)
      invariant forall b: nat :: b < a ==> !RoomAt(ss, b, needed)
    {
      var entry, location := slots[n].slot, slots[n].location;
      assert entry == ss[n] && location == ls[n];
      if !pastEnd && IsEnd(entry) {
        pastEnd := true;
      }
      if pastEnd || IsDeleted(entry) {
        FreeRunNext(ss, ls, a, n, run);
        run := run + [location];
        if |run| == needed {
          return;
        }
      } else {
        NotFreeAcross(ss, a, n, needed);
        run, a := [], n + 1;
        FreeRunNone(ss, ls, n + 1);
      }
      n := n + 1;
    }
    TooShort(ss, a, needed);
  }

  /** A slot in use rules out every run across it. */
  lemma NotFreeAcross(ss: seq<Slot>, a: nat, n: nat, needed: nat)
    requires n < |ss| && n < End(ss) && !IsDeleted(ss[n]) && n - a < needed
    ensures forall b: nat :: a <= b <= n ==> !RoomAt(ss, b, needed)
  {
    assert forall b: nat :: a <= b <= n && RoomAt(ss, b, needed) ==> IsDeleted(ss[n]);
  }

  /** Behind a suffix that is too short there is no room either. */
  lemma TooShort(ss: seq<Slot>, a: nat, needed: nat)
    requires a <= |ss| && |ss| - a < needed
    ensures forall b: nat :: a <= b ==> !RoomAt(ss, b, needed)
  {
  }

  lemma FreeRunNone(ss: seq<Slot>, ls: seq<Location>, n: nat)
    requires n <= End(ss) && |ss| == |ls|
    ensures FreeRun(ss, ls, n, n, [])
  {
  }

  lemma FreeRunNext(ss: seq<Slot>, ls: seq<Location>, a: nat, n: nat, run: seq<Location>)
    requires FreeRun(ss, ls, a, n, run) && n < |ss| == |ls|
    requires End(ss) <= n || IsDeleted(ss[n])
    ensures FreeRun(ss, ls, a, n + 1, run + [ls[n]])
  {
    assert ls[a..n + 1] == ls[a..n] + [ls[n]];
  }

  /** A directory only got longer, by end markers. */
  ghost predicate OnlyEnds(ss: seq<Slot>, ss': seq<Slot>) {
    ss <= ss' && AllEnd(ss'[|ss|..])
  }

  lemma OnlyEndsMore(ss: seq<Slot>, ss1: seq<Slot>, z: seq<Slot>)
    requires OnlyEnds(ss, ss1) && AllEnd(z)
    ensures OnlyEnds(ss, ss1 + z)
  {
    assert (ss1 + z)[|ss|..] == ss1[|ss|..] + z;
  }

  /** The run found so far, in the directory as it now is. */
  ghost predicate Room(v: Volume, d: nat, a: nat, run: seq<Location>)
    reads v
  {
    && d in v.layout.chains
    && var ls := DirLocations(v.layout.chains[d], v.clusterSize / SLOT_SIZE);
    && |SlotsOf(v, d)| == |ls| && a + |run| <= |ls|
    && FreeRun(SlotsOf(v, d), ls, a, a + |run|, run)
  }

  /** The slots a new cluster adds to the run. */
  method TakeNewSlots(cluster: nat, perCluster: nat, needed: nat, run: seq<Location>) returns (run': seq<Location>)
    requires |run| < needed
    ensures |run'| == Min(needed, |run| + perCluster)
    ensures run' == run + ClusterLocations(cluster, perCluster)[..|run'| - |run|]
  {
    run' := run;
    for index := 0 to perCluster
      invariant |run'| == |run| + index < needed || (index == 0 && run' == run)
      invariant run' == run + ClusterLocations(cluster, perCluster)[..index]
    {
      run' := run' + [Location(cluster, index, SLOT_SIZE * index)];
      if |run'| == needed {
        return;
      }
    }
  }

  lemma RoomGrows(ss: seq<Slot>, z: seq<Slot>, ls: seq<Location>, more: seq<Location>, a: nat, run: seq<Location>,
                  run': seq<Location>)
    requires |ss| == |ls| && |z| == |more| && a + |run| == |ls| && FreeRun(ss, ls, a, |ls|, run)
    requires AllEnd(z) && Shaped(ss)
    requires |run| <= |run'| <= |run| + |more| && run' == run + more[..|run'| - |run|]
    ensures FreeRun(ss + z, ls + more, a, a + |run'|, run')
  {
    hide Shaped;
    ExtendedSlots(ss, z);
    assert (ls + more)[a..a + |run'|] == run';
  }

  /** Finds `needed` consecutive free slots, extending the directory if need be. */
  method AllocateDirectorySlots(v: Volume, dirCluster: nat, needed: nat)
    returns (r: Option<seq<Location>>, ghost a: nat)
    requires Good(v) && dirCluster in v.layout.dirs && needed > 0
    modifies v`disk, v`copies, v`layout, v.fat.words
    ensures Good(v) && dirCluster in v.layout.dirs && v.layout.dirs == old(v.layout.dirs)
    ensures OnlyEnds(old(SlotsOf(v, dirCluster)), SlotsOf(v, dirCluster))
    ensures Preserved(old(v.disk), old(v.layout), v.disk, v.layout, {dirCluster})
    ensures SameHolders(old(v.layout), v.layout)
    ensures r.Some? ==> |r.value| == needed && Room(v, dirCluster, a, r.value)
    ensures (r.Some? || v.reliable) && old(v.Synced()) ==> v.Synced()
    ensures Kept(old(v.Table()), old(v.disk), v.Table(), v.disk, v.reserved)
    ensures v.reliable && r.None? ==> FreeList(v.Table()) == []
    ensures r.Some? && |SlotsOf(v, dirCluster)| == |old(SlotsOf(v, dirCluster))| ==>
              v.Table() == old(v.Table()) && v.layout == old(v.layout)
  {
    hide Consistent, Preserved, DirSlots, DirLocations, FreeRun, Shaped, OnDisk, Zeros, AllEnd, FreeList, IsChain,
      OnlyEnds, End, Kept, Invisible;
    ghost var t0 := v.Table();
    ghost var d := dirCluster;
    ghost var disk0, l0, ss0 := v.disk, v.layout, SlotsOf(v, d);
    DirFacts(v, d);
    PreservedSelf(disk0, l0, {d});
    OnlyEndsSelf(ss0);
    KeptSelf(t0, disk0, v.reserved);
    a := 0;
    var loaded := LoadDirectorySlots(v, dirCluster, v.layout.chains[d]);
    if loaded.None? {
      return None, a;
    }
    var slots, lastCluster := loaded.value.0, loaded.value.1;
    var run;
    run, a := FindFreeRun(slots, needed);
    while |run| < needed
      invariant |run| <= needed && Good(v) && d in v.layout.dirs && v.layout.dirs == l0.dirs
                && SameHolders(l0, v.layout)
      invariant OnlyEnds(ss0, SlotsOf(v, d)) && Preserved(disk0, l0, v.disk, v.layout, {d})
      invariant Room(v, d, a, run)
      invariant |run| < needed ==> a + |run| == |SlotsOf(v, d)|
      invariant d in v.layout.chains && v.layout.chains[d] != []
                && lastCluster == v.layout.chains[d][|v.layout.chains[d]| - 1]
      invariant old(v.Synced()) ==> v.Synced()
      invariant Kept(t0, disk0, v.Table(), v.disk, v.reserved)
      invariant |ss0| <= |SlotsOf(v, d)|
      invariant |SlotsOf(v, d)| == |ss0| ==> v.Table() == t0 && v.layout == l0
      decreases needed - |run|
    {
      ghost var t1 := v.Table();
      ghost var disk1, l1, ss1, run1 := v.disk, v.layout, SlotsOf(v, d), run;
      DirFacts(v, d);
      var c := AppendDirectoryCluster(v, lastCluster, d);
      KeptTrans(t0, disk0, t1, disk1, v.Table(), v.disk, v.reserved);
      if c.None? {
        InvisiblePreserves(t1, disk1, l1, v.Table(), v.disk, {d});
        PreservedTrans(disk0, l0, disk1, l1, v.disk, l1, {d});
        return None, a;
      }
      lastCluster := c.value;
      run := TakeNewSlots(c.value, v.clusterSize / SLOT_SIZE, needed, run);
      AppendedRoom(disk0, l0, ss0, disk1, l1, ss1, v, d, c.value, a, run1, run);
    }
    return Some(run), a;
  }

  lemma InvisiblePreserves(t: Table, disk: Disk, l: Layout, t': Table, disk': Disk, except: set<nat>)
    requires Invisible(t, disk, l, t', disk')
    ensures Preserved(disk, l, disk', l, except)
  {
    hide Data, FreeList, Next;
  }

  lemma PreservedSelf(disk: Disk, l: Layout, except: set<nat>)
    ensures Preserved(disk, l, disk, l, except)
  {
  }

  lemma KeptSelf(t: Table, disk: Disk, reserved: set<nat>)
    ensures Kept(t, disk, t, disk, reserved)
  {
  }

  lemma OnlyEndsSelf(ss: seq<Slot>)
    ensures OnlyEnds(ss, ss)
  {
  }

  /** Only chains differ between the layouts. */
  ghost predicate SameHolders(l: Layout, l': Layout) {
    l' == l.(chains := l'.chains) && l'.chains.Keys == l.chains.Keys
  }

  lemma AppendedRoom(disk0: Disk, l0: Layout, ss0: seq<Slot>, disk1: Disk, l1: Layout, ss1: seq<Slot>, v: Volume,
                     d: nat, c: nat, a: nat, run: seq<Location>, run': seq<Location>)
    requires v.clusterSize == SLOT_SIZE * (v.clusterSize / SLOT_SIZE) && d in l1.chains
    requires v.layout == ExtendedLayout(l1, d, c) && SameHolders(l0, l1)
    requires SlotsOf(v, d) == ss1 + SlotsIn(Zeros(v.clusterSize)) && AllEnd(SlotsIn(Zeros(v.clusterSize)))
    requires Preserved(disk0, l0, disk1, l1, {d}) && Preserved(disk1, l1, v.disk, v.layout, {d})
    requires OnlyEnds(ss0, ss1) && Shaped(ss1)
    requires |ss1| == |DirLocations(l1.chains[d], v.clusterSize / SLOT_SIZE)| == a + |run|
    requires FreeRun(ss1, DirLocations(l1.chains[d], v.clusterSize / SLOT_SIZE), a, a + |run|, run)
    requires |run| <= |run'| <= |run| + v.clusterSize / SLOT_SIZE
    requires run' == run + ClusterLocations(c, v.clusterSize / SLOT_SIZE)[..|run'| - |run|]
    ensures SameHolders(l0, v.layout) && v.layout.dirs == l1.dirs
    ensures OnlyEnds(ss0, SlotsOf(v, d)) && Preserved(disk0, l0, v.disk, v.layout, {d})
    ensures Room(v, d, a, run')
    ensures |SlotsOf(v, d)| == |ss1| + v.clusterSize / SLOT_SIZE
  {
    hide Preserved, FreeRun, OnlyEnds, Shaped, DirSlots, AllEnd, Zeros, End;
    var per := v.clusterSize / SLOT_SIZE;
    PreservedTrans(disk0, l0, disk1, l1, v.disk, v.layout, {d});
    OnlyEndsMore(ss0, ss1, SlotsIn(Zeros(v.clusterSize)));
    DirLocationsSplit(l1.chains[d], [c], per);
    assert DirLocations([c], per) == ClusterLocations(c, per) + DirLocations([], per) == ClusterLocations(c, per);
    assert v.layout.chains[d] == l1.chains[d] + [c];
    assert DirLocations(v.layout.chains[d], per) == DirLocations(l1.chains[d], per) + ClusterLocations(c, per);
    RoomGrows(ss1, SlotsIn(Zeros(v.clusterSize)), DirLocations(l1.chains[d], per), ClusterLocations(c, per), a, run,
      run');
  }

  // ---------------------------------------------------------------- storing the run

  /** The first `k` slots of `run` are stored from slot `a` on. */
  ghost predicate Partly(ss: seq<Slot>, a: nat, run: seq<Slot>, k: nat, ss': seq<Slot>) {
    && |ss'| == |ss| && k <= |run| && a + |run| <= |ss|
    && forall q :: 0 <= q < |ss| ==> ss'[q] == if a <= q < a + k then run[q - a] else ss[q]
  }

  lemma PartlyNext(ss: seq<Slot>, a: nat, run: seq<Slot>, k: nat, ss': seq<Slot>)
    requires Partly(ss, a, run, k, ss') && k < |run|
    ensures Partly(ss, a, run, k + 1, WithSlot(ss', a + k, run[k]))
  {
  }

  lemma PartlyAll(ss: seq<Slot>, a: nat, run: seq<Slot>, ss': seq<Slot>)
    requires Partly(ss, a, run, |run|, ss') && Free(ss, a, a + |run|)
    ensures Inserted(ss, a, run, ss')
  {
  }

  /** Stores the slots of a run at their locations, one at a time. */
  method StoreRun(v: Volume, locations: seq<Location>, run: seq<Slot>, ghost d: nat, ghost a: nat) returns (ok: bool)
    requires Good(v) && d in v.layout.dirs && |locations| == |run| && Room(v, d, a, locations)
    modifies v`disk
    ensures Formatted(v.Table(), v.disk, v.clusterSize) && OthersUntouched(old(v.disk), v.disk, v.layout.chains, d)
    ensures ok ==> Partly(old(SlotsOf(v, d)), a, run, |run|, SlotsOf(v, d))
    ensures Kept(v.Table(), old(v.disk), v.Table(), v.disk, v.reserved)
    ensures v.reliable ==> ok
  {
    hide Tree, Owned, DirSlots, DirLocations, OthersUntouched, Formatted, FreeRun, Shaped, OnDisk, Partly, IsChain,
      WithSlot, InCluster, Kept;
    ghost var g, t, disk0, chains, ss0 := Geo(v), v.Table(), v.disk, v.layout.chains, SlotsOf(v, d);
    DirFacts(v, d);
    RoomParts(v, d, a, locations);
    UntouchedSelf(disk0, chains, d);
    PartlyNone(ss0, a, run);
    KeptSelf(t, disk0, v.reserved);
    var k := 0;
    while k < |run|
      invariant 0 <= k <= |run|
      invariant Formatted(t, v.disk, v.clusterSize) && OthersUntouched(disk0, v.disk, chains, d)
      invariant Partly(ss0, a, run, k, SlotsOf(v, d))
      invariant Kept(t, disk0, t, v.disk, v.reserved)
    {
      ghost var disk1 := v.disk;
      PartlyLength(ss0, a, run, k, SlotsOf(v, d));
      StoreSlotInCluster(g, t, v.disk, chains, d, a + k, run[k], locations[k]);
      var stored := PersistDirectoryEntry(v, locations[k], run[k]);
      if !stored {
        TornSlot(g, t, disk1, chains, d, a + k, run[k], locations[k], v.disk);
      }
      UntouchedTrans(disk0, disk1, v.disk, chains, d);
      KeptTrans(t, disk0, t, disk1, t, v.disk, v.reserved);
      if !stored {
        return false;
      }
      PartlyNext(ss0, a, run, k, DirSlots(disk1, chains[d]));
      k := k + 1;
    }
    return true;
  }

  lemma RoomParts(v: Volume, d: nat, a: nat, run: seq<Location>)
    requires Room(v, d, a, run)
    ensures d in v.layout.chains && Free(SlotsOf(v, d), a, a + |run|)
    ensures var ls := DirLocations(v.layout.chains[d], v.clusterSize / SLOT_SIZE);
            |SlotsOf(v, d)| == |ls| && a + |run| <= |ls| && forall k :: 0 <= k < |run| ==> run[k] == ls[a + k]
  {
  }

  lemma UntouchedSelf(disk: Disk, chains: Chains, d: nat)
    ensures OthersUntouched(disk, disk, chains, d)
  {
  }

  lemma UntouchedTrans(disk: Disk, disk1: Disk, disk2: Disk, chains: Chains, d: nat)
    requires OthersUntouched(disk, disk1, chains, d) && OthersUntouched(disk1, disk2, chains, d)
    ensures OthersUntouched(disk, disk2, chains, d)
  {
  }

  lemma PartlyNone(ss: seq<Slot>, a: nat, run: seq<Slot>)
    requires a + |run| <= |ss|
    ensures Partly(ss, a, run, 0, ss)
  {
  }

  lemma PartlyLength(ss: seq<Slot>, a: nat, run: seq<Slot>, k: nat, ss': seq<Slot>)
    requires Partly(ss, a, run, k, ss')
    ensures |ss'| == |ss| && a + |run| <= |ss|
  {
  }

  lemma StoreSlotInCluster(g: Geometry, t: Table, disk: Disk, chains: Chains, d: nat, i: nat, s: Slot, at: Location)
    requires Sane(g) && Owned(t, chains, g.reserved) && Formatted(t, disk, g.clusterSize)
    requires d in chains && i < |DirSlots(disk, chains[d])|
    requires i < |DirLocations(chains[d], PerCluster(g))| && at == DirLocations(chains[d], PerCluster(g))[i]
    ensures InCluster(disk, at)
    ensures DirSlots(Stored(disk, at, s), chains[d]) == WithSlot(DirSlots(disk, chains[d]), i, s)
    ensures OthersUntouched(disk, Stored(disk, at, s), chains, d)
    ensures Formatted(t, Stored(disk, at, s), g.clusterSize)
    ensures Kept(t, disk, t, Stored(disk, at, s), g.reserved)
  {
    hide Owned, DirSlots, DirLocations, OthersUntouched, Formatted, Stored, WithSlot, Kept;
    StoreSlot(g, t, disk, chains, d, i, s, at);
    StoreKeeps(t, disk, chains, g.reserved, d, Stored(disk, at, s));
  }

  /** A slot that could not be stored harms its own directory at most. */
  lemma TornSlot(g: Geometry, t: Table, disk: Disk, chains: Chains, d: nat, i: nat, s: Slot, at: Location, disk': Disk)
    requires Sane(g) && Owned(t, chains, g.reserved) && Formatted(t, disk, g.clusterSize)
    requires d in chains && i < |DirSlots(disk, chains[d])|
    requires i < |DirLocations(chains[d], PerCluster(g))| && at == DirLocations(chains[d], PerCluster(g))[i]
    requires OnlyIn(disk, disk', [at.cluster])
    ensures OthersUntouched(disk, disk', chains, d) && Formatted(t, disk', g.clusterSize)
              && Kept(t, disk, t, disk', g.reserved)
  {
    hide Owned, DirSlots, DirLocations, OthersUntouched, Formatted, Stored, WithSlot, Kept, Data;
    StoreSlot(g, t, disk, chains, d, i, s, at);
    assert OnlyIn(disk, disk', chains[d]);
    OwnedParts(t, chains, g.reserved);
    OwnChainNotElsewhere(chains, d);
    WriteSparesOthers(t, disk, disk', chains, g.reserved, d, chains[d]);
    FormattedFrame(t, disk, t, disk', chains[d], g.clusterSize);
    StoreKeeps(t, disk, chains, g.reserved, d, disk');
  }

  /** Writing inside an owned chain spares the reserved clusters. */
  lemma StoreKeeps(t: Table, disk: Disk, chains: Chains, reserved: set<nat>, d: nat, disk': Disk)
    requires Owned(t, chains, reserved) && d in chains && OnlyIn(disk, disk', chains[d])
    ensures Kept(t, disk, t, disk', reserved)
  {
    hide IsChain;
    forall c | c in reserved && 2 <= c < |t| ensures Get(disk', c) == Get(disk, c) {
      assert !Used(chains, c);
      assert c !in chains[d];
    }
  }
}
