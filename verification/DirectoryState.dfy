/** Directory operations on volume states: extending, inserting, removing. */
module DirectoryState {

  import opened Base
  import opened Slots
  import opened FatTable
  import opened Ownership
  import opened ShortNames
  import opened DirectoryParser
  import opened DirectoryEdits
  import opened ClusterData
  import opened FileData
  import opened Forest
  import opened TreeEdits
  import opened TreeOps
  import opened VolumeState
  import opened ResizeState

  /** Chains outside `except` are still there, with the same bytes. */
  ghost predicate Preserved(disk: Disk, l: Layout, disk': Disk, l': Layout, except: set<nat>) {
    forall h :: h in l.chains && h !in except ==>
      h in l'.chains && l'.chains[h] == l.chains[h] && Data(disk', l.chains[h]) == Data(disk, l.chains[h])
  }

  lemma PreservedTrans(disk: Disk, l: Layout, disk1: Disk, l1: Layout, disk2: Disk, l2: Layout, except: set<nat>)
    requires Preserved(disk, l, disk1, l1, except) && Preserved(disk1, l1, disk2, l2, except)
    ensures Preserved(disk, l, disk2, l2, except)
  {
  }

  /** Reserved clusters keep their words and their bytes. */
  ghost predicate Kept(t: Table, disk: Disk, t': Table, disk': Disk, reserved: set<nat>) {
    && |t'| == |t|
    && forall c :: c in reserved && 2 <= c < |t| ==> t'[c] == t[c] && Get(disk', c) == Get(disk, c)
  }

  lemma KeptTrans(t: Table, disk: Disk, t1: Table, disk1: Disk, t2: Table, disk2: Disk, reserved: set<nat>)
    requires Kept(t, disk, t1, disk1, reserved) && Kept(t1, disk1, t2, disk2, reserved)
    ensures Kept(t, disk, t2, disk2, reserved)
  {
  }

  // ------------------------------------------------------------------- extending

  ghost function Zeros(n: nat): (z: seq<Byte>)
    ensures |z| == n && forall i :: 0 <= i < n ==> z[i] == 0
  {
    seq(n, _ => 0)
  }

  lemma ZerosAreEnds(n: nat)
    ensures AllEnd(SlotsIn(Zeros(n)))
  {
    var z, ss := Zeros(n), SlotsIn(Zeros(n));
    forall i | 0 <= i < |ss| ensures IsEnd(ss[i]) {
      assert ss[i] == SlotAt(z, i);
      assert SlotAt(z, i)[0] == z[SLOT_SIZE * i];
    }
  }

  ghost function ExtendedLayout(l: Layout, d: nat, c: nat): Layout {
    if d in l.chains then l.(chains := l.chains[d := l.chains[d] + [c]]) else l
  }

  /** One cleared cluster is appended to a directory. */
  lemma ExtendCommit(g: Geometry, t: Table, disk: Disk, l: Layout, d: nat, t': Table, disk': Disk, c: nat)
    requires Consistent(g, t, disk, l) && d in l.dirs && d in l.chains && l.chains[d] != []
    requires Extended(t, l.chains[d][|l.chains[d]| - 1], 1, t') && FreeList(t) != [] && c == FreeList(t)[0]
    requires disk' == disk[c := Zeros(g.clusterSize)]
    ensures Consistent(g, t', disk', ExtendedLayout(l, d, c))
    ensures Preserved(disk, l, disk', ExtendedLayout(l, d, c), {d})
    ensures DirSlots(disk', l.chains[d] + [c]) == DirSlots(disk, l.chains[d]) + SlotsIn(Zeros(g.clusterSize))
    ensures AllEnd(SlotsIn(Zeros(g.clusterSize)))
  {
    hide Tree, Data, SlotsIn, Owned, FreeList, Extended, IsChain, AllEnd, Zeros;
    var cs, l' := l.chains[d], ExtendedLayout(l, d, c);
    assert FreeList(t)[..1] == [c];
    OwnExtended(t, l.chains, g.reserved, d, 1, t');
    ExtendedBound(t, cs[|cs| - 1], 1, t');
    FreshUnused(t, l.chains, g.reserved, 1);
    assert c in FreeList(t)[..1];
    UnusedCluster(g, t, t', disk, l, c, Zeros(g.clusterSize), disk');
    ExtendSlots(g, t, disk, l, d, c, disk');
    ZerosAreEnds(g.clusterSize);
    TreeKeys(g.root, g.clusterSize, ViewOf(disk, l), l);
    ExtendView(disk, disk', l, d, c, SlotsIn(Zeros(g.clusterSize)));
    ExtendKeepsTree(g.root, g.clusterSize, ViewOf(disk, l), l, d, SlotsIn(Zeros(g.clusterSize)), cs + [c]);
  }

  lemma ExtendKept(g: Geometry, t: Table, disk: Disk, l: Layout, d: nat, t': Table, disk': Disk, c: nat)
    requires Owned(t, l.chains, g.reserved) && d in l.chains && l.chains[d] != []
    requires Extended(t, l.chains[d][|l.chains[d]| - 1], 1, t') && FreeList(t) != [] && c == FreeList(t)[0]
    requires disk' == disk[c := Zeros(g.clusterSize)]
    ensures Kept(t, disk, t', disk', g.reserved)
  {
    hide FreeList, IsChain, Zeros;
    var last := l.chains[d][|l.chains[d]| - 1];
    assert FreeList(t)[..1] == [c];
    FreePrefix(t, 1);
    forall k | k in g.reserved && 2 <= k < |t| ensures k != c && k != last {
      assert t[k] != FREE && !Used(l.chains, k);
    }
  }

  /** Overwriting a cluster nobody uses changes nobody's bytes. */
  lemma UnusedCluster(g: Geometry, t: Table, t': Table, disk: Disk, l: Layout, c: nat, b: seq<Byte>, disk': Disk)
    requires !Used(l.chains, c) && 2 <= c < |t| == |t'| && |b| == g.clusterSize
    requires Formatted(t, disk, g.clusterSize) && disk' == disk[c := b]
    ensures Formatted(t', disk', g.clusterSize)
    ensures forall h :: h in l.chains ==> Data(disk', l.chains[h]) == Data(disk, l.chains[h])
  {
    hide Data;
    forall h | h in l.chains ensures Data(disk', l.chains[h]) == Data(disk, l.chains[h]) {
      forall i | 0 <= i < |l.chains[h]| ensures Get(disk, l.chains[h][i]) == Get(disk', l.chains[h][i]) {
        assert l.chains[h][i] in l.chains[h];
      }
      DataFrame(disk, disk', l.chains[h]);
    }
  }

  lemma ExtendSlots(g: Geometry, t: Table, disk: Disk, l: Layout, d: nat, c: nat, disk': Disk)
    requires Sane(g) && Owned(t, l.chains, g.reserved) && Formatted(t, disk, g.clusterSize)
    requires d in l.chains && Data(disk', l.chains[d]) == Data(disk, l.chains[d])
             && disk' == disk[c := Zeros(g.clusterSize)]
    ensures DirSlots(disk', l.chains[d] + [c]) == DirSlots(disk, l.chains[d]) + SlotsIn(Zeros(g.clusterSize))
  {
    hide SlotsIn, Owned, Start, Zeros;
    var cs := l.chains[d];
    DataSplit(disk', cs, [c]);
    assert Data(disk', [c]) == Zeros(g.clusterSize) by {
      assert Data(disk', [c]) == Get(disk', c) + Data(disk', []);
    }
    ChainOnDisk(g, t, disk, l.chains, d);
    DataLength(disk, cs, g.clusterSize);
    StartScale(|cs|, PerCluster(g));
    SlotsAppend(Data(disk, cs), Zeros(g.clusterSize));
  }

  lemma ExtendView(disk: Disk, disk': Disk, l: Layout, d: nat, c: nat, z: seq<Slot>)
    requires d in l.dirs && l.dirs <= l.chains.Keys
    requires forall h :: h in l.chains ==> Data(disk', l.chains[h]) == Data(disk, l.chains[h])
    requires DirSlots(disk', l.chains[d] + [c]) == DirSlots(disk, l.chains[d]) + z
    ensures ViewOf(disk', ExtendedLayout(l, d, c)) == ViewOf(disk, l)[d := ViewOf(disk, l)[d] + z]
  {
    hide Data, SlotsIn;
  }

  // ------------------------------------------------------------------- inserting

  /** The view after one directory's slots changed and the rest stayed. */
  lemma ChangedView(disk: Disk, disk': Disk, l: Layout, d: nat)
    requires d in l.dirs && l.dirs <= l.chains.Keys && OthersUntouched(disk, disk', l.chains, d)
    ensures ViewOf(disk', l) == ViewOf(disk, l)[d := DirSlots(disk', l.chains[d])]
  {
    hide Data, SlotsIn;
  }

  /** A new file entry completes the insertion. */
  lemma InsertFileCommit(g: Geometry, t: Table, disk: Disk, l: Layout, d: nat, disk': Disk, a: nat, run: seq<Slot>,
                         name: string, x: nat)
    requires Consistent(g, t, disk, l) && d in l.dirs && d in l.chains
    requires Formatted(t, disk', g.clusterSize) && OthersUntouched(disk, disk', l.chains, d)
    requires run != [] && x == a + |run| - 1
    requires Inserted(DirSlots(disk, l.chains[d]), a, run, DirSlots(disk', l.chains[d])) && IsRun(run, name)
    requires IsRegular(run[|run| - 1]) && Cluster(run[|run| - 1]) == 0 && Size(run[|run| - 1]) == 0
    requires !IsDotName(Name(run[|run| - 1]))
    ensures Consistent(g, t, disk', l) && Preserved(disk, l, disk', l, {d})
  {
    hide Tree, Data, SlotsIn, Owned, Inserted, IsRun, Gains, Shaped, IsRegular, Cluster, Size;
    var ss, ss' := DirSlots(disk, l.chains[d]), DirSlots(disk', l.chains[d]);
    TreeKeys(g.root, g.clusterSize, ViewOf(disk, l), l);
    ShapedIn(g.root, g.clusterSize, ViewOf(disk, l), l, d);
    InsertedGains(ss, a, run, ss', name, x);
    ChangedView(disk, disk', l, d);
    InsertFileKeepsTree(g.root, g.clusterSize, ViewOf(disk, l), l, d, x, ss');
  }

  /** A new directory: its own cluster is initialised, its entry inserted. */
  lemma InsertDirectoryCommit(g: Geometry, t: Table, t0: Table, disk: Disk, l: Layout, d: nat, disk': Disk, a: nat,
                              run: seq<Slot>, name: string, x: nat, n: nat)
    requires Consistent(g, t0, disk, l) && d in l.dirs && d in l.chains && |t| == |t0|
    requires n !in l.chains && n != 0 && Owned(t, l.chains[n := [n]], g.reserved)
    requires Formatted(t, disk', g.clusterSize) && OthersUntouched(disk, disk', l.chains, d)
    requires run != [] && x == a + |run| - 1
    requires Inserted(DirSlots(disk, l.chains[d]), a, run, DirSlots(disk', l.chains[d])) && IsRun(run, name)
    requires NewDirectory(g.root, l, d, run[|run| - 1], n, DirSlots(disk', [n]))
    ensures Consistent(g, t, disk', WithDirectory(l, d, x, n))
              && Preserved(disk, l, disk', WithDirectory(l, d, x, n), {d})
  {
    hide Tree, Owned, Inserted, IsRun, Gains, Shaped, NewDirectory, ViewOf, DirSlots, WithDirectory, Preserved,
      OthersUntouched;
    var ss, ss' := DirSlots(disk, l.chains[d]), DirSlots(disk', l.chains[d]);
    TreeKeys(g.root, g.clusterSize, ViewOf(disk, l), l);
    ViewAt(disk, l, d);
    ShapedIn(g.root, g.clusterSize, ViewOf(disk, l), l, d);
    InsertedGains(ss, a, run, ss', name, x);
    WithDirectoryView(disk, disk', l, d, x, n, ss');
    InsertDirectoryKeepsTree(g.root, g.clusterSize, ViewOf(disk, l), l, d, x, ss', n, DirSlots(disk', [n]));
  }

  /** The view and the other chains once `n` is there. */
  lemma WithDirectoryView(disk: Disk, disk': Disk, l: Layout, d: nat, x: nat, n: nat, ss: seq<Slot>)
    requires d in l.dirs && l.dirs <= l.chains.Keys && OthersUntouched(disk, disk', l.chains, d) && n !in l.chains
    requires DirSlots(disk', l.chains[d]) == ss
    ensures ViewOf(disk', WithDirectory(l, d, x, n)) == ViewOf(disk, l)[d := ss][n := DirSlots(disk', [n])]
    ensures Preserved(disk, l, disk', WithDirectory(l, d, x, n), {d})
    ensures WithDirectory(l, d, x, n).chains == l.chains[n := [n]]
  {
    hide Data, SlotsIn;
  }

  // ------------------------------------------------------------------- removing

  /** An entry's slots are marked deleted and its chain is freed. */
  lemma DeleteCommit(g: Geometry, t: Table, disk: Disk, l: Layout, d: nat, i: nat, f: nat, t': Table, disk': Disk)
    requires Consistent(g, t, disk, l) && d in l.dirs && d in l.chains
    requires Live(DirSlots(disk, l.chains[d]), i) && Removable(ViewOf(disk, l), DirSlots(disk, l.chains[d])[i], f)
    requires Formatted(t, disk', g.clusterSize) && OthersUntouched(disk, disk', l.chains, d)
    requires DirSlots(disk', l.chains[d]) == Deleted(DirSlots(disk, l.chains[d]), i)
    requires t' == if f in l.chains then Zeroed(t, l.chains[f]) else t
    ensures f != d && (f != 0 ==> f in l.chains)
    ensures Consistent(g, t', disk', Without(l, f)) && Preserved(disk, l, disk', Without(l, f), {d, f})
  {
    hide Tree, Owned, Live, Deleted, Zeroed, Removable, ViewOf, DirSlots, Without, Preserved, OthersUntouched;
    var sl, ss := ViewOf(disk, l), DirSlots(disk, l.chains[d]);
    TreeKeys(g.root, g.clusterSize, sl, l);
    ViewAt(disk, l, d);
    DeleteKeepsTree(g.root, g.clusterSize, sl, l, d, i, f);
    RemovableHolds(g.root, g.clusterSize, sl, l, d, i, f);
    OwnWithout(t, l.chains, g.reserved, f, t');
    WithoutView(disk, disk', l, d, f, Deleted(ss, i));
  }

  lemma ViewAt(disk: Disk, l: Layout, d: nat)
    requires d in l.dirs && d in l.chains
    ensures d in ViewOf(disk, l) && ViewOf(disk, l)[d] == DirSlots(disk, l.chains[d])
  {
  }

  lemma OwnWithout(t: Table, chains: Chains, reserved: set<nat>, f: nat, t': Table)
    requires Owned(t, chains, reserved) && t' == if f in chains then Zeroed(t, chains[f]) else t
    ensures Owned(t', chains - {f}, reserved) && |t'| == |t|
  {
    hide Owned;
    if f in chains {
      OwnFreed(t, chains, reserved, f);
    } else {
      assert chains - {f} == chains;
    }
  }

  /** The view and the other chains once `f` is gone. */
  lemma WithoutView(disk: Disk, disk': Disk, l: Layout, d: nat, f: nat, ss: seq<Slot>)
    requires d in l.dirs && l.dirs <= l.chains.Keys && OthersUntouched(disk, disk', l.chains, d) && d != f
    requires DirSlots(disk', l.chains[d]) == ss
    ensures ViewOf(disk', Without(l, f)) == ViewOf(disk, l)[d := ss] - {f}
    ensures Preserved(disk, l, disk', Without(l, f), {d, f})
    ensures Without(l, f).chains == l.chains - {f}
  {
    hide Data, SlotsIn;
  }

  lemma RemovableHolds(root: nat, clusterSize: nat, sl: View, l: Layout, d: nat, i: nat, f: nat)
    requires Tree(root, clusterSize, sl, l) && d in sl && Live(sl[d], i) && Removable(sl, sl[d][i], f)
    ensures f != d && (f != 0 ==> f in l.chains)
  {
    hide Live, IsDirectory, IsRegular, DirOk, EntriesOk, AllHeld, Cluster, Empty;
    OwnerHolds(root, clusterSize, sl, l, d, i);
  }
}
