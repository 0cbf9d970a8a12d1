/** Truncation on volume states: growing, shrinking and undoing a growth. */
module ResizeState {

  import opened Base
  import opened Slots
  import opened FatTable
  import opened Ownership
  import opened DirectoryParser
  import opened ClusterData
  import opened FileData
  import opened Forest
  import opened TreeOps
  import opened VolumeState

  // ------------------------------------------------------------------ file contents

  /** The bytes of the file an entry describes. */
  ghost function Contents(disk: Disk, chains: Chains, s: Slot): seq<Byte> {
    if Size(s) == 0 || Cluster(s) !in chains || Size(s) > |Data(disk, chains[Cluster(s)])| then []
    else Data(disk, chains[Cluster(s)])[..Size(s)]
  }

  /** A file's bytes after truncation: the prefix, or zeros appended. */
  ghost function Truncated(b: seq<Byte>, size: nat): (r: seq<Byte>)
    ensures |r| == size
  {
    if size <= |b| then b[..size] else b + seq(size - |b|, _ => 0)
  }

  lemma {:induction false} ClustersCover(size: nat, clusterSize: nat)
    requires clusterSize > 0
    ensures size <= Start(ClustersFor(size, clusterSize), clusterSize)
    ensures size > 0 ==> ClustersFor(size, clusterSize) > 0
    ensures size > 0 ==> Start(ClustersFor(size, clusterSize) - 1, clusterSize) < size
    ensures size == 0 ==> ClustersFor(size, clusterSize) == 0
  {
    if size > 0 {
      var q := (size + clusterSize - 1) / clusterSize;
      var r := (size + clusterSize - 1) % clusterSize;
      assert size + clusterSize - 1 == q * clusterSize + r;
      StartNext(q - 1, clusterSize);
    }
  }

  lemma ClustersMonotone(a: nat, b: nat, clusterSize: nat)
    requires a <= b && clusterSize > 0
    ensures ClustersFor(a, clusterSize) <= ClustersFor(b, clusterSize)
  {
    hide Start;
    ClustersCover(a, clusterSize);
    ClustersCover(b, clusterSize);
    if ClustersFor(b, clusterSize) < ClustersFor(a, clusterSize) {
      StartMonotone(ClustersFor(b, clusterSize), ClustersFor(a, clusterSize) - 1, clusterSize);
    }
  }

  /** The file described by a live entry fits its chain. */
  lemma FileFits(g: Geometry, t: Table, disk: Disk, chains: Chains, s: Slot)
    requires Sane(g) && Owned(t, chains, g.reserved) && Formatted(t, disk, g.clusterSize)
    requires IsRegular(s) && Cluster(s) != 0 && SizeOk(chains, g.clusterSize, s)
    ensures Cluster(s) in chains && 0 < Size(s) <= |Data(disk, chains[Cluster(s)])|
    ensures |chains[Cluster(s)]| == ClustersFor(Size(s), g.clusterSize)
    ensures Contents(disk, chains, s) == Data(disk, chains[Cluster(s)])[..Size(s)]
  {
    hide Start, Data, Owned, ClustersFor, IsNormal;
    ChainOnDisk(g, t, disk, chains, Cluster(s));
    DataLength(disk, chains[Cluster(s)], g.clusterSize);
    ClustersCover(Size(s), g.clusterSize);
  }

  // ----------------------------------------------------------------------- growing

  /** `n` fresh clusters join the chain `cs`, or start one when it is empty. */
  ghost predicate GrownTable(t: Table, cs: seq<nat>, n: nat, t': Table) {
    && n <= |FreeList(t)|
    && if n == 0 then t' == t
       else if cs == [] then Linked(t, FreeList(t)[..n], t')
       else Extended(t, cs[|cs| - 1], n, t')
  }

  ghost function GrownChain(t: Table, cs: seq<nat>, n: nat): seq<nat>
    requires n <= |FreeList(t)|
  {
    cs + FreeList(t)[..n]
  }

  /** `cs` is the chain of `f`, or empty when there is none. */
  ghost predicate IsChainOf(chains: Chains, f: nat, cs: seq<nat>) {
    if f == 0 then cs == [] else f in chains && cs == chains[f]
  }

  lemma OwnGrown(t: Table, chains: Chains, reserved: set<nat>, f: nat, cs: seq<nat>, n: nat, t': Table)
    requires Owned(t, chains, reserved) && IsChainOf(chains, f, cs) && 0 !in chains
    requires GrownTable(t, cs, n, t') && GrownChain(t, cs, n) != []
    ensures var cs' := GrownChain(t, cs, n);
            && |t'| == |t|
            && Owned(t', chains[cs'[0] := cs'], reserved)
            && (f != 0 ==> cs'[0] == f)
            && (f == 0 ==> cs'[0] !in chains)
            && cs'[0] != 0
            && (forall c :: c in cs' ==> !UsedElsewhere(chains, f, c))
  {
    hide FreeList, Linked, Extended, UsedElsewhere, Used;
    var cs' := GrownChain(t, cs, n);
    FreeNotElsewhere(t, chains, reserved, f, n);
    if f == 0 {
      assert cs' == FreeList(t)[..n];
      FreePrefix(t, n);
      OwnNewChain(t, chains, reserved, n, t');
      LinkedLength(t, FreeList(t)[..n], t');
    } else {
      ChainInRange(t, chains, f);
      OwnChainNotElsewhere(chains, f);
      assert chains[f][0] == f;
      if n == 0 {
        assert cs' == cs && chains[f := cs'] == chains;
      } else {
        OwnExtended(t, chains, reserved, f, n, t');
        ExtendedBound(t, cs[|cs| - 1], n, t');
      }
    }
  }

  lemma LinkedLength(t: Table, cs: seq<nat>, t': Table)
    requires Linked(t, cs, t')
    ensures |t'| == |t|
  {
  }

  /** The entry after growing. */
  function GrownEntry(s: Slot, f': nat, size: nat): Slot {
    SetSize(SetCluster(s, f'), size)
  }

  lemma GrownEntryFields(s: Slot, f': nat, size: nat)
    requires f' <= 0xFFFF_FFFF && size <= 0xFFFF_FFFF
    ensures var r := GrownEntry(s, f', size);
            Cluster(r) == f' && Size(r) == size && Name(r) == Name(s) && Attributes(r) == Attributes(s)
  {
    hide Cluster, Size, Name, Attributes, SetCluster, SetSize;
    ClusterRoundTrip(s, f');
    SizeRoundTrip(SetCluster(s, f'), size);
  }

  /** Zeroing from the old end leaves the old bytes and appends zeros. */
  lemma GrownBytes(d: seq<Byte>, extra: seq<Byte>, d': seq<Byte>, size: nat, size': nat)
    requires size <= |d| && size <= size' <= |d + extra|
    requires SameOutside(d + extra, d', size, size')
    requires forall i :: size <= i < size' && i < |d'| ==> d'[i] == 0
    ensures d'[..size'] == Truncated(d[..size], size')
  {
    var a, b := d'[..size'], Truncated(d[..size], size');
    forall i | 0 <= i < size' ensures a[i] == b[i] {
      if i < size {
        assert d'[i] == (d + extra)[i];
      }
    }
  }

  // --------------------------------------------------------------------- committing

  /**
    A consistent volume stays consistent when one file's chain is replaced,
    bytes change only inside that chain, and its entry is stored.
   */
  lemma CommitResize(g: Geometry, t: Table, disk: Disk, l: Layout, d: nat, i: nat, s: Slot, f: nat, s': Slot, f': nat,
                     t': Table, chains': Chains, disk1: Disk, at: Location)
    requires Consistent(g, t, disk, l)
    requires d in l.dirs && d in l.chains && Live(DirSlots(disk, l.chains[d]), i) && s == DirSlots(disk, l.chains[d])[i]
    requires Resizes(l, g.clusterSize, s, f, s', f', chains')
    requires |t'| == |t| && Owned(t', chains', g.reserved)
    requires Formatted(t, disk1, g.clusterSize) && OthersUntouched(disk, disk1, l.chains, f)
    requires i < |DirLocations(l.chains[d], PerCluster(g))| && at == DirLocations(l.chains[d], PerCluster(g))[i]
    ensures f != d && f' != d && d in chains' && chains'[d] == l.chains[d]
    ensures at.cluster in disk1 && at.offset + SLOT_SIZE <= |disk1[at.cluster]|
    ensures Consistent(g, t', Stored(disk1, at, s'), Resized(l, d, i, f, f', chains'))
    ensures OthersUntouched(disk1, Stored(disk1, at, s'), chains', d)
    ensures DirSlots(Stored(disk1, at, s'), l.chains[d]) == WithSlot(DirSlots(disk, l.chains[d]), i, s')
  {
    hide Data, SlotsIn, DirLocations, Owned, Stored, WithSlot, Live, Resizes, Resized, Tree, Cluster, Size;
    var sl := ViewOf(disk, l);
    CommitPlace(g, disk, l, d, i, s, f, s', f', chains');
    var l' := Resized(l, d, i, f, f', chains');
    ResizedParts(l, d, i, f, f', chains');
    ViewFrame(disk, disk1, l, l');
    assert DirSlots(disk1, chains'[d]) == DirSlots(disk, l.chains[d]);
    StoreSlot(g, t', disk1, chains', d, i, s', at);
    StoreSlotView(g, t', disk1, l', d, i, s', at);
    ResizeKeepsTree(g.root, g.clusterSize, sl, l, d, i, f, s', f', chains', WithSlot(sl[d], i, s'));
  }

  lemma ResizedParts(l: Layout, d: nat, i: nat, f: nat, f': nat, chains: Chains)
    ensures var r := Resized(l, d, i, f, f', chains); r.chains == chains && r.dirs == l.dirs
  {
  }

  /** Directories keep their chains when a file is resized. */
  lemma CommitPlace(g: Geometry, disk: Disk, l: Layout, d: nat, i: nat, s: Slot, f: nat, s': Slot, f': nat,
                    chains': Chains)
    requires Tree(g.root, g.clusterSize, ViewOf(disk, l), l)
    requires d in l.dirs && d in l.chains && Live(DirSlots(disk, l.chains[d]), i) && s == DirSlots(disk, l.chains[d])[i]
    requires Resizes(l, g.clusterSize, s, f, s', f', chains')
    ensures f != d && f' != d
    ensures forall e :: e in l.dirs ==> e in l.chains && e in chains' && chains'[e] == l.chains[e] && e != f && e != f'
  {
    hide DirSlots, Live, AllHeld, EntriesOk, DirOk, Cluster, Size, SizeOk;
    var sl := ViewOf(disk, l);
    assert sl.Keys == l.dirs;
    RegularHolds(g.root, g.clusterSize, sl, l, d, i);
  }

  // ------------------------------------------------------------------ facts per stage

  /** The chain of a live file entry, empty when it has none. */
  ghost function ChainOf(chains: Chains, s: Slot): seq<nat> {
    if Cluster(s) in chains then chains[Cluster(s)] else []
  }

  /** A live file entry of a consistent volume and its chain. */
  lemma FileFacts(g: Geometry, t: Table, disk: Disk, l: Layout, d: nat, i: nat, s: Slot)
    requires Consistent(g, t, disk, l)
    requires d in l.dirs && d in l.chains && Live(DirSlots(disk, l.chains[d]), i)
    requires s == DirSlots(disk, l.chains[d])[i] && IsRegular(s)
    ensures var f, cs := Cluster(s), ChainOf(l.chains, s);
            && 0 !in l.chains && Sized(t)
            && IsChainOf(l.chains, f, cs)
            && SizeOk(l.chains, g.clusterSize, s)
            && |cs| == ClustersFor(Size(s), g.clusterSize)
            && (cs != [] ==> IsChain(t, cs) && cs[0] == f && OnDisk(t, disk, cs, g.clusterSize))
            && (forall c :: c in cs ==> 2 <= c < |t| && t[c] != FREE)
            && f != d && f !in l.dirs && (f == 0 <==> cs == [])
            && Size(s) <= |Data(disk, cs)|
            && Contents(disk, l.chains, s) == Data(disk, cs)[..Size(s)]
  {
    hide Tree, DirSlots, Live, Data, Cluster, Size, Owned, IsChain;
    var sl := ViewOf(disk, l);
    TreeKeys(g.root, g.clusterSize, sl, l);
    RegularHolds(g.root, g.clusterSize, sl, l, d, i);
    OwnedParts(t, l.chains, g.reserved);
    if Cluster(s) != 0 {
      ChainOnDisk(g, t, disk, l.chains, Cluster(s));
      ChainInRange(t, l.chains, Cluster(s));
      FileFits(g, t, disk, l.chains, s);
    }
  }

  lemma TreeKeys(root: nat, clusterSize: nat, sl: View, l: Layout)
    requires Tree(root, clusterSize, sl, l)
    ensures 0 !in l.chains && clusterSize > 0 && l.dirs <= l.chains.Keys && sl.Keys == l.dirs && root in l.dirs
  {
  }

  /** The layout's chains after growing a file. */
  ghost function GrownChains(t: Table, chains: Chains, cs: seq<nat>, n: nat): Chains
    requires n <= |FreeList(t)|
  {
    var cs' := GrownChain(t, cs, n);
    if cs' == [] then chains else chains[cs'[0] := cs']
  }

  /** After zeroing, the entry for the new size may be committed. */
  lemma GrowResizes(g: Geometry, t: Table, l: Layout, s: Slot, cs: seq<nat>, n: nat, s': Slot, size: nat)
    requires g.clusterSize > 0 && IsRegular(s) && n <= |FreeList(t)| && 0 !in l.chains
    requires cs == ChainOf(l.chains, s) && (Cluster(s) == 0 <==> cs == []) && (cs != [] ==> cs[0] == Cluster(s))
    requires |cs| + n == ClustersFor(size, g.clusterSize) && size > 0
    requires GrownChain(t, cs, n) != []
    requires var f' := GrownChain(t, cs, n)[0];
             && f' != 0 && (cs == [] ==> f' !in l.chains) && (cs != [] ==> f' == Cluster(s))
             && Cluster(s') == f' && Size(s') == size && Name(s') == Name(s) && Attributes(s') == Attributes(s)
    ensures Resizes(l, g.clusterSize, s, Cluster(s), s', GrownChain(t, cs, n)[0], GrownChains(t, l.chains, cs, n))
  {
    hide Cluster, Size, ClustersFor, FreeList;
    SameKind(s, s');
    var cs' := GrownChain(t, cs, n);
    assert |cs'| == |cs| + n;
  }

  /** Undoing a growth leaves a consistent volume with the same file. */
  lemma RolledBack(g: Geometry, t: Table, disk: Disk, l: Layout, d: nat, i: nat, s: Slot, cs: seq<nat>, t': Table,
                   disk': Disk, n: nat, size: nat)
    requires Consistent(g, t, disk, l)
    requires d in l.dirs && d in l.chains && Live(DirSlots(disk, l.chains[d]), i)
    requires s == DirSlots(disk, l.chains[d])[i] && IsRegular(s) && cs == ChainOf(l.chains, s)
    requires n <= |FreeList(t)| && OnlyIn(disk, disk', GrownChain(t, cs, n))
    requires SameOutside(Data(disk, GrownChain(t, cs, n)), Data(disk', GrownChain(t, cs, n)), Size(s), size)
    requires forall c :: c in cs ==> c < |t|
    requires t' == if cs == [] then t else t[cs[|cs| - 1] := EOF]
    ensures Consistent(g, t', disk', l)
    ensures OthersUntouched(disk, disk', l.chains, Cluster(s))
    ensures Contents(disk', l.chains, s) == Contents(disk, l.chains, s)
  {
    hide Tree, DirSlots, Live, Data, Cluster, Size, Owned, IsChain, FreeList, OnlyIn, Cut;
    var f := Cluster(s);
    FileFacts(g, t, disk, l, d, i, s);
    OwnRemarked(t, l.chains, g.reserved, f, cs, t');
    FreeNotElsewhere(t, l.chains, g.reserved, f, n);
    OwnedParts(t, l.chains, g.reserved);
    if f != 0 {
      OwnChainNotElsewhere(l.chains, f);
    }
    WriteSparesOthers(t, disk, disk', l.chains, g.reserved, f, GrownChain(t, cs, n));
    FormattedFrame(t, disk, t', disk', GrownChain(t, cs, n), g.clusterSize);
    TreeKeys(g.root, g.clusterSize, ViewOf(disk, l), l);
    ViewFrame(disk, disk', l, l);
    if f != 0 {
      PrefixSurvives(g, t, disk, disk', cs, FreeList(t)[..n], Size(s), size);
      FileFits(g, t', disk', l.chains, s);
    }
  }

  lemma OwnRemarked(t: Table, chains: Chains, reserved: set<nat>, f: nat, cs: seq<nat>, t': Table)
    requires Owned(t, chains, reserved) && IsChainOf(chains, f, cs)
    requires cs != [] ==> IsChain(t, cs)
    requires forall c :: c in cs ==> c < |t|
    requires t' == if cs == [] then t else t[cs[|cs| - 1] := EOF]
    ensures Owned(t', chains, reserved) && |t'| == |t|
  {
    hide Owned, IsChain;
    if f != 0 && cs != [] {
      OwnedParts(t, chains, reserved);
      CutByFreeing(t, cs, |cs|);
      OwnCut(t, chains, reserved, f, |cs|);
      assert cs[..|cs|] == cs && chains[f := cs] == chains;
    }
  }

  /** Bytes below the old size are the same before and after. */
  lemma PrefixSurvives(g: Geometry, t: Table, disk: Disk, disk': Disk, cs: seq<nat>, ds: seq<nat>, size: nat,
                       size': nat)
    requires OnlyIn(disk, disk', cs + ds) && Holds(disk, cs, g.clusterSize)
    requires size <= |Data(disk, cs)| && SameOutside(Data(disk, cs + ds), Data(disk', cs + ds), size, size')
    ensures |Data(disk', cs)| == |Data(disk, cs)|
    ensures Data(disk', cs)[..size] == Data(disk, cs)[..size]
  {
    hide Data, Start;
    DataSplit(disk, cs, ds);
    DataSplit(disk', cs, ds);
    OnlyInHolds(disk, disk', cs + ds, cs, g.clusterSize);
    DataLength(disk, cs, g.clusterSize);
    DataLength(disk', cs, g.clusterSize);
    var a, b, x, y := Data(disk, cs), Data(disk', cs), Data(disk, ds), Data(disk', ds);
    forall k | 0 <= k < size ensures a[k] == b[k] {
      assert (a + x)[k] == (b + y)[k];
    }
  }

  // ---------------------------------------------------------------------- the outcome

  /**
    Entry `i` of directory `d` became `s'`, describing the same file with its
    bytes truncated to `size`; every other chain keeps its bytes.
   */
  ghost predicate FileTruncated(disk: Disk, l: Layout, disk': Disk, l': Layout, d: nat, i: nat, s: Slot, s': Slot,
                                size: nat) {
    && l'.dirs == l.dirs && d in l.chains && d in l'.chains && l'.chains[d] == l.chains[d]
    && Name(s') == Name(s) && Attributes(s') == Attributes(s) && Size(s') == size
    && (Cluster(s') == Cluster(s) || Cluster(s') !in l.chains)
    && i < |DirSlots(disk, l.chains[d])|
    && DirSlots(disk', l.chains[d]) == WithSlot(DirSlots(disk, l.chains[d]), i, s')
    && Contents(disk', l'.chains, s') == Truncated(Contents(disk, l.chains, s), size)
    && forall h :: h in l.chains && h != Cluster(s) && h != d ==>
         h in l'.chains && l'.chains[h] == l.chains[h] && Data(disk', l.chains[h]) == Data(disk, l.chains[h])
  }

  /** From committed parts to the outcome. */
  lemma Outcome(g: Geometry, t': Table, disk: Disk, l: Layout, disk1: Disk, disk2: Disk, l': Layout, d: nat, i: nat,
                s: Slot, s': Slot, size: nat)
    requires Sane(g) && Owned(t', l'.chains, g.reserved) && Formatted(t', disk2, g.clusterSize)
    requires d in l.chains && d in l'.chains && l'.chains[d] == l.chains[d] && l'.dirs == l.dirs
    requires IsRegular(s) && Name(s') == Name(s) && Attributes(s') == Attributes(s) && Size(s') == size
    requires Cluster(s') == Cluster(s) || Cluster(s') !in l.chains
    requires i < |DirSlots(disk, l.chains[d])|
    requires DirSlots(disk2, l.chains[d]) == WithSlot(DirSlots(disk, l.chains[d]), i, s')
    requires OthersUntouched(disk, disk1, l.chains, Cluster(s)) && OthersUntouched(disk1, disk2, l'.chains, d)
    requires forall h :: h in l.chains && h != Cluster(s) ==> h in l'.chains && l'.chains[h] == l.chains[h]
    requires SizeOk(l'.chains, g.clusterSize, s')
    requires if Cluster(s') == 0 then size == 0
             else Cluster(s') != d && Cluster(s') in l'.chains
                  && size <= |Data(disk1, l'.chains[Cluster(s')])|
                  && Data(disk1, l'.chains[Cluster(s')])[..size] == Truncated(Contents(disk, l.chains, s), size)
    ensures FileTruncated(disk, l, disk2, l', d, i, s, s', size)
  {
    hide Data, Owned, Cluster, Size, SlotsIn, WithSlot, IsNormal;
    SameKind(s, s');
    if Cluster(s') != 0 {
      FileFits(g, t', disk2, l'.chains, s');
      assert Data(disk2, l'.chains[Cluster(s')]) == Data(disk1, l'.chains[Cluster(s')]);
    }
  }

  /** A growth whose zeroing succeeded commits to the truncated file. */
  lemma GrowCommit(g: Geometry, t: Table, disk: Disk, l: Layout, d: nat, i: nat, s: Slot, cs: seq<nat>, n: nat,
                   t': Table, disk1: Disk, s': Slot, size: nat, at: Location)
    requires Consistent(g, t, disk, l)
    requires d in l.dirs && d in l.chains && Live(DirSlots(disk, l.chains[d]), i)
    requires s == DirSlots(disk, l.chains[d])[i] && IsRegular(s) && cs == ChainOf(l.chains, s)
    requires i < |DirLocations(l.chains[d], PerCluster(g))| && at == DirLocations(l.chains[d], PerCluster(g))[i]
    requires Size(s) < size <= 0xFFFF_FFFF && |cs| + n == ClustersFor(size, g.clusterSize)
    requires n <= |FreeList(t)| && GrownTable(t, cs, n, t') && OnlyIn(disk, disk1, GrownChain(t, cs, n))
    requires SameOutside(Data(disk, GrownChain(t, cs, n)), Data(disk1, GrownChain(t, cs, n)), Size(s), size)
    requires size <= |Data(disk1, GrownChain(t, cs, n))|
    requires forall k :: Size(s) <= k < size ==> Data(disk1, GrownChain(t, cs, n))[k] == 0
    requires GrownChain(t, cs, n) != [] && s' == GrownEntry(s, GrownChain(t, cs, n)[0], size)
    ensures at.cluster in disk1 && at.offset + SLOT_SIZE <= |disk1[at.cluster]|
    ensures var l' := Resized(l, d, i, Cluster(s), GrownChain(t, cs, n)[0], GrownChains(t, l.chains, cs, n));
            && Consistent(g, t', Stored(disk1, at, s'), l')
            && FileTruncated(disk, l, Stored(disk1, at, s'), l', d, i, s, s', size)
  {
    hide Tree, DirSlots, Live, Data, Cluster, Size, Owned, IsChain, FreeList, OnlyIn, Stored, DirLocations, GrownTable,
      FileTruncated, GrownEntry, ClustersFor, SameOutside, Resizes, Resized;
    var f, cs' := Cluster(s), GrownChain(t, cs, n);
    var f', chains' := cs'[0], GrownChains(t, l.chains, cs, n);
    FileFacts(g, t, disk, l, d, i, s);
    OwnGrown(t, l.chains, g.reserved, f, cs, n, t');
    ChainFits(t', chains', g.reserved, f');
    GrownEntryFields(s, f', size);
    GrowResizes(g, t, l, s, cs, n, s', size);
    WriteSparesOthers(t, disk, disk1, l.chains, g.reserved, f, cs');
    FormattedFrame(t, disk, t, disk1, cs', g.clusterSize);
    CommitResize(g, t, disk, l, d, i, s, f, s', f', t', chains', disk1, at);
    ResizedParts(l, d, i, f, f', chains');
    GrownContents(disk, disk1, cs, FreeList(t)[..n], Size(s), size, Contents(disk, l.chains, s));
    GrowOutcome(g, t, t', disk, l, disk1, d, i, s, cs, n, s', size, at);
  }

  lemma ChainFits(t: Table, chains: Chains, reserved: set<nat>, f: nat)
    requires Owned(t, chains, reserved) && f in chains
    ensures f <= 0xFFFF_FFFF
  {
    ChainInRange(t, chains, f);
  }

  lemma GrownContents(disk: Disk, disk1: Disk, cs: seq<nat>, ds: seq<nat>, size: nat, size': nat, contents: seq<Byte>)
    requires size <= |Data(disk, cs)| && contents == Data(disk, cs)[..size] && size <= size' <= |Data(disk1, cs + ds)|
    requires SameOutside(Data(disk, cs + ds), Data(disk1, cs + ds), size, size')
    requires forall k :: size <= k < size' ==> Data(disk1, cs + ds)[k] == 0
    ensures Data(disk1, cs + ds)[..size'] == Truncated(contents, size')
  {
    hide Data;
    DataSplit(disk, cs, ds);
    GrownBytes(Data(disk, cs), Data(disk, ds), Data(disk1, cs + ds), size, size');
  }

  lemma GrowOutcome(g: Geometry, t: Table, t': Table, disk: Disk, l: Layout, disk1: Disk, d: nat, i: nat, s: Slot,
                    cs: seq<nat>, n: nat, s': Slot, size: nat, at: Location)
    requires n <= |FreeList(t)| && GrownChain(t, cs, n) != [] && d in l.chains
    requires at.cluster in disk1 && at.offset + SLOT_SIZE <= |disk1[at.cluster]|
    requires Resizes(l, g.clusterSize, s, Cluster(s), s', GrownChain(t, cs, n)[0], GrownChains(t, l.chains, cs, n))
    requires Consistent(g, t', Stored(disk1, at, s'),
             Resized(l, d, i, Cluster(s), GrownChain(t, cs, n)[0], GrownChains(t, l.chains, cs, n)))
    requires GrownChain(t, cs, n)[0] != d && Cluster(s) != d && GrownChain(t, cs, n)[0] != 0 && Size(s') == size
    requires Cluster(s) == 0 || GrownChain(t, cs, n)[0] == Cluster(s)
    requires i < |DirSlots(disk, l.chains[d])|
    requires DirSlots(Stored(disk1, at, s'), l.chains[d]) == WithSlot(DirSlots(disk, l.chains[d]), i, s')
    requires OthersUntouched(disk, disk1, l.chains, Cluster(s))
    requires OthersUntouched(disk1, Stored(disk1, at, s'), GrownChains(t, l.chains, cs, n), d)
    requires size <= |Data(disk1, GrownChain(t, cs, n))|
    requires Data(disk1, GrownChain(t, cs, n))[..size] == Truncated(Contents(disk, l.chains, s), size)
    ensures FileTruncated(disk, l, Stored(disk1, at, s'),
                          Resized(l, d, i, Cluster(s), GrownChain(t, cs, n)[0], GrownChains(t, l.chains, cs, n)), d, i,
                            s, s', size)
  {
    hide Tree, DirSlots, Data, Cluster, Size, Owned, FreeList, Stored, FileTruncated, OthersUntouched, Truncated,
      Contents, WithSlot;
    var f', chains' := GrownChain(t, cs, n)[0], GrownChains(t, l.chains, cs, n);
    var l' := Resized(l, d, i, Cluster(s), f', chains');
    Outcome(g, t', disk, l, disk1, Stored(disk1, at, s'), l', d, i, s, s', size);
  }

  // ------------------------------------------------------------------------ shrinking

  /** The table, chains and entry after shrinking a file to `size`. */
  ghost predicate ShrunkTable(t: Table, cs: seq<nat>, keep: nat, t': Table) {
    if cs == [] then t' == t
    else if keep == 0 then t' == Zeroed(t, cs)
    else IsChain(t, cs) && keep <= |cs| && t' == Cut(t, cs, keep)
  }

  ghost function ShrunkChains(chains: Chains, f: nat, keep: nat): Chains {
    if f !in chains then chains
    else if keep == 0 || keep > |chains[f]| then chains - {f}
    else chains[f := chains[f][..keep]]
  }

  lemma OwnShrunk(t: Table, chains: Chains, reserved: set<nat>, f: nat, cs: seq<nat>, keep: nat, t': Table)
    requires Owned(t, chains, reserved) && IsChainOf(chains, f, cs) && 0 !in chains && (f == 0 <==> cs == [])
    requires ShrunkTable(t, cs, keep, t') && keep <= |cs|
    ensures |t'| == |t| && Owned(t', ShrunkChains(chains, f, keep), reserved)
  {
    hide Owned, IsChain, Cut, Zeroed;
    if f != 0 {
      if keep == 0 {
        OwnFreed(t, chains, reserved, f);
      } else {
        OwnCut(t, chains, reserved, f, keep);
      }
    }
  }

  function ShrunkEntry(s: Slot, size: nat): Slot {
    if size == 0 then SetSize(SetCluster(s, 0), 0) else SetSize(s, size)
  }

  lemma ShrunkEntryFields(s: Slot, size: nat)
    requires size <= 0xFFFF_FFFF
    ensures var r := ShrunkEntry(s, size);
            && Cluster(r) == (if size == 0 then 0 else Cluster(s))
            && Size(r) == size && Name(r) == Name(s) && Attributes(r) == Attributes(s)
  {
    hide Cluster, Size, Name, Attributes, SetCluster, SetSize;
    ClusterRoundTrip(s, 0);
    SizeRoundTrip(SetCluster(s, 0), 0);
    SizeRoundTrip(s, size);
  }

  lemma ShrinkResizes(g: Geometry, l: Layout, s: Slot, cs: seq<nat>, s': Slot, size: nat)
    requires g.clusterSize > 0 && IsRegular(s) && 0 !in l.chains
    requires cs == ChainOf(l.chains, s) && (Cluster(s) == 0 <==> cs == []) && IsChainOf(l.chains, Cluster(s), cs)
    requires |cs| == ClustersFor(Size(s), g.clusterSize) && size < Size(s)
    requires Cluster(s') == (if size == 0 then 0 else Cluster(s))
    requires Size(s') == size && Name(s') == Name(s) && Attributes(s') == Attributes(s)
    ensures ClustersFor(size, g.clusterSize) <= |cs|
    ensures Resizes(l, g.clusterSize, s, Cluster(s), s', Cluster(s'),
              ShrunkChains(l.chains, Cluster(s), ClustersFor(size, g.clusterSize)))
  {
    hide Cluster, Size;
    SameKind(s, s');
    ClustersMonotone(size, Size(s), g.clusterSize);
    ClustersCover(size, g.clusterSize);
    ClustersCover(Size(s), g.clusterSize);
  }

  /** A shrink commits to the prefix. */
  lemma ShrinkCommit(g: Geometry, t: Table, disk: Disk, l: Layout, d: nat, i: nat, s: Slot, cs: seq<nat>, t': Table,
                     s': Slot, size: nat, at: Location)
    requires Consistent(g, t, disk, l)
    requires d in l.dirs && d in l.chains && Live(DirSlots(disk, l.chains[d]), i)
    requires s == DirSlots(disk, l.chains[d])[i] && IsRegular(s) && cs == ChainOf(l.chains, s)
    requires i < |DirLocations(l.chains[d], PerCluster(g))| && at == DirLocations(l.chains[d], PerCluster(g))[i]
    requires size < Size(s) && s' == ShrunkEntry(s, size) && g.clusterSize > 0
    requires ShrunkTable(t, cs, ClustersFor(size, g.clusterSize), t')
    ensures at.cluster in disk && at.offset + SLOT_SIZE <= |disk[at.cluster]|
    ensures var l' := Resized(l, d, i, Cluster(s), Cluster(s'),
              ShrunkChains(l.chains, Cluster(s), ClustersFor(size, g.clusterSize)));
            && Consistent(g, t', Stored(disk, at, s'), l')
            && FileTruncated(disk, l, Stored(disk, at, s'), l', d, i, s, s', size)
  {
    hide Tree, DirSlots, Live, Data, Cluster, Size, Owned, IsChain, Stored, DirLocations, ShrunkTable, FileTruncated,
      ShrunkEntry, ClustersFor, Resizes, Resized, ShrunkChains;
    var f, keep := Cluster(s), ClustersFor(size, g.clusterSize);
    var chains' := ShrunkChains(l.chains, f, keep);
    FileFacts(g, t, disk, l, d, i, s);
    ShrunkEntryFields(s, size);
    ShrinkResizes(g, l, s, cs, s', size);
    OwnShrunk(t, l.chains, g.reserved, f, cs, keep, t');
    CommitResize(g, t, disk, l, d, i, s, f, s', Cluster(s'), t', chains', disk, at);
    ResizedParts(l, d, i, f, Cluster(s'), chains');
    ShrinkOutcome(g, t', disk, l, d, i, s, cs, s', size, at);
  }

  lemma ShrinkOutcome(g: Geometry, t': Table, disk: Disk, l: Layout, d: nat, i: nat, s: Slot, cs: seq<nat>, s': Slot,
                      size: nat, at: Location)
    requires d in l.chains && g.clusterSize > 0 && at.cluster in disk && at.offset + SLOT_SIZE <= |disk[at.cluster]|
    requires Resizes(l, g.clusterSize, s, Cluster(s), s', Cluster(s'),
             ShrunkChains(l.chains, Cluster(s), ClustersFor(size, g.clusterSize)))
    requires Consistent(g, t', Stored(disk, at, s'),
             Resized(l, d, i, Cluster(s), Cluster(s'),
             ShrunkChains(l.chains, Cluster(s), ClustersFor(size, g.clusterSize))))
    requires Cluster(s) != d && Cluster(s') != d && Size(s') == size < Size(s)
    requires cs == ChainOf(l.chains, s) && IsChainOf(l.chains, Cluster(s), cs) && Holds(disk, cs, g.clusterSize)
    requires ClustersFor(size, g.clusterSize) <= |cs| && Size(s) <= |Data(disk, cs)|
    requires Contents(disk, l.chains, s) == Data(disk, cs)[..Size(s)]
    requires i < |DirSlots(disk, l.chains[d])|
    requires DirSlots(Stored(disk, at, s'), l.chains[d]) == WithSlot(DirSlots(disk, l.chains[d]), i, s')
    requires OthersUntouched(disk, Stored(disk, at, s'),
             ShrunkChains(l.chains, Cluster(s), ClustersFor(size, g.clusterSize)), d)
    requires Cluster(s') == (if size == 0 then 0 else Cluster(s)) && 0 !in l.chains && (Cluster(s) == 0 <==> cs == [])
    ensures FileTruncated(disk, l, Stored(disk, at, s'),
                          Resized(l, d, i, Cluster(s), Cluster(s'),
                            ShrunkChains(l.chains, Cluster(s), ClustersFor(size, g.clusterSize))), d, i, s, s', size)
  {
    hide Tree, DirSlots, Data, Cluster, Size, Owned, Stored, FileTruncated, WithSlot, Contents, Start;
    var keep := ClustersFor(size, g.clusterSize);
    var chains' := ShrunkChains(l.chains, Cluster(s), keep);
    var l' := Resized(l, d, i, Cluster(s), Cluster(s'), chains');
    if size > 0 {
      ClustersCover(size, g.clusterSize);
      KeptBytes(disk, cs, keep, g.clusterSize, size);
    }
    Outcome(g, t', disk, l, disk, Stored(disk, at, s'), l', d, i, s, s', size);
  }

  /** The kept clusters hold the prefix. */
  lemma KeptBytes(disk: Disk, cs: seq<nat>, keep: nat, clusterSize: nat, size: nat)
    requires Holds(disk, cs, clusterSize) && keep <= |cs| && size <= Start(keep, clusterSize)
    ensures size <= |Data(disk, cs[..keep])| <= |Data(disk, cs)|
    ensures Data(disk, cs[..keep])[..size] == Data(disk, cs)[..size]
  {
    hide Data, Start;
    DataLength(disk, cs[..keep], clusterSize);
    DataSplit(disk, cs[..keep], cs[keep..]);
    assert cs[..keep] + cs[keep..] == cs;
  }
}
