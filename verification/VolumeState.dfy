/**
  Consistency of a whole volume: cluster ownership, the device behind it and
  the directory tree read from the device's own bytes.
 */
module VolumeState {

  import opened Base
  import opened Slots
  import opened FatTable
  import opened Ownership
  import opened DirectoryParser
  import opened DirectoryEdits
  import opened ClusterData
  import opened FileData
  import opened Forest
  import opened TreeEdits
  import opened TreeOps

  /** The fixed parameters of a mounted volume. */
  datatype Geometry = Geometry(root: nat, clusterSize: nat, reserved: set<nat>)

  ghost predicate Sane(g: Geometry) {
    g.clusterSize >= 2 * SLOT_SIZE && g.clusterSize == SLOT_SIZE * PerCluster(g)
  }

  function PerCluster(g: Geometry): nat { g.clusterSize / SLOT_SIZE }

  /** Every allocatable cluster can be transferred. */
  ghost predicate Formatted(t: Table, disk: Disk, clusterSize: nat) {
    forall c: nat :: 2 <= c < |t| ==> c in disk && |disk[c]| == clusterSize
  }

  ghost function DirSlotsOf(disk: Disk, l: Layout, d: nat): seq<Slot> {
    if d in l.chains then DirSlots(disk, l.chains[d]) else []
  }

  /** The slot lists of all directories, as stored. */
  ghost function ViewOf(disk: Disk, l: Layout): View {
    map d | d in l.dirs && d in l.chains :: DirSlots(disk, l.chains[d])
  }

  ghost predicate Consistent(g: Geometry, t: Table, disk: Disk, l: Layout) {
    && Sane(g)
    && Owned(t, l.chains, g.reserved)
    && Formatted(t, disk, g.clusterSize)
    && Tree(g.root, g.clusterSize, ViewOf(disk, l), l)
  }

  // ------------------------------------------------------------------ basic facts

  lemma ChainOnDisk(g: Geometry, t: Table, disk: Disk, chains: Chains, f: nat)
    requires Sane(g) && Owned(t, chains, g.reserved) && Formatted(t, disk, g.clusterSize) && f in chains
    ensures OnDisk(t, disk, chains[f], g.clusterSize) && chains[f][0] == f
    ensures Holds(disk, chains[f], SLOT_SIZE * PerCluster(g))
    ensures IsChain(t, chains[f]) && Distinct(chains[f])
  {
    assert IsChain(t, chains[f]);
  }

  lemma FormattedFrame(t: Table, disk: Disk, t': Table, disk': Disk, cs: seq<nat>, clusterSize: nat)
    requires Formatted(t, disk, clusterSize) && |t'| == |t| && OnlyIn(disk, disk', cs)
    ensures Formatted(t', disk', clusterSize)
  {
  }

  /** The bytes of every chain but `f`'s are as before. */
  ghost predicate OthersUntouched(disk: Disk, disk': Disk, chains: Chains, f: nat) {
    forall h :: h in chains && h != f ==> Data(disk', chains[h]) == Data(disk, chains[h])
  }

  /** Writing inside one chain, or inside clusters nobody owns, spares the rest. */
  lemma WriteSparesOthers(t: Table, disk: Disk, disk': Disk, chains: Chains, reserved: set<nat>, f: nat, cs: seq<nat>)
    requires Owned(t, chains, reserved) && OnlyIn(disk, disk', cs)
    requires forall c :: c in cs ==> !UsedElsewhere(chains, f, c)
    ensures OthersUntouched(disk, disk', chains, f)
  {
    hide Data, OnlyIn, Owned;
    forall h | h in chains && h != f ensures Data(disk', chains[h]) == Data(disk, chains[h]) {
      forall c | c in chains[h] ensures c !in cs {
        assert UsedElsewhere(chains, f, c);
      }
      OnlyInElsewhere(disk, disk', cs, chains[h]);
    }
  }

  lemma OwnChainNotElsewhere(chains: Chains, f: nat)
    requires Disjoint(chains) && f in chains
    ensures forall c :: c in chains[f] ==> !UsedElsewhere(chains, f, c)
  {
  }

  lemma FreeNotElsewhere(t: Table, chains: Chains, reserved: set<nat>, f: nat, n: nat)
    requires Owned(t, chains, reserved) && n <= |FreeList(t)|
    ensures forall c :: c in FreeList(t)[..n] ==> !UsedElsewhere(chains, f, c)
  {
    hide FreeList, Owned;
    FreshUnused(t, chains, reserved, n);
    forall c | c in FreeList(t)[..n] ensures !UsedElsewhere(chains, f, c) {
      UsedSplit(chains, f, c);
    }
  }

  /** The view depends only on the directories' own bytes. */
  lemma ViewFrame(disk: Disk, disk': Disk, l: Layout, l': Layout)
    requires l'.dirs == l.dirs
    requires forall d :: d in l.dirs ==>
             d in l.chains && d in l'.chains && Data(disk', l'.chains[d]) == Data(disk, l.chains[d])
    ensures ViewOf(disk', l') == ViewOf(disk, l)
  {
    hide Data, SlotsIn;
  }

  // ------------------------------------------------------------- writing one slot

  ghost function Stored(disk: Disk, at: Location, s: Slot): Disk
    requires at.cluster in disk && at.offset + SLOT_SIZE <= |disk[at.cluster]|
  {
    disk[at.cluster := Splice(disk[at.cluster], at.offset, s)]
  }

  lemma SlotCount(g: Geometry, t: Table, disk: Disk, chains: Chains, d: nat)
    requires Sane(g) && Owned(t, chains, g.reserved) && Formatted(t, disk, g.clusterSize) && d in chains
    ensures |DirLocations(chains[d], PerCluster(g))| == |DirSlots(disk, chains[d])| == Start(|chains[d]|, PerCluster(g))
  {
    hide Start, Data, Owned, IsChain;
    ChainOnDisk(g, t, disk, chains, d);
    DirLocationsLength(chains[d], PerCluster(g));
    DataLength(disk, chains[d], g.clusterSize);
    StartScale(|chains[d]|, PerCluster(g));
  }

  /** Storing a slot at its location changes that slot and nothing else. */
  lemma StoreSlot(g: Geometry, t: Table, disk: Disk, chains: Chains, d: nat, i: nat, s: Slot, at: Location)
    requires Sane(g) && Owned(t, chains, g.reserved) && Formatted(t, disk, g.clusterSize)
    requires d in chains && i < |DirSlots(disk, chains[d])|
    requires i < |DirLocations(chains[d], PerCluster(g))| && at == DirLocations(chains[d], PerCluster(g))[i]
    ensures at.cluster in disk && at.offset == SLOT_SIZE * at.index && at.offset + SLOT_SIZE <= |disk[at.cluster]|
    ensures at.cluster in chains[d] && 2 <= at.cluster < |t|
    ensures SlotAt(disk[at.cluster], at.index) == DirSlots(disk, chains[d])[i]
    ensures DirSlots(Stored(disk, at, s), chains[d]) == WithSlot(DirSlots(disk, chains[d]), i, s)
    ensures OthersUntouched(disk, Stored(disk, at, s), chains, d)
    ensures Formatted(t, Stored(disk, at, s), g.clusterSize)
    ensures OnlyIn(disk, Stored(disk, at, s), chains[d])
  {
    hide Data, SlotsIn, DirLocations, Owned, IsChain, Splice;
    ChainOnDisk(g, t, disk, chains, d);
    PersistSlot(disk, chains[d], PerCluster(g), i, s);
    OwnedParts(t, chains, g.reserved);
    ChainInRange(t, chains, d);
    StoredOnlyIn(disk, at, s, chains[d]);
    OwnChainNotElsewhere(chains, d);
    WriteSparesOthers(t, disk, Stored(disk, at, s), chains, g.reserved, d, chains[d]);
    FormattedFrame(t, disk, t, Stored(disk, at, s), chains[d], g.clusterSize);
  }

  lemma OwnedParts(t: Table, chains: Chains, reserved: set<nat>)
    requires Owned(t, chains, reserved)
    ensures Sized(t) && AreChains(t, chains) && Disjoint(chains)
  {
  }

  lemma StoredOnlyIn(disk: Disk, at: Location, s: Slot, cs: seq<nat>)
    requires at.cluster in disk && at.offset + SLOT_SIZE <= |disk[at.cluster]| && at.cluster in cs
    ensures OnlyIn(disk, Stored(disk, at, s), cs)
  {
  }

  /** The view after storing a slot. */
  lemma StoreSlotView(g: Geometry, t: Table, disk: Disk, l: Layout, d: nat, i: nat, s: Slot, at: Location)
    requires Sane(g) && Owned(t, l.chains, g.reserved) && Formatted(t, disk, g.clusterSize)
    requires d in l.dirs && l.dirs <= l.chains.Keys && i < |DirSlots(disk, l.chains[d])|
    requires i < |DirLocations(l.chains[d], PerCluster(g))| && at == DirLocations(l.chains[d], PerCluster(g))[i]
    ensures at.cluster in disk && at.offset + SLOT_SIZE <= |disk[at.cluster]|
    ensures ViewOf(Stored(disk, at, s), l) == ViewOf(disk, l)[d := WithSlot(ViewOf(disk, l)[d], i, s)]
  {
    hide Data, SlotsIn, DirLocations, Owned, Stored, WithSlot;
    StoreSlot(g, t, disk, l.chains, d, i, s, at);
  }
}
