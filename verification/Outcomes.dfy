/**
  What a file or directory operation does to the entries of a volume. A volume
  is read as a map from places to named files and folders; every operation is
  one update of that map.
 */
module Outcomes {

  import opened Base
  import opened Slots
  import opened FatTable
  import opened Ownership
  import opened LongNames
  import opened ShortNames
  import opened DirectoryParser
  import opened DirectoryEdits
  import opened NameEntries
  import opened ClusterData
  import opened FileData
  import opened Forest
  import opened TreeEdits
  import opened TreeOps
  import opened VolumeState
  import opened ResizeState
  import opened FileResize
  import opened FileAccess
  import opened Descriptors
  import opened DirectoryState
  import opened DirectorySlots
  import opened Lookup
  import opened Creation
  import opened MakeDirectory
  import opened Removal
  import opened Paths
  import opened Walking

  // ------------------------------------------------------------------- the entries

  datatype State = State(table: Table, disk: Disk, layout: Layout)

  datatype Node =
    | FileNode(name: string, attributes: Byte, bytes: seq<Byte>)
    | FolderNode(name: string, cluster: nat)

  /** What is stored where; dot entries are left out. */
  type Nodes = imap<Place, Node>

  ghost predicate IsNamed(disk: Disk, l: Layout, p: Place) {
    && p.dir in l.dirs && Live(DirSlotsOf(disk, l, p.dir), p.index)
    && !IsDotName(Name(DirSlotsOf(disk, l, p.dir)[p.index]))
  }

  ghost function NodeAt(disk: Disk, l: Layout, p: Place): Node
    requires p.index < |DirSlotsOf(disk, l, p.dir)|
  {
    var e := EntryAt(DirSlotsOf(disk, l, p.dir), p.index);
    if IsDirectory(e.slot) then FolderNode(e.name, Cluster(e.slot))
    else FileNode(e.name, Attributes(e.slot), Contents(disk, l.chains, e.slot))
  }

  ghost function NodesOf(disk: Disk, l: Layout): Nodes {
    imap p: Place | IsNamed(disk, l, p) :: NodeAt(disk, l, p)
  }

  /** The entry at `p` is the same in both volumes, or in neither. */
  ghost predicate NodeKept(disk: Disk, l: Layout, disk': Disk, l': Layout, p: Place) {
    && (IsNamed(disk', l', p) <==> IsNamed(disk, l, p))
    && (IsNamed(disk, l, p) ==> NodeAt(disk', l', p) == NodeAt(disk, l, p))
  }

  // ------------------------------------------------------- what one edit leaves alone

  /** Apart from slot `x`, the same entries are listed. */
  ghost predicate SameEntries(ss: seq<Slot>, ss': seq<Slot>, x: nat) {
    forall j: nat :: j != x ==>
      && (Live(ss', j) <==> Live(ss, j))
      && (Live(ss, j) ==> EntryAt(ss', j) == EntryAt(ss, j))
  }

  /** The directory `e` has the same slots, or had or has none but dot entries. */
  ghost predicate DirKept(disk: Disk, l: Layout, disk': Disk, l': Layout, e: nat) {
    if e in l.dirs && e in l'.dirs then DirSlotsOf(disk', l', e) == DirSlotsOf(disk, l, e)
    else (e in l.dirs ==> Empty(DirSlotsOf(disk, l, e))) && (e in l'.dirs ==> Empty(DirSlotsOf(disk', l', e)))
  }

  lemma GainedMembers(es: seq<Entry>, e: Entry, es': seq<Entry>)
    requires Gained(es, e, es')
    ensures forall a :: a in es' <==> a == e || a in es
  {
    var k: nat :| k <= |es| && es' == es[..k] + [e] + es[k..];
    assert es == es[..k] + es[k..];
  }

  lemma GainedEntries(ss: seq<Slot>, ss': seq<Slot>, x: nat)
    requires x < |ss'| && Gained(Listing(ss), EntryAt(ss', x), Listing(ss'))
    ensures forall j: nat :: Live(ss, j) ==> Live(ss', j) && EntryAt(ss', j) == EntryAt(ss, j)
    ensures forall j: nat :: Live(ss', j) && j != x ==> Live(ss, j)
  {
    hide Listing, EntryAt, Live, Gained;
    GainedMembers(Listing(ss), EntryAt(ss', x), Listing(ss'));
    forall j: nat | Live(ss, j) ensures Live(ss', j) && EntryAt(ss', j) == EntryAt(ss, j) {
      LiveIsListed(ss, j);
      var k :| 0 <= k < |Listing(ss')| && Listing(ss')[k] == EntryAt(ss, j);
      ListingAt(ss', k);
    }
    forall j: nat | Live(ss', j) && j != x ensures Live(ss, j) {
      LiveIsListed(ss', j);
      var k :| 0 <= k < |Listing(ss)| && Listing(ss)[k] == EntryAt(ss', j);
      ListingAt(ss, k);
    }
  }

  lemma GainsKeep(ss: seq<Slot>, ss': seq<Slot>, x: nat)
    requires ListingGains(ss, ss', x)
    ensures SameEntries(ss, ss', x) && Live(ss', x) && !Live(ss, x)
  {
    hide Listing, EntryAt, Live, Gained;
    GainedEntries(ss, ss', x);
  }

  lemma LossKeeps(ss: seq<Slot>, ss': seq<Slot>, x: nat)
    requires ListingLoses(ss, ss', x)
    ensures SameEntries(ss, ss', x) && Live(ss, x) && !Live(ss', x)
  {
    hide Listing, EntryAt, Live, Gained;
    GainedEntries(ss', ss, x);
  }

  lemma EndsKeep(ss: seq<Slot>, ss': seq<Slot>, x: nat)
    requires OnlyEnds(ss, ss') && Shaped(ss)
    ensures SameEntries(ss, ss', x) && (Live(ss', x) <==> Live(ss, x))
    ensures Live(ss, x) ==> EntryAt(ss', x) == EntryAt(ss, x)
  {
    hide Live, Shaped, EntryAt;
    var z := ss'[|ss|..];
    ExtendedSlots(ss, z);
    assert ss' == ss + z;
    if z == [] {
      assert ss' == ss;
    } else {
      assert IsEnd(z[|z| - 1]);
      forall j: nat | Live(ss, j) ensures EntryAt(ss', j) == EntryAt(ss, j) {
        EntryLocal(ss, ss', |ss|, |ss'|, j);
      }
    }
  }

  lemma SlotKeeps(ss: seq<Slot>, ss': seq<Slot>, x: nat)
    requires SameButSlot(ss, ss', x)
    ensures SameEntries(ss, ss', x)
  {
    hide Live, EntryAt, Name, Attributes;
    forall j: nat | j != x && Live(ss, j) ensures EntryAt(ss', j) == EntryAt(ss, j) {
      assert SameEntry(ss, ss', j);
    }
  }

  /** Other files keep their bytes. */
  lemma FileSpared(g: Geometry, t: Table, disk: Disk, l: Layout, disk': Disk, l': Layout, d: nat, x: nat, p: Place)
    requires Consistent(g, t, disk, l) && d in l.dirs && IsNamed(disk, l, p) && p != Place(d, x)
    requires Preserved(disk, l, disk', l', {d, OwnedAt(DirSlotsOf(disk, l, d), x)})
    ensures var s := DirSlotsOf(disk, l, p.dir)[p.index];
            !IsDirectory(s) ==> Contents(disk', l'.chains, s) == Contents(disk, l.chains, s)
  {
    hide DirSlots, Live, Name, IsDotName, Data, OwnedAt, Tree, Owned, Formatted, Cluster, Size, IsDirectory, IsRegular;
    var sl := ViewOf(disk, l);
    TreeKeys(g.root, g.clusterSize, sl, l);
    var s := sl[p.dir][p.index];
    if !IsDirectory(s) {
      LiveKinds(sl[p.dir], p.index);
      OtherOwner(g.root, g.clusterSize, sl, l, d, x, p.dir, p.index);
      RegularHolds(g.root, g.clusterSize, sl, l, p.dir, p.index);
      RegularOwns(s);
    }
  }

  lemma LiveKinds(ss: seq<Slot>, i: nat)
    requires Live(ss, i)
    ensures IsRegular(ss[i]) || IsDirectory(ss[i])
  {
  }

  lemma RegularOwns(s: Slot)
    requires IsRegular(s)
    ensures OwnedCluster(s) == Cluster(s)
  {
  }

  /** An edit of the entry at `x` of directory `d` keeps every other entry. */
  lemma NodesFramed(g: Geometry, t: Table, disk: Disk, l: Layout, disk': Disk, l': Layout, d: nat, x: nat, p: Place)
    requires Consistent(g, t, disk, l) && d in l.dirs && d in l'.dirs
    requires Preserved(disk, l, disk', l', {d, OwnedAt(DirSlotsOf(disk, l, d), x)})
    requires SameEntries(DirSlotsOf(disk, l, d), DirSlotsOf(disk', l', d), x)
    requires p.dir != d ==> DirKept(disk, l, disk', l', p.dir)
    requires p != Place(d, x)
    ensures NodeKept(disk, l, disk', l', p)
  {
    hide Consistent, Preserved, Live, EntryAt, Name, IsDotName, OwnedAt, Contents, DirSlotsOf, IsDirectory, Cluster;
    if IsNamed(disk, l, p) {
      FileSpared(g, t, disk, l, disk', l', d, x, p);
    }
  }

  ghost function Put(nodes: Nodes, p: Place, n: Option<Node>): Nodes {
    match n
    case Some(node) => nodes[p := node]
    case None => nodes - {p}
  }

  /** The entry at a place, if any. */
  ghost function At(disk: Disk, l: Layout, p: Place): Option<Node> {
    if IsNamed(disk, l, p) then Some(NodeAt(disk, l, p)) else None
  }

  lemma NodesChanged(disk: Disk, l: Layout, disk': Disk, l': Layout, p0: Place)
    requires forall p :: p != p0 ==> NodeKept(disk, l, disk', l', p)
    ensures NodesOf(disk', l') == Put(NodesOf(disk, l), p0, At(disk', l', p0))
  {
    hide IsNamed, NodeAt;
    var nodes := Put(NodesOf(disk, l), p0, At(disk', l', p0));
    forall p: Place
      ensures p in NodesOf(disk', l') <==> p in nodes
      ensures p in nodes ==> NodesOf(disk', l')[p] == nodes[p]
    {
      if p != p0 {
        assert NodeKept(disk, l, disk', l', p);
      }
    }
  }

  /** Directories outside the edit are as before; one that comes or goes is empty. */
  lemma DirsKept(disk: Disk, l: Layout, disk': Disk, l': Layout, d: nat, f: nat)
    requires l.dirs <= l.chains.Keys && Preserved(disk, l, disk', l', {d, f})
    requires f in l.dirs && f in l'.dirs ==> f == d
    requires forall e :: e in l.dirs && e !in l'.dirs ==> Empty(DirSlotsOf(disk, l, e))
    requires forall e :: e in l'.dirs && e !in l.dirs ==> Empty(DirSlotsOf(disk', l', e))
    ensures forall e :: e != d ==> DirKept(disk, l, disk', l', e)
  {
    hide Data, SlotsIn, Empty;
  }

  /** An edit of one entry changes the map at its place only. */
  lemma EditNodes(g: Geometry, t: Table, disk: Disk, l: Layout, disk': Disk, l': Layout, d: nat, x: nat)
    requires Consistent(g, t, disk, l) && d in l.dirs && d in l'.dirs
    requires Preserved(disk, l, disk', l', {d, OwnedAt(DirSlotsOf(disk, l, d), x)})
    requires SameEntries(DirSlotsOf(disk, l, d), DirSlotsOf(disk', l', d), x)
    requires forall e :: e != d ==> DirKept(disk, l, disk', l', e)
    ensures NodesOf(disk', l') == Put(NodesOf(disk, l), Place(d, x), At(disk', l', Place(d, x)))
  {
    hide Consistent, Preserved, SameEntries, DirKept, OwnedAt, DirSlotsOf, NodesOf, NodeKept, Put, At;
    forall p | p != Place(d, x) ensures NodeKept(disk, l, disk', l', p) {
      NodesFramed(g, t, disk, l, disk', l', d, x, p);
    }
    NodesChanged(disk, l, disk', l', Place(d, x));
  }

  // ------------------------------------------------------------------ the operations

  /** An operation names its directory by a path and the entry by its name. */
  datatype Op =
    | Create(path: string, name: string)
    | MakeDir(path: string, name: string)
    | Unlink(path: string, name: string)
    | RemoveDir(path: string, name: string)
    | Truncate(path: string, name: string, size: nat)
    | Write(path: string, name: string, offset: nat, bytes: seq<Byte>)

  /** An operation, whether it succeeded, the entry it dealt with, and the directory it made. */
  datatype Event = Event(op: Op, ok: bool, place: Place, child: nat)

  /** The bytes a file operation leaves. */
  ghost function NewBytes(op: Op, b: seq<Byte>): seq<Byte> {
    match op
    case Truncate(_, _, size) => Truncated(b, size)
    case Write(_, _, offset, bytes) => Written(b, offset, bytes)
    case _ => b
  }

  /** What a successful operation leaves at its place, given what was there. */
  ghost function Leaves(e: Event, was: Option<Node>): Option<Node> {
    match e.op
    case Create(_, name) => Some(FileNode(StoredAs(name), FILE_ATTRIBUTES, []))
    case MakeDir(_, name) => Some(FolderNode(StoredAs(name), e.child))
    case Unlink(_, _) => None
    case RemoveDir(_, _) => None
    case _ => if was.Some? && was.value.FileNode? then Some(was.value.(bytes := NewBytes(e.op, was.value.bytes)))
      else was
  }

  ghost function NodeIn(nodes: Nodes, p: Place): Option<Node> {
    if p in nodes then Some(nodes[p]) else None
  }

  /** The whole effect of an operation: one place changes, or nothing does. */
  ghost function Apply(nodes: Nodes, e: Event): Nodes {
    if e.ok then Put(nodes, e.place, Leaves(e, NodeIn(nodes, e.place))) else nodes
  }

  /** The directory a path leads to from the root. */
  ghost function Reached(root: nat, disk: Disk, l: Layout, path: string): Option<nat> {
    Resolved(LookIn(root, ViewOf(disk, l)), root, root, path)
  }

  ghost predicate IsFileNamed(ss: seq<Slot>, name: string, i: nat) {
    Live(ss, i) && IsRegular(ss[i]) && EqIgnoreCase(EntryAt(ss, i).name, name)
  }

  /** The first regular file listed under a name, up to case. */
  ghost predicate FirstFile(ss: seq<Slot>, name: string, i: nat) {
    IsFileNamed(ss, name, i) && forall j: nat :: IsFileNamed(ss, name, j) ==> i <= j
  }

  ghost predicate NoFile(ss: seq<Slot>, name: string) {
    forall j: nat :: !IsFileNamed(ss, name, j)
  }

  /** The entry a successful operation picks. */
  ghost predicate Chosen(g: Geometry, s: State, e: Event) {
    var ss, i := DirSlotsOf(s.disk, s.layout, e.place.dir), e.place.index;
    match e.op
    case Create(_, name) => Absent(Listing(ss), name) && Nameable(name) && !Live(ss, i)
    case MakeDir(_, name) => Absent(Listing(ss), name) && Nameable(name) && !Live(ss, i) && e.child !in s.layout.chains
    case Unlink(_, name) => FirstMatch(ss, name, i) && IsRegular(ss[i])
    case RemoveDir(_, name) => FirstMatch(ss, name, i) && Erasable(s.disk, s.layout, ss[i])
    case Truncate(_, name, size) => FirstFile(ss, name, i) && Truncatable(ss[i], size, s.table, g.clusterSize)
    case Write(_, name, offset, bytes) =>
      FirstFile(ss, name, i) && Writable(ss[i], offset, |bytes|, s.table, g.clusterSize)
  }

  /** Why an operation failed. Only a creation may have left a trace: end marks behind its directory. */
  ghost predicate Failed(g: Geometry, s: State, s': State, e: Event) {
    var ss, i := DirSlotsOf(s.disk, s.layout, e.place.dir), e.place.index;
    match e.op
    case Create(_, name) =>
      && OnlyEnds(ss, DirSlotsOf(s'.disk, s'.layout, e.place.dir)) && SameHolders(s.layout, s'.layout)
      && (!Absent(Listing(ss), name) || !Nameable(name) || |Listing(ss)| >= MAX_TAIL || FreeList(s'.table) == [])
    case MakeDir(_, name) =>
      && OnlyEnds(ss, DirSlotsOf(s'.disk, s'.layout, e.place.dir)) && SameHolders(s.layout, s'.layout)
      && (!Absent(Listing(ss), name) || !Nameable(name) || |Listing(ss)| >= MAX_TAIL || NearlyFull(s'.table))
    case Unlink(_, name) =>
      s' == s && (Absent(Listing(ss), name) || (FirstMatch(ss, name, i) && !IsRegular(ss[i])))
    case RemoveDir(_, name) =>
      s' == s && (Absent(Listing(ss), name) || (FirstMatch(ss, name, i) && !Erasable(s.disk, s.layout, ss[i])))
    case Truncate(_, name, size) =>
      s' == s && (NoFile(ss, name) || (FirstFile(ss, name, i) && !Truncatable(ss[i], size, s.table, g.clusterSize)))
    case Write(_, name, offset, bytes) =>
      && s' == s
      && (NoFile(ss, name) || (FirstFile(ss, name, i) && !Writable(ss[i], offset, |bytes|, s.table, g.clusterSize)))
  }

  /** A new entry answers to its name, and a new directory lists nothing. */
  ghost predicate Entered(s': State, e: Event) {
    && (e.op.Create? || e.op.MakeDir? ==>
          Plain(e.op.name) ==> NamesOnly(DirSlotsOf(s'.disk, s'.layout, e.place.dir), e.op.name, e.place.index))
    && (e.op.MakeDir? ==> e.child in s'.layout.dirs && Empty(DirSlotsOf(s'.disk, s'.layout, e.child)))
  }

  /** Chains other than the directory's and the entry's own are as before. */
  ghost predicate Spared(s: State, s': State, e: Event) {
    Preserved(s.disk, s.layout, s'.disk, s'.layout,
      {e.place.dir, OwnedAt(DirSlotsOf(s.disk, s.layout, e.place.dir), e.place.index)})
  }

  /** The operation was carried out in directory `e.place.dir`. */
  ghost predicate DoneIn(g: Geometry, s: State, s': State, e: Event) {
    && NodesOf(s'.disk, s'.layout) == Apply(NodesOf(s.disk, s.layout), e)
    && Spared(s, s', e)
    && (e.ok ==> Chosen(g, s, e) && Entered(s', e))
    && (!e.ok ==> Failed(g, s, s', e))
  }

  /** The operation was carried out in the directory its path leads to; without one nothing happens. */
  ghost predicate Performed(g: Geometry, s: State, s': State, e: Event) {
    match Reached(g.root, s.disk, s.layout, e.op.path)
    case None => !e.ok && s' == s
    case Some(d) => e.place.dir == d && DoneIn(g, s, s', e)
  }

  // --------------------------------------------------------- from contracts to updates

  ghost predicate Whole(g: Geometry, s: State) {
    Consistent(g, s.table, s.disk, s.layout)
  }

  lemma PreservedMore(disk: Disk, l: Layout, disk': Disk, l': Layout, d: nat, f: nat)
    requires Preserved(disk, l, disk', l', {d})
    ensures Preserved(disk, l, disk', l', {d, f})
  {
    hide Data;
  }

  lemma KeysOf(g: Geometry, s: State)
    requires Whole(g, s)
    ensures s.layout.dirs <= s.layout.chains.Keys && g.root in s.layout.dirs && 0 !in s.layout.chains
  {
    hide Tree, Owned, Formatted;
    TreeKeys(g.root, g.clusterSize, ViewOf(s.disk, s.layout), s.layout);
  }

  lemma NothingOwned(ss: seq<Slot>, x: nat)
    requires !Live(ss, x)
    ensures OwnedAt(ss, x) == 0
  {
  }

  /** A file entry is no dot entry. */
  lemma FileIsNamed(g: Geometry, s: State, d: nat, x: nat)
    requires Whole(g, s) && d in s.layout.dirs
    requires var ss := DirSlotsOf(s.disk, s.layout, d); Live(ss, x) && IsRegular(ss[x])
    ensures IsNamed(s.disk, s.layout, Place(d, x)) && !IsDirectory(DirSlotsOf(s.disk, s.layout, d)[x])
    ensures OwnedAt(DirSlotsOf(s.disk, s.layout, d), x) == Cluster(DirSlotsOf(s.disk, s.layout, d)[x])
  {
    hide Tree, Owned, Formatted, DirSlots, Live, IsDotName, Name, Cluster;
    var sl := ViewOf(s.disk, s.layout);
    KeysOf(g, s);
    RegularHolds(g.root, g.clusterSize, sl, s.layout, d, x);
  }

  /** The entry that holds a directory is no dot entry. */
  lemma FolderIsNamed(g: Geometry, s: State, d: nat, x: nat, n: nat)
    requires Whole(g, s) && n in s.layout.holder && s.layout.holder[n] == Place(d, x) && n in s.layout.dirs
    ensures IsNamed(s.disk, s.layout, Place(d, x))
  {
    hide DirSlots, Live, Cluster, IsNormal, Name, IsDotName, Shaped, Owned, Formatted, DirOk, SizeOk, EntriesOk;
    assert Forest.Held(ViewOf(s.disk, s.layout), s.layout, n);
  }

  lemma CreatedNodes(g: Geometry, s: State, s': State, e: Event)
    requires Whole(g, s) && Whole(g, s') && e.op.Create? && e.ok && e.place.dir in s.layout.dirs
    requires SameHolders(s.layout, s'.layout) && Preserved(s.disk, s.layout, s'.disk, s'.layout, {e.place.dir})
    requires var ss' := DirSlotsOf(s'.disk, s'.layout, e.place.dir);
             && ListingGains(DirSlotsOf(s.disk, s.layout, e.place.dir), ss', e.place.index)
             && IsRegular(ss'[e.place.index]) && Attributes(ss'[e.place.index]) == FILE_ATTRIBUTES
             && EntryAt(ss', e.place.index).name == StoredAs(e.op.name)
             && Contents(s'.disk, s'.layout.chains, ss'[e.place.index]) == []
    ensures NodesOf(s'.disk, s'.layout) == Apply(NodesOf(s.disk, s.layout), e) && Spared(s, s', e)
  {
    hide Whole, Preserved, DirSlots, Live, ListingGains, EntryAt, Attributes, IsRegular, IsDirectory, Contents,
      StoredAs, NodesOf, DirKept, SameEntries, OwnedAt, IsDotName, Name, Empty, Put, DirSlotsOf;
    var d, x := e.place.dir, e.place.index;
    var ss, ss' := DirSlotsOf(s.disk, s.layout, d), DirSlotsOf(s'.disk, s'.layout, d);
    KeysOf(g, s);
    GainsKeep(ss, ss', x);
    NothingOwned(ss, x);
    PreservedMore(s.disk, s.layout, s'.disk, s'.layout, d, 0);
    DirsKept(s.disk, s.layout, s'.disk, s'.layout, d, 0);
    FileIsNamed(g, s', d, x);
    EditState(g, s, s', d, x);
  }

  lemma EditState(g: Geometry, s: State, s': State, d: nat, x: nat)
    requires Whole(g, s) && d in s.layout.dirs && d in s'.layout.dirs
    requires Preserved(s.disk, s.layout, s'.disk, s'.layout, {d, OwnedAt(DirSlotsOf(s.disk, s.layout, d), x)})
    requires SameEntries(DirSlotsOf(s.disk, s.layout, d), DirSlotsOf(s'.disk, s'.layout, d), x)
    requires forall h :: h != d ==> DirKept(s.disk, s.layout, s'.disk, s'.layout, h)
    ensures var p := Place(d, x);
            NodesOf(s'.disk, s'.layout) == Put(NodesOf(s.disk, s.layout), p, At(s'.disk, s'.layout, p))
  {
    hide Consistent, Preserved, SameEntries, DirKept, OwnedAt, DirSlotsOf, NodesOf, Put, At;
    EditNodes(g, s.table, s.disk, s.layout, s'.disk, s'.layout, d, x);
  }

  lemma MadeNodes(g: Geometry, s: State, s': State, e: Event)
    requires Whole(g, s) && Whole(g, s') && e.op.MakeDir? && e.ok && e.place.dir in s.layout.dirs
    requires s'.layout.dirs == s.layout.dirs + {e.child} && Empty(DirSlotsOf(s'.disk, s'.layout, e.child))
    requires e.child in s'.layout.holder && s'.layout.holder[e.child] == e.place
    requires Preserved(s.disk, s.layout, s'.disk, s'.layout, {e.place.dir})
    requires var ss' := DirSlotsOf(s'.disk, s'.layout, e.place.dir);
             && ListingGains(DirSlotsOf(s.disk, s.layout, e.place.dir), ss', e.place.index)
             && IsDirectory(ss'[e.place.index]) && Cluster(ss'[e.place.index]) == e.child
             && EntryAt(ss', e.place.index).name == StoredAs(e.op.name)
    ensures NodesOf(s'.disk, s'.layout) == Apply(NodesOf(s.disk, s.layout), e) && Spared(s, s', e)
  {
    hide Whole, Preserved, DirSlots, Live, ListingGains, EntryAt, IsDirectory, Contents, StoredAs, NodesOf, DirKept,
      SameEntries, OwnedAt, IsDotName, Name, Empty, Put, DirSlotsOf, Cluster;
    var d, x := e.place.dir, e.place.index;
    var ss, ss' := DirSlotsOf(s.disk, s.layout, d), DirSlotsOf(s'.disk, s'.layout, d);
    KeysOf(g, s);
    GainsKeep(ss, ss', x);
    NothingOwned(ss, x);
    PreservedMore(s.disk, s.layout, s'.disk, s'.layout, d, 0);
    DirsKept(s.disk, s.layout, s'.disk, s'.layout, d, 0);
    FolderIsNamed(g, s', d, x, e.child);
    EditState(g, s, s', d, x);
  }

  lemma RemovedNodes(g: Geometry, s: State, s': State, e: Event)
    requires Whole(g, s) && (e.op.Unlink? || e.op.RemoveDir?) && e.ok && e.place.dir in s.layout.dirs
    requires ListingLoses(DirSlotsOf(s.disk, s.layout, e.place.dir), DirSlotsOf(s'.disk, s'.layout, e.place.dir),
             e.place.index)
    requires var was := DirSlotsOf(s.disk, s.layout, e.place.dir)[e.place.index];
             && s'.layout == Without(s.layout, Cluster(was))
             && Preserved(s.disk, s.layout, s'.disk, s'.layout, {e.place.dir, Cluster(was)})
             && (if e.op.Unlink? then IsRegular(was) else Erasable(s.disk, s.layout, was))
    ensures NodesOf(s'.disk, s'.layout) == Apply(NodesOf(s.disk, s.layout), e) && Spared(s, s', e)
  {
    hide Whole, Preserved, DirSlots, Live, ListingLoses, EntryAt, IsDirectory, IsRegular, Contents, NodesOf, DirKept,
      SameEntries, OwnedAt, IsDotName, Name, Empty, Put, DirSlotsOf, Cluster;
    var d, x := e.place.dir, e.place.index;
    var ss, ss' := DirSlotsOf(s.disk, s.layout, d), DirSlotsOf(s'.disk, s'.layout, d);
    KeysOf(g, s);
    LossKeeps(ss, ss', x);
    OwnerAt(g, s, d, x);
    DirsKept(s.disk, s.layout, s'.disk, s'.layout, d, Cluster(ss[x]));
    EditState(g, s, s', d, x);
  }

  lemma OwnerAt(g: Geometry, s: State, d: nat, x: nat)
    requires Whole(g, s) && d in s.layout.dirs && Live(DirSlotsOf(s.disk, s.layout, d), x)
    requires var was := DirSlotsOf(s.disk, s.layout, d)[x];
             IsRegular(was) || (IsDirectory(was) && !IsDotName(Name(was)))
    ensures var f := Cluster(DirSlotsOf(s.disk, s.layout, d)[x]);
            && OwnedAt(DirSlotsOf(s.disk, s.layout, d), x) == f && f != d
            && (IsRegular(DirSlotsOf(s.disk, s.layout, d)[x]) ==> f !in s.layout.dirs)
  {
    hide Tree, Owned, Formatted, DirSlots, Live, IsDotName, Name, Cluster, IsNormal;
    var sl := ViewOf(s.disk, s.layout);
    KeysOf(g, s);
    OwnerHolds(g.root, g.clusterSize, sl, s.layout, d, x);
  }

  /** A file operation rewrites the bytes of its file and nothing else. */
  lemma RewrittenNodes(g: Geometry, s: State, s': State, e: Event)
    requires Whole(g, s) && (e.op.Truncate? || e.op.Write?) && e.ok && e.place.dir in s.layout.dirs
    requires var ss := DirSlotsOf(s.disk, s.layout, e.place.dir);
             Live(ss, e.place.index) && IsRegular(ss[e.place.index])
    requires Whole(g, s') && Live(DirSlotsOf(s'.disk, s'.layout, e.place.dir), e.place.index)
    requires OthersKept(s.disk, s.layout, s'.disk, s'.layout, e.place.dir, e.place.index,
               Cluster(DirSlotsOf(s.disk, s.layout, e.place.dir)[e.place.index]))
    requires Contents(s'.disk, s'.layout.chains, DirSlotsOf(s'.disk, s'.layout, e.place.dir)[e.place.index]) ==
             NewBytes(e.op, Contents(s.disk, s.layout.chains, DirSlotsOf(s.disk, s.layout, e.place.dir)[e.place.index]))
    ensures NodesOf(s'.disk, s'.layout) == Apply(NodesOf(s.disk, s.layout), e) && Spared(s, s', e)
  {
    hide Whole, Preserved, DirSlots, Live, SameButSlot, EntryAt, IsDirectory, IsRegular, Contents, DirKept, Attributes,
      SameEntries, OwnedAt, IsDotName, Name, Empty, Put, DirSlotsOf, Cluster, NewBytes, OthersKept;
    var d, x := e.place.dir, e.place.index;
    var ss, ss' := DirSlotsOf(s.disk, s.layout, d), DirSlotsOf(s'.disk, s'.layout, d);
    KeysOf(g, s);
    KeptMeans(s, s', d, x, Cluster(ss[x]));
    FileIsNamed(g, s, d, x);
    OwnerAt(g, s, d, x);
    SameFile(ss, ss', x);
    FileIsNamed(g, s', d, x);
    DirsKept(s.disk, s.layout, s'.disk, s'.layout, d, Cluster(ss[x]));
    EditState(g, s, s', d, x);
  }

  lemma SameFile(ss: seq<Slot>, ss': seq<Slot>, x: nat)
    requires SameButSlot(ss, ss', x) && Live(ss, x) && IsRegular(ss[x])
    ensures x < |ss'| && IsRegular(ss'[x]) && Attributes(ss'[x]) == Attributes(ss[x])
    ensures EntryAt(ss', x).name == EntryAt(ss, x).name && SameEntries(ss, ss', x)
  {
    hide Live, EntryAt, Name, IsRegular, IsDirectory, Attributes, SameEntries;
    assert SameEntry(ss, ss', x);
    SameKind(ss[x], ss'[x]);
    SlotKeeps(ss, ss', x);
  }

  lemma KeptMeans(s: State, s': State, d: nat, x: nat, f: nat)
    requires OthersKept(s.disk, s.layout, s'.disk, s'.layout, d, x, f)
    ensures s'.layout.dirs == s.layout.dirs && Preserved(s.disk, s.layout, s'.disk, s'.layout, {d, f})
    ensures SameButSlot(DirSlotsOf(s.disk, s.layout, d), DirSlotsOf(s'.disk, s'.layout, d), x)
  {
    hide Data, DirSlots, SameButSlot;
  }

  /** A failed creation changes no entry. */
  lemma UnchangedNodes(g: Geometry, s: State, s': State, e: Event)
    requires Whole(g, s) && !e.ok && e.place.dir in s.layout.dirs
    requires SameHolders(s.layout, s'.layout) && Preserved(s.disk, s.layout, s'.disk, s'.layout, {e.place.dir})
    requires OnlyEnds(DirSlotsOf(s.disk, s.layout, e.place.dir), DirSlotsOf(s'.disk, s'.layout, e.place.dir))
    ensures NodesOf(s'.disk, s'.layout) == Apply(NodesOf(s.disk, s.layout), e) && Spared(s, s', e)
  {
    hide Whole, Preserved, DirSlots, Live, EntryAt, IsDirectory, Contents, NodesOf, DirKept, OnlyEnds, SameEntries,
      OwnedAt, IsDotName, Name, Empty, Put, DirSlotsOf, Cluster;
    var d, ss := e.place.dir, DirSlotsOf(s.disk, s.layout, e.place.dir);
    var x := |ss|;
    KeysOf(g, s);
    ShapedAt(g, s, d);
    EndsKeep(ss, DirSlotsOf(s'.disk, s'.layout, d), x);
    PreservedMore(s.disk, s.layout, s'.disk, s'.layout, d, OwnedAt(ss, e.place.index));
    PreservedMore(s.disk, s.layout, s'.disk, s'.layout, d, OwnedAt(ss, x));
    PreservedMore(s.disk, s.layout, s'.disk, s'.layout, d, d);
    DirsKept(s.disk, s.layout, s'.disk, s'.layout, d, d);
    EditState(g, s, s', d, x);
    PutSame(s.disk, s.layout, Place(d, x));
  }

  lemma ShapedAt(g: Geometry, s: State, d: nat)
    requires Whole(g, s) && d in s.layout.dirs
    ensures Shaped(DirSlotsOf(s.disk, s.layout, d))
  {
    hide Tree, Owned, Formatted, DirSlots, Shaped;
    KeysOf(g, s);
    ShapedIn(g.root, g.clusterSize, ViewOf(s.disk, s.layout), s.layout, d);
  }

  lemma PutSame(disk: Disk, l: Layout, p: Place)
    ensures Put(NodesOf(disk, l), p, At(disk, l, p)) == NodesOf(disk, l)
  {
    hide IsNamed, NodeAt;
  }

  // ------------------------------------------------------------------------ whole runs

  /** The entries after a sequence of events. */
  ghost function Replay(nodes: Nodes, events: seq<Event>): Nodes {
    if events == [] then nodes else Apply(Replay(nodes, events[..|events| - 1]), events[|events| - 1])
  }

  /** What the successful events at `p` make of what was there. */
  ghost function ReplayAt(node: Option<Node>, events: seq<Event>, p: Place): Option<Node> {
    if events == [] then node
    else
      var before, e := ReplayAt(node, events[..|events| - 1], p), events[|events| - 1];
      if e.ok && e.place == p then Leaves(e, before) else before
  }

  /** What is stored at a place is settled by the events at that place alone. */
  lemma {:induction false} PlacesAreIndependent(nodes: Nodes, events: seq<Event>, p: Place)
    ensures NodeIn(Replay(nodes, events), p) == ReplayAt(NodeIn(nodes, p), events, p)
  {
    hide Leaves;
    if events != [] {
      PlacesAreIndependent(nodes, events[..|events| - 1], p);
    }
  }

  /** `states[k]` is the volume before operation `k`, which event `k` describes. */
  ghost predicate IsRunOf(g: Geometry, ops: seq<Op>, states: seq<State>, events: seq<Event>) {
    && |events| == |ops| && |states| == |ops| + 1
    && (forall k :: 0 <= k < |states| ==> Whole(g, states[k]))
    && (forall k :: 0 <= k < |ops| ==> events[k].op == ops[k] && Performed(g, states[k], states[k + 1], events[k]))
  }

  /** A run that leads from `s` to `s'`. */
  ghost predicate RunLeads(g: Geometry, ops: seq<Op>, states: seq<State>, events: seq<Event>, s: State, s': State) {
    && IsRunOf(g, ops, states, events) && states[0] == s && states[|ops|] == s'
    && NodesIn(s') == Replay(NodesIn(s), events)
  }

  ghost function NodesIn(s: State): Nodes {
    NodesOf(s.disk, s.layout)
  }

  lemma PerformedApplies(g: Geometry, s: State, s': State, e: Event)
    requires Performed(g, s, s', e)
    ensures NodesIn(s') == Apply(NodesIn(s), e)
  {
    hide NodesOf, Spared, Chosen, Failed, Entered, Reached, Put, Leaves;
  }

  /** After a run every place holds what replaying the events puts there. */
  lemma {:induction false} RunReplays(g: Geometry, ops: seq<Op>, states: seq<State>, events: seq<Event>, n: nat)
    requires IsRunOf(g, ops, states, events) && n <= |ops|
    ensures NodesIn(states[n]) == Replay(NodesIn(states[0]), events[..n])
  {
    hide Performed, Apply, Whole, NodesIn;
    if n > 0 {
      RunReplays(g, ops, states, events, n - 1);
      PerformedApplies(g, states[n - 1], states[n], events[n - 1]);
      assert events[..n][..n - 1] == events[..n - 1];
    }
  }

  /** The operation at step `k` finds, at its place, what replaying the steps before it left there. */
  lemma StepFinds(g: Geometry, ops: seq<Op>, states: seq<State>, events: seq<Event>, n: nat, p: Place)
    requires IsRunOf(g, ops, states, events) && n <= |ops|
    ensures NodeIn(NodesIn(states[n]), p) == ReplayAt(NodeIn(NodesIn(states[0]), p), events[..n], p)
  {
    hide Performed, Whole, NodesIn, NodeIn, Replay, ReplayAt;
    RunReplays(g, ops, states, events, n);
    PlacesAreIndependent(NodesIn(states[0]), events[..n], p);
  }

  // ----------------------------------------------------------------- no directory named .

  lemma {:induction false} TrimKeepsFirst(b: seq<Byte>)
    requires b != [] && !IsSpaceByte(b[0])
    ensures TrimEnd(b) != []
  {
    if |b| > 1 && IsSpaceByte(b[|b| - 1]) {
      TrimKeepsFirst(b[..|b| - 1]);
    }
  }

  lemma LegalTextIsNoDot(n: ShortName)
    requires Legal(n)
    ensures ShortText(n) != HERE
  {
    var base := n[..8];
    assert base[0] == n[0] && (forall i :: 0 <= i < 8 ==> base[i] < 0x80);
    TrimKeepsFirst(base);
    assert FieldText(base)[0] == LowerAscii(base[0] as char);
    assert ShortText(n)[0] == FieldText(base)[0];
  }

  /** The driver never stores an entry as `.`. */
  lemma StoredIsNoDot(name: string)
    requires Nameable(name)
    ensures StoredAs(name) != HERE
  {
    hide Legal, ShortText, ShortOf;
    if ShortOf(name).Some? {
      ShortOfLegal(name);
      LegalTextIsNoDot(ShortOf(name).value);
    }
  }

  ghost predicate IsDotFolder(n: Node) {
    n.FolderNode? && n.name == HERE
  }

  /** No folder of the root is stored as `.`. */
  ghost predicate NoDotFolder(root: nat, nodes: Nodes) {
    forall p :: p in nodes && p.dir == root ==> !IsDotFolder(nodes[p])
  }

  lemma NoDotApplied(g: Geometry, s: State, s': State, e: Event)
    requires Performed(g, s, s', e) && NoDotFolder(g.root, NodesIn(s))
    ensures NoDotFolder(g.root, NodesIn(s'))
  {
    hide NodesOf, Spared, Failed, Entered, StoredAs, Reached, NewBytes, Absent, Listing, Live, FirstMatch, FirstFile,
      Erasable, Nameable;
    PerformedApplies(g, s, s', e);
    if e.ok && e.op.MakeDir? {
      StoredIsNoDot(e.op.name);
    }
  }

  lemma IsDotText(name: string)
    ensures EqIgnoreCase(name, HERE) <==> name == HERE
  {
    if EqIgnoreCase(name, HERE) {
      assert LowerAscii(name[0]) == LowerAscii(HERE[0]);
    }
  }

  lemma {:induction false} ListedIsFound(root: nat, es: seq<Entry>, e: Entry, name: string)
    requires e in es && DirectoryNamed(e, name)
    ensures DirectoryIn(root, es, name).Some?
  {
    hide DirectoryNamed, Leads;
    if !DirectoryNamed(es[0], name) {
      ListedIsFound(root, es[1..], e, name);
    }
  }

  lemma RootHasNoDots(g: Geometry, s: State, i: nat)
    requires Whole(g, s)
    requires var ss := DirSlotsOf(s.disk, s.layout, g.root); Live(ss, i) && IsDirectory(ss[i])
    ensures IsNamed(s.disk, s.layout, Place(g.root, i))
  {
    hide Tree, Owned, Formatted, DirSlots, Live, IsDirectory, Name, IsDotName, Leads;
    KeysOf(g, s);
    EntryLeads(g.root, g.clusterSize, ViewOf(s.disk, s.layout), s.layout, g.root, i);
  }

  /** The lookup sees a directory named `.` in the root exactly when one is stored. */
  lemma NamedDotIsFolder(g: Geometry, s: State)
    requires Whole(g, s)
    ensures NoNamedDot(g.root, ViewOf(s.disk, s.layout)) <==> NoDotFolder(g.root, NodesIn(s))
  {
    hide Tree, Owned, Formatted, DirSlots, Live, EntryAt, Listing, DirectoryIn, IsDirectory, EqIgnoreCase, Name,
      IsDotName;
    var sl, root := ViewOf(s.disk, s.layout), g.root;
    KeysOf(g, s);
    var ss := sl[root];
    if !NoNamedDot(root, sl) {
      var j := DirectoryInFinds(root, Listing(ss), HERE);
      ListingAt(ss, j);
      var i := Listing(ss)[j].index;
      RootHasNoDots(g, s, i);
      assert Place(root, i) in NodesIn(s);
      IsDotText(EntryAt(ss, i).name);
    }
    forall p | p in NodesIn(s) && p.dir == root && IsDotFolder(NodesIn(s)[p]) ensures !NoNamedDot(root, sl) {
      LiveIsListed(ss, p.index);
      IsDotText(HERE);
      ListedIsFound(root, Listing(ss), EntryAt(ss, p.index), HERE);
    }
  }
}
