/** A file as a sequence of bytes: reading and writing behind a handle. */
module FileAccess {

  import opened Base
  import opened Slots
  import opened FatTable
  import opened Ownership
  import opened DirectoryParser
  import opened ClusterData
  import opened FatVolume
  import opened FileData
  import opened Forest
  import opened TreeOps
  import opened VolumeState
  import opened ResizeState
  import opened FileResize

  /** The entry behind a handle, and the bytes of its file. */
  ghost function EntryOf(v: Volume, d: nat, i: nat): Slot
    reads v
  {
    if i < |SlotsOf(v, d)| then SlotsOf(v, d)[i] else seq(32, _ => 0)
  }

  ghost function FileBytes(v: Volume, d: nat, i: nat): seq<Byte>
    reads v
  {
    Contents(v.disk, v.layout.chains, EntryOf(v, d, i))
  }

  lemma FileBytesLength(v: Volume, at: Location, d: nat, i: nat)
    requires Good(v) && FileHandle(v, at, d, i)
    ensures |FileBytes(v, d, i)| == Size(EntryOf(v, d, i))
  {
    hide Consistent, Live, Data, SlotsIn, Size, Cluster;
    FileFacts(Geo(v), v.Table(), v.disk, v.layout, d, i, EntryOf(v, d, i));
  }

  /** Reads the whole file. */
  method ReadWhole(v: Volume, at: Location, ghost d: nat, ghost i: nat) returns (r: Option<seq<Byte>>)
    requires Good(v) && FileHandle(v, at, d, i)
    ensures r.Some? ==> r.value == FileBytes(v, d, i) && Attributes(EntryOf(v, d, i)) == 32
    ensures v.reliable && Attributes(EntryOf(v, d, i)) == 32 ==> r.Some?
  {
    hide Consistent, Live, Data, SlotsIn, Size, Cluster, DirLocations, IsChain;
    HandleSlot(v, at, d, i);
    FileFacts(Geo(v), v.Table(), v.disk, v.layout, d, i, EntryOf(v, d, i));
    var entry := ReadDirectoryEntry(v, at);
    if entry.None? {
      return None;
    }
    r := ReadFile(v, entry.value, ChainOf(v.layout.chains, entry.value));
  }

  /** The bytes from `offset` on, as far as known, are those of `b`. */
  ghost predicate Replaced(was: seq<Byte>, now: seq<Byte>, offset: nat, b: seq<Byte>, done: nat) {
    && done <= |b| && SameOutside(was, now, offset, offset + |b|)
    && (done > 0 ==> offset + done <= |now| && now[offset..offset + done] == b[..done])
  }

  lemma ReplacedFully(was: seq<Byte>, now: seq<Byte>, offset: nat, b: seq<Byte>)
    requires offset + |b| <= |was| && Replaced(was, now, offset, b, |b|)
    ensures now == Splice(was, offset, b)
  {
    assert |b| == 0 ==> now[offset..offset + |b|] == b;
    SpliceUnique(was, offset, b, now);
  }

  /** The range lies inside a plain file. */
  ghost predicate Writes(s: Slot, offset: nat, count: nat) {
    Attributes(s) == 32 && offset + count <= Size(s)
  }

  /**
    Overwrites bytes inside a file. Whatever fails, the volume stays
    consistent, only bytes in the range can change, and only of this file.
   */
  method WriteInside(v: Volume, at: Location, offset: nat, bytes: seq<Byte>, ghost d: nat, ghost i: nat)
    returns (r: Option<nat>)
    requires Good(v) && FileHandle(v, at, d, i)
    modifies v`disk
    ensures Good(v) && SlotsOf(v, d) == old(SlotsOf(v, d))
    ensures OthersUntouched(old(v.disk), v.disk, v.layout.chains, Cluster(old(EntryOf(v, d, i))))
    ensures Replaced(old(FileBytes(v, d, i)), FileBytes(v, d, i), offset, bytes, if r.Some? then r.value else 0)
    ensures r.Some? ==> r.value <= |bytes| && Writes(old(EntryOf(v, d, i)), offset, |bytes|)
    ensures !Writes(old(EntryOf(v, d, i)), offset, |bytes|) ==> v.disk == old(v.disk)
    ensures v.reliable && Writes(old(EntryOf(v, d, i)), offset, |bytes|) ==> r == Some(|bytes|)
  {
    hide Consistent, Live, Data, SlotsIn, Size, Cluster, DirLocations, IsChain, OthersUntouched, OnlyIn, Contents,
      Replaced, SameOutside, InCluster, OnDisk;
    HandleSlot(v, at, d, i);
    ghost var g, disk0, l, s := Geo(v), v.disk, v.layout, EntryOf(v, d, i);
    ghost var cs := ChainOf(l.chains, s);
    FileFacts(g, v.Table(), disk0, l, d, i, s);
    OnlyInSelf(disk0, cs);
    SameSelf(Data(disk0, cs), offset, offset + |bytes|);
    WriteCommit(g, v.Table(), disk0, disk0, l, d, i, s, cs, offset, bytes, 0);
    var entry := ReadDirectoryEntry(v, at);
    if entry.None? {
      return None;
    }
    r := WriteExistingFile(v, entry.value, offset, bytes, cs);
    WriteCommit(g, v.Table(), disk0, v.disk, l, d, i, s, cs, offset, bytes, if r.Some? then r.value else 0);
    if r.None? {
      return None;
    }
    HandleSlot(v, at, d, i);
    var stored := PersistDirectoryEntry(v, at, entry.value);
    if !stored {
      WriteCommit(g, v.Table(), disk0, v.disk, l, d, i, s, cs, offset, bytes, 0);
      return None;
    }
  }

  /** Bytes changed only inside one file's chain, and only in the range. */
  lemma WriteCommit(g: Geometry, t: Table, disk: Disk, disk': Disk, l: Layout, d: nat, i: nat, s: Slot, cs: seq<nat>,
                    offset: nat, b: seq<Byte>, done: nat)
    requires Consistent(g, t, disk, l)
    requires d in l.dirs && d in l.chains && Live(DirSlots(disk, l.chains[d]), i)
    requires s == DirSlots(disk, l.chains[d])[i] && IsRegular(s) && cs == ChainOf(l.chains, s)
    requires OnlyIn(disk, disk', cs) && SameOutside(Data(disk, cs), Data(disk', cs), offset, offset + |b|)
    requires done <= |b|
    requires done > 0 ==> offset + |b| <= Size(s) && offset + done <= |Data(disk', cs)|
                          && Data(disk', cs)[offset..offset + done] == b[..done]
    ensures Consistent(g, t, disk', l)
    ensures DirSlots(disk', l.chains[d]) == DirSlots(disk, l.chains[d])
    ensures OthersUntouched(disk, disk', l.chains, Cluster(s))
    ensures Replaced(Contents(disk, l.chains, s), Contents(disk', l.chains, s), offset, b, done)
  {
    hide Tree, Live, Data, SlotsIn, Size, Cluster, IsChain, OnlyIn, Owned;
    var f := Cluster(s);
    FileFacts(g, t, disk, l, d, i, s);
    OwnedParts(t, l.chains, g.reserved);
    if f != 0 {
      OwnChainNotElsewhere(l.chains, f);
    }
    WriteSparesOthers(t, disk, disk', l.chains, g.reserved, f, cs);
    FormattedFrame(t, disk, t, disk', cs, g.clusterSize);
    TreeKeys(g.root, g.clusterSize, ViewOf(disk, l), l);
    ViewFrame(disk, disk', l, l);
    assert Data(disk', l.chains[d]) == Data(disk, l.chains[d]);
    FileFacts(g, t, disk', l, d, i, s);
    ReplacedPrefix(Data(disk, cs), Data(disk', cs), offset, b, done, Size(s));
  }

  lemma ReplacedPrefix(was: seq<Byte>, now: seq<Byte>, offset: nat, b: seq<Byte>, done: nat, size: nat)
    requires SameOutside(was, now, offset, offset + |b|) && size <= |was| && done <= |b|
    requires done > 0 ==> offset + |b| <= size && now[offset..offset + done] == b[..done]
    ensures Replaced(was[..size], now[..size], offset, b, done)
  {
    if done > 0 {
      SliceSlice(now, 0, size, offset, offset + done);
      assert now[0..0 + size] == now[..size];
    }
  }

  // ---------------------------------------------------------- what a file operation spares

  /** Only slot `i` may differ; every entry keeps its names and its kind. */
  ghost predicate SameButSlot(ss: seq<Slot>, ss': seq<Slot>, i: nat) {
    && |ss'| == |ss|
    && (forall j: nat :: Live(ss', j) <==> Live(ss, j))
    && (forall j: nat :: Live(ss, j) ==> SameEntry(ss, ss', j))
    && (forall j: nat :: j < |ss| && j != i ==> ss'[j] == ss[j])
  }

  /** The entry of slot `j` is the same, up to size and first cluster. */
  ghost predicate SameEntry(ss: seq<Slot>, ss': seq<Slot>, j: nat) {
    && j < |ss| && j < |ss'| && Name(ss'[j]) == Name(ss[j]) && Attributes(ss'[j]) == Attributes(ss[j])
    && EntryAt(ss', j) == EntryAt(ss, j).(slot := ss'[j])
  }

  /** Every chain but the file's own, and all other slots of its directory, are as before. */
  ghost predicate OthersKept(disk: Disk, l: Layout, disk': Disk, l': Layout, d: nat, i: nat, f: nat) {
    && l'.dirs == l.dirs && d in l.chains && d in l'.chains && l'.chains[d] == l.chains[d]
    && SameButSlot(DirSlots(disk, l.chains[d]), DirSlots(disk', l.chains[d]), i)
    && forall h :: h in l.chains && h != f && h != d ==>
         h in l'.chains && l'.chains[h] == l.chains[h] && Data(disk', l.chains[h]) == Data(disk, l.chains[h])
  }

  lemma SameSlots(ss: seq<Slot>, i: nat)
    ensures SameButSlot(ss, ss, i)
  {
    hide EntryAt;
    forall j: nat | Live(ss, j) ensures SameEntry(ss, ss, j) {
      assert EntryAt(ss, j).(slot := ss[j]) == EntryAt(ss, j);
    }
  }

  lemma KeptSelf(disk: Disk, l: Layout, d: nat, i: nat, f: nat)
    requires d in l.chains
    ensures OthersKept(disk, l, disk, l, d, i, f)
  {
    hide DirSlots, SameButSlot;
    SameSlots(DirSlots(disk, l.chains[d]), i);
  }

  /** Replacing an entry by one of the same name and kind. */
  lemma ReplacedSame(ss: seq<Slot>, i: nat, s: Slot)
    requires i < |ss| && Live(ss, i) && Name(s) == Name(ss[i]) && Attributes(s) == Attributes(ss[i])
    ensures SameButSlot(ss, WithSlot(ss, i, s), i)
  {
    hide Live, EntryAt, Name, Attributes;
    var r := WithSlot(ss, i, s);
    forall j: nat ensures Live(r, j) <==> Live(ss, j) {
      ReplacedLive(ss, i, s, j);
    }
    forall j: nat | Live(ss, j) ensures SameEntry(ss, r, j) {
      ReplacedEntry(ss, i, s, j);
    }
  }

  lemma TruncationSpares(disk: Disk, l: Layout, disk': Disk, l': Layout, d: nat, i: nat, s: Slot, s': Slot, size: nat)
    requires FileTruncated(disk, l, disk', l', d, i, s, s', size)
    requires d in l.chains && Live(DirSlots(disk, l.chains[d]), i) && s == DirSlots(disk, l.chains[d])[i]
    ensures OthersKept(disk, l, disk', l', d, i, Cluster(s)) && (Cluster(s') == Cluster(s) || Cluster(s') !in l.chains)
  {
    hide DirSlots, Live, Data, Contents, Truncated, Name, Cluster, Size, SameButSlot, WithSlot, Attributes;
    ReplacedSame(DirSlots(disk, l.chains[d]), i, s');
  }

  lemma WriteSpares(disk: Disk, disk': Disk, l: Layout, d: nat, i: nat, f: nat)
    requires d in l.chains && OthersUntouched(disk, disk', l.chains, f)
    requires DirSlots(disk', l.chains[d]) == DirSlots(disk, l.chains[d])
    ensures OthersKept(disk, l, disk', l, d, i, f)
  {
    hide DirSlots, Data, SameButSlot;
    SameSlots(DirSlots(disk, l.chains[d]), i);
  }

  lemma SameThen(ss: seq<Slot>, ss1: seq<Slot>, ss2: seq<Slot>, i: nat)
    requires SameButSlot(ss, ss1, i) && SameButSlot(ss1, ss2, i)
    ensures SameButSlot(ss, ss2, i)
  {
    hide Live, EntryAt, Name, Attributes;
    forall j: nat | Live(ss, j) ensures SameEntry(ss, ss2, j) {
      assert SameEntry(ss, ss1, j) && SameEntry(ss1, ss2, j);
    }
  }

  lemma KeptThen(disk: Disk, l: Layout, disk1: Disk, l1: Layout, disk2: Disk, l2: Layout, d: nat, i: nat, f: nat,
                 f1: nat)
    requires OthersKept(disk, l, disk1, l1, d, i, f) && OthersKept(disk1, l1, disk2, l2, d, i, f1)
    requires f1 == f || f1 !in l.chains
    ensures OthersKept(disk, l, disk2, l2, d, i, f)
  {
    hide DirSlots, Data, SameButSlot;
    SameThen(DirSlots(disk, l.chains[d]), DirSlots(disk1, l.chains[d]), DirSlots(disk2, l.chains[d]), i);
  }
}
