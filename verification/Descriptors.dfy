/** A process's file descriptors: offsets moving over files. */
module Descriptors {

  import opened Base
  import opened Slots
  import opened FatTable
  import opened DirectoryParser
  import opened ClusterData
  import opened FatVolume
  import opened FileData
  import opened Forest
  import opened TreeOps
  import opened VolumeState
  import opened ResizeState
  import opened FileResize
  import opened FileAccess

  datatype OpenFile = OpenFile(at: Location, offset: nat, readable: bool, writable: bool)

  datatype FileDescriptor = Stdin | Stdout | Stderr | File(file: OpenFile)

  // ------------------------------------------------------------- reading as slicing

  /** Where a read of `size` bytes at `offset` ends. */
  function ReadEnd(length: nat, offset: nat, size: nat): nat {
    if offset >= length then offset else Min(offset + size, length)
  }

  function ReadBytes(b: seq<Byte>, offset: nat, size: nat): seq<Byte> {
    if offset >= |b| then [] else b[offset..ReadEnd(|b|, offset, size)]
  }

  /** What successive reads of the given sizes deliver, joined. */
  ghost function ReadRun(b: seq<Byte>, offset: nat, sizes: seq<nat>): seq<Byte>
    decreases |sizes|
  {
    if sizes == [] then []
    else ReadBytes(b, offset, sizes[0]) + ReadRun(b, ReadEnd(|b|, offset, sizes[0]), sizes[1..])
  }

  ghost function Total(sizes: seq<nat>): nat {
    if sizes == [] then 0 else sizes[0] + Total(sizes[1..])
  }

  /** Successive reads concatenate to the file, up to the bytes asked for. */
  lemma {:induction false} ReadsConcatenate(b: seq<Byte>, offset: nat, sizes: seq<nat>)
    requires offset <= |b|
    ensures ReadRun(b, offset, sizes) == b[offset..Min(offset + Total(sizes), |b|)]
    decreases |sizes|
  {
    if sizes != [] {
      var next := ReadEnd(|b|, offset, sizes[0]);
      ReadsConcatenate(b, next, sizes[1..]);
      assert b[offset..next] + b[next..Min(next + Total(sizes[1..]), |b|)] ==
        b[offset..Min(next + Total(sizes[1..]), |b|)];
    }
  }

  /** Where the offset stands after successive reads. */
  ghost function Stop(b: seq<Byte>, offset: nat, sizes: seq<nat>): nat {
    if offset > |b| then offset else Min(offset + Total(sizes), |b|)
  }

  /** The first read takes the run one step on. */
  lemma RunStep(b: seq<Byte>, offset: nat, sizes: seq<nat>)
    requires sizes != []
    ensures var next := ReadEnd(|b|, offset, sizes[0]);
            && ReadRun(b, offset, sizes) == ReadBytes(b, offset, sizes[0]) + ReadRun(b, next, sizes[1..])
            && Stop(b, next, sizes[1..]) == Stop(b, offset, sizes) && (next <= |b| <==> offset <= |b|)
  {
  }

  lemma RunOver(b: seq<Byte>, offset: nat)
    ensures ReadRun(b, offset, []) == [] && Stop(b, offset, []) == offset
  {
  }

  lemma {:induction false} RunStops(b: seq<Byte>, offset: nat, sizes: seq<nat>)
    ensures offset <= |b| ==> ReadRun(b, offset, sizes) == b[offset..Stop(b, offset, sizes)]
    ensures offset > |b| ==> ReadRun(b, offset, sizes) == []
    decreases |sizes|
  {
    if offset <= |b| {
      ReadsConcatenate(b, offset, sizes);
    } else if sizes != [] {
      RunStops(b, offset, sizes[1..]);
    }
  }

  // -------------------------------------------------------------- writing past the end

  /** A write at `offset`: the gap behind the old end is filled with zeros. */
  ghost function Written(b: seq<Byte>, offset: nat, bytes: seq<Byte>): (r: seq<Byte>)
    ensures |r| == if offset + |bytes| > |b| then offset + |bytes| else |b|
  {
    var end := offset + |bytes|;
    Splice(if end > |b| then Truncated(b, end) else b, offset, bytes)
  }

  /** Byte by byte: the written bytes, zeros in the gap, the old bytes elsewhere. */
  lemma WrittenAt(b: seq<Byte>, offset: nat, bytes: seq<Byte>, k: nat)
    requires k < |Written(b, offset, bytes)|
    ensures Written(b, offset, bytes)[k] ==
              if offset <= k < offset + |bytes| then bytes[k - offset] else if k < |b| then b[k] else 0
  {
  }

  /**
    What a write leaves on any device: `done` bytes in place and nothing outside
    the range changed, in the file as it was, or as truncated to the end of the
    range when its size could not be looked up or was too small.
   */
  ghost predicate WrittenFrom(b: seq<Byte>, now: seq<Byte>, offset: nat, bytes: seq<Byte>, done: nat) {
    || Replaced(b, now, offset, bytes, done)
    || Replaced(Truncated(b, offset + |bytes|), now, offset, bytes, done)
  }

  /** When a descriptor write succeeds on a reliable device. */
  ghost predicate Writable(s: Slot, offset: nat, count: nat, t: Table, clusterSize: nat) {
    && Attributes(s) == 32
    && (offset + count > Size(s) ==> Truncatable(s, offset + count, t, clusterSize))
  }

  lemma HandleSurvives(v: Volume, at: Location, d: nat, i: nat, disk: Disk, l: Layout, s: Slot, s': Slot, size: nat)
    requires Live(DirSlotsOf(disk, l, d), i) && s == DirSlotsOf(disk, l, d)[i] && IsRegular(s) && d in l.dirs
    requires d in l.chains && i < |DirLocations(l.chains[d], PerCluster(Geo(v)))|
    requires at == DirLocations(l.chains[d], PerCluster(Geo(v)))[i]
    requires FileTruncated(disk, l, v.disk, v.layout, d, i, s, s', size)
    ensures FileHandle(v, at, d, i) && EntryOf(v, d, i) == s'
    ensures FileBytes(v, d, i) == Truncated(Contents(disk, l.chains, s), size)
    ensures Attributes(s') == Attributes(s) && Size(s') == size
  {
    hide Live, Data, SlotsIn, Size, Cluster, DirLocations, Contents, Truncated;
    SameKind(s, s');
    ReplacedLive(DirSlotsOf(disk, l, d), i, s', i);
  }

  /** The descriptor after its file was truncated to `size`. */
  function PulledBack(file: OpenFile, size: nat): (r: OpenFile)
    ensures r.offset == Min(file.offset, size) && r.(offset := file.offset) == file
  {
    if file.offset > size then file.(offset := size) else file
  }

  /** Resizes the file and keeps its handle. */
  method Resize(v: Volume, at: Location, size: nat, ghost d: nat, ghost i: nat) returns (ok: bool)
    requires Good(v) && FileHandle(v, at, d, i)
    modifies v`disk, v`copies, v`layout, v.fat.words
    ensures ok || v.reliable ==> Good(v)
    ensures ok ==> FileHandle(v, at, d, i) && FileBytes(v, d, i) == Truncated(old(FileBytes(v, d, i)), size)
    ensures ok ==>
              Attributes(EntryOf(v, d, i)) == Attributes(old(EntryOf(v, d, i))) == 32 && Size(EntryOf(v, d, i)) == size
    ensures ok ==> OthersKept(old(v.disk), old(v.layout), v.disk, v.layout, d, i, Cluster(old(EntryOf(v, d, i))))
    ensures ok ==> var c := Cluster(EntryOf(v, d, i)); c == Cluster(old(EntryOf(v, d, i))) || c !in old(v.layout).chains
    ensures v.reliable ==> (ok <==> Truncatable(old(EntryOf(v, d, i)), size, old(v.Table()), v.clusterSize))
    ensures (ok || v.reliable) && old(v.Synced()) ==> v.Synced()
    ensures v.reliable && !ok ==> v.disk == old(v.disk) && v.Table() == old(v.Table()) && v.layout == old(v.layout)
  {
    hide Consistent, Live, Contents, Data, SlotsIn, DirLocations, FileTruncated, Truncatable, Truncated, OthersKept,
      Cluster;
    ghost var disk0, l0, s0 := v.disk, v.layout, EntryOf(v, d, i);
    ghost var s1;
    ghost var outcome;
    ok, s1, outcome := TruncateExistingFile(v, at, size, d, i);
    if ok {
      HandleSurvives(v, at, d, i, disk0, l0, s0, s1, size);
      TruncationSpares(disk0, l0, v.disk, v.layout, d, i, s0, s1, size);
    }
  }

  // ------------------------------------------------------------------- the descriptors

  class Process {
    var fdTable: seq<Option<FileDescriptor>>

    constructor ()
      ensures fdTable == [Some(Stdin), Some(Stdout), Some(Stderr)]
    {
      fdTable := [Some(Stdin), Some(Stdout), Some(Stderr)];
    }

    ghost predicate IsFile(fd: nat)
      reads this
    {
      fd < |fdTable| && fdTable[fd].Some? && fdTable[fd].value.File?
    }

    ghost function Opened(fd: nat): OpenFile
      requires IsFile(fd)
      reads this
    {
      fdTable[fd].value.file
    }

    /** Takes the lowest free descriptor from 3 on. */
    method OpenAt(at: Location, readable: bool, writable: bool) returns (fd: nat)
      modifies this
      ensures fd <= |old(fdTable)| && (fd < |old(fdTable)| ==> fd >= 3 && old(fdTable)[fd].None?)
      ensures forall k :: 3 <= k < fd ==> old(fdTable)[k].Some?
      ensures fdTable == old(fdTable)[..fd] + [Some(File(OpenFile(at, 0, readable, writable)))]
                         + (if fd < |old(fdTable)| then old(fdTable)[fd + 1..] else [])
    {
      var descriptor := Some(File(OpenFile(at, 0, readable, writable)));
      fd := 3;
      while fd < |fdTable|
        invariant 3 <= fd && (fd <= |fdTable| || |fdTable| < 3)
        invariant forall k :: 3 <= k < fd && k < |fdTable| ==> fdTable[k].Some?
      {
        if fdTable[fd].None? {
          fdTable := fdTable[fd := descriptor];
          return;
        }
        fd := fd + 1;
      }
      fdTable := fdTable + [descriptor];
      fd := |fdTable| - 1;
    }

    method Close(fd: nat) returns (ok: bool)
      modifies this
      ensures ok <==> 3 <= fd < |old(fdTable)|
      ensures fdTable == if ok then old(fdTable)[fd := None] else old(fdTable)
    {
      if fd < 3 || fd >= |fdTable| {
        return false;
      }
      fdTable := fdTable[fd := None];
      return true;
    }

    /** Delivers the bytes at the offset and moves it past them. */
    method Read(v: Volume, fd: nat, size: nat, ghost d: nat, ghost i: nat) returns (r: Option<seq<Byte>>)
      requires Good(v) && (IsFile(fd) ==> FileHandle(v, Opened(fd).at, d, i))
      modifies this
      ensures r.Some? ==> old(IsFile(fd)) && old(Opened(fd)).readable
      ensures r.Some? ==> r.value == ReadBytes(FileBytes(v, d, i), old(Opened(fd)).offset, size)
      ensures r.Some? ==> fdTable == old(fdTable)[fd := Some(File(old(Opened(fd)).(
                            offset := ReadEnd(|FileBytes(v, d, i)|, old(Opened(fd)).offset, size))))]
      ensures r.None? ==> fdTable == old(fdTable)
      ensures v.reliable && old(IsFile(fd)) && old(Opened(fd)).readable && Attributes(EntryOf(v, d, i)) == 32 ==>
                r.Some?
    {
      hide Consistent, Live, Contents;
      if fd >= |fdTable| || fdTable[fd].None? || !fdTable[fd].value.File? {
        return None;
      }
      var file := fdTable[fd].value.file;
      if !file.readable {
        return None;
      }
      var bytes := ReadWhole(v, file.at, d, i);
      if bytes.None? {
        return None;
      }
      if file.offset >= |bytes.value| {
        assert file.(offset := file.offset) == file;
        return Some([]);
      }
      var end := Min(file.offset + size, |bytes.value|);
      fdTable := fdTable[fd := Some(File(file.(offset := end)))];
      return Some(bytes.value[file.offset..end]);
    }

    /** One read after another delivers the file, up to the bytes asked for, and leaves the offset behind them. */
    method ReadAll(v: Volume, fd: nat, sizes: seq<nat>, ghost d: nat, ghost i: nat) returns (r: Option<seq<Byte>>)
      requires Good(v) && IsFile(fd) && FileHandle(v, Opened(fd).at, d, i)
      modifies this
      ensures r.Some? && old(Opened(fd)).offset <= |FileBytes(v, d, i)| ==>
                var stop := Min(old(Opened(fd)).offset + Total(sizes), |FileBytes(v, d, i)|);
                && r.value == FileBytes(v, d, i)[old(Opened(fd)).offset..stop]
                && fdTable == old(fdTable)[fd := Some(File(old(Opened(fd)).(offset := stop)))]
      ensures r.Some? && old(Opened(fd)).offset > |FileBytes(v, d, i)| ==> r.value == [] && fdTable == old(fdTable)
      ensures v.reliable && old(Opened(fd)).readable && Attributes(EntryOf(v, d, i)) == 32 ==> r.Some?
    {
      hide Consistent, Live, Contents, FileHandle, FileBytes, EntryOf, ReadRun, ReadBytes, ReadEnd, Total;
      var file := fdTable[fd].value.file;
      ghost var b := FileBytes(v, d, i);
      ghost var table := fdTable;
      var got := [];
      assert file.(offset := file.offset) == file;
      for k := 0 to |sizes|
        invariant IsFile(fd) && Opened(fd) == file.(offset := Opened(fd).offset)
                  && fdTable == table[fd := Some(File(Opened(fd)))]
        invariant got + ReadRun(b, Opened(fd).offset, sizes[k..]) == ReadRun(b, file.offset, sizes)
        invariant Stop(b, Opened(fd).offset, sizes[k..]) == Stop(b, file.offset, sizes)
        invariant file.offset <= |b| <==> Opened(fd).offset <= |b|
      {
        ghost var at := Opened(fd).offset;
        assert sizes[k..][0] == sizes[k] && sizes[k..][1..] == sizes[k + 1..];
        var part := Read(v, fd, sizes[k], d, i);
        if part.None? {
          return None;
        }
        RunStep(b, at, sizes[k..]);
        got := got + part.value;
      }
      assert sizes[|sizes|..] == [];
      RunOver(b, Opened(fd).offset);
      RunStops(b, file.offset, sizes);
      return Some(got);
    }

    /** Writes at the offset, growing the file first when it is too short. */
    method Write(v: Volume, fd: nat, bytes: seq<Byte>, ghost d: nat, ghost i: nat) returns (r: Option<nat>)
      requires Good(v) && (IsFile(fd) ==> FileHandle(v, Opened(fd).at, d, i))
      modifies this, v`disk, v`copies, v`layout, v.fat.words
      ensures r.Some? || v.reliable ==> Good(v)
      ensures r.Some? ==> old(IsFile(fd)) && old(Opened(fd)).writable && r.value <= |bytes|
      ensures r.Some? ==>
                fdTable == old(fdTable)[fd := Some(File(old(Opened(fd)).(offset := old(Opened(fd)).offset + r.value)))]
      ensures r.None? ==> fdTable == old(fdTable)
      ensures r.Some? ==> FileHandle(v, old(Opened(fd)).at, d, i)
      ensures r.Some? ==> WrittenFrom(old(FileBytes(v, d, i)), FileBytes(v, d, i), old(Opened(fd)).offset, bytes,
                r.value)
      ensures v.reliable && r.Some? ==>
                FileBytes(v, d, i) == Written(old(FileBytes(v, d, i)), old(Opened(fd)).offset, bytes)
      ensures v.reliable && old(IsFile(fd)) && old(Opened(fd)).writable ==>
                (r.Some? <==> Writable(old(EntryOf(v, d, i)), old(Opened(fd)).offset, |bytes|, old(v.Table()),
                  v.clusterSize))
      ensures v.reliable && r.Some? ==> r == Some(|bytes|)
      ensures (r.Some? || v.reliable) && old(IsFile(fd)) ==>
                OthersKept(old(v.disk), old(v.layout), v.disk, v.layout, d, i, Cluster(old(EntryOf(v, d, i))))
      ensures (r.Some? || v.reliable) && old(v.Synced()) ==> v.Synced()
      ensures v.reliable && r.None? ==>
                v.disk == old(v.disk) && v.Table() == old(v.Table()) && v.layout == old(v.layout)
    {
      hide Consistent, Live, Contents, Data, SlotsIn, DirLocations, FileTruncated, Truncatable, Splice, Size,
        Truncated, Replaced, OthersUntouched, OthersKept, Cluster, WrittenFrom, Written;
      if fd >= |fdTable| || fdTable[fd].None? || !fdTable[fd].value.File? {
        return None;
      }
      var file := fdTable[fd].value.file;
      KeptSelf(v.disk, v.layout, d, i, Cluster(EntryOf(v, d, i)));
      if !file.writable {
        return None;
      }
      ghost var disk0, l0, s0, b0 := v.disk, v.layout, EntryOf(v, d, i), FileBytes(v, d, i);
      FileBytesLength(v, file.at, d, i);
      var end := file.offset + |bytes|;
      var size := FileSize(v, file.at, d, i);
      ghost var b1 := b0;
      if end > size {
        var grown := Resize(v, file.at, end, d, i);
        if !grown {
          return None;
        }
        FileBytesLength(v, file.at, d, i);
        b1 := FileBytes(v, d, i);
      }
      ghost var disk1, l1, s1 := v.disk, v.layout, EntryOf(v, d, i);
      r := WriteInside(v, file.at, file.offset, bytes, d, i);
      WriteSpares(disk1, v.disk, l1, d, i, Cluster(s1));
      KeptThen(disk0, l0, disk1, l1, v.disk, v.layout, d, i, Cluster(s0), Cluster(s1));
      if r.None? {
        return None;
      }
      FileBytesLength(v, file.at, d, i);
      SpliceWritten(b0, b1, FileBytes(v, d, i), file.offset, bytes, r.value);
      fdTable := fdTable[fd := Some(File(file.(offset := file.offset + r.value)))];
    }

    /** Truncates and pulls the offset back inside the file. */
    method Truncate(v: Volume, fd: nat, size: nat, ghost d: nat, ghost i: nat) returns (ok: bool)
      requires Good(v) && (IsFile(fd) ==> FileHandle(v, Opened(fd).at, d, i))
      modifies this, v`disk, v`copies, v`layout, v.fat.words
      ensures ok || v.reliable ==> Good(v)
      ensures ok ==> old(IsFile(fd)) && old(Opened(fd)).writable && FileHandle(v, old(Opened(fd)).at, d, i)
      ensures ok ==> FileBytes(v, d, i) == Truncated(old(FileBytes(v, d, i)), size)
      ensures ok ==> fdTable == old(fdTable)[fd := Some(File(PulledBack(old(Opened(fd)), size)))]
      ensures !ok ==> fdTable == old(fdTable)
      ensures v.reliable && old(IsFile(fd)) && old(Opened(fd)).writable ==>
                (ok <==> Truncatable(old(EntryOf(v, d, i)), size, old(v.Table()), v.clusterSize))
      ensures (ok || v.reliable) && old(IsFile(fd)) ==>
                OthersKept(old(v.disk), old(v.layout), v.disk, v.layout, d, i, Cluster(old(EntryOf(v, d, i))))
      ensures (ok || v.reliable) && old(v.Synced()) ==> v.Synced()
      ensures v.reliable && !ok ==> v.disk == old(v.disk) && v.Table() == old(v.Table()) && v.layout == old(v.layout)
    {
      hide Consistent, Live, Contents, Data, SlotsIn, DirLocations, FileTruncated, Truncatable, Truncated, OthersKept,
        Cluster;
      if fd >= |fdTable| || fdTable[fd].None? || !fdTable[fd].value.File? {
        return false;
      }
      var file := fdTable[fd].value.file;
      KeptSelf(v.disk, v.layout, d, i, Cluster(EntryOf(v, d, i)));
      if !file.writable {
        return false;
      }
      ok := Resize(v, file.at, size, d, i);
      if !ok {
        return false;
      }
      if file.offset > size {
        fdTable := fdTable[fd := Some(File(file.(offset := size)))];
      }
    }
  }

  lemma SpliceWritten(b0: seq<Byte>, b1: seq<Byte>, now: seq<Byte>, offset: nat, bytes: seq<Byte>, done: nat)
    requires Replaced(b1, now, offset, bytes, done) && offset + |bytes| <= |b1|
    requires b1 == b0 || b1 == Truncated(b0, offset + |bytes|)
    ensures WrittenFrom(b0, now, offset, bytes, done)
    ensures done == |bytes| && (offset + |bytes| <= |b0| ==> b1 == b0) ==> now == Written(b0, offset, bytes)
  {
    if done == |bytes| {
      ReplacedFully(b1, now, offset, bytes);
    }
  }

  /** The size in the stored entry; a cached one when it cannot be read. */
  method FileSize(v: Volume, at: Location, ghost d: nat, ghost i: nat) returns (size: nat)
    requires Good(v) && FileHandle(v, at, d, i)
    ensures v.reliable ==> size == Size(EntryOf(v, d, i))
  {
    hide Consistent, Live, Data, SlotsIn, DirLocations, Size;
    HandleSlot(v, at, d, i);
    var entry := ReadDirectoryEntry(v, at);
    if entry.None? {
      size := *;
    } else {
      size := Size(entry.value);
    }
  }
}
