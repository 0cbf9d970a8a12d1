/**
  The bytes a chain of clusters holds, as one sequence, and that sequence
  read as directory slots.
 */
module ClusterData {

  import opened Base
  import opened Slots
  import opened FatTable
  import opened DirectoryParser

  /** The data region of the device, cluster by cluster. */
  type Disk = map<nat, seq<Byte>>

  ghost function Get(disk: Disk, c: nat): seq<Byte> {
    if c in disk then disk[c] else []
  }

  /** Every cluster of `cs` exists and is `size` bytes long. */
  ghost predicate Holds(disk: Disk, cs: seq<nat>, size: nat) {
    forall i :: 0 <= i < |cs| ==> cs[i] in disk && |disk[cs[i]]| == size
  }

  ghost function Data(disk: Disk, cs: seq<nat>): seq<Byte> {
    if cs == [] then [] else Get(disk, cs[0]) + Data(disk, cs[1..])
  }

  ghost predicate SameOutside(a: seq<Byte>, b: seq<Byte>, lo: int, hi: int) {
    && |a| == |b|
    && forall i :: 0 <= i < |a| && (i < lo || hi <= i) ==> a[i] == b[i]
  }

  // -------------------------------------------------------------------- bytes

  /** Where the `k`-th block of `size` items starts. */
  ghost function Start(k: nat, size: nat): nat {
    k * size
  }

  lemma StartNext(k: nat, size: nat)
    ensures Start(0, size) == 0
    ensures Start(k + 1, size) == Start(k, size) + size
  {
    assert (k + 1) * size == k * size + size;
  }

  lemma StartScale(k: nat, n: nat)
    ensures Start(k, SLOT_SIZE * n) == SLOT_SIZE * Start(k, n)
  {
    assert k * (SLOT_SIZE * n) == SLOT_SIZE * (k * n);
  }

  lemma {:induction false} DataLength(disk: Disk, cs: seq<nat>, size: nat)
    requires Holds(disk, cs, size)
    ensures |Data(disk, cs)| == Start(|cs|, size)
  {
    hide Start;
    if cs != [] {
      DataLength(disk, cs[1..], size);
      StartNext(|cs| - 1, size);
    } else {
      StartNext(0, size);
    }
  }

  lemma {:induction false} DataSplit(disk: Disk, cs: seq<nat>, ds: seq<nat>)
    ensures Data(disk, cs + ds) == Data(disk, cs) + Data(disk, ds)
  {
    if cs == [] {
      assert cs + ds == ds;
    } else {
      assert (cs + ds)[1..] == cs[1..] + ds;
      DataSplit(disk, cs[1..], ds);
    }
  }

  lemma {:induction false} DataFrame(disk: Disk, disk': Disk, cs: seq<nat>)
    requires forall i :: 0 <= i < |cs| ==> Get(disk, cs[i]) == Get(disk', cs[i])
    ensures Data(disk, cs) == Data(disk', cs)
  {
    if cs != [] {
      DataFrame(disk, disk', cs[1..]);
    }
  }

  /** The `k`-th cluster sits at byte `Start(k, size)`. */
  lemma {:induction false} DataAt(disk: Disk, cs: seq<nat>, size: nat, k: nat)
    requires Holds(disk, cs, size) && k < |cs|
    ensures Start(k, size) + size <= |Data(disk, cs)|
    ensures Data(disk, cs)[Start(k, size)..Start(k, size) + size] == disk[cs[k]]
  {
    hide Start;
    var rest := Data(disk, cs[1..]);
    StartNext(0, size);
    if k > 0 {
      DataAt(disk, cs[1..], size, k - 1);
      StartNext(k - 1, size);
      var d, at := Get(disk, cs[0]) + rest, Start(k - 1, size);
      assert d[size + at..size + at + size] == rest[at..at + size];
    }
  }

  /** A change inside one cluster changes only its place in the sequence. */
  lemma {:induction false} DataChange(disk: Disk, disk': Disk, cs: seq<nat>, size: nat, k: nat, lo: nat, hi: nat)
    requires Holds(disk, cs, size) && Holds(disk', cs, size) && k < |cs|
    requires forall i :: 0 <= i < |cs| && i != k ==> disk'[cs[i]] == disk[cs[i]]
    requires SameOutside(disk[cs[k]], disk'[cs[k]], lo, hi) && lo <= hi <= size
    ensures SameOutside(Data(disk, cs), Data(disk', cs), Start(k, size) + lo, Start(k, size) + hi)
  {
    hide Start;
    var a, b := Get(disk, cs[0]), Get(disk', cs[0]);
    var x, y := Data(disk, cs[1..]), Data(disk', cs[1..]);
    StartNext(0, size);
    if k == 0 {
      DataFrame(disk, disk', cs[1..]);
      assert SameOutside(a + x, b + y, lo, hi);
    } else {
      DataChange(disk, disk', cs[1..], size, k - 1, lo, hi);
      StartNext(k - 1, size);
      var at := Start(k - 1, size);
      assert SameOutside(x, y, at + lo, at + hi);
      PrependSame(a, b, x, y, at + lo, at + hi);
    }
  }

  lemma PrependSame(a: seq<Byte>, b: seq<Byte>, x: seq<Byte>, y: seq<Byte>, lo: nat, hi: nat)
    requires a == b && SameOutside(x, y, lo, hi)
    ensures SameOutside(a + x, b + y, |a| + lo, |a| + hi)
  {
  }

  lemma SpliceUnique(s: seq<Byte>, offset: nat, b: seq<Byte>, r: seq<Byte>)
    requires offset + |b| <= |s| && SameOutside(s, r, offset, offset + |b|)
    requires r[offset..offset + |b|] == b
    ensures r == Splice(s, offset, b)
  {
    forall i | 0 <= i < |s| ensures r[i] == Splice(s, offset, b)[i] {
      if offset <= i < offset + |b| {
        assert r[offset..offset + |b|][i - offset] == b[i - offset];
      }
    }
  }

  lemma SpliceSplice(s: seq<Byte>, offset: nat, a: seq<Byte>, b: seq<Byte>)
    requires offset + |a| + |b| <= |s|
    ensures Splice(Splice(s, offset, a), offset + |a|, b) == Splice(s, offset, a + b)
  {
  }

  /** Replacing bytes inside one cluster replaces them in the sequence. */
  lemma DataSplice(disk: Disk, cs: seq<nat>, size: nat, k: nat, offset: nat, b: seq<Byte>)
    requires Holds(disk, cs, size) && Distinct(cs) && k < |cs| && offset + |b| <= size
    ensures var disk' := disk[cs[k] := Splice(disk[cs[k]], offset, b)];
            && Holds(disk', cs, size)
            && Start(k, size) + offset + |b| <= |Data(disk, cs)|
            && Data(disk', cs) == Splice(Data(disk, cs), Start(k, size) + offset, b)
  {
    hide Start, Data;
    var before := disk[cs[k]];
    var disk' := disk[cs[k] := Splice(before, offset, b)];
    assert forall i :: 0 <= i < |cs| && i != k ==> cs[i] != cs[k];
    DataChange(disk, disk', cs, size, k, offset, offset + |b|);
    DataAt(disk, cs, size, k);
    DataAt(disk', cs, size, k);
    var d, at := Data(disk', cs), Start(k, size);
    SliceSlice(d, at, size, offset, offset + |b|);
    assert d[at..at + size][offset..offset + |b|] == b;
    SpliceUnique(Data(disk, cs), at + offset, b, d);
  }

  // -------------------------------------------------------------------- slots

  function SlotAt(b: seq<Byte>, i: nat): Slot
    requires SLOT_SIZE * i + SLOT_SIZE <= |b|
  {
    b[SLOT_SIZE * i..SLOT_SIZE * i + SLOT_SIZE]
  }

  /** A byte sequence read as consecutive 32-byte slots. */
  ghost function SlotsIn(b: seq<Byte>): (ss: seq<Slot>)
    ensures |ss| == |b| / SLOT_SIZE
  {
    seq(|b| / SLOT_SIZE, i requires 0 <= i < |b| / SLOT_SIZE => SlotAt(b, i))
  }

  /** The slots of the directory stored in a chain. */
  ghost function DirSlots(disk: Disk, cs: seq<nat>): seq<Slot> {
    SlotsIn(Data(disk, cs))
  }

  lemma SlotsSplice(b: seq<Byte>, i: nat, s: Slot)
    requires SLOT_SIZE * i + SLOT_SIZE <= |b|
    ensures SlotsIn(Splice(b, SLOT_SIZE * i, s)) == SlotsIn(b)[i := s]
  {
    var r := Splice(b, SLOT_SIZE * i, s);
    forall j | 0 <= j < |b| / SLOT_SIZE ensures SlotAt(r, j) == SlotsIn(b)[i := s][j] {
      if j < i {
        assert SlotAt(r, j) == SlotAt(b, j);
      } else if j > i {
        assert SlotAt(r, j) == SlotAt(b, j);
      }
    }
  }

  lemma SlotsAppend(a: seq<Byte>, b: seq<Byte>)
    requires |a| % SLOT_SIZE == 0
    ensures SlotsIn(a + b) == SlotsIn(a) + SlotsIn(b)
  {
    var n := |a| / SLOT_SIZE;
    forall j | 0 <= j < |a + b| / SLOT_SIZE ensures SlotAt(a + b, j) == (SlotsIn(a) + SlotsIn(b))[j] {
      if j >= n {
        assert SlotAt(a + b, j) == SlotAt(b, j - n);
      } else {
        assert SlotAt(a + b, j) == SlotAt(a, j);
      }
    }
  }

  // ---------------------------------------------------------------- locations

  /** The locations of the slots of one cluster. */
  ghost function ClusterLocations(cluster: nat, perCluster: nat): (ls: seq<Location>)
    ensures |ls| == perCluster
  {
    seq(perCluster, i requires 0 <= i < perCluster => Location(cluster, i, SLOT_SIZE * i))
  }

  /** The locations of all slots of a directory, in directory order. */
  ghost function DirLocations(cs: seq<nat>, perCluster: nat): seq<Location> {
    if cs == [] then [] else ClusterLocations(cs[0], perCluster) + DirLocations(cs[1..], perCluster)
  }

  lemma {:induction false} DirLocationsLength(cs: seq<nat>, perCluster: nat)
    ensures |DirLocations(cs, perCluster)| == Start(|cs|, perCluster)
  {
    hide Start;
    if cs != [] {
      DirLocationsLength(cs[1..], perCluster);
      StartNext(|cs| - 1, perCluster);
    } else {
      StartNext(0, perCluster);
    }
  }

  lemma {:induction false} DirLocationsSplit(cs: seq<nat>, ds: seq<nat>, perCluster: nat)
    ensures DirLocations(cs + ds, perCluster) == DirLocations(cs, perCluster) + DirLocations(ds, perCluster)
  {
    if cs == [] {
      assert cs + ds == ds;
    } else {
      assert (cs + ds)[1..] == cs[1..] + ds;
      DirLocationsSplit(cs[1..], ds, perCluster);
    }
  }

  /** Slot `i` of a directory is slot `j` of its `k`-th cluster. */
  lemma {:induction false} DirLocationAt(cs: seq<nat>, perCluster: nat, i: nat) returns (k: nat, j: nat)
    requires i < |DirLocations(cs, perCluster)|
    ensures k < |cs| && j < perCluster && i == Start(k, perCluster) + j
    ensures DirLocations(cs, perCluster)[i] == Location(cs[k], j, SLOT_SIZE * j)
  {
    hide Start;
    StartNext(0, perCluster);
    if i < perCluster {
      k, j := 0, i;
    } else {
      k, j := DirLocationAt(cs[1..], perCluster, i - perCluster);
      StartNext(k, perCluster);
      k := k + 1;
    }
  }

  /** Writing a slot at its location replaces exactly that slot. */
  lemma PersistSlot(disk: Disk, cs: seq<nat>, perCluster: nat, i: nat, s: Slot)
    requires Distinct(cs) && Holds(disk, cs, SLOT_SIZE * perCluster)
    requires i < |DirLocations(cs, perCluster)|
    ensures var l := DirLocations(cs, perCluster)[i];
            && l.cluster in cs && l.cluster in disk && l.offset == SLOT_SIZE * l.index
            && l.offset + SLOT_SIZE <= |disk[l.cluster]| == SLOT_SIZE * perCluster
            && i < |DirSlots(disk, cs)|
            && SlotAt(disk[l.cluster], l.index) == DirSlots(disk, cs)[i]
            && DirSlots(disk[l.cluster := Splice(disk[l.cluster], l.offset, s)], cs) == DirSlots(disk, cs)[i := s]
  {
    hide Start, Data;
    var size := SLOT_SIZE * perCluster;
    var k, j := DirLocationAt(cs, perCluster, i);
    StartScale(k, perCluster);
    DataSplice(disk, cs, size, k, SLOT_SIZE * j, s);
    DataAt(disk, cs, size, k);
    SlotsSplice(Data(disk, cs), i, s);
    var d, at := Data(disk, cs), Start(k, size);
    SliceSlice(d, at, size, SLOT_SIZE * j, SLOT_SIZE * j + SLOT_SIZE);
  }
}
