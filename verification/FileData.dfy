/** Reading, writing and zeroing file bytes through a cluster chain. */
module FileData {

  import opened Base
  import opened Slots
  import opened FatTable
  import opened ClusterData
  import opened FatVolume

  /** `cs` is a chain of `t` whose clusters the disk holds. */
  ghost predicate OnDisk(t: Table, disk: Disk, cs: seq<nat>, size: nat) {
    && size > 0
    && Sized(t) && IsChain(t, cs)
    && Holds(disk, cs, size)
  }

  /** Only clusters of `cs` may differ, and none changes its length. */
  ghost predicate OnlyIn(disk: Disk, disk': Disk, cs: seq<nat>) {
    && disk'.Keys == disk.Keys
    && (forall c :: c in disk && c !in cs ==> disk'[c] == disk[c])
    && (forall c :: c in disk ==> |disk'[c]| == |disk[c]|)
  }

  lemma OnlyInHolds(disk: Disk, disk': Disk, cs: seq<nat>, ds: seq<nat>, size: nat)
    requires OnlyIn(disk, disk', cs) && Holds(disk, ds, size)
    ensures Holds(disk', ds, size)
  {
  }

  /** A chain sharing no cluster with the changed one keeps its bytes. */
  lemma OnlyInElsewhere(disk: Disk, disk': Disk, cs: seq<nat>, ds: seq<nat>)
    requires OnlyIn(disk, disk', cs) && forall c :: c in ds ==> c !in cs
    ensures Data(disk', ds) == Data(disk, ds)
  {
    forall i | 0 <= i < |ds| ensures Get(disk, ds[i]) == Get(disk', ds[i]) {
      assert ds[i] in ds;
    }
    DataFrame(disk, disk', ds);
  }

  // ----------------------------------------------------------------- one cluster

  datatype CopyStatus = Copied | ReadFailed | WriteFailed

  /** Read-modify-write of part of one cluster. */
  method CopyIntoCluster(v: Volume, cluster: nat, offset: nat, b: seq<Byte>) returns (status: CopyStatus)
    requires cluster in v.disk && offset + |b| <= |v.disk[cluster]|
    modifies v`disk
    ensures v.reliable ==> status == Copied
    ensures status == Copied ==> v.disk == old(v.disk)[cluster := Splice(old(v.disk)[cluster], offset, b)]
    ensures status == ReadFailed ==> v.disk == old(v.disk)
    ensures status == WriteFailed ==> OnlyIn(old(v.disk), v.disk, [cluster])
    ensures status == WriteFailed ==> SameOutside(old(v.disk)[cluster], v.disk[cluster], offset, offset + |b|)
  {
    var region := v.ReadCluster(cluster);
    if region.None? {
      return ReadFailed;
    }
    var buffer := Splice(region.value, offset, b);
    var ok := v.WriteCluster(cluster, buffer);
    if !ok {
      return WriteFailed;
    }
    return Copied;
  }

  // ---------------------------------------------------------------------- seeking

  lemma ChainBasics(t: Table, cs: seq<nat>)
    requires IsChain(t, cs)
    ensures cs != [] && Distinct(cs)
  {
  }

  lemma ChainNext(t: Table, cs: seq<nat>, k: nat)
    requires Sized(t) && IsChain(t, cs) && k < |cs|
    ensures Next(t, cs[k]) == if k + 1 < |cs| then Some(cs[k + 1]) else None
  {
    if k + 1 < |cs| {
      assert t[cs[k]] == cs[k + 1];
    }
  }

  lemma {:induction false} StartMonotone(k: nat, n: nat, size: nat)
    requires k <= n
    ensures Start(k, size) <= Start(n, size)
  {
    if k < n {
      StartMonotone(k, n - 1, size);
      StartNext(n - 1, size);
    }
  }

  /** Walks to the cluster holding a byte offset; `None` past the chain's end. */
  method SeekCluster(v: Volume, first: nat, offset: nat, ghost cs: seq<nat>)
    returns (r: Option<(nat, nat)>, ghost k: nat)
    requires OnDisk(v.Table(), v.disk, cs, v.clusterSize) && cs[0] == first
    ensures r.Some? <==> offset < Start(|cs|, v.clusterSize)
    ensures r.Some? ==> k < |cs| && r.value.0 == cs[k] && r.value.1 < v.clusterSize
                        && Start(k, v.clusterSize) + r.value.1 == offset
  {
    hide Start, IsChain;
    ChainBasics(v.Table(), cs);
    var cluster: nat, rest: nat := first, offset;
    k := 0;
    StartNext(0, v.clusterSize);
    while rest >= v.clusterSize
      invariant k < |cs| && cluster == cs[k]
      invariant Start(k, v.clusterSize) + rest == offset
      decreases rest
    {
      StartNext(k, v.clusterSize);
      ChainNext(v.Table(), cs, k);
      var next := v.fat.NextCluster(cluster);
      if next.None? {
        return None, k;
      }
      cluster, rest, k := next.value, rest - v.clusterSize, k + 1;
    }
    StartNext(k, v.clusterSize);
    StartMonotone(k + 1, |cs|, v.clusterSize);
    return Some((cluster, rest)), k;
  }

  // ---------------------------------------------------------------------- reading

  /** The bytes of a file, read cluster by cluster. */
  method ReadFile(v: Volume, file: Slot, ghost cs: seq<nat>) returns (r: Option<seq<Byte>>)
    requires Cluster(file) != 0 ==> OnDisk(v.Table(), v.disk, cs, v.clusterSize) && cs[0] == Cluster(file)
    ensures r.Some? ==> Attributes(file) == 32
    ensures r.Some? && Size(file) == 0 ==> r.value == []
    ensures r.Some? && Size(file) > 0 ==> Cluster(file) != 0 && Size(file) <= |Data(v.disk, cs)|
                                          && r.value == Data(v.disk, cs)[..Size(file)]
    ensures v.reliable && Attributes(file) == 32 && Size(file) == 0 ==> r.Some?
    ensures v.reliable && Attributes(file) == 32 && Cluster(file) != 0 && Size(file) <= |Data(v.disk, cs)| ==> r.Some?
  {
    hide Start, IsChain, Size, Cluster, Data;
    if Attributes(file) != 32 {
      return None;
    }
    var fileSize := Size(file);
    if fileSize == 0 {
      return Some([]);
    }
    var cluster := Cluster(file);
    if cluster == 0 {
      return None;
    }
    var bytes: seq<Byte> := [];
    ghost var k: nat := 0;
    ChainBasics(v.Table(), cs);
    StartNext(0, v.clusterSize);
    DataLength(v.disk, cs, v.clusterSize);
    while |bytes| < fileSize
      invariant |bytes| <= fileSize
      invariant |bytes| < fileSize ==> k < |cs| && cluster == cs[k] && |bytes| == Start(k, v.clusterSize)
      invariant |bytes| <= |Data(v.disk, cs)| && bytes == Data(v.disk, cs)[..|bytes|]
    {
      var region := v.ReadCluster(cluster);
      if region.None? {
        return None;
      }
      var take := Min(|region.value|, fileSize - |bytes|);
      DataAt(v.disk, cs, v.clusterSize, k);
      ReadStep(Data(v.disk, cs), |bytes|, region.value, take);
      StartNext(k, v.clusterSize);
      bytes := bytes + region.value[..take];
      if |bytes| == fileSize {
        break;
      }
      ChainNext(v.Table(), cs, k);
      var next := v.fat.NextCluster(cluster);
      if next.None? {
        return None;
      }
      cluster, k := next.value, k + 1;
    }
    return Some(bytes);
  }

  lemma ReadStep(d: seq<Byte>, at: nat, region: seq<Byte>, take: nat)
    requires at + |region| <= |d| && d[at..at + |region|] == region && take <= |region|
    ensures d[..at] + region[..take] == d[..at + take]
  {
    SliceSlice(d, at, |region|, 0, take);
  }

  // ---------------------------------------------------------------------- writing

  /** After replacing `w` bytes of the range, the next chunk is in place too. */
  lemma CopyStep(disk: Disk, cs: seq<nat>, size: nat, k: nat, o: nat, d0: seq<Byte>, offset: nat, done: seq<Byte>,
                 b: seq<Byte>)
    requires Holds(disk, cs, size) && Distinct(cs) && k < |cs| && o + |b| <= size
    requires Start(k, size) + o == offset + |done| && offset + |done| <= |d0|
    requires Data(disk, cs) == Splice(d0, offset, done)
    ensures offset + |done + b| <= |d0|
    ensures Data(disk[cs[k] := Splice(disk[cs[k]], o, b)], cs) == Splice(d0, offset, done + b)
  {
    hide Data, Start, Splice, Distinct;
    DataSplice(disk, cs, size, k, o, b);
    SpliceSplice(d0, offset, done, b);
  }

  /** A torn chunk leaves everything outside the range, and what was done. */
  lemma TornStep(disk: Disk, disk': Disk, cs: seq<nat>, size: nat, k: nat, o: nat, d0: seq<Byte>, offset: nat,
                 done: seq<Byte>, n: nat, len: nat)
    requires Holds(disk, cs, size) && Distinct(cs) && k < |cs| && o + n <= size
    requires Start(k, size) + o == offset + |done| && offset + |done| <= |d0| && |done| + n <= len
    requires Data(disk, cs) == Splice(d0, offset, done)
    requires OnlyIn(disk, disk', [cs[k]]) && SameOutside(disk[cs[k]], disk'[cs[k]], o, o + n)
    ensures SameOutside(d0, Data(disk', cs), offset, offset + len)
    ensures Data(disk', cs)[offset..offset + |done|] == done
  {
    hide Data, Start;
    OnlyInHolds(disk, disk', [cs[k]], cs, size);
    assert forall i :: 0 <= i < |cs| && i != k ==> cs[i] != cs[k];
    DataChange(disk, disk', cs, size, k, o, o + n);
  }

  lemma DoneSame(d0: seq<Byte>, offset: nat, done: seq<Byte>, len: nat)
    requires offset + |done| <= |d0| && |done| <= len
    ensures SameOutside(d0, Splice(d0, offset, done), offset, offset + len)
    ensures Splice(d0, offset, done)[offset..offset + |done|] == done
  {
  }

  lemma OneInMany(disk: Disk, disk': Disk, cs: seq<nat>, k: nat)
    requires k < |cs| && OnlyIn(disk, disk', [cs[k]])
    ensures OnlyIn(disk, disk', cs)
  {
    assert cs[k] in cs;
  }

  lemma SpliceOnlyIn(disk: Disk, c: nat, offset: nat, b: seq<Byte>)
    requires c in disk && offset + |b| <= |disk[c]|
    ensures OnlyIn(disk, disk[c := Splice(disk[c], offset, b)], [c])
  {
  }

  /**
    Replaces the bytes from `offset` on by `b`, walking the chain. Bytes
    outside the range and clusters outside the chain never change; `done`
    counts the bytes known to be in place.
   */
  method CopyRange(v: Volume, first: nat, offset: nat, b: seq<Byte>, ghost cs: seq<nat>)
    returns (status: CopyStatus, done: nat, chainEnded: bool)
    requires OnDisk(v.Table(), v.disk, cs, v.clusterSize) && cs[0] == first
    modifies v`disk
    ensures OnlyIn(old(v.disk), v.disk, cs)
    ensures SameOutside(Data(old(v.disk), cs), Data(v.disk, cs), offset, offset + |b|)
    ensures done <= |b|
    ensures done > 0 ==> offset + done <= |Data(v.disk, cs)| && Data(v.disk, cs)[offset..offset + done] == b[..done]
    ensures status == Copied && !chainEnded <==> done == |b| && (b == [] ==> offset < |Data(v.disk, cs)|)
    ensures v.reliable && b != [] && offset + |b| <= |Data(old(v.disk), cs)| ==> status == Copied && !chainEnded
  {
    hide Start, IsChain, Data, Splice, Holds, OnlyIn, SameOutside, InPlace;
    ghost var d0, disk0, size := Data(v.disk, cs), v.disk, v.clusterSize;
    DataLength(disk0, cs, size);
    ChainBasics(v.Table(), cs);
    OnlyInSelf(disk0, cs);
    SameSelf(d0, offset, offset + |b|);
    ghost var k: nat;
    var at;
    at, k := SeekCluster(v, first, offset, cs);
    if at.None? {
      return Copied, 0, true;
    }
    var cluster: nat, o: nat := at.value.0, at.value.1;
    done := 0;
    InPlaceNone(disk0, cs, size, d0, offset, b);
    while done < |b|
      invariant 0 <= done <= |b|
      invariant InPlace(disk0, v.disk, cs, size, d0, offset, b, done)
      invariant done < |b| ==> k < |cs| && cluster == cs[k] && o < size && Start(k, size) + o == offset + done
    {
      var n := Min(|b| - done, v.clusterSize - o);
      ghost var before := v.disk;
      HoldsAt(v.disk, cs, size, k, disk0, d0, offset, b, done);
      status := CopyIntoCluster(v, cluster, o, b[done..done + n]);
      if status != Copied {
        FailedRange(before, v.disk, cs, size, k, o, d0, offset, b, done, n, disk0, status == WriteFailed);
        return status, done, false;
      }
      ChunkRange(before, v.disk, cs, size, k, o, d0, offset, b, done, n, disk0);
      done := done + n;
      if done == |b| {
        break;
      }
      ChainNext(v.Table(), cs, k);
      StartNext(k, size);
      var next := v.fat.NextCluster(cluster);
      if next.None? {
        DoneRange(disk0, v.disk, cs, size, d0, offset, b, done);
        return Copied, done, true;
      }
      cluster, o, k := next.value, 0, k + 1;
    }
    DoneRange(disk0, v.disk, cs, size, d0, offset, b, done);
    return Copied, done, false;
  }

  /** The first `done` bytes of `b` are in place and nothing else changed. */
  ghost predicate InPlace(disk0: Disk, disk: Disk, cs: seq<nat>, size: nat, d0: seq<Byte>, offset: nat, b: seq<Byte>,
                          done: nat) {
    && done <= |b| && offset + done <= |d0|
    && OnlyIn(disk0, disk, cs) && Holds(disk, cs, size)
    && Data(disk, cs) == Splice(d0, offset, b[..done])
  }

  lemma InPlaceNone(disk0: Disk, cs: seq<nat>, size: nat, d0: seq<Byte>, offset: nat, b: seq<Byte>)
    requires Holds(disk0, cs, size) && d0 == Data(disk0, cs) && offset <= |d0|
    ensures InPlace(disk0, disk0, cs, size, d0, offset, b, 0)
  {
    SpliceNone(d0, offset);
  }

  lemma DoneRange(disk0: Disk, disk: Disk, cs: seq<nat>, size: nat, d0: seq<Byte>, offset: nat, b: seq<Byte>, done: nat)
    requires InPlace(disk0, disk, cs, size, d0, offset, b, done)
    ensures OnlyIn(disk0, disk, cs) && offset + done <= |d0| == |Data(disk, cs)|
    ensures SameOutside(d0, Data(disk, cs), offset, offset + |b|)
    ensures Data(disk, cs)[offset..offset + done] == b[..done]
  {
    hide Data, OnlyIn;
    DoneSame(d0, offset, b[..done], |b|);
  }

  lemma SameSelf(d: seq<Byte>, lo: int, hi: int)
    ensures SameOutside(d, d, lo, hi)
  {
  }

  lemma OnlyInSelf(disk: Disk, cs: seq<nat>)
    ensures OnlyIn(disk, disk, cs)
  {
  }

  lemma SpliceNone(d: seq<Byte>, offset: nat)
    requires offset <= |d|
    ensures Splice(d, offset, []) == d
  {
  }

  lemma HoldsAt(disk: Disk, cs: seq<nat>, size: nat, k: nat, disk0: Disk, d0: seq<Byte>, offset: nat, b: seq<Byte>,
                done: nat)
    requires InPlace(disk0, disk, cs, size, d0, offset, b, done) && k < |cs|
    ensures cs[k] in disk && |disk[cs[k]]| == size
  {
  }

  lemma ChunkRange(before: Disk, after: Disk, cs: seq<nat>, size: nat, k: nat, o: nat, d0: seq<Byte>, offset: nat,
                   b: seq<Byte>, done: nat, n: nat, disk0: Disk)
    requires InPlace(disk0, before, cs, size, d0, offset, b, done)
    requires Distinct(cs) && k < |cs| && o + n <= size && done + n <= |b|
    requires Start(k, size) + o == offset + done
    requires cs[k] in before && o + n <= |before[cs[k]]|
    requires after == before[cs[k] := Splice(before[cs[k]], o, b[done..done + n])]
    ensures InPlace(disk0, after, cs, size, d0, offset, b, done + n)
  {
    hide Data, Start, Splice, Distinct;
    assert b[..done] + b[done..done + n] == b[..done + n];
    CopyStep(before, cs, size, k, o, d0, offset, b[..done], b[done..done + n]);
    SpliceOnlyIn(before, cs[k], o, b[done..done + n]);
    OneInMany(before, after, cs, k);
  }

  lemma FailedRange(before: Disk, after: Disk, cs: seq<nat>, size: nat, k: nat, o: nat, d0: seq<Byte>, offset: nat,
                    b: seq<Byte>, done: nat, n: nat, disk0: Disk, torn: bool)
    requires InPlace(disk0, before, cs, size, d0, offset, b, done)
    requires Distinct(cs) && k < |cs| && o + n <= size && done + n <= |b|
    requires Start(k, size) + o == offset + done
    requires if torn then OnlyIn(before, after, [cs[k]]) && cs[k] in before && cs[k] in after
                          && SameOutside(before[cs[k]], after[cs[k]], o, o + n)
             else after == before
    ensures OnlyIn(disk0, after, cs) && offset + done <= |d0| == |Data(after, cs)|
    ensures SameOutside(d0, Data(after, cs), offset, offset + |b|)
    ensures Data(after, cs)[offset..offset + done] == b[..done]
  {
    hide Data, Start, Splice, Distinct;
    if torn {
      TornStep(before, after, cs, size, k, o, d0, offset, b[..done], n, |b|);
      OneInMany(before, after, cs, k);
    } else {
      DoneSame(d0, offset, b[..done], |b|);
    }
  }

  /** Writes into the existing bytes of a file; never changes its size. */
  method WriteExistingFile(v: Volume, file: Slot, offset: nat, bytes: seq<Byte>, ghost cs: seq<nat>)
    returns (r: Option<nat>)
    requires Cluster(file) != 0 ==> OnDisk(v.Table(), v.disk, cs, v.clusterSize) && cs[0] == Cluster(file)
    modifies v`disk
    ensures OnlyIn(old(v.disk), v.disk, cs)
    ensures SameOutside(Data(old(v.disk), cs), Data(v.disk, cs), offset, offset + |bytes|)
    ensures r.Some? ==> Attributes(file) == 32 && offset + |bytes| <= Size(file) && r.value <= |bytes|
    ensures r.Some? && r.value > 0 ==>
              offset + r.value <= |Data(v.disk, cs)| && Data(v.disk, cs)[offset..offset + r.value] == bytes[..r.value]
    ensures Attributes(file) != 32 || offset + |bytes| > Size(file) ==> r.None? && v.disk == old(v.disk)
    ensures Attributes(file) == 32 && bytes == [] && offset <= Size(file) ==> r == Some(0)
    ensures v.reliable && Attributes(file) == 32 && Cluster(file) != 0 ==>
              offset + |bytes| <= Size(file) <= |Data(old(v.disk), cs)| ==> r == Some(|bytes|)
  {
    hide Data, OnlyIn, Size, Cluster;
    OnlyInSelf(v.disk, cs);
    if Attributes(file) != 32 {
      return None;
    }
    if offset + |bytes| > Size(file) {
      return None;
    }
    if bytes == [] {
      return Some(0);
    }
    if Cluster(file) == 0 {
      return None;
    }
    var status, done, chainEnded := CopyRange(v, Cluster(file), offset, bytes, cs);
    if status == ReadFailed || chainEnded {
      return None;
    }
    if status == WriteFailed && done == 0 {
      return None;
    }
    return Some(done);
  }

  /** Zeroes a byte range of a chain. */
  method ZeroFileRange(v: Volume, first: nat, offset: nat, size: nat, ghost cs: seq<nat>) returns (ok: bool)
    requires size > 0 ==> OnDisk(v.Table(), v.disk, cs, v.clusterSize) && cs[0] == first
    modifies v`disk
    ensures OnlyIn(old(v.disk), v.disk, cs)
    ensures SameOutside(Data(old(v.disk), cs), Data(v.disk, cs), offset, offset + size)
    ensures ok && size > 0 ==> offset + size <= |Data(v.disk, cs)|
    ensures ok ==> forall i :: offset <= i < offset + size && i < |Data(v.disk, cs)| ==> Data(v.disk, cs)[i] == 0
    ensures v.reliable && offset + size <= |Data(old(v.disk), cs)| ==> ok
  {
    hide Data, OnlyIn;
    OnlyInSelf(v.disk, cs);
    if size == 0 {
      return true;
    }
    var zeros: seq<Byte> := seq(size, _ => 0);
    var status, done, chainEnded := CopyRange(v, first, offset, zeros, cs);
    ok := status == Copied && !chainEnded;
    if ok {
      forall i | offset <= i < offset + size && i < |Data(v.disk, cs)| ensures Data(v.disk, cs)[i] == 0 {
        assert Data(v.disk, cs)[offset..offset + size][i - offset] == zeros[i - offset];
      }
    }
  }
}
