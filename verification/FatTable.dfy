/**
  The in-memory file allocation table of the FAT32 driver: a fixed array of
  32-bit words, one per cluster, holding a linked list per file.
 */
module FatTable {

  import opened Base

  const FREE: Word := 0x0000_0000
  const EOF: Word := 0x0FFF_FFFF

  /** Words from here on end a chain. */
  const END_OF_CHAIN: Word := 0x0FFF_FFF8

  type Table = seq<Word>

  /** FAT32 cluster numbers lie below the end-of-chain range. */
  ghost predicate Sized(t: Table) {
    |t| <= END_OF_CHAIN
  }

  function Next(t: Table, c: nat): Option<nat> {
    if c >= |t| then None
    else if t[c] >= END_OF_CHAIN || t[c] == FREE then None
    else Some(t[c])
  }

  ghost predicate Distinct(cs: seq<nat>) {
    forall i, j :: 0 <= i < j < |cs| ==> cs[i] != cs[j]
  }

  ghost predicate Ascending(cs: seq<nat>) {
    forall i, j :: 0 <= i < j < |cs| ==> cs[i] < cs[j]
  }

  /** `cs` is a complete chain: in range, acyclic, linked in order, end-marked. */
  ghost predicate IsChain(t: Table, cs: seq<nat>) {
    && |cs| > 0
    && (forall i :: 0 <= i < |cs| ==> 2 <= cs[i] < |t|)
    && Distinct(cs)
    && (forall i :: 0 <= i < |cs| - 1 ==> t[cs[i]] == cs[i + 1])
    && t[cs[|cs| - 1]] >= END_OF_CHAIN
  }

  /** The table `t` with every cluster of `cs` freed. */
  ghost function Zeroed(t: Table, cs: seq<nat>): (r: Table)
    ensures |r| == |t|
  {
    seq(|t|, i requires 0 <= i < |t| => if i in cs then FREE else t[i])
  }

  /** `r` is `t` with the clusters of `cs` linked into one end-marked chain. */
  ghost predicate Linked(t: Table, cs: seq<nat>, r: Table) {
    && |r| == |t|
    && (forall i :: 0 <= i < |cs| ==> cs[i] < |t|)
    && (forall c :: 0 <= c < |t| && c !in cs ==> r[c] == t[c])
    && (forall i :: 0 <= i < |cs| - 1 ==> r[cs[i]] == cs[i + 1])
    && (cs != [] ==> r[cs[|cs| - 1]] == EOF)
  }

  // ---------------------------------------------------------------- free list

  /** The free clusters at or above `lo`, in ascending order. */
  ghost function FreeListFrom(t: Table, lo: nat): (r: seq<nat>)
    decreases |t| - lo
  {
    if lo >= |t| then []
    else (if t[lo] == FREE then [lo] else []) + FreeListFrom(t, lo + 1)
  }

  /** The allocatable clusters; clusters 0 and 1 are reserved by FAT. */
  ghost function FreeList(t: Table): (r: seq<nat>) {
    FreeListFrom(t, 2)
  }

  /** The free list is exact and strictly ascending. */
  lemma {:induction false} FreeListExact(t: Table, lo: nat)
    ensures forall c :: c in FreeListFrom(t, lo) <==> lo <= c < |t| && t[c] == FREE
    ensures Ascending(FreeListFrom(t, lo))
    decreases |t| - lo
  {
    if lo < |t| {
      FreeListExact(t, lo + 1);
      var rest := FreeListFrom(t, lo + 1);
      forall i | 0 <= i < |rest| ensures rest[i] > lo {
        assert rest[i] in rest;
      }
      assert t[lo] == FREE ==> FreeListFrom(t, lo) == [lo] + rest;
      assert t[lo] != FREE ==> FreeListFrom(t, lo) == rest;
    }
  }

  /** Occupying the lowest free cluster removes exactly the head of the list. */
  lemma {:induction false} FreeListPop(t: Table, lo: nat, w: Word)
    requires FreeListFrom(t, lo) != [] && w != FREE
    ensures FreeListFrom(t, lo)[0] < |t|
    ensures FreeListFrom(t[FreeListFrom(t, lo)[0] := w], lo) == FreeListFrom(t, lo)[1..]
    decreases |t| - lo
  {
    if t[lo] == FREE {
      FreeListSame(t, t[lo := w], lo + 1);
    } else {
      FreeListPop(t, lo + 1, w);
      assert FreeListFrom(t, lo) == FreeListFrom(t, lo + 1);
      FreeListExact(t, lo + 1);
      var f := FreeListFrom(t, lo + 1);
      assert f[0] in f;
    }
  }

  /** The free list depends only on which words are zero. */
  lemma {:induction false} FreeListSame(t: Table, u: Table, lo: nat)
    requires |t| == |u|
    requires forall c :: lo <= c < |t| ==> (t[c] == FREE <==> u[c] == FREE)
    ensures FreeListFrom(t, lo) == FreeListFrom(u, lo)
    decreases |t| - lo
  {
    if lo < |t| {
      FreeListSame(t, u, lo + 1);
    }
  }

  /** A cluster that is free while all lower ones are taken heads the list. */
  lemma {:induction false} FreeListHead(t: Table, lo: nat, c: nat)
    requires lo <= c <= |t|
    requires forall d :: lo <= d < c ==> t[d] != FREE
    ensures FreeListFrom(t, lo) == FreeListFrom(t, c)
    decreases c - lo
  {
    if lo < c {
      FreeListHead(t, lo + 1, c);
    }
  }

  // ------------------------------------------------------------ freeing chains

  /** The number of non-zero words: the variant of chain freeing. */
  ghost function NonZero(t: Table): nat {
    if t == [] then 0 else (if t[0] == FREE then 0 else 1) + NonZero(t[1..])
  }

  lemma {:induction false} NonZeroDrops(t: Table, c: nat)
    requires c < |t|
    ensures NonZero(t[c := FREE]) == NonZero(t) - (if t[c] == FREE then 0 else 1)
  {
    if c == 0 {
      assert t[0 := FREE][1..] == t[1..];
    } else {
      NonZeroDrops(t[1..], c - 1);
      assert t[c := FREE][1..] == t[1..][c - 1 := FREE];
    }
  }

  /** What freeing from `c` leaves, on any table, cyclic ones included. */
  ghost function FreeFrom(t: Table, c: nat): (r: (Table, bool))
    ensures |r.0| == |t|
    ensures forall i :: 0 <= i < |t| ==> r.0[i] == t[i] || r.0[i] == FREE
    decreases NonZero(t)
  {
    if c >= |t| then (t, false)
    else
      NonZeroDrops(t, c);
      match Next(t, c)
      case None => (t[c := FREE], true)
      case Some(n) => FreeFrom(t[c := FREE], n)
  }

  /** Freeing an acyclic chain zeroes exactly that chain. */
  lemma {:induction false} FreeFromChain(t: Table, cs: seq<nat>)
    requires Sized(t) && IsChain(t, cs)
    ensures FreeFrom(t, cs[0]) == (Zeroed(t, cs), true)
    decreases |cs|
  {
    var u := t[cs[0] := FREE];
    NonZeroDrops(t, cs[0]);
    if |cs| == 1 {
      assert u == Zeroed(t, cs);
    } else {
      var rest := cs[1..];
      assert t[cs[0]] == cs[1] && Next(t, cs[0]) == Some(rest[0]);
      assert IsChain(u, rest) by {
        assert forall i :: 0 <= i < |rest| ==> rest[i] == cs[i + 1] && rest[i] != cs[0];
      }
      FreeFromChain(u, rest);
      assert Zeroed(u, rest) == Zeroed(t, cs) by {
        assert forall i :: i in cs <==> i == cs[0] || i in rest;
      }
    }
  }

  /** Linking free clusters and zeroing them again is the identity. */
  lemma LinkedZeroed(t: Table, cs: seq<nat>, r: Table)
    requires Linked(t, cs, r)
    requires forall i :: 0 <= i < |cs| ==> t[cs[i]] == FREE
    ensures Zeroed(r, cs) == t
  {
    forall i | 0 <= i < |t| ensures Zeroed(r, cs)[i] == t[i] {
      if i in cs {
        var k :| 0 <= k < |cs| && cs[k] == i;
      }
    }
  }

  /** Freshly linked clusters form a chain. */
  lemma LinkedIsChain(t: Table, cs: seq<nat>, r: Table)
    requires Linked(t, cs, r) && cs != [] && Distinct(cs)
    requires forall i :: 0 <= i < |cs| ==> 2 <= cs[i]
    ensures IsChain(r, cs)
  {
  }

  /** Any prefix of the free list is distinct, free and allocatable. */
  lemma FreePrefix(t: Table, n: nat)
    requires n <= |FreeList(t)|
    ensures Distinct(FreeList(t)[..n])
    ensures forall i :: 0 <= i < n ==> 2 <= FreeList(t)[i] < |t| && t[FreeList(t)[i]] == FREE
    ensures forall c :: c in FreeList(t)[..n] ==> 2 <= c < |t| && t[c] == FREE
  {
    FreeListExact(t, 2);
    forall i | 0 <= i < n ensures 2 <= FreeList(t)[i] < |t| && t[FreeList(t)[i]] == FREE {
      assert FreeList(t)[i] in FreeList(t);
    }
  }

  /** Allocating and then freeing gives the table back word for word. */
  lemma AllocateThenFree(t: Table, n: nat, r: Table)
    requires Sized(t) && 0 < n <= |FreeList(t)|
    requires Linked(t, FreeList(t)[..n], r)
    ensures FreeFrom(r, FreeList(t)[0]) == (t, true)
  {
    var cs := FreeList(t)[..n];
    FreePrefix(t, n);
    LinkedIsChain(t, cs, r);
    FreeFromChain(r, cs);
    LinkedZeroed(t, cs, r);
  }

  /** Extending the linked prefix by the next free cluster. */
  lemma LinkedExtend(t: Table, cs: seq<nat>, c: nat, r: Table, r': Table)
    requires Linked(t, cs, r) && Distinct(cs + [c]) && c < |t| && c <= 0xFFFF_FFFF
    requires r' == (if cs == [] then r[c := EOF] else r[c := EOF][cs[|cs| - 1] := c])
    ensures Linked(t, cs + [c], r')
  {
    var ds := cs + [c];
    forall i | 0 <= i < |ds| - 1 ensures r'[ds[i]] == ds[i + 1] {
      assert ds[i] != ds[|ds| - 1];
      if i < |cs| - 1 {
        assert cs[i] != cs[|cs| - 1] by { assert ds[i] != ds[|cs| - 1]; }
      }
    }
    forall d | 0 <= d < |t| && d !in ds ensures r'[d] == t[d] {
      assert ds[|cs|] == c;
      assert cs != [] ==> ds[|cs| - 1] == cs[|cs| - 1];
      assert d !in cs;
    }
  }

  /** Allocation progress: the `k` lowest free clusters of `t0` are linked in `t`. */
  ghost predicate Allocated(t0: Table, k: nat, t: Table) {
    && k <= |FreeList(t0)|
    && FreeList(t) == FreeList(t0)[k..]
    && Linked(t0, FreeList(t0)[..k], t)
  }

  /** The table after linking `c` behind `prev`. */
  ghost function Appended(t: Table, prev: Option<nat>, c: nat): (r: Table)
    requires c < |t| && c <= 0xFFFF_FFFF && (prev.Some? ==> prev.value < |t|)
    ensures |r| == |t|
  {
    if prev.None? then t[c := EOF] else t[c := EOF][prev.value := c]
  }

  lemma AppendedFreeList(t: Table, prev: Option<nat>)
    requires Sized(t) && FreeList(t) != []
    requires FreeList(t)[0] < |t| && FreeList(t)[0] >= 2
    requires prev.Some? ==> prev.value < |t| && t[prev.value] != FREE && prev.value != FreeList(t)[0]
    ensures FreeList(Appended(t, prev, FreeList(t)[0])) == FreeList(t)[1..]
  {
    FreeListPop(t, 2, EOF);
    FreeListSame(t[FreeList(t)[0] := EOF], Appended(t, prev, FreeList(t)[0]), 2);
  }

  lemma AllocatedNone(t: Table)
    ensures Allocated(t, 0, t)
  {
  }

  lemma AllocatedStep(t0: Table, k: nat, t: Table, prev: Option<nat>)
    requires Sized(t0) && Allocated(t0, k, t) && k < |FreeList(t0)|
    requires prev == if k == 0 then None else Some(FreeList(t0)[k - 1])
    ensures FreeList(t0)[k] < |t| && (prev.Some? ==> prev.value < |t|)
    ensures Allocated(t0, k + 1, Appended(t, prev, FreeList(t0)[k]))
  {
    var f := FreeList(t0);
    FreePrefix(t0, k + 1);
    var ds := f[..k + 1];
    assert ds == f[..k] + [f[k]];
    assert f[k] == FreeList(t)[0];
    if k > 0 {
      assert t[f[..k][k - 1]] == EOF;
      assert ds[k - 1] != ds[k];
    }
    AppendedFreeList(t, prev);
    LinkedExtend(t0, f[..k], f[k], t, Appended(t, prev, f[k]));
  }

  /** Running out part-way: freeing what was linked restores the table. */
  lemma AllocatedRollback(t0: Table, k: nat, t: Table)
    requires Sized(t0) && Allocated(t0, k, t)
    ensures k == 0 ==> t == t0
    ensures k > 0 ==> FreeFrom(t, FreeList(t0)[0]) == (t0, true)
  {
    if k > 0 {
      AllocateThenFree(t0, k, t);
    } else {
      assert t == t0;
    }
  }

  // -------------------------------------------------------------- the buffer

  class FatBuffer {
    const words: array<Word>

    constructor (size: nat)
      ensures fresh(words) && words.Length == size && forall c :: 0 <= c < size ==> words[c] == FREE
    {
      words := new Word[size](_ => FREE);
    }

    method NextCluster(curr: nat) returns (r: Option<nat>)
      ensures r == Next(words[..], curr)
    {
      if curr >= words.Length {
        return None;
      }
      var next := words[curr];
      if next >= END_OF_CHAIN || next == FREE {
        return None;
      }
      return Some(next);
    }

    method Set(cluster: nat, value: Word) returns (ok: bool)
      modifies words
      ensures ok <==> cluster < words.Length
      ensures words[..] == if ok then old(words[..])[cluster := value] else old(words[..])
    {
      if cluster >= words.Length {
        return false;
      }
      words[cluster] := value;
      return true;
    }

    method FindFreeCluster() returns (r: Option<nat>)
      ensures r == if FreeList(words[..]) == [] then None else Some(FreeList(words[..])[0])
    {
      var cluster := 2;
      while cluster < words.Length
        invariant 2 <= cluster
        invariant cluster <= words.Length || words.Length < 2
        invariant FreeList(words[..]) == FreeListFrom(words[..], cluster)
      {
        if words[cluster] == FREE {
          return Some(cluster);
        }
        cluster := cluster + 1;
      }
      return None;
    }

    /** Terminates on every table: each step zeroes a word that was not zero. */
    method FreeChain(first: nat) returns (ok: bool)
      modifies words
      ensures (words[..], ok) == FreeFrom(old(words[..]), first)
    {
      var cluster: nat := first;
      while true
        invariant FreeFrom(words[..], cluster) == FreeFrom(old(words[..]), first)
        decreases NonZero(words[..])
      {
        if cluster >= words.Length {
          return false;
        }
        var next := NextCluster(cluster);
        NonZeroDrops(words[..], cluster);
        ghost var before := words[..];
        var done := Set(cluster, FREE);
        assert words[..] == before[cluster := FREE];
        match next
        case Some(n) => cluster := n;
        case None => return true;
      }
    }

    /**
      All or nothing: links the `count` lowest free clusters in ascending
      order, or leaves the table word for word as it was.
     */
    method AllocateChain(count: nat) returns (r: Option<nat>)
      requires Sized(words[..])
      modifies words
      ensures r.Some? <==> 0 < count <= |FreeList(old(words[..]))|
      ensures r.Some? ==> r.value == FreeList(old(words[..]))[0]
      ensures r.Some? ==> Linked(old(words[..]), FreeList(old(words[..]))[..count], words[..])
      ensures r.None? ==> words[..] == old(words[..])
    {
      hide FreeList, Linked;
      if count == 0 {
        return None;
      }
      ghost var t0 := words[..];
      ghost var free := FreeList(t0);
      AllocatedNone(t0);
      var firstCluster := 0;
      var prevCluster: Option<nat> := None;
      var k := 0;
      while k < count
        invariant 0 <= k <= count
        invariant words.Length == |t0| && Allocated(t0, k, words[..])
        invariant if k == 0 then prevCluster == None && firstCluster == 0
                  else prevCluster == Some(free[k - 1]) && firstCluster == free[0] && firstCluster >= 2
      {
        var found := FindFreeCluster();
        if found.None? {
          AllocatedRollback(t0, k, words[..]);
          if firstCluster != 0 {
            var freed := FreeChain(firstCluster);
          }
          return None;
        }
        var cluster := found.value;
        AllocatedStep(t0, k, words[..], prevCluster);
        FreePrefix(t0, k + 1);
        ghost var after := Appended(words[..], prevCluster, cluster);
        var marked := Set(cluster, EOF);
        if prevCluster.Some? {
          var linked := Set(prevCluster.value, cluster);
        } else {
          firstCluster := cluster;
        }
        assert words[..] == after;
        prevCluster := Some(cluster);
        k := k + 1;
      }
      return Some(firstCluster);
    }
  }
}
