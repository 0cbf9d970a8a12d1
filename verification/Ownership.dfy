/**
  Who owns which cluster: the table holds one end-marked chain per live file
  or directory, chains are pairwise disjoint, and every cluster that no chain
  uses is free.
 */
module Ownership {

  import opened Base
  import opened FatTable

  /** Chains by their first cluster. */
  type Chains = map<nat, seq<nat>>

  ghost predicate Used(chains: Chains, c: nat) {
    exists f :: f in chains && c in chains[f]
  }

  ghost predicate AreChains(t: Table, chains: Chains) {
    forall f :: f in chains ==> IsChain(t, chains[f]) && chains[f][0] == f
  }

  ghost predicate Disjoint(chains: Chains) {
    forall f, g, c :: f in chains && g in chains && c in chains[f] && c in chains[g] ==> f == g
  }

  /** Conservation: in use exactly when owned; `reserved` clusters stay put. */
  ghost predicate Conserved(t: Table, chains: Chains, reserved: set<nat>) {
    forall c :: 2 <= c < |t| ==>
      if c in reserved then t[c] != FREE && !Used(chains, c)
      else t[c] != FREE <==> Used(chains, c)
  }

  ghost predicate Owned(t: Table, chains: Chains, reserved: set<nat>) {
    && Sized(t)
    && AreChains(t, chains)
    && Disjoint(chains)
    && Conserved(t, chains, reserved)
  }

  lemma ChainInRange(t: Table, chains: Chains, f: nat)
    requires AreChains(t, chains) && f in chains
    ensures 2 <= f < |t| && chains[f] != []
    ensures forall c :: c in chains[f] ==> 2 <= c < |t| && t[c] != FREE
  {
    var cs := chains[f];
    forall c | c in cs ensures 2 <= c < |t| && t[c] != FREE {
      var i :| 0 <= i < |cs| && cs[i] == c;
      assert i < |cs| - 1 ==> t[cs[i]] == cs[i + 1];
    }
  }

  /** The clusters about to be allocated belong to nobody. */
  lemma FreshUnused(t: Table, chains: Chains, reserved: set<nat>, n: nat)
    requires Owned(t, chains, reserved) && n <= |FreeList(t)|
    ensures forall c :: c in FreeList(t)[..n] ==> 2 <= c < |t| && t[c] == FREE && !Used(chains, c) && c !in reserved
  {
    FreePrefix(t, n);
    forall c | c in FreeList(t)[..n]
      ensures 2 <= c < |t| && t[c] == FREE && !Used(chains, c) && c !in reserved
    {
      var i :| 0 <= i < n && FreeList(t)[..n][i] == c;
      assert FreeList(t)[i] == c;
    }
  }

  lemma UsedInRange(t: Table, chains: Chains)
    requires AreChains(t, chains)
    ensures forall c: nat :: Used(chains, c) ==> 2 <= c < |t| && t[c] != FREE
  {
    forall c: nat | Used(chains, c) ensures 2 <= c < |t| && t[c] != FREE {
      var f :| f in chains && c in chains[f];
      ChainInRange(t, chains, f);
    }
  }

  lemma ChainUnreserved(t: Table, chains: Chains, reserved: set<nat>, f: nat)
    requires Owned(t, chains, reserved) && f in chains
    ensures forall c :: c in chains[f] ==> c !in reserved
  {
    ChainInRange(t, chains, f);
    forall c | c in chains[f] ensures c !in reserved {
      assert Used(chains, c);
    }
  }

  lemma ElsewhereIsNotHere(chains: Chains, f: nat, c: nat)
    requires Disjoint(chains) && UsedElsewhere(chains, f, c)
    ensures f in chains ==> c !in chains[f]
  {
  }

  /** A chain survives any change of the table outside it. */
  lemma ChainFrame(t: Table, t': Table, cs: seq<nat>)
    requires IsChain(t, cs) && |t'| == |t|
    requires forall c :: c in cs ==> c < |t| && t'[c] == t[c]
    ensures IsChain(t', cs)
  {
    assert forall i :: 0 <= i < |cs| ==> cs[i] in cs;
  }

  /** Some chain other than `f`'s uses `c`. */
  ghost predicate UsedElsewhere(chains: Chains, f: nat, c: nat) {
    exists g :: g in chains && g != f && c in chains[g]
  }

  lemma UsedUpdate(chains: Chains, f: nat, cs: seq<nat>, c: nat)
    ensures Used(chains[f := cs], c) <==> c in cs || UsedElsewhere(chains, f, c)
  {
    var chains' := chains[f := cs];
    if c in cs {
      assert f in chains' && c in chains'[f];
    }
    if UsedElsewhere(chains, f, c) {
      var g :| g in chains && g != f && c in chains[g];
      assert g in chains' && c in chains'[g];
    }
  }

  lemma UsedSplit(chains: Chains, f: nat, c: nat)
    ensures Used(chains, c) <==> (f in chains && c in chains[f]) || UsedElsewhere(chains, f, c)
  {
    if Used(chains, c) {
      var g :| g in chains && c in chains[g];
    }
  }

  /** Only `f`'s chain changes, inside a region nobody else owns. */
  ghost predicate OnlyChain(t: Table, t': Table, chains: Chains, f: nat, cs: seq<nat>) {
    && |t'| == |t|
    && IsChain(t', cs) && cs[0] == f
    && (forall c: nat :: UsedElsewhere(chains, f, c) ==> c < |t| && t'[c] == t[c] && c !in cs)
  }

  lemma ReplaceAreChains(t: Table, t': Table, chains: Chains, f: nat, cs: seq<nat>)
    requires AreChains(t, chains) && OnlyChain(t, t', chains, f, cs)
    ensures AreChains(t', chains[f := cs])
  {
    hide IsChain;
    forall g | g in chains && g != f ensures IsChain(t', chains[g]) {
      forall c | c in chains[g] ensures c < |t| && t'[c] == t[c] {
        assert UsedElsewhere(chains, f, c);
      }
      ChainFrame(t, t', chains[g]);
    }
  }

  lemma ReplaceDisjoint(chains: Chains, f: nat, cs: seq<nat>)
    requires Disjoint(chains) && forall c: nat :: UsedElsewhere(chains, f, c) ==> c !in cs
    ensures Disjoint(chains[f := cs])
  {
    var chains' := chains[f := cs];
    forall g, h, c | g in chains' && h in chains' && c in chains'[g] && c in chains'[h] ensures g == h {
      if g != f {
        assert UsedElsewhere(chains, f, c);
      }
      if h != f {
        assert UsedElsewhere(chains, f, c);
      }
    }
  }

  lemma ReplaceChain(t: Table, t': Table, chains: Chains, f: nat, cs: seq<nat>, reserved: set<nat>)
    requires Owned(t, chains, reserved) && OnlyChain(t, t', chains, f, cs)
    requires forall c :: c in cs ==> c !in reserved
    requires forall c :: 2 <= c < |t| && c in reserved ==> t'[c] == t[c]
    requires forall c :: 2 <= c < |t| && c !in reserved ==>
               (t'[c] != FREE <==> c in cs || UsedElsewhere(chains, f, c))
    ensures Owned(t', chains[f := cs], reserved)
  {
    hide IsChain, UsedElsewhere, Used;
    ReplaceAreChains(t, t', chains, f, cs);
    ReplaceDisjoint(chains, f, cs);
    forall c | 2 <= c < |t'|
      ensures if c in reserved then t'[c] != FREE && !Used(chains[f := cs], c)
              else t'[c] != FREE <==> Used(chains[f := cs], c)
    {
      UsedUpdate(chains, f, cs, c);
      UsedSplit(chains, f, c);
    }
  }

  // ------------------------------------------------------------ table operations

  /** A freshly allocated chain joins the owned ones. */
  lemma OwnNewChain(t: Table, chains: Chains, reserved: set<nat>, n: nat, t': Table)
    requires Owned(t, chains, reserved) && 0 < n <= |FreeList(t)|
    requires Linked(t, FreeList(t)[..n], t')
    ensures FreeList(t)[0] !in chains
    ensures Owned(t', chains[FreeList(t)[0] := FreeList(t)[..n]], reserved)
  {
    hide FreeList, IsChain;
    var cs := FreeList(t)[..n];
    var f := cs[0];
    FreshUnused(t, chains, reserved, n);
    FreePrefix(t, n);
    LinkedIsChain(t, cs, t');
    assert f !in chains by {
      if f in chains { ChainInRange(t, chains, f); }
    }
    LinkedNonFree(t, cs, t');
    forall c: nat ensures UsedElsewhere(chains, f, c) <==> Used(chains, c) {
      UsedSplit(chains, f, c);
    }
    UsedInRange(t, chains);
    ReplaceChain(t, t', chains, f, cs, reserved);
  }

  lemma LinkedNonFree(t: Table, cs: seq<nat>, t': Table)
    requires Linked(t, cs, t') && forall i :: 0 <= i < |cs| ==> 2 <= cs[i]
    ensures forall c :: c in cs ==> c < |t'| && t'[c] != FREE
  {
    forall c | c in cs ensures c < |t'| && t'[c] != FREE {
      var i :| 0 <= i < |cs| && cs[i] == c;
      assert i < |cs| - 1 ==> t'[cs[i]] == cs[i + 1];
    }
  }

  /** The table after hanging the `n` lowest free clusters behind `last`. */
  ghost predicate Extended(t: Table, last: nat, n: nat, t': Table) {
    && 0 < n <= |FreeList(t)|
    && |t'| == |t|
    && last < |t| && last !in FreeList(t)[..n]
    && FreeList(t)[0] <= 0xFFFF_FFFF
    && t'[last] == FreeList(t)[0]
    && exists u :: Linked(t, FreeList(t)[..n], u) && t' == u[last := FreeList(t)[0]]
  }

  lemma ExtendedIsChain(t: Table, cs: seq<nat>, n: nat, t': Table)
    requires IsChain(t, cs) && Extended(t, cs[|cs| - 1], n, t')
    requires forall c :: c in cs ==> c !in FreeList(t)[..n]
    ensures IsChain(t', cs + FreeList(t)[..n])
    ensures forall c :: 0 <= c < |t| && c !in FreeList(t)[..n] && c != cs[|cs| - 1] ==> t'[c] == t[c]
    ensures forall c :: c in FreeList(t)[..n] ==> c < |t'| && t'[c] != FREE
  {
    var ds, last := FreeList(t)[..n], cs[|cs| - 1];
    var u :| Linked(t, ds, u) && t' == u[last := FreeList(t)[0]];
    FreePrefix(t, n);
    LinkedNonFree(t, ds, u);
    ChainJoin(t, cs, ds, u, t');
  }

  lemma ChainJoin(t: Table, cs: seq<nat>, ds: seq<nat>, u: Table, t': Table)
    requires IsChain(t, cs) && ds != [] && Distinct(ds) && Linked(t, ds, u)
    requires forall i :: 0 <= i < |ds| ==> 2 <= ds[i]
    requires forall c :: c in cs ==> c !in ds
    requires ds[0] <= 0xFFFF_FFFF && t' == u[cs[|cs| - 1] := ds[0]]
    ensures IsChain(t', cs + ds)
  {
    var all, last := cs + ds, cs[|cs| - 1];
    forall i, j | 0 <= i < j < |all| ensures all[i] != all[j] {
      if i < |cs| && |cs| <= j {
        assert cs[i] in cs && ds[j - |cs|] in ds;
      }
    }
    forall i | 0 <= i < |all| - 1 ensures t'[all[i]] == all[i + 1] {
      if i < |cs| - 1 {
        assert cs[i] in cs && cs[i] != last;
      } else if i >= |cs| {
        assert all[i] == ds[i - |cs|] && ds[i - |cs|] in ds && last in cs;
      }
    }
    assert t'[all[|all| - 1]] == EOF by {
      assert ds[|ds| - 1] in ds && last in cs;
    }
  }

  /** Extending a chain keeps ownership. */
  lemma OwnExtended(t: Table, chains: Chains, reserved: set<nat>, f: nat, n: nat, t': Table)
    requires Owned(t, chains, reserved) && f in chains && chains[f] != []
    requires Extended(t, chains[f][|chains[f]| - 1], n, t')
    ensures Owned(t', chains[f := chains[f] + FreeList(t)[..n]], reserved)
  {
    hide FreeList, IsChain, Extended, UsedElsewhere, Used;
    var cs := chains[f];
    ChainInRange(t, chains, f);
    ExtendedBound(t, cs[|cs| - 1], n, t');
    var ds := FreeList(t)[..n];
    FreshUnused(t, chains, reserved, n);
    ExtendedIsChain(t, cs, n, t');
    UsedInRange(t, chains);
    ChainUnreserved(t, chains, reserved, f);
    assert cs[|cs| - 1] in cs;
    forall c | 2 <= c < |t| && c !in reserved
      ensures t'[c] != FREE <==> c in cs + ds || UsedElsewhere(chains, f, c)
    {
      UsedSplit(chains, f, c);
    }
    forall c: nat | UsedElsewhere(chains, f, c) ensures c < |t| && t'[c] == t[c] && c !in cs + ds {
      UsedSplit(chains, f, c);
      ElsewhereIsNotHere(chains, f, c);
    }
    ReplaceChain(t, t', chains, f, cs + ds, reserved);
  }

  lemma ExtendedBound(t: Table, last: nat, n: nat, t': Table)
    requires Extended(t, last, n, t')
    ensures 0 < n <= |FreeList(t)| && |t'| == |t| && last < |t| && t'[last] == FreeList(t)[0] >= 2
  {
    FreePrefix(t, n);
  }

  /** Freeing a whole chain returns exactly its clusters. */
  lemma OwnFreed(t: Table, chains: Chains, reserved: set<nat>, f: nat)
    requires Owned(t, chains, reserved) && f in chains
    ensures Owned(Zeroed(t, chains[f]), chains - {f}, reserved)
  {
    hide IsChain, Used, UsedElsewhere;
    var cs := chains[f];
    var t', chains' := Zeroed(t, cs), chains - {f};
    ChainInRange(t, chains, f);
    ChainUnreserved(t, chains, reserved, f);
    forall g | g in chains' ensures IsChain(t', chains'[g]) {
      forall c | c in chains[g] ensures c < |t| && t'[c] == t[c] {
        ChainInRange(t, chains, g);
      }
      ChainFrame(t, t', chains[g]);
    }
    forall c: nat ensures Used(chains', c) <==> Used(chains, c) && c !in cs {
      UsedRemoved(chains, f, c);
    }
  }

  lemma UsedRemoved(chains: Chains, f: nat, c: nat)
    requires f in chains && Disjoint(chains)
    ensures Used(chains - {f}, c) <==> Used(chains, c) && c !in chains[f]
  {
    var chains' := chains - {f};
    if Used(chains, c) && c !in chains[f] {
      var g :| g in chains && c in chains[g];
      assert g in chains' && c in chains'[g];
    }
  }

  /** The table after cutting a chain behind its first `k` clusters. */
  ghost function Cut(t: Table, cs: seq<nat>, k: nat): (r: Table)
    requires IsChain(t, cs) && 0 < k <= |cs|
    ensures |r| == |t|
  {
    Zeroed(t[cs[k - 1] := EOF], cs[k..])
  }

  /** Marking the cut and freeing what follows it computes the cut. */
  lemma CutByFreeing(t: Table, cs: seq<nat>, k: nat)
    requires Sized(t) && IsChain(t, cs) && 0 < k <= |cs|
    ensures k < |cs| ==> FreeFrom(t[cs[k - 1] := EOF], cs[k]) == (Cut(t, cs, k), true)
    ensures k == |cs| ==> t[cs[k - 1] := EOF] == Cut(t, cs, k)
  {
    var u := t[cs[k - 1] := EOF];
    if k < |cs| {
      var rest := cs[k..];
      assert IsChain(u, rest) by {
        assert forall i :: 0 <= i < |rest| ==> rest[i] == cs[k + i] && rest[i] != cs[k - 1];
      }
      FreeFromChain(u, rest);
    }
  }

  lemma CutIsChain(t: Table, cs: seq<nat>, k: nat)
    requires IsChain(t, cs) && 0 < k <= |cs|
    ensures IsChain(Cut(t, cs, k), cs[..k])
    ensures forall c: nat :: c < |t| && c !in cs ==> Cut(t, cs, k)[c] == t[c]
    ensures forall c :: c in cs ==> c < |t| && (Cut(t, cs, k)[c] != FREE <==> c in cs[..k])
  {
    hide Cut;
    var r, ks := Cut(t, cs, k), cs[..k];
    CutOutside(t, cs, k);
    forall i | 0 <= i < k - 1 ensures r[ks[i]] == ks[i + 1] {
      CutAt(t, cs, k, i);
    }
    CutAt(t, cs, k, k - 1);
    forall c | c in cs ensures c < |t| && (r[c] != FREE <==> c in ks) {
      var i :| 0 <= i < |cs| && cs[i] == c;
      CutAt(t, cs, k, i);
    }
  }

  lemma CutOutside(t: Table, cs: seq<nat>, k: nat)
    requires IsChain(t, cs) && 0 < k <= |cs|
    ensures forall c: nat :: c < |t| && c !in cs ==> Cut(t, cs, k)[c] == t[c]
  {
    forall c: nat | c < |t| && c !in cs ensures Cut(t, cs, k)[c] == t[c] {
      assert cs[k - 1] in cs;
      assert c !in cs[k..];
    }
  }

  lemma CutAt(t: Table, cs: seq<nat>, k: nat, i: nat)
    requires IsChain(t, cs) && 0 < k <= |cs| && i < |cs|
    ensures i < k - 1 ==> Cut(t, cs, k)[cs[i]] == t[cs[i]] == cs[i + 1]
    ensures i == k - 1 ==> Cut(t, cs, k)[cs[i]] == EOF
    ensures i >= k ==> Cut(t, cs, k)[cs[i]] == FREE
    ensures cs[i] in cs[..k] <==> i < k
  {
    var rest := cs[k..];
    if i < k {
      assert cs[..k][i] == cs[i];
      assert cs[i] !in rest;
      assert i < k - 1 ==> cs[i] != cs[k - 1];
    } else {
      assert rest[i - k] == cs[i];
    }
  }

  /** Shrinking a chain keeps ownership. */
  lemma OwnCut(t: Table, chains: Chains, reserved: set<nat>, f: nat, k: nat)
    requires Owned(t, chains, reserved) && f in chains && 0 < k <= |chains[f]|
    ensures Owned(Cut(t, chains[f], k), chains[f := chains[f][..k]], reserved)
  {
    hide IsChain, Used, UsedElsewhere, Cut;
    var cs := chains[f];
    var t' := Cut(t, cs, k);
    CutIsChain(t, cs, k);
    ChainInRange(t, chains, f);
    ChainUnreserved(t, chains, reserved, f);
    UsedInRange(t, chains);
    forall c: nat | UsedElsewhere(chains, f, c) ensures c < |t| && t'[c] == t[c] && c !in cs[..k] {
      UsedSplit(chains, f, c);
      ElsewhereIsNotHere(chains, f, c);
    }
    forall c | 2 <= c < |t| && c !in reserved
      ensures t'[c] != FREE <==> c in cs[..k] || UsedElsewhere(chains, f, c)
    {
      UsedSplit(chains, f, c);
      assert c in cs[..k] ==> c in cs;
    }
    ReplaceChain(t, t', chains, f, cs[..k], reserved);
  }

  /**
    Undoing an extension: marking the old last cluster as the end again and
    freeing the new ones leaves every successor as it was, and every word
    except possibly the end marker itself.
   */
  lemma UndoExtended(t: Table, cs: seq<nat>, n: nat, t': Table)
    requires Sized(t) && IsChain(t, cs) && Extended(t, cs[|cs| - 1], n, t')
    requires forall c :: c in cs ==> c !in FreeList(t)[..n]
    ensures var last := cs[|cs| - 1];
            FreeFrom(t'[last := EOF], FreeList(t)[0]) == (t[last := EOF], true)
  {
    var ds, last := FreeList(t)[..n], cs[|cs| - 1];
    var u :| Linked(t, ds, u) && t' == u[last := FreeList(t)[0]];
    FreePrefix(t, n);
    var v := t'[last := EOF];
    assert last in cs;
    assert Linked(t[last := EOF], ds, v);
    LinkedIsChain(t[last := EOF], ds, v);
    FreeFromChain(v, ds);
    LinkedZeroed(t[last := EOF], ds, v);
  }

  // ------------------------------------------------------------------ counting

  ghost function UsedSet(chains: Chains): set<nat> {
    set f, c | f in chains && c in chains[f] :: c
  }

  /** The number of clusters in all chains together. */
  ghost function TotalLength(chains: Chains): nat
    decreases |chains|
  {
    if chains == map[] then 0
    else
      var f :| f in chains;
      ChainsShrink(chains, f);
      |chains[f]| + TotalLength(chains - {f})
  }

  lemma ChainsShrink(chains: Chains, f: nat)
    requires f in chains
    ensures |chains - {f}| == |chains| - 1
  {
    var rest := chains - {f};
    assert chains.Keys == rest.Keys + {f} && f !in rest.Keys;
    assert |rest.Keys| == |rest| && |chains.Keys| == |chains|;
  }

  ghost function Elements(cs: seq<nat>): set<nat> {
    set c | c in cs
  }

  lemma {:induction false} DistinctCount(cs: seq<nat>)
    requires Distinct(cs)
    ensures |Elements(cs)| == |cs|
  {
    if cs != [] {
      var front := cs[..|cs| - 1];
      DistinctCount(front);
      assert Elements(cs) == Elements(front) + {cs[|cs| - 1]};
      assert cs[|cs| - 1] !in front;
    }
  }

  /** Disjoint chains without repetition use as many clusters as their lengths add up to. */
  lemma {:induction false} UsedCount(chains: Chains)
    requires Disjoint(chains) && forall f :: f in chains ==> Distinct(chains[f])
    ensures |UsedSet(chains)| == TotalLength(chains)
    decreases |chains|
  {
    if chains != map[] {
      var f :| f in chains && TotalLength(chains) == |chains[f]| + TotalLength(chains - {f});
      var rest := chains - {f};
      ChainsShrink(chains, f);
      UsedCount(rest);
      DistinctCount(chains[f]);
      SplitCount(chains, f);
    }
  }

  lemma SplitCount(chains: Chains, f: nat)
    requires f in chains && Disjoint(chains)
    ensures |UsedSet(chains)| == |Elements(chains[f])| + |UsedSet(chains - {f})|
  {
    var rest := chains - {f};
    forall c | c in UsedSet(chains) ensures c in Elements(chains[f]) + UsedSet(rest) {
      var g :| g in chains && c in chains[g];
      if g != f {
        assert g in rest && c in rest[g];
      }
    }
    assert UsedSet(chains) == Elements(chains[f]) + UsedSet(rest);
    assert Elements(chains[f]) !! UsedSet(rest);
  }

  /** The clusters from `lo` on and below `hi`. */
  ghost function Between(lo: nat, hi: nat): (r: set<nat>)
    ensures forall c :: c in r <==> lo <= c < hi
    ensures |r| == if lo <= hi then hi - lo else 0
  {
    if lo >= hi then {} else Between(lo, hi - 1) + {hi - 1}
  }

  lemma FreeCount(t: Table)
    ensures |Elements(FreeList(t))| == |FreeList(t)|
    ensures forall c :: c in FreeList(t) <==> 2 <= c < |t| && t[c] == FREE
  {
    FreeListExact(t, 2);
    DistinctCount(FreeList(t));
  }

  /** Free, owned and reserved clusters add up to the whole table. */
  lemma ClustersAddUp(t: Table, chains: Chains, reserved: set<nat>)
    requires Owned(t, chains, reserved) && |t| >= 2
    ensures |FreeList(t)| + TotalLength(chains) + |reserved * Between(2, |t|)| == |t| - 2
  {
    hide FreeList, TotalLength, Owned, Elements, UsedSet, Between;
    ClustersSplit(t, chains, reserved);
    FreeCount(t);
    ChainsRepeatNothing(t, chains);
    UsedCount(chains);
    PartsAddUp(Between(2, |t|), Elements(FreeList(t)), UsedSet(chains), reserved * Between(2, |t|));
  }

  lemma PartsAddUp(all: set<nat>, a: set<nat>, b: set<nat>, c: set<nat>)
    requires all == a + b + c && a !! b && a !! c && b !! c
    ensures |all| == |a| + |b| + |c|
  {
    assert |a + b| == |a| + |b|;
  }

  lemma ClustersSplit(t: Table, chains: Chains, reserved: set<nat>)
    requires Owned(t, chains, reserved)
    ensures var free, used, held := Elements(FreeList(t)), UsedSet(chains), reserved * Between(2, |t|);
            && Between(2, |t|) == free + used + held
            && free !! used && free !! held && used !! held
            && Disjoint(chains) && AreChains(t, chains)
  {
    hide FreeList, IsChain, Used, UsedSet, Disjoint;
    var free, used, held := Elements(FreeList(t)), UsedSet(chains), reserved * Between(2, |t|);
    FreeCount(t);
    UsedInRange(t, chains);
    UsedIsSet(chains);
    forall c: nat ensures c in Between(2, |t|) <==> c in free + used + held {
      assert c in used <==> Used(chains, c);
    }
    forall c: nat ensures !(c in free && c in used) && !(c in free && c in held) && !(c in used && c in held) {
      assert c in used <==> Used(chains, c);
    }
  }

  lemma UsedIsSet(chains: Chains)
    ensures forall c: nat :: Used(chains, c) <==> c in UsedSet(chains)
  {
  }

  lemma ChainsRepeatNothing(t: Table, chains: Chains)
    requires AreChains(t, chains)
    ensures forall f :: f in chains ==> Distinct(chains[f])
  {
  }
}
