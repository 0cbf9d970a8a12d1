/**
  The directory tree a consistent volume stores, stated on the slot lists of
  its directories: every chain but the root's is held by exactly one live
  entry, every entry that names a cluster holds its chain, and holders lead
  up to the root.
 */
module Forest {

  import opened Base
  import opened Slots
  import opened ShortNames
  import opened DirectoryParser
  import opened DirectoryEdits
  import opened Ownership

  /** Directory and index of the entry that holds a chain. */
  datatype Place = Place(dir: nat, index: nat)

  /** Chains by first cluster, which of them are directories, and holders. */
  datatype Layout = Layout(root: nat, chains: Chains, dirs: set<nat>, holder: map<nat, Place>, rank: map<nat, nat>)

  /** The directory holding `d`; the root holds itself. */
  ghost function Parent(l: Layout, d: nat): nat {
    if d in l.holder then l.holder[d].dir else l.root
  }

  type View = map<nat, seq<Slot>>

  function ClustersFor(size: nat, clusterSize: nat): nat
    requires clusterSize > 0
  {
    if size == 0 then 0 else (size + clusterSize - 1) / clusterSize
  }

  /** The cluster whose chain an entry owns; dot entries own nothing. */
  function OwnedCluster(s: Slot): nat {
    if IsRegular(s) || (IsDirectory(s) && !IsDotName(Name(s))) then Cluster(s) else 0
  }

  /** A file's chain has exactly the clusters its size needs. */
  ghost predicate SizeOk(chains: Chains, clusterSize: nat, s: Slot)
    requires clusterSize > 0
  {
    IsRegular(s) ==>
      if Cluster(s) == 0 then Size(s) == 0
      else Size(s) > 0 && Cluster(s) in chains && |chains[Cluster(s)]| == ClustersFor(Size(s), clusterSize)
  }

  /** Where a directory entry leads; cluster 0 stands for the root. */
  function Leads(root: nat, s: Slot): nat {
    if Cluster(s) == 0 then root else Cluster(s)
  }

  /** Dot names are for the first two entries of a directory other than the root; they lead to it and its holder. */
  ghost predicate DotOk(l: Layout, p: Place, s: Slot) {
    IsDotName(Name(s)) ==>
      && IsDirectory(s) && p.dir != l.root
      && p.index == (if Name(s) == DotName(false) then 0 else 1)
      && Leads(l.root, s) == (if Name(s) == DotName(false) then p.dir else Parent(l, p.dir))
  }

  /** A live entry at `p` holds what it names. */
  ghost predicate EntryOk(l: Layout, clusterSize: nat, p: Place, s: Slot)
    requires clusterSize > 0
  {
    && (OwnedCluster(s) != 0 ==> OwnedCluster(s) in l.holder && l.holder[OwnedCluster(s)] == p)
    && (IsDirectory(s) && !IsDotName(Name(s)) ==> OwnedCluster(s) != 0)
    && SizeOk(l.chains, clusterSize, s)
    && DotOk(l, p, s)
  }

  ghost predicate EntriesOk(sl: View, l: Layout, clusterSize: nat)
    requires clusterSize > 0
  {
    forall d, i: nat :: d in sl && Live(sl[d], i) ==> EntryOk(l, clusterSize, Place(d, i), sl[d][i])
  }

  /** The chain of `f` is held by a live entry naming it, of the right kind. */
  ghost predicate Held(sl: View, l: Layout, f: nat)
    requires f in l.holder
  {
    var p := l.holder[f];
    && p.dir in sl && Live(sl[p.dir], p.index)
    && OwnedCluster(sl[p.dir][p.index]) == f
    && (f in l.dirs <==> IsDirectory(sl[p.dir][p.index]))
  }

  ghost predicate AllHeld(sl: View, l: Layout) {
    forall f :: f in l.holder ==> f != 0 && Held(sl, l, f)
  }

  /** The first two entries of a directory are its dot entries. */
  ghost predicate Dots(ss: seq<Slot>) {
    && Live(ss, 0) && Live(ss, 1)
    && IsDirectory(ss[0]) && Name(ss[0]) == DotName(false)
    && IsDirectory(ss[1]) && Name(ss[1]) == DotName(true)
  }

  ghost predicate DirOk(root: nat, sl: View, l: Layout, d: nat)
    requires d in sl && (d != root ==> d in l.holder)
  {
    && Shaped(sl[d])
    && (d != root ==>
          && d in l.rank && l.holder[d].dir in l.rank && l.rank[l.holder[d].dir] < l.rank[d]
          && Dots(sl[d]))
  }

  ghost predicate Keyed(root: nat, sl: View, l: Layout) {
    && l.root == root && root in l.dirs && sl.Keys == l.dirs
    && l.holder.Keys == l.chains.Keys - {root}
    && l.dirs <= l.chains.Keys && 0 !in l.chains
    && l.rank.Keys == l.dirs
  }

  ghost predicate Tree(root: nat, clusterSize: nat, sl: View, l: Layout) {
    && clusterSize > 0
    && Keyed(root, sl, l)
    && AllHeld(sl, l)
    && EntriesOk(sl, l, clusterSize)
    && forall d :: d in sl ==> DirOk(root, sl, l, d)
  }

  // -------------------------------------------------------- what the tree means

  /** Two live entries never name the same cluster. */
  lemma HolderUnique(root: nat, clusterSize: nat, sl: View, l: Layout, d: nat, i: nat, d': nat, i': nat)
    requires Tree(root, clusterSize, sl, l)
    requires d in sl && Live(sl[d], i) && d' in sl && Live(sl[d'], i')
    requires OwnedCluster(sl[d][i]) == OwnedCluster(sl[d'][i']) != 0
    ensures d == d' && i == i'
  {
    assert EntryOk(l, clusterSize, Place(d, i), sl[d][i]);
    assert EntryOk(l, clusterSize, Place(d', i'), sl[d'][i']);
  }

  /** Following holders up from `d`, at most `n` times. */
  ghost function Ancestor(l: Layout, d: nat, n: nat): nat
    decreases n
  {
    if n == 0 || d !in l.holder then d else Ancestor(l, l.holder[d].dir, n - 1)
  }

  lemma HolderAbove(root: nat, clusterSize: nat, sl: View, l: Layout, d: nat)
    requires Tree(root, clusterSize, sl, l) && d in sl
    ensures d in l.rank && (d == root <==> d !in l.holder)
    ensures d != root ==> l.holder[d].dir in sl && l.holder[d].dir in l.rank && l.rank[l.holder[d].dir] < l.rank[d]
  {
    hide Held, Shaped, Dots, EntriesOk;
    if d != root {
      assert DirOk(root, sl, l, d);
      HolderIsDir(sl, l, d);
    }
  }

  lemma HolderIsDir(sl: View, l: Layout, f: nat)
    requires f in l.holder && AllHeld(sl, l)
    ensures l.holder[f].dir in sl
  {
    assert Held(sl, l, f);
  }

  /** Nothing is detached: every directory leads up to the root. */
  lemma {:induction false} ReachesRoot(root: nat, clusterSize: nat, sl: View, l: Layout, d: nat, n: nat)
    requires Tree(root, clusterSize, sl, l) && d in sl && d in l.rank && l.rank[d] <= n
    ensures Ancestor(l, d, n) == root
    decreases n
  {
    hide Tree;
    HolderAbove(root, clusterSize, sl, l, d);
    if d != root {
      ReachesRoot(root, clusterSize, sl, l, l.holder[d].dir, n - 1);
    }
  }

  // ------------------------------------------------------------ editing one entry

  /** Replacing an entry by one with the same name and attributes. */
  lemma ReplacedLive(ss: seq<Slot>, i: nat, s: Slot, j: nat)
    requires Live(ss, i) && Name(s) == Name(ss[i]) && Attributes(s) == Attributes(ss[i])
    ensures End(ss[i := s]) == End(ss)
    ensures Live(ss[i := s], j) <==> Live(ss, j)
  {
    assert s[0] == Name(s)[0] && ss[i][0] == Name(ss[i])[0];
    EndUnique(ss[i := s], End(ss));
  }

  lemma ReplacedGroup(ss: seq<Slot>, i: nat, s: Slot, j: nat, k: nat)
    requires Live(ss, i) && Name(s) == Name(ss[i]) && Attributes(s) == Attributes(ss[i]) && j < |ss|
    ensures Group(ss[i := s], j, k) <==> Group(ss, j, k)
    ensures Group(ss, j, k) ==> !(j - k <= i < j)
  {
    var r := ss[i := s];
    assert Barrier(ss[i]) && Barrier(r[i]);
    assert Name(r[j]) == Name(ss[j]);
    if i < j {
      if Group(ss, j, k) {
        GroupBarrier(ss, j, k, i);
      }
      if Group(r, j, k) {
        GroupBarrier(r, j, k, i);
        assert forall q :: j - k <= q < j ==> ss[q] == r[q];
      }
    } else {
      assert forall q :: 0 <= q < j ==> ss[q] == r[q];
    }
  }

  /** The new entry keeps its name; every other entry is as it was. */
  lemma ReplacedEntry(ss: seq<Slot>, i: nat, s: Slot, j: nat)
    requires Live(ss, i) && Name(s) == Name(ss[i]) && Attributes(s) == Attributes(ss[i]) && j < |ss|
    ensures EntryAt(ss[i := s], j) == EntryAt(ss, j).(slot := if j == i then s else ss[j])
  {
    hide Group;
    var r := ss[i := s];
    var k := GroupSize(ss, j);
    if k > 0 {
      ReplacedGroup(ss, i, s, j, k);
      GroupUnique(r, j, k);
      GroupBound(ss, j, k);
      JoinedLocal(ss, r, j, k);
    } else if GroupSize(r, j) > 0 {
      ReplacedGroup(ss, i, s, j, GroupSize(r, j));
    }
    assert Name(r[j]) == Name(ss[j]);
  }

  lemma GroupBound(ss: seq<Slot>, j: nat, k: nat)
    requires Group(ss, j, k)
    ensures k <= j
  {
  }

  lemma ReplacedShape(ss: seq<Slot>, i: nat, s: Slot)
    requires Live(ss, i) && Name(s) == Name(ss[i]) && Attributes(s) == Attributes(ss[i])
    requires Shaped(ss)
    ensures Shaped(ss[i := s])
  {
    hide EntryAt;
    var r := ss[i := s];
    ReplacedLive(ss, i, s, 0);
    forall q | 0 <= q < End(r) && !Barrier(r[q]) ensures exists j :: OwnsLong(r, j, q) {
      assert q != i;
      var j :| OwnsLong(ss, j, q);
      ReplacedLive(ss, i, s, j);
      ReplacedEntry(ss, i, s, j);
      assert OwnsLong(r, j, q);
    }
  }
}
