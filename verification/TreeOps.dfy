/** The driver's operations as edits of the tree. */
module TreeOps {

  import opened Base
  import opened Slots
  import opened ShortNames
  import opened DirectoryParser
  import opened DirectoryEdits
  import opened Ownership
  import opened Forest
  import opened TreeEdits

  // -------------------------------------------------------------------- resize

  ghost function WithSlot(ss: seq<Slot>, i: nat, s: Slot): (r: seq<Slot>)
    requires i < |ss|
    ensures |r| == |ss|
  {
    ss[i := s]
  }

  ghost function Resized(l: Layout, d: nat, i: nat, f: nat, f': nat, chains: Chains): Layout {
    l.(chains := chains,
       holder := if f' == 0 then l.holder - {f} else (l.holder - {f})[f' := Place(d, i)])
  }

  /** The file entry `was`, owning `f`, becomes `s`, owning `f'`, over `chains`. */
  ghost predicate Resizes(l: Layout, clusterSize: nat, was: Slot, f: nat, s: Slot, f': nat, chains: Chains) {
    && clusterSize > 0
    && IsRegular(was) && Cluster(was) == f && Cluster(s) == f'
    && Name(s) == Name(was) && Attributes(s) == Attributes(was)
    && (f' == 0 || f' == f || f' !in l.chains)
    && chains.Keys == l.chains.Keys - {f} + (if f' == 0 then {} else {f'})
    && (forall g :: g in chains && g != f' ==> chains[g] == l.chains[g])
    && SizeOk(chains, clusterSize, s)
  }

  /** Truncation: one file entry changes size and possibly first cluster. */
  lemma ResizeKeepsTree(root: nat, clusterSize: nat, sl: View, l: Layout, d: nat, i: nat, f: nat, s: Slot, f': nat,
                        chains: Chains, ss': seq<Slot>)
    requires d in sl && Live(sl[d], i) && Resizes(l, clusterSize, sl[d][i], f, s, f', chains)
    requires ss' == WithSlot(sl[d], i, s)
    requires Tree(root, clusterSize, sl, l)
    ensures Tree(root, clusterSize, sl[d := ss'], Resized(l, d, i, f, f', chains))
  {
    hide Tree, Edit, Shaped, Dots, SizeOk, Cluster, Size, Live, EntryOk, Resized, Keyed, Ranked, IsRegular, IsDirectory;
    var sl', l' := sl[d := ss'], Resized(l, d, i, f, f', chains);
    ResizeIsEdit(root, clusterSize, sl, l, d, i, f, s, f', chains, ss', sl', l');
    ShapedIn(root, clusterSize, sl, l, d);
    ReplacedShape(sl[d], i, s);
    FilesAreNotDots(root, clusterSize, sl, l, d, i);
    EditKeepsTree(root, clusterSize, sl, l, sl', l', d, i, f, f');
  }

  lemma ResizeIsEdit(root: nat, clusterSize: nat, sl: View, l: Layout, d: nat, i: nat, f: nat, s: Slot, f': nat,
                     chains: Chains, ss': seq<Slot>, sl': View, l': Layout)
    requires d in sl && Live(sl[d], i) && Resizes(l, clusterSize, sl[d][i], f, s, f', chains)
    requires ss' == WithSlot(sl[d], i, s) && sl' == sl[d := ss'] && l' == Resized(l, d, i, f, f', chains)
    requires Tree(root, clusterSize, sl, l)
    ensures !IsDirectory(sl[d][i])
    ensures Edit(sl, l, sl', l', d, i, f, f')
    ensures Keyed(root, sl', l') && Ranked(l, l', d, f') && f' !in sl'
    ensures EntryOk(l', clusterSize, Place(d, i), s)
  {
    hide DirOk, Cluster, Size, Live, EntriesOk, AllHeld, IsNormal, SizeOk, SameLive, EditSlots, EditLayout, WithSlot,
      EntryOk, Resized;
    var ss := sl[d];
    SameKind(ss[i], s);
    RegularHolds(root, clusterSize, sl, l, d, i);
    ReplacedSameLive(ss, i, s);
    ResizeSlots(sl, sl', d, i, f, s, f', ss');
    ResizeLayout(root, l, d, i, f, f', chains);
    ResizeKeyed(root, clusterSize, sl, l, d, i, f, s, f', chains, sl', l');
  }

  lemma ResizeKeyed(root: nat, clusterSize: nat, sl: View, l: Layout, d: nat, i: nat, f: nat, s: Slot, f': nat,
                    chains: Chains, sl': View, l': Layout)
    requires clusterSize > 0 && IsRegular(s) && Cluster(s) == f' && SizeOk(chains, clusterSize, s)
             && !IsDotName(Name(s))
    requires d in sl && Keyed(root, sl, l) && f != root && f !in sl
    requires f' == 0 || f' == f || f' !in l.chains
    requires chains.Keys == l.chains.Keys - {f} + (if f' == 0 then {} else {f'})
    requires sl'.Keys == sl.Keys && l' == Resized(l, d, i, f, f', chains)
    ensures Keyed(root, sl', l') && Ranked(l, l', d, f') && f' !in sl'
    ensures EntryOk(l', clusterSize, Place(d, i), s)
    ensures l'.dirs == l.dirs
  {
    hide SizeOk, Cluster, IsNormal;
  }

  lemma ResizeSlots(sl: View, sl': View, d: nat, i: nat, f: nat, s: Slot, f': nat, ss': seq<Slot>)
    requires d in sl && Live(sl[d], i) && d != f && f' !in sl && f !in sl
    requires ss' == WithSlot(sl[d], i, s) && sl' == sl[d := ss']
    requires SameLive(sl[d], ss', i) && Live(ss', i)
    requires OwnedCluster(sl[d][i]) == f && OwnedCluster(s) == f'
    ensures EditSlots(sl, sl', d, i, f, f') && sl'[d] == ss' && ss'[i] == s
  {
    hide Live, SameLive, OwnedCluster;
  }

  lemma ResizeLayout(root: nat, l: Layout, d: nat, i: nat, f: nat, f': nat, chains: Chains)
    requires l.holder.Keys == l.chains.Keys - {root}
    requires f' == 0 || f' == f || f' !in l.chains
    requires chains.Keys == l.chains.Keys - {f} + (if f' == 0 then {} else {f'})
    requires forall g :: g in chains && g != f' ==> chains[g] == l.chains[g]
    ensures EditLayout(l, Resized(l, d, i, f, f', chains), d, i, f, f')
  {
  }

  lemma ReplacedSameLive(ss: seq<Slot>, i: nat, s: Slot)
    requires Live(ss, i) && Name(s) == Name(ss[i]) && Attributes(s) == Attributes(ss[i])
    ensures SameLive(ss, WithSlot(ss, i, s), i) && Live(WithSlot(ss, i, s), i)
  {
    hide Live;
    forall j: nat | true ensures Live(WithSlot(ss, i, s), j) <==> Live(ss, j) {
      ReplacedLive(ss, i, s, j);
    }
  }

  lemma SameKind(a: Slot, s: Slot)
    requires Name(s) == Name(a) && Attributes(s) == Attributes(a)
    ensures IsRegular(s) == IsRegular(a) && IsDirectory(s) == IsDirectory(a) && IsShortEntry(s) == IsShortEntry(a)
  {
    assert s[0] == Name(s)[0] && a[0] == Name(a)[0];
  }

  /** What a live file entry says about its chain. */
  lemma RegularHolds(root: nat, clusterSize: nat, sl: View, l: Layout, d: nat, i: nat)
    requires Tree(root, clusterSize, sl, l) && d in sl && Live(sl[d], i) && IsRegular(sl[d][i])
    ensures SizeOk(l.chains, clusterSize, sl[d][i])
    ensures var f := Cluster(sl[d][i]);
            f != 0 ==>
              && f in l.holder && l.holder[f] == Place(d, i)
              && f in l.chains && f != root && f !in l.dirs && f !in sl
    ensures !IsDotName(Name(sl[d][i]))
  {
    hide Shaped, Dots, DirOk;
    assert EntryOk(l, clusterSize, Place(d, i), sl[d][i]);
    var f := Cluster(sl[d][i]);
    if f != 0 {
      assert Held(sl, l, f);
    }
  }

  lemma ShapedIn(root: nat, clusterSize: nat, sl: View, l: Layout, d: nat)
    requires Tree(root, clusterSize, sl, l) && d in sl
    ensures Shaped(sl[d])
  {
    hide Shaped, Dots, AllHeld, EntriesOk;
    assert DirOk(root, sl, l, d);
  }

  /** Entries that own something sit behind the two dot entries. */
  lemma FilesAreNotDots(root: nat, clusterSize: nat, sl: View, l: Layout, d: nat, i: nat)
    requires Tree(root, clusterSize, sl, l) && d in sl && Live(sl[d], i)
    requires !(IsDirectory(sl[d][i]) && IsDotName(Name(sl[d][i])))
    ensures d != root ==> i > 1
  {
    hide Shaped, AllHeld, EntriesOk, Live, IsDirectory, Dots, IsDotName, Name;
    if d != root {
      assert DirOk(root, sl, l, d);
      DotsComeFirst(sl[d], i);
    }
  }

  lemma DotsComeFirst(ss: seq<Slot>, i: nat)
    requires Dots(ss) && Live(ss, i) && !(IsDirectory(ss[i]) && IsDotName(Name(ss[i])))
    ensures i > 1
  {
    hide Live, IsDirectory, Name;
  }

  // -------------------------------------------------------------------- insert

  /** A well-shaped directory gains exactly the live entry `x`. */
  ghost predicate Gains(ss: seq<Slot>, ss': seq<Slot>, x: nat) {
    && Shaped(ss')
    && SameLive(ss, ss', x)
    && !Live(ss, x) && Live(ss', x)
  }

  lemma InsertedGains(ss: seq<Slot>, a: nat, run: seq<Slot>, ss': seq<Slot>, name: string, x: nat)
    requires run != [] && x == a + |run| - 1
    requires Inserted(ss, a, run, ss') && IsRun(run, name) && Shaped(ss)
    ensures Gains(ss, ss', x) && ss'[x] == run[|run| - 1]
  {
    hide Shaped, IsRun, Live, Inserted;
    forall j: nat | true
      ensures j != x ==> (Live(ss', j) <==> Live(ss, j)) && (Live(ss, j) ==> ss'[j] == ss[j])
    {
      InsertionLive(ss, a, run, ss', name, j);
    }
    InsertionLive(ss, a, run, ss', name, x);
    InsertedLast(ss, a, run, ss');
    InsertionKeepsShape(ss, a, run, ss', name);
  }

  lemma InsertedLast(ss: seq<Slot>, a: nat, run: seq<Slot>, ss': seq<Slot>)
    requires Inserted(ss, a, run, ss') && run != []
    ensures ss'[a + |run| - 1] == run[|run| - 1]
  {
    assert ss'[a + (|run| - 1)] == run[|run| - 1];
  }

  /** A new empty file. */
  lemma InsertFileKeepsTree(root: nat, clusterSize: nat, sl: View, l: Layout, d: nat, x: nat, ss': seq<Slot>)
    requires d in sl && Gains(sl[d], ss', x)
    requires IsRegular(ss'[x]) && Cluster(ss'[x]) == 0 && Size(ss'[x]) == 0 && !IsDotName(Name(ss'[x]))
    requires Tree(root, clusterSize, sl, l)
    ensures Tree(root, clusterSize, sl[d := ss'], l)
  {
    hide Shaped, Dots, DirOk, Cluster, Size, Live, EntriesOk, SameLive, AllHeld;
    var sl' := sl[d := ss'];
    assert l.holder - {0} == l.holder;
    assert Edit(sl, l, sl', l, d, x, 0, 0);
    EditKeepsTree(root, clusterSize, sl, l, sl', l, d, x, 0, 0);
  }

  ghost function WithDirectory(l: Layout, d: nat, x: nat, n: nat): Layout {
    Layout(l.root, l.chains[n := [n]], l.dirs + {n}, l.holder[n := Place(d, x)],
           l.rank[n := if d in l.rank then l.rank[d] + 1 else 0])
  }

  /** `s` is an entry for the new directory `n`, whose slots are `ns`. */
  ghost predicate NewDirectory(root: nat, l: Layout, d: nat, s: Slot, n: nat, ns: seq<Slot>) {
    && IsDirectory(s) && !IsDotName(Name(s)) && Cluster(s) == n
    && n !in l.chains && n != 0
    && Shaped(ns) && Dots(ns)
    && Leads(root, ns[0]) == n && Leads(root, ns[1]) == d
    && (forall i: nat :: Live(ns, i) ==> i < 2)
  }

  /** A new empty directory `n`. */
  lemma InsertDirectoryKeepsTree(root: nat, clusterSize: nat, sl: View, l: Layout, d: nat, x: nat, ss': seq<Slot>,
                                 n: nat, ns: seq<Slot>)
    requires d in sl && Gains(sl[d], ss', x)
    requires NewDirectory(root, l, d, ss'[x], n, ns)
    requires Tree(root, clusterSize, sl, l)
    ensures Tree(root, clusterSize, sl[d := ss'][n := ns], WithDirectory(l, d, x, n))
  {
    hide Tree, Edit, Keyed, Ranked, Shaped, Dots, Cluster, Live, SameLive, WithDirectory, EntryOk, IsDirectory, Leads;
    var sl', l' := sl[d := ss'][n := ns], WithDirectory(l, d, x, n);
    InsertDirectoryIsEdit(root, clusterSize, sl, l, d, x, ss', n, ns, sl', l');
    RootOf(root, clusterSize, sl, l);
    forall i: nat | Live(ns, i) ensures EntryOk(l', clusterSize, Place(n, i), ns[i]) {
      NewDirectoryEntries(root, clusterSize, l, d, x, ss'[x], n, ns, i);
    }
    EditKeepsTree(root, clusterSize, sl, l, sl', l', d, x, 0, n);
  }

  lemma InsertDirectoryIsEdit(root: nat, clusterSize: nat, sl: View, l: Layout, d: nat, x: nat, ss': seq<Slot>, n: nat,
                              ns: seq<Slot>, sl': View, l': Layout)
    requires d in sl && SameLive(sl[d], ss', x) && !Live(sl[d], x) && Live(ss', x)
    requires NewDirectory(root, l, d, ss'[x], n, ns)
    requires sl' == sl[d := ss'][n := ns] && l' == WithDirectory(l, d, x, n)
    requires Tree(root, clusterSize, sl, l)
    ensures Edit(sl, l, sl', l', d, x, 0, n)
    ensures Keyed(root, sl', l') && Ranked(l, l', d, n)
    ensures n !in sl && d != n
    ensures EntryOk(l', clusterSize, Place(d, x), ss'[x])
  {
    hide DirOk, Cluster, Size, Live, EntriesOk, SameLive, AllHeld, Shaped, IsNormal, EditLayout, EditSlots, Leads, Dots;
    InsertDirectorySlots(sl, sl', d, x, ss', n, ns);
    InsertDirectoryLayout(root, l, d, x, n);
  }

  lemma RootOf(root: nat, clusterSize: nat, sl: View, l: Layout)
    requires Tree(root, clusterSize, sl, l)
    ensures l.root == root && root in l.chains && clusterSize > 0
  {
  }

  lemma NewDirectoryEntries(root: nat, clusterSize: nat, l: Layout, d: nat, x: nat, s: Slot, n: nat, ns: seq<Slot>,
                            i: nat)
    requires NewDirectory(root, l, d, s, n, ns) && l.root == root && root in l.chains && clusterSize > 0 && Live(ns, i)
    ensures EntryOk(WithDirectory(l, d, x, n), clusterSize, Place(n, i), ns[i])
  {
    hide Live, Shaped, Leads, Name, Cluster;
    assert i == 0 || i == 1;
    assert DotName(true)[1] != DotName(false)[1];
  }

  lemma InsertDirectorySlots(sl: View, sl': View, d: nat, x: nat, ss': seq<Slot>, n: nat, ns: seq<Slot>)
    requires d in sl && SameLive(sl[d], ss', x) && !Live(sl[d], x) && Live(ss', x)
    requires OwnedCluster(ss'[x]) == n && n !in sl && n != 0 && d != 0 && 0 !in sl
    requires sl' == sl[d := ss'][n := ns]
    ensures EditSlots(sl, sl', d, x, 0, n)
  {
    hide Live, SameLive, OwnedCluster;
  }

  lemma InsertDirectoryLayout(root: nat, l: Layout, d: nat, x: nat, n: nat)
    requires l.holder.Keys == l.chains.Keys - {root} && n !in l.chains && n != 0 && 0 !in l.chains
    ensures EditLayout(l, WithDirectory(l, d, x, n), d, x, 0, n)
  {
    assert l.holder - {0} == l.holder;
  }

  // -------------------------------------------------------------------- delete

  ghost function Without(l: Layout, f: nat): Layout {
    Layout(l.root, l.chains - {f}, l.dirs - {f}, l.holder - {f}, l.rank - {f})
  }

  /** The entry `s`, owning `f`, may be removed. */
  ghost predicate Removable(sl: View, s: Slot, f: nat) {
    && (IsRegular(s) || IsDirectory(s))
    && !(IsDirectory(s) && IsDotName(Name(s)))
    && Cluster(s) == f
    && (f in sl ==> Empty(sl[f]))
  }

  /** Removing a file, or a directory that holds nothing. */
  lemma DeleteKeepsTree(root: nat, clusterSize: nat, sl: View, l: Layout, d: nat, i: nat, f: nat)
    requires d in sl && Live(sl[d], i) && Removable(sl, sl[d][i], f)
    requires Tree(root, clusterSize, sl, l)
    ensures f != d
    ensures Tree(root, clusterSize, sl[d := Deleted(sl[d], i)] - {f}, Without(l, f))
  {
    hide Tree, Edit, Keyed, Ranked, Shaped, Dots, Cluster, Live, SameLive, Deleted, IsDirectory, IsRegular, Without,
      EntryOk, Empty;
    FilesAreNotDots(root, clusterSize, sl, l, d, i);
    ShapedIn(root, clusterSize, sl, l, d);
    DeletionKeepsShape(sl[d], i);
    DeletedSameLive(sl[d], i);
    var sl', l' := sl[d := Deleted(sl[d], i)] - {f}, Without(l, f);
    DeleteIsEdit(root, clusterSize, sl, l, d, i, f, Deleted(sl[d], i), sl', l');
    EditKeepsTree(root, clusterSize, sl, l, sl', l', d, i, f, 0);
  }

  lemma DeleteIsEdit(root: nat, clusterSize: nat, sl: View, l: Layout, d: nat, i: nat, f: nat, ss': seq<Slot>,
                     sl': View, l': Layout)
    requires d in sl && Live(sl[d], i) && Removable(sl, sl[d][i], f)
    requires SameLive(sl[d], ss', i) && !Live(ss', i)
    requires sl' == sl[d := ss'] - {f} && l' == Without(l, f)
    requires Tree(root, clusterSize, sl, l)
    ensures f != d && d in sl' && 0 !in sl' && sl'[d] == ss'
    ensures Edit(sl, l, sl', l', d, i, f, 0)
    ensures Keyed(root, sl', l') && Ranked(l, l', d, 0)
  {
    hide Cluster, Live, SameLive, IsDirectory, IsRegular, Empty, DirOk, EntriesOk, AllHeld, EditSlots, EditLayout;
    OwnerHolds(root, clusterSize, sl, l, d, i);
    if f in sl {
      EmptyHoldsNothing(root, clusterSize, sl, l, f);
    }
    DeleteSlots(sl, sl', d, i, f, ss');
    DeleteLayout(root, l, d, i, f);
  }

  lemma DeleteSlots(sl: View, sl': View, d: nat, i: nat, f: nat, ss': seq<Slot>)
    requires d in sl && d != f && 0 !in sl
    requires SameLive(sl[d], ss', i) && OwnedAt(sl[d], i) == f && !Live(ss', i)
    requires sl' == sl[d := ss'] - {f}
    ensures EditSlots(sl, sl', d, i, f, 0)
  {
    hide Live, SameLive, OwnedCluster;
  }

  lemma DeleteLayout(root: nat, l: Layout, d: nat, i: nat, f: nat)
    requires l.holder.Keys == l.chains.Keys - {root}
    ensures EditLayout(l, Without(l, f), d, i, f, 0)
  {
  }

  lemma DeletedSameLive(ss: seq<Slot>, i: nat)
    requires Live(ss, i)
    ensures SameLive(ss, Deleted(ss, i), i) && !Live(Deleted(ss, i), i)
  {
    hide Live, Deleted;
    forall j: nat | true
      ensures Live(Deleted(ss, i), j) <==> Live(ss, j) && j != i
      ensures Live(ss, j) && j != i ==> Deleted(ss, i)[j] == ss[j]
    {
      DeletionLive(ss, i, j);
    }
  }

  lemma OwnerHolds(root: nat, clusterSize: nat, sl: View, l: Layout, d: nat, i: nat)
    requires Tree(root, clusterSize, sl, l) && d in sl && Live(sl[d], i)
    requires !(IsDirectory(sl[d][i]) && IsDotName(Name(sl[d][i])))
    requires IsRegular(sl[d][i]) || IsDirectory(sl[d][i])
    ensures var f := Cluster(sl[d][i]);
            && OwnedAt(sl[d], i) == f
            && (f != 0 ==> f in l.holder && l.holder[f] == Place(d, i) && (f in l.dirs <==> IsDirectory(sl[d][i])))
            && (f != 0 && f in sl && f != root ==> l.holder[f].dir != f)
            && f != root && f != d
  {
    hide Shaped, Dots, Live, IsDirectory, IsRegular;
    assert EntryOk(l, clusterSize, Place(d, i), sl[d][i]);
    var f := Cluster(sl[d][i]);
    if f != 0 {
      assert Held(sl, l, f);
      if f in sl {
        HolderAbove(root, clusterSize, sl, l, f);
      }
    }
  }

  lemma EmptyHoldsNothing(root: nat, clusterSize: nat, sl: View, l: Layout, f: nat)
    requires Tree(root, clusterSize, sl, l) && f in sl && Empty(sl[f])
    ensures forall g :: g in l.holder ==> l.holder[g].dir != f
  {
    hide Shaped, Dots, Live, IsNormal, DirOk, EntriesOk;
    forall g | g in l.holder ensures l.holder[g].dir != f {
      assert Held(sl, l, g);
    }
  }

  // -------------------------------------------------------------------- extend

  ghost predicate AllEnd(z: seq<Slot>) {
    forall i :: 0 <= i < |z| ==> IsEnd(z[i])
  }

  lemma ExtendedSlots(ss: seq<Slot>, z: seq<Slot>)
    requires AllEnd(z) && Shaped(ss)
    ensures End(ss + z) == End(ss)
    ensures forall j: nat :: (Live(ss + z, j) <==> Live(ss, j)) && (Live(ss, j) ==> (ss + z)[j] == ss[j])
    ensures Shaped(ss + z)
  {
    var r := ss + z;
    EndUnique(r, End(ss));
    if z == [] {
      assert r == ss;
    } else {
      forall q | 0 <= q < End(r) && !Barrier(r[q]) ensures exists j :: OwnsLong(r, j, q) {
        assert r[q] == ss[q];
        var j :| OwnsLong(ss, j, q);
        EntryLocal(ss, r, |ss|, |r|, j);
        assert OwnsLong(r, j, q);
      }
    }
  }

  /** Appending cleared clusters to a directory. */
  lemma ExtendKeepsTree(root: nat, clusterSize: nat, sl: View, l: Layout, d: nat, z: seq<Slot>, cs: seq<nat>)
    requires Tree(root, clusterSize, sl, l) && d in sl && AllEnd(z)
    ensures Tree(root, clusterSize, sl[d := sl[d] + z], l.(chains := l.chains[d := cs]))
  {
    hide Held, EntryOk, DirOk, Live, Shaped, AllEnd, AllHeld, EntriesOk;
    ShapedIn(root, clusterSize, sl, l, d);
    ExtendedSlots(sl[d], z);
    var sl', l' := sl[d := sl[d] + z], l.(chains := l.chains[d := cs]);
    forall f | f in l'.holder ensures f != 0 && Held(sl', l', f) {
      ExtendHeld(sl, l, d, sl', l', f);
    }
    forall e, i: nat | e in sl' && Live(sl'[e], i) ensures EntryOk(l', clusterSize, Place(e, i), sl'[e][i]) {
      assert Live(sl[e], i) && sl'[e][i] == sl[e][i];
      ExtendEntry(root, clusterSize, sl, l, d, cs, e, i);
    }
    forall e | e in sl' ensures DirOk(root, sl', l', e) {
      ExtendDir(root, sl, l, d, sl', l', e);
    }
    TreeFromParts(root, clusterSize, sl', l');
  }

  lemma TreeFromParts(root: nat, clusterSize: nat, sl: View, l: Layout)
    requires clusterSize > 0 && Keyed(root, sl, l)
    requires forall f :: f in l.holder ==> f != 0 && Held(sl, l, f)
    requires forall e, i: nat :: e in sl && Live(sl[e], i) ==> EntryOk(l, clusterSize, Place(e, i), sl[e][i])
    requires forall e :: e in sl ==> DirOk(root, sl, l, e)
    ensures Tree(root, clusterSize, sl, l)
  {
    hide Held, EntryOk, DirOk, Live;
  }

  /** `sl'` differs from `sl` only in trailing end markers of `d`. */
  ghost predicate OnlyLonger(sl: View, d: nat, sl': View) {
    && d in sl && sl'.Keys == sl.Keys
    && (forall e :: e in sl && e != d ==> sl'[e] == sl[e])
    && (forall j: nat :: (Live(sl'[d], j) <==> Live(sl[d], j)) && (Live(sl[d], j) ==> sl'[d][j] == sl[d][j]))
  }

  lemma ExtendHeld(sl: View, l: Layout, d: nat, sl': View, l': Layout, f: nat)
    requires OnlyLonger(sl, d, sl') && AllHeld(sl, l)
    requires f in l.holder && l'.holder == l.holder && l'.dirs == l.dirs
    ensures f != 0 && Held(sl', l', f)
  {
    hide Live, OwnedCluster, IsDirectory;
    assert Held(sl, l, f);
  }

  lemma ExtendDir(root: nat, sl: View, l: Layout, d: nat, sl': View, l': Layout, e: nat)
    requires OnlyLonger(sl, d, sl') && e in sl && Shaped(sl'[d])
    requires l'.holder == l.holder && l'.rank == l.rank && (e != root ==> e in l.holder)
    requires DirOk(root, sl, l, e)
    ensures DirOk(root, sl', l', e)
  {
    hide Live, Shaped, IsDirectory;
    if e != root {
      assert Dots(sl[e]);
      assert Dots(sl'[e]);
    }
  }

  lemma ExtendEntry(root: nat, clusterSize: nat, sl: View, l: Layout, d: nat, cs: seq<nat>, e: nat, i: nat)
    requires Tree(root, clusterSize, sl, l) && d in sl && e in sl && Live(sl[e], i)
    ensures EntryOk(l.(chains := l.chains[d := cs]), clusterSize, Place(e, i), sl[e][i])
  {
    hide Live, Shaped, Dots, DirOk, AllHeld, IsDirectory, IsRegular, Cluster, Size, OwnedCluster;
    assert EntryOk(l, clusterSize, Place(e, i), sl[e][i]);
    if IsRegular(sl[e][i]) {
      RegularHolds(root, clusterSize, sl, l, e, i);
    }
  }
}
