/** Every edit the driver makes to one directory entry keeps the tree. */
module TreeEdits {

  import opened Base
  import opened Slots
  import opened ShortNames
  import opened DirectoryParser
  import opened DirectoryEdits
  import opened Ownership
  import opened Forest

  /** Apart from slot `x`, the same entries are live, with the same contents. */
  ghost predicate SameLive(ss: seq<Slot>, ss': seq<Slot>, x: nat) {
    forall j: nat :: j != x ==>
      && (Live(ss', j) <==> Live(ss, j))
      && (Live(ss, j) ==> ss'[j] == ss[j])
  }

  /** What the entry at `x`, if live, owns. */
  ghost function OwnedAt(ss: seq<Slot>, x: nat): nat {
    if Live(ss, x) then OwnedCluster(ss[x]) else 0
  }

  ghost predicate Empty(ss: seq<Slot>) {
    forall i: nat :: Live(ss, i) ==> IsDirectory(ss[i]) && IsDotName(Name(ss[i]))
  }

  ghost predicate EditSlots(sl: View, sl': View, d: nat, x: nat, f: nat, f': nat) {
    && d in sl && d in sl' && d != f && f' !in sl && f !in sl'
    && SameLive(sl[d], sl'[d], x)
    && OwnedAt(sl[d], x) == f && OwnedAt(sl'[d], x) == f'
    && (forall e :: e in sl' && e != d && e != f' ==> e in sl && sl'[e] == sl[e])
    && (forall e :: e in sl && e != f ==> e in sl')
  }

  ghost predicate EditLayout(l: Layout, l': Layout, d: nat, x: nat, f: nat, f': nat) {
    && l'.root == l.root
    && (f' == 0 || f' == f || f' !in l.chains)
    && l'.holder == (if f' == 0 then l.holder - {f} else (l.holder - {f})[f' := Place(d, x)])
    && (forall g :: g in l'.holder && g != f' ==> g in l.chains && g in l'.chains && l'.chains[g] == l.chains[g])
    && (forall g :: g != f && g != f' ==> (g in l'.dirs <==> g in l.dirs))
  }

  /**
    The entry at slot `x` of directory `d` stops owning `f` and starts
    owning `f'` (0 for nothing); directory `f` may go, directory `f'` may
    come, and nothing else changes.
   */
  ghost predicate Edit(sl: View, l: Layout, sl': View, l': Layout, d: nat, x: nat, f: nat, f': nat) {
    && EditSlots(sl, sl', d, x, f, f')
    && EditLayout(l, l', d, x, f, f')
    && (f' != 0 ==> Live(sl'[d], x) && (f' in l'.dirs <==> IsDirectory(sl'[d][x])))
    && (f in sl && f !in sl' ==> forall g :: g in l.holder ==> l.holder[g].dir != f)
  }

  lemma EditHeld(root: nat, clusterSize: nat, sl: View, l: Layout, sl': View, l': Layout, d: nat, x: nat, f: nat,
                 f': nat, g: nat)
    requires Tree(root, clusterSize, sl, l) && Edit(sl, l, sl', l', d, x, f, f')
    requires g in l'.holder
    ensures g != 0 && Held(sl', l', g)
  {
    hide Live, IsDirectory, IsRegular, Shaped, Dots, OwnedCluster, EntriesOk, DirOk;
    if g != f' {
      assert g != f && g in l.holder && Held(sl, l, g);
      var p := l.holder[g];
      assert p.dir != f' && (p.dir == d ==> p.index != x);
    }
  }

  /** The entry an edit touches is the only one that owned `f`. */
  lemma OtherOwner(root: nat, clusterSize: nat, sl: View, l: Layout, d: nat, x: nat, e: nat, i: nat)
    requires Tree(root, clusterSize, sl, l) && d in sl && e in sl && Live(sl[e], i) && (e == d ==> i != x)
    ensures OwnedCluster(sl[e][i]) != 0 ==> OwnedCluster(sl[e][i]) != OwnedAt(sl[d], x)
    ensures EntryOk(l, clusterSize, Place(e, i), sl[e][i])
  {
    hide Live, IsDirectory, IsRegular, Shaped, Dots, OwnedCluster, DirOk, AllHeld, SizeOk;
    assert EntryOk(l, clusterSize, Place(e, i), sl[e][i]);
    if Live(sl[d], x) {
      assert EntryOk(l, clusterSize, Place(d, x), sl[d][x]);
    }
  }

  lemma EditOldEntry(clusterSize: nat, sl: View, l: Layout, sl': View, l': Layout, d: nat, x: nat, f: nat, f': nat,
                     p: Place, s: Slot)
    requires clusterSize > 0 && Edit(sl, l, sl', l', d, x, f, f') && l.holder.Keys <= l.chains.Keys
    requires EntryOk(l, clusterSize, p, s) && (OwnedCluster(s) != 0 ==> OwnedCluster(s) != f)
    requires p.dir in sl && p.dir in sl' && p.dir != f'
    ensures EntryOk(l', clusterSize, p, s)
  {
    hide Live, SameLive, OwnedAt, Cluster, IsNormal, Leads;
    EditParent(sl, l, sl', l', d, x, f, f', p.dir);
  }

  lemma EditParent(sl: View, l: Layout, sl': View, l': Layout, d: nat, x: nat, f: nat, f': nat, e: nat)
    requires Edit(sl, l, sl', l', d, x, f, f') && e in sl && e in sl' && e != f'
    ensures Parent(l', e) == Parent(l, e) && l'.root == l.root
  {
    hide Live, SameLive, OwnedAt;
  }

  lemma EditEntries(root: nat, clusterSize: nat, sl: View, l: Layout, sl': View, l': Layout, d: nat, x: nat, f: nat,
                    f': nat, e: nat, i: nat)
    requires Tree(root, clusterSize, sl, l) && Edit(sl, l, sl', l', d, x, f, f')
    requires e in sl' && Live(sl'[e], i) && (e == d ==> i != x) && e != f'
    ensures EntryOk(l', clusterSize, Place(e, i), sl'[e][i])
  {
    hide Live, IsDirectory, IsRegular, Shaped, Dots, OwnedCluster, DirOk, AllHeld, EntryOk, OwnedAt, EntriesOk;
    assert e in sl && Live(sl[e], i) && sl'[e][i] == sl[e][i];
    OtherOwner(root, clusterSize, sl, l, d, x, e, i);
    EditOldEntry(clusterSize, sl, l, sl', l', d, x, f, f', Place(e, i), sl[e][i]);
  }

  /** A directory keeps its shape, its dot entries and its rank. */
  lemma EditDots(ss: seq<Slot>, ss': seq<Slot>, x: nat)
    requires Dots(ss) && SameLive(ss, ss', x) && (Live(ss, x) ==> x > 1)
    ensures Dots(ss')
  {
    hide IsDirectory, Live;
    assert x != 0 && x != 1;
  }

  /** Ranks for the edited tree: a new directory ranks below its holder. */
  ghost predicate Ranked(l: Layout, l': Layout, d: nat, f': nat) {
    && (forall e :: e in l'.dirs && e != f' ==> e in l.rank && e in l'.rank && l'.rank[e] == l.rank[e])
    && (f' in l'.dirs ==> f' in l'.rank && d in l'.rank && l'.rank[d] < l'.rank[f'])
  }

  lemma EditDir(root: nat, clusterSize: nat, sl: View, l: Layout, sl': View, l': Layout, d: nat, x: nat, f: nat,
                f': nat, e: nat)
    requires Tree(root, clusterSize, sl, l) && Edit(sl, l, sl', l', d, x, f, f')
    requires Keyed(root, sl', l') && Ranked(l, l', d, f')
    requires Shaped(sl'[d]) && (Live(sl[d], x) && d != root ==> x > 1)
    requires f' in sl' ==> Shaped(sl'[f']) && Dots(sl'[f'])
    requires e in sl' && (e != root ==> e in l'.holder)
    ensures DirOk(root, sl', l', e)
  {
    hide Live, IsDirectory, IsRegular, Shaped, Dots, OwnedCluster, EntriesOk, SameLive, OwnedAt;
    if e == f' {
    } else {
      assert e in sl && DirOk(root, sl, l, e);
      assert e != root ==> e in l.holder && l'.holder[e] == l.holder[e];
      if e != root {
        HolderAbove(root, clusterSize, sl, l, e);
        HolderStays(root, clusterSize, sl, l, sl', l', d, x, f, f', e);
        if e == d {
          EditDots(sl[d], sl'[d], x);
        }
      }
    }
  }

  lemma HolderStays(root: nat, clusterSize: nat, sl: View, l: Layout, sl': View, l': Layout, d: nat, x: nat, f: nat,
                    f': nat, e: nat)
    requires Tree(root, clusterSize, sl, l) && Edit(sl, l, sl', l', d, x, f, f')
    requires e in l.holder && l.holder[e].dir in sl
    ensures l.holder[e].dir in sl' && l.holder[e].dir != f'
  {
    hide Live, IsDirectory, IsRegular, Shaped, Dots, OwnedCluster, EntriesOk, SameLive, OwnedAt, DirOk, AllHeld;
  }

  /** The tree survives any such edit. */
  lemma EditKeepsTree(root: nat, clusterSize: nat, sl: View, l: Layout, sl': View, l': Layout, d: nat, x: nat, f: nat,
                      f': nat)
    requires Tree(root, clusterSize, sl, l) && Edit(sl, l, sl', l', d, x, f, f')
    requires Keyed(root, sl', l') && Ranked(l, l', d, f')
    requires Shaped(sl'[d]) && (Live(sl[d], x) && d != root ==> x > 1)
    requires f' in sl' ==> Shaped(sl'[f']) && Dots(sl'[f'])
    requires f' in sl' ==> forall i: nat :: Live(sl'[f'], i) ==> EntryOk(l', clusterSize, Place(f', i), sl'[f'][i])
    requires Live(sl'[d], x) ==> EntryOk(l', clusterSize, Place(d, x), sl'[d][x])
    ensures Tree(root, clusterSize, sl', l')
  {
    hide Edit, Live, Held, EntryOk, DirOk, Ranked, Shaped, Dots;
    forall g | g in l'.holder ensures g != 0 && Held(sl', l', g) {
      EditHeld(root, clusterSize, sl, l, sl', l', d, x, f, f', g);
    }
    forall e, i: nat | e in sl' && Live(sl'[e], i) ensures EntryOk(l', clusterSize, Place(e, i), sl'[e][i]) {
      if e != f' && (e != d || i != x) {
        EditEntries(root, clusterSize, sl, l, sl', l', d, x, f, f', e, i);
      }
    }
    forall e | e in sl' ensures DirOk(root, sl', l', e) {
      EditDir(root, clusterSize, sl, l, sl', l', d, x, f, f', e);
    }
  }
}
