/** A freshly formatted volume: where runs can start. */
module Fresh {

  import opened Base
  import opened Slots
  import opened FatTable
  import opened Ownership
  import opened DirectoryParser
  import opened DirectoryEdits
  import opened ClusterData
  import opened FatVolume
  import opened Forest
  import opened TreeOps
  import opened VolumeState
  import opened FileResize
  import opened DirectoryState
  import opened Lookup
  import opened Paths
  import opened ShortNames
  import opened TreeEdits
  import opened MakeDirectory
  import opened Walking
  import opened Outcomes
  import opened Runs

  const ROOT := 2

  /** Only the root directory is in use: one cluster of end marks. */
  ghost predicate Blank(t: Table, disk: Disk, clusterSize: nat) {
    && ROOT < |t| <= END_OF_CHAIN && t[ROOT] == EOF
    && (forall c :: ROOT < c < |t| ==> t[c] == FREE)
    && Formatted(t, disk, clusterSize)
    && disk[ROOT] == Zeros(clusterSize)
  }

  ghost function BlankLayout(): Layout {
    Layout(ROOT, map[ROOT := [ROOT]], {ROOT}, map[], map[ROOT := 0])
  }

  lemma BlankOwned(t: Table, disk: Disk, clusterSize: nat)
    requires Blank(t, disk, clusterSize)
    ensures Owned(t, BlankLayout().chains, {})
  {
    var chains := BlankLayout().chains;
    assert IsChain(t, [ROOT]);
    forall c | 2 <= c < |t| ensures t[c] != FREE <==> Used(chains, c) {
      if c == ROOT {
        assert c in chains[ROOT];
      }
    }
  }

  lemma BlankSlots(disk: Disk, clusterSize: nat)
    requires ROOT in disk && disk[ROOT] == Zeros(clusterSize)
    ensures AllEnd(DirSlots(disk, [ROOT]))
  {
    hide SlotsIn;
    assert Data(disk, [ROOT]) == Get(disk, ROOT) + Data(disk, []) == Zeros(clusterSize);
    ZerosAreEnds(clusterSize);
  }

  lemma AllEndShaped(ss: seq<Slot>)
    requires AllEnd(ss)
    ensures Shaped(ss) && End(ss) == 0 && Listing(ss) == [] && forall i: nat :: !Live(ss, i)
  {
    hide EntryAt;
    EndUnique(ss, 0);
  }

  /** A blank volume is consistent, so the invariant does not ask for the impossible. */
  lemma BlankIsConsistent(t: Table, disk: Disk, clusterSize: nat)
    requires Blank(t, disk, clusterSize) && clusterSize >= 2 * SLOT_SIZE && clusterSize % SLOT_SIZE == 0
    ensures Consistent(Geometry(ROOT, clusterSize, {}), t, disk, BlankLayout())
  {
    hide DirSlots, Live, Shaped, Zeros, Owned, AllEnd, Formatted;
    BlankOwned(t, disk, clusterSize);
    RootOnDisk(t, disk, clusterSize);
    BlankSlots(disk, clusterSize);
    AllEndShaped(DirSlots(disk, [ROOT]));
  }

  lemma RootOnDisk(t: Table, disk: Disk, clusterSize: nat)
    requires Blank(t, disk, clusterSize)
    ensures ROOT in disk
  {
  }

  /** Formats a volume with the given number of table entries. */
  method Format(entries: nat, clusterSize: nat) returns (v: Volume)
    requires ROOT < entries <= END_OF_CHAIN && clusterSize >= 2 * SLOT_SIZE && clusterSize % SLOT_SIZE == 0
    ensures fresh(v) && fresh(v.fat) && fresh(v.fat.words)
    ensures Good(v) && v.reliable && v.Synced() && v.rootCluster == ROOT && v.clusterSize == clusterSize
    ensures AllDistinct(v.disk, v.layout) && ListingOf(v, ROOT) == [] && v.reserved == {}
    ensures |FreeList(v.Table())| == entries - 3
    ensures Undotted(v) && NodesIn(StateOf(v)) == imap[]
  {
    hide Consistent, DirSlots, Zeros, FreeList, AllEnd, Shaped, Live, Name, IsDotName, NodeAt;
    var fat := new FatBuffer(entries);
    var words := fat.words;
    words[0], words[1], words[ROOT] := EOF, EOF, EOF;
    var zeros: seq<Byte> := seq(clusterSize, _ => 0);
    assert zeros == Zeros(clusterSize);
    var disk: Disk := map[];
    for c := 2 to entries
      invariant forall k: nat :: k in disk <==> 2 <= k < c
      invariant forall k :: k in disk ==> disk[k] == zeros
    {
      disk := disk[c := zeros];
    }
    v := new Volume(clusterSize, ROOT, true, fat, disk, [words[..], words[..]], BlankLayout(), {});
    BlankIsConsistent(words[..], disk, clusterSize);
    BlankSlots(disk, clusterSize);
    AllEndShaped(DirSlots(disk, [ROOT]));
    FreeTail(words[..], ROOT + 1);
    FreeAfterRoot(words[..]);
  }

  /** Whatever a script does to a fresh volume, the volume stays consistent and holds what the events put there. */
  method RunFromFresh(entries: nat, clusterSize: nat, ops: seq<Op>)
    returns (v: Volume, ghost states: seq<State>, ghost events: seq<Event>)
    requires ROOT < entries <= END_OF_CHAIN && clusterSize >= 2 * SLOT_SIZE && clusterSize % SLOT_SIZE == 0
    ensures Good(v) && v.reliable && v.Synced() && v.reserved == {} && v.rootCluster == ROOT
    ensures PlainNames(ops) ==> AllDistinct(v.disk, v.layout)
    ensures Undotted(v)
    ensures IsRunOf(Geo(v), ops, states, events) && NodesIn(StateOf(v)) == Replay(imap[], events)
  {
    hide Consistent, AllDistinct, PlainNames, FreeList, Undotted, IsRunOf, NodesIn, Replay;
    v := Format(entries, clusterSize);
    var done;
    done, states, events := Run(v, ops);
  }

  /** On a volume only the driver has written, every path resolves to the walk it spells out. */
  method ResolveAfterRun(entries: nat, clusterSize: nat, ops: seq<Op>, path: string) returns (v: Volume, r: Option<nat>)
    requires ROOT < entries <= END_OF_CHAIN && clusterSize >= 2 * SLOT_SIZE && clusterSize % SLOT_SIZE == 0
    ensures var raw := SpeltOut(LookOf(v), v.rootCluster, v.rootCluster, path);
            raw.Some? ==> r == raw
  {
    hide Consistent, AllDistinct, PlainNames, IsRunOf, NodesIn, Replay, LookOf, SpeltOut, NoNamedDot;
    ghost var states, events;
    v, states, events := RunFromFresh(entries, clusterSize, ops);
    RootIsDir(v);
    r := FindDirectoryFromPath(v, v.rootCluster, path);
  }

  // ------------------------------------------------- a tree the driver would not make

  /** A short name shown as `.` that is not the name of a dot entry: the second byte is a tab. */
  function TabbedDot(): ShortName {
    [0x2E, 0x09] + seq(9, _ => 0x20)
  }

  lemma TabbedDotText()
    ensures ShortText(TabbedDot()) == HERE && !IsDotName(TabbedDot())
  {
    hide TrimEnd, Field;
    var n := TabbedDot();
    assert DotName(false)[1] == 0x20 && DotName(true)[1] == 0x2E && n[1] == 0x09;
    TrimTab();
    assert n[..8][0] == 0x2E;
    assert FieldText(n[..8]) == [LowerAscii('.')];
    assert FieldText(n[8..]) == "";
  }

  lemma TrimTab()
    ensures TrimEnd(TabbedDot()[..8]) == [0x2E] && TrimEnd(TabbedDot()[8..]) == []
  {
    assert TabbedDot()[8..] == [] + seq(3, _ => 0x20);
    TrimSpaces([], 3);
    var b := TabbedDot()[..8];
    assert b == [0x2E, 0x09] + seq(6, _ => 0x20);
    TrimSpaces([0x2E, 0x09], 6);
    assert TrimEnd([0x2E, 0x09]) == TrimEnd([0x2E, 0x09][..1]);
    assert [0x2E, 0x09][..1] == [0x2E];
  }

  lemma {:induction false} TrimSpaces(b: seq<Byte>, n: nat)
    ensures TrimEnd(b + seq(n, _ => 0x20)) == TrimEnd(b)
  {
    var t := b + seq(n, _ => 0x20);
    if n == 0 {
      assert t == b;
    } else {
      assert t[|t| - 1] == 0x20 && t[..|t| - 1] == b + seq(n - 1, _ => 0x20);
      TrimSpaces(b, n - 1);
    }
  }

  lemma BlankTree(clusterSize: nat)
    requires clusterSize > 0
    ensures Tree(ROOT, clusterSize, map[ROOT := []], BlankLayout())
  {
    AllEndShaped([]);
  }

  /**
    The condition of path resolution is not empty: a consistent tree may list a
    directory of the root as `.`, and its raw walk then differs from the
    normalised one.
   */
  lemma NamedDotTree(clusterSize: nat) returns (sl: View, l: Layout)
    requires clusterSize > 0
    ensures Tree(ROOT, clusterSize, sl, l) && !NoNamedDot(ROOT, sl) && ROOT in sl
    ensures RawWalk(LookIn(ROOT, sl), ROOT, [HERE]) == Some(3)
              && Walk(LookIn(ROOT, sl), ROOT, Normalize([HERE])) == Some(ROOT)
  {
    hide Tree, DirectoryEntry, TabbedDot, ShortText, IsDirectory, Cluster, Name, IsDotName, Live, EntryAt, Gains,
      Listing, Inserted, IsRun, Shaped, NewDirectory, DotName;
    TabbedDotText();
    var s := DirectoryEntry(TabbedDot(), 3);
    DotFolderEntry();
    var ns := [DirectoryEntry(DotName(false), 3), DirectoryEntry(DotName(true), ROOT)];
    InitialIsNewDirectory(ROOT, BlankLayout(), ROOT, s, 3, ns);
    BlankTree(clusterSize);
    AllEndShaped([]);
    InsertedOne(s);
    InsertedGains([], 0, [s], [s], HERE, 0);
    InsertDirectoryKeepsTree(ROOT, clusterSize, map[ROOT := []], BlankLayout(), ROOT, 0, [s], 3, ns);
    sl, l := map[ROOT := []][ROOT := [s]][3 := ns], WithDirectory(BlankLayout(), ROOT, 0, 3);
    InsertedEntry([], 0, [s], [s], HERE);
    OneListed(s);
    IsDotText(HERE);
    DotWalk(LookIn(ROOT, sl), ROOT);
  }

  lemma DotFolderEntry()
    ensures var s := DirectoryEntry(TabbedDot(), 3);
            IsDirectory(s) && Cluster(s) == 3 && Name(s) == TabbedDot() && IsShortEntry(s) && !IsEnd(s)
  {
    NewDirectoryEntry(TabbedDot(), 3);
  }

  lemma InsertedOne(s: Slot)
    requires IsShortEntry(s) && !IsEnd(s)
    ensures Inserted([], 0, [s], [s]) && IsRun([s], ShortText(Name(s)))
  {
    hide ShortText, Name;
  }

  lemma OneListed(s: Slot)
    requires IsShortEntry(s) && !IsEnd(s)
    ensures Listing([s]) == [EntryAt([s], 0)]
  {
    hide EntryAt;
    EndUnique([s], 1);
    assert Entries([s], 0, 0) == [];
  }

  lemma {:induction false} FreeTail(t: Table, lo: nat)
    requires lo <= |t| && forall c :: lo <= c < |t| ==> t[c] == FREE
    ensures |FreeListFrom(t, lo)| == |t| - lo
    decreases |t| - lo
  {
    if lo < |t| {
      FreeTail(t, lo + 1);
    }
  }

  lemma FreeAfterRoot(t: Table)
    requires ROOT < |t| && t[ROOT] != FREE
    ensures FreeList(t) == FreeListFrom(t, ROOT + 1)
  {
  }
}
