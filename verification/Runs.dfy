/** Whole runs: any script of file and directory operations on a reliable device. */
module Runs {

  import opened Base
  import opened Slots
  import opened FatTable
  import opened Ownership
  import opened ShortNames
  import opened DirectoryParser
  import opened DirectoryEdits
  import opened NameEntries
  import opened ClusterData
  import opened FatVolume
  import opened FileData
  import opened Forest
  import opened TreeEdits
  import opened TreeOps
  import opened VolumeState
  import opened ResizeState
  import opened FileResize
  import opened FileAccess
  import opened Descriptors
  import opened DirectoryState
  import opened DirectorySlots
  import opened Lookup
  import opened Creation
  import opened MakeDirectory
  import opened Removal
  import opened Paths
  import opened Walking
  import opened Outcomes

  // ---------------------------------------------------------------- finding files

  /** The first regular file listed under a name. */
  method FindFile(v: Volume, dirCluster: nat, name: string) returns (r: Option<LocatedEntry>, ghost i: nat)
    requires Good(v) && dirCluster in v.layout.dirs
    ensures r.Some? ==> IsEntry(v, dirCluster, i, r.value) && FileHandle(v, r.value.location, dirCluster, i)
    ensures r.Some? ==> FirstFile(SlotsOf(v, dirCluster), name, i)
    ensures v.reliable && r.None? ==> NoFile(SlotsOf(v, dirCluster), name)
  {
    hide Consistent, DirSlots, DirLocations, Listing, Located, IsRegular, EqIgnoreCase, IsEntry, EntryAt, Live,
      IsPlace, FirstFile, NoFile;
    i := 0;
    var parsed := ReadEntries(v, dirCluster);
    if parsed.None? {
      return None, 0;
    }
    var j := 0;
    while j < |parsed.value|
      invariant 0 <= j <= |parsed.value|
      invariant forall k :: 0 <= k < j ==>
                !(IsRegular(parsed.value[k].entry) && EqIgnoreCase(parsed.value[k].name, name))
    {
      if IsRegular(parsed.value[j].entry) && EqIgnoreCase(parsed.value[j].name, name) {
        LocatedIsEntry(v, dirCluster, parsed.value, j);
        i := ListingOf(v, dirCluster)[j].index;
        EntryIsHandle(v, dirCluster, i, parsed.value[j]);
        FoundFirst(v, dirCluster, parsed.value, name, j);
        return Some(parsed.value[j]), i;
      }
      j := j + 1;
    }
    NoFileNamed(v, dirCluster, parsed.value, name);
    return None, 0;
  }

  lemma EntryIsHandle(v: Volume, d: nat, i: nat, found: LocatedEntry)
    requires Good(v) && d in v.layout.dirs && IsEntry(v, d, i, found) && IsRegular(found.entry)
    ensures FileHandle(v, found.location, d, i)
  {
    hide Consistent, DirSlots, DirLocations, EntryAt, Live, IsRegular, Shaped, OnDisk;
    DirFacts(v, d);
  }

  lemma FoundFirst(v: Volume, d: nat, parsed: seq<LocatedEntry>, name: string, n: nat)
    requires d in v.layout.chains && n < |parsed|
    requires Located(ListingOf(v, d), DirLocations(v.layout.chains[d], v.clusterSize / SLOT_SIZE), parsed)
    requires forall k :: 0 <= k < n ==> !(IsRegular(parsed[k].entry) && EqIgnoreCase(parsed[k].name, name))
    requires IsRegular(parsed[n].entry) && EqIgnoreCase(parsed[n].name, name)
    ensures n < |ListingOf(v, d)| && FirstFile(SlotsOf(v, d), name, ListingOf(v, d)[n].index)
  {
    hide DirSlots, DirLocations, IsRegular, EqIgnoreCase, EntryAt, Live, Located, Entries;
    var ss := SlotsOf(v, d);
    ParsedEntries(v, d, parsed);
    ListingAt(ss, n);
    forall j: nat | IsFileNamed(ss, name, j) ensures Listing(ss)[n].index <= j {
      LiveIsListed(ss, j);
      var k :| 0 <= k < |Listing(ss)| && Listing(ss)[k] == EntryAt(ss, j);
      if n < k {
        EntriesAscend(ss, 0, End(ss), n, k);
      }
    }
  }

  lemma NoFileNamed(v: Volume, d: nat, parsed: seq<LocatedEntry>, name: string)
    requires d in v.layout.chains
    requires Located(ListingOf(v, d), DirLocations(v.layout.chains[d], v.clusterSize / SLOT_SIZE), parsed)
    requires forall k :: 0 <= k < |parsed| ==> !(IsRegular(parsed[k].entry) && EqIgnoreCase(parsed[k].name, name))
    ensures NoFile(SlotsOf(v, d), name)
  {
    hide DirSlots, DirLocations, Listing, IsRegular, EqIgnoreCase, EntryAt, Live, Located;
    var ss := SlotsOf(v, d);
    ParsedEntries(v, d, parsed);
    forall j: nat | Live(ss, j) && IsRegular(ss[j]) ensures !EqIgnoreCase(EntryAt(ss, j).name, name) {
      LiveIsListed(ss, j);
      var k :| 0 <= k < |Listing(ss)| && Listing(ss)[k] == EntryAt(ss, j);
    }
  }

  // ------------------------------------------------------------- distinct short names

  /** In every directory the short names are pairwise distinct. */
  ghost predicate AllDistinct(disk: Disk, l: Layout) {
    forall e :: e in l.dirs && e in l.chains ==> DistinctNames(DirSlots(disk, l.chains[e]))
  }

  lemma DistinctElsewhere(disk: Disk, l: Layout, disk': Disk, l': Layout, except: set<nat>)
    requires AllDistinct(disk, l) && Preserved(disk, l, disk', l', except) && l.dirs <= l.chains.Keys
    requires forall e :: e in l'.dirs && e in l'.chains && (e !in l.dirs || e in except) ==>
             DistinctNames(DirSlots(disk', l'.chains[e]))
    ensures AllDistinct(disk', l')
  {
    hide Data, SlotsIn, DistinctNames;
  }

  lemma SameNamesDistinct(ss: seq<Slot>, ss': seq<Slot>, x: nat)
    requires SameButSlot(ss, ss', x) && DistinctNames(ss)
    ensures DistinctNames(ss')
  {
    hide Live, Name, EntryAt, Attributes;
    forall i: nat, j: nat | Live(ss', i) && Live(ss', j) && i != j ensures Name(ss'[i]) != Name(ss'[j]) {
      assert SameEntry(ss, ss', i) && SameEntry(ss, ss', j);
    }
  }

  lemma OnlyEndsDistinct(ss: seq<Slot>, ss': seq<Slot>)
    requires OnlyEnds(ss, ss') && Shaped(ss) && DistinctNames(ss)
    ensures DistinctNames(ss')
  {
    hide Live, Name, Shaped, AllEnd;
    ExtendedSlots(ss, ss'[|ss|..]);
    assert ss' == ss + ss'[|ss|..];
  }

  /** Dot entries sit at fixed places, so an empty directory repeats no name. */
  lemma EmptyDistinct(v: Volume, d: nat)
    requires Good(v) && d in v.layout.dirs && Empty(SlotsOf(v, d))
    ensures DistinctNames(SlotsOf(v, d))
  {
    hide DirSlots, Live, Cluster, IsNormal, Name, DotName, Shaped, Owned, Formatted, DirOk, SizeOk, AllHeld;
    var sl, ss := ViewOf(v.disk, v.layout), SlotsOf(v, d);
    TreeKeys(v.rootCluster, v.clusterSize, sl, v.layout);
    forall i: nat, j: nat | Live(ss, i) && Live(ss, j) && i != j ensures Name(ss[i]) != Name(ss[j]) {
      assert EntryOk(v.layout, v.clusterSize, Place(d, i), sl[d][i]);
      assert EntryOk(v.layout, v.clusterSize, Place(d, j), sl[d][j]);
    }
  }

  lemma FileOpDistinct(disk: Disk, l: Layout, disk': Disk, l': Layout, d: nat, i: nat, f: nat)
    requires AllDistinct(disk, l) && OthersKept(disk, l, disk', l', d, i, f) && f !in l.dirs && d in l.dirs
             && l.dirs <= l.chains.Keys
    ensures AllDistinct(disk', l')
  {
    hide Data, SlotsIn, DistinctNames, SameButSlot;
    SameNamesDistinct(DirSlots(disk, l.chains[d]), DirSlots(disk', l.chains[d]), i);
  }

  // -------------------------------------------------------------------- one operation

  ghost function StateOf(v: Volume): State
    reads v, v.fat, v.fat.words
  {
    State(v.Table(), v.disk, v.layout)
  }

  lemma DirsHaveChains(v: Volume)
    requires Good(v)
    ensures v.layout.dirs <= v.layout.chains.Keys
  {
    hide Tree, Owned, Formatted;
    TreeKeys(v.rootCluster, v.clusterSize, ViewOf(v.disk, v.layout), v.layout);
  }

  lemma DistinctAfterCreate(disk: Disk, l: Layout, disk': Disk, l': Layout, d: nat)
    requires AllDistinct(disk, l) && Preserved(disk, l, disk', l', {d}) && SameHolders(l, l') && d in l.dirs
             && l.dirs <= l.chains.Keys
    requires d in l'.chains && DistinctNames(DirSlots(disk', l'.chains[d]))
    ensures AllDistinct(disk', l')
  {
    hide Preserved, DirSlots, DistinctNames, AllDistinct;
    DistinctElsewhere(disk, l, disk', l', {d});
  }

  method PerformCreate(v: Volume, d: nat, op: Op) returns (ok: bool, ghost e: Event)
    requires Good(v) && v.reliable && v.Synced() && d in v.layout.dirs && op.Create?
    modifies v`disk, v`copies, v`layout, v.fat.words
    ensures Good(v) && v.Synced()
    ensures e.op == op && e.ok == ok && e.place.dir == d && DoneIn(Geo(v), old(StateOf(v)), StateOf(v), e)
    ensures Plain(op.name) && old(AllDistinct(v.disk, v.layout)) ==> AllDistinct(v.disk, v.layout)
  {
    hide Consistent, DirSlots, DirLocations, Listing, EntryAt, Live, Plain, Absent, NamesOnly, ListingGains, Preserved,
      IsEntry, OnlyEnds, FreeList, DistinctNames, Nameable, Contents, IsPlace, Shaped, OnDisk, AllDistinct, NodesOf,
      Apply, Spared, StoredAs, IsRegular, Attributes;
    ghost var s0, ss0 := StateOf(v), SlotsOf(v, d);
    DirsHaveChains(v);
    DirFacts(v, d);
    DistinctAt(s0.disk, s0.layout, d);
    var file; ghost var x;
    file, x := CreateFile(v, d, op.name);
    ok := file.Some?;
    e := Event(op, ok, Place(d, x), 0);
    if ok {
      GainsKeep(ss0, SlotsOf(v, d), x);
      CreatedNodes(Geo(v), s0, StateOf(v), e);
    } else {
      UnchangedNodes(Geo(v), s0, StateOf(v), e);
    }
    if Plain(op.name) && AllDistinct(s0.disk, s0.layout) {
      if !ok {
        OnlyEndsDistinct(ss0, SlotsOf(v, d));
      }
      DistinctAfterCreate(s0.disk, s0.layout, v.disk, v.layout, d);
    }
  }

  lemma DistinctAt(disk: Disk, l: Layout, d: nat)
    requires d in l.dirs && d in l.chains
    ensures AllDistinct(disk, l) ==> DistinctNames(DirSlots(disk, l.chains[d]))
  {
  }

  lemma DistinctAfterMake(v: Volume, disk: Disk, l: Layout, d: nat, n: nat)
    requires Good(v) && AllDistinct(disk, l) && Preserved(disk, l, v.disk, v.layout, {d}) && l.dirs <= l.chains.Keys
    requires v.layout.dirs == l.dirs + {n} && Empty(SlotsOf(v, n)) && DistinctNames(SlotsOf(v, d))
    ensures AllDistinct(v.disk, v.layout)
  {
    hide Consistent, Preserved, DirSlots, DistinctNames, AllDistinct, Empty;
    EmptyDistinct(v, n);
    DistinctElsewhere(disk, l, v.disk, v.layout, {d});
  }

  method PerformMakeDir(v: Volume, d: nat, op: Op) returns (ok: bool, ghost e: Event)
    requires Good(v) && v.reliable && v.Synced() && d in v.layout.dirs && op.MakeDir?
    modifies v`disk, v`copies, v`layout, v`reserved, v.fat.words
    ensures Good(v) && v.Synced() && v.reserved == old(v.reserved)
    ensures e.op == op && e.ok == ok && e.place.dir == d && DoneIn(Geo(v), old(StateOf(v)), StateOf(v), e)
    ensures Plain(op.name) && old(AllDistinct(v.disk, v.layout)) ==> AllDistinct(v.disk, v.layout)
  {
    hide Consistent, DirSlots, DirLocations, Listing, EntryAt, Live, Plain, Absent, NamesOnly, ListingGains, Preserved,
      OnlyEnds, DistinctNames, Nameable, Shaped, OnDisk, AllDistinct, Empty, NearlyFull, NodesOf, Apply, Spared,
      StoredAs, IsDirectory, Cluster;
    ghost var s0, ss0 := StateOf(v), SlotsOf(v, d);
    DirsHaveChains(v);
    DirFacts(v, d);
    DistinctAt(s0.disk, s0.layout, d);
    ghost var x, n;
    ok, x, n := CreateDirectory(v, d, op.name);
    e := Event(op, ok, Place(d, x), n);
    if ok {
      GainsKeep(ss0, SlotsOf(v, d), x);
      MadeNodes(Geo(v), s0, StateOf(v), e);
    } else {
      UnchangedNodes(Geo(v), s0, StateOf(v), e);
    }
    if Plain(op.name) && AllDistinct(s0.disk, s0.layout) {
      if ok {
        DistinctAfterMake(v, s0.disk, s0.layout, d, n);
      } else {
        OnlyEndsDistinct(ss0, SlotsOf(v, d));
        DistinctAfterCreate(s0.disk, s0.layout, v.disk, v.layout, d);
      }
    }
  }

  lemma DistinctAfterRemove(disk: Disk, l: Layout, disk': Disk, d: nat, f: nat)
    requires AllDistinct(disk, l) && Preserved(disk, l, disk', Without(l, f), {d, f}) && l.dirs <= l.chains.Keys
    requires d in l.chains && d in Without(l, f).chains ==> DistinctNames(DirSlots(disk', Without(l, f).chains[d]))
    ensures AllDistinct(disk', Without(l, f))
  {
    hide Preserved, DirSlots, DistinctNames, AllDistinct;
    DistinctElsewhere(disk, l, disk', Without(l, f), {d, f});
  }

  method PerformUnlink(v: Volume, d: nat, op: Op) returns (ok: bool, ghost e: Event)
    requires Good(v) && v.reliable && v.Synced() && d in v.layout.dirs && op.Unlink?
    modifies v`disk, v`copies, v`layout, v.fat.words
    ensures Good(v) && v.Synced()
    ensures e.op == op && e.ok == ok && e.place.dir == d && DoneIn(Geo(v), old(StateOf(v)), StateOf(v), e)
    ensures old(AllDistinct(v.disk, v.layout)) ==> AllDistinct(v.disk, v.layout)
  {
    hide Consistent, DirSlots, DirLocations, Listing, EntryAt, Live, Absent, FirstMatch, ListingLoses, Preserved,
      Deleted, Without, DistinctNames, AllDistinct, Cluster, IsRegular, Shaped, OnDisk, NodesOf, Put, OwnedAt,
      OthersUntouched;
    ghost var s0, ss0 := StateOf(v), SlotsOf(v, d);
    DirsHaveChains(v);
    DirFacts(v, d);
    DistinctAt(s0.disk, s0.layout, d);
    ghost var i;
    ok, i := UnlinkFile(v, d, op.name);
    e := Event(op, ok, Place(d, i), 0);
    if ok {
      MatchBound(ss0, op.name, i);
      RemovedNodes(Geo(v), s0, StateOf(v), e);
      if AllDistinct(s0.disk, s0.layout) {
        DistinctAfterRemove(s0.disk, s0.layout, v.disk, d, Cluster(ss0[i]));
      }
    } else {
      SparedSelf(s0, e);
    }
  }

  lemma SparedSelf(s: State, e: Event)
    ensures Spared(s, s, e)
  {
    hide Data, OwnedAt, DirSlots;
  }

  method PerformRemoveDir(v: Volume, d: nat, op: Op) returns (ok: bool, ghost e: Event)
    requires Good(v) && v.reliable && v.Synced() && d in v.layout.dirs && op.RemoveDir?
    modifies v`disk, v`copies, v`layout, v.fat.words
    ensures Good(v) && v.Synced()
    ensures e.op == op && e.ok == ok && e.place.dir == d && DoneIn(Geo(v), old(StateOf(v)), StateOf(v), e)
    ensures old(AllDistinct(v.disk, v.layout)) ==> AllDistinct(v.disk, v.layout)
  {
    hide Consistent, DirSlots, DirLocations, Listing, EntryAt, Live, Absent, FirstMatch, ListingLoses, Preserved,
      Deleted, Without, DistinctNames, AllDistinct, Cluster, IsDirectory, Shaped, OnDisk, Empty, Zeroed, Erasable,
      NodesOf, Put, OwnedAt, OthersUntouched;
    ghost var s0, ss0 := StateOf(v), SlotsOf(v, d);
    DirsHaveChains(v);
    DirFacts(v, d);
    DistinctAt(s0.disk, s0.layout, d);
    ghost var i;
    ok, i := RemoveDirectory(v, d, op.name);
    e := Event(op, ok, Place(d, i), 0);
    if ok {
      MatchBound(ss0, op.name, i);
      RemovedNodes(Geo(v), s0, StateOf(v), e);
      if AllDistinct(s0.disk, s0.layout) {
        DistinctAfterRemove(s0.disk, s0.layout, v.disk, d, Cluster(ss0[i]));
      }
    } else {
      SparedSelf(s0, e);
    }
  }

  /** Truncates or writes a file through a fresh descriptor at `offset`. */
  method PerformFileOp(v: Volume, d: nat, op: Op) returns (ok: bool, ghost e: Event)
    requires Good(v) && v.reliable && v.Synced() && d in v.layout.dirs && (op.Truncate? || op.Write?)
    modifies v`disk, v`copies, v`layout, v.fat.words
    ensures Good(v) && v.Synced()
    ensures e.op == op && e.ok == ok && e.place.dir == d && DoneIn(Geo(v), old(StateOf(v)), StateOf(v), e)
    ensures old(AllDistinct(v.disk, v.layout)) ==> AllDistinct(v.disk, v.layout)
  {
    hide Consistent, DirSlots, DirLocations, EntryAt, Live, DistinctNames, AllDistinct, Cluster, IsRegular, Contents,
      OthersKept, IsEntry, Truncatable, Writable, Written, Truncated, IsPlace, SameButSlot, FirstFile, NoFile, NodesOf,
      Put, Spared, Leaves, WrittenFrom;
    ghost var s0 := StateOf(v);
    var file; ghost var i;
    file, i := FindFile(v, d, op.name);
    e := Event(op, false, Place(d, i), 0);
    SparedSelf(s0, e);
    if file.None? {
      return false, e;
    }
    ghost var f := Cluster(EntryOf(v, d, i));
    DirsHaveChains(v);
    FileClusterIsNoDir(v, file.value.location, d, i);
    var process := new Process();
    process.fdTable := process.fdTable
      + [Some(File(OpenFile(file.value.location, if op.Write? then op.offset else 0, true, true)))];
    if op.Truncate? {
      ok := process.Truncate(v, 3, op.size, d, i);
    } else {
      var written := process.Write(v, 3, op.bytes, d, i);
      ok := written.Some?;
    }
    e := Event(op, ok, Place(d, i), 0);
    if ok {
      RewrittenNodes(Geo(v), s0, StateOf(v), e);
    }
    if AllDistinct(s0.disk, s0.layout) {
      FileOpDistinct(s0.disk, s0.layout, v.disk, v.layout, d, i, f);
    }
  }

  lemma FileClusterIsNoDir(v: Volume, at: Location, d: nat, i: nat)
    requires Good(v) && FileHandle(v, at, d, i)
    ensures Cluster(EntryOf(v, d, i)) !in v.layout.dirs
  {
    hide Consistent, DirSlots, DirLocations, Live, Cluster, Size, Contents;
    FileFacts(Geo(v), v.Table(), v.disk, v.layout, d, i, EntryOf(v, d, i));
  }

  /** Every path resolves to its raw walk. */
  ghost predicate Undotted(v: Volume)
    reads v
  {
    NoNamedDot(v.rootCluster, ViewOf(v.disk, v.layout))
  }

  /** Performs one operation in the directory its path leads to. */
  method Perform(v: Volume, op: Op) returns (ok: bool, ghost e: Event)
    requires Good(v) && v.reliable && v.Synced()
    modifies v`disk, v`copies, v`layout, v`reserved, v.fat.words
    ensures Good(v) && v.Synced() && v.reserved == old(v.reserved)
    ensures Plain(op.name) && old(AllDistinct(v.disk, v.layout)) ==> AllDistinct(v.disk, v.layout)
    ensures old(Undotted(v)) ==> Undotted(v)
    ensures e.op == op && e.ok == ok && Performed(Geo(v), old(StateOf(v)), StateOf(v), e)
  {
    hide Consistent, AllDistinct, Plain, LookIn, Walk, Normalize, Split, DoneIn, DirSlots, NoNamedDot, NoDotFolder,
      NodesIn;
    ghost var s0 := StateOf(v);
    RootIsDir(v);
    NamedDotIsFolder(Geo(v), s0);
    e := Event(op, false, Place(0, 0), 0);
    var dir := FindDirectoryFromPath(v, v.rootCluster, op.path);
    if dir.None? {
      return false, e;
    }
    match op {
      case Create(_, _) => ok, e := PerformCreate(v, dir.value, op);
      case MakeDir(_, _) => ok, e := PerformMakeDir(v, dir.value, op);
      case Unlink(_, _) => ok, e := PerformUnlink(v, dir.value, op);
      case RemoveDir(_, _) => ok, e := PerformRemoveDir(v, dir.value, op);
      case _ => ok, e := PerformFileOp(v, dir.value, op);
    }
    NamedDotIsFolder(Geo(v), StateOf(v));
    if NoDotFolder(v.rootCluster, NodesIn(s0)) {
      NoDotApplied(Geo(v), s0, StateOf(v), e);
    }
  }

  // ----------------------------------------------------------------------- whole runs

  ghost predicate PlainNames(ops: seq<Op>) {
    forall k :: 0 <= k < |ops| ==> Plain(ops[k].name)
  }

  ghost function Successes(events: seq<Event>): nat {
    if events == [] then 0 else Successes(events[..|events| - 1]) + if events[|events| - 1].ok then 1 else 0
  }

  lemma RunGoesOn(g: Geometry, ops: seq<Op>, states: seq<State>, events: seq<Event>, op: Op, s: State, e: Event)
    requires IsRunOf(g, ops, states, events) && Whole(g, s)
    requires e.op == op && Performed(g, states[|ops|], s, e)
    ensures IsRunOf(g, ops + [op], states + [s], events + [e])
    ensures Successes(events + [e]) == Successes(events) + if e.ok then 1 else 0
  {
    hide Whole, Performed;
    assert (events + [e])[..|events|] == events;
  }

  /**
    Every run from a consistent volume is a sequence of consistent volumes,
    whatever the script asks for: chains are acyclic and disjoint, every file
    has the clusters its size needs, no cluster is lost, the tree hangs
    together and the table copies on the device agree. Each operation does what
    it should, so the entries at the end are the first ones with the events
    replayed. With plain names, short names stay distinct.
   */
  method Run(v: Volume, ops: seq<Op>) returns (done: nat, ghost states: seq<State>, ghost events: seq<Event>)
    requires Good(v) && v.reliable && v.Synced()
    modifies v`disk, v`copies, v`layout, v`reserved, v.fat.words
    ensures Good(v) && v.Synced() && v.reserved == old(v.reserved)
    ensures PlainNames(ops) && old(AllDistinct(v.disk, v.layout)) ==> AllDistinct(v.disk, v.layout)
    ensures old(Undotted(v)) ==> Undotted(v)
    ensures done == Successes(events)
    ensures RunLeads(Geo(v), ops, states, events, old(StateOf(v)), StateOf(v))
  {
    hide Consistent, AllDistinct, Plain, Performed, NoNamedDot, NodesIn, Replay, Successes;
    ghost var g := Geo(v);
    done := 0;
    states, events := [StateOf(v)], [];
    RunStarts(g, StateOf(v));
    for k := 0 to |ops|
      invariant Good(v) && v.Synced() && v.reserved == old(v.reserved)
      invariant IsRunOf(g, ops[..k], states, events) && states[0] == old(StateOf(v)) && states[k] == StateOf(v)
      invariant done == Successes(events)
      invariant PlainNames(ops) && old(AllDistinct(v.disk, v.layout)) ==> AllDistinct(v.disk, v.layout)
      invariant old(Undotted(v)) ==> Undotted(v)
    {
      var ok; ghost var e;
      ok, e := Perform(v, ops[k]);
      RunGoesOn(g, ops[..k], states, events, ops[k], StateOf(v), e);
      assert ops[..k] + [ops[k]] == ops[..k + 1];
      states, events := states + [StateOf(v)], events + [e];
      if ok {
        done := done + 1;
      }
    }
    assert ops[..|ops|] == ops && events[..|ops|] == events;
    RunReplays(g, ops, states, events, |ops|);
  }

  lemma RunStarts(g: Geometry, s: State)
    requires Whole(g, s)
    ensures IsRunOf(g, [], [s], []) && Successes([]) == 0
  {
    hide Whole;
  }

  // ------------------------------------------------------------ what consistency means

  /** No cluster is lost or owned twice: free, owned and reserved ones add up to the whole table. */
  lemma NothingLeaks(v: Volume)
    requires Good(v)
    ensures forall c :: 2 <= c < |v.Table()| ==>
              (v.Table()[c] == FREE <==> c !in v.reserved && !Used(v.layout.chains, c))
    ensures forall f, h, c ::
              f in v.layout.chains && h in v.layout.chains && c in v.layout.chains[f] && c in v.layout.chains[h] ==>
                f == h
    ensures forall f :: f in v.layout.chains ==> IsChain(v.Table(), v.layout.chains[f]) && v.layout.chains[f][0] == f
    ensures |FreeList(v.Table())| + TotalLength(v.layout.chains) + |v.reserved * Between(2, |v.Table()|)| ==
              |v.Table()| - 2
  {
    hide Tree, Formatted, FreeList, TotalLength, IsChain, Used, Between;
    RootIsDir(v);
    DirsHaveChains(v);
    ChainInRange(v.Table(), v.layout.chains, v.rootCluster);
    ClustersAddUp(v.Table(), v.layout.chains, v.reserved);
  }

  /** Every listed file has exactly as many clusters as its size needs. */
  lemma FilesFit(v: Volume, at: Location, d: nat, i: nat)
    requires Good(v) && FileHandle(v, at, d, i)
    ensures var s := EntryOf(v, d, i);
            |ChainOf(v.layout.chains, s)| == ClustersFor(Size(s), v.clusterSize)
  {
    hide Consistent, DirSlots, DirLocations, Live, Cluster, Size, Contents;
    FileFacts(Geo(v), v.Table(), v.disk, v.layout, d, i, EntryOf(v, d, i));
  }
}
