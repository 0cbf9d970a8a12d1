/** Creating files in directories of a consistent volume. */
module Creation {

  import opened Base
  import opened Slots
  import opened FatTable
  import opened Ownership
  import opened LongNames
  import opened ShortNames
  import opened DirectoryParser
  import opened DirectoryEdits
  import opened NameEntries
  import opened ClusterData
  import opened FatVolume
  import opened FileData
  import opened Forest
  import opened TreeEdits
  import opened TreeOps
  import opened VolumeState
  import opened ResizeState
  import opened FileResize
  import opened FileAccess
  import opened DirectoryState
  import opened DirectorySlots
  import opened Lookup

  // ----------------------------------------------------------------- what creation means

  /** `e` joined the listing; everything listed before is still there, in order. */
  ghost predicate ListingGains(ss: seq<Slot>, ss': seq<Slot>, x: nat) {
    && Live(ss', x) && !Live(ss, x) && x < |ss'|
    && Gained(Listing(ss), EntryAt(ss', x), Listing(ss'))
  }

  /** `wanted` matches the entry at slot `x` and nothing else. */
  ghost predicate NamesOnly(ss: seq<Slot>, wanted: string, x: nat) {
    forall i: nat :: Live(ss, i) ==> (EntryMatches(EntryAt(ss, i), wanted) <==> i == x)
  }

  lemma InsertionGains(ss: seq<Slot>, a: nat, run: seq<Slot>, ss': seq<Slot>, name: string, x: nat)
    requires run != [] && x == a + |run| - 1
    requires Inserted(ss, a, run, ss') && IsRun(run, name) && Shaped(ss)
    ensures ListingGains(ss, ss', x) && EntryAt(ss', x) == Entry(run[|run| - 1], x, name, |run| - 1)
  {
    hide IsRun, Shaped, Inserted, EntryAt, Live, Entries;
    InsertedGains(ss, a, run, ss', name, x);
    InsertionInserts(ss, a, run, ss', name);
    InsertedEntry(ss, a, run, ss', name);
    InsertedBounds(ss, a, run, ss');
    var after := if a + |run| <= End(ss) then Entries(ss, a + |run|, End(ss)) else [];
    GainedAt(Listing(ss), EntryAt(ss', x), Listing(ss'), Entries(ss, 0, a), after);
  }

  lemma InsertedBounds(ss: seq<Slot>, a: nat, run: seq<Slot>, ss': seq<Slot>)
    requires Inserted(ss, a, run, ss')
    ensures a + |run| <= |ss'| && a <= End(ss)
  {
  }

  /** A name that matched nothing matches exactly the entry created under it. */
  lemma CreatedIsFound(ss: seq<Slot>, a: nat, run: seq<Slot>, ss': seq<Slot>, name: string, wanted: string, x: nat)
    requires run != [] && x == a + |run| - 1
    requires Inserted(ss, a, run, ss') && IsRun(run, name) && Shaped(ss)
    requires Absent(Listing(ss), wanted) && Matches(name, Name(run[|run| - 1]), wanted)
    ensures NamesOnly(ss', wanted, x)
  {
    hide IsRun, Shaped, Inserted, EntryAt, Live, Entries, Listing, Matches;
    forall i: nat | Live(ss', i) ensures EntryMatches(EntryAt(ss', i), wanted) <==> i == x {
      InsertionLive(ss, a, run, ss', name, i);
      if i == x {
        InsertedEntry(ss, a, run, ss', name);
      } else {
        InsertionEntry(ss, a, run, ss', name, i);
        LiveIsListed(ss, i);
      }
    }
  }

  /** Short names stay pairwise distinct. */
  lemma CreatedIsDistinct(ss: seq<Slot>, a: nat, run: seq<Slot>, ss': seq<Slot>, name: string, x: nat)
    requires run != [] && x == a + |run| - 1
    requires Inserted(ss, a, run, ss') && IsRun(run, name) && Shaped(ss)
    requires DistinctNames(ss)
    requires forall e :: e in Listing(ss) ==> Name(e.slot) != Name(run[|run| - 1])
    ensures DistinctNames(ss')
  {
    hide IsRun, Shaped, Inserted, EntryAt, Live, Entries, Listing, Name;
    InsertedEntry(ss, a, run, ss', name);
    InsertedBounds(ss, a, run, ss');
    assert ss'[x] == run[|run| - 1];
    forall i: nat | Live(ss', i) && i != x
      ensures Live(ss, i) && Name(ss'[i]) == Name(ss[i]) && Name(ss[i]) != Name(ss'[x])
    {
      InsertionLive(ss, a, run, ss', name, i);
      LiveIsListed(ss, i);
    }
  }

  /** Storing into an extended directory is insertion into the original. */
  lemma InsertedFromShort(ss: seq<Slot>, ss1: seq<Slot>, a: nat, run: seq<Slot>, ss': seq<Slot>)
    requires OnlyEnds(ss, ss1) && Partly(ss1, a, run, |run|, ss') && Free(ss1, a, a + |run|) && EndShape(ss)
    ensures Inserted(ss1, a, run, ss') && Inserted(ss, a, run, ss')
  {
    assert forall q :: |ss| <= q < |ss1| ==> ss1[q] == ss1[|ss|..][q - |ss|];
    EndUnique(ss1, End(ss));
    PartlyAll(ss1, a, run, ss');
    assert forall q :: 0 <= q < |ss| ==> ss1[q] == ss[q];
  }

  // ------------------------------------------------------------------ storing a new entry

  /** The directory was only lengthened by end markers; nothing else moved. */
  ghost predicate Lengthened(v: Volume, d: nat, disk: Disk, l: Layout, ss: seq<Slot>, t: Table, disk1: Disk)
    reads v, v.fat.words
  {
    && Consistent(Geo(v), v.Table(), disk1, v.layout) && d in v.layout.dirs && d in v.layout.chains
    && SameHolders(l, v.layout)
    && Preserved(disk, l, disk1, v.layout, {d})
    && OnlyEnds(ss, DirSlots(disk1, v.layout.chains[d]))
    && |v.Table()| == |t|
  }

  /** `ls` are the places of the `n` slots from `a` on. */
  ghost predicate ArePlaces(v: Volume, ls: seq<Location>, d: nat, a: nat, n: nat)
    reads v
  {
    && d in v.layout.chains
    && var all := DirLocations(v.layout.chains[d], v.clusterSize / SLOT_SIZE);
    && a + n <= |all| && ls == all[a..a + n]
  }

  /**
    Stores long-name slots and their short entry in free slots of a directory.
    `disk1` is the disk just before the first of them was stored.
   */
  method PersistNewEntry(v: Volume, dirCluster: nat, longs: seq<Slot>, entry: Slot)
    returns (r: Option<(Location, seq<Location>)>, ghost a: nat, ghost disk1: Disk)
    requires Good(v) && dirCluster in v.layout.dirs
    modifies v`disk, v`copies, v`layout, v.fat.words
    ensures Lengthened(v, dirCluster, old(v.disk), old(v.layout), old(SlotsOf(v, dirCluster)), old(v.Table()), disk1)
    ensures Kept(old(v.Table()), old(v.disk), v.Table(), v.disk, v.reserved)
    ensures dirCluster in v.layout.chains
    ensures Formatted(v.Table(), v.disk, v.clusterSize) && OthersUntouched(disk1, v.disk, v.layout.chains, dirCluster)
    ensures (r.Some? || v.reliable) && old(v.Synced()) ==> v.Synced()
    ensures r.None? && v.reliable ==> v.disk == disk1 && FreeList(v.Table()) == []
    ensures r.Some? ==> Inserted(DirSlots(disk1, v.layout.chains[dirCluster]), a, longs + [entry],
              SlotsOf(v, dirCluster))
    ensures r.Some? ==> Inserted(old(SlotsOf(v, dirCluster)), a, longs + [entry], SlotsOf(v, dirCluster))
    ensures r.Some? ==>
              IsPlace(v, r.value.0, dirCluster, a + |longs|) && ArePlaces(v, r.value.1, dirCluster, a, |longs|)
    ensures r.Some? && |SlotsOf(v, dirCluster)| == |old(SlotsOf(v, dirCluster))| ==>
              v.Table() == old(v.Table()) && v.layout == old(v.layout)
  {
    hide Consistent, Preserved, DirSlots, DirLocations, FreeRun, Shaped, OnDisk, FreeList, IsChain, OnlyEnds, End,
      Kept, Inserted, Partly, Formatted, OthersUntouched, Room, Free, EndShape;
    ghost var d, t0, disk0, ss0 := dirCluster, v.Table(), v.disk, SlotsOf(v, dirCluster);
    DirFacts(v, d);
    var allocatedSlots;
    allocatedSlots, a := AllocateDirectorySlots(v, dirCluster, |longs| + 1);
    disk1 := v.disk;
    DirFacts(v, d);
    KeptLength(t0, disk0, v.Table(), v.disk, v.reserved);
    UntouchedSelf(disk1, v.layout.chains, d);
    GoodIsFormatted(v);
    if allocatedSlots.None? {
      return None, a, disk1;
    }
    var locations := allocatedSlots.value;
    RoomParts(v, d, a, locations);
    ghost var ss1 := SlotsOf(v, d);
    var stored := StoreRun(v, locations, longs + [entry], d, a);
    KeptTrans(t0, disk0, v.Table(), disk1, v.Table(), v.disk, v.reserved);
    if !stored {
      return None, a, disk1;
    }
    ShapedEnd(ss0);
    InsertedFromShort(ss0, ss1, a, longs + [entry], SlotsOf(v, d));
    PartlyLength(ss1, a, longs + [entry], |longs| + 1, SlotsOf(v, d));
    return Some((locations[|locations| - 1], locations[..|locations| - 1])), a, disk1;
  }

  lemma GoodIsFormatted(v: Volume)
    requires Good(v)
    ensures Formatted(v.Table(), v.disk, v.clusterSize)
  {
    hide Tree, Owned, Formatted;
  }

  /** However storing an entry ends, the other chains keep their bytes. */
  lemma OthersSpared(v: Volume, d: nat, disk: Disk, l: Layout, ss: seq<Slot>, t: Table, disk1: Disk)
    requires Lengthened(v, d, disk, l, ss, t, disk1) && OthersUntouched(disk1, v.disk, v.layout.chains, d)
    ensures SameHolders(l, v.layout) && Preserved(disk, l, v.disk, v.layout, {d})
  {
    hide Consistent, OnlyEnds, Data, SameHolders;
  }

  lemma KeptLength(t: Table, disk: Disk, t': Table, disk': Disk, reserved: set<nat>)
    requires Kept(t, disk, t', disk', reserved)
    ensures |t'| == |t|
  {
  }

  lemma ShapedEnd(ss: seq<Slot>)
    requires Shaped(ss)
    ensures EndShape(ss)
  {
  }

  // ------------------------------------------------------------------------ new files

  lemma NewFile(short: ShortName)
    requires Legal(short)
    ensures var s := FileEntry(short);
            && Name(s) == short && IsRegular(s) && IsShortEntry(s) && Cluster(s) == 0 && Size(s) == 0
            && Attributes(s) == FILE_ATTRIBUTES
            && !IsDotName(short)
  {
    var s := FileEntry(short);
    assert s[0] == short[0] && s[11] == FILE_ATTRIBUTES;
    assert s[20] == s[21] == s[26] == s[27] == s[28] == s[29] == s[30] == s[31] == 0;
    NumberOfFour([0, 0, 0, 0]);
    assert DotName(false)[0] == DotName(true)[0] == 0x2E;
  }

  /** Names the driver can store at all. */
  ghost predicate Nameable(name: string) {
    ShortOf(name).Some? || EncodeLongName(name).Some?
  }

  function TakenNames(parsed: seq<LocatedEntry>): (taken: seq<ShortName>)
    ensures |taken| == |parsed| && forall j :: 0 <= j < |parsed| ==> taken[j] == Name(parsed[j].entry)
  {
    seq(|parsed|, j requires 0 <= j < |parsed| => Name(parsed[j].entry))
  }

  /** `taken` are the short names of the listing. */
  ghost predicate AreTaken(ss: seq<Slot>, taken: seq<ShortName>) {
    |taken| == |Listing(ss)| && forall k :: 0 <= k < |taken| ==> taken[k] == Name(Listing(ss)[k].slot)
  }

  /** No listed entry has the short name prepared for a plain new name. */
  lemma PreparedUnlisted(ss: seq<Slot>, name: string, taken: seq<ShortName>, short: ShortName, longs: seq<Slot>)
    requires Plain(name) && Absent(Listing(ss), name) && Prepared(name, taken, short, longs)
    requires AreTaken(ss, taken)
    ensures forall e :: e in Listing(ss) ==> Name(e.slot) != short
  {
    hide Plain, Absent, Prepared, Listing, Name;
    var es := Listing(ss);
    forall e | e in es ensures Name(e.slot) != short {
      var j :| 0 <= j < |es| && es[j] == e;
      PreparedIsNew(name, es, taken, short, longs, j);
    }
  }

  /** What a stored, prepared name means for the listing. */
  lemma CreatedMeans(ss: seq<Slot>, a: nat, longs: seq<Slot>, s: Slot, ss': seq<Slot>, name: string,
                     taken: seq<ShortName>, x: nat)
    requires x == a + |longs| && Inserted(ss, a, longs + [s], ss') && Shaped(ss)
    requires Prepared(name, taken, Name(s), longs) && IsShortEntry(s) && Absent(Listing(ss), name)
    requires AreTaken(ss, taken)
    ensures ListingGains(ss, ss', x) && EntryAt(ss', x) == Entry(s, x, StoredName(name, Name(s), longs), |longs|)
    ensures Plain(name) ==> NamesOnly(ss', name, x)
    ensures Plain(name) && DistinctNames(ss) ==> DistinctNames(ss')
  {
    hide Shaped, Inserted, EntryAt, Live, Listing, Prepared, IsRun, Name, Matches, Plain, Absent, NamesOnly,
      DistinctNames, StoredName, AreTaken;
    var run, stored := longs + [s], StoredName(name, Name(s), longs);
    assert run[|run| - 1] == s && x == a + |run| - 1;
    PreparedRun(name, taken, Name(s), longs, s);
    InsertionGains(ss, a, run, ss', stored, x);
    if Plain(name) {
      PreparedMatches(name, taken, Name(s), longs);
      CreatedIsFound(ss, a, run, ss', stored, name, x);
      PreparedUnlisted(ss, name, taken, Name(s), longs);
      if DistinctNames(ss) {
        CreatedIsDistinct(ss, a, run, ss', stored, x);
      }
    }
  }

  lemma TakenListed(v: Volume, d: nat, parsed: seq<LocatedEntry>)
    requires d in v.layout.chains
    requires Located(ListingOf(v, d), DirLocations(v.layout.chains[d], v.clusterSize / SLOT_SIZE), parsed)
    ensures |parsed| == |ListingOf(v, d)|
    ensures forall k :: 0 <= k < |parsed| ==> TakenNames(parsed)[k] == Name(ListingOf(v, d)[k].slot)
  {
    hide DirSlots, DirLocations, Listing, EntryAt, IsEntry;
    forall k | 0 <= k < |parsed| ensures TakenNames(parsed)[k] == Name(ListingOf(v, d)[k].slot) {
      LocatedIsEntry(v, d, parsed, k);
    }
  }

  /** The volume after a file entry was stored. */
  lemma FileCreated(v: Volume, d: nat, disk: Disk, l: Layout, ss: seq<Slot>, t: Table, disk1: Disk, a: nat,
                    longs: seq<Slot>, s: Slot, name: string)
    requires Lengthened(v, d, disk, l, ss, t, disk1)
    requires Formatted(v.Table(), v.disk, v.clusterSize) && OthersUntouched(disk1, v.disk, v.layout.chains, d)
    requires Inserted(DirSlots(disk1, v.layout.chains[d]), a, longs + [s], DirSlots(v.disk, v.layout.chains[d]))
    requires IsRun(longs + [s], name)
    requires IsRegular(s) && Cluster(s) == 0 && Size(s) == 0 && !IsDotName(Name(s))
    ensures Good(v) && Preserved(disk, l, v.disk, v.layout, {d})
  {
    hide Consistent, Preserved, DirSlots, Inserted, IsRun, OnlyEnds, IsRegular, Cluster, Size, Formatted,
      OthersUntouched, SameHolders;
    var run := longs + [s];
    assert run[|run| - 1] == s;
    InsertFileCommit(Geo(v), v.Table(), disk1, v.layout, d, v.disk, a, run, name, a + |run| - 1);
    PreservedTrans(disk, l, disk1, v.layout, v.disk, v.layout, {d});
  }

  /** The checks every creation starts with: the name must be new and storable. */
  method PrepareNew(v: Volume, dirCluster: nat, name: string)
    returns (r: Option<(ShortName, seq<Slot>)>, ghost taken: seq<ShortName>)
    requires Good(v) && dirCluster in v.layout.dirs
    ensures r.Some? ==> Absent(ListingOf(v, dirCluster), name) && AreTaken(SlotsOf(v, dirCluster), taken)
    ensures r.Some? ==> Prepared(name, taken, r.value.0, r.value.1)
    ensures v.reliable && r.None? ==>
              !Absent(ListingOf(v, dirCluster), name) || !Nameable(name) || |ListingOf(v, dirCluster)| >= MAX_TAIL
  {
    hide Consistent, DirSlots, DirLocations, Listing, Located, Absent, Prepared, Matches, FirstMatch, IsEntry;
    taken := [];
    var parsed := ReadEntries(v, dirCluster);
    if parsed.None? {
      return None, [];
    }
    var found := FindParsedEntry(parsed.value, name);
    LookupMeans(v, dirCluster, parsed.value, name, if found.Some? then found.value else |parsed.value|);
    if found.Some? {
      FoundNotAbsent(v, dirCluster, parsed.value, name, found.value);
      return None, [];
    }
    TakenListed(v, dirCluster, parsed.value);
    taken := TakenNames(parsed.value);
    r := PrepareNameEntries(TakenNames(parsed.value), name);
  }

  /** Creates an empty file; refuses a name that matches a listed entry. */
  method CreateFile(v: Volume, dirCluster: nat, filename: string) returns (r: Option<LocatedEntry>, ghost x: nat)
    requires Good(v) && dirCluster in v.layout.dirs
    modifies v`disk, v`copies, v`layout, v.fat.words
    ensures SameHolders(old(v.layout), v.layout)
    ensures Preserved(old(v.disk), old(v.layout), v.disk, v.layout, {dirCluster})
    ensures r.Some? || v.reliable ==> Good(v)
    ensures (r.Some? || v.reliable) && old(v.Synced()) ==> v.Synced()
    ensures r.Some? ==> Absent(old(ListingOf(v, dirCluster)), filename) && Nameable(filename)
    ensures r.Some? ==> x < |SlotsOf(v, dirCluster)| && EntryAt(SlotsOf(v, dirCluster), x).name == StoredAs(filename)
    ensures r.Some? ==> ListingGains(old(SlotsOf(v, dirCluster)), SlotsOf(v, dirCluster), x)
    ensures r.Some? ==> FileHandle(v, r.value.location, dirCluster, x) && IsEntry(v, dirCluster, x, r.value)
    ensures r.Some? ==> FileBytes(v, dirCluster, x) == [] && Attributes(EntryOf(v, dirCluster, x)) == FILE_ATTRIBUTES
    ensures r.Some? && Plain(filename) ==> NamesOnly(SlotsOf(v, dirCluster), filename, x)
    ensures r.Some? && Plain(filename) && DistinctNames(old(SlotsOf(v, dirCluster))) ==>
              DistinctNames(SlotsOf(v, dirCluster))
    ensures r.Some? && |SlotsOf(v, dirCluster)| == |old(SlotsOf(v, dirCluster))| ==>
              v.Table() == old(v.Table()) && v.layout == old(v.layout)
    ensures v.reliable && r.None? ==> OnlyEnds(old(SlotsOf(v, dirCluster)), SlotsOf(v, dirCluster))
    ensures v.reliable && r.None? ==>
              || !Absent(old(ListingOf(v, dirCluster)), filename) || !Nameable(filename)
              || |old(ListingOf(v, dirCluster))| >= MAX_TAIL || FreeList(v.Table()) == []
  {
    hide Consistent, Preserved, DirSlots, DirLocations, Shaped, OnDisk, FreeList, OnlyEnds, Kept, Inserted, Formatted,
      OthersUntouched, Listing, Absent, Prepared, Plain, NamesOnly, DistinctNames, Live, EntryAt, IsRun, Legal,
      SameHolders, ListingGains, IsPlace, Cluster, Size, IsRegular, ArePlaces, Contents, FileHandle, IsEntry,
      Attributes, EntryOf, AreTaken, ShortOf, EncodeLongName, ShortText, StoredAs;
    ghost var d, t0, disk0, l0, ss0 := dirCluster, v.Table(), v.disk, v.layout, SlotsOf(v, dirCluster);
    x := 0;
    DirFacts(v, d);
    SelfSame(disk0, l0, ss0, d);
    var prepared; ghost var taken;
    prepared, taken := PrepareNew(v, dirCluster, filename);
    if prepared.None? {
      return None, 0;
    }
    var short, longs := prepared.value.0, prepared.value.1;
    PreparedLegal(filename, taken, short, longs);
    NewFile(short);
    var entry := FileEntry(short);
    var stored; ghost var a, disk1;
    stored, a, disk1 := PersistNewEntry(v, dirCluster, longs, entry);
    OthersSpared(v, d, disk0, l0, ss0, t0, disk1);
    if stored.None? {
      return None, 0;
    }
    x := a + |longs|;
    StoredNameIs(filename, taken, short, longs);
    PreparedRun(filename, taken, short, longs, entry);
    FileCreated(v, d, disk0, l0, ss0, t0, disk1, a, longs, entry, StoredName(filename, short, longs));
    CreatedMeans(ss0, a, longs, entry, SlotsOf(v, d), filename, taken, x);
    var name := if longs == [] then ShortText(short) else filename;
    NewHandle(v, d, a, |longs|, entry, name, ss0, stored.value.0, stored.value.1);
    return Some(LocatedEntry(entry, stored.value.0, name, stored.value.1)), x;
  }

  lemma NewHandle(v: Volume, d: nat, a: nat, n: nat, s: Slot, name: string, ss: seq<Slot>, at: Location,
                  ls: seq<Location>)
    requires IsPlace(v, at, d, a + n) && ArePlaces(v, ls, d, a, n) && v.clusterSize / SLOT_SIZE == PerCluster(Geo(v))
    requires ListingGains(ss, SlotsOf(v, d), a + n) && EntryAt(SlotsOf(v, d), a + n) == Entry(s, a + n, name, n)
    ensures IsEntry(v, d, a + n, LocatedEntry(s, at, name, ls)) && EntryOf(v, d, a + n) == s
    ensures a + n < |SlotsOf(v, d)|
    ensures IsRegular(s) ==> FileHandle(v, at, d, a + n)
    ensures Size(s) == 0 ==> FileBytes(v, d, a + n) == []
  {
    hide DirSlots, DirLocations, Live, IsRegular, Cluster, Size, Gained, Listing, EntryAt, Data;
  }

  lemma PreparedLegal(name: string, taken: seq<ShortName>, short: ShortName, longs: seq<Slot>)
    requires Prepared(name, taken, short, longs)
    ensures Legal(short)
  {
  }

  lemma SelfSame(disk: Disk, l: Layout, ss: seq<Slot>, d: nat)
    ensures Preserved(disk, l, disk, l, {d}) && SameHolders(l, l) && OnlyEnds(ss, ss)
  {
  }

  lemma FoundNotAbsent(v: Volume, d: nat, parsed: seq<LocatedEntry>, name: string, j: nat)
    requires d in v.layout.chains && j < |parsed|
    requires Located(ListingOf(v, d), DirLocations(v.layout.chains[d], v.clusterSize / SLOT_SIZE), parsed)
    requires Matches(parsed[j].name, Name(parsed[j].entry), name)
    ensures !Absent(ListingOf(v, d), name)
  {
    hide DirSlots, DirLocations, Listing, Matches, EntryAt, IsEntry;
    LocatedIsEntry(v, d, parsed, j);
  }
}
