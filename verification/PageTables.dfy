/**
  Editing the active page table from inside: every table below the top is seen
  only through one window page, whose own entry lies in the table being edited.
 */
module PageTables {

  import opened Base
  import opened PageEntries
  import opened PageTree

  /** Fixed pages: the window, the page holding its entry, the top table. */
  datatype Config = Config(root: Frame, rootPage: nat, window: nat, entryPage: nat, table: Frame)

  ghost function Walk(mem: Memory, c: Config, page: nat): Option<Frame> {
    Node(mem, c.root, PathOf(page))
  }

  ghost predicate OtherPage(c: Config, page: nat) {
    PathOf(page) != PathOf(c.window)
  }

  /** The window's entry is where the window mapper believes it to be. */
  ghost predicate WindowOk(mem: Memory, c: Config) {
    && Node(mem, c.root, PathOf(c.window)[..3]) == Some(c.table)
    && OtherPage(c, c.entryPage) && Walk(mem, c, c.entryPage) == Some(c.table)
    && OtherPage(c, c.rootPage) && Walk(mem, c, c.rootPage) == Some(c.root)
  }

  /** A slot that can become a table: mapped, but not in the tree. */
  ghost predicate SlotOk(mem: Memory, c: Config, s: nat) {
    && OtherPage(c, s) && Walk(mem, c, s).Some?
    && IsTable(mem, Walk(mem, c, s).value) && NotTable(mem, c.root, Walk(mem, c, s).value)
  }

  ghost predicate SlotsOk(mem: Memory, c: Config, slots: seq<nat>) {
    && (forall k :: 0 <= k < |slots| ==> SlotOk(mem, c, slots[k]))
    && (forall j, k :: 0 <= j < k < |slots| ==> Walk(mem, c, slots[j]) != Walk(mem, c, slots[k]))
  }

  ghost predicate Ready(mem: Memory, c: Config, slots: seq<nat>) {
    Shape(mem, c.root) && WindowOk(mem, c) && SlotsOk(mem, c, slots)
  }

  /** Only the window's entry may differ. */
  ghost predicate WindowOnly(mem: Memory, mem': Memory, c: Config) {
    && c.table in mem && P1(c.window) < |mem[c.table]|
    && exists e :: mem' == Write(mem, c.table, P1(c.window), e)
  }

  /** Walks to anything but the window agree, and so do their entries. */
  ghost predicate Agree(mem: Memory, mem': Memory, c: Config) {
    && (forall q: Path :: |q| <= 4 && q != PathOf(c.window) ==> Node(mem', c.root, q) == Node(mem, c.root, q))
    && (forall q: Path :: 1 <= |q| <= 4 && q != PathOf(c.window) ==>
      EntryOn(mem', c.root, q) == EntryOn(mem, c.root, q))
  }

  lemma PathParts(page: nat)
    ensures PathOf(page)[..3] + [P1(page)] == PathOf(page) && P1(page) < ENTRIES
    ensures PathOf(page)[..2] + [P2(page)] == PathOf(page)[..3]
    ensures PathOf(page)[..1] + [P3(page)] == PathOf(page)[..2]
    ensures [] + [P4(page)] == PathOf(page)[..1] && PathOf(page)[..0] == []
  {
  }

  lemma WindowWrite(mem: Memory, c: Config, slots: seq<nat>, e: Entry)
    requires Ready(mem, c, slots)
    ensures IsTable(mem, c.table) && P1(c.window) < ENTRIES
    ensures var mem' := Write(mem, c.table, P1(c.window), e);
            && Agree(mem, mem', c) && Shape(mem', c.root) && WindowOk(mem', c)
            && Walk(mem', c, c.window) == FrameOf(e) && EntryOn(mem', c.root, PathOf(c.window)) == e
            && WindowOnly(mem, mem', c)
  {
    hide FrameOf, Shape, Node, EntryOn, SlotsOk;
    var p := PathOf(c.window)[..3];
    PathParts(c.window);
    ShapeTable(mem, c.root, p);
    WriteLeaf(mem, c.root, p, c.table, P1(c.window), e);
    WriteHere(mem, c.root, p, c.table, P1(c.window), e);
  }

  lemma ShapeTable(mem: Memory, root: Frame, p: Path)
    requires Shape(mem, root) && |p| <= 3 && Node(mem, root, p).Some?
    ensures IsTable(mem, Node(mem, root, p).value)
  {
    hide Node, EntryOn, Intermediate;
  }

  /** Moving the window keeps everything else ready. */
  lemma WindowMoves(mem: Memory, mem': Memory, c: Config, slots: seq<nat>)
    requires Ready(mem, c, slots) && WindowOnly(mem, mem', c)
    ensures Ready(mem', c, slots) && Agree(mem, mem', c)
  {
    hide FrameOf, Shape, Node, EntryOn, IsTable, SlotsOk, WindowOk, Agree;
    var e :| mem' == Write(mem, c.table, P1(c.window), e);
    WindowWrite(mem, c, slots, e);
    SlotsStay(mem, mem', c, slots, e);
  }

  lemma SlotsStay(mem: Memory, mem': Memory, c: Config, slots: seq<nat>, e: Entry)
    requires SlotsOk(mem, c, slots) && Agree(mem, mem', c)
    requires c.table in mem && P1(c.window) < |mem[c.table]| && mem' == Write(mem, c.table, P1(c.window), e)
    ensures SlotsOk(mem', c, slots)
  {
    hide FrameOf, Node, EntryOn, IsTable, PathOf;
    forall k | 0 <= k < |slots| ensures SlotOk(mem', c, slots[k]) && Walk(mem', c, slots[k]) == Walk(mem, c, slots[k]) {
      assert SlotOk(mem, c, slots[k]);
      TablesStay(mem, c.table, P1(c.window), e, Walk(mem, c, slots[k]).value);
      NotTableStays(mem, mem', c, Walk(mem, c, slots[k]).value);
    }
  }

  lemma NotTableStays(mem: Memory, mem': Memory, c: Config, z: Frame)
    requires NotTable(mem, c.root, z) && Agree(mem, mem', c)
    ensures NotTable(mem', c.root, z)
  {
    hide Node, EntryOn;
  }

  lemma WindowTwice(mem: Memory, mem1: Memory, mem2: Memory, c: Config)
    requires WindowOnly(mem, mem1, c) && WindowOnly(mem1, mem2, c)
    ensures WindowOnly(mem, mem2, c)
  {
    var e :| mem1 == Write(mem, c.table, P1(c.window), e);
    var e2 :| mem2 == Write(mem1, c.table, P1(c.window), e2);
    assert mem1[c.table][P1(c.window) := e2] == mem[c.table][P1(c.window) := e2];
    assert mem2 == Write(mem, c.table, P1(c.window), e2);
  }

  lemma WindowSelf(mem: Memory, c: Config)
    requires c.table in mem && P1(c.window) < |mem[c.table]|
    ensures WindowOnly(mem, mem, c)
  {
    var i := P1(c.window);
    assert mem[c.table][i := mem[c.table][i]] == mem[c.table];
    assert mem == Write(mem, c.table, i, mem[c.table][i]);
  }

  /** The entry `q` ends with has gained these flags and no others. */
  ghost predicate Gained(mem: Memory, mem': Memory, c: Config, q: Path, flags: Flags)
    requires q != []
  {
    FlagsOf(EntryOn(mem', c.root, q)) == WithFlags(FlagsOf(EntryOn(mem, c.root, q)), flags)
  }

  /** The whole walk to a page grants exactly what `flags` ask for. */
  ghost predicate GrantsAsked(mem: Memory, c: Config, page: nat, flags: Flags) {
    var access := Access(mem, c.root, PathOf(page));
    && Contains(access, PRESENT)
    && (Contains(access, WRITABLE) <==> Contains(flags, WRITABLE))
    && (Contains(access, RING3_ACCESSIBLE) <==> Contains(flags, RING3_ACCESSIBLE))
  }

  /** Every page but this one and the window keeps its entry and loses no right. */
  ghost predicate OthersUnharmed(mem: Memory, mem': Memory, c: Config, page: nat) {
    forall other: nat :: PathOf(other) != PathOf(page) && OtherPage(c, other) ==>
      && EntryOn(mem', c.root, PathOf(other)) == EntryOn(mem, c.root, PathOf(other))
      && Contains(Access(mem', c.root, PathOf(other)), Access(mem, c.root, PathOf(other)))
  }

  /** On the upper levels only flags that grant access were added. */
  ghost predicate OnlyAccessAdded(mem: Memory, mem': Memory, c: Config, page: nat) {
    forall k :: 1 <= k <= 3 ==>
      FlagsOf(EntryOn(mem', c.root, PathOf(page)[..k])) & !ACCESS_MASK ==
      FlagsOf(EntryOn(mem, c.root, PathOf(page)[..k])) & !ACCESS_MASK
  }

  // ------------------------------------------------------------------------ the machine

  class Machine {
    const c: Config

    var mem: Memory
    var freeSlots: seq<nat>

    constructor (c: Config, mem: Memory, freeSlots: seq<nat>)
      ensures this.c == c && this.mem == mem && this.freeSlots == freeSlots
    {
      this.c, this.mem, this.freeSlots := c, mem, freeSlots;
    }

    ghost predicate Valid()
      reads this
    {
      Ready(mem, c, freeSlots)
    }

    /** The page at address `at` shows the table that `p` leads to. */
    ghost predicate Shows(at: nat, p: Path)
      reads this
    {
      |p| <= 3 && Walk(mem, c, at).Some? && Walk(mem, c, at) == Node(mem, c.root, p)
    }

    /** What the processor reads at a page. */
    function Entries(at: nat): seq<Entry>
      reads this
      requires Walk(mem, c, at).Some? && Walk(mem, c, at).value in mem
    {
      mem[Node(mem, c.root, PathOf(at)).value]
    }

    /** What the processor writes at a page. */
    method Store(at: nat, index: nat, e: Entry)
      requires Walk(mem, c, at).Some? && IsTable(mem, Walk(mem, c, at).value) && index < ENTRIES
      modifies this`mem
      ensures mem == Write(old(mem), Walk(old(mem), c, at).value, index, e)
    {
      var f := Node(mem, c.root, PathOf(at)).value;
      mem := Write(mem, f, index, e);
    }

    /** Points the window at a frame. */
    method SetWindow(frame: Frame)
      requires Valid()
      modifies this`mem
      ensures WindowOnly(old(mem), mem, c) && Valid()
      ensures Walk(mem, c, c.window) == Some(frame)
      ensures Contains(FlagsOf(EntryOn(mem, c.root, PathOf(c.window))), WRITABLE)
    {
      hide Ready, FrameOf, FlagsOf, MakeEntry, Node, EntryOn, Contains;
      WindowFacts(mem, c, freeSlots);
      var flags := WithFlags(PRESENT, WRITABLE);
      UnionContains(PRESENT, WRITABLE);
      EntryRoundTrip(frame, flags);
      ghost var mem0 := mem;
      WindowWrite(mem, c, freeSlots, MakeEntry(frame, flags));
      Store(c.entryPage, P1(c.window), MakeEntry(frame, flags));
      WindowMoves(mem0, mem, c, freeSlots);
    }

    /** The next table, seen through the window; only valid until it moves. */
    method NextTableTemp(at: nat, index: nat, ghost p: Path) returns (r: Option<nat>)
      requires Valid() && Shows(at, p) && |p| <= 2 && index < ENTRIES
      modifies this`mem
      ensures WindowOnly(old(mem), mem, c) && Valid()
      ensures r.None? <==> Node(old(mem), c.root, p + [index]).None?
      ensures r.Some? ==> r.value == c.window && Shows(c.window, p + [index])
    {
      hide Ready, FrameOf, Node, EntryOn, WindowOnly, IsTable, Agree;
      ghost var mem0 := mem;
      TableAt(mem, c, freeSlots, p, index);
      var entry := Entries(at)[index];
      UnusedHasNoFrame();
      if entry == UNUSED {
        return None;
      }
      var frame := FrameOf(entry);
      if frame.None? {
        return None;
      }
      SetWindow(frame.value);
      AgreeAt(mem0, mem, c, freeSlots, p + [index]);
      return Some(c.window);
    }

    /** The lowest table on the walk to a page, seen through the window. */
    method LeafTable(page: nat) returns (r: Option<nat>)
      requires Valid()
      modifies this`mem
      ensures WindowOnly(old(mem), mem, c) && Valid()
      ensures r.None? <==> Node(old(mem), c.root, PathOf(page)[..3]).None?
      ensures r.Some? ==> r.value == c.window && Shows(c.window, PathOf(page)[..3])
    {
      hide Ready, FrameOf, Node, EntryOn, WindowOnly, IsTable, Agree;
      ghost var mem0 := mem;
      PathParts(page);
      RootShows(mem, c, freeSlots);
      r := NextTableTemp(c.rootPage, P4(page), []);
      if r.None? {
        ShortWalk(mem0, c, page, 1, 3);
        return None;
      }
      ghost var mem1 := mem;
      AgreeAt(mem0, mem1, c, freeSlots, PathOf(page)[..2]);
      r := NextTableTemp(r.value, P3(page), PathOf(page)[..1]);
      WindowTwice(mem0, mem1, mem, c);
      if r.None? {
        ShortWalk(mem0, c, page, 2, 3);
        return None;
      }
      ghost var mem2 := mem;
      AgreeAt(mem0, mem2, c, freeSlots, PathOf(page)[..3]);
      r := NextTableTemp(r.value, P2(page), PathOf(page)[..2]);
      WindowTwice(mem0, mem2, mem, c);
    }

    /** The frame a page maps to, found by moving the window down the levels. */
    method TranslateToPhys(page: nat) returns (r: Option<Frame>)
      requires Valid()
      modifies this`mem
      ensures WindowOnly(old(mem), mem, c) && Valid()
      ensures OtherPage(c, page) ==> r == Walk(old(mem), c, page)
    {
      hide Ready, FrameOf, Node, EntryOn, WindowOnly, IsTable, Agree;
      ghost var mem0 := mem;
      PathParts(page);
      var at := LeafTable(page);
      if at.None? {
        ShortWalk(mem0, c, page, 3, 4);
        return None;
      }
      AgreeAt(mem0, mem, c, freeSlots, PathOf(page));
      TableAt(mem, c, freeSlots, PathOf(page)[..3], P1(page));
      return FrameOf(Entries(at.value)[P1(page)]);
    }

    /** Whether nothing at all is stored for a page. */
    method IsUnused(page: nat) returns (unused: bool)
      requires Valid()
      modifies this`mem
      ensures WindowOnly(old(mem), mem, c) && Valid()
      ensures OtherPage(c, page) ==> (unused <==> EntryOn(old(mem), c.root, PathOf(page)) == UNUSED)
    {
      hide Ready, FrameOf, Node, WindowOnly, IsTable, Agree;
      ghost var mem0 := mem;
      PathParts(page);
      var at := LeafTable(page);
      if at.None? {
        return true;
      }
      AgreeAt(mem0, mem, c, freeSlots, PathOf(page));
      TableAt(mem, c, freeSlots, PathOf(page)[..3], P1(page));
      return Entries(at.value)[P1(page)] == UNUSED;
    }

    /** Removes a mapping and returns the frame it held. */
    method Unmap(page: nat) returns (r: Option<Frame>)
      requires Valid()
      modifies this`mem
      ensures OtherPage(c, page) ==> r == Walk(old(mem), c, page)
      ensures r.Some? ==> Walk(mem, c, page) == None
      ensures Elsewhere(old(mem), mem, c, PathOf(page))
      ensures Apart(c, freeSlots, page) || r.None? ==> Valid()
    {
      hide Ready, FrameOf, Node, EntryOn, WindowOnly, IsTable, Agree, Apart, Elsewhere;
      ghost var mem0 := mem;
      PathParts(page);
      var at := LeafTable(page);
      WindowElsewhere(mem0, mem, c, freeSlots, PathOf(page));
      if at.None? {
        ShortWalk(mem0, c, page, 3, 4);
        return None;
      }
      AgreeAt(mem0, mem, c, freeSlots, PathOf(page));
      TableAt(mem, c, freeSlots, PathOf(page)[..3], P1(page));
      r := FrameOf(Entries(at.value)[P1(page)]);
      if r.None? {
        return None;
      }
      ghost var mem1 := mem;
      LeafStored(mem1, c, freeSlots, page, Walk(mem1, c, at.value).value, UNUSED);
      UnusedHasNoFrame();
      Store(at.value, P1(page), UNUSED);
      ElsewhereTwice(mem0, mem1, mem, c, PathOf(page));
    }

    /** Takes a slot and clears it. */
    method AllocSlot() returns (slot: nat)
      requires Valid() && freeSlots != []
      modifies this`mem, this`freeSlots
      ensures slot == old(freeSlots[|freeSlots| - 1]) && freeSlots == old(freeSlots[..|freeSlots| - 1])
      ensures Walk(old(mem), c, slot).Some? && mem == old(mem)[Walk(old(mem), c, slot).value := Blank()]
    {
      hide Node, FrameOf, Shape;
      slot := freeSlots[|freeSlots| - 1];
      assert SlotOk(mem, c, slot);
      freeSlots := freeSlots[..|freeSlots| - 1];
      mem := mem[Node(mem, c.root, PathOf(slot)).value := Blank()];
    }

    /** Adds missing flags to the entry of an existing table. */
    method UpgradeEntry(at: nat, index: nat, flags: Flags, ghost p: Path)
      requires Valid() && Shows(at, p) && |p| <= 2 && index < ENTRIES && TableFlags(flags)
      requires Node(mem, c.root, p + [index]).Some?
      modifies this`mem
      ensures Valid() && Shows(at, p) && Elsewhere(old(mem), mem, c, p + [index])
      ensures Node(mem, c.root, p + [index]) == Node(old(mem), c.root, p + [index])
      ensures Gained(old(mem), mem, c, p + [index], flags)
      ensures Walk(mem, c, c.window) == Walk(old(mem), c, c.window)
    {
      hide Ready, FrameOf, FlagsOf, Node, EntryOn, IsTable, Elsewhere, MakeEntry, WithFlags, Contains, TableFlags,
        PathOf;
      ghost var mem0, f := mem, Walk(mem, c, at).value;
      TableAt(mem, c, freeSlots, p, index);
      var entry := Entries(at)[index];
      var existing := FlagsOf(entry);
      ElsewhereSelf(mem, c, p + [index]);
      UnusedHasNoFrame();
      NotHuge(mem, c, freeSlots, p + [index]);
      UnionAbsorbs(existing, flags);
      if !Contains(existing, flags) && !Contains(existing, HUGE_PAGE) {
        var frame := FrameOf(entry);
        if frame.Some? {
          var e := MakeEntry(frame.value, WithFlags(existing, flags));
          UpgradedEntry(entry, frame.value, flags);
          Upgraded(mem0, c, freeSlots, p, f, index, e, at);
          Store(at, index, e);
        }
      }
    }

    /**
      The frame behind a slot. Finding it moves the window, which may be showing
      the very table being edited, so its target is saved and restored.
     */
    method SlotFrame(slot: nat) returns (phys: Option<Frame>)
      requires Valid() && OtherPage(c, slot)
      modifies this`mem
      ensures WindowOnly(old(mem), mem, c) && Valid()
      ensures phys == Walk(old(mem), c, slot)
      ensures Walk(old(mem), c, c.window).Some? ==> Walk(mem, c, c.window) == Walk(old(mem), c, c.window)
    {
      hide Ready, FrameOf, Node, EntryOn, IsTable, PathOf, WindowOnly, Shape;
      ghost var mem0 := mem;
      WindowFacts(mem, c, freeSlots);
      TableAt(mem, c, freeSlots, PathOf(c.window)[..3], P1(c.window));
      PathParts(c.window);
      var restore := FrameOf(Entries(c.entryPage)[P1(c.window)]);
      phys := TranslateToPhys(slot);
      ghost var mem1 := mem;
      if restore.Some? {
        SetWindow(restore.value);
        WindowTwice(mem0, mem1, mem, c);
      }
    }

    /** Links a cleared slot below an unused entry. */
    method LinkNewTable(at: nat, index: nat, flags: Flags, ghost p: Path) returns (slot: nat)
      requires Valid() && Shows(at, p) && |p| <= 2 && index < ENTRIES && TableFlags(flags) && freeSlots != []
      requires EntryOn(mem, c.root, p + [index]) == UNUSED
      modifies this`mem, this`freeSlots
      ensures Valid() && Shows(slot, p + [index]) && Elsewhere(old(mem), mem, c, p + [index])
      ensures slot == old(freeSlots[|freeSlots| - 1]) && freeSlots == old(freeSlots[..|freeSlots| - 1])
      ensures FlagsOf(EntryOn(mem, c.root, p + [index])) == flags
    {
      hide Ready, FrameOf, FlagsOf, Node, EntryOn, IsTable, Elsewhere, MakeEntry, Contains, TableFlags, PathOf,
        WindowOnly, NotTable, Blank;
      ghost var mem0, slots0, f := mem, freeSlots, Walk(mem, c, at).value;
      slot := AllocSlot();
      ghost var mem1, z := mem, Walk(mem0, c, slot).value;
      SlotTaken(mem0, c, slots0, slot, z, at, p, p + [index]);
      var phys := SlotFrame(slot);
      ghost var mem3 := mem;
      Restored(mem1, mem3, c, freeSlots, at, p, z);
      AgreeAt(mem1, mem3, c, freeSlots, p + [index]);
      SlotsAgree(mem1, mem3, c, freeSlots, slot);
      UsableEntry(phys.value, flags);
      Linked(mem3, c, freeSlots, p, f, index, z, MakeEntry(phys.value, flags), slot);
      Store(at, index, MakeEntry(phys.value, flags));
      WindowElsewhere(mem1, mem3, c, freeSlots, p + [index]);
      ElsewhereTwice(mem0, mem1, mem3, c, p + [index]);
      ElsewhereTwice(mem0, mem3, mem, c, p + [index]);
    }

    /** The next table of a walk, created when it does not exist yet. */
    method NextTableCreate(at: nat, index: nat, flags: Flags, ghost p: Path) returns (next: nat)
      requires Valid() && Shows(at, p) && |p| <= 2 && index < ENTRIES && TableFlags(flags) && freeSlots != []
      modifies this`mem, this`freeSlots
      ensures Valid() && Shows(next, p + [index]) && Elsewhere(old(mem), mem, c, p + [index])
      ensures Node(old(mem), c.root, p + [index]).Some? ==>
                Node(mem, c.root, p + [index]) == Node(old(mem), c.root, p + [index])
      ensures Gained(old(mem), mem, c, p + [index], flags)
      ensures freeSlots == old(freeSlots) || freeSlots == old(freeSlots[..|freeSlots| - 1])
    {
      hide Ready, FrameOf, FlagsOf, Node, EntryOn, IsTable, Elsewhere, Contains, TableFlags, PathOf, WindowOnly,
        WithFlags;
      TableAt(mem, c, freeSlots, p, index);
      UnusedHasNoFrame();
      UnionAbsorbs(0, flags);
      NotHuge(mem, c, freeSlots, p + [index]);
      if Entries(at)[index] != UNUSED {
        ghost var mem0 := mem;
        UpgradeEntry(at, index, flags, p);
        ghost var mem1 := mem;
        var r := NextTableTemp(at, index, p);
        AgreeAt(mem1, mem, c, freeSlots, p + [index]);
        WindowElsewhere(mem1, mem, c, freeSlots, p + [index]);
        ElsewhereTwice(mem0, mem1, mem, c, p + [index]);
        return r.value;
      }
      next := LinkNewTable(at, index, flags, p);
    }

    /**
      Maps a page: afterwards it translates to `frame` and grants exactly what
      `flags` ask for. Every other page but the window translates as before,
      with the same entry, and loses no right.
     */
    method MapTo(page: nat, frame: Frame, flags: Flags)
      requires Valid() && |freeSlots| >= 3
      modifies this`mem, this`freeSlots
      ensures Walk(mem, c, page) == Some(frame)
      ensures forall other: nat :: PathOf(other) != PathOf(page) && OtherPage(c, other) ==>
                Walk(mem, c, other) == Walk(old(mem), c, other)
      ensures EntryOn(mem, c.root, PathOf(page)) == MakeEntry(frame, WithFlags(flags, PRESENT))
      ensures GrantsAsked(mem, c, page, flags)
      ensures OthersUnharmed(old(mem), mem, c, page) && OnlyAccessAdded(old(mem), mem, c, page)
      ensures |freeSlots| >= |old(freeSlots)| - 3 && freeSlots <= old(freeSlots)
      ensures Apart(c, old(freeSlots), page) ==> Valid()
    {
      hide Ready, FrameOf, FlagsOf, Node, EntryOn, IsTable, Elsewhere, Contains, TableFlags, PathOf, WindowOnly,
        MakeEntry, WithFlags, Access, Upgrades, Gained, GrantsAsked, OthersUnharmed, OnlyAccessAdded, Suffices;
      ghost var mem0, slots0 := mem, freeSlots;
      var tableFlags: Flags := WithFlags(PRESENT, WRITABLE);
      if Contains(flags, RING3_ACCESSIBLE) {
        tableFlags := WithFlags(tableFlags, RING3_ACCESSIBLE);
      }
      ChosenSuffice(flags, tableFlags);
      PathParts(page);
      RootShows(mem, c, freeSlots);
      ghost var path := PathOf(page);
      var pml3 := NextTableCreate(c.rootPage, P4(page), tableFlags, []);
      ghost var mem1 := mem;
      var pml2 := NextTableCreate(pml3, P3(page), tableFlags, path[..1]);
      ghost var mem2 := mem;
      var pml1 := NextTableCreate(pml2, P2(page), tableFlags, path[..2]);
      ghost var mem3 := mem;
      UnionContains(flags, PRESENT);
      EntryRoundTrip(frame, WithFlags(flags, PRESENT));
      LeafStored(mem3, c, freeSlots, page, Walk(mem3, c, pml1).value, MakeEntry(frame, WithFlags(flags, PRESENT)));
      Store(pml1, P1(page), MakeEntry(frame, WithFlags(flags, PRESENT)));
      MappedPages(mem0, mem1, mem2, mem3, mem, c, page);
      MappedFlags(mem0, mem1, mem2, mem3, mem, c, page, tableFlags);
      MappedAccess(mem0, mem, c, page, flags, tableFlags);
      OthersKeepAccess(mem0, mem1, mem2, mem3, mem, c, page, tableFlags);
      FewerSlots(c, slots0, freeSlots, page);
    }

    /** Mapping an unmapped page and unmapping it restores every translation. */
    method MapThenUnmap(page: nat, frame: Frame, flags: Flags) returns (r: Option<Frame>)
      requires Valid() && |freeSlots| >= 3 && Apart(c, freeSlots, page) && OtherPage(c, page)
               && Walk(mem, c, page) == None
      modifies this`mem, this`freeSlots
      ensures r == Some(frame) && Valid()
      ensures forall other: nat :: OtherPage(c, other) ==> Walk(mem, c, other) == Walk(old(mem), c, other)
    {
      hide Ready, FrameOf, FlagsOf, Node, EntryOn, Contains, PathOf, Apart, MakeEntry, WithFlags;
      ghost var mem0, slots0 := mem, freeSlots;
      MapTo(page, frame, flags);
      FewerSlots(c, slots0, freeSlots, page);
      ghost var mem1 := mem;
      r := Unmap(page);
      PathLengths();
      forall other: nat | OtherPage(c, other) ensures Walk(mem, c, other) == Walk(mem0, c, other) {
        assert PathOf(other) != PathOf(page) ==> Walk(mem, c, other) == Walk(mem1, c, other);
      }
    }
  }

  // --------------------------------------------------------------------- facts about it

  lemma WindowFacts(mem: Memory, c: Config, slots: seq<nat>)
    requires Ready(mem, c, slots)
    ensures Shape(mem, c.root) && WindowOk(mem, c)
    ensures IsTable(mem, c.table) && WindowOnly(mem, mem, c)
  {
    hide Node, EntryOn, FrameOf;
    ShapeTable(mem, c.root, PathOf(c.window)[..3]);
    PathParts(c.window);
    WindowSelf(mem, c);
  }

  lemma RootShows(mem: Memory, c: Config, slots: seq<nat>)
    requires Ready(mem, c, slots)
    ensures Walk(mem, c, c.rootPage) == Some(c.root) == Node(mem, c.root, []) && WindowOnly(mem, mem, c)
  {
    hide Shape, SlotsOk;
    WindowFacts(mem, c, slots);
  }

  /** A node's table, and the entry that decides the next step. */
  lemma TableAt(mem: Memory, c: Config, slots: seq<nat>, p: Path, index: nat)
    requires Ready(mem, c, slots) && |p| <= 3 && Node(mem, c.root, p).Some? && index < ENTRIES
    ensures IsTable(mem, Node(mem, c.root, p).value) && WindowOnly(mem, mem, c)
    ensures var e := mem[Node(mem, c.root, p).value][index];
            Node(mem, c.root, p + [index]) == FrameOf(e) && EntryOn(mem, c.root, p + [index]) == e
    ensures Node(mem, c.root, p).value in mem && |mem[Node(mem, c.root, p).value]| == ENTRIES
  {
    hide FrameOf, SlotsOk, Node, EntryOn, Shape;
    WindowFacts(mem, c, slots);
    ShapeTable(mem, c.root, p);
    NodeStep(mem, c.root, p, index);
  }

  lemma NodeStep(mem: Memory, root: Frame, p: Path, i: nat)
    requires Node(mem, root, p).Some?
    ensures EntryOn(mem, root, p + [i]) == EntryIn(mem, Node(mem, root, p).value, i)
    ensures Node(mem, root, p + [i]) == FrameOf(EntryIn(mem, Node(mem, root, p).value, i))
  {
    hide FrameOf;
    assert (p + [i])[..|p|] == p;
  }

  lemma AgreeAt(mem: Memory, mem': Memory, c: Config, slots: seq<nat>, q: Path)
    requires Ready(mem, c, slots) && WindowOnly(mem, mem', c) && |q| <= 4
    ensures q != PathOf(c.window) ==> Node(mem', c.root, q) == Node(mem, c.root, q)
    ensures q != [] && q != PathOf(c.window) ==> EntryOn(mem', c.root, q) == EntryOn(mem, c.root, q)
  {
    hide Ready, FrameOf, Node, EntryOn;
    WindowMoves(mem, mem', c, slots);
  }

  /** A walk that stops early stays stopped. */
  lemma ShortWalk(mem: Memory, c: Config, page: nat, k: nat, n: nat)
    requires k <= n <= 4 && Node(mem, c.root, PathOf(page)[..k]).None?
    ensures Node(mem, c.root, PathOf(page)[..n]).None?
    ensures n == 4 ==> Walk(mem, c, page).None?
  {
    hide Node, FrameOf;
    var q := PathOf(page)[..n];
    assert q[..k] == PathOf(page)[..k];
    assert n == 4 ==> q == PathOf(page);
    if Node(mem, c.root, q).Some? {
      PrefixNode(mem, c.root, q, k);
    }
  }

  // ------------------------------------------------------------------------- leaf edits

  /** Walks to anything but `except` and the window agree. */
  ghost predicate Elsewhere(mem: Memory, mem': Memory, c: Config, except: Path) {
    && (forall q: Path :: |q| <= 4 && q != PathOf(c.window) && q != except ==>
      Node(mem', c.root, q) == Node(mem, c.root, q))
    && (forall q: Path :: 1 <= |q| <= 4 && q != PathOf(c.window) && q != except ==>
          EntryOn(mem', c.root, q) == EntryOn(mem, c.root, q))
  }

  lemma WindowElsewhere(mem: Memory, mem': Memory, c: Config, slots: seq<nat>, except: Path)
    requires Ready(mem, c, slots) && WindowOnly(mem, mem', c)
    ensures Elsewhere(mem, mem', c, except)
  {
    hide Ready, Node, EntryOn, WindowOnly;
    WindowMoves(mem, mem', c, slots);
  }

  lemma ElsewhereTwice(mem: Memory, mem1: Memory, mem2: Memory, c: Config, except: Path)
    requires Elsewhere(mem, mem1, c, except) && Elsewhere(mem1, mem2, c, except)
    ensures Elsewhere(mem, mem2, c, except)
  {
    hide Node, EntryOn;
  }

  /** A page the machinery itself does not rely on. */
  ghost predicate Apart(c: Config, slots: seq<nat>, page: nat) {
    && PathOf(page) != PathOf(c.entryPage) && PathOf(page) != PathOf(c.rootPage)
    && forall k :: 0 <= k < |slots| ==> PathOf(page) != PathOf(slots[k])
  }

  /** What keeps the machinery ready: the same tables, and perhaps `z` more. */
  lemma StaysReady(mem: Memory, mem': Memory, c: Config, slots: seq<nat>, z: Option<Frame>)
    requires Ready(mem, c, slots) && Shape(mem', c.root)
    requires forall g: Frame :: IsTable(mem, g) ==> IsTable(mem', g)
    requires forall q: Path :: |q| <= 3 ==>
             Node(mem', c.root, q) == Node(mem, c.root, q) || (z.Some? && Node(mem', c.root, q) == z)
    requires Node(mem', c.root, PathOf(c.window)[..3]) == Node(mem, c.root, PathOf(c.window)[..3])
    requires Walk(mem', c, c.entryPage) == Walk(mem, c, c.entryPage)
             && Walk(mem', c, c.rootPage) == Walk(mem, c, c.rootPage)
    requires forall k :: 0 <= k < |slots| ==>
             Walk(mem', c, slots[k]) == Walk(mem, c, slots[k]) && (z.Some? ==> Walk(mem, c, slots[k]) != z)
    ensures Ready(mem', c, slots)
  {
    hide Node, EntryOn, Shape, IsTable, PathOf;
    forall k | 0 <= k < |slots| ensures SlotOk(mem', c, slots[k]) {
      assert SlotOk(mem, c, slots[k]);
    }
  }

  lemma LeafStored(mem: Memory, c: Config, slots: seq<nat>, page: nat, f: Frame, e: Entry)
    requires Ready(mem, c, slots) && Node(mem, c.root, PathOf(page)[..3]) == Some(f)
    ensures IsTable(mem, f) && P1(page) < ENTRIES
    ensures var mem' := Write(mem, f, P1(page), e);
            && Elsewhere(mem, mem', c, PathOf(page))
            && Walk(mem', c, page) == FrameOf(e) && EntryOn(mem', c.root, PathOf(page)) == e
            && (Apart(c, slots, page) ==> Ready(mem', c, slots))
  {
    hide FrameOf, Node, EntryOn, Shape, PathOf, SlotsOk;
    var p := PathOf(page)[..3];
    PathParts(page);
    ShapeTable(mem, c.root, p);
    var mem' := Write(mem, f, P1(page), e);
    WriteLeaf(mem, c.root, p, f, P1(page), e);
    WriteHere(mem, c.root, p, f, P1(page), e);
    if Apart(c, slots, page) {
      forall g: Frame | IsTable(mem, g) ensures IsTable(mem', g) {
        TablesStay(mem, f, P1(page), e, g);
      }
      StaysReady(mem, mem', c, slots, None);
    }
  }

  // ------------------------------------------------------------------- table edits

  /** Flags fit for the entry of a table. */
  ghost predicate TableFlags(flags: Flags) {
    Contains(flags, PRESENT) && !Contains(flags, HUGE_PAGE)
  }

  lemma ElsewhereSelf(mem: Memory, c: Config, except: Path)
    ensures Elsewhere(mem, mem, c, except)
  {
  }

  lemma NotHuge(mem: Memory, c: Config, slots: seq<nat>, q: Path)
    requires Ready(mem, c, slots) && 1 <= |q| <= 3
    ensures EntryOn(mem, c.root, q) != UNUSED ==>
              Node(mem, c.root, q).Some? && !Contains(FlagsOf(EntryOn(mem, c.root, q)), HUGE_PAGE)
  {
    hide Node, EntryOn, SlotsOk, WindowOk, FlagsOf, Contains;
    ShapeAt(mem, c.root, q);
  }

  lemma UpgradedEntry(entry: Entry, frame: Frame, flags: Flags)
    requires FrameOf(entry) == Some(frame) && TableFlags(flags) && !Contains(FlagsOf(entry), HUGE_PAGE)
    ensures var e := MakeEntry(frame, WithFlags(FlagsOf(entry), flags));
            && FrameOf(e) == Some(frame) && FlagsOf(e) == WithFlags(FlagsOf(entry), flags)
            && !Contains(FlagsOf(e), HUGE_PAGE)
  {
    hide FlagsOf, MakeEntry, WithFlags, Contains;
    UnionContains(FlagsOf(entry), flags);
    ContainsTrans(WithFlags(FlagsOf(entry), flags), flags, PRESENT);
    EntryRoundTrip(frame, WithFlags(FlagsOf(entry), flags));
  }

  lemma UsableEntry(frame: Frame, flags: Flags)
    requires TableFlags(flags)
    ensures var e := MakeEntry(frame, flags);
            FrameOf(e) == Some(frame) && FlagsOf(e) == flags && Contains(flags, flags)
              && !Contains(FlagsOf(e), HUGE_PAGE)
  {
    hide FlagsOf, MakeEntry, FrameOf;
    EntryRoundTrip(frame, flags);
  }

  lemma Upgraded(mem: Memory, c: Config, slots: seq<nat>, p: Path, f: Frame, i: nat, e: Entry, at: nat)
    requires Ready(mem, c, slots) && |p| <= 2 && Node(mem, c.root, p) == Some(f) && i < ENTRIES
             && Walk(mem, c, at) == Some(f)
    requires FrameOf(e).Some? && FrameOf(e) == Node(mem, c.root, p + [i]) && !Contains(FlagsOf(e), HUGE_PAGE)
    ensures IsTable(mem, f)
    ensures var mem' := Write(mem, f, i, e);
            && Ready(mem', c, slots) && Elsewhere(mem, mem', c, p + [i])
            && Node(mem', c.root, p + [i]) == Node(mem, c.root, p + [i]) && EntryOn(mem', c.root, p + [i]) == e
            && Node(mem', c.root, p) == Some(f) && Walk(mem', c, at) == Some(f)
            && Walk(mem', c, c.window) == Walk(mem, c, c.window)
  {
    hide FrameOf, FlagsOf, Contains, Node, EntryOn, Shape, PathOf, SlotsOk, WindowOk;
    ShapeTable(mem, c.root, p);
    NodeStep(mem, c.root, p, i);
    var mem' := Write(mem, f, i, e);
    WriteSameFrame(mem, c.root, p, f, i, e);
    WriteHere(mem, c.root, p, f, i, e);
    PathLengths();
    forall g: Frame | IsTable(mem, g) ensures IsTable(mem', g) {
      TablesStay(mem, f, i, e, g);
    }
    StaysReady(mem, mem', c, slots, None);
  }

  lemma PathLengths()
    ensures forall page: nat :: |PathOf(page)| == 4
  {
  }

  /** After taking a slot: it is blank, no table, and the rest is ready. */
  lemma SlotTaken(mem: Memory, c: Config, slots: seq<nat>, s: nat, z: Frame, at: nat, p: Path, q: Path)
    requires Ready(mem, c, slots) && slots != [] && s == slots[|slots| - 1] && Walk(mem, c, s) == Some(z)
    requires |p| <= 3 && 1 <= |q| <= 3
    ensures var mem', rest := mem[z := Blank()], slots[..|slots| - 1];
            && Ready(mem', c, rest) && NotTable(mem', c.root, z) && OtherPage(c, s)
            && (forall k :: 0 <= k < |rest| ==> Walk(mem', c, rest[k]) != Some(z))
            && Walk(mem', c, at) == Walk(mem, c, at) && Node(mem', c.root, p) == Node(mem, c.root, p)
            && Walk(mem', c, s) == Some(z) && EntryOn(mem', c.root, q) == EntryOn(mem, c.root, q)
            && Elsewhere(mem, mem', c, q)
  {
    hide FrameOf, Node, EntryOn, Shape, PathOf, Blank;
    var mem', rest := mem[z := Blank()], slots[..|slots| - 1];
    assert SlotOk(mem, c, s);
    WriteOutside(mem, c.root, z, Blank());
    PathLengths();
    BlankIsTable(mem, z);
    assert Ready(mem, c, rest);
    forall k | 0 <= k < |rest| ensures Walk(mem', c, rest[k]) == Walk(mem, c, rest[k])
      && Walk(mem, c, rest[k]) != Some(z) {
      assert rest[k] == slots[k];
    }
    StaysReady(mem, mem', c, rest, None);
  }

  lemma BlankIsTable(mem: Memory, z: Frame)
    ensures forall g: Frame :: IsTable(mem, g) ==> IsTable(mem[z := Blank()], g)
  {
  }

  /** With the window restored, every address shows what it showed before. */
  lemma Restored(mem: Memory, mem': Memory, c: Config, slots: seq<nat>, at: nat, p: Path, z: Frame)
    requires Ready(mem, c, slots) && WindowOnly(mem, mem', c) && |p| <= 3
    requires Walk(mem, c, at).Some? && NotTable(mem, c.root, z)
    requires Walk(mem, c, c.window).Some? ==> Walk(mem', c, c.window) == Walk(mem, c, c.window)
    ensures Walk(mem', c, at) == Walk(mem, c, at) && Node(mem', c.root, p) == Node(mem, c.root, p)
    ensures NotTable(mem', c.root, z)
    ensures z in mem ==> c.table != z && z in mem' && mem'[z] == mem[z]
  {
    hide Node, EntryOn, PathOf, Ready;
    WindowMoves(mem, mem', c, slots);
    PathLengths();
    WindowFacts(mem, c, slots);
  }

  lemma SlotsAgree(mem: Memory, mem': Memory, c: Config, slots: seq<nat>, s: nat)
    requires Ready(mem, c, slots) && WindowOnly(mem, mem', c) && OtherPage(c, s)
    ensures Walk(mem', c, s) == Walk(mem, c, s)
    ensures forall k :: 0 <= k < |slots| ==> Walk(mem', c, slots[k]) == Walk(mem, c, slots[k])
  {
    hide Node, EntryOn, PathOf, Shape, WindowOk, WindowOnly;
    WindowMoves(mem, mem', c, slots);
    PathLengths();
    assert forall k :: 0 <= k < |slots| ==> SlotOk(mem, c, slots[k]);
  }

  lemma Linked(mem: Memory, c: Config, slots: seq<nat>, p: Path, f: Frame, i: nat, z: Frame, e: Entry, s: nat)
    requires Ready(mem, c, slots) && NotTable(mem, c.root, z) && z in mem && mem[z] == Blank()
             && Walk(mem, c, s) == Some(z)
    requires |p| <= 2 && Node(mem, c.root, p) == Some(f) && i < ENTRIES && EntryOn(mem, c.root, p + [i]) == UNUSED
    requires FrameOf(e) == Some(z) && !Contains(FlagsOf(e), HUGE_PAGE)
    requires forall k :: 0 <= k < |slots| ==> Walk(mem, c, slots[k]) != Some(z)
    ensures IsTable(mem, f)
    ensures var mem' := Write(mem, f, i, e);
            && Ready(mem', c, slots) && Elsewhere(mem, mem', c, p + [i])
            && Node(mem', c.root, p + [i]) == Some(z) && EntryOn(mem', c.root, p + [i]) == e
            && Walk(mem', c, s) == Some(z)
  {
    hide FrameOf, FlagsOf, Contains, Node, EntryOn, Shape, PathOf, SlotsOk, NotTable, Blank;
    ShapeTable(mem, c.root, p);
    NodeStep(mem, c.root, p, i);
    var mem' := Write(mem, f, i, e);
    UnusedHasNoFrame();
    LinkTable(mem, c.root, p, f, i, z, e);
    WriteHere(mem, c.root, p, f, i, e);
    PathLengths();
    forall g: Frame | IsTable(mem, g) ensures IsTable(mem', g) {
      TablesStay(mem, f, i, e, g);
    }
    WindowTableStays(mem, mem', c, p + [i]);
    StaysReady(mem, mem', c, slots, Some(z));
  }

  lemma WindowTableStays(mem: Memory, mem': Memory, c: Config, q: Path)
    requires WindowOk(mem, c) && Node(mem, c.root, q) == None
    requires forall r: Path :: |r| <= 4 && r != q ==> Node(mem', c.root, r) == Node(mem, c.root, r)
    ensures Node(mem', c.root, PathOf(c.window)[..3]) == Node(mem, c.root, PathOf(c.window)[..3])
  {
    hide Node;
  }

  // ------------------------------------------------------------------------- mapping

  ghost predicate AccessOnly(flags: Flags) { flags & ACCESS_MASK == flags }

  /** What the upper levels are given: enough for every right the leaf can grant. */
  ghost predicate Suffices(tableFlags: Flags, flags: Flags) {
    && TableFlags(tableFlags) && AccessOnly(tableFlags)
    && Contains(tableFlags, PRESENT) && Contains(tableFlags, WRITABLE)
    && (Contains(flags, RING3_ACCESSIBLE) ==> Contains(tableFlags, RING3_ACCESSIBLE))
  }

  lemma ChosenSuffice(flags: Flags, tableFlags: Flags)
    requires var f := WithFlags(PRESENT, WRITABLE);
             tableFlags == if Contains(flags, RING3_ACCESSIBLE) then WithFlags(f, RING3_ACCESSIBLE) else f
    ensures Suffices(tableFlags, flags) && TableFlags(tableFlags)
  {
    hide Contains, WithFlags;
    KernelFlags();
  }

  lemma KernelFlags()
    ensures var f := WithFlags(PRESENT, WRITABLE);
            && TableFlags(f) && TableFlags(WithFlags(f, RING3_ACCESSIBLE))
            && Contains(f, WRITABLE) && Contains(WithFlags(f, RING3_ACCESSIBLE), WRITABLE)
            && Contains(WithFlags(f, RING3_ACCESSIBLE), RING3_ACCESSIBLE)
            && AccessOnly(f) && AccessOnly(WithFlags(f, RING3_ACCESSIBLE))
  {
  }

  /** Creating tables changes no translation; the leaf changes one. */
  lemma MappedPages(mem0: Memory, mem1: Memory, mem2: Memory, mem3: Memory, mem4: Memory, c: Config, page: nat)
    requires Elsewhere(mem0, mem1, c, PathOf(page)[..1]) && Elsewhere(mem1, mem2, c, PathOf(page)[..2])
    requires Elsewhere(mem2, mem3, c, PathOf(page)[..3]) && Elsewhere(mem3, mem4, c, PathOf(page))
    ensures forall other: nat :: PathOf(other) != PathOf(page) && OtherPage(c, other) ==>
              Walk(mem4, c, other) == Walk(mem0, c, other)
  {
    hide Node, EntryOn, PathOf;
    PathLengths();
  }

  /** The upper levels on the way to a page gained exactly these flags. */
  ghost predicate Upgrades(mem: Memory, mem': Memory, c: Config, page: nat, flags: Flags) {
    forall k :: 1 <= k <= 3 ==> Gained(mem, mem', c, PathOf(page)[..k], flags)
  }

  lemma MappedFlags(mem0: Memory, mem1: Memory, mem2: Memory, mem3: Memory, mem4: Memory, c: Config, page: nat,
                    flags: Flags)
    requires Elsewhere(mem0, mem1, c, PathOf(page)[..1]) && Elsewhere(mem1, mem2, c, PathOf(page)[..2])
    requires Elsewhere(mem2, mem3, c, PathOf(page)[..3]) && Elsewhere(mem3, mem4, c, PathOf(page))
    requires Gained(mem0, mem1, c, PathOf(page)[..1], flags) && Gained(mem1, mem2, c, PathOf(page)[..2], flags)
    requires Gained(mem2, mem3, c, PathOf(page)[..3], flags)
    ensures Upgrades(mem0, mem4, c, page, flags)
  {
    hide Node, EntryOn, PathOf, Contains, FlagsOf, WithFlags;
    PathLengths();
    assert |PathOf(page)[..1]| == 1 && |PathOf(page)[..2]| == 2 && |PathOf(page)[..3]| == 3;
  }

  /** The upper levels grant what the leaf asks for, so the leaf decides. */
  lemma MappedAccess(mem: Memory, mem': Memory, c: Config, page: nat, flags: Flags, tableFlags: Flags)
    requires Upgrades(mem, mem', c, page, tableFlags) && Suffices(tableFlags, flags)
    requires FlagsOf(EntryOn(mem', c.root, PathOf(page))) == WithFlags(flags, PRESENT)
    ensures GrantsAsked(mem', c, page, flags) && OnlyAccessAdded(mem, mem', c, page)
  {
    hide EntryOn, PathOf, Contains, FlagsOf, WithFlags, Access;
    NeitherImplies();
    LeafDecides(mem, mem', c, page, flags, tableFlags, PRESENT);
    LeafDecides(mem, mem', c, page, flags, tableFlags, WRITABLE);
    LeafDecides(mem, mem', c, page, flags, tableFlags, RING3_ACCESSIBLE);
    PathLengths();
    forall k | 1 <= k <= 3
      ensures FlagsOf(EntryOn(mem', c.root, PathOf(page)[..k])) & !ACCESS_MASK ==
              FlagsOf(EntryOn(mem, c.root, PathOf(page)[..k])) & !ACCESS_MASK
    {
      UnionKeepsOthers(FlagsOf(EntryOn(mem, c.root, PathOf(page)[..k])), tableFlags);
    }
  }

  lemma NeitherImplies()
    ensures !Contains(PRESENT, WRITABLE) && !Contains(PRESENT, RING3_ACCESSIBLE) && Contains(PRESENT, PRESENT)
  {
  }

  /** A right the leaf grants is granted by the whole walk. */
  lemma LeafDecides(mem: Memory, mem': Memory, c: Config, page: nat, flags: Flags, tableFlags: Flags, right: bv64)
    requires right == PRESENT || right == WRITABLE || right == RING3_ACCESSIBLE
    requires Upgrades(mem, mem', c, page, tableFlags)
    requires Contains(flags, right) || Contains(PRESENT, right) ==> Contains(tableFlags, right)
    requires FlagsOf(EntryOn(mem', c.root, PathOf(page))) == WithFlags(flags, PRESENT)
    ensures Contains(Access(mem', c.root, PathOf(page)), right) <==> Contains(flags, right) || Contains(PRESENT, right)
  {
    hide EntryOn, PathOf, Contains, FlagsOf, WithFlags, Access;
    PathLengths();
    var path := PathOf(page);
    assert path[..4] == path;
    AccessMeans(mem', c.root, path, right);
    UnionExact(flags, PRESENT, right);
    forall k | 1 <= k <= 3 && Contains(tableFlags, right)
      ensures Contains(FlagsOf(EntryOn(mem', c.root, path[..k])), right)
    {
      UnionExact(FlagsOf(EntryOn(mem, c.root, path[..k])), tableFlags, right);
    }
  }

  /** Other pages keep their entry, and the entries above it only gain flags. */
  lemma OthersKeepAccess(mem0: Memory, mem1: Memory, mem2: Memory, mem3: Memory, mem4: Memory, c: Config, page: nat,
                         flags: Flags)
    requires Elsewhere(mem0, mem1, c, PathOf(page)[..1]) && Elsewhere(mem1, mem2, c, PathOf(page)[..2])
    requires Elsewhere(mem2, mem3, c, PathOf(page)[..3]) && Elsewhere(mem3, mem4, c, PathOf(page))
    requires Upgrades(mem0, mem4, c, page, flags)
    ensures OthersUnharmed(mem0, mem4, c, page)
  {
    hide EntryOn, PathOf, Contains, FlagsOf, WithFlags, Access, Elsewhere, Upgrades;
    PathLengths();
    forall other: nat | PathOf(other) != PathOf(page) && OtherPage(c, other)
      ensures EntryOn(mem4, c.root, PathOf(other)) == EntryOn(mem0, c.root, PathOf(other))
      ensures Contains(Access(mem4, c.root, PathOf(other)), Access(mem0, c.root, PathOf(other)))
    {
      var q := PathOf(other);
      SameEntryElsewhere(mem0, mem1, mem2, mem3, mem4, c, page, q);
      forall k | 1 <= k <= |q|
        ensures Contains(FlagsOf(EntryOn(mem4, c.root, q[..k])), FlagsOf(EntryOn(mem0, c.root, q[..k])))
      {
        assert q[..4] == q;
        EntryOnlyGains(mem0, mem1, mem2, mem3, mem4, c, page, flags, q[..k]);
      }
      AccessGrows(mem0, mem4, c.root, q);
    }
  }

  lemma SameEntryElsewhere(mem0: Memory, mem1: Memory, mem2: Memory, mem3: Memory, mem4: Memory, c: Config, page: nat,
                           q: Path)
    requires Elsewhere(mem0, mem1, c, PathOf(page)[..1]) && Elsewhere(mem1, mem2, c, PathOf(page)[..2])
    requires Elsewhere(mem2, mem3, c, PathOf(page)[..3]) && Elsewhere(mem3, mem4, c, PathOf(page))
    requires 1 <= |q| <= 4 && q != PathOf(c.window) && q != PathOf(page)
    requires q != PathOf(page)[..1] && q != PathOf(page)[..2] && q != PathOf(page)[..3]
    ensures EntryOn(mem4, c.root, q) == EntryOn(mem0, c.root, q)
  {
    hide EntryOn, Node, PathOf;
  }

  lemma EntryOnlyGains(mem0: Memory, mem1: Memory, mem2: Memory, mem3: Memory, mem4: Memory, c: Config, page: nat,
                       flags: Flags, q: Path)
    requires Elsewhere(mem0, mem1, c, PathOf(page)[..1]) && Elsewhere(mem1, mem2, c, PathOf(page)[..2])
    requires Elsewhere(mem2, mem3, c, PathOf(page)[..3]) && Elsewhere(mem3, mem4, c, PathOf(page))
    requires Upgrades(mem0, mem4, c, page, flags)
    requires 1 <= |q| <= 4 && q != PathOf(c.window) && q != PathOf(page)
    ensures Contains(FlagsOf(EntryOn(mem4, c.root, q)), FlagsOf(EntryOn(mem0, c.root, q)))
  {
    hide EntryOn, PathOf, Contains, FlagsOf, WithFlags, Elsewhere;
    PathLengths();
    var was := FlagsOf(EntryOn(mem0, c.root, q));
    if |q| <= 3 && q == PathOf(page)[..|q|] {
      UnionContains(was, flags);
    } else {
      SameEntryElsewhere(mem0, mem1, mem2, mem3, mem4, c, page, q);
      ContainsSelf(was);
    }
  }

  lemma FewerSlots(c: Config, slots: seq<nat>, rest: seq<nat>, page: nat)
    requires rest <= slots
    ensures Apart(c, slots, page) ==> Apart(c, rest, page)
  {
  }
}
