/** The smallest table the paging code can start from. */
module PageBoot {

  import opened Base
  import opened PageEntries
  import opened PageTree
  import opened PageTables

  /** Four tables on the way to page 0, and three blank slots. */
  function RootFrame(): Frame { PageFrame(0x1000) }
  function Pml3(): Frame { PageFrame(0x2000) }
  function Pml2(): Frame { PageFrame(0x3000) }
  function Pml1(): Frame { PageFrame(0x4000) }
  function SlotFrame(k: nat): Frame {
    if k == 0 then PageFrame(0x5000) else if k == 1 then PageFrame(0x6000) else PageFrame(0x7000)
  }

  /** Page 0 shows the top table, page 1 the lowest one, page 2 is the window, pages 3 to 5 are slots. */
  function BootConfig(): Config { Config(RootFrame(), 0, 2, 1, Pml1()) }

  function BootSlots(): seq<nat> { [3, 4, 5] }

  function TableEntry(f: Frame): Entry { MakeEntry(f, WithFlags(PRESENT, WRITABLE)) }

  /** A table with a single entry, at index 0. */
  function Single(f: Frame): seq<Entry> { Blank()[0 := TableEntry(f)] }

  function BootMemory(): Memory {
    map[RootFrame() := Single(Pml3()), Pml3() := Single(Pml2()), Pml2() := Single(Pml1()),
        Pml1() := Blank()[0 := TableEntry(RootFrame())][1 := TableEntry(Pml1())][3 := TableEntry(SlotFrame(0))]
                         [4 := TableEntry(SlotFrame(1))][5 := TableEntry(SlotFrame(2))],
        SlotFrame(0) := Blank(), SlotFrame(1) := Blank(), SlotFrame(2) := Blank()]
  }

  lemma EntryFrame(f: Frame)
    ensures FrameOf(TableEntry(f)) == Some(f) && TableEntry(f) != UNUSED && !Contains(FlagsOf(TableEntry(f)), HUGE_PAGE)
  {
    hide FrameOf, FlagsOf, MakeEntry;
    var flags := WithFlags(PRESENT, WRITABLE);
    KernelFlags();
    EntryRoundTrip(f, flags);
  }

  /** Only the path of zeros leads to a table. */
  ghost predicate Zeros(p: Path) { forall i :: 0 <= i < |p| ==> p[i] == 0 }

  ghost function Expected(n: nat): Frame {
    if n == 0 then RootFrame() else if n == 1 then Pml3() else if n == 2 then Pml2() else Pml1()
  }

  lemma Step(n: nat, i: nat)
    requires n <= 2
    ensures EntryIn(BootMemory(), Expected(n), i) == if i == 0 then TableEntry(Expected(n + 1)) else UNUSED
  {
    hide TableEntry, Blank;
  }

  lemma {:induction false} Nodes(p: Path)
    requires |p| <= 3
    ensures Node(BootMemory(), RootFrame(), p) == if Zeros(p) then Some(Expected(|p|)) else None
    ensures p != [] ==> EntryOn(BootMemory(), RootFrame(), p) == if Zeros(p) then TableEntry(Expected(|p|)) else UNUSED
    decreases |p|
  {
    hide TableEntry, FrameOf, Blank, BootMemory, Expected;
    UnusedHasNoFrame();
    if p == [] {
      assert Expected(0) == RootFrame() by { RootExpected(); }
    } else {
      var front, i := p[..|p| - 1], p[|p| - 1];
      Nodes(front);
      Step(|front|, i);
      EntryFrame(Expected(|p|));
      assert p == front + [i];
      assert Zeros(p) <==> Zeros(front) && i == 0;
    }
  }

  lemma RootExpected()
    ensures Expected(0) == RootFrame()
  {
  }

  lemma Leaf(i: nat, f: Frame)
    requires i < ENTRIES && EntryIn(BootMemory(), Pml1(), i) == TableEntry(f)
    ensures Node(BootMemory(), RootFrame(), [0, 0, 0, i]) == Some(f)
  {
    hide TableEntry, FrameOf, Blank, BootMemory;
    EntryFrame(f);
    Nodes([0, 0, 0]);
    assert [0, 0, 0, i][..3] == [0, 0, 0];
  }

  lemma SmallPath(page: nat)
    requires page < ENTRIES
    ensures PathOf(page) == [0, 0, 0, page]
  {
  }

  lemma BootShape()
    ensures Shape(BootMemory(), RootFrame())
  {
    hide TableEntry, FrameOf, Node, EntryOn, Blank, FlagsOf, Contains;
    var mem, root := BootMemory(), RootFrame();
    forall p: Path | |p| <= 3
      ensures Node(mem, root, p) == (if Zeros(p) then Some(Expected(|p|)) else None)
      ensures p != [] ==> Intermediate(mem, root, p)
    {
      Nodes(p);
      EntryFrame(Expected(|p|));
    }
    forall p: Path, q: Path | |p| <= 3 && |q| <= 3 && Node(mem, root, p).Some?
      && Node(mem, root, p) == Node(mem, root, q)
      ensures p == q
    {
      assert Zeros(p) && Zeros(q) && |p| == |q|;
    }
    Tables();
  }

  lemma Tables()
    ensures forall n: nat :: n <= 3 ==> IsTable(BootMemory(), Expected(n))
    ensures forall k: nat :: k <= 2 ==> IsTable(BootMemory(), SlotFrame(k))
  {
    hide TableEntry;
  }

  lemma SlotsAreNoTables(k: nat)
    requires k <= 2
    ensures NotTable(BootMemory(), RootFrame(), SlotFrame(k))
  {
    hide Node, BootMemory;
    forall p: Path | |p| <= 3 ensures Node(BootMemory(), RootFrame(), p) != Some(SlotFrame(k)) {
      Nodes(p);
    }
  }

  lemma BootLeaves()
    ensures var m := BootMemory();
            && EntryIn(m, Pml1(), 0) == TableEntry(RootFrame()) && EntryIn(m, Pml1(), 1) == TableEntry(Pml1())
            && EntryIn(m, Pml1(), 3) == TableEntry(SlotFrame(0)) && EntryIn(m, Pml1(), 4) == TableEntry(SlotFrame(1))
            && EntryIn(m, Pml1(), 5) == TableEntry(SlotFrame(2))
  {
    hide TableEntry;
  }

  /** The paging code can start from here, so its invariant asks for nothing impossible. */
  lemma BootIsReady()
    ensures Ready(BootMemory(), BootConfig(), BootSlots()) && |BootSlots()| >= 3
  {
    hide TableEntry, FrameOf, Node, Blank, Shape, IsTable, NotTable, BootMemory;
    BootShape();
    BootLeaves();
    SmallPath(0);
    SmallPath(1);
    SmallPath(2);
    SmallPath(3);
    SmallPath(4);
    SmallPath(5);
    Leaf(0, RootFrame());
    Leaf(1, Pml1());
    Leaf(3, SlotFrame(0));
    Leaf(4, SlotFrame(1));
    Leaf(5, SlotFrame(2));
    Nodes([0, 0, 0]);
    assert PathOf(2)[..3] == [0, 0, 0];
    Tables();
    SlotsAreNoTables(0);
    SlotsAreNoTables(1);
    SlotsAreNoTables(2);
    assert PathOf(2)[3] == 2 && PathOf(0)[3] == 0 && PathOf(1)[3] == 1 && PathOf(3)[3] == 3 && PathOf(4)[3] == 4
      && PathOf(5)[3] == 5;
  }
}
