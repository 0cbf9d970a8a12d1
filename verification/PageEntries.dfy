/** 64-bit page table entries and the index arithmetic of page numbers. */
module PageEntries {

  import opened Base

  // --------------------------------------------------------------------- entries

  const PRESENT: bv64 := 0x1
  const WRITABLE: bv64 := 0x2
  const RING3_ACCESSIBLE: bv64 := 0x4
  const HUGE_PAGE: bv64 := 0x80

  /** The flags that grant access: without one of them on any level, the processor refuses. */
  const ACCESS_MASK: bv64 := 0x7

  const FRAME_MASK: bv64 := 0x000F_FFFF_FFFF_F000
  const FLAG_MASK: bv64 := 0x8000_0000_0000_01FF

  datatype PageFrame = PageFrame(address: bv64)

  /** A frame an entry can hold: aligned and below 2^52. */
  type Frame = f: PageFrame | f.address & 0x000F_FFFF_FFFF_F000 == f.address witness PageFrame(0)

  /** A set of the flags the kernel knows. */
  type Flags = a: bv64 | a & 0x8000_0000_0000_01FF == a witness 0

  datatype Entry = Entry(bits: bv64)

  const UNUSED := Entry(0)

  lemma MaskTwice(e: bv64)
    ensures (e & FLAG_MASK) & FLAG_MASK == e & FLAG_MASK
    ensures (e & FRAME_MASK) & FRAME_MASK == e & FRAME_MASK
  {
  }

  function FlagsOf(e: Entry): Flags {
    MaskTwice(e.bits);
    e.bits & FLAG_MASK
  }

  predicate Contains(flags: bv64, wanted: bv64) { flags & wanted == wanted }

  function FrameOf(e: Entry): Option<Frame> {
    MaskTwice(e.bits);
    if Contains(FlagsOf(e), PRESENT) then Some(PageFrame(e.bits & FRAME_MASK)) else None
  }

  function MakeEntry(frame: Frame, flags: Flags): Entry { Entry(frame.address | flags) }

  function WithFlags(flags: Flags, more: Flags): Flags {
    UnionIsFlags(flags, more);
    flags | more
  }

  lemma UnionIsFlags(a: Flags, b: Flags)
    ensures (a | b) & FLAG_MASK == a | b
  {
  }

  /** A stored entry gives back its frame and its flags. */
  lemma EntryRoundTrip(frame: Frame, flags: Flags)
    requires Contains(flags, PRESENT)
    ensures FrameOf(MakeEntry(frame, flags)) == Some(frame)
    ensures FlagsOf(MakeEntry(frame, flags)) == flags
    ensures MakeEntry(frame, flags) != UNUSED
  {
    hide Contains, MakeEntry, FlagsOf;
    KeepsFlags(frame, flags);
    KeepsFrame(frame, flags);
    IsUsed(frame, flags);
  }

  lemma KeepsFlags(frame: Frame, flags: Flags)
    ensures FlagsOf(MakeEntry(frame, flags)) == flags
  {
    var a, b: bv64 := frame.address, flags;
    assert (a | b) & FLAG_MASK == b;
  }

  lemma KeepsFrame(frame: Frame, flags: Flags)
    ensures MakeEntry(frame, flags).bits & FRAME_MASK == frame.address
  {
    var a, b: bv64 := frame.address, flags;
    assert (a | b) & FRAME_MASK == a;
  }

  lemma IsUsed(frame: Frame, flags: Flags)
    requires Contains(flags, PRESENT)
    ensures MakeEntry(frame, flags) != UNUSED
  {
    var a, b: bv64 := frame.address, flags;
    assert (a | b) & PRESENT == PRESENT;
  }

  /** Adding flags keeps the old ones and adds the new ones, and no others. */
  lemma UnionContains(a: Flags, b: Flags)
    ensures Contains(WithFlags(a, b), a) && Contains(WithFlags(a, b), b)
    ensures Contains(WithFlags(a, b), HUGE_PAGE) <==> Contains(a, HUGE_PAGE) || Contains(b, HUGE_PAGE)
  {
  }

  lemma UnionExact(a: Flags, b: Flags, right: bv64)
    requires right == PRESENT || right == WRITABLE || right == RING3_ACCESSIBLE
    ensures Contains(WithFlags(a, b), right) <==> Contains(a, right) || Contains(b, right)
  {
  }

  lemma UnionKeepsOthers(a: Flags, b: Flags)
    requires b & ACCESS_MASK == b
    ensures WithFlags(a, b) & !ACCESS_MASK == a & !ACCESS_MASK
  {
  }

  lemma UnionAbsorbs(a: Flags, b: Flags)
    ensures Contains(a, b) ==> WithFlags(a, b) == a
    ensures FlagsOf(UNUSED) == 0 && WithFlags(0, b) == b
  {
  }

  lemma ContainsBoth(a: bv64, b: bv64, right: bv64)
    ensures Contains(a & b, right) <==> Contains(a, right) && Contains(b, right)
  {
    if (a & b) & right == right {
      CommonPart(a, b, right);
      CommonPart(b, a, right);
      assert b & a == a & b;
    }
  }

  lemma CommonPart(a: bv64, b: bv64, right: bv64)
    requires (a & b) & right == right
    ensures a & right == right
  {
  }

  lemma ContainsPairs(a: bv64, b: bv64, a': bv64, b': bv64)
    requires Contains(a', a) && Contains(b', b)
    ensures Contains(a' & b', a & b)
  {
  }

  lemma ContainsSelf(a: bv64)
    ensures Contains(a, a) && Contains(0xFFFF_FFFF_FFFF_FFFF, a)
  {
  }

  lemma ContainsTrans(a: bv64, b: bv64, c: bv64)
    requires Contains(a, b) && Contains(b, c)
    ensures Contains(a, c)
  {
  }

  lemma UnusedHasNoFrame()
    ensures FrameOf(UNUSED) == None
  {
  }

  // ----------------------------------------------------------------------- pages

  const ENTRIES := 512

  function P4(page: nat): nat { (page / 0x800_0000) % ENTRIES }
  function P3(page: nat): nat { (page / 0x4_0000) % ENTRIES }
  function P2(page: nat): nat { (page / 0x200) % ENTRIES }
  function P1(page: nat): nat { page % ENTRIES }

  /** The indices a page is looked up under, from the top. */
  function PathOf(page: nat): (p: seq<nat>)
    ensures |p| == 4 && forall i :: 0 <= i < 4 ==> p[i] < ENTRIES
  {
    [P4(page), P3(page), P2(page), P1(page)]
  }

  /** Two page numbers share a path exactly when their low 36 bits agree. */
  lemma PathUnique(page: nat, page': nat)
    ensures PathOf(page) == PathOf(page') <==> page % 0x10_0000_0000 == page' % 0x10_0000_0000
  {
    PathValue(page);
    PathValue(page');
    if PathOf(page) == PathOf(page') {
      assert P4(page) == PathOf(page)[0] && P3(page) == PathOf(page)[1] && P2(page) == PathOf(page)[2]
        && P1(page) == PathOf(page)[3];
      assert P4(page') == PathOf(page')[0] && P3(page') == PathOf(page')[1] && P2(page') == PathOf(page')[2]
        && P1(page') == PathOf(page')[3];
    }
    if page % 0x10_0000_0000 == page' % 0x10_0000_0000 {
      PathLow(page);
      PathLow(page');
    }
  }

  lemma PathValue(page: nat)
    ensures page % 0x10_0000_0000 == P4(page) * 0x800_0000 + P3(page) * 0x4_0000 + P2(page) * 0x200 + P1(page)
  {
    var a, b, c := page / 0x200, page / 0x4_0000, page / 0x800_0000;
    assert b == a / 0x200 && c == b / 0x200 && page / 0x10_0000_0000 == c / 0x200;
  }

  /** The indices are the digits of the page number in base 512, most significant first. */
  lemma PathIsPage(page: nat)
    ensures var p := PathOf(page);
            page % 0x10_0000_0000 == ((p[0] * ENTRIES + p[1]) * ENTRIES + p[2]) * ENTRIES + p[3]
  {
    PathValue(page);
  }

  lemma PathLow(page: nat)
    ensures PathOf(page) == PathOf(page % 0x10_0000_0000)
  {
    var q, r := page / 0x10_0000_0000, page % 0x10_0000_0000;
    assert page == q * 0x10_0000_0000 + r;
    assert page / 0x200 == q * 0x800_0000 + r / 0x200;
    assert page / 0x4_0000 == q * 0x4_0000 + r / 0x4_0000;
    assert page / 0x800_0000 == q * 0x200 + r / 0x800_0000;
    DropMultiple(q * 0x800_0000, r);
    DropMultiple(q * 0x4_0000, r / 0x200);
    DropMultiple(q * 0x200, r / 0x4_0000);
    DropMultiple(q, r / 0x800_0000);
  }

  lemma DropMultiple(m: nat, x: nat)
    ensures (m * ENTRIES + x) % ENTRIES == x % ENTRIES
  {
  }
}
