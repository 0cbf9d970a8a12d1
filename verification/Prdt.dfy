/** Scatter/gather entries for a buffer that is contiguous only virtually. */
module Prdt {

  import opened Base

  const PAGE_SIZE := 4096
  const PRDT_ENTRY_COUNT := 128
  const PRDT_MAX_BYTE_COUNT := 0x40_0000

  /** Frame numbers by page number; pages outside are not mapped. */
  type Frames = map<nat, nat>

  ghost predicate FramesOk(frames: Frames) {
    forall p :: p in frames ==> frames[p] < 0x100_0000_0000
  }

  function PageOf(v: nat): nat { v / PAGE_SIZE }

  /** The physical address behind a virtual one; 0 when there is none. */
  function Phys(frames: Frames, v: nat): nat {
    if PageOf(v) in frames then frames[PageOf(v)] * PAGE_SIZE + v % PAGE_SIZE else 0
  }

  // ------------------------------------------------------------------------- entries

  /** Address halves and the word holding byte count and interrupt bit. */
  datatype Entry = Entry(low: nat, high: nat, word: nat)

  const COUNT_SPAN := 0x40_0000
  const INTERRUPT_SPAN := 0x8000_0000

  function ByteCount(e: Entry): nat { e.word % COUNT_SPAN }

  predicate Interrupts(e: Entry) { (e.word / INTERRUPT_SPAN) % 2 == 1 }

  function SetByteCount(e: Entry, n: nat): Entry {
    e.(word := e.word - e.word % COUNT_SPAN + n % COUNT_SPAN)
  }

  function SetInterrupt(e: Entry, on: bool): Entry {
    e.(word := e.word % INTERRUPT_SPAN + if on then INTERRUPT_SPAN else 0)
  }

  function SetAddress(e: Entry, address: nat): Entry {
    e.(low := address % 0x1_0000_0000, high := (address / 0x1_0000_0000) % 0x1_0000_0000)
  }

  function BaseOf(e: Entry): nat { e.high * 0x1_0000_0000 + e.low }

  function SizeOf(e: Entry): nat { ByteCount(e) + 1 }

  function Filled(e: Entry, address: nat, size: nat, last: bool): Entry
    requires size > 0
  {
    SetInterrupt(SetByteCount(SetAddress(e, address), size - 1), last)
  }

  /** What an entry says after it was filled, whatever it held before. */
  lemma FilledEntry(e: Entry, address: nat, size: nat, last: bool)
    requires address < 0x1_0000_0000 * 0x1_0000_0000 && 1 <= size <= PRDT_MAX_BYTE_COUNT
    ensures var f := Filled(e, address, size, last);
            BaseOf(f) == address && SizeOf(f) == size && (Interrupts(f) <==> last)
  {
    var a := SetAddress(e, address);
    var b := SetByteCount(a, size - 1);
    WordParts(a.word, size - 1);
    InterruptBit(b.word, last);
    var f := SetInterrupt(b, last);
    assert f.low == address % 0x1_0000_0000 && f.high == address / 0x1_0000_0000;
  }

  /** The third word bit by bit: 22 bits of count, nine that stay as they were, the interrupt flag on top. */
  lemma FilledWord(e: Entry, address: nat, size: nat, last: bool)
    requires 1 <= size <= PRDT_MAX_BYTE_COUNT
    ensures Filled(e, address, size, last).word ==
              (size - 1) + 0x40_0000 * ((e.word / 0x40_0000) % 0x200) + if last then 0x8000_0000 else 0
  {
    var w, k := e.word, e.word / COUNT_SPAN;
    assert w - w % COUNT_SPAN == k * COUNT_SPAN && k == k / 0x200 * 0x200 + k % 0x200;
    var counted := k * COUNT_SPAN + (size - 1);
    assert counted == k / 0x200 * INTERRUPT_SPAN + ((k % 0x200) * COUNT_SPAN + (size - 1));
    assert (k % 0x200) * COUNT_SPAN + (size - 1) < INTERRUPT_SPAN;
    LowPart(k / 0x200, (k % 0x200) * COUNT_SPAN + (size - 1));
  }

  lemma LowPart(q: nat, r: nat)
    requires r < INTERRUPT_SPAN
    ensures (q * INTERRUPT_SPAN + r) % INTERRUPT_SPAN == r
  {
  }

  lemma WordParts(w: nat, n: nat)
    requires n < COUNT_SPAN
    ensures w >= w % COUNT_SPAN && (w - w % COUNT_SPAN + n) % COUNT_SPAN == n
  {
    assert w - w % COUNT_SPAN == w / COUNT_SPAN * COUNT_SPAN;
  }

  lemma InterruptBit(w: nat, on: bool)
    ensures var r := w % INTERRUPT_SPAN + if on then INTERRUPT_SPAN else 0;
            r % COUNT_SPAN == w % COUNT_SPAN && ((r / INTERRUPT_SPAN) % 2 == 1 <==> on)
  {
    var k := w / INTERRUPT_SPAN;
    assert w == k * INTERRUPT_SPAN + w % INTERRUPT_SPAN;
    assert INTERRUPT_SPAN == 0x200 * COUNT_SPAN;
  }

  // --------------------------------------------------------------------------- coverage

  /** The bytes an entry transfers, by physical address. */
  ghost function BytesOf(e: Entry): seq<int> {
    seq(SizeOf(e), k => BaseOf(e) + k)
  }

  /** The bytes the device visits, walking the entries in order. */
  ghost function Visited(es: seq<Entry>): seq<int> {
    if es == [] then [] else Visited(es[..|es| - 1]) + BytesOf(es[|es| - 1])
  }

  /** The physical address of each of the first `n` bytes of the buffer. */
  ghost function Wanted(frames: Frames, buffer: nat, n: nat): seq<int> {
    seq(n, k requires 0 <= k < n => Phys(frames, buffer + k))
  }

  /** The `size` bytes from `v` on are mapped to one physical run. */
  ghost predicate RunAt(frames: Frames, v: nat, base: nat, size: nat) {
    forall b: nat :: v <= b < v + size ==> PageOf(b) in frames && Phys(frames, b) == base + (b - v)
  }

  ghost predicate Mapped(frames: Frames, v: nat, n: nat) {
    forall b: nat :: v <= b < v + n ==> PageOf(b) in frames
  }

  lemma VisitedNext(frames: Frames, buffer: nat, es: seq<Entry>, done: nat, e: Entry)
    requires Visited(es) == Wanted(frames, buffer, done) && RunAt(frames, buffer + done, BaseOf(e), SizeOf(e))
    ensures Visited(es + [e]) == Wanted(frames, buffer, done + SizeOf(e))
  {
    hide Phys, PageOf;
    var r := es + [e];
    assert r[..|r| - 1] == es;
    var w := Wanted(frames, buffer, done + SizeOf(e));
    assert w[..done] == Wanted(frames, buffer, done);
    forall k | 0 <= k < SizeOf(e) ensures w[done + k] == BytesOf(e)[k] {
      assert Phys(frames, buffer + done + k) == BaseOf(e) + k;
    }
    assert w == w[..done] + BytesOf(e);
  }

  // -------------------------------------------------------------------------- one entry

  /** Bytes inside one page are physically consecutive. */
  lemma ChunkIsRun(frames: Frames, v: nat, chunk: nat)
    requires PageOf(v) in frames && v % PAGE_SIZE + chunk <= PAGE_SIZE
    ensures RunAt(frames, v, Phys(frames, v), chunk)
  {
    forall b: nat | v <= b < v + chunk ensures PageOf(b) in frames && Phys(frames, b) == Phys(frames, v) + (b - v) {
      SamePage(v, b);
    }
  }

  lemma SamePage(v: nat, b: nat)
    requires v <= b < v - v % PAGE_SIZE + PAGE_SIZE
    ensures PageOf(b) == PageOf(v) && b % PAGE_SIZE == v % PAGE_SIZE + (b - v)
  {
    var q, r := v / PAGE_SIZE, v % PAGE_SIZE;
    assert v == q * PAGE_SIZE + r;
  }

  lemma RunJoin(frames: Frames, v: nat, base: nat, size: nat, chunk: nat)
    requires RunAt(frames, v, base, size) && RunAt(frames, v + size, base + size, chunk)
    ensures RunAt(frames, v, base, size + chunk)
  {
    hide Phys, PageOf;
  }

  /** How many bytes the next page adds to an entry. */
  function Chunk(v: nat, remaining: nat, size: nat): nat
    requires size < PRDT_MAX_BYTE_COUNT
  {
    Min(remaining, Min(PAGE_SIZE - v % PAGE_SIZE, PRDT_MAX_BYTE_COUNT - size))
  }

  lemma ChunkFacts(v: nat, remaining: nat, size: nat)
    requires size < PRDT_MAX_BYTE_COUNT && remaining > 0
    ensures 1 <= Chunk(v, remaining, size) <= remaining && size + Chunk(v, remaining, size) <= PRDT_MAX_BYTE_COUNT
    ensures v % PAGE_SIZE + Chunk(v, remaining, size) <= PAGE_SIZE
    ensures v % 2 == 0 && remaining % 2 == 0 && size % 2 == 0 ==> Chunk(v, remaining, size) % 2 == 0
  {
    EvenRest(v);
  }

  lemma EvenRest(v: nat)
    ensures v % 2 == 0 ==> (PAGE_SIZE - v % PAGE_SIZE) % 2 == 0
  {
    assert v == v / PAGE_SIZE * PAGE_SIZE + v % PAGE_SIZE;
  }

  /** The longest physical run from `start` on, up to the limit of one entry. */
  method BuildRun(frames: Frames, start: nat, count: nat) returns (r: Option<(nat, nat)>)
    requires count > 0
    ensures r.Some? ==> 1 <= r.value.1 <= PRDT_MAX_BYTE_COUNT && r.value.1 <= count
    ensures r.Some? ==> RunAt(frames, start, r.value.0, r.value.1)
    ensures r.Some? && r.value.1 < count ==>
              r.value.1 == PRDT_MAX_BYTE_COUNT || Phys(frames, start + r.value.1) != r.value.0 + r.value.1
    ensures r.Some? && start % 2 == 0 && count % 2 == 0 ==> r.value.0 % 2 == 0 && r.value.1 % 2 == 0
    ensures r.None? ==> !Mapped(frames, start, count)
  {
    hide RunAt, Phys, PageOf, Chunk;
    var virt, remaining, size := start, count, 0;
    PhysEven(frames, start);
    if PageOf(virt) !in frames {
      return None;
    }
    var base := Phys(frames, virt);
    EmptyRun(frames, start, base);
    while true
      invariant virt == start + size && size + remaining == count && remaining > 0 && size < PRDT_MAX_BYTE_COUNT
      invariant RunAt(frames, start, base, size) && base == Phys(frames, start) && PageOf(start) in frames
      invariant start % 2 == 0 && count % 2 == 0 ==> size % 2 == 0
      decreases remaining
    {
      if PageOf(virt) !in frames {
        return None;
      }
      var physical := Phys(frames, virt);
      if size > 0 && physical != base + size {
        return Some((base, size));
      }
      var chunk := Chunk(virt, remaining, size);
      NextChunk(frames, start, base, size, remaining);
      size, virt, remaining := size + chunk, virt + chunk, remaining - chunk;
      if remaining == 0 || size == PRDT_MAX_BYTE_COUNT {
        return Some((base, size));
      }
    }
  }

  /** The next page lengthens the run. */
  lemma NextChunk(frames: Frames, start: nat, base: nat, size: nat, remaining: nat)
    requires size < PRDT_MAX_BYTE_COUNT && remaining > 0 && RunAt(frames, start, base, size)
    requires PageOf(start + size) in frames && Phys(frames, start + size) == base + size
    ensures var chunk := Chunk(start + size, remaining, size);
            && 1 <= chunk <= remaining && size + chunk <= PRDT_MAX_BYTE_COUNT
            && RunAt(frames, start, base, size + chunk)
            && (start % 2 == 0 && (size + remaining) % 2 == 0 && size % 2 == 0 ==> (size + chunk) % 2 == 0)
  {
    hide RunAt, Phys, PageOf, Chunk;
    var chunk := Chunk(start + size, remaining, size);
    ChunkFacts(start + size, remaining, size);
    ChunkIsRun(frames, start + size, chunk);
    RunJoin(frames, start, base, size, chunk);
  }

  lemma EmptyRun(frames: Frames, v: nat, base: nat)
    ensures RunAt(frames, v, base, 0)
  {
  }

  lemma PhysEven(frames: Frames, v: nat)
    ensures v % 2 == 0 ==> Phys(frames, v) % 2 == 0
  {
    var r := v % PAGE_SIZE;
    assert v == v / PAGE_SIZE * PAGE_SIZE + r;
    if PageOf(v) in frames {
      assert Phys(frames, v) == frames[PageOf(v)] * PAGE_SIZE + r;
    }
  }

  lemma PhysBound(frames: Frames, v: nat)
    requires FramesOk(frames)
    ensures Phys(frames, v) < 0x1_0000_0000 * 0x1_0000_0000
  {
  }

  // ------------------------------------------------------------------------- the table

  /** Two entries that could not have been one. */
  ghost predicate Unmergeable(e: Entry, f: Entry) {
    SizeOf(e) == PRDT_MAX_BYTE_COUNT || BaseOf(f) != BaseOf(e) + SizeOf(e)
  }

  ghost predicate EvenEntry(e: Entry) { BaseOf(e) % 2 == 0 && ByteCount(e) % 2 == 1 }

  /** The first entries describe the first `done` bytes of the buffer. */
  ghost predicate Describes(frames: Frames, buffer: nat, count: nat, es: seq<Entry>, done: nat) {
    && done <= count
    && Visited(es) == Wanted(frames, buffer, done) && Mapped(frames, buffer, done)
    && (forall j :: 0 <= j < |es| ==> 1 <= SizeOf(es[j]) <= PRDT_MAX_BYTE_COUNT)
    && (forall j :: 0 <= j < |es| ==> (Interrupts(es[j]) <==> j == |es| - 1 && done == count))
    && (forall j :: 0 < j < |es| ==> Unmergeable(es[j - 1], es[j]))
    && (buffer % 2 == 0 && count % 2 == 0 ==> forall j :: 0 <= j < |es| ==> EvenEntry(es[j]))
  }

  /** Where the next entry starts, it could not have been merged into the last. */
  ghost predicate Breaks(frames: Frames, es: seq<Entry>, v: nat) {
    es != [] ==> var e := es[|es| - 1]; SizeOf(e) == PRDT_MAX_BYTE_COUNT || Phys(frames, v) != BaseOf(e) + SizeOf(e)
  }

  lemma DescribesNext(frames: Frames, buffer: nat, count: nat, es: seq<Entry>, done: nat, e: Entry)
    requires Describes(frames, buffer, count, es, done) && done < count && Breaks(frames, es, buffer + done)
    requires RunAt(frames, buffer + done, BaseOf(e), SizeOf(e)) && 1 <= SizeOf(e) <= PRDT_MAX_BYTE_COUNT
    requires done + SizeOf(e) <= count && (Interrupts(e) <==> done + SizeOf(e) == count)
    requires buffer % 2 == 0 && count % 2 == 0 ==> EvenEntry(e)
    ensures Describes(frames, buffer, count, es + [e], done + SizeOf(e))
  {
    hide Phys, PageOf, Interrupts, BaseOf, SizeOf, ByteCount, Visited, Wanted;
    VisitedNext(frames, buffer, es, done, e);
    assert Phys(frames, buffer + done) == BaseOf(e);
    var r := es + [e];
    forall j | 0 < j < |r| ensures Unmergeable(r[j - 1], r[j]) {
    }
  }

  /**
    Fills the table for a buffer. On success the entries visit exactly the
    physical bytes of the buffer, in order, each once.
   */
  method FillPrdtEntries(table: array<Entry>, frames: Frames, buffer: nat, count: nat)
    returns (r: Option<nat>, ghost done: nat)
    requires table.Length == PRDT_ENTRY_COUNT && FramesOk(frames)
    modifies table
    ensures r.Some? ==> 0 < r.value <= PRDT_ENTRY_COUNT && Describes(frames, buffer, count, table[..r.value], count)
    ensures r.None? ==> count == 0 || !Mapped(frames, buffer, count)
                        || (done < count && Describes(frames, buffer, count, table[..], done)
                          && Breaks(frames, table[..], buffer + done))
    ensures count == 0 ==> r.None?
  {
    hide Describes, Breaks, Phys, RunAt, Mapped, BaseOf, SizeOf, Interrupts, EvenEntry, Filled, FramesOk;
    done := 0;
    if count == 0 {
      return None, 0;
    }
    var virt, remaining, index := buffer, count, 0;
    NothingYet(frames, buffer, count);
    assert table[..0] == [];
    while remaining > 0
      invariant 0 <= index <= table.Length && virt == buffer + done && done + remaining == count
                && (remaining == 0 ==> index > 0)
      invariant Describes(frames, buffer, count, table[..index], done)
      invariant remaining > 0 ==> Breaks(frames, table[..index], virt)
      decreases remaining
    {
      if index >= PRDT_ENTRY_COUNT {
        assert table[..index] == table[..];
        return None, done;
      }
      var run := BuildRun(frames, virt, remaining);
      if run.None? {
        UnmappedInside(frames, buffer, count, done);
        return None, done;
      }
      var base, size := run.value.0, run.value.1;
      ghost var before := table[..index];
      var e := Filled(table[index], base, size, remaining == size);
      FilledNext(frames, buffer, count, before, done, table[index], base, size);
      table[index] := e;
      assert table[..index + 1] == before + [e];
      virt, remaining, index := virt + size, remaining - size, index + 1;
      done := done + size;
    }
    return Some(index), done;
  }

  /** Filling the next entry with the next run describes that much more. */
  lemma FilledNext(frames: Frames, buffer: nat, count: nat, es: seq<Entry>, done: nat, was: Entry, base: nat, size: nat)
    requires Describes(frames, buffer, count, es, done) && done < count && Breaks(frames, es, buffer + done)
             && FramesOk(frames)
    requires RunAt(frames, buffer + done, base, size) && 1 <= size <= PRDT_MAX_BYTE_COUNT && done + size <= count
    requires (buffer + done) % 2 == 0 && (count - done) % 2 == 0 ==> base % 2 == 0 && size % 2 == 0
    requires done + size < count ==> size == PRDT_MAX_BYTE_COUNT || Phys(frames, buffer + done + size) != base + size
    ensures var e := Filled(was, base, size, count - done == size);
            && Describes(frames, buffer, count, es + [e], done + size)
            && (done + size < count ==> Breaks(frames, es + [e], buffer + done + size))
  {
    hide Describes, Breaks, Phys, RunAt, BaseOf, SizeOf, Interrupts, EvenEntry, Filled, FramesOk;
    var e := Filled(was, base, size, count - done == size);
    RunBase(frames, buffer + done, base, size);
    PhysBound(frames, buffer + done);
    FilledEntry(was, base, size, count - done == size);
    EvenRun(e, base, size);
    if buffer % 2 == 0 && count % 2 == 0 {
      EvenSoFar(frames, buffer, count, es, done);
    }
    DescribesNext(frames, buffer, count, es, done, e);
    BreaksAfter(frames, es, e, buffer + done + size);
  }

  lemma NothingYet(frames: Frames, buffer: nat, count: nat)
    ensures Describes(frames, buffer, count, [], 0) && Breaks(frames, [], buffer)
  {
  }

  lemma UnmappedInside(frames: Frames, buffer: nat, count: nat, done: nat)
    requires done <= count && !Mapped(frames, buffer + done, count - done)
    ensures !Mapped(frames, buffer, count)
  {
  }

  lemma RunBase(frames: Frames, v: nat, base: nat, size: nat)
    requires RunAt(frames, v, base, size) && size > 0
    ensures base == Phys(frames, v)
  {
    hide Phys;
  }

  lemma EvenRun(e: Entry, base: nat, size: nat)
    requires BaseOf(e) == base && SizeOf(e) == size
    ensures base % 2 == 0 && size % 2 == 0 ==> EvenEntry(e)
  {
  }

  /** Every filled entry of an even buffer has an even size, so the rest is even too. */
  lemma {:induction false} EvenSoFar(frames: Frames, buffer: nat, count: nat, es: seq<Entry>, done: nat)
    requires Describes(frames, buffer, count, es, done) && buffer % 2 == 0 && count % 2 == 0
    ensures done % 2 == 0
  {
    assert |Wanted(frames, buffer, done)| == done;
    VisitedEven(es);
  }

  lemma {:induction false} VisitedEven(es: seq<Entry>)
    requires forall j :: 0 <= j < |es| ==> EvenEntry(es[j])
    ensures |Visited(es)| % 2 == 0
  {
    if es != [] {
      VisitedEven(es[..|es| - 1]);
      assert |BytesOf(es[|es| - 1])| == ByteCount(es[|es| - 1]) + 1;
    }
  }

  lemma BreaksAfter(frames: Frames, es: seq<Entry>, e: Entry, v: nat)
    ensures Breaks(frames, es + [e], v) <==>
              SizeOf(e) == PRDT_MAX_BYTE_COUNT || Phys(frames, v) != BaseOf(e) + SizeOf(e)
  {
  }
}
