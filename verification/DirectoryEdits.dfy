/**
  Editing a directory's slots: deletion removes exactly one listed entry and
  insertion adds exactly one, for the listing the parser computes.
 */
module DirectoryEdits {

  import opened Base
  import opened Slots
  import opened LongNames
  import opened ShortNames
  import opened DirectoryParser

  /** A slot that cannot lie inside a long name. */
  predicate Barrier(s: Slot) {
    IsEnd(s) || IsDeleted(s) || !IsLong(s)
  }

  /** `ss'` agrees with `ss` outside `[lo, hi)`, and no name crosses that range. */
  ghost predicate EditedWithin(ss: seq<Slot>, ss': seq<Slot>, lo: nat, hi: nat) {
    && lo < hi <= |ss'|
    && |ss| <= |ss'|
    && (forall q :: 0 <= q < |ss| && !(lo <= q < hi) ==> ss'[q] == ss[q])
    && (hi <= |ss| ==> Barrier(ss[hi - 1]))
    && Barrier(ss'[hi - 1])
  }

  // ----------------------------------------------------------------- locality

  /** A long name never reaches back over a barrier. */
  lemma GroupBarrier(ss: seq<Slot>, j: nat, k: nat, h: nat)
    requires Group(ss, j, k) && h < j && Barrier(ss[h])
    ensures h < j - k
  {
  }

  lemma GroupLocal(ss: seq<Slot>, ss': seq<Slot>, lo: nat, hi: nat, j: nat, k: nat)
    requires EditedWithin(ss, ss', lo, hi) && j < |ss| && (j < lo || hi <= j)
    requires Group(ss, j, k) || Group(ss', j, k)
    ensures Group(ss, j, k) && Group(ss', j, k)
    ensures forall q :: j - k <= q < j ==> ss[q] == ss'[q]
  {
    if hi <= j {
      if Group(ss, j, k) {
        GroupBarrier(ss, j, k, hi - 1);
      } else {
        GroupBarrier(ss', j, k, hi - 1);
      }
    }
  }

  lemma {:induction false} JoinedLocal(ss: seq<Slot>, ss': seq<Slot>, j: nat, k: nat)
    requires k <= j <= |ss| && j <= |ss'|
    requires forall q :: j - k <= q < j ==> ss[q] == ss'[q]
    ensures Joined(ss, j, k) == Joined(ss', j, k)
  {
    if k > 0 {
      JoinedLocal(ss, ss', j, k - 1);
    }
  }

  /** An edit leaves the entry of every slot outside it as it was. */
  lemma EntryLocal(ss: seq<Slot>, ss': seq<Slot>, lo: nat, hi: nat, j: nat)
    requires EditedWithin(ss, ss', lo, hi) && j < |ss| && (j < lo || hi <= j)
    ensures EntryAt(ss, j) == EntryAt(ss', j)
  {
    var k := GroupSize(ss, j);
    if k > 0 {
      GroupLocal(ss, ss', lo, hi, j, k);
      GroupUnique(ss', j, k);
      JoinedLocal(ss, ss', j, k);
    } else if GroupSize(ss', j) > 0 {
      GroupLocal(ss, ss', lo, hi, j, GroupSize(ss', j));
    }
  }

  // ----------------------------------------------------------- listing ranges

  lemma {:induction false} EntriesSplit(ss: seq<Slot>, lo: nat, mid: nat, hi: nat)
    requires lo <= mid <= hi <= |ss|
    ensures Entries(ss, lo, hi) == Entries(ss, lo, mid) + Entries(ss, mid, hi)
  {
    if mid < hi {
      EntriesSplit(ss, lo, mid, hi - 1);
    }
  }

  lemma {:induction false} EntriesNone(ss: seq<Slot>, lo: nat, hi: nat)
    requires lo <= hi <= |ss|
    requires forall q :: lo <= q < hi ==> !IsShortEntry(ss[q])
    ensures Entries(ss, lo, hi) == []
  {
    if lo < hi {
      EntriesNone(ss, lo, hi - 1);
    }
  }

  lemma {:induction false} EntriesLocal(ss: seq<Slot>, ss': seq<Slot>, lo: nat, hi: nat, a: nat, b: nat)
    requires EditedWithin(ss, ss', lo, hi)
    requires a <= b <= |ss| && (b <= lo || hi <= a)
    ensures Entries(ss, a, b) == Entries(ss', a, b)
  {
    hide EntryAt, IsShortEntry;
    if a < b {
      EntriesLocal(ss, ss', lo, hi, a, b - 1);
      EntryLocal(ss, ss', lo, hi, b - 1);
    }
  }

  // -------------------------------------------------------------------- shape

  /** Only end markers from the first one on. */
  ghost predicate EndShape(ss: seq<Slot>) {
    forall i :: End(ss) <= i < |ss| ==> IsEnd(ss[i])
  }

  /** The live entry at `i` owns the long-name slot at `q`. */
  ghost predicate OwnsLong(ss: seq<Slot>, i: nat, q: nat) {
    Live(ss, i) && i - EntryAt(ss, i).longSlots <= q < i
  }

  ghost predicate NoOrphans(ss: seq<Slot>) {
    forall q :: 0 <= q < End(ss) && !Barrier(ss[q]) ==> exists i :: OwnsLong(ss, i, q)
  }

  ghost predicate Shaped(ss: seq<Slot>) {
    EndShape(ss) && NoOrphans(ss)
  }

  /** The slots an entry owns are exactly its long-name slots. */
  lemma OwnedAreLong(ss: seq<Slot>, i: nat)
    requires i < |ss|
    ensures forall q :: i - EntryAt(ss, i).longSlots <= q < i ==> !Barrier(ss[q]) && !IsShortEntry(ss[q])
  {
    var k := EntryAt(ss, i).longSlots;
    if k > 0 {
      assert Group(ss, i, k);
    }
  }

  // ----------------------------------------------------------------- deletion

  /** The slots after marking an entry and its long-name slots deleted. */
  ghost function Deleted(ss: seq<Slot>, i: nat): (r: seq<Slot>)
    requires i < |ss|
    ensures |r| == |ss|
  {
    var k := EntryAt(ss, i).longSlots;
    seq(|ss|, q requires 0 <= q < |ss| => if i - k <= q <= i then MarkDeleted(ss[q]) else ss[q])
  }

  lemma DeletedEdits(ss: seq<Slot>, i: nat)
    requires Live(ss, i)
    ensures EditedWithin(ss, Deleted(ss, i), i - EntryAt(ss, i).longSlots, i + 1)
    ensures End(Deleted(ss, i)) == End(ss)
  {
    EndUnique(Deleted(ss, i), End(ss));
  }

  /** The listing around a live entry: only slots it owns sit right before it. */
  lemma ListingAround(ss: seq<Slot>, i: nat)
    requires Live(ss, i)
    ensures var k := EntryAt(ss, i).longSlots;
            && Entries(ss, 0, i) == Entries(ss, 0, i - k)
            && Listing(ss) == Entries(ss, 0, i) + [EntryAt(ss, i)] + Entries(ss, i + 1, End(ss))
  {
    var k := EntryAt(ss, i).longSlots;
    OwnedAreLong(ss, i);
    EntriesSplit(ss, 0, i - k, i);
    EntriesNone(ss, i - k, i);
    EntriesSplit(ss, 0, i, End(ss));
    EntriesSplit(ss, i, i + 1, End(ss));
    assert Entries(ss, i, i) == [];
  }

  /**
    Deletion is removal, on every slot list: the listing afterwards is the
    listing before without exactly that entry.
   */
  lemma DeletionRemoves(ss: seq<Slot>, i: nat)
    requires Live(ss, i)
    ensures Listing(ss) == Entries(ss, 0, i) + [EntryAt(ss, i)] + Entries(ss, i + 1, End(ss))
    ensures Listing(Deleted(ss, i)) == Entries(ss, 0, i) + Entries(ss, i + 1, End(ss))
  {
    hide EditedWithin, Deleted, Entries, EntryAt, End, IsShortEntry;
    var lo, r := i - EntryAt(ss, i).longSlots, Deleted(ss, i);
    ListingAround(ss, i);
    DeletedEdits(ss, i);
    DeletedRange(ss, i);
    EntriesAround(ss, r, lo, i + 1, End(ss), End(ss));
    assert Entries(ss, 0, lo) + Entries(r, lo, i + 1) == Entries(ss, 0, lo);
  }

  lemma DeletedRange(ss: seq<Slot>, i: nat)
    requires i < |ss|
    ensures Entries(Deleted(ss, i), i - EntryAt(ss, i).longSlots, i + 1) == []
  {
    var lo, r := i - EntryAt(ss, i).longSlots, Deleted(ss, i);
    assert forall q :: lo <= q < i + 1 ==> r[q] == MarkDeleted(ss[q]);
    EntriesNone(r, lo, i + 1);
  }

  /** What an edit does to the entries up to some end after it. */
  lemma EntriesAround(ss: seq<Slot>, ss': seq<Slot>, lo: nat, hi: nat, n: nat, n': nat)
    requires EditedWithin(ss, ss', lo, hi) && lo <= |ss| && lo < hi
    requires hi <= n' <= |ss'| && n <= |ss| && (n' == if hi <= n then n else hi)
    ensures Entries(ss', 0, n') == Entries(ss, 0, lo) + Entries(ss', lo, hi)
                                   + (if hi <= n then Entries(ss, hi, n) else [])
  {
    hide EditedWithin, EntryAt, IsShortEntry;
    EntriesSplit(ss', 0, lo, n');
    EntriesSplit(ss', lo, hi, n');
    EntriesLocal(ss, ss', lo, hi, 0, lo);
    if hi <= n {
      EntriesLocal(ss, ss', lo, hi, hi, n);
    } else {
      assert Entries(ss', hi, n') == [];
    }
  }

  lemma DeletionLive(ss: seq<Slot>, i: nat, j: nat)
    requires Live(ss, i)
    ensures Live(Deleted(ss, i), j) <==> Live(ss, j) && j != i
    ensures Live(ss, j) && j != i ==> Deleted(ss, i)[j] == ss[j] && EntryAt(Deleted(ss, i), j) == EntryAt(ss, j)
  {
    DeletedEdits(ss, i);
    OwnedAreLong(ss, i);
    if Live(ss, j) && j != i {
      assert !(i - EntryAt(ss, i).longSlots <= j < i);
      EntryLocal(ss, Deleted(ss, i), i - EntryAt(ss, i).longSlots, i + 1, j);
    }
  }

  lemma DeletionKeepsShape(ss: seq<Slot>, i: nat)
    requires Live(ss, i) && Shaped(ss)
    ensures Shaped(Deleted(ss, i))
  {
    var r := Deleted(ss, i);
    DeletedEdits(ss, i);
    forall q | 0 <= q < End(r) && !Barrier(r[q]) ensures exists j :: OwnsLong(r, j, q) {
      assert r[q] == ss[q];
      var j :| OwnsLong(ss, j, q);
      assert j != i;
      DeletionLive(ss, i, j);
      assert OwnsLong(r, j, q);
    }
  }

  // ---------------------------------------------------------------- insertion

  /** Long-name slots followed by the short entry they name. */
  ghost predicate IsRun(run: seq<Slot>, name: string) {
    && run != []
    && var m := |run| - 1;
    && m <= MAX_LONG_SLOTS
    && !IsEnd(run[m]) && IsShortEntry(run[m])
    && (forall q :: 0 <= q < m ==> Member(run[q], m - q, m, Checksum(Name(run[m]))))
    && (if m == 0 then name == ShortText(Name(run[0])) else DecodeLongName(Joined(run, m, m)) == Some(name))
  }

  /** The slots `[a, a + |run|)` of `ss`, free or not yet existing, take `run`. */
  ghost predicate Inserted(ss: seq<Slot>, a: nat, run: seq<Slot>, ss': seq<Slot>) {
    && a <= End(ss)
    && |ss| <= |ss'| && a + |run| <= |ss'|
    && (forall q :: a <= q < a + |run| && q < End(ss) ==> IsDeleted(ss[q]))
    && (forall q :: 0 <= q < |ss| && !(a <= q < a + |run|) ==> ss'[q] == ss[q])
    && (forall q :: |ss| <= q < |ss'| && !(a <= q < a + |run|) ==> IsEnd(ss'[q]))
    && (forall q :: 0 <= q < |run| ==> ss'[a + q] == run[q])
  }

  lemma InsertedEdits(ss: seq<Slot>, a: nat, run: seq<Slot>, ss': seq<Slot>, name: string)
    requires Inserted(ss, a, run, ss') && IsRun(run, name) && EndShape(ss)
    ensures EditedWithin(ss, ss', a, a + |run|)
    ensures End(ss') == if End(ss) <= a + |run| then a + |run| else End(ss)
    ensures EndShape(ss')
  {
    var m, b := |run| - 1, a + |run|;
    assert ss'[a + m] == run[m];
    forall q | a <= q < b ensures !IsEnd(ss'[q]) {
      assert ss'[a + (q - a)] == run[q - a];
    }
    EndUnique(ss', if End(ss) <= b then b else End(ss));
  }

  /** The new entry is found where it was put, under the requested name. */
  lemma InsertedEntry(ss: seq<Slot>, a: nat, run: seq<Slot>, ss': seq<Slot>, name: string)
    requires Inserted(ss, a, run, ss') && IsRun(run, name) && Shaped(ss)
    ensures var m := |run| - 1;
            EntryAt(ss', a + m) == Entry(run[m], a + m, name, m)
  {
    var m := |run| - 1;
    var i := a + m;
    assert ss'[i] == run[m];
    forall q | a <= q < i ensures ss'[q] == run[q - a] {
      assert ss'[a + (q - a)] == run[q - a];
    }
    if m > 0 {
      assert Group(ss', i, m);
      GroupUnique(ss', i, m);
      JoinedShift(ss', run, a, m, m);
    } else if a > 0 {
      BarrierBefore(ss, a);
      assert ss'[a - 1] == ss[a - 1];
      assert GroupSize(ss', i) == 0;
    }
  }

  /** No entry owns a slot right before a free one. */
  lemma FreeStopsOwner(ss: seq<Slot>, a: nat, j: nat)
    requires 0 < a <= End(ss) && (a < End(ss) ==> IsDeleted(ss[a]))
    ensures !OwnsLong(ss, j, a - 1)
  {
    if Live(ss, j) && a < j {
      OwnedAreLong(ss, j);
    }
  }

  /** Without orphans, no long-name slot sits right before a free one. */
  lemma BarrierBefore(ss: seq<Slot>, a: nat)
    requires Shaped(ss) && 0 < a <= End(ss) && (a < End(ss) ==> IsDeleted(ss[a]))
    ensures Barrier(ss[a - 1])
  {
    var q := a - 1;
    forall j: nat ensures !OwnsLong(ss, j, q) {
      FreeStopsOwner(ss, a, j);
    }
  }

  lemma {:induction false} JoinedShift(ss: seq<Slot>, run: seq<Slot>, a: nat, m: nat, k: nat)
    requires k <= m <= |run| && a + m <= |ss|
    requires forall q :: a <= q < a + m ==> ss[q] == run[q - a]
    ensures Joined(ss, a + m, k) == Joined(run, m, k)
  {
    if k > 0 {
      JoinedShift(ss, run, a, m, k - 1);
    }
  }

  /** The free range contributes nothing to the listing before insertion. */
  lemma ListingAroundFree(ss: seq<Slot>, a: nat, b: nat)
    requires a <= b && a <= End(ss)
    requires forall q :: a <= q < b && q < End(ss) ==> IsDeleted(ss[q])
    ensures Listing(ss) == Entries(ss, 0, a) + (if b <= End(ss) then Entries(ss, b, End(ss)) else [])
  {
    var n := End(ss);
    var stop := if b <= n then b else n;
    EntriesSplit(ss, 0, a, n);
    EntriesSplit(ss, a, stop, n);
    EntriesNone(ss, a, stop);
  }

  /**
    Creation is insertion: the old entries, unchanged and in order, with the
    new one among them.
   */
  lemma InsertionInserts(ss: seq<Slot>, a: nat, run: seq<Slot>, ss': seq<Slot>, name: string)
    requires Inserted(ss, a, run, ss') && IsRun(run, name) && Shaped(ss)
    ensures var b, n, m := a + |run|, End(ss), |run| - 1;
            var after := if b <= n then Entries(ss, b, n) else [];
            && Listing(ss) == Entries(ss, 0, a) + after
            && Listing(ss') == Entries(ss, 0, a) + [Entry(run[m], a + m, name, m)] + after
  {
    hide EditedWithin, Entries, EntryAt, End, IsShortEntry, NoOrphans, IsRun, Live;
    var b := a + |run|;
    InsertedEdits(ss, a, run, ss', name);
    InsertedEntry(ss, a, run, ss', name);
    ListingAroundFree(ss, a, b);
    InsertedRange(ss', a, run, name);
    EntriesAround(ss, ss', a, b, End(ss), End(ss'));
  }

  lemma InsertedRange(ss': seq<Slot>, a: nat, run: seq<Slot>, name: string)
    requires IsRun(run, name) && a + |run| <= |ss'|
    requires forall q :: 0 <= q < |run| ==> ss'[a + q] == run[q]
    ensures Entries(ss', a, a + |run|) == [EntryAt(ss', a + |run| - 1)]
  {
    hide EntryAt, IsShortEntry, IsRun;
    RunNotEmpty(run, name);
    var m := |run| - 1;
    forall q | a <= q < a + m + 1 ensures IsShortEntry(ss'[q]) <==> q == a + m {
      InsertedLive(a, run, ss', name, q);
    }
    EntriesNone(ss', a, a + m);
    LastEntry(ss', a, a + m);
  }

  lemma RunNotEmpty(run: seq<Slot>, name: string)
    requires IsRun(run, name)
    ensures run != []
  {
  }

  lemma LastEntry(ss: seq<Slot>, lo: nat, hi: nat)
    requires lo <= hi < |ss| && Entries(ss, lo, hi) == [] && IsShortEntry(ss[hi])
    ensures Entries(ss, lo, hi + 1) == [EntryAt(ss, hi)]
  {
    hide EntryAt, IsShortEntry;
  }

  lemma InsertionLive(ss: seq<Slot>, a: nat, run: seq<Slot>, ss': seq<Slot>, name: string, j: nat)
    requires Inserted(ss, a, run, ss') && IsRun(run, name) && Shaped(ss)
    ensures Live(ss', j) <==> Live(ss, j) || j == a + |run| - 1
    ensures Live(ss, j) ==> j < |ss| && !(a <= j < a + |run|) && ss'[j] == ss[j]
  {
    hide Member, EditedWithin, NoOrphans;
    InsertedEdits(ss, a, run, ss', name);
    if a <= j < a + |run| {
      InsertedLive(a, run, ss', name, j);
    }
  }

  lemma InsertedLive(a: nat, run: seq<Slot>, ss': seq<Slot>, name: string, j: nat)
    requires IsRun(run, name) && a <= j < a + |run| <= |ss'|
    requires forall q :: 0 <= q < |run| ==> ss'[a + q] == run[q]
    ensures IsShortEntry(ss'[j]) <==> j == a + |run| - 1
  {
    hide IsRun;
    assert ss'[a + (j - a)] == run[j - a];
    RunSlot(run, name, j - a);
  }

  /** Only the last slot of a run is a short entry. */
  lemma RunSlot(run: seq<Slot>, name: string, q: nat)
    requires IsRun(run, name) && q < |run|
    ensures IsShortEntry(run[q]) <==> q == |run| - 1
    ensures !IsEnd(run[q])
  {
    hide Joined, DecodeLongName, IsDeleted;
    var m := |run| - 1;
    if q < m {
      assert Member(run[q], m - q, m, Checksum(Name(run[m])));
    }
  }

  lemma InsertionEntry(ss: seq<Slot>, a: nat, run: seq<Slot>, ss': seq<Slot>, name: string, j: nat)
    requires Inserted(ss, a, run, ss') && IsRun(run, name) && Shaped(ss) && Live(ss, j)
    ensures j < |ss| && ss'[j] == ss[j] && EntryAt(ss', j) == EntryAt(ss, j)
  {
    hide EntryAt, EditedWithin, IsRun, NoOrphans;
    InsertedEdits(ss, a, run, ss', name);
    InsertionLive(ss, a, run, ss', name, j);
    EntryLocal(ss, ss', a, a + |run|, j);
  }

  lemma InsertionKeepsOwner(ss: seq<Slot>, a: nat, run: seq<Slot>, ss': seq<Slot>, name: string, j: nat, q: nat)
    requires Inserted(ss, a, run, ss') && IsRun(run, name) && Shaped(ss)
    requires OwnsLong(ss, j, q)
    ensures OwnsLong(ss', j, q)
  {
    InsertionLive(ss, a, run, ss', name, j);
    InsertionEntry(ss, a, run, ss', name, j);
  }

  lemma InsertionOwnsRun(ss: seq<Slot>, a: nat, run: seq<Slot>, ss': seq<Slot>, name: string, q: nat)
    requires Inserted(ss, a, run, ss') && IsRun(run, name) && Shaped(ss)
    requires a <= q < a + |run| && !Barrier(ss'[q])
    ensures OwnsLong(ss', a + |run| - 1, q)
  {
    InsertedEntry(ss, a, run, ss', name);
    InsertionLive(ss, a, run, ss', name, a + |run| - 1);
    assert ss'[a + (q - a)] == run[q - a];
  }

  lemma InsertionKeepsShape(ss: seq<Slot>, a: nat, run: seq<Slot>, ss': seq<Slot>, name: string)
    requires Inserted(ss, a, run, ss') && IsRun(run, name) && Shaped(ss)
    ensures Shaped(ss')
  {
    var b := a + |run|;
    InsertedEdits(ss, a, run, ss', name);
    forall q | 0 <= q < End(ss') && !Barrier(ss'[q]) ensures exists j :: OwnsLong(ss', j, q) {
      if a <= q < b {
        InsertionOwnsRun(ss, a, run, ss', name, q);
      } else {
        assert ss'[q] == ss[q];
        var j :| OwnsLong(ss, j, q);
        InsertionKeepsOwner(ss, a, run, ss', name, j, q);
      }
    }
  }
}
