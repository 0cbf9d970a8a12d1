/**
  Decoding a directory: the declarative rule that gives each live entry its
  name, and the one-pass parser that computes it.
 */
module DirectoryParser {

  import opened Base
  import opened Slots
  import opened LongNames
  import opened ShortNames

  /** Where a slot is stored: cluster, index within it, byte offset. */
  datatype Location = Location(cluster: nat, index: nat, offset: nat)

  datatype LocatedSlot = LocatedSlot(slot: Slot, location: Location)

  datatype LocatedEntry = LocatedEntry(entry: Slot, location: Location, name: string, lfnLocations: seq<Location>)

  // --------------------------------------------------------------- the rule

  /** Index of the first end marker. */
  ghost function End(ss: seq<Slot>): (n: nat)
    ensures n <= |ss|
    ensures forall i :: 0 <= i < n ==> !IsEnd(ss[i])
    ensures n < |ss| ==> IsEnd(ss[n])
  {
    if ss == [] || IsEnd(ss[0]) then 0 else 1 + End(ss[1..])
  }

  /** An entry that is neither deleted, nor a long-name slot, nor a label. */
  predicate IsShortEntry(s: Slot) {
    !IsDeleted(s) && !IsLong(s) && !IsVolumeLabel(s)
  }

  ghost predicate Live(ss: seq<Slot>, i: nat)
    ensures Live(ss, i) ==> i < |ss|
  {
    i < End(ss) && IsShortEntry(ss[i])
  }

  /** `s` is slot number `j` of a `k`-slot long name with the given checksum. */
  predicate Member(s: Slot, j: int, k: int, checksum: Byte) {
    && !IsEnd(s) && !IsDeleted(s) && IsLong(s)
    && Sequence(s) == j
    && (IsLast(s) <==> j == k)
    && StoredChecksum(s) == checksum
  }

  /** The slots right before `n` are numbered `k` down to `e + 1`. */
  ghost predicate Pending(ss: seq<Slot>, n: nat, k: nat, e: nat, checksum: Byte) {
    && e < k <= MAX_LONG_SLOTS
    && k - e <= n <= |ss|
    && forall q :: n - (k - e) <= q < n ==> Member(ss[q], e + n - q, k, checksum)
  }

  /** The `k` slots before `i` are a complete long name for the entry at `i`. */
  ghost predicate Group(ss: seq<Slot>, i: nat, k: nat) {
    i < |ss| && Pending(ss, i, k, 0, Checksum(Name(ss[i])))
  }

  ghost function GroupSize(ss: seq<Slot>, i: nat): (k: nat)
    ensures k == 0 ==> forall j :: !Group(ss, i, j)
    ensures k > 0 ==> Group(ss, i, k)
  {
    if exists k :: Group(ss, i, k) then
      var k: nat :| Group(ss, i, k); k
    else 0
  }

  /** The units of the `k` slots before `i`, in name order. */
  ghost function Joined(ss: seq<Slot>, i: nat, k: nat): seq<Unit>
    requires k <= i <= |ss|
  {
    if k == 0 then [] else Joined(ss, i, k - 1) + NameUnits(ss[i - k])
  }

  /** A live entry with its name and the number of long-name slots it owns. */
  datatype Entry = Entry(slot: Slot, index: nat, name: string, longSlots: nat)

  ghost function LongName(ss: seq<Slot>, i: nat): Option<string> {
    var k := GroupSize(ss, i);
    if k == 0 then None else DecodeLongName(Joined(ss, i, k))
  }

  ghost function EntryAt(ss: seq<Slot>, i: nat): (e: Entry)
    requires i < |ss|
    ensures e.longSlots <= i && e.index == i && e.slot == ss[i]
  {
    match LongName(ss, i)
    case Some(name) => Entry(ss[i], i, name, GroupSize(ss, i))
    case None => Entry(ss[i], i, ShortText(Name(ss[i])), 0)
  }

  /** The entries of the slots in `[lo, hi)`. */
  ghost function Entries(ss: seq<Slot>, lo: nat, hi: nat): (r: seq<Entry>)
    requires lo <= hi <= |ss|
  {
    if lo == hi then []
    else Entries(ss, lo, hi - 1) + (if IsShortEntry(ss[hi - 1]) then [EntryAt(ss, hi - 1)] else [])
  }

  ghost function Listing(ss: seq<Slot>): seq<Entry> {
    Entries(ss, 0, End(ss))
  }

  // ------------------------------------------------------- facts about groups

  lemma PendingUnique(ss: seq<Slot>, n: nat, k: nat, e: nat, c: Byte, k': nat, e': nat, c': Byte)
    requires Pending(ss, n, k, e, c) && Pending(ss, n, k', e', c')
    ensures k == k' && e == e' && c == c'
  {
    var first, first' := n - (k - e), n - (k' - e');
    assert Member(ss[n - 1], e + 1, k, c) && Member(ss[n - 1], e' + 1, k', c');
    assert Member(ss[first], k, k, c) && Member(ss[first'], k', k', c');
  }

  lemma GroupUnique(ss: seq<Slot>, i: nat, k: nat)
    requires Group(ss, i, k)
    ensures GroupSize(ss, i) == k
  {
    var c := Checksum(Name(ss[i]));
    PendingUnique(ss, i, k, 0, c, GroupSize(ss, i), 0, c);
  }

  /** One more slot either continues a pending run or starts a new one. */
  lemma PendingStep(ss: seq<Slot>, n: nat, k: nat, e: nat, c: Byte)
    requires n < |ss|
    ensures Pending(ss, n + 1, k, e, c) <==>
              && e < k <= MAX_LONG_SLOTS
              && Member(ss[n], e + 1, k, c)
              && (e + 1 < k ==> Pending(ss, n, k, e + 1, c))
  {
    if Pending(ss, n + 1, k, e, c) {
      assert Member(ss[n], e + 1, k, c);
      assert forall q :: n - (k - (e + 1)) <= q < n ==> Member(ss[q], e + (n + 1) - q, k, c);
    }
  }

  ghost predicate NothingPending(ss: seq<Slot>, n: nat) {
    forall k, e, c :: !Pending(ss, n, k, e, c)
  }

  /** A slot that is not a live long-name slot breaks every run. */
  lemma PendingBroken(ss: seq<Slot>, n: nat)
    requires n < |ss| && (IsDeleted(ss[n]) || !IsLong(ss[n]))
    ensures NothingPending(ss, n + 1)
  {
    var m := n + 1;
    forall k: nat, e: nat, c: Byte ensures !Pending(ss, m, k, e, c) {
      PendingStep(ss, n, k, e, c);
    }
  }

  // -------------------------------------------------------------- the parser

  ghost function Raw(slots: seq<LocatedSlot>): (ss: seq<Slot>)
    ensures |ss| == |slots|
  {
    seq(|slots|, i requires 0 <= i < |slots| => slots[i].slot)
  }

  ghost function Locations(slots: seq<LocatedSlot>): (ls: seq<Location>)
    ensures |ls| == |slots|
  {
    seq(|slots|, i requires 0 <= i < |slots| => slots[i].location)
  }

  /** An entry of the rule, with indices replaced by disk locations. */
  ghost function Locate(e: Entry, ls: seq<Location>): LocatedEntry
    requires e.longSlots <= e.index < |ls|
  {
    LocatedEntry(e.slot, ls[e.index], e.name, ls[e.index - e.longSlots..e.index])
  }

  ghost predicate Located(es: seq<Entry>, ls: seq<Location>, r: seq<LocatedEntry>) {
    && |r| == |es|
    && forall j :: 0 <= j < |es| ==> es[j].longSlots <= es[j].index < |ls| && r[j] == Locate(es[j], ls)
  }

  lemma LocatedNone(ss: seq<Slot>, ls: seq<Location>)
    ensures Located(Entries(ss, 0, 0), ls, [])
  {
  }

  lemma LocatedNext(ss: seq<Slot>, n: nat, ls: seq<Location>, r: seq<LocatedEntry>)
    requires n < |ss| == |ls| && Located(Entries(ss, 0, n), ls, r)
    ensures IsShortEntry(ss[n]) ==> Located(Entries(ss, 0, n + 1), ls, r + [Locate(EntryAt(ss, n), ls)])
    ensures !IsShortEntry(ss[n]) ==> Located(Entries(ss, 0, n + 1), ls, r)
  {
    hide EntryAt, IsShortEntry, Locate;
    assert Entries(ss, 0, n + 1) == Entries(ss, 0, n) + (if IsShortEntry(ss[n]) then [EntryAt(ss, n)] else []);
  }

  /** The parser's memory of the run before slot `n`. */
  ghost predicate Remembers(ss: seq<Slot>, ls: seq<Location>, n: nat, chunks: seq<seq<Unit>>,
                            lfnLocations: seq<Location>, expected: nat, checksum: Byte)
  {
    && n <= |ss| == |ls|
    && |chunks| == |lfnLocations| <= n
    && (chunks == [] ==> expected == 0 && NothingPending(ss, n))
    && (chunks != [] ==> Pending(ss, n, expected + |chunks|, expected, checksum))
    && (forall q :: 0 <= q < |chunks| ==> chunks[q] == NameUnits(ss[n - |chunks| + q]))
    && lfnLocations == ls[n - |chunks|..n]
  }

  lemma Forgets(ss: seq<Slot>, ls: seq<Location>, n: nat, checksum: Byte)
    requires n <= |ss| == |ls| && NothingPending(ss, n)
    ensures Remembers(ss, ls, n, [], [], 0, checksum)
  {
  }

  lemma NothingBeforeStart(ss: seq<Slot>)
    ensures NothingPending(ss, 0)
  {
  }

  /** A flagged slot with a valid number starts a run of its own. */
  lemma StartsRun(ss: seq<Slot>, n: nat)
    requires n < |ss| && !IsEnd(ss[n]) && !IsDeleted(ss[n]) && IsLong(ss[n]) && IsLast(ss[n])
    ensures 1 <= Sequence(ss[n]) <= MAX_LONG_SLOTS ==>
              Pending(ss, n + 1, Sequence(ss[n]), Sequence(ss[n]) - 1, StoredChecksum(ss[n]))
    ensures !(1 <= Sequence(ss[n]) <= MAX_LONG_SLOTS) ==> NothingPending(ss, n + 1)
  {
    if 1 <= Sequence(ss[n]) <= MAX_LONG_SLOTS {
      PendingStep(ss, n, Sequence(ss[n]), Sequence(ss[n]) - 1, StoredChecksum(ss[n]));
    } else {
      var m := n + 1;
      forall k: nat, e: nat, c: Byte ensures !Pending(ss, m, k, e, c) {
        PendingStep(ss, n, k, e, c);
      }
    }
  }

  /** An unflagged slot continues the pending run or breaks it. */
  lemma ContinuesRun(ss: seq<Slot>, ls: seq<Location>, n: nat, chunks: seq<seq<Unit>>,
                     lfnLocations: seq<Location>, expected: nat, checksum: Byte)
    requires Remembers(ss, ls, n, chunks, lfnLocations, expected, checksum)
    requires n < |ss| && !IsEnd(ss[n]) && !IsDeleted(ss[n]) && IsLong(ss[n]) && !IsLast(ss[n])
    ensures expected > 0 && Sequence(ss[n]) == expected && StoredChecksum(ss[n]) == checksum ==>
              chunks != [] && Pending(ss, n + 1, expected + |chunks|, expected - 1, checksum)
    ensures !(expected > 0 && Sequence(ss[n]) == expected && StoredChecksum(ss[n]) == checksum) ==>
              NothingPending(ss, n + 1)
  {
    if expected > 0 && Sequence(ss[n]) == expected && StoredChecksum(ss[n]) == checksum {
      PendingStep(ss, n, expected + |chunks|, expected - 1, checksum);
    } else {
      var m := n + 1;
      forall k: nat, e: nat, c: Byte ensures !Pending(ss, m, k, e, c) {
        PendingStep(ss, n, k, e, c);
        if Pending(ss, m, k, e, c) {
          PendingUnique(ss, n, k, e + 1, c, expected + |chunks|, expected, checksum);
        }
      }
    }
  }

  /** Reaching a short entry, the memory holds a complete name iff the rule does. */
  lemma CompletesRun(ss: seq<Slot>, ls: seq<Location>, n: nat, chunks: seq<seq<Unit>>,
                     lfnLocations: seq<Location>, expected: nat, checksum: Byte)
    requires Remembers(ss, ls, n, chunks, lfnLocations, expected, checksum) && n < |ss|
    ensures GroupSize(ss, n) == if expected == 0 && checksum == Checksum(Name(ss[n])) then |chunks| else 0
  {
    if chunks != [] {
      if expected == 0 && checksum == Checksum(Name(ss[n])) {
        GroupUnique(ss, n, |chunks|);
      } else if GroupSize(ss, n) > 0 {
        PendingUnique(ss, n, GroupSize(ss, n), 0, Checksum(Name(ss[n])), expected + |chunks|, expected, checksum);
      }
    }
  }

  method JoinChunks(ghost ss: seq<Slot>, ghost n: nat, chunks: seq<seq<Unit>>) returns (units: seq<Unit>)
    requires |chunks| <= n <= |ss|
    requires forall q :: 0 <= q < |chunks| ==> chunks[q] == NameUnits(ss[n - |chunks| + q])
    ensures units == Joined(ss, n, |chunks|)
  {
    units := [];
    var q := |chunks|;
    while q > 0
      invariant 0 <= q <= |chunks|
      invariant units == Joined(ss, n, |chunks| - q)
    {
      q := q - 1;
      units := units + chunks[q];
    }
  }

  /** The long-name slot `n` continues, restarts or clears the memory. */
  method TakeLongSlot(ghost ss: seq<Slot>, ghost ls: seq<Location>, ghost n: nat, entry: Slot, location: Location,
                      chunks: seq<seq<Unit>>, lfnLocations: seq<Location>, expected: nat, checksum: Byte)
    returns (chunks': seq<seq<Unit>>, lfnLocations': seq<Location>, expected': nat, checksum': Byte)
    requires Remembers(ss, ls, n, chunks, lfnLocations, expected, checksum)
    requires n < |ss| && ss[n] == entry && ls[n] == location
    requires !IsEnd(entry) && !IsDeleted(entry) && IsLong(entry)
    ensures Remembers(ss, ls, n + 1, chunks', lfnLocations', expected', checksum')
  {
    hide Pending, NothingPending;
    chunks', lfnLocations', expected', checksum' := chunks, lfnLocations, expected, checksum;
    var sequence := Sequence(entry);
    if IsLast(entry) {
      StartsRun(ss, n);
      chunks', lfnLocations', checksum' := [], [], StoredChecksum(entry);
      expected' := if 1 <= sequence <= MAX_LONG_SLOTS then sequence else 0;
    } else {
      ContinuesRun(ss, ls, n, chunks, lfnLocations, expected, checksum);
    }
    if expected' == 0 || sequence != expected' || StoredChecksum(entry) != checksum' {
      Forgets(ss, ls, n + 1, checksum');
      return [], [], 0, checksum';
    }
    chunks', lfnLocations', expected' := chunks' + [NameUnits(entry)], lfnLocations' + [location], expected' - 1;
  }

  /** The entry at slot `n`, named by the memory or by its 8.3 name. */
  method TakeShortEntry(ghost ss: seq<Slot>, ghost ls: seq<Location>, ghost n: nat, entry: Slot, location: Location,
                        chunks: seq<seq<Unit>>, lfnLocations: seq<Location>, expected: nat, checksum: Byte)
    returns (parsed: LocatedEntry)
    requires Remembers(ss, ls, n, chunks, lfnLocations, expected, checksum)
    requires n < |ss| && ss[n] == entry && ls[n] == location
    ensures parsed == Locate(EntryAt(ss, n), ls)
  {
    CompletesRun(ss, ls, n, chunks, lfnLocations, expected, checksum);
    var longName: Option<string> := None;
    if expected == 0 && chunks != [] && checksum == Checksum(Name(entry)) {
      var units := JoinChunks(ss, n, chunks);
      longName := DecodeLongName(units);
    }
    assert longName == LongName(ss, n);
    match longName
    case Some(name) => return LocatedEntry(entry, location, name, lfnLocations);
    case None => return LocatedEntry(entry, location, ShortText(Name(entry)), []);
  }

  /** What the parser carries from slot to slot. */
  datatype ParserState = ParserState(parsed: seq<LocatedEntry>, chunks: seq<seq<Unit>>,
                                     lfnLocations: seq<Location>, expected: nat, checksum: Byte)

  ghost predicate Parsed(ss: seq<Slot>, ls: seq<Location>, n: nat, st: ParserState) {
    && n <= |ss| == |ls|
    && Remembers(ss, ls, n, st.chunks, st.lfnLocations, st.expected, st.checksum)
    && Located(Entries(ss, 0, n), ls, st.parsed)
  }

  lemma ParsedNone(ss: seq<Slot>, ls: seq<Location>)
    requires |ss| == |ls|
    ensures Parsed(ss, ls, 0, ParserState([], [], [], 0, 0))
  {
    NothingBeforeStart(ss);
    Forgets(ss, ls, 0, 0);
    LocatedNone(ss, ls);
  }

  method ParseSlot(ghost ss: seq<Slot>, ghost ls: seq<Location>, ghost n: nat,
                   entry: Slot, location: Location, st: ParserState) returns (st': ParserState)
    requires Parsed(ss, ls, n, st)
    requires n < |ss| && ss[n] == entry && ls[n] == location && !IsEnd(entry)
    ensures Parsed(ss, ls, n + 1, st')
  {
    hide Remembers, Located, Entries, EntryAt, Locate, NothingPending;
    LocatedNext(ss, n, ls, st.parsed);
    if !IsDeleted(entry) && IsLong(entry) {
      var chunks, lfnLocations, expected, checksum :=
        TakeLongSlot(ss, ls, n, entry, location, st.chunks, st.lfnLocations, st.expected, st.checksum);
      return ParserState(st.parsed, chunks, lfnLocations, expected, checksum);
    }
    PendingBroken(ss, n);
    Forgets(ss, ls, n + 1, st.checksum);
    if IsVolumeLabel(entry) || IsDeleted(entry) {
      return ParserState(st.parsed, [], [], 0, st.checksum);
    }
    var e := TakeShortEntry(ss, ls, n, entry, location, st.chunks, st.lfnLocations, st.expected, st.checksum);
    return ParserState(st.parsed + [e], [], [], 0, st.checksum);
  }

  /** One pass over any slot list, corrupt ones included, computes the rule. */
  method ParseDirectoryEntries(slots: seq<LocatedSlot>) returns (parsed: seq<LocatedEntry>)
    ensures Located(Listing(Raw(slots)), Locations(slots), parsed)
  {
    hide Remembers, Located, Entries;
    ghost var ss, ls := Raw(slots), Locations(slots);
    var st := ParserState([], [], [], 0, 0);
    var n := 0;
    ParsedNone(ss, ls);
    while n < |slots| && !IsEnd(slots[n].slot)
      invariant 0 <= n <= |slots|
      invariant forall i :: 0 <= i < n ==> !IsEnd(ss[i])
      invariant Parsed(ss, ls, n, st)
    {
      st := ParseSlot(ss, ls, n, slots[n].slot, slots[n].location, st);
      n := n + 1;
    }
    EndUnique(ss, n);
    return st.parsed;
  }

  lemma {:induction false} EndUnique(ss: seq<Slot>, n: nat)
    requires n <= |ss| && (forall i :: 0 <= i < n ==> !IsEnd(ss[i]))
    requires n < |ss| ==> IsEnd(ss[n])
    ensures End(ss) == n
  {
    if End(ss) < n {
      assert IsEnd(ss[End(ss)]);
    }
  }
}
