/**
  Directory entries as stored on disk: raw 32-byte slots. The short (8.3) and
  the long-filename layouts are two readings of the same bytes.
 */
module Slots {

  import opened Base

  const SLOT_SIZE := 32

  /** Number of UTF-16 units in one long-filename slot, and slots per name. */
  const UNITS_PER_SLOT := 13
  const MAX_LONG_SLOTS := 20

  type Slot = s: seq<Byte> | |s| == 32 witness seq(32, _ => 0)

  type ShortName = n: seq<Byte> | |n| == 11 witness seq(11, _ => 0x20)

  type Unit = x: int | 0 <= x < 0x1_0000

  function LittleEndian(low: int, high: int): int { low + 0x100 * high }

  /** The number stored in little-endian bytes. */
  function Number(b: seq<Byte>): nat {
    if b == [] then 0 else b[0] + 0x100 * Number(b[1..])
  }

  lemma NumberOfFour(b: seq<Byte>)
    requires |b| == 4
    ensures Number(b) == LittleEndian(b[0], b[1]) + 0x1_0000 * LittleEndian(b[2], b[3]) <= 0xFFFF_FFFF
  {
    assert b[1..][1..] == b[2..] && b[2..][1..] == b[3..];
    assert Number(b[3..]) == b[3];
    assert Number(b[2..]) == LittleEndian(b[2], b[3]);
  }

  // ------------------------------------------------------------- short layout

  function Name(s: Slot): ShortName { s[..11] }

  function Attributes(s: Slot): Byte { s[11] }

  function Cluster(s: Slot): (c: nat)
    ensures c <= 0xFFFF_FFFF
  {
    NumberOfFour([s[26], s[27], s[20], s[21]]);
    Number([s[26], s[27], s[20], s[21]])
  }

  function Size(s: Slot): (n: nat)
    ensures n <= 0xFFFF_FFFF
  {
    NumberOfFour([s[28], s[29], s[30], s[31]]);
    Number([s[28], s[29], s[30], s[31]])
  }

  predicate IsEnd(s: Slot) { s[0] == 0x00 }

  predicate IsDeleted(s: Slot) { s[0] == 0xE5 }

  predicate IsLong(s: Slot) { s[11] % 0x40 == 0x0F }

  predicate IsVolumeLabel(s: Slot) { (s[11] / 0x08) % 2 == 1 }

  predicate IsNormal(s: Slot) { !IsEnd(s) && !IsDeleted(s) && !IsLong(s) && !IsVolumeLabel(s) }

  predicate IsDirectory(s: Slot) { IsNormal(s) && (s[11] / 0x10) % 2 == 1 }

  predicate IsRegular(s: Slot) { IsNormal(s) && !IsDirectory(s) }

  function MarkDeleted(s: Slot): Slot { s[0 := 0xE5] }

  function SetCluster(s: Slot, c: nat): Slot {
    s[20 := (c / 0x1_0000) % 0x100][21 := (c / 0x100_0000) % 0x100][26 := c % 0x100][27 := (c / 0x100) % 0x100]
  }

  function SetSize(s: Slot, n: nat): Slot {
    s[28 := n % 0x100][29 := (n / 0x100) % 0x100][30 := (n / 0x1_0000) % 0x100][31 := (n / 0x100_0000) % 0x100]
  }

  /** An entry with the given name and attributes and all other fields zero. */
  function NewEntry(name: ShortName, attributes: Byte): Slot {
    name + [attributes] + seq(20, _ => 0)
  }

  const FILE_ATTRIBUTES: Byte := 0x20
  const DIRECTORY_ATTRIBUTES: Byte := 0x10

  function FileEntry(name: ShortName): Slot {
    NewEntry(name, FILE_ATTRIBUTES)
  }

  function DirectoryEntry(name: ShortName, cluster: nat): Slot {
    SetCluster(NewEntry(name, DIRECTORY_ATTRIBUTES), cluster)
  }

  function DotName(parent: bool): ShortName {
    [0x2E, if parent then 0x2E else 0x20] + seq(9, _ => 0x20)
  }

  predicate IsDotName(n: ShortName) {
    n == DotName(false) || n == DotName(true)
  }

  lemma BytesOfNumber(n: nat)
    requires n <= 0xFFFF_FFFF
    ensures n == n % 0x100 + 0x100 * ((n / 0x100) % 0x100) + 0x1_0000 * ((n / 0x1_0000) % 0x100)
                 + 0x100_0000 * ((n / 0x100_0000) % 0x100)
  {
    var a, b := n / 0x100, n / 0x1_0000;
    assert b == a / 0x100 && n / 0x100_0000 == b / 0x100;
  }

  /** Setting and reading back the first cluster; nothing else changes. */
  lemma ClusterRoundTrip(s: Slot, c: nat)
    requires c <= 0xFFFF_FFFF
    ensures Cluster(SetCluster(s, c)) == c
    ensures Size(SetCluster(s, c)) == Size(s)
    ensures Name(SetCluster(s, c)) == Name(s) && Attributes(SetCluster(s, c)) == Attributes(s)
  {
    var r := SetCluster(s, c);
    assert r[20] == (c / 0x1_0000) % 0x100 && r[21] == (c / 0x100_0000) % 0x100;
    assert r[26] == c % 0x100 && r[27] == (c / 0x100) % 0x100;
    NumberOfFour([r[26], r[27], r[20], r[21]]);
    BytesOfNumber(c);
  }

  lemma SizeRoundTrip(s: Slot, n: nat)
    requires n <= 0xFFFF_FFFF
    ensures Size(SetSize(s, n)) == n
    ensures Cluster(SetSize(s, n)) == Cluster(s)
    ensures Name(SetSize(s, n)) == Name(s) && Attributes(SetSize(s, n)) == Attributes(s)
  {
    var r := SetSize(s, n);
    NumberOfFour([r[28], r[29], r[30], r[31]]);
    BytesOfNumber(n);
  }

  // -------------------------------------------------------------- long layout

  function Sequence(s: Slot): nat { s[0] % 0x40 }

  predicate IsLast(s: Slot) { (s[0] / 0x40) % 2 == 1 }

  function StoredChecksum(s: Slot): Byte { s[13] }

  /** Byte offset of the `i`-th unit; the units sit in three separate runs. */
  function UnitOffset(i: nat): (p: nat)
    requires i < UNITS_PER_SLOT
    ensures p < 31
  {
    if i < 5 then 1 + 2 * i else if i < 11 then 14 + 2 * (i - 5) else 28 + 2 * (i - 11)
  }

  function UnitAt(s: Slot, i: nat): Unit
    requires i < UNITS_PER_SLOT
  {
    LittleEndian(s[UnitOffset(i)], s[UnitOffset(i) + 1])
  }

  function NameUnits(s: Slot): (us: seq<Unit>)
    ensures |us| == UNITS_PER_SLOT
  {
    seq(UNITS_PER_SLOT, i requires 0 <= i < UNITS_PER_SLOT => UnitAt(s, i))
  }

  /** One chunk of a name, NUL-terminated and 0xFFFF-padded to a full slot. */
  function Padded(units: seq<Unit>): (us: seq<Unit>)
    ensures |us| == UNITS_PER_SLOT
  {
    seq(UNITS_PER_SLOT, i requires 0 <= i < UNITS_PER_SLOT =>
      if i < |units| then units[i] else if i == |units| then 0x0000 else 0xFFFF)
  }

  function Order(sequence: Byte, last: bool): (o: Byte)
    ensures o % 0x40 == sequence % 0x40
    ensures last ==> (o / 0x40) % 2 == 1
    ensures !last ==> o == sequence
  {
    if last && (sequence / 0x40) % 2 == 0 then sequence + 0x40 else sequence
  }

  /** The slot `s` is what storing one chunk of a long name must produce. */
  ghost predicate IsLongEntry(s: Slot, sequence: Byte, last: bool, checksum: Byte, units: seq<Unit>) {
    && s[0] == Order(sequence, last)
    && s[11] == 0x0F && s[12] == 0 && s[26] == 0 && s[27] == 0
    && StoredChecksum(s) == checksum
    && NameUnits(s) == Padded(units)
  }

  method PadUnits(units: seq<Unit>) returns (us: seq<Unit>)
    ensures us == Padded(units)
  {
    var padded := new Unit[UNITS_PER_SLOT](_ => 0xFFFF);
    for index := 0 to Min(|units|, UNITS_PER_SLOT)
      invariant forall i :: 0 <= i < index ==> padded[i] == units[i]
      invariant forall i :: index <= i < UNITS_PER_SLOT ==> padded[i] == 0xFFFF
    {
      padded[index] := units[index];
    }
    if |units| < UNITS_PER_SLOT {
      padded[|units|] := 0x0000;
    }
    us := padded[..];
  }

  /** Spreads 13 units over the three byte runs of a blank slot. */
  method PackUnits(units: seq<Unit>) returns (s: Slot)
    requires |units| == UNITS_PER_SLOT
    ensures NameUnits(s) == units
    ensures s[26] == 0 && s[27] == 0
  {
    var b := new Byte[SLOT_SIZE](_ => 0);
    var index := 0;
    while index < UNITS_PER_SLOT
      invariant 0 <= index <= UNITS_PER_SLOT
      invariant forall i :: 0 <= i < index ==> LittleEndian(b[UnitOffset(i)], b[UnitOffset(i) + 1]) == units[i]
      invariant b[26] == 0 && b[27] == 0
    {
      var p := UnitOffset(index);
      b[p], b[p + 1] := units[index] % 0x100, units[index] / 0x100;
      assert LittleEndian(b[p], b[p + 1]) == units[index];
      index := index + 1;
    }
    s := b[..];
  }

  /** Builds a long-filename slot from at most 13 units of the name. */
  method NewLongEntry(sequence: Byte, last: bool, checksum: Byte, units: seq<Unit>) returns (s: Slot)
    ensures IsLongEntry(s, sequence, last, checksum, units)
  {
    hide Padded;
    var padded := PadUnits(units);
    var packed := PackUnits(padded);
    s := packed[0 := Order(sequence, last)][11 := 0x0F][12 := 0][13 := checksum];
    UnitsIgnoreHeader(packed, s);
  }

  lemma UnitsIgnoreHeader(s: Slot, r: Slot)
    requires forall p :: 0 <= p < SLOT_SIZE && p !in {0, 11, 12, 13, 26, 27} ==> s[p] == r[p]
    ensures NameUnits(s) == NameUnits(r)
  {
    forall i | 0 <= i < UNITS_PER_SLOT ensures UnitAt(s, i) == UnitAt(r, i) {
      var p := UnitOffset(i);
      assert s[p] == r[p] && s[p + 1] == r[p + 1];
    }
  }

  /** One byte of the checksum: the sum rotated right by one bit, plus the byte. */
  function ChecksumStep(sum: Byte, b: Byte): Byte { (sum / 2 + 0x80 * (sum % 2) + b) % 0x100 }

  /** The short-name checksum carried by every slot of a long name. */
  function ChecksumFrom(sum: Byte, bytes: seq<Byte>): Byte
    decreases |bytes|
  {
    if bytes == [] then sum
    else ChecksumFrom(ChecksumStep(sum, bytes[0]), bytes[1..])
  }

  function Checksum(name: ShortName): Byte {
    ChecksumFrom(0, name)
  }
}
