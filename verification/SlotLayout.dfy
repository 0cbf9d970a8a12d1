/**
  Slots as the FAT format describes them, bit by bit and byte by byte: an
  independent reading against which the arithmetic of `Slots` is held.
 */
module SlotLayout {

  import opened Base
  import opened Slots

  // ------------------------------------------------------------------ the checksum

  /** The checksum as published: rotate the sum so far right by one, add the next byte, in eight bits. */
  ghost function PublishedChecksum(name: seq<bv8>): bv8 {
    if name == [] then 0 else PublishedChecksum(name[..|name| - 1]).RotateRight(1) + name[|name| - 1]
  }

  ghost function ToBits(n: Byte): bv8 { n as bv8 }

  ghost function FromBits(x: bv8): Byte { x as int }

  ghost function Bits(b: seq<Byte>): (r: seq<bv8>)
    ensures |r| == |b| && forall i :: 0 <= i < |b| ==> r[i] == ToBits(b[i])
  {
    seq(|b|, i requires 0 <= i < |b| => ToBits(b[i]))
  }

  lemma SameBits(x: bv8)
    ensures ToBits(FromBits(x)) == x
  {
  }

  lemma RotateIsHalving(x: bv8)
    ensures FromBits(x.RotateRight(1)) == FromBits(x) / 2 + 0x80 * (FromBits(x) % 2)
  {
  }

  lemma AddOne(x: bv8)
    ensures FromBits(x + 1) == Wrapped(FromBits(x) + 1)
  {
  }

  lemma LessOne(y: bv8)
    requires y != 0
    ensures FromBits(y - 1) == FromBits(y) - 1
  {
  }

  lemma NoBits()
    ensures FromBits(0) == 0 && ToBits(0) == 0
  {
  }

  lemma {:induction false} BitsExist(n: Byte) returns (x: bv8)
    ensures FromBits(x) == n
  {
    hide FromBits;
    NoBits();
    x := 0;
    if n > 0 {
      x := BitsExist(n - 1);
      AddOne(x);
      x := x + 1;
    }
  }

  lemma BitsRoundTrip(n: Byte)
    ensures FromBits(ToBits(n)) == n
  {
    hide FromBits, ToBits;
    var x := BitsExist(n);
    SameBits(x);
  }

  ghost function Wrapped(n: nat): Byte { n % 0x100 }

  lemma WrapsOnce(a: Byte, b: Byte)
    ensures b > 0 ==> Wrapped(Wrapped(a + (b - 1)) + 1) == Wrapped(a + b)
    ensures Wrapped(a) == a
  {
  }

  lemma Reassociate(x: bv8, y: bv8)
    ensures x + (y - 1) + 1 == x + y && x + 0 == x
  {
  }

  /** Eight-bit addition wraps at 256. */
  lemma {:induction false} AddWraps(x: bv8, y: bv8)
    ensures FromBits(x + y) == Wrapped(FromBits(x) + FromBits(y))
    decreases FromBits(y)
  {
    hide FromBits, Wrapped;
    Reassociate(x, y);
    NoBits();
    WrapsOnce(FromBits(x), FromBits(y));
    if y != 0 {
      LessOne(y);
      AddWraps(x, y - 1);
      AddOne(x + (y - 1));
    }
  }

  lemma {:induction false} ChecksumSnoc(sum: Byte, bytes: seq<Byte>, b: Byte)
    ensures ChecksumFrom(sum, bytes + [b]) == ChecksumStep(ChecksumFrom(sum, bytes), b)
    decreases |bytes|
  {
    hide ChecksumStep;
    if bytes == [] {
      assert (bytes + [b])[1..] == [];
    } else {
      assert (bytes + [b])[1..] == bytes[1..] + [b];
      ChecksumSnoc(ChecksumStep(sum, bytes[0]), bytes[1..], b);
    }
  }

  lemma StepIsPublished(sum: Byte, b: Byte)
    ensures ToBits(ChecksumStep(sum, b)) == ToBits(sum).RotateRight(1) + ToBits(b)
  {
    hide ToBits, FromBits;
    var x, y := ToBits(sum), ToBits(b);
    RotateIsHalving(x);
    AddWraps(x.RotateRight(1), y);
    BitsRoundTrip(sum);
    BitsRoundTrip(b);
    SameBits(x.RotateRight(1) + y);
  }

  /** Every prefix of a name has its published checksum. */
  lemma {:induction false} ChecksumIsPublished(bytes: seq<Byte>)
    ensures ToBits(ChecksumFrom(0, bytes)) == PublishedChecksum(Bits(bytes))
  {
    hide ToBits, ChecksumStep;
    NoBits();
    if bytes != [] {
      var front, b := bytes[..|bytes| - 1], bytes[|bytes| - 1];
      ChecksumIsPublished(front);
      assert front + [b] == bytes;
      ChecksumSnoc(0, front, b);
      StepIsPublished(ChecksumFrom(0, front), b);
      assert Bits(bytes)[..|bytes| - 1] == Bits(front);
    }
  }

  ghost function Rotated(a: Byte): Byte { a / 2 + 0x80 * (a % 2) }

  lemma RotationUndone(a: Byte)
    ensures a == 2 * (Rotated(a) % 0x80) + Rotated(a) / 0x80
  {
  }

  lemma SumsDiffer(a: Byte, b: Byte, c: Byte)
    requires a != b
    ensures (a + c) % 0x100 != (b + c) % 0x100
  {
    assert (a + c) % 0x100 == if a + c < 0x100 then a + c else a + c - 0x100;
    assert (b + c) % 0x100 == if b + c < 0x100 then b + c else b + c - 0x100;
  }

  lemma StepInjective(a: Byte, b: Byte, c: Byte)
    requires a != b
    ensures ChecksumStep(a, c) != ChecksumStep(b, c)
    ensures ChecksumStep(c, a) != ChecksumStep(c, b)
  {
    RotationUndone(a);
    RotationUndone(b);
    SumsDiffer(Rotated(a), Rotated(b), c);
    SumsDiffer(a, b, Rotated(c));
  }

  lemma {:induction false} ChecksumTells(a: Byte, b: Byte, bytes: seq<Byte>)
    requires a != b
    ensures ChecksumFrom(a, bytes) != ChecksumFrom(b, bytes)
    decreases |bytes|
  {
    hide ChecksumStep;
    if bytes != [] {
      StepInjective(a, b, bytes[0]);
      ChecksumTells(ChecksumStep(a, bytes[0]), ChecksumStep(b, bytes[0]), bytes[1..]);
    }
  }

  lemma {:induction false} ChecksumSplit(sum: Byte, a: seq<Byte>, b: seq<Byte>)
    ensures ChecksumFrom(sum, a + b) == ChecksumFrom(ChecksumFrom(sum, a), b)
    decreases |a|
  {
    hide ChecksumStep;
    if a == [] {
      assert a + b == b;
    } else {
      assert (a + b)[1..] == a[1..] + b;
      ChecksumSplit(ChecksumStep(sum, a[0]), a[1..], b);
    }
  }

  /** A change of any single byte of a name is noticed. */
  lemma OneByteIsNoticed(name: ShortName, i: nat, b: Byte)
    requires i < 11 && b != name[i]
    ensures Checksum(name[i := b]) != Checksum(name)
  {
    hide ChecksumStep;
    var front, rest := name[..i], name[i + 1..];
    assert name == front + [name[i]] + rest && name[i := b] == front + [b] + rest;
    ChecksumSplit(0, front + [name[i]], rest);
    ChecksumSplit(0, front + [b], rest);
    ChecksumSnoc(0, front, name[i]);
    ChecksumSnoc(0, front, b);
    StepInjective(name[i], b, ChecksumFrom(0, front));
    ChecksumTells(ChecksumFrom(0, front + [name[i]]), ChecksumFrom(0, front + [b]), rest);
  }

  // ------------------------------------------------------------- flags and numbering

  lemma MaskedBits(x: bv8)
    ensures FromBits(x & 0x3F) == FromBits(x) % 0x40
  {
  }

  lemma LastBit(x: bv8)
    ensures x & 0x40 != 0 <==> (FromBits(x) / 0x40) % 2 == 1
  {
  }

  lemma LabelBit(x: bv8)
    ensures x & 0x08 != 0 <==> (FromBits(x) / 0x08) % 2 == 1
  {
  }

  lemma DirectoryBit(x: bv8)
    ensures x & 0x10 != 0 <==> (FromBits(x) / 0x10) % 2 == 1
  {
  }

  lemma LongBits(x: bv8)
    ensures x & 0x3F == 0x0F <==> FromBits(x) % 0x40 == 0x0F
  {
  }

  /** The kinds of entries are told apart by attribute bits. */
  lemma KindsByBits(s: Slot)
    ensures var a := ToBits(s[11]);
            && (IsLong(s) <==> a & 0x3F == 0x0F)
            && (IsVolumeLabel(s) <==> a & 0x08 != 0)
            && (IsDirectory(s) <==> IsNormal(s) && a & 0x10 != 0)
  {
    hide ToBits, FromBits;
    BitsRoundTrip(s[11]);
    LabelBit(ToBits(s[11]));
    DirectoryBit(ToBits(s[11]));
    LongBits(ToBits(s[11]));
  }

  /** A long-name slot's number is the low six bits of its first byte, the last-slot flag the seventh. */
  lemma OrderByBits(s: Slot)
    ensures Sequence(s) == FromBits(ToBits(s[0]) & 0x3F)
    ensures IsLast(s) <==> ToBits(s[0]) & 0x40 != 0
  {
    hide ToBits, FromBits;
    BitsRoundTrip(s[0]);
    MaskedBits(ToBits(s[0]));
    LastBit(ToBits(s[0]));
  }

  lemma OrBit(x: bv8)
    ensures FromBits(x | 0x40) == if (FromBits(x) / 0x40) % 2 == 0 then FromBits(x) + 0x40 else FromBits(x)
  {
  }

  /** The first byte of a long-name slot is its number with the last-slot flag set in. */
  lemma OrderIsOr(sequence: Byte, last: bool)
    ensures Order(sequence, last) == FromBits(if last then ToBits(sequence) | 0x40 else ToBits(sequence))
  {
    hide ToBits, FromBits;
    BitsRoundTrip(sequence);
    OrBit(ToBits(sequence));
  }

  // -------------------------------------------------------------------- fields in order

  /** The `k` low bytes of a number, lowest first. */
  ghost function LowBytes(n: nat, k: nat): (b: seq<Byte>)
    ensures |b| == k
  {
    if k == 0 then [] else [n % 0x100] + LowBytes(n / 0x100, k - 1)
  }

  ghost function Packed(units: seq<Unit>): (b: seq<Byte>)
    ensures |b| == 2 * |units|
  {
    if units == [] then [] else LowBytes(units[0], 2) + Packed(units[1..])
  }

  /** The fields of a short entry in the order the format stores them. */
  ghost function ShortFields(name: ShortName, attributes: Byte, made: seq<Byte>, cluster: nat, changed: seq<Byte>,
                             size: nat): seq<Byte> {
    name + [attributes] + made + LowBytes(cluster / 0x1_0000, 2) + changed + LowBytes(cluster, 2) + LowBytes(size, 4)
  }

  lemma {:induction false} LowBytesOf(b: seq<Byte>, k: nat)
    requires k <= |b|
    ensures LowBytes(Number(b), k) == b[..k]
  {
    if k > 0 {
      LowBytesOf(b[1..], k - 1);
      assert Number(b) == b[0] + 0x100 * Number(b[1..]);
      assert b[..k] == [b[0]] + b[1..][..k - 1];
    }
  }

  lemma HighBytes(a: Byte, b: Byte, c: Byte, d: Byte)
    ensures Number([a, b, c, d]) / 0x1_0000 == Number([c, d])
  {
    NumberOfFour([a, b, c, d]);
    assert Number([c, d]) == LittleEndian(c, d) by {
      assert [c, d][1..] == [d] && [d][1..] == [];
    }
  }

  /** Every entry is its fields side by side: the halves of the first cluster lie at 20 and 26, the size at 28. */
  lemma EntryIsItsFields(s: Slot)
    ensures s == ShortFields(Name(s), Attributes(s), s[12..20], Cluster(s), s[22..26], Size(s))
  {
    hide LowBytes;
    var low, high, size := [s[26], s[27]], [s[20], s[21]], [s[28], s[29], s[30], s[31]];
    LowBytesOf(low + high, 2);
    assert low + high == [s[26], s[27], s[20], s[21]];
    assert (low + high)[..2] == low;
    HighBytes(s[26], s[27], s[20], s[21]);
    LowBytesOf(high, 2);
    LowBytesOf(size, 4);
    assert high[..2] == high && size[..4] == size;
    assert s == s[..11] + [s[11]] + s[12..20] + high + s[22..26] + low + size;
  }

  lemma TwoBytes(a: Byte, b: Byte)
    ensures LowBytes(LittleEndian(a, b), 2) == [a, b]
  {
    assert LowBytes(b, 1) == [b % 0x100] + LowBytes(b / 0x100, 0);
    assert LittleEndian(a, b) / 0x100 == b && LittleEndian(a, b) % 0x100 == a;
  }

  lemma {:induction false} PackedSplit(units: seq<Unit>, i: nat)
    requires i < |units|
    ensures 2 * i + 2 <= |Packed(units)| && Packed(units)[2 * i..2 * i + 2] == LowBytes(units[i], 2)
  {
    hide LowBytes;
    if i > 0 {
      PackedSplit(units[1..], i - 1);
      assert Packed(units)[2 * i..2 * i + 2] == Packed(units[1..])[2 * (i - 1)..2 * (i - 1) + 2];
    }
  }

  /** The units of a long-name slot are its three name fields read in order, low byte first. */
  lemma UnitsInOrder(s: Slot)
    ensures Packed(NameUnits(s)) == s[1..11] + s[14..26] + s[28..32]
  {
    hide Packed, LowBytes, LittleEndian;
    var p, q := Packed(NameUnits(s)), s[1..11] + s[14..26] + s[28..32];
    forall i | 0 <= i < UNITS_PER_SLOT ensures p[2 * i] == q[2 * i] && p[2 * i + 1] == q[2 * i + 1] {
      PackedSplit(NameUnits(s), i);
      TwoBytes(s[UnitOffset(i)], s[UnitOffset(i) + 1]);
      assert p[2 * i..2 * i + 2] == [s[UnitOffset(i)], s[UnitOffset(i) + 1]];
      assert p[2 * i] == p[2 * i..2 * i + 2][0] && p[2 * i + 1] == p[2 * i..2 * i + 2][1];
    }
    forall k | 0 <= k < 26 ensures p[k] == q[k] {
      assert k == 2 * (k / 2) || k == 2 * (k / 2) + 1;
    }
  }
}
