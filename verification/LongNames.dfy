/** Long file names: UTF-16 conversion, validity and 13-unit chunking. */
module LongNames {

  import opened Base
  import opened Slots

  const MAX_UNITS := 255

  // ------------------------------------------------------------------- UTF-16

  predicate IsHigh(u: Unit) { 0xD800 <= u < 0xDC00 }

  predicate IsLow(u: Unit) { 0xDC00 <= u < 0xE000 }

  function EncodeChar(c: char): (us: seq<Unit>)
    ensures 1 <= |us| <= 2
  {
    var n := c as int;
    if n < 0x1_0000 then [n]
    else [0xD800 + (n - 0x1_0000) / 0x400, 0xDC00 + (n - 0x1_0000) % 0x400]
  }

  function EncodeUtf16(s: string): seq<Unit> {
    if s == [] then [] else EncodeChar(s[0]) + EncodeUtf16(s[1..])
  }

  function Prepend(c: char, rest: Option<string>): Option<string> {
    match rest
    case None => None
    case Some(s) => Some([c] + s)
  }

  function PairChar(high: int, low: int): char
    requires 0xD800 <= high < 0xDC00 <= low < 0xE000
  {
    (0x1_0000 + 0x400 * (high - 0xD800) + (low - 0xDC00)) as char
  }

  function DecodeUtf16(us: seq<Unit>): Option<string>
    decreases |us|
  {
    if us == [] then Some([])
    else if !IsHigh(us[0]) && !IsLow(us[0]) then
      Prepend(us[0] as char, DecodeUtf16(us[1..]))
    else if IsHigh(us[0]) && |us| >= 2 && IsLow(us[1]) then
      Prepend(PairChar(us[0], us[1]), DecodeUtf16(us[2..]))
    else None
  }

  lemma {:induction false} Utf16RoundTrip(s: string)
    ensures DecodeUtf16(EncodeUtf16(s)) == Some(s)
  {
    if s != [] {
      Utf16RoundTrip(s[1..]);
      var head, rest := EncodeChar(s[0]), EncodeUtf16(s[1..]);
      var us := head + rest;
      assert us[|head|..] == rest;
      assert s == [s[0]] + s[1..];
    }
  }

  /** What Unicode says: one unit for itself, or a surrogate pair of ten bits each above 0x10000. */
  ghost predicate StandsFor(us: seq<Unit>, c: char) {
    || (|us| == 1 && us[0] == c as int)
    || (|us| == 2 && IsHigh(us[0]) && IsLow(us[1])
        && (c as int) - 0x1_0000 == (us[0] as int - 0xD800) * 0x400 + (us[1] as int - 0xDC00))
  }

  /** Each further character adds the units that stand for it. */
  lemma {:induction false} Utf16Grows(s: string, c: char)
    ensures EncodeUtf16(s) <= EncodeUtf16(s + [c]) && StandsFor(EncodeUtf16(s + [c])[|EncodeUtf16(s)|..], c)
  {
    if s == [] {
      assert s + [c] == [c] && [c][1..] == [];
      assert EncodeUtf16(s + [c]) == EncodeChar(c);
    } else {
      assert (s + [c])[1..] == s[1..] + [c];
      Utf16Grows(s[1..], c);
      var head, more := EncodeChar(s[0]), EncodeUtf16(s[1..] + [c]);
      assert EncodeUtf16(s + [c])[|EncodeUtf16(s)|..] == more[|EncodeUtf16(s[1..])|..];
    }
  }

  /** Decoding loses nothing: only one unit sequence stands for each name. */
  lemma {:induction false} Utf16Unique(us: seq<Unit>)
    ensures DecodeUtf16(us).Some? ==> EncodeUtf16(DecodeUtf16(us).value) == us
    decreases |us|
  {
    if us != [] && DecodeUtf16(us).Some? {
      var s := DecodeUtf16(us).value;
      if !IsHigh(us[0]) && !IsLow(us[0]) {
        Utf16Unique(us[1..]);
        assert s[1..] == DecodeUtf16(us[1..]).value;
        assert us == [us[0]] + us[1..];
      } else {
        Utf16Unique(us[2..]);
        assert s[1..] == DecodeUtf16(us[2..]).value;
        assert us == [us[0], us[1]] + us[2..];
      }
    }
  }

  // ------------------------------------------------------------ name validity

  predicate IsInvalidChar(c: char) {
    c as int < 0x20 || c in {'\"', '*', '/', ':', '<', '>', '?', '\\', '|'}
  }

  predicate IsLongName(name: string) {
    && name != ""
    && name != "." && name != ".."
    && name[|name| - 1] != ' ' && name[|name| - 1] != '.'
    && forall i :: 0 <= i < |name| ==> !IsInvalidChar(name[i])
  }

  function EncodeLongName(name: string): Option<seq<Unit>> {
    if !IsLongName(name) then None
    else
      var units := EncodeUtf16(name);
      if |units| > MAX_UNITS then None else Some(units)
  }

  /** Position of the NUL terminator, or the length when there is none. */
  function Terminator(us: seq<Unit>): (n: nat)
    ensures n <= |us|
    ensures forall i :: 0 <= i < n ==> us[i] != 0
    ensures n < |us| ==> us[n] == 0
  {
    if us == [] || us[0] == 0 then 0 else 1 + Terminator(us[1..])
  }

  function DecodeLongName(us: seq<Unit>): Option<string> {
    match DecodeUtf16(us[..Terminator(us)])
    case None => None
    case Some(s) => if s == "" then None else Some(s)
  }

  lemma {:induction false} EncodedHasNoNul(s: string)
    requires forall i :: 0 <= i < |s| ==> !IsInvalidChar(s[i])
    ensures forall i :: 0 <= i < |EncodeUtf16(s)| ==> EncodeUtf16(s)[i] != 0
    ensures |s| <= |EncodeUtf16(s)|
  {
    if s != [] {
      EncodedHasNoNul(s[1..]);
      assert !IsInvalidChar(s[0]);
    }
  }

  // ----------------------------------------------------------------- chunking

  /** The fewest slots that hold `n` units. */
  function ChunkCount(n: nat): (k: nat)
    ensures UNITS_PER_SLOT * k >= n && (k > 0 ==> UNITS_PER_SLOT * (k - 1) < n)
  {
    (n + UNITS_PER_SLOT - 1) / UNITS_PER_SLOT
  }

  function Chunk(units: seq<Unit>, i: nat): (c: seq<Unit>)
    requires i < ChunkCount(|units|)
  {
    units[UNITS_PER_SLOT * i..Min(UNITS_PER_SLOT * i + UNITS_PER_SLOT, |units|)]
  }

  /** The units of the first `k` chunks as the slots hold them. */
  ghost function Stored(units: seq<Unit>, k: nat): (us: seq<Unit>)
    requires k <= ChunkCount(|units|)
  {
    if k == 0 then [] else Stored(units, k - 1) + Padded(Chunk(units, k - 1))
  }

  ghost function StoredUnit(units: seq<Unit>, i: nat): Unit {
    if i < |units| then units[i] else if i == |units| then 0x0000 else 0xFFFF
  }

  lemma {:induction false} StoredShape(units: seq<Unit>, k: nat)
    requires k <= ChunkCount(|units|)
    ensures |Stored(units, k)| == UNITS_PER_SLOT * k
    ensures forall i :: 0 <= i < UNITS_PER_SLOT * k ==> Stored(units, k)[i] == StoredUnit(units, i)
  {
    if k > 0 {
      StoredShape(units, k - 1);
      var before, last := Stored(units, k - 1), Padded(Chunk(units, k - 1));
      forall i | 0 <= i < UNITS_PER_SLOT * k ensures (before + last)[i] == StoredUnit(units, i) {
        if i >= UNITS_PER_SLOT * (k - 1) {
          assert (before + last)[i] == last[i - UNITS_PER_SLOT * (k - 1)];
        }
      }
    }
  }

  /**
    Storing a valid long name in chunks and decoding the joined units gives
    the name back, also when its length is a multiple of 13 and no
    terminator is stored.
   */
  lemma StoredRoundTrip(name: string)
    requires EncodeLongName(name).Some?
    ensures var units := EncodeLongName(name).value;
            var k := ChunkCount(|units|);
            && 1 <= k <= MAX_LONG_SLOTS
            && DecodeLongName(Stored(units, k)) == Some(name)
  {
    var units := EncodeLongName(name).value;
    var k := ChunkCount(|units|);
    EncodedHasNoNul(name);
    StoredShape(units, k);
    var us := Stored(units, k);
    assert |units| < |us| ==> us[|units|] == StoredUnit(units, |units|);
    assert Terminator(us) == |units|;
    assert us[..|units|] == units;
    Utf16RoundTrip(name);
  }
}
