/** The argument frame the kernel leaves on a new stack, and its reader in user space. */
module ArgsFrame {

  import opened Base

  const WORD := 8

  // --------------------------------------------------------------------------- words

  /** The `k` low bytes of `n`, lowest first. */
  function BytesOf(n: nat, k: nat): (b: seq<Byte>)
    ensures |b| == k
  {
    if k == 0 then [] else [n % 256] + BytesOf(n / 256, k - 1)
  }

  function ValueOf(b: seq<Byte>): nat {
    if b == [] then 0 else b[0] + 256 * ValueOf(b[1..])
  }

  function Limit(k: nat): (n: nat)
    ensures n > 0
  {
    if k == 0 then 1 else 256 * Limit(k - 1)
  }

  lemma {:induction false} BytesRoundTrip(n: nat, k: nat)
    requires n < Limit(k)
    ensures ValueOf(BytesOf(n, k)) == n
  {
    if k > 0 {
      BytesRoundTrip(n / 256, k - 1);
    }
  }

  /** Little-endian: byte `i` is digit `i` of the number in base 256. */
  lemma {:induction false} LowestFirst(n: nat, k: nat, i: nat)
    requires i < k
    ensures BytesOf(n, k)[i] == (n / Limit(i)) % 256
    decreases i
  {
    if i > 0 {
      LowestFirst(n / 256, k - 1, i - 1);
      DivideTwice(n, Limit(i - 1));
    }
  }

  lemma DivideTwice(n: nat, m: nat)
    requires m > 0
    ensures (n / 256) / m == n / (256 * m)
  {
    var a, q := n / 256, (n / 256) / m;
    assert n == 256 * a + n % 256 && a == m * q + a % m;
    var rest := 256 * (a % m) + n % 256;
    assert n == 256 * (m * q) + rest && 256 * (m * q) == (256 * m) * q;
    assert 0 <= rest < 256 * m;
    QuotientIs(n, 256 * m, q, rest);
  }

  lemma QuotientIs(n: nat, d: nat, q: nat, r: nat)
    requires d > 0 && n == d * q + r && r < d
    ensures n / d == q
  {
    var e := n / d - q;
    assert d * (n / d) + n % d == n;
    assert d * e == r - n % d;
  }

  lemma WordLimit()
    ensures Limit(WORD) == 0x1_0000_0000_0000_0000
  {
    assert Limit(4) == 0x1_0000_0000;
    assert Limit(8) == 256 * (256 * (256 * (256 * Limit(4))));
  }

  function WordBytes(n: nat): (b: seq<Byte>)
    ensures |b| == WORD
  {
    BytesOf(n, WORD)
  }

  // -------------------------------------------------------------------------- memory

  ghost predicate HasBytes(m: seq<Byte>, at: nat, b: seq<Byte>) {
    at + |b| <= |m| && m[at..at + |b|] == b
  }

  lemma SpliceHere(m: seq<Byte>, at: nat, b: seq<Byte>)
    requires at + |b| <= |m|
    ensures HasBytes(Splice(m, at, b), at, b)
  {
  }

  /** Bytes outside the written range stay. */
  lemma SpliceElsewhere(m: seq<Byte>, at: nat, b: seq<Byte>, there: nat, c: seq<Byte>)
    requires at + |b| <= |m| && HasBytes(m, there, c) && (there + |c| <= at || at + |b| <= there)
    ensures HasBytes(Splice(m, at, b), there, c)
  {
    var r := Splice(m, at, b);
    forall i | 0 <= i < |c| ensures r[there + i] == c[i] {
      assert m[there..there + |c|][i] == c[i];
    }
    assert r[there..there + |c|] == c;
  }

  method WriteBytes(mem: array<Byte>, at: nat, b: seq<Byte>)
    requires at + |b| <= mem.Length
    modifies mem
    ensures mem[..] == Splice(old(mem[..]), at, b)
  {
    for i := 0 to |b|
      invariant forall k :: 0 <= k < mem.Length ==> mem[k] == if at <= k < at + i then b[k - at] else old(mem[k])
    {
      mem[at + i] := b[i];
    }
    ghost var r := Splice(old(mem[..]), at, b);
    assert forall k :: 0 <= k < mem.Length ==> mem[k] == r[k];
  }

  // ------------------------------------------------------------------------ the layout

  /** Where string `i` starts behind the first one; every string has a NUL. */
  ghost function Offset(argv: seq<seq<Byte>>, i: nat): nat
    requires i <= |argv|
  {
    if i == 0 then 0 else Offset(argv, i - 1) + |argv[i - 1]| + 1
  }

  lemma {:induction false} OffsetMonotone(argv: seq<seq<Byte>>, i: nat, j: nat)
    requires i < j <= |argv|
    ensures Offset(argv, i) + |argv[i]| + 1 <= Offset(argv, j)
  {
    if i + 1 < j {
      OffsetMonotone(argv, i, j - 1);
    }
  }

  /** Argument `i`: its pointer in the frame at `f` and its string behind `s`. */
  ghost predicate ArgAt(m: seq<Byte>, bottom: nat, f: nat, s: nat, argv: seq<seq<Byte>>, i: nat)
    requires i < |argv|
  {
    && HasBytes(m, f + WORD + WORD * i, WordBytes(bottom + s + Offset(argv, i)))
    && HasBytes(m, s + Offset(argv, i), argv[i] + [0])
  }

  /** The first `n` arguments and the argument count are in place. */
  ghost predicate Written(m: seq<Byte>, bottom: nat, f: nat, s: nat, argv: seq<seq<Byte>>, n: nat) {
    && n <= |argv| && HasBytes(m, f, WordBytes(|argv|))
    && forall i :: 0 <= i < n ==> ArgAt(m, bottom, f, s, argv, i)
  }

  /** The whole frame: aligned, inside the stack, strings above the pointers up to the top. */
  ghost predicate IsFrame(m: seq<Byte>, bottom: nat, rsp: nat, argv: seq<seq<Byte>>) {
    && bottom <= rsp && rsp % 16 == 0
    && var f, s := rsp - bottom, |m| - Offset(argv, |argv|);
    && f + WORD * (|argv| + 3) <= s
    && Written(m, bottom, f, s, argv, |argv|)
    && HasBytes(m, f + WORD * (|argv| + 1), WordBytes(0)) && HasBytes(m, f + WORD * (|argv| + 2), WordBytes(0))
  }

  lemma ArgStays(m: seq<Byte>, bottom: nat, f: nat, s: nat, argv: seq<seq<Byte>>, i: nat, at: nat, b: seq<Byte>)
    requires i < |argv| && ArgAt(m, bottom, f, s, argv, i) && at + |b| <= |m|
    requires at + |b| <= f + WORD + WORD * i || f + WORD + WORD * i + WORD <= at
    requires at + |b| <= s + Offset(argv, i) || s + Offset(argv, i) + |argv[i]| + 1 <= at
    ensures ArgAt(Splice(m, at, b), bottom, f, s, argv, i)
  {
    hide HasBytes, Splice, WordBytes, Offset;
    SpliceElsewhere(m, at, b, f + WORD + WORD * i, WordBytes(bottom + s + Offset(argv, i)));
    SpliceElsewhere(m, at, b, s + Offset(argv, i), argv[i] + [0]);
  }

  /** Writing a frame word behind the first `n` pointers, below the strings. */
  lemma WordStored(m: seq<Byte>, bottom: nat, f: nat, s: nat, argv: seq<seq<Byte>>, n: nat, k: nat, w: nat)
    requires Written(m, bottom, f, s, argv, n) && n <= k && s <= |m| && f + WORD + WORD * k + WORD <= s
    ensures Written(Splice(m, f + WORD + WORD * k, WordBytes(w)), bottom, f, s, argv, n)
  {
    hide ArgAt, HasBytes, Splice, WordBytes, Offset;
    var at := f + WORD + WORD * k;
    SpliceElsewhere(m, at, WordBytes(w), f, WordBytes(|argv|));
    forall i | 0 <= i < n ensures ArgAt(Splice(m, at, WordBytes(w)), bottom, f, s, argv, i) {
      ArgStays(m, bottom, f, s, argv, i, at, WordBytes(w));
    }
  }

  /** Writing inside the place of string `n` spares the first `n` arguments. */
  lemma StringStored(m: seq<Byte>, bottom: nat, f: nat, s: nat, argv: seq<seq<Byte>>, n: nat, at: nat, b: seq<Byte>)
    requires Written(m, bottom, f, s, argv, n) && n < |argv| && f + WORD * (|argv| + 3) <= s && at + |b| <= |m|
    requires s + Offset(argv, n) <= at
    ensures Written(Splice(m, at, b), bottom, f, s, argv, n)
  {
    hide ArgAt, HasBytes, Splice, WordBytes, Offset;
    SpliceElsewhere(m, at, b, f, WordBytes(|argv|));
    forall i | 0 <= i < n ensures ArgAt(Splice(m, at, b), bottom, f, s, argv, i) {
      OffsetMonotone(argv, i, n);
      ArgStays(m, bottom, f, s, argv, i, at, b);
    }
  }

  // ------------------------------------------------------------------------- the writer

  function RoundDown16(n: nat): (r: nat)
    ensures r % 16 == 0 && r <= n < r + 16
  {
    n - n % 16
  }

  /** The frame fits between the strings and the bottom of the stack. */
  ghost predicate FrameFits(bottom: nat, top: nat, argv: seq<seq<Byte>>) {
    var need := Offset(argv, |argv|) + WORD * (|argv| + 3);
    need <= top && bottom <= RoundDown16(top - need)
  }

  method StringBytes(argv: seq<seq<Byte>>) returns (n: nat)
    ensures n == Offset(argv, |argv|)
  {
    n := 0;
    for i := 0 to |argv|
      invariant n == Offset(argv, i)
    {
      n := n + |argv[i]| + 1;
    }
  }

  /** Stores the count, the pointers, the strings and the two terminators. */
  method StoreFrame(mem: array<Byte>, bottom: nat, frameBase: nat, stringsBase: nat, argv: seq<seq<Byte>>)
    requires bottom <= frameBase && frameBase % 16 == 0 && frameBase + WORD * (|argv| + 3) <= stringsBase
    requires stringsBase + Offset(argv, |argv|) == bottom + mem.Length
    modifies mem
    ensures IsFrame(mem[..], bottom, frameBase, argv)
  {
    hide ArgAt, HasBytes, Splice, WordBytes, Written, IsFrame, Offset;
    ghost var f, s := frameBase - bottom, stringsBase - bottom;
    WriteBytes(mem, frameBase - bottom, WordBytes(|argv|));
    CountStored(old(mem[..]), bottom, f, s, argv);
    NoOffset(argv);
    var stringAddr := stringsBase;
    for i := 0 to |argv|
      invariant stringAddr == bottom + s + Offset(argv, i)
      invariant Written(mem[..], bottom, f, s, argv, i)
    {
      StringInside(argv, i);
      ghost var m0 := mem[..];
      WriteBytes(mem, frameBase - bottom + WORD + WORD * i, WordBytes(stringAddr));
      ghost var m1 := mem[..];
      WriteBytes(mem, stringAddr - bottom, argv[i]);
      ghost var m2 := mem[..];
      WriteBytes(mem, stringAddr - bottom + |argv[i]|, [0]);
      ArgStored(m0, m1, m2, mem[..], bottom, f, s, argv, i);
      NextOffset(argv, i);
      stringAddr := stringAddr + |argv[i]| + 1;
    }
    ghost var m0 := mem[..];
    WriteBytes(mem, frameBase - bottom + WORD * (|argv| + 1), WordBytes(0));
    ghost var m1 := mem[..];
    WriteBytes(mem, frameBase - bottom + WORD * (|argv| + 2), WordBytes(0));
    NullsStored(m0, m1, mem[..], bottom, f, s, argv);
  }

  lemma NoOffset(argv: seq<seq<Byte>>)
    ensures Offset(argv, 0) == 0
  {
  }

  lemma NextOffset(argv: seq<seq<Byte>>, i: nat)
    requires i < |argv|
    ensures Offset(argv, i + 1) == Offset(argv, i) + |argv[i]| + 1
  {
  }

  /** Writes the frame into the stack memory `[bottom, top)`, if it fits. */
  method WriteArgsFrame(mem: array<Byte>, bottom: nat, top: nat, argv: seq<seq<Byte>>) returns (r: Option<nat>)
    requires bottom <= top && mem.Length == top - bottom
    modifies mem
    ensures r.Some? <==> FrameFits(bottom, top, argv)
    ensures r.Some? ==> IsFrame(mem[..], bottom, r.value, argv)
    ensures r.None? ==> mem[..] == old(mem[..])
  {
    hide IsFrame, Offset;
    var stringBytes := StringBytes(argv);
    if top < stringBytes {
      return None;
    }
    var stringsBase := top - stringBytes;
    var frameSize := (|argv| + 3) * WORD;
    if stringsBase < frameSize {
      return None;
    }
    var frameBase := RoundDown16(stringsBase - frameSize);
    if frameBase < bottom {
      return None;
    }
    StoreFrame(mem, bottom, frameBase, stringsBase, argv);
    return Some(frameBase);
  }

  lemma StringInside(argv: seq<seq<Byte>>, i: nat)
    requires i < |argv|
    ensures Offset(argv, i) + |argv[i]| + 1 <= Offset(argv, |argv|)
  {
    OffsetMonotone(argv, i, |argv|);
  }

  lemma CountStored(m: seq<Byte>, bottom: nat, f: nat, s: nat, argv: seq<seq<Byte>>)
    requires f + WORD <= |m|
    ensures Written(Splice(m, f, WordBytes(|argv|)), bottom, f, s, argv, 0)
  {
    hide HasBytes, Splice, WordBytes;
    SpliceHere(m, f, WordBytes(|argv|));
  }

  lemma ArgStored(m0: seq<Byte>, m1: seq<Byte>, m2: seq<Byte>, m3: seq<Byte>, bottom: nat, f: nat, s: nat,
                  argv: seq<seq<Byte>>, i: nat)
    requires Written(m0, bottom, f, s, argv, i) && i < |argv|
    requires f + WORD * (|argv| + 3) <= s && s + Offset(argv, |argv|) == |m0| && |m1| == |m0| && |m2| == |m0|
    requires s + Offset(argv, i) + |argv[i]| + 1 <= |m0|
    requires m1 == Splice(m0, f + WORD + WORD * i, WordBytes(bottom + s + Offset(argv, i)))
    requires m2 == Splice(m1, s + Offset(argv, i), argv[i])
    requires m3 == Splice(m2, s + Offset(argv, i) + |argv[i]|, [0])
    ensures Written(m3, bottom, f, s, argv, i + 1)
  {
    hide HasBytes, Splice, WordBytes, Offset, Written, ArgAt;
    WordStored(m0, bottom, f, s, argv, i, i, bottom + s + Offset(argv, i));
    StringStored(m1, bottom, f, s, argv, i, s + Offset(argv, i), argv[i]);
    StringStored(m2, bottom, f, s, argv, i, s + Offset(argv, i) + |argv[i]|, [0]);
    PointerStored(m0, m1, m2, f + WORD + WORD * i, WordBytes(bottom + s + Offset(argv, i)), s + Offset(argv, i),
      argv[i]);
    WrittenNext(m3, bottom, f, s, argv, i);
  }

  /** A pointer, a string above it and its NUL, stored one after the other. */
  lemma PointerStored(m0: seq<Byte>, m1: seq<Byte>, m2: seq<Byte>, p: nat, w: seq<Byte>, at: nat, text: seq<Byte>)
    requires p + |w| <= at && at + |text| + 1 <= |m0| && |m1| == |m0| && |m2| == |m0|
    requires m1 == Splice(m0, p, w) && m2 == Splice(m1, at, text)
    ensures var m3 := Splice(m2, at + |text|, [0]); HasBytes(m3, p, w) && HasBytes(m3, at, text + [0])
  {
    hide HasBytes, Splice;
    var m3 := Splice(m2, at + |text|, [0]);
    SpliceHere(m0, p, w);
    SpliceElsewhere(m1, at, text, p, w);
    SpliceElsewhere(m2, at + |text|, [0], p, w);
    SpliceHere(m1, at, text);
    SpliceElsewhere(m2, at + |text|, [0], at, text);
    SpliceHere(m2, at + |text|, [0]);
    Adjacent(m3, at, text, [0]);
  }

  lemma WrittenNext(m: seq<Byte>, bottom: nat, f: nat, s: nat, argv: seq<seq<Byte>>, n: nat)
    requires Written(m, bottom, f, s, argv, n) && n < |argv|
    requires HasBytes(m, f + WORD + WORD * n, WordBytes(bottom + s + Offset(argv, n)))
    requires HasBytes(m, s + Offset(argv, n), argv[n] + [0])
    ensures Written(m, bottom, f, s, argv, n + 1)
  {
    hide HasBytes, WordBytes, Offset;
  }

  lemma Adjacent(m: seq<Byte>, at: nat, a: seq<Byte>, b: seq<Byte>)
    requires HasBytes(m, at, a) && HasBytes(m, at + |a|, b)
    ensures HasBytes(m, at, a + b)
  {
    assert m[at..at + |a + b|] == m[at..at + |a|] + m[at + |a|..at + |a| + |b|];
  }

  lemma NullsStored(m0: seq<Byte>, m1: seq<Byte>, m2: seq<Byte>, bottom: nat, f: nat, s: nat, argv: seq<seq<Byte>>)
    requires Written(m0, bottom, f, s, argv, |argv|) && s + Offset(argv, |argv|) == |m0| && |m1| == |m0|
    requires f + WORD * (|argv| + 3) <= s && (bottom + f) % 16 == 0
    requires m1 == Splice(m0, f + WORD * (|argv| + 1), WordBytes(0))
    requires m2 == Splice(m1, f + WORD * (|argv| + 2), WordBytes(0))
    ensures IsFrame(m2, bottom, bottom + f, argv)
  {
    hide HasBytes, Splice, WordBytes, Written, Offset;
    WordStored(m0, bottom, f, s, argv, |argv|, |argv|, 0);
    WordStored(m1, bottom, f, s, argv, |argv|, |argv| + 1, 0);
    SpliceHere(m0, f + WORD * (|argv| + 1), WordBytes(0));
    SpliceElsewhere(m1, f + WORD * (|argv| + 2), WordBytes(0), f + WORD * (|argv| + 1), WordBytes(0));
    SpliceHere(m1, f + WORD * (|argv| + 2), WordBytes(0));
  }

  // ------------------------------------------------------------------------- the reader

  /** A string as the reader sees it: up to its first NUL. */
  function UpToNul(s: seq<Byte>): (r: seq<Byte>)
    ensures |r| <= |s| && r == s[..|r|] && 0 !in r && (|r| < |s| ==> s[|r|] == 0)
  {
    if s == [] || s[0] == 0 then [] else [s[0]] + UpToNul(s[1..])
  }

  /** Exactly the strings without a NUL are read back whole. */
  lemma UpToNulWhole(s: seq<Byte>)
    ensures UpToNul(s) == s <==> 0 !in s
  {
  }

  ghost function WordAt(m: seq<Byte>, at: nat): nat
    requires at + WORD <= |m|
  {
    ValueOf(m[at..at + WORD])
  }

  /** A stored word reads back. */
  lemma StoredWord(m: seq<Byte>, at: nat, n: nat)
    requires HasBytes(m, at, WordBytes(n)) && n < 0x1_0000_0000_0000_0000
    ensures at + WORD <= |m| && WordAt(m, at) == n
  {
    hide BytesOf, ValueOf, Limit;
    WordLimit();
    BytesRoundTrip(n, WORD);
  }

  lemma FrameCount(m: seq<Byte>, bottom: nat, rsp: nat, argv: seq<seq<Byte>>)
    requires IsFrame(m, bottom, rsp, argv) && bottom + |m| < 0x1_0000_0000_0000_0000
    ensures bottom <= rsp && rsp - bottom + WORD <= |m| && WordAt(m, rsp - bottom) == |argv|
  {
    hide ArgAt, WordBytes, HasBytes, Offset, WordAt;
    FewerThanBytes(argv);
    StoredWord(m, rsp - bottom, |argv|);
  }

  /** What a frame holds where the reader looks. */
  lemma FrameArg(m: seq<Byte>, bottom: nat, rsp: nat, argv: seq<seq<Byte>>, i: nat) returns (p: nat)
    requires IsFrame(m, bottom, rsp, argv) && bottom + |m| < 0x1_0000_0000_0000_0000 && i < |argv|
    ensures bottom <= rsp && rsp - bottom + WORD + WORD * i + WORD <= |m|
    ensures WordAt(m, rsp - bottom + WORD + WORD * i) == p
    ensures bottom < p && HasBytes(m, p - bottom, argv[i] + [0])
  {
    hide ArgAt, WordBytes, HasBytes, Offset, WordAt;
    var s := |m| - Offset(argv, |argv|);
    p := bottom + s + Offset(argv, i);
    StringInside(argv, i);
    ArgParts(m, bottom, rsp - bottom, s, argv, i);
    StoredWord(m, rsp - bottom + WORD + WORD * i, p);
  }

  lemma ArgParts(m: seq<Byte>, bottom: nat, f: nat, s: nat, argv: seq<seq<Byte>>, i: nat)
    requires i < |argv| && ArgAt(m, bottom, f, s, argv, i)
    ensures HasBytes(m, f + WORD + WORD * i, WordBytes(bottom + s + Offset(argv, i)))
    ensures HasBytes(m, s + Offset(argv, i), argv[i] + [0])
  {
  }

  lemma {:induction false} FewerThanBytes(argv: seq<seq<Byte>>)
    ensures |argv| <= Offset(argv, |argv|)
  {
    FewerThan(argv, |argv|);
  }

  lemma {:induction false} FewerThan(argv: seq<seq<Byte>>, i: nat)
    requires i <= |argv|
    ensures i <= Offset(argv, i)
  {
    if i > 0 {
      FewerThan(argv, i - 1);
    }
  }

  lemma StringByte(m: seq<Byte>, start: nat, s: seq<Byte>, k: nat)
    requires HasBytes(m, start, s + [0]) && k <= |s|
    ensures start + k < |m| && m[start + k] == if k < |s| then s[k] else 0
  {
    assert m[start..start + |s| + 1][k] == (s + [0])[k];
  }

  lemma {:induction false} NulStops(s: seq<Byte>, k: nat)
    requires k <= |UpToNul(s)| && k < |s| && s[k] != 0
    ensures k < |UpToNul(s)|
  {
  }

  lemma NulEnds(s: seq<Byte>, k: nat)
    requires k <= |UpToNul(s)| && (k < |s| ==> s[k] == 0)
    ensures s[..k] == UpToNul(s)
  {
    forall j | 0 <= j < |UpToNul(s)| ensures s[j] != 0 {
      assert UpToNul(s)[j] == s[j] && UpToNul(s)[j] in UpToNul(s);
    }
  }

  /** The arguments as a process sees them. */
  class Args {
    const bottom: nat
    const mem: array<Byte>
    const argc: nat
    const argv: nat
    var index: nat

    constructor (mem: array<Byte>, bottom: nat, argc: nat, argv: nat)
      ensures this.mem == mem && this.bottom == bottom && this.argc == argc && this.argv == argv && index == 0
    {
      this.mem, this.bottom, this.argc, this.argv := mem, bottom, argc, argv;
      index := 0;
    }

    /** The reader was set up from the frame at `rsp`. */
    ghost predicate Reads(rsp: nat, strings: seq<seq<Byte>>)
      reads mem
    {
      && bottom + mem.Length < 0x1_0000_0000_0000_0000
      && IsFrame(mem[..], bottom, rsp, strings)
      && argc == |strings| && argv == rsp + WORD
    }

    method Get(i: nat, ghost rsp: nat, ghost strings: seq<seq<Byte>>) returns (r: Option<seq<Byte>>)
      requires Reads(rsp, strings)
      ensures r == if i < |strings| then Some(UpToNul(strings[i])) else None
    {
      hide IsFrame, ValueOf, HasBytes;
      if i >= argc {
        return None;
      }
      ghost var p := FrameArg(mem[..], bottom, rsp, strings, i);
      var at := argv - bottom + WORD * i;
      assert mem[..][at..at + WORD] == mem[at..at + WORD];
      var pointer := ValueOf(mem[at..at + WORD]);
      if pointer == 0 {
        return None;
      }
      var text := ScanString(pointer - bottom, strings[i]);
      return Some(text);
    }

    /** The bytes from `start` up to the next NUL. */
    method ScanString(start: nat, ghost s: seq<Byte>) returns (text: seq<Byte>)
      requires HasBytes(mem[..], start, s + [0])
      ensures text == UpToNul(s)
    {
      hide UpToNul;
      var length := 0;
      StringByte(mem[..], start, s, 0);
      while mem[start + length] != 0
        invariant 0 <= length <= |UpToNul(s)| <= |s| && start + length < mem.Length
        invariant mem[start + length] == if length < |s| then s[length] else 0
        invariant mem[start..start + length] == s[..length]
        decreases |s| - length
      {
        NulStops(s, length);
        length := length + 1;
        StringByte(mem[..], start, s, length);
        assert s[..length] == s[..length - 1] + [s[length - 1]];
      }
      NulEnds(s, length);
      return mem[start..start + length];
    }

    method Next(ghost rsp: nat, ghost strings: seq<seq<Byte>>) returns (r: Option<seq<Byte>>)
      requires Reads(rsp, strings)
      modifies this`index
      ensures r == if old(index) < |strings| then Some(UpToNul(strings[old(index)])) else None
      ensures index == if r.Some? then old(index) + 1 else old(index)
    {
      r := Get(index, rsp, strings);
      if r.Some? {
        index := index + 1;
      }
    }

    /** Iterating from the start yields exactly the arguments. */
    method Collect(ghost rsp: nat, ghost strings: seq<seq<Byte>>) returns (all: seq<seq<Byte>>)
      requires Reads(rsp, strings) && index == 0 && forall i :: 0 <= i < |strings| ==> 0 !in strings[i]
      modifies this`index
      ensures all == strings
    {
      hide IsFrame, UpToNul;
      all := [];
      while true
        invariant index == |all| <= |strings| && all == strings[..|all|] && Reads(rsp, strings)
        decreases |strings| - |all|
      {
        ghost var k := index;
        var next := Next(rsp, strings);
        if next.None? {
          return;
        }
        UpToNulWhole(strings[k]);
        all := all + [next.value];
      }
    }
  }

  /** What the kernel writes is what the process reads. */
  method RoundTrip(mem: array<Byte>, bottom: nat, top: nat, strings: seq<seq<Byte>>)
    returns (all: Option<seq<seq<Byte>>>)
    requires bottom <= top < 0x1_0000_0000_0000_0000 && mem.Length == top - bottom
    requires forall i :: 0 <= i < |strings| ==> 0 !in strings[i]
    modifies mem
    ensures all.Some? <==> FrameFits(bottom, top, strings)
    ensures all.Some? ==> all.value == strings
  {
    hide IsFrame, FrameFits, ValueOf;
    var rsp := WriteArgsFrame(mem, bottom, top, strings);
    if rsp.None? {
      return None;
    }
    FrameCount(mem[..], bottom, rsp.value, strings);
    var at := rsp.value - bottom;
    assert mem[..][at..at + WORD] == mem[at..at + WORD];
    var args := new Args(mem, bottom, ValueOf(mem[at..at + WORD]), rsp.value + WORD);
    var read := args.Collect(rsp.value, strings);
    return Some(read);
  }
}
