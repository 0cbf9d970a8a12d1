/** 8.3 names: storing, displaying, and numeric-tail aliases for long names. */
module ShortNames {

  import opened Base
  import opened Slots

  const SPACE: Byte := 0x20
  const TILDE: Byte := 0x7E
  const MAX_TAIL := 999_999

  predicate IsAscii(c: char) { c as int < 0x80 }

  predicate AllAscii(s: string) { forall i :: 0 <= i < |s| ==> IsAscii(s[i]) }

  function UpperAscii(c: char): char {
    if 'a' <= c <= 'z' then (c as int - 32) as char else c
  }

  function LowerAscii(c: char): char {
    if 'A' <= c <= 'Z' then (c as int + 32) as char else c
  }

  predicate EqIgnoreCase(a: string, b: string) {
    |a| == |b| && forall i :: 0 <= i < |a| ==> LowerAscii(a[i]) == LowerAscii(b[i])
  }

  /**
    Full Unicode uppercasing, as far as ASCII results go: the listed letters
    are all the non-ASCII ones with an ASCII uppercase form; every other
    non-ASCII character stands for its own, non-ASCII, uppercase form.
   */
  function Upper(c: char): string {
    if IsAscii(c) then [UpperAscii(c)]
    else match c as int
      case 0x00DF => "SS"
      case 0x0131 => "I"
      case 0x017F => "S"
      case 0xFB00 => "FF"
      case 0xFB01 => "FI"
      case 0xFB02 => "FL"
      case 0xFB03 => "FFI"
      case 0xFB04 => "FFL"
      case 0xFB05 => "ST"
      case 0xFB06 => "ST"
      case _ => [c]
  }

  function Uppercase(s: string): string {
    if s == "" then "" else Upper(s[0]) + Uppercase(s[1..])
  }

  predicate IsInvalidByte(b: Byte) {
    || b <= 0x20
    || b in {0x22, 0x2A, 0x2B, 0x2C, 0x2F, 0x3A, 0x3B, 0x3C, 0x3D, 0x3E, 0x3F, 0x5B, 0x5C, 0x5D, 0x7C}
  }

  function DotIndex(s: string): (n: nat)
    ensures n <= |s|
    ensures forall i :: 0 <= i < n ==> s[i] != '.'
    ensures n < |s| ==> s[n] == '.'
  {
    if s == "" || s[0] == '.' then 0 else 1 + DotIndex(s[1..])
  }

  function BaseOf(f: string): string { f[..DotIndex(f)] }

  function ExtOf(f: string): string {
    if DotIndex(f) < |f| then f[DotIndex(f) + 1..] else ""
  }

  function Bytes(s: string): (b: seq<Byte>)
    requires AllAscii(s)
    ensures |b| == |s| && forall i :: 0 <= i < |s| ==> b[i] == s[i] as int
  {
    seq(|s|, i requires 0 <= i < |s| => s[i] as int)
  }

  /** A component that an 8.3 field of `width` bytes can hold. */
  predicate Fits(s: string, width: nat) {
    |s| <= width && AllAscii(s) && forall i :: 0 <= i < |s| ==> !IsInvalidByte(s[i] as int)
  }

  function Field(b: seq<Byte>, width: nat): (r: seq<Byte>)
    requires |b| <= width
    ensures |r| == width
    ensures forall i :: 0 <= i < width ==> r[i] == if i < |b| then b[i] else SPACE
  {
    b + seq(width - |b|, _ => SPACE)
  }

  predicate IsShortName(f: string) {
    && BaseOf(f) != ""
    && (forall i :: DotIndex(f) < i < |f| ==> f[i] != '.')
    && Fits(Uppercase(BaseOf(f)), 8)
    && Fits(Uppercase(ExtOf(f)), 3)
  }

  /** The 8.3 form of a name, when it has one. */
  function ShortOf(f: string): Option<ShortName> {
    if !IsShortName(f) then None
    else Some(Field(Bytes(Uppercase(BaseOf(f))), 8) + Field(Bytes(Uppercase(ExtOf(f))), 3))
  }

  // ------------------------------------------------------------------ display

  predicate IsSpaceByte(b: Byte) { 0x09 <= b <= 0x0D || b == 0x20 }

  function TrimEnd(b: seq<Byte>): (r: seq<Byte>)
    ensures |r| <= |b| && r == b[..|r|]
  {
    if b != [] && IsSpaceByte(b[|b| - 1]) then TrimEnd(b[..|b| - 1]) else b
  }

  /** A component that is not ASCII text is shown as the empty string. */
  function FieldText(b: seq<Byte>): string {
    if exists i :: 0 <= i < |b| && b[i] >= 0x80 then ""
    else
      var t := TrimEnd(b);
      seq(|t|, i requires 0 <= i < |t| => LowerAscii(b[i] as char))
  }

  function ShortText(n: ShortName): string {
    var base, ext := FieldText(n[..8]), FieldText(n[8..]);
    if ext != "" then base + "." + ext else base
  }

  lemma {:induction false} TrimField(b: seq<Byte>, width: nat)
    requires |b| <= width
    requires forall i :: 0 <= i < |b| ==> !IsInvalidByte(b[i])
    ensures TrimEnd(Field(b, width)) == b
    decreases width
  {
    if |b| < width {
      TrimField(b, width - 1);
      assert Field(b, width)[..width - 1] == Field(b, width - 1);
    } else {
      assert Field(b, width) == b;
      assert b != [] ==> !IsInvalidByte(b[|b| - 1]);
    }
  }

  lemma {:induction false} UppercaseAscii(s: string)
    requires AllAscii(s)
    ensures |Uppercase(s)| == |s|
    ensures forall i :: 0 <= i < |s| ==> Uppercase(s)[i] == UpperAscii(s[i])
  {
    if s != "" {
      UppercaseAscii(s[1..]);
      assert IsAscii(s[0]);
    }
  }

  lemma FieldTextOf(s: string, width: nat)
    requires AllAscii(s) && Fits(Uppercase(s), width)
    ensures EqIgnoreCase(FieldText(Field(Bytes(Uppercase(s)), width)), s)
  {
    hide IsInvalidByte, Uppercase, TrimEnd, Field;
    UppercaseAscii(s);
    var b := Bytes(Uppercase(s));
    TrimField(b, width);
    assert forall i :: 0 <= i < width ==> Field(b, width)[i] < 0x80;
  }

  /** The two fields of an 8.3 form. */
  lemma ShortParts(f: string)
    requires ShortOf(f).Some?
    ensures Fits(Uppercase(BaseOf(f)), 8) && Fits(Uppercase(ExtOf(f)), 3)
    ensures var n := ShortOf(f).value;
            && n[..8] == Field(Bytes(Uppercase(BaseOf(f))), 8)
            && n[8..] == Field(Bytes(Uppercase(ExtOf(f))), 3)
  {
    hide Uppercase, IsInvalidByte;
  }

  /** A name is its base, or its base, a dot and its extension. */
  lemma NameParts(f: string)
    ensures if DotIndex(f) == |f| then f == BaseOf(f) && ExtOf(f) == "" else f == BaseOf(f) + "." + ExtOf(f)
  {
    hide DotIndex;
    if DotIndex(f) < |f| {
      AroundDot(f, DotIndex(f));
    }
  }

  lemma AroundDot(f: string, n: nat)
    requires n < |f| && f[n] == '.'
    ensures f == f[..n] + "." + f[n + 1..]
  {
    var r := f[..n] + "." + f[n + 1..];
    assert |r| == |f| && r[n] == '.';
  }

  /**
    A stored ASCII 8.3 name reads back as the requested one, up to case,
    exactly when the request has no trailing dot.
   */
  lemma ShortRoundTrip(f: string)
    requires AllAscii(f) && ShortOf(f).Some?
    ensures EqIgnoreCase(ShortText(ShortOf(f).value), f) <==> f[|f| - 1] != '.'
  {
    hide Field, Uppercase, Fits, Bytes, FieldText, LowerAscii, ShortOf;
    var n := ShortOf(f).value;
    var base, ext := BaseOf(f), ExtOf(f);
    ShortParts(f);
    NameParts(f);
    FieldTextOf(base, 8);
    FieldTextOf(ext, 3);
    EqIgnoreCaseJoin(FieldText(n[..8]), base, FieldText(n[8..]), ext);
    OneDotOnly(f);
  }

  /** A short name is shown without capitals. */
  lemma ShownInLowerCase(n: ShortName)
    ensures forall i :: 0 <= i < |ShortText(n)| ==> !('A' <= ShortText(n)[i] <= 'Z')
  {
    FieldIsLower(n[..8]);
    FieldIsLower(n[8..]);
    hide FieldText;
    var base, ext := FieldText(n[..8]), FieldText(n[8..]);
    if ext != "" {
      var text := base + "." + ext;
      forall i | 0 <= i < |text| ensures !('A' <= text[i] <= 'Z') {
        assert i > |base| ==> text[i] == ext[i - |base| - 1];
      }
    }
  }

  lemma FieldIsLower(b: seq<Byte>)
    ensures forall i :: 0 <= i < |FieldText(b)| ==> !('A' <= FieldText(b)[i] <= 'Z')
  {
    hide TrimEnd;
  }

  /** After the dot of an 8.3 name there is no other. */
  lemma OneDotOnly(f: string)
    requires ShortOf(f).Some?
    ensures BaseOf(f) != "" && forall i :: DotIndex(f) < i < |f| ==> f[i] != '.'
  {
    hide Fits;
  }

  lemma EqIgnoreCaseJoin(a: string, b: string, c: string, d: string)
    requires EqIgnoreCase(a, b) && EqIgnoreCase(c, d)
    ensures EqIgnoreCase(a + "." + c, b + "." + d)
  {
    var x, y := a + "." + c, b + "." + d;
    forall i | 0 <= i < |x| ensures LowerAscii(x[i]) == LowerAscii(y[i]) {
      if i > |a| {
        assert x[i] == c[i - |a| - 1] && y[i] == d[i - |a| - 1];
      }
    }
  }

  /** The failing family has members: `foo.` is stored as `FOO`. */
  lemma TrailingDotIsLost()
    ensures IsShortName("foo.")
    ensures !EqIgnoreCase(ShortText(ShortOf("foo.").value), "foo.")
  {
    var f := "foo.";
    assert DotIndex(f) == 3 by {
      assert f[0] != '.' && f[1] != '.' && f[2] != '.' && f[3] == '.';
    }
    assert BaseOf(f) == "foo" && ExtOf(f) == "";
    UppercaseAscii("foo");
    UppercaseAscii("");
    var u := Uppercase("foo");
    assert u[0] == 'F' && u[1] == 'O' && u[2] == 'O';
    ShortRoundTrip(f);
  }

  // ------------------------------------------------------------------ legality

  /** A byte of a stored name: ASCII, no control or forbidden character, no dot, no lower-case letter. */
  predicate LegalByte(b: Byte) {
    !IsInvalidByte(b) && b < 0x80 && b != 0x2E && !(0x61 <= b <= 0x7A)
  }

  /** A name in capitals that no scan mistakes for an end marker, a deletion or a dot entry. */
  predicate Legal(n: ShortName) {
    && n[0] != SPACE
    && forall i :: 0 <= i < 11 ==> n[i] == SPACE || LegalByte(n[i])
  }

  lemma ShortOfLegal(f: string)
    requires ShortOf(f).Some?
    ensures Legal(ShortOf(f).value)
  {
    UppercaseIsCapital(BaseOf(f));
    UppercaseIsCapital(ExtOf(f));
    var b := Uppercase(BaseOf(f));
    assert |Upper(BaseOf(f)[0])| > 0 && b != "";
  }

  /** Uppercasing brings in no dot and leaves no lower-case ASCII letter. */
  lemma {:induction false} UppercaseIsCapital(s: string)
    requires forall i :: 0 <= i < |s| ==> s[i] != '.'
    ensures forall i :: 0 <= i < |Uppercase(s)| ==> Uppercase(s)[i] != '.' && !('a' <= Uppercase(s)[i] <= 'z')
  {
    if s != "" {
      UppercaseIsCapital(s[1..]);
      assert forall i :: 0 <= i < |Upper(s[0])| ==> Upper(s[0])[i] != '.' && !('a' <= Upper(s[0])[i] <= 'z');
    }
  }

  /** Two characters are equal up to case exactly when they have the same capital. */
  lemma SameCapital(a: char, b: char)
    ensures LowerAscii(a) == LowerAscii(b) <==> UpperAscii(a) == UpperAscii(b)
  {
  }

  lemma SameUppercase(a: string, b: string)
    requires AllAscii(a) && AllAscii(b)
    ensures Uppercase(a) == Uppercase(b) <==> EqIgnoreCase(a, b)
  {
    hide UpperAscii, LowerAscii;
    UppercaseAscii(a);
    UppercaseAscii(b);
    var u, w := Uppercase(a), Uppercase(b);
    if u == w {
      forall i | 0 <= i < |a| ensures LowerAscii(a[i]) == LowerAscii(b[i]) {
        assert u[i] == UpperAscii(a[i]) && w[i] == UpperAscii(b[i]);
        SameCapital(a[i], b[i]);
      }
    }
    if EqIgnoreCase(a, b) {
      forall i | 0 <= i < |a| ensures u[i] == w[i] {
        SameCapital(a[i], b[i]);
      }
    }
  }

  lemma BytesInjective(a: string, b: string)
    requires AllAscii(a) && AllAscii(b)
    ensures Bytes(a) == Bytes(b) <==> a == b
  {
    if Bytes(a) == Bytes(b) {
      forall i | 0 <= i < |a| ensures a[i] == b[i] {
        assert Bytes(a)[i] == Bytes(b)[i];
      }
    }
  }

  /** A field gives its text back, so two texts share a field only when they are the same. */
  lemma SameField(a: string, b: string, width: nat)
    requires Fits(a, width) && Fits(b, width)
    ensures Field(Bytes(a), width) == Field(Bytes(b), width) <==> a == b
  {
    hide Field;
    TrimField(Bytes(a), width);
    TrimField(Bytes(b), width);
    BytesInjective(a, b);
  }

  /** ASCII names share an 8.3 form exactly when base and extension agree up to case. */
  lemma SameShortForm(a: string, b: string)
    requires AllAscii(a) && AllAscii(b) && ShortOf(a).Some? && ShortOf(b).Some?
    ensures ShortOf(a) == ShortOf(b) <==> EqIgnoreCase(BaseOf(a), BaseOf(b)) && EqIgnoreCase(ExtOf(a), ExtOf(b))
  {
    hide Field, EqIgnoreCase, Uppercase, Bytes, Fits, ShortOf;
    ShortParts(a);
    ShortParts(b);
    SameUppercase(BaseOf(a), BaseOf(b));
    SameUppercase(ExtOf(a), ExtOf(b));
    SameField(Uppercase(BaseOf(a)), Uppercase(BaseOf(b)), 8);
    SameField(Uppercase(ExtOf(a)), Uppercase(ExtOf(b)), 3);
    var x, y := ShortOf(a).value, ShortOf(b).value;
    assert x == x[..8] + x[8..] && y == y[..8] + y[8..];
  }

  lemma DotsAgree(a: string, b: string, i: nat)
    requires EqIgnoreCase(a, b) && i < |a|
    ensures a[i] == '.' <==> b[i] == '.'
  {
    assert LowerAscii(a[i]) == LowerAscii(b[i]);
  }

  lemma DotIndexIs(s: string, n: nat)
    requires n <= |s| && (forall i :: 0 <= i < n ==> s[i] != '.') && (n < |s| ==> s[n] == '.')
    ensures DotIndex(s) == n
  {
  }

  lemma SlicesAgree(a: string, b: string, lo: nat, hi: nat)
    requires EqIgnoreCase(a, b) && lo <= hi <= |a|
    ensures EqIgnoreCase(a[lo..hi], b[lo..hi])
  {
    hide LowerAscii;
  }

  lemma SameParts(a: string, b: string)
    requires EqIgnoreCase(a, b)
    ensures DotIndex(a) == DotIndex(b) && |a| == |b|
    ensures EqIgnoreCase(BaseOf(a), BaseOf(b)) && EqIgnoreCase(ExtOf(a), ExtOf(b))
    ensures forall i :: 0 <= i < |a| ==> (a[i] == '.' <==> b[i] == '.')
  {
    hide LowerAscii;
    forall i: nat | i < |a| ensures a[i] == '.' <==> b[i] == '.' {
      DotsAgree(a, b, i);
    }
    var n := DotIndex(a);
    DotIndexIs(b, n);
    hide EqIgnoreCase;
    SlicesAgree(a, b, 0, n);
    if n < |a| {
      SlicesAgree(a, b, n + 1, |a|);
      assert a[n + 1..|a|] == a[n + 1..] && b[n + 1..|b|] == b[n + 1..];
    } else {
      SlicesAgree(a, b, 0, 0);
    }
  }

  /** The 8.3 form of an ASCII name does not depend on its case, nor does having one. */
  lemma ShortOfIgnoresCase(a: string, b: string)
    requires AllAscii(a) && EqIgnoreCase(a, b) && AllAscii(b)
    ensures ShortOf(a) == ShortOf(b)
  {
    hide EqIgnoreCase, DotIndex, Uppercase, Field, Bytes, Fits;
    SameParts(a, b);
    SameUppercase(BaseOf(a), BaseOf(b));
    SameUppercase(ExtOf(a), ExtOf(b));
    EmptyBase(BaseOf(a), BaseOf(b));
  }

  lemma EmptyBase(a: string, b: string)
    requires EqIgnoreCase(a, b)
    ensures a == "" <==> b == ""
  {
  }

  // ------------------------------------------------------------------- aliases

  function LastDot(s: string): (n: int)
    ensures -1 <= n < |s|
  {
    if s == "" then -1 else if s[|s| - 1] == '.' then |s| - 1 else LastDot(s[..|s| - 1])
  }

  function AliasBase(f: string): string {
    if LastDot(f) > 0 then f[..LastDot(f)] else f
  }

  function AliasExt(f: string): string {
    if LastDot(f) > 0 then f[LastDot(f) + 1..] else ""
  }

  lemma {:induction false} LastDotIsLast(s: string)
    ensures LastDot(s) >= 0 ==> s[LastDot(s)] == '.'
    ensures forall i :: 0 <= i < |s| && i > LastDot(s) ==> s[i] != '.'
  {
    if s != "" && s[|s| - 1] != '.' {
      LastDotIsLast(s[..|s| - 1]);
    }
  }

  /**
    An alias is made from what stands before and behind the last dot; a name
    without a dot, or with none but a leading one, has no extension.
   */
  lemma AliasParts(f: string)
    ensures '.' !in AliasExt(f)
    ensures if AliasBase(f) == f then AliasExt(f) == "" && forall i :: 0 < i < |f| ==> f[i] != '.'
            else AliasBase(f) != "" && f == AliasBase(f) + "." + AliasExt(f)
  {
    hide LastDot;
    LastDotIsLast(f);
    var n := LastDot(f);
    if n > 0 {
      AroundDot(f, n);
      assert |AliasBase(f)| < |f|;
    }
  }

  function CleanByte(c: char): (b: Byte)
    ensures !IsInvalidByte(b) && b < 0x80 && !(0x61 <= b <= 0x7A)
    ensures b == UpperAscii(c) as int || b == 0x5F
  {
    if IsAscii(UpperAscii(c)) && !IsInvalidByte(UpperAscii(c) as int) then UpperAscii(c) as int else 0x5F
  }

  /** Spaces and dots are dropped, illegal characters become underscores. */
  function Clean(s: string): (b: seq<Byte>)
    ensures forall i :: 0 <= i < |b| ==> LegalByte(b[i])
  {
    if s == "" then []
    else (if s[0] == ' ' || s[0] == '.' then [] else [CleanByte(s[0])]) + Clean(s[1..])
  }

  function Prefix(b: seq<Byte>, n: nat): (r: seq<Byte>)
    ensures |r| <= n
  {
    b[..Min(|b|, n)]
  }

  lemma {:induction false} CleanAppend(s: string, c: char)
    ensures Clean(s + [c]) == Clean(s) + Clean([c])
  {
    if s == "" {
      assert s + [c] == [c];
    } else {
      assert (s + [c])[1..] == s[1..] + [c];
      CleanAppend(s[1..], c);
    }
  }

  lemma {:induction false} CleanPrefix(s: string, k: nat)
    requires k <= |s|
    ensures Clean(s[..k]) <= Clean(s)
    decreases |s| - k
  {
    if k == |s| {
      assert s[..k] == s;
    } else {
      CleanPrefix(s, k + 1);
      assert s[..k + 1] == s[..k] + [s[k]];
      CleanAppend(s[..k], s[k]);
    }
  }

  /** A component that fits an 8.3 field is cleaned to the bytes that field would hold. */
  lemma {:induction false} CleanOfFit(s: string)
    requires AllAscii(s) && Fits(Uppercase(s), |s|) && '.' !in s
    ensures Clean(s) == Bytes(Uppercase(s))
  {
    if s != "" {
      var u := Uppercase(s);
      UppercaseFirst(s);
      FitsLater(u);
      CleanOfFit(s[1..]);
      hide Uppercase;
      CleanFirst(s[0], u);
      assert Bytes(u) == [u[0] as int] + Bytes(u[1..]);
    }
  }

  lemma UppercaseFirst(s: string)
    requires s != "" && AllAscii(s)
    ensures Uppercase(s) == [UpperAscii(s[0])] + Uppercase(s[1..])
    ensures |Uppercase(s)| == |s| && |Uppercase(s[1..])| == |s| - 1
  {
    UppercaseAscii(s);
    UppercaseAscii(s[1..]);
  }

  lemma CleanFirst(c: char, u: string)
    requires u != "" && Fits(u, |u|) && u[0] == UpperAscii(c)
    ensures c != ' ' && CleanByte(c) == u[0] as int
  {
    assert IsAscii(u[0]) && !IsInvalidByte(u[0] as int);
    SpaceHasNoCapital();
  }

  lemma SpaceHasNoCapital()
    ensures UpperAscii(' ') == ' ' && IsInvalidByte(' ' as int)
  {
  }

  lemma FitsLater(u: string)
    requires u != "" && Fits(u, |u|)
    ensures Fits(u[1..], |u| - 1)
  {
    hide IsInvalidByte;
  }

  lemma CleanNothing(s: string)
    ensures Clean(s[..0]) == []
  {
  }

  /** One more character adds its byte, unless it is dropped. */
  lemma CleanNext(s: string, i: nat)
    requires i < |s|
    ensures Clean(s[..i + 1]) == Clean(s[..i]) + if s[i] == ' ' || s[i] == '.' then [] else [CleanByte(s[i])]
  {
    hide CleanByte;
    assert s[..i + 1] == s[..i] + [s[i]];
    CleanAppend(s[..i], s[i]);
    assert [s[i]][1..] == "";
  }

  method SanitizeShortComponent(component: string, maxLen: nat) returns (bytes: seq<Byte>)
    ensures bytes == Prefix(Clean(component), maxLen)
  {
    hide CleanByte, Clean;
    bytes := [];
    CleanNothing(component);
    for i := 0 to |component|
      invariant bytes == Clean(component[..i]) && |bytes| <= maxLen
    {
      CleanPrefix(component, i);
      if |bytes| == maxLen {
        return;
      }
      CleanNext(component, i);
      var c := component[i];
      if c != ' ' && c != '.' {
        bytes := bytes + [CleanByte(c)];
      }
    }
    assert component[..|component|] == component;
  }

  /** Decimal digits, most significant first. */
  function Digits(n: nat): (d: seq<Byte>)
    ensures forall i :: 0 <= i < |d| ==> 0x30 <= d[i] <= 0x39
    ensures n > 0 ==> |d| > 0
  {
    if n == 0 then [] else Digits(n / 10) + [0x30 + n % 10]
  }

  /** What decimal digits say. */
  ghost function Decimal(d: seq<Byte>): int {
    if d == [] then 0 else 10 * Decimal(d[..|d| - 1]) + d[|d| - 1] - 0x30
  }

  /** The digits of a number say that number, without a leading zero. */
  lemma {:induction false} DigitsSay(n: nat)
    ensures Decimal(Digits(n)) == n && (n > 0 ==> Digits(n)[0] != 0x30)
  {
    if n > 0 {
      DigitsSay(n / 10);
      var d := Digits(n);
      assert d[..|d| - 1] == Digits(n / 10);
      assert n / 10 > 0 ==> d[0] == Digits(n / 10)[0];
    }
  }

  lemma DigitsBound(n: nat)
    requires n <= MAX_TAIL
    ensures |Digits(n)| <= 6
  {
    assert |Digits(n / 100_000)| <= 1;
    assert |Digits(n / 10_000)| <= 2 by { assert (n / 10_000) / 10 == n / 100_000; }
    assert |Digits(n / 1_000)| <= 3 by { assert (n / 1_000) / 10 == n / 10_000; }
    assert |Digits(n / 100)| <= 4 by { assert (n / 100) / 10 == n / 1_000; }
    assert |Digits(n / 10)| <= 5 by { assert (n / 10) / 10 == n / 100; }
  }

  lemma {:induction false} DigitsInjective(m: nat, n: nat)
    requires Digits(m) == Digits(n)
    ensures m == n
  {
    if m > 0 && n > 0 {
      var a, b := Digits(m), Digits(n);
      assert a[|a| - 1] == 0x30 + m % 10 && b[|b| - 1] == 0x30 + n % 10;
      assert a[..|a| - 1] == Digits(m / 10) && b[..|b| - 1] == Digits(n / 10);
      DigitsInjective(m / 10, n / 10);
    }
  }

  function Alias(base: seq<Byte>, ext: seq<Byte>, tail: nat): (n: ShortName)
    requires |base| <= 8 && |ext| <= 3 && tail <= MAX_TAIL
  {
    DigitsBound(tail);
    var d := Digits(tail);
    Field(base[..Min(|base|, 7 - |d|)] + [TILDE] + d, 8) + Field(ext, 3)
  }

  /** Where the tail sits: after the last tilde, followed only by spaces. */
  lemma AliasShape(base: seq<Byte>, ext: seq<Byte>, n: nat) returns (i: nat)
    requires |base| <= 8 && |ext| <= 3 && n <= MAX_TAIL
    ensures i + 1 + |Digits(n)| <= 8
    ensures Alias(base, ext, n)[i] == TILDE
    ensures forall k :: 0 <= k < |Digits(n)| ==> Alias(base, ext, n)[i + 1 + k] == Digits(n)[k]
    ensures forall k :: i + 1 + |Digits(n)| <= k < 8 ==> Alias(base, ext, n)[k] == SPACE
  {
    DigitsBound(n);
    var d := Digits(n);
    i := Min(|base|, 7 - |d|);
    var x := base[..i] + [TILDE] + d;
    assert Alias(base, ext, n)[..8] == Field(x, 8);
    forall k | 0 <= k < 8 ensures Alias(base, ext, n)[k] == Field(x, 8)[k] {
      assert Alias(base, ext, n)[..8][k] == Field(x, 8)[k];
    }
  }

  /** Distinct numeric tails always give distinct candidates. */
  lemma AliasInjective(base: seq<Byte>, ext: seq<Byte>, m: nat, n: nat)
    requires |base| <= 8 && |ext| <= 3 && m <= MAX_TAIL && n <= MAX_TAIL
    requires Alias(base, ext, m) == Alias(base, ext, n)
    ensures m == n
  {
    var i := AliasShape(base, ext, m);
    var j := AliasShape(base, ext, n);
    TailUnique(Alias(base, ext, m), i, Digits(m), j, Digits(n));
    DigitsInjective(m, n);
  }

  lemma TailUnique(u: seq<Byte>, i: nat, a: seq<Byte>, j: nat, b: seq<Byte>)
    requires |u| >= 8 && i + 1 + |a| <= 8 && j + 1 + |b| <= 8
    requires forall k :: 0 <= k < |a| ==> 0x30 <= a[k] <= 0x39
    requires forall k :: 0 <= k < |b| ==> 0x30 <= b[k] <= 0x39
    requires u[i] == TILDE && forall k :: 0 <= k < |a| ==> u[i + 1 + k] == a[k]
    requires u[j] == TILDE && forall k :: 0 <= k < |b| ==> u[j + 1 + k] == b[k]
    requires forall k :: i + 1 + |a| <= k < 8 ==> u[k] == SPACE
    requires forall k :: j + 1 + |b| <= k < 8 ==> u[k] == SPACE
    ensures a == b
  {
    assert forall k :: i < k < i + 1 + |a| ==> u[k] == a[k - i - 1];
    assert forall k :: j < k < j + 1 + |b| ==> u[k] == b[k - j - 1];
    assert i == j;
    var p, q := i + 1 + |a|, j + 1 + |b|;
    assert p < 8 ==> u[p] == SPACE;
    assert q < 8 ==> u[q] == SPACE;
    assert |a| == |b|;
  }

  method DecimalDigits(n: nat) returns (digits: seq<Byte>)
    ensures digits == Digits(n)
  {
    hide Digits;
    digits := [];
    var remaining := n;
    while remaining > 0
      invariant Digits(remaining) + digits == Digits(n)
    {
      DigitsNext(remaining);
      assert Digits(remaining) + digits == Digits(remaining / 10) + ([0x30 + remaining % 10] + digits);
      digits := [0x30 + remaining % 10] + digits;
      remaining := remaining / 10;
    }
    NoDigits();
  }

  lemma DigitsNext(n: nat)
    requires n > 0
    ensures Digits(n) == Digits(n / 10) + [0x30 + n % 10]
  {
  }

  lemma NoDigits()
    ensures Digits(0) == []
  {
  }

  /** Writes the two fields of an 8.3 name over a blank one. */
  method FillName(base: seq<Byte>, ext: seq<Byte>) returns (name: ShortName)
    requires |base| <= 8 && |ext| <= 3
    ensures name == Field(base, 8) + Field(ext, 3)
  {
    var buffer := new Byte[11](_ => SPACE);
    for i := 0 to |base|
      invariant forall k :: 0 <= k < 11 ==> buffer[k] == if k < i then base[k] else SPACE
    {
      buffer[i] := base[i];
    }
    for i := 0 to |ext|
      invariant forall k :: 0 <= k < 8 ==> buffer[k] == if k < |base| then base[k] else SPACE
      invariant forall k :: 8 <= k < 11 ==> buffer[k] == if k - 8 < i then ext[k - 8] else SPACE
    {
      buffer[8 + i] := ext[i];
    }
    name := buffer[..];
    assert name == Field(base, 8) + Field(ext, 3);
  }

  method ComposeShortAlias(base: seq<Byte>, ext: seq<Byte>, tail: nat) returns (name: ShortName)
    requires |base| <= 8 && |ext| <= 3 && tail <= MAX_TAIL
    ensures name == Alias(base, ext, tail)
  {
    DigitsBound(tail);
    var digits := DecimalDigits(tail);
    var baseLen := Min(|base|, 8 - 1 - |digits|);
    name := FillName(base[..baseLen] + [TILDE] + digits, ext);
  }

  lemma {:induction false} SetOfSeqSize<T>(s: seq<T>)
    ensures |set x | x in s| <= |s|
    ensures (forall i, j :: 0 <= i < j < |s| ==> s[i] != s[j]) ==> |set x | x in s| == |s|
  {
    if s != [] {
      SetOfSeqSize(s[1..]);
      assert (set x | x in s) == (set x | x in s[1..]) + {s[0]};
      if forall i, j :: 0 <= i < j < |s| ==> s[i] != s[j] {
        assert forall i, j :: 0 <= i < j < |s[1..]| ==> s[1..][i] == s[i + 1] && s[1..][j] == s[j + 1];
      }
    }
  }

  lemma {:induction false} SubsetSize<T>(a: set<T>, b: set<T>)
    requires a <= b
    ensures |a| <= |b|
  {
    if a != {} {
      var x :| x in a;
      SubsetSize(a - {x}, b - {x});
    }
  }

  /** Pigeonhole: blocking `n` distinct candidates takes at least `n` names. */
  lemma AllTaken(base: seq<Byte>, ext: seq<Byte>, taken: seq<ShortName>, n: nat)
    requires |base| <= 8 && |ext| <= 3 && n <= MAX_TAIL
    requires forall k :: 1 <= k <= n ==> Alias(base, ext, k) in taken
    ensures n <= |taken|
  {
    var all: seq<ShortName> := seq(n, k requires 0 <= k < n => Alias(base, ext, k + 1));
    forall i, j | 0 <= i < j < n ensures all[i] != all[j] {
      if all[i] == all[j] {
        AliasInjective(base, ext, i + 1, j + 1);
      }
    }
    SetOfSeqSize(all);
    SetOfSeqSize(taken);
    SubsetSize(set x | x in all, set x | x in taken);
  }

  lemma AliasLegal(base: seq<Byte>, ext: seq<Byte>, tail: nat)
    requires |base| <= 8 && |ext| <= 3 && tail <= MAX_TAIL
    requires forall i :: 0 <= i < |base| ==> LegalByte(base[i])
    requires forall i :: 0 <= i < |ext| ==> LegalByte(ext[i])
    ensures Legal(Alias(base, ext, tail))
  {
    DigitsBound(tail);
    var d := Digits(tail);
    var x := base[..Min(|base|, 7 - |d|)] + [TILDE] + d;
    forall i | 0 <= i < 11 ensures Alias(base, ext, tail)[i] == if i < 8 then Field(x, 8)[i] else Field(ext, 3)[i - 8] {
    }
    forall i | 0 <= i < |x| ensures LegalByte(x[i]) {
    }
  }

  /** The alias with the lowest tail that is not taken. */
  ghost predicate IsFirstAlias(base: seq<Byte>, ext: seq<Byte>, taken: seq<ShortName>, n: ShortName)
    requires |base| <= 8 && |ext| <= 3
  {
    exists tail :: 1 <= tail <= MAX_TAIL && n == Alias(base, ext, tail)
                   && forall k :: 1 <= k < tail ==> Alias(base, ext, k) in taken
  }

  /**
    A legal alias that no entry of the directory uses; it exists whenever
    fewer names are taken than there are numeric tails.
   */
  method GenerateShortAlias(filename: string, taken: seq<ShortName>) returns (r: Option<ShortName>)
    ensures r.Some? ==> r.value !in taken && Legal(r.value)
    ensures |taken| < MAX_TAIL ==> r.Some?
    ensures r.Some? ==> IsFirstAlias(Prefix(Clean(AliasBase(filename)), 8), Prefix(Clean(AliasExt(filename)), 3),
                                     taken, r.value)
  {
    var base := SanitizeShortComponent(AliasBase(filename), 8);
    var ext := SanitizeShortComponent(AliasExt(filename), 3);
    for tail := 1 to MAX_TAIL + 1
      invariant forall k :: 1 <= k < tail ==> Alias(base, ext, k) in taken
    {
      var candidate := ComposeShortAlias(base, ext, tail);
      if candidate !in taken {
        AliasLegal(base, ext, tail);
        return Some(candidate);
      }
    }
    AllTaken(base, ext, taken, MAX_TAIL);
    return None;
  }

  /** Stores a name in 8.3 form when it fits. */
  method GetFatFilename(filename: string) returns (r: Option<ShortName>)
    ensures r == ShortOf(filename)
  {
    if !IsShortName(filename) {
      return None;
    }
    var name := FillName(Bytes(Uppercase(BaseOf(filename))), Bytes(Uppercase(ExtOf(filename))));
    return Some(name);
  }
}
