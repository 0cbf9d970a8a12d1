/** Shared value types: machine-width integers and the option type. */
module Base {

  type Byte = x: int | 0 <= x < 0x100

  type Word = x: int | 0 <= x < 0x1_0000_0000

  datatype Option<+T> = None | Some(value: T)

  /** A slice of a slice. */
  lemma SliceSlice<T>(s: seq<T>, at: nat, n: nat, lo: nat, hi: nat)
    requires at + n <= |s| && lo <= hi <= n
    ensures s[at..at + n][lo..hi] == s[at + lo..at + hi]
  {
    var a, b := s[at..at + n][lo..hi], s[at + lo..at + hi];
    assert forall i :: 0 <= i < |a| ==> a[i] == b[i];
  }

  function Min(a: int, b: int): int {
    if a <= b then a else b
  }

  /** `s` with the bytes from `offset` on replaced by `b`. */
  function Splice(s: seq<Byte>, offset: nat, b: seq<Byte>): (r: seq<Byte>)
    requires offset + |b| <= |s|
    ensures |r| == |s|
  {
    s[..offset] + b + s[offset + |b|..]
  }
}
