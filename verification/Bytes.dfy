// Bytes, sequences of bytes and the small helpers every component shares.

module Bytes {

  type byte = x: int | 0 <= x < 256

  datatype Option<T> = None | Some(value: T)

  function Min(a: nat, b: nat): nat {
    if a <= b then a else b
  }

  /** s with the elements from position p on replaced by d. */
  function Overwrite<T>(s: seq<T>, p: nat, d: seq<T>): (r: seq<T>)
    requires p + |d| <= |s|
  {
    s[..p] + d + s[p + |d|..]
  }

  lemma OverwriteKeeps<T>(s: seq<T>, p: nat, d: seq<T>)
    requires p + |d| <= |s|
    ensures |Overwrite(s, p, d)| == |s|
    ensures Overwrite(s, p, d)[..p + |d|] == s[..p] + d
    ensures Overwrite(s, p, d)[p + |d|..] == s[p + |d|..]
  {
  }
}
