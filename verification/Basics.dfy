/** Sets, sequences and letters, as every component needs them. */
module Basics {
  lemma {:induction false} SubsetSize<T>(a: set<T>, b: set<T>)
    requires a <= b
    ensures |a| <= |b|
    decreases a
  {
    if a != {} {
      var x :| x in a;
      SubsetSize(a - {x}, b - {x});
    }
  }

  /** A part of a part is a part. */
  lemma SliceOfSlice<T>(s: seq<T>, a: nat, z: nat, i: nat, j: nat)
    requires a <= z <= |s| && i <= j <= z - a
    ensures s[a..z][i..j] == s[a + i..a + j]
  {
    var x, y := s[a..z][i..j], s[a + i..a + j];
    assert forall k :: 0 <= k < j - i ==> x[k] == y[k];
  }

  lemma SplitAt<T>(s: seq<T>, k: nat)
    requires k < |s|
    ensures s[k..] == [s[k]] + s[k + 1..]
  {
  }

  function Lower(c: char): char {
    if 'A' <= c <= 'Z' then c - 'A' + 'a' else c
  }

  /** A text with its ASCII capitals made small. */
  function Lowered(s: string): (r: string)
    ensures |r| == |s| && forall i :: 0 <= i < |s| ==> r[i] == Lower(s[i])
  {
    seq(|s|, i requires 0 <= i < |s| => Lower(s[i]))
  }
}
