/**
 * Byte strings laid out one after another: where each piece of a
 * concatenation starts, and that it can be sliced back out.
 */
module Sequences {

  /** Where piece `k` starts in the concatenation of `ps`. */
  function Offset<T>(ps: seq<seq<T>>, k: nat): nat
    requires k <= |ps|
  {
    if k == 0 then 0 else Offset(ps, k - 1) + |ps[k - 1]|
  }

  lemma {:induction false} OffsetMonotone<T>(ps: seq<seq<T>>, j: nat, k: nat)
    requires j <= k <= |ps|
    ensures Offset(ps, j) <= Offset(ps, k)
  {
    if j < k {
      OffsetMonotone(ps, j, k - 1);
    }
  }

  /** The pieces from the `k`-th on, one after another. */
  function ConcatFrom<T>(ps: seq<seq<T>>, k: nat): (c: seq<T>)
    requires k <= |ps|
    ensures Offset(ps, k) + |c| == Offset(ps, |ps|)
    decreases |ps| - k
  {
    if k == |ps| then [] else ps[k] + ConcatFrom(ps, k + 1)
  }

  /** All the pieces, one after another. */
  function Concat<T>(ps: seq<seq<T>>): (c: seq<T>)
    ensures |c| == Offset(ps, |ps|)
  {
    ConcatFrom(ps, 0)
  }

  /** Piece `k` sits at its offset, counted from piece `j <= k` on. */
  lemma {:induction false} PieceAtFrom<T>(ps: seq<seq<T>>, j: nat, k: nat)
    requires j <= k < |ps|
    ensures Offset(ps, j) <= Offset(ps, k) && Offset(ps, k + 1) <= Offset(ps, |ps|)
    ensures ConcatFrom(ps, j)[Offset(ps, k) - Offset(ps, j)..Offset(ps, k + 1) - Offset(ps, j)] == ps[k]
    decreases k - j
  {
    OffsetMonotone(ps, j, k);
    OffsetMonotone(ps, k + 1, |ps|);
    var first, others := ps[j], ConcatFrom(ps, j + 1);
    assert ConcatFrom(ps, j) == first + others;
    if j == k {
      assert (first + others)[0..|first|] == first;
    } else {
      PieceAtFrom(ps, j + 1, k);
      var lo, hi := Offset(ps, k) - Offset(ps, j + 1), Offset(ps, k + 1) - Offset(ps, j + 1);
      SliceAfterPrefix(first, others, lo, hi, Offset(ps, k) - Offset(ps, j), Offset(ps, k + 1) - Offset(ps, j));
    }
  }

  /** Piece `k` of a concatenation sits between its offset and the next one. */
  lemma {:induction false} PieceAt<T>(ps: seq<seq<T>>, k: nat)
    requires k < |ps|
    ensures Offset(ps, k + 1) <= |Concat(ps)|
    ensures Concat(ps)[Offset(ps, k)..Offset(ps, k + 1)] == ps[k]
  {
    PieceAtFrom(ps, 0, k);
  }

  /** Slicing after a prefix is slicing the rest. */
  lemma {:induction false} SliceAfterPrefix<T>(a: seq<T>, b: seq<T>, i: nat, j: nat, from: nat, to: nat)
    requires i <= j <= |b|
    requires from == |a| + i && to == |a| + j
    ensures to <= |a + b|
    ensures (a + b)[from..to] == b[i..j]
  {
  }

  /** Slicing inside a prefix is slicing the prefix. */
  lemma {:induction false} SliceInPrefix<T>(a: seq<T>, b: seq<T>, i: nat, j: nat)
    requires i <= j <= |a|
    ensures (a + b)[i..j] == a[i..j]
  {
  }

  /** A slice of a slice is a slice of the whole. */
  lemma {:induction false} SliceOfSlice<T>(s: seq<T>, a: nat, b: nat, i: nat, j: nat)
    requires a <= b <= |s| && i <= j <= b - a
    ensures s[a..b][i..j] == s[a + i..a + j]
  {
    forall t | 0 <= t < j - i
      ensures s[a..b][i..j][t] == s[a + i..a + j][t]
    {
      assert s[a..b][i..j][t] == s[a..b][i + t] == s[a + i + t];
    }
  }

  /** The parts of `x + y + z` sit where their lengths put them. */
  lemma {:induction false} ThreeParts<T>(x: seq<T>, y: seq<T>, z: seq<T>)
    ensures (x + y + z)[..|x|] == x
    ensures (x + y + z)[|x|..|x| + |y|] == y
  {
    var w := x + y + z;
    assert w == x + (y + z);
    assert forall t :: 0 <= t < |x| ==> w[..|x|][t] == x[t];
    assert forall t :: 0 <= t < |y| ==> w[|x|..|x| + |y|][t] == y[t];
  }

  /** A prefix one element longer is the shorter prefix followed by that element. */
  lemma {:induction false} TakeSnoc<T>(s: seq<T>, i: nat)
    requires i < |s|
    ensures s[..i + 1] == s[..i] + [s[i]]
    ensures s[..i + 1][..i] == s[..i]
  {
  }
}
