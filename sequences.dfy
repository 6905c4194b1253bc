/** Order-preserving selection from a sequence. */
module Sequences {

  /** `xs` is `ys` with some elements left out, the rest kept in order. */
  predicate IsSubsequence<T(==)>(xs: seq<T>, ys: seq<T>)
    decreases |ys|
  {
    xs == []
    || (ys != [] && ((xs[0] == ys[0] && IsSubsequence(xs[1..], ys[1..])) || IsSubsequence(xs, ys[1..])))
  }

  /** Every sequence is a subsequence of itself. */
  lemma {:induction false} SubsequenceRefl<T>(xs: seq<T>)
    ensures IsSubsequence(xs, xs)
    decreases |xs|
  {
    if xs != [] {
      SubsequenceRefl(xs[1..]);
    }
  }

  /** A subsequence of a suffix of `ys` is a subsequence of `ys`. */
  lemma {:induction false} SubsequenceOfSuffix<T>(xs: seq<T>, ys: seq<T>, k: nat)
    requires k <= |ys| && IsSubsequence(xs, ys[k..])
    ensures IsSubsequence(xs, ys)
    decreases k
  {
    if k > 0 {
      assert ys[1..][k - 1..] == ys[k..];
      SubsequenceOfSuffix(xs, ys[1..], k - 1);
    }
  }

  /** Appending one element to `ys` keeps every subsequence, and may append it to them too. */
  lemma {:induction false} SubsequenceSnoc<T>(xs: seq<T>, ys: seq<T>, y: T)
    requires IsSubsequence(xs, ys)
    ensures IsSubsequence(xs, ys + [y]) && IsSubsequence(xs + [y], ys + [y])
    decreases |ys|
  {
    if ys == [] {
      assert xs == [];
      assert ([y] + [])[1..] == [];
    } else {
      assert (ys + [y])[1..] == ys[1..] + [y];
      if xs == [] {
        SubsequenceSnoc(xs, ys[1..], y);
        assert xs + [y] == [y];
      } else if xs[0] == ys[0] && IsSubsequence(xs[1..], ys[1..]) {
        SubsequenceSnoc(xs[1..], ys[1..], y);
        assert (xs + [y])[1..] == xs[1..] + [y];
      } else {
        SubsequenceSnoc(xs, ys[1..], y);
      }
    }
  }
}
