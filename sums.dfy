/**
  * Running sums over a list of products, as both services compute them: start
  * from zero and add one amount per element, left to right.
  */
module Sums {
  import opened Wrappers

  /** A nullable amount counted as zero when absent (`x == null ? ZERO : x`). */
  function OrZero(x: Option<real>): (r: real)
    ensures x.None? ==> r == 0.0
    ensures x.Some? ==> r == x.value
  {
    x.GetOr(0.0)
  }

  /** Every element is one `f` is defined on. */
  ghost predicate DefinedOn<T>(f: T --> real, xs: seq<T>) {
    forall i :: 0 <= i < |xs| ==> f.requires(xs[i])
  }

  /** `((0 + f(xs[0])) + f(xs[1])) + ...`: the left fold an accumulator loop computes. */
  function SumBy<T>(xs: seq<T>, f: T --> real): real
    requires DefinedOn(f, xs)
  {
    if xs == [] then 0.0 else SumBy(xs[..|xs| - 1], f) + f(xs[|xs| - 1])
  }

  lemma {:induction false} SumByAppend<T>(xs: seq<T>, ys: seq<T>, f: T --> real)
    requires DefinedOn(f, xs) && DefinedOn(f, ys)
    ensures DefinedOn(f, xs + ys)
    ensures SumBy(xs + ys, f) == SumBy(xs, f) + SumBy(ys, f)
  {
    if ys == [] {
      assert xs + ys == xs;
    } else {
      var n := |ys|;
      assert (xs + ys)[..|xs + ys| - 1] == xs + ys[..n - 1];
      SumByAppend(xs, ys[..n - 1], f);
    }
  }

  /** Taking one element out of the middle takes its amount out of the sum. */
  lemma SumByRemove<T>(ys: seq<T>, j: nat, f: T --> real)
    requires j < |ys| && DefinedOn(f, ys)
    ensures DefinedOn(f, ys[..j] + ys[j + 1..])
    ensures SumBy(ys, f) == SumBy(ys[..j] + ys[j + 1..], f) + f(ys[j])
  {
    assert ys == (ys[..j] + [ys[j]]) + ys[j + 1..];
    assert DefinedOn(f, ys[..j]) && DefinedOn(f, ys[j + 1..]) && DefinedOn(f, [ys[j]]);
    SumByAppend(ys[..j] + [ys[j]], ys[j + 1..], f);
    SumByAppend(ys[..j], [ys[j]], f);
    SumByAppend(ys[..j], ys[j + 1..], f);
    assert SumBy([ys[j]], f) == f(ys[j]) by {
      assert [ys[j]][..0] == [];
    }
  }

  lemma DefinedOnPermutation<T>(xs: seq<T>, ys: seq<T>, f: T --> real)
    requires multiset(xs) == multiset(ys) && DefinedOn(f, xs)
    ensures DefinedOn(f, ys)
  {
    forall i | 0 <= i < |ys|
      ensures f.requires(ys[i])
    {
      assert ys[i] in multiset(xs);
    }
  }

  /** Removing the last element of `xs` and an equal element of `ys` keeps the two lists permutations. */
  lemma PermutationWithoutLast<T>(xs: seq<T>, ys: seq<T>, j: nat)
    requires multiset(xs) == multiset(ys)
    requires xs != [] && j < |ys| && ys[j] == xs[|xs| - 1]
    ensures multiset(xs[..|xs| - 1]) == multiset(ys[..j] + ys[j + 1..])
  {
    var x, n := ys[j], |xs|;
    assert ys == ys[..j] + [x] + ys[j + 1..];
    assert xs == xs[..n - 1] + [x];
    assert multiset(ys) == multiset(ys[..j]) + multiset{x} + multiset(ys[j + 1..]);
    assert multiset(xs[..n - 1]) == multiset(xs) - multiset{x};
  }

  /** The sum does not depend on the order of the elements. */
  lemma {:induction false} SumByPermutation<T>(xs: seq<T>, ys: seq<T>, f: T --> real)
    requires multiset(xs) == multiset(ys)
    requires DefinedOn(f, xs)
    ensures DefinedOn(f, ys)
    ensures SumBy(xs, f) == SumBy(ys, f)
  {
    DefinedOnPermutation(xs, ys, f);
    if xs == [] {
      assert |ys| == |multiset(ys)| == 0;
    } else {
      var x := xs[|xs| - 1];
      assert x in multiset(ys);
      var j :| 0 <= j < |ys| && ys[j] == x;
      PermutationWithoutLast(xs, ys, j);
      SumByRemove(ys, j, f);
      SumByPermutation(xs[..|xs| - 1], ys[..j] + ys[j + 1..], f);
    }
  }

  /** Two amount functions that agree on every element give the same sum. */
  lemma {:induction false} SumByCongruence<T>(xs: seq<T>, f: T --> real, g: T --> real)
    requires DefinedOn(f, xs) && DefinedOn(g, xs)
    requires forall i :: 0 <= i < |xs| ==> f(xs[i]) == g(xs[i])
    ensures SumBy(xs, f) == SumBy(xs, g)
  {
    if xs != [] {
      SumByCongruence(xs[..|xs| - 1], f, g);
    }
  }

  /** Each amount in [lo, hi] puts the sum in [lo * n, hi * n]. */
  lemma {:induction false} SumByBounds<T>(xs: seq<T>, f: T --> real, lo: real, hi: real)
    requires DefinedOn(f, xs)
    requires forall i :: 0 <= i < |xs| ==> lo <= f(xs[i]) <= hi
    ensures lo * |xs| as real <= SumBy(xs, f) <= hi * |xs| as real
  {
    if xs != [] {
      SumByBounds(xs[..|xs| - 1], f, lo, hi);
    }
  }
}
