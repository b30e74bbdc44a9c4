/**
 Sequence combinators the screens and the store are built from: the models of
 `Array.prototype.filter` and of a summing `Array.prototype.reduce`, with the
 facts about them that the rest of the model relies on.
 */
module Seqs {

  /** `a` can be obtained from `b` by deleting elements, keeping the order of the rest. */
  predicate SubseqOf<T(==)>(a: seq<T>, b: seq<T>)
    decreases |b|
  {
    if |a| == 0 then true
    else if |b| == 0 then false
    else if a[0] == b[0] then SubseqOf(a[1..], b[1..])
    else SubseqOf(a, b[1..])
  }

  /** Every sequence is a subsequence of itself. */
  lemma {:induction false} SubseqOfRefl<T>(a: seq<T>)
    ensures SubseqOf(a, a)
    decreases |a|
  {
    if |a| > 0 {
      SubseqOfRefl(a[1..]);
    }
  }

  /**
   Order-preserving selection. The contract pins the result down completely:
   exactly the kept elements, each as often as it occurs in `xs`, in the
   order of `xs`.
   */
  function Filter<T(==,!new)>(xs: seq<T>, keep: T -> bool): (r: seq<T>)
    ensures |r| <= |xs|
    ensures forall x :: x in r <==> x in xs && keep(x)
    ensures forall x :: multiset(r)[x] == if keep(x) then multiset(xs)[x] else 0
    ensures SubseqOf(r, xs)
    decreases |xs|
  {
    if |xs| == 0 then []
    else
      assert xs == [xs[0]] + xs[1..];
      if keep(xs[0]) then [xs[0]] + Filter(xs[1..], keep)
      else Filter(xs[1..], keep)
  }

  /** When every element is kept, filtering returns the sequence itself. */
  lemma {:induction false} FilterKeepsAll<T(!new)>(xs: seq<T>, keep: T -> bool)
    requires forall x :: x in xs ==> keep(x)
    ensures Filter(xs, keep) == xs
    decreases |xs|
  {
    if |xs| > 0 {
      FilterKeepsAll(xs[1..], keep);
    }
  }

  /** Filtering twice with the same predicate is filtering once. */
  lemma FilterIdempotent<T(!new)>(xs: seq<T>, keep: T -> bool)
    ensures Filter(Filter(xs, keep), keep) == Filter(xs, keep)
  {
    FilterKeepsAll(Filter(xs, keep), keep);
  }

  /** Predicates that agree on the elements of `xs` select the same elements. */
  lemma {:induction false} FilterCongruent<T(!new)>(xs: seq<T>, p: T -> bool, q: T -> bool)
    requires forall x :: x in xs ==> p(x) == q(x)
    ensures Filter(xs, p) == Filter(xs, q)
    decreases |xs|
  {
    if |xs| > 0 {
      FilterCongruent(xs[1..], p, q);
    }
  }

  /** A predicate and its negation split a sequence into two parts whose lengths add up. */
  lemma {:induction false} FilterPartition<T(!new)>(xs: seq<T>, p: T -> bool, q: T -> bool)
    requires forall x :: q(x) == !p(x)
    ensures |Filter(xs, p)| + |Filter(xs, q)| == |xs|
    ensures forall x :: !(x in Filter(xs, p) && x in Filter(xs, q))
    decreases |xs|
  {
    if |xs| > 0 {
      FilterPartition(xs[1..], p, q);
    }
  }

  /** How many elements of `xs` satisfy `p`: the reference meaning of a count. */
  function Count<T>(xs: seq<T>, p: T -> bool): nat
    decreases |xs|
  {
    if |xs| == 0 then 0 else (if p(xs[0]) then 1 else 0) + Count(xs[1..], p)
  }

  /** Filtering keeps exactly as many elements as satisfy the predicate. */
  lemma {:induction false} FilterCount<T(!new)>(xs: seq<T>, p: T -> bool)
    ensures |Filter(xs, p)| == Count(xs, p)
    decreases |xs|
  {
    if |xs| > 0 {
      FilterCount(xs[1..], p);
    }
  }

  /** The filter comes out empty exactly when no element satisfies the predicate. */
  lemma FilterEmpty<T(!new)>(xs: seq<T>, p: T -> bool)
    ensures |Filter(xs, p)| == 0 <==> forall x :: x in xs ==> !p(x)
  {
    var r := Filter(xs, p);
    if |r| > 0 {
      assert r[0] in r;
    }
  }

  /** No two elements of `xs` share a key. */
  predicate UniqueBy<T, K(==)>(xs: seq<T>, key: T -> K)
  {
    forall i, j :: 0 <= i < j < |xs| ==> key(xs[i]) != key(xs[j])
  }

  /** Prepending keeps keys unique exactly when the new key is fresh. */
  lemma PrependUniqueBy<T, K>(x: T, xs: seq<T>, key: T -> K)
    requires UniqueBy(xs, key)
    ensures UniqueBy([x] + xs, key) <==> forall y :: y in xs ==> key(y) != key(x)
  {
    var ys := [x] + xs;
    if forall y :: y in xs ==> key(y) != key(x) {
      forall i, j | 0 <= i < j < |ys|
        ensures key(ys[i]) != key(ys[j])
      {
        assert ys[j] == xs[j - 1];
        if i == 0 {
          assert xs[j - 1] in xs;
        } else {
          assert ys[i] == xs[i - 1];
        }
      }
    } else {
      var y :| y in xs && key(y) == key(x);
      var k :| 0 <= k < |xs| && xs[k] == y;
      assert ys[0] == x && ys[k + 1] == y;
    }
  }

  /** The identity, as the key under which `UniqueBy` means "no element repeats". */
  function Itself<T>(x: T): T
  {
    x
  }

  /** The sum of `f` over `xs`, the reference meaning of a summing reduce. */
  function SumOf<T>(xs: seq<T>, f: T -> int): int
    decreases |xs|
  {
    if |xs| == 0 then 0 else f(xs[0]) + SumOf(xs[1..], f)
  }

  /** Summation distributes over concatenation. */
  lemma {:induction false} SumOfAppend<T>(a: seq<T>, b: seq<T>, f: T -> int)
    ensures SumOf(a + b, f) == SumOf(a, f) + SumOf(b, f)
    decreases |a|
  {
    if |a| == 0 {
      assert a + b == b;
    } else {
      assert (a + b)[0] == a[0];
      assert (a + b)[1..] == a[1..] + b;
      SumOfAppend(a[1..], b, f);
    }
  }

  /** Sums of terms between `lo` and `hi` lie between `|xs| * lo` and `|xs| * hi`. */
  lemma {:induction false} SumOfBounds<T>(xs: seq<T>, f: T -> int, lo: int, hi: int)
    requires forall x :: x in xs ==> lo <= f(x) <= hi
    ensures |xs| * lo <= SumOf(xs, f) <= |xs| * hi
    decreases |xs|
  {
    if |xs| > 0 {
      assert xs[0] in xs;
      SumOfBounds(xs[1..], f, lo, hi);
      assert |xs| * lo == lo + |xs[1..]| * lo;
      assert |xs| * hi == hi + |xs[1..]| * hi;
    }
  }

  /** With no negative term, the sum is non-negative and bounds every single term. */
  lemma {:induction false} SumOfDominates<T>(xs: seq<T>, f: T -> int)
    requires forall x :: x in xs ==> f(x) >= 0
    ensures SumOf(xs, f) >= 0
    ensures forall x :: x in xs ==> f(x) <= SumOf(xs, f)
    decreases |xs|
  {
    if |xs| > 0 {
      assert forall x :: x in xs[1..] ==> x in xs;
      SumOfDominates(xs[1..], f);
      assert xs[0] in xs;
      forall x | x in xs
        ensures f(x) <= SumOf(xs, f)
      {
        if x != xs[0] {
          assert x in xs[1..];
        }
      }
    }
  }

  /**
   Left-to-right accumulation starting from 0, as `xs.reduce((acc, x) => acc + f(x), 0)`
   does; the result is the sum of `f` over `xs`.
   */
  method Reduce<T>(xs: seq<T>, f: T -> int) returns (acc: int)
    ensures acc == SumOf(xs, f)
  {
    acc := 0;
    var i := 0;
    while i < |xs|
      invariant 0 <= i <= |xs|
      invariant acc == SumOf(xs[..i], f)
    {
      assert xs[..i + 1] == xs[..i] + [xs[i]];
      SumOfAppend(xs[..i], [xs[i]], f);
      assert SumOf([xs[i]], f) == f(xs[i]);
      acc := acc + f(xs[i]);
      i := i + 1;
    }
    assert xs[..i] == xs;
  }
}
