/** Sums, means and filters: the `reduce((a, b) => a + b, 0) / length` and `filter`
    idioms the pages use, over exact numbers. */
module Stats {

  function Sum(xs: seq<int>): int {
    if |xs| == 0 then 0 else Sum(xs[..|xs| - 1]) + xs[|xs| - 1]
  }

  lemma {:induction false} SumAppend(xs: seq<int>, ys: seq<int>)
    ensures Sum(xs + ys) == Sum(xs) + Sum(ys)
    decreases |ys|
  {
    if |ys| == 0 {
      assert xs + ys == xs;
    } else {
      assert (xs + ys)[..|xs + ys| - 1] == xs + ys[..|ys| - 1];
      SumAppend(xs, ys[..|ys| - 1]);
    }
  }

  /** Every element within `[lo, hi]` puts the sum within `[lo * n, hi * n]`. */
  lemma {:induction false} SumBounds(xs: seq<int>, lo: int, hi: int)
    requires forall i :: 0 <= i < |xs| ==> lo <= xs[i] <= hi
    ensures lo * |xs| <= Sum(xs) <= hi * |xs|
    decreases |xs|
  {
    if |xs| > 0 {
      SumBounds(xs[..|xs| - 1], lo, hi);
    }
  }

  /** The arithmetic mean, and 0 for no values (the pages' `length > 0 ? ... : 0`). */
  function Mean(xs: seq<int>): (m: real)
    ensures |xs| == 0 ==> m == 0.0
    ensures |xs| > 0 ==> m * |xs| as real == Sum(xs) as real
  {
    if |xs| == 0 then 0.0 else Sum(xs) as real / |xs| as real
  }

  /** A mean of values within `[lo, hi]` is within `[lo, hi]`. */
  lemma MeanBounds(xs: seq<int>, lo: int, hi: int)
    requires |xs| > 0
    requires forall i :: 0 <= i < |xs| ==> lo <= xs[i] <= hi
    ensures lo as real <= Mean(xs) <= hi as real
  {
    SumBounds(xs, lo, hi);
    var n := |xs| as real;
    assert lo as real * n <= Mean(xs) * n <= hi as real * n;
    ScaleCancels(lo as real, Mean(xs), n);
    ScaleCancels(Mean(xs), hi as real, n);
  }

  lemma ScaleCancels(a: real, b: real, n: real)
    requires n > 0.0 && a * n <= b * n
    ensures a <= b
  {
  }

  /** The elements of `xs` that satisfy `keep`, in order (`xs.filter(keep)`). */
  function Filter<T>(xs: seq<T>, keep: T -> bool): (r: seq<T>)
    ensures |r| <= |xs|
    ensures forall i :: 0 <= i < |r| ==> keep(r[i]) && r[i] in xs
    ensures forall i :: 0 <= i < |xs| && keep(xs[i]) ==> xs[i] in r
  {
    if |xs| == 0 then []
    else
      var rest := Filter(xs[..|xs| - 1], keep);
      if keep(xs[|xs| - 1]) then rest + [xs[|xs| - 1]] else rest
  }

  /** Filtering a concatenation filters each part. */
  lemma {:induction false} FilterAppend<T>(xs: seq<T>, ys: seq<T>, keep: T -> bool)
    ensures Filter(xs + ys, keep) == Filter(xs, keep) + Filter(ys, keep)
    decreases |ys|
  {
    if |ys| == 0 {
      assert xs + ys == xs;
    } else {
      assert (xs + ys)[..|xs + ys| - 1] == xs + ys[..|ys| - 1];
      FilterAppend(xs, ys[..|ys| - 1], keep);
    }
  }

  /** Filtering keeps exactly the elements that satisfy `keep`, each as often as it
      occurs. */
  lemma {:induction false} FilterMultiset<T>(xs: seq<T>, keep: T -> bool, x: T)
    ensures multiset(Filter(xs, keep))[x] == if keep(x) then multiset(xs)[x] else 0
    decreases |xs|
  {
    if |xs| > 0 {
      FilterMultiset(xs[..|xs| - 1], keep, x);
      assert xs == xs[..|xs| - 1] + [xs[|xs| - 1]];
    }
  }

  /** Filtering keeps each element that satisfies `keep` as often as it occurs in `xs`,
      and no other. */
  lemma FilterKeepsExactly<T>(xs: seq<T>, keep: T -> bool)
    ensures forall x :: multiset(Filter(xs, keep))[x] == if keep(x) then multiset(xs)[x] else 0
  {
    forall x ensures multiset(Filter(xs, keep))[x] == if keep(x) then multiset(xs)[x] else 0 {
      FilterMultiset(xs, keep, x);
    }
  }

  /** The filter is empty exactly when no element satisfies `keep`. */
  lemma FilterEmpty<T>(xs: seq<T>, keep: T -> bool)
    ensures Filter(xs, keep) == [] <==> forall i :: 0 <= i < |xs| ==> !keep(xs[i])
  {
    var r := Filter(xs, keep);
    if r != [] {
      assert keep(r[0]) && r[0] in xs;
    }
  }

  /** The head of a filter is the first element that satisfies `keep`
      (`xs.filter(keep)[0]`). */
  lemma {:induction false} FilterHead<T>(xs: seq<T>, keep: T -> bool)
    requires Filter(xs, keep) != []
    ensures exists i :: 0 <= i < |xs| && Filter(xs, keep)[0] == xs[i] && keep(xs[i])
                        && forall j :: 0 <= j < i ==> !keep(xs[j])
    decreases |xs|
  {
    var init := xs[..|xs| - 1];
    if Filter(init, keep) != [] {
      FilterHead(init, keep);
      var i :| 0 <= i < |init| && Filter(init, keep)[0] == init[i] && keep(init[i])
               && forall j :: 0 <= j < i ==> !keep(init[j]);
      assert xs[i] == init[i] && forall j :: 0 <= j < i ==> xs[j] == init[j];
    } else {
      FilterEmpty(init, keep);
      assert forall j :: 0 <= j < |xs| - 1 ==> xs[j] == init[j];
      assert Filter(xs, keep)[0] == xs[|xs| - 1];
    }
  }

  /** A filter by a stricter test ignores a looser filter applied first. */
  lemma {:induction false} FilterNarrower<T>(xs: seq<T>, loose: T -> bool, strict: T -> bool)
    requires forall x :: strict(x) ==> loose(x)
    ensures Filter(Filter(xs, loose), strict) == Filter(xs, strict)
    decreases |xs|
  {
    if |xs| > 0 {
      var init := xs[..|xs| - 1];
      var last := xs[|xs| - 1];
      FilterNarrower(init, loose, strict);
      if loose(last) {
        FilterAppend(Filter(init, loose), [last], strict);
        assert Filter([last], strict) == if strict(last) then [last] else [] by {
          assert [last][..0] == [];
        }
      }
    }
  }

  /** Two tests that agree on every element filter alike. */
  lemma {:induction false} FilterEquivalent<T>(xs: seq<T>, p: T -> bool, q: T -> bool)
    requires forall x :: p(x) == q(x)
    ensures Filter(xs, p) == Filter(xs, q)
    decreases |xs|
  {
    if |xs| > 0 {
      FilterEquivalent(xs[..|xs| - 1], p, q);
    }
  }

  /** The number of elements that satisfy `keep`. */
  function Count<T>(xs: seq<T>, keep: T -> bool): nat {
    |Filter(xs, keep)|
  }

  /** `xs.map(f)`. */
  function Map<T, U>(xs: seq<T>, f: T -> U): (r: seq<U>)
    ensures |r| == |xs| && forall i :: 0 <= i < |xs| ==> r[i] == f(xs[i])
  {
    seq(|xs|, i requires 0 <= i < |xs| => f(xs[i]))
  }
}
