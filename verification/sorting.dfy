/** `Array.prototype.sort` with a comparator, as the pages use it to order chart rows by
    label and experiments by start date: a stable insertion sort under a total preorder
    on a key. */
module Sorting {
  import opened Text

  /** `le` orders keys totally, ties allowed. */
  ghost predicate TotalPreorder<K(!new)>(le: (K, K) -> bool) {
    && (forall a, b :: le(a, b) || le(b, a))
    && (forall a, b, c :: le(a, b) && le(b, c) ==> le(a, c))
  }

  /** Keys ascend along `xs` under `le`. */
  ghost predicate SortedBy<T, K>(xs: seq<T>, key: T -> K, le: (K, K) -> bool) {
    forall i, j :: 0 <= i < j < |xs| ==> le(key(xs[i]), key(xs[j]))
  }

  /** `x` placed into sorted `xs` after every element whose key is not above its own. */
  function Insert<T, K(!new)>(x: T, xs: seq<T>, key: T -> K, le: (K, K) -> bool): (r: seq<T>)
    requires TotalPreorder(le) && SortedBy(xs, key, le)
    ensures SortedBy(r, key, le)
    ensures multiset(r) == multiset(xs) + multiset{x} && |r| == |xs| + 1
    ensures r[0] == x || (|xs| > 0 && r[0] == xs[0])
  {
    if |xs| == 0 then [x]
    else if le(key(xs[0]), key(x)) then
      var rest := Insert(x, xs[1..], key, le);
      PrependSorted(xs[0], rest, key, le);
      assert xs == [xs[0]] + xs[1..];
      [xs[0]] + rest
    else
      PrependSorted(x, xs, key, le);
      [x] + xs
  }

  /** A sorted sequence stays sorted under an element whose key is not above its head's. */
  lemma PrependSorted<T, K(!new)>(y: T, xs: seq<T>, key: T -> K, le: (K, K) -> bool)
    requires TotalPreorder(le) && SortedBy(xs, key, le)
    requires |xs| > 0 ==> le(key(y), key(xs[0]))
    ensures SortedBy([y] + xs, key, le)
  {
    var r := [y] + xs;
    forall i, j | 0 <= i < j < |r| ensures le(key(r[i]), key(r[j])) {
      if i == 0 && j > 1 {
        assert le(key(y), key(xs[0])) && le(key(xs[0]), key(xs[j - 1]));
      }
    }
  }

  /** The sorted order of `xs`: ascending keys and the same elements. */
  function SortBy<T, K(!new)>(xs: seq<T>, key: T -> K, le: (K, K) -> bool): (r: seq<T>)
    requires TotalPreorder(le)
    ensures SortedBy(r, key, le)
    ensures multiset(r) == multiset(xs)
    ensures |r| == |xs|
  {
    if |xs| == 0 then []
    else
      var init := xs[..|xs| - 1];
      assert xs == init + [xs[|xs| - 1]];
      Insert(xs[|xs| - 1], SortBy(init, key, le), key, le)
  }

  /** Sorting already sorted rows with no two keys tied changes nothing. */
  lemma {:induction false} SortSorted<T, K(!new)>(xs: seq<T>, key: T -> K, le: (K, K) -> bool)
    requires TotalPreorder(le) && SortedBy(xs, key, le)
    ensures SortBy(xs, key, le) == xs
    decreases |xs|
  {
    if |xs| > 0 {
      var init, last := xs[..|xs| - 1], xs[|xs| - 1];
      assert xs == init + [last];
      SortedInit(init, last, key, le);
      SortSorted(init, key, le);
      InsertLast(last, init, key, le);
      SortByLast(xs, key, le);
    }
  }

  /** Dropping the last row of sorted rows leaves them sorted, below that row. */
  lemma SortedInit<T, K>(init: seq<T>, last: T, key: T -> K, le: (K, K) -> bool)
    requires SortedBy(init + [last], key, le)
    ensures SortedBy(init, key, le)
    ensures forall i :: 0 <= i < |init| ==> le(key(init[i]), key(last))
  {
    var xs := init + [last];
    assert forall i :: 0 <= i < |init| ==> xs[i] == init[i];
    assert xs[|init|] == last;
  }

  /** Sorting appends the last row into the sorted rows before it. */
  lemma SortByLast<T, K(!new)>(xs: seq<T>, key: T -> K, le: (K, K) -> bool)
    requires TotalPreorder(le) && |xs| > 0
    ensures SortBy(xs, key, le) == Insert(xs[|xs| - 1], SortBy(xs[..|xs| - 1], key, le), key, le)
  {
  }

  /** An element whose key is not below any other goes to the end. */
  lemma {:induction false} InsertLast<T, K(!new)>(x: T, xs: seq<T>, key: T -> K, le: (K, K) -> bool)
    requires TotalPreorder(le) && SortedBy(xs, key, le)
    requires forall i :: 0 <= i < |xs| ==> le(key(xs[i]), key(x))
    ensures Insert(x, xs, key, le) == xs + [x]
    decreases |xs|
  {
    if |xs| > 0 {
      InsertLast(x, xs[1..], key, le);
      assert xs == [xs[0]] + xs[1..];
    }
  }

  /** No element occurs twice. */
  predicate Distinct<T(==)>(xs: seq<T>) {
    forall i, j :: 0 <= i < j < |xs| ==> xs[i] != xs[j]
  }

  /** Reordering keeps distinct elements distinct. */
  lemma DistinctPermutation<T>(a: seq<T>, b: seq<T>)
    requires multiset(a) == multiset(b) && Distinct(b)
    ensures Distinct(a)
  {
    DistinctOnce(b);
    forall i, j | 0 <= i < j < |a| ensures a[i] != a[j] {
      CountedBefore(a, i, j);
    }
  }

  lemma {:induction false} DistinctOnce<T>(b: seq<T>)
    requires Distinct(b)
    ensures forall x :: multiset(b)[x] <= 1
    decreases |b|
  {
    if |b| > 0 {
      var init := b[..|b| - 1];
      DistinctOnce(init);
      assert b == init + [b[|b| - 1]];
      assert b[|b| - 1] !in init;
    }
  }

  /** An element counts once more than in the part before it, which holds each
      earlier element. */
  lemma CountedBefore<T>(a: seq<T>, i: int, j: int)
    requires 0 <= i < j < |a|
    ensures multiset(a)[a[j]] >= multiset(a[..j])[a[j]] + 1
    ensures multiset(a[..j])[a[i]] >= 1
  {
    assert a == a[..j] + [a[j]] + a[j + 1..];
    assert a[..j][i] == a[i];
  }

  /** The order `a.localeCompare(b)` sorts labels by, for the ASCII labels used here. */
  predicate TextLe(a: string, b: string) {
    LexLe(a, b)
  }

  lemma TextLeIsTotalPreorder()
    ensures TotalPreorder(TextLe)
  {
    forall a: string, b: string ensures TextLe(a, b) || TextLe(b, a) {
      LexLeTotal(a, b);
    }
    forall a: string, b: string, c: string | TextLe(a, b) && TextLe(b, c) ensures TextLe(a, c) {
      LexLeTransitive(a, b, c);
    }
  }

  /** Descending order of numbers: `b - a` as a comparator. */
  predicate NotBelow(a: int, b: int) {
    a >= b
  }

  lemma NotBelowIsTotalPreorder()
    ensures TotalPreorder(NotBelow)
  {
  }
}
