/**
 * List comprehensions and `sorted`: selecting the elements of a sequence
 * that satisfy a condition (`[x for x in xs if p(x)]`, a query's `filter`),
 * counting and summing them, and Python's stable `sorted(..., reverse=True)`.
 */
module Seqs {

  /** `[x for x in xs if p(x)]`, which keeps the order of `xs`. */
  function Filter<T>(xs: seq<T>, p: T -> bool): (ys: seq<T>)
    ensures |ys| <= |xs|
    ensures forall i :: 0 <= i < |ys| ==> p(ys[i])
    ensures forall i :: 0 <= i < |ys| ==> ys[i] in xs
    ensures forall i :: 0 <= i < |xs| && p(xs[i]) ==> xs[i] in ys
    decreases |xs|
  {
    if xs == [] then []
    else
      var r := Filter(xs[..|xs| - 1], p);
      assert forall i :: 0 <= i < |xs| - 1 ==> xs[..|xs| - 1][i] == xs[i];
      if p(xs[|xs| - 1]) then r + [xs[|xs| - 1]] else r
  }

  /** `len([x for x in xs if p(x)])`. */
  function Count<T>(xs: seq<T>, p: T -> bool): nat {
    |Filter(xs, p)|
  }

  lemma FilterAppend<T>(xs: seq<T>, x: T, p: T -> bool)
    ensures Filter(xs + [x], p) == Filter(xs, p) + (if p(x) then [x] else [])
  {
    assert (xs + [x])[..|xs|] == xs;
  }

  /** An element is selected exactly when it occurs and satisfies the condition. */
  lemma FilterMember<T>(xs: seq<T>, p: T -> bool, x: T)
    ensures x in Filter(xs, p) <==> x in xs && p(x)
  {
    if x in Filter(xs, p) {
      var i :| 0 <= i < |Filter(xs, p)| && Filter(xs, p)[i] == x;
    }
    if x in xs && p(x) {
      var i :| 0 <= i < |xs| && xs[i] == x;
    }
  }

  /** Every element that satisfies the condition is kept as many times as it
      occurs; every other element is dropped. */
  lemma {:induction false} FilterMultiset<T>(xs: seq<T>, p: T -> bool, x: T)
    ensures multiset(Filter(xs, p))[x] == if p(x) then multiset(xs)[x] else 0
    decreases |xs|
  {
    if xs != [] {
      var init := xs[..|xs| - 1];
      FilterMultiset(init, p, x);
      assert xs == init + [xs[|xs| - 1]];
    }
  }

  /** Nothing is selected exactly when no element satisfies the condition. */
  lemma {:induction false} FilterEmpty<T>(xs: seq<T>, p: T -> bool)
    ensures Filter(xs, p) == [] <==> forall i :: 0 <= i < |xs| ==> !p(xs[i])
  {
    if Filter(xs, p) == [] {
    } else {
      assert p(Filter(xs, p)[0]) && Filter(xs, p)[0] in xs;
    }
  }

  /** Conditions that agree on every element select the same elements. */
  lemma {:induction false} FilterSame<T>(xs: seq<T>, p: T -> bool, q: T -> bool)
    requires forall i :: 0 <= i < |xs| ==> p(xs[i]) == q(xs[i])
    ensures Filter(xs, p) == Filter(xs, q)
    decreases |xs|
  {
    if xs != [] {
      FilterSame(xs[..|xs| - 1], p, q);
    }
  }

  /** Filtering twice keeps the elements satisfying both conditions. */
  lemma {:induction false} FilterFilter<T>(xs: seq<T>, p: T -> bool, q: T -> bool)
    ensures Filter(Filter(xs, p), q) == Filter(xs, x => p(x) && q(x))
    decreases |xs|
  {
    if xs != [] {
      var init := xs[..|xs| - 1];
      FilterFilter(init, p, q);
      FilterAppend(Filter(init, p), xs[|xs| - 1], q);
    }
  }

  /** The elements that satisfy `p` and those that do not make up the whole. */
  lemma {:induction false} CountSplit<T>(xs: seq<T>, p: T -> bool, q: T -> bool)
    requires forall i :: 0 <= i < |xs| ==> (p(xs[i]) ==> !q(xs[i]))
    ensures Count(xs, p) + Count(xs, q) <= |xs|
    decreases |xs|
  {
    if xs != [] {
      CountSplit(xs[..|xs| - 1], p, q);
    }
  }

  /** `sum(f(x) for x in xs)`. */
  function Sum<T>(xs: seq<T>, f: T -> int): int
    decreases |xs|
  {
    if xs == [] then 0 else Sum(xs[..|xs| - 1], f) + f(xs[|xs| - 1])
  }

  lemma SumAppend<T>(xs: seq<T>, x: T, f: T -> int)
    ensures Sum(xs + [x], f) == Sum(xs, f) + f(x)
  {
    assert (xs + [x])[..|xs|] == xs;
  }

  /** A sum of terms between 0 and 1 counts the terms equal to 1. */
  lemma {:induction false} SumOfIndicators<T>(xs: seq<T>, p: T -> bool)
    ensures Sum(xs, x => if p(x) then 1 else 0) == Count(xs, p)
    decreases |xs|
  {
    if xs != [] {
      SumOfIndicators(xs[..|xs| - 1], p);
    }
  }

  // ---------------------------------------------------------------------
  // sorting

  predicate SortedDesc<T>(xs: seq<T>, key: T -> int) {
    forall i, j :: 0 <= i < j < |xs| ==> key(xs[i]) >= key(xs[j])
  }

  /** Inserts `x` after every element whose key is at least its own. */
  function Insert<T>(x: T, ys: seq<T>, key: T -> int): (r: seq<T>)
    ensures |r| == |ys| + 1
    decreases |ys|
  {
    if ys == [] then [x]
    else if key(ys[0]) >= key(x) then [ys[0]] + Insert(x, ys[1..], key)
    else [x] + ys
  }

  /** `sorted(xs, key=key, reverse=True)`: by key, largest first; elements
      with equal keys keep their order. */
  function SortDesc<T>(xs: seq<T>, key: T -> int): (r: seq<T>)
    ensures |r| == |xs|
    decreases |xs|
  {
    if xs == [] then [] else Insert(xs[|xs| - 1], SortDesc(xs[..|xs| - 1], key), key)
  }

  lemma {:induction false} InsertMultiset<T>(x: T, ys: seq<T>, key: T -> int)
    ensures multiset(Insert(x, ys, key)) == multiset(ys) + multiset{x}
    decreases |ys|
  {
    if ys != [] && key(ys[0]) >= key(x) {
      InsertMultiset(x, ys[1..], key);
      assert ys == [ys[0]] + ys[1..];
    }
  }

  /** A bound on every key of `x` and `ys` bounds every key of the result. */
  lemma {:induction false} InsertBound<T>(x: T, ys: seq<T>, key: T -> int, b: int)
    requires key(x) <= b && forall i :: 0 <= i < |ys| ==> key(ys[i]) <= b
    ensures forall i :: 0 <= i < |Insert(x, ys, key)| ==> key(Insert(x, ys, key)[i]) <= b
    decreases |ys|
  {
    if ys != [] && key(ys[0]) >= key(x) {
      InsertBound(x, ys[1..], key, b);
      var r := Insert(x, ys[1..], key);
      assert Insert(x, ys, key) == [ys[0]] + r;
    }
  }

  lemma {:induction false} InsertKeeps<T>(x: T, ys: seq<T>, key: T -> int)
    requires SortedDesc(ys, key)
    ensures SortedDesc(Insert(x, ys, key), key)
    ensures multiset(Insert(x, ys, key)) == multiset(ys) + multiset{x}
    decreases |ys|
  {
    InsertMultiset(x, ys, key);
    if ys != [] && key(ys[0]) >= key(x) {
      var r := Insert(x, ys[1..], key);
      InsertKeeps(x, ys[1..], key);
      InsertBound(x, ys[1..], key, key(ys[0]));
      var z := [ys[0]] + r;
      assert Insert(x, ys, key) == z;
      forall i, j | 0 <= i < j < |z| ensures key(z[i]) >= key(z[j]) {
        assert z[j] == r[j - 1];
        if i > 0 {
          assert z[i] == r[i - 1];
        }
      }
    } else if ys != [] {
      var z := [x] + ys;
      assert Insert(x, ys, key) == z;
      forall i, j | 0 <= i < j < |z| ensures key(z[i]) >= key(z[j]) {
        assert z[j] == ys[j - 1];
        if i > 0 {
          assert z[i] == ys[i - 1];
        } else {
          assert key(ys[0]) >= key(ys[j - 1]);
        }
      }
    }
  }

  /** The sorted list is ordered by key, largest first, and holds the same
      elements as many times as the input. */
  lemma {:induction false} SortDescCorrect<T>(xs: seq<T>, key: T -> int)
    ensures SortedDesc(SortDesc(xs, key), key)
    ensures multiset(SortDesc(xs, key)) == multiset(xs)
    decreases |xs|
  {
    if xs != [] {
      var init := xs[..|xs| - 1];
      SortDescCorrect(init, key);
      InsertKeeps(xs[|xs| - 1], SortDesc(init, key), key);
      assert xs == init + [xs[|xs| - 1]];
    }
  }
}
