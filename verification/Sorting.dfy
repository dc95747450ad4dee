/** A stable sort by an integer key, standing for `Array.prototype.sort` with a key comparison. */
module Sorting {
  import opened Common
  import opened Numerals

  predicate Sorted<T>(key: T -> int, xs: seq<T>) {
    forall i, j :: 0 <= i < j < |xs| ==> key(xs[i]) <= key(xs[j])
  }

  /** Insert after every element whose key is not larger. */
  function Insert<T>(key: T -> int, xs: seq<T>, x: T): seq<T> {
    if xs == [] then [x]
    else if key(xs[|xs| - 1]) <= key(x) then xs + [x]
    else Insert(key, xs[..|xs| - 1], x) + [xs[|xs| - 1]]
  }

  function Sort<T>(key: T -> int, xs: seq<T>): seq<T> {
    if xs == [] then [] else Insert(key, Sort(key, xs[..|xs| - 1]), xs[|xs| - 1])
  }

  /** The elements with one key, in order. */
  function WithKey<T>(key: T -> int, xs: seq<T>, k: int): seq<T> {
    if xs == [] then [] else
      var rest := WithKey(key, xs[..|xs| - 1], k);
      if key(xs[|xs| - 1]) == k then rest + [xs[|xs| - 1]] else rest
  }

  lemma WithKeySnoc<T>(key: T -> int, xs: seq<T>, x: T, k: int)
    ensures WithKey(key, xs + [x], k) == if key(x) == k then WithKey(key, xs, k) + [x] else WithKey(key, xs, k)
  {
    assert (xs + [x])[..|xs|] == xs;
  }

  predicate AtMost<T>(key: T -> int, xs: seq<T>, m: int) {
    forall i :: 0 <= i < |xs| ==> key(xs[i]) <= m
  }

  lemma {:induction false} InsertAtMost<T>(key: T -> int, xs: seq<T>, x: T, m: int)
    requires AtMost(key, xs, m) && key(x) <= m
    ensures AtMost(key, Insert(key, xs, x), m)
  {
    if xs != [] && key(xs[|xs| - 1]) > key(x) {
      InsertAtMost(key, xs[..|xs| - 1], x, m);
    }
  }

  lemma SortedSnoc<T>(key: T -> int, xs: seq<T>, x: T)
    requires Sorted(key, xs) && AtMost(key, xs, key(x))
    ensures Sorted(key, xs + [x])
  {
  }

  lemma {:induction false} InsertSorted<T>(key: T -> int, xs: seq<T>, x: T)
    requires Sorted(key, xs)
    ensures Sorted(key, Insert(key, xs, x))
  {
    if xs == [] {
    } else {
      var init, last := xs[..|xs| - 1], xs[|xs| - 1];
      assert AtMost(key, init, key(last));
      if key(last) <= key(x) {
        SortedSnoc(key, xs, x);
      } else {
        InsertSorted(key, init, x);
        InsertAtMost(key, init, x, key(last));
        SortedSnoc(key, Insert(key, init, x), last);
      }
    }
  }

  lemma {:induction false} InsertMultiset<T>(key: T -> int, xs: seq<T>, x: T)
    ensures multiset(Insert(key, xs, x)) == multiset(xs) + multiset{x}
  {
    if xs != [] && key(xs[|xs| - 1]) > key(x) {
      InsertMultiset(key, xs[..|xs| - 1], x);
      assert xs == xs[..|xs| - 1] + [xs[|xs| - 1]];
    }
  }

  lemma {:induction false} InsertStable<T>(key: T -> int, xs: seq<T>, x: T, k: int)
    ensures key(x) != k ==> WithKey(key, Insert(key, xs, x), k) == WithKey(key, xs, k)
    ensures Sorted(key, xs) && key(x) == k ==> WithKey(key, Insert(key, xs, x), k) == WithKey(key, xs, k) + [x]
  {
    if xs == [] {
      WithKeySnoc(key, [], x, k);
      assert [] + [x] == [x];
    } else if key(xs[|xs| - 1]) <= key(x) {
      WithKeySnoc(key, xs, x, k);
    } else {
      var init, last := xs[..|xs| - 1], xs[|xs| - 1];
      InsertStable(key, init, x, k);
      WithKeySnoc(key, Insert(key, init, x), last, k);
    }
  }

  /** Sorting gives a sorted permutation. */
  lemma {:induction false} SortPermutes<T>(key: T -> int, xs: seq<T>)
    ensures Sorted(key, Sort(key, xs)) && multiset(Sort(key, xs)) == multiset(xs)
    ensures |Sort(key, xs)| == |xs|
  {
    if xs == [] {
    } else {
      var init, x := xs[..|xs| - 1], xs[|xs| - 1];
      SortPermutes(key, init);
      InsertSorted(key, Sort(key, init), x);
      InsertMultiset(key, Sort(key, init), x);
      assert xs == init + [x];
      assert |multiset(Sort(key, xs))| == |Sort(key, xs)| && |multiset(xs)| == |xs|;
    }
  }

  /** Elements with equal keys keep their order. */
  lemma {:induction false} SortStable<T>(key: T -> int, xs: seq<T>, k: int)
    ensures WithKey(key, Sort(key, xs), k) == WithKey(key, xs, k)
  {
    if xs == [] {
    } else {
      var init, x := xs[..|xs| - 1], xs[|xs| - 1];
      SortStable(key, init, k);
      SortPermutes(key, init);
      InsertStable(key, Sort(key, init), x, k);
    }
  }

  predicate Descending<T>(key: T -> int, xs: seq<T>) {
    forall i, j :: 0 <= i < j < |xs| ==> key(xs[i]) > key(xs[j])
  }

  lemma {:induction false} InsertFront<T>(key: T -> int, xs: seq<T>, x: T)
    requires forall i :: 0 <= i < |xs| ==> key(xs[i]) > key(x)
    ensures Insert(key, xs, x) == [x] + xs
  {
    if xs == [] {
    } else {
      InsertFront(key, xs[..|xs| - 1], x);
      assert [x] + xs[..|xs| - 1] + [xs[|xs| - 1]] == [x] + xs;
    }
  }

  /** A strictly descending sequence is sorted by reversing it. */
  lemma {:induction false} SortReverses<T>(key: T -> int, xs: seq<T>)
    requires Descending(key, xs)
    ensures Sort(key, xs) == Reverse(xs)
  {
    if xs == [] {
    } else {
      var init, x := xs[..|xs| - 1], xs[|xs| - 1];
      SortReverses(key, init);
      InsertFront(key, Reverse(init), x);
      assert Reverse(xs) == [x] + Reverse(init);
    }
  }

  // ---- Distinct keys and sums -------------------------------------------------------------

  predicate Ascending<T>(key: T -> int, xs: seq<T>) {
    forall i, j :: 0 <= i < j < |xs| ==> key(xs[i]) < key(xs[j])
  }

  predicate DistinctKeys<T>(key: T -> int, xs: seq<T>) {
    forall i, j :: 0 <= i < j < |xs| ==> key(xs[i]) != key(xs[j])
  }

  predicate Avoids<T>(key: T -> int, xs: seq<T>, k: int) {
    forall i :: 0 <= i < |xs| ==> key(xs[i]) != k
  }

  lemma {:induction false} InsertAvoids<T>(key: T -> int, xs: seq<T>, x: T, k: int)
    requires Avoids(key, xs, k) && key(x) != k
    ensures Avoids(key, Insert(key, xs, x), k)
  {
    if xs != [] && key(xs[|xs| - 1]) > key(x) {
      InsertAvoids(key, xs[..|xs| - 1], x, k);
    }
  }

  lemma {:induction false} SortAvoids<T>(key: T -> int, xs: seq<T>, k: int)
    requires Avoids(key, xs, k)
    ensures Avoids(key, Sort(key, xs), k)
  {
    if xs == [] {
    } else {
      SortAvoids(key, xs[..|xs| - 1], k);
      InsertAvoids(key, Sort(key, xs[..|xs| - 1]), xs[|xs| - 1], k);
    }
  }

  lemma AscendingSnoc<T>(key: T -> int, xs: seq<T>, x: T)
    requires Ascending(key, xs) && AtMost(key, xs, key(x) - 1)
    ensures Ascending(key, xs + [x])
  {
  }

  lemma AscendingLast<T>(key: T -> int, xs: seq<T>, k: int)
    requires xs != [] && Ascending(key, xs) && key(xs[|xs| - 1]) <= k && Avoids(key, xs, k)
    ensures AtMost(key, xs, k - 1)
  {
  }

  lemma {:induction false} InsertAscending<T>(key: T -> int, xs: seq<T>, x: T)
    requires Ascending(key, xs) && Avoids(key, xs, key(x))
    ensures Ascending(key, Insert(key, xs, x))
  {
    if xs == [] {
    } else {
      var init, last := xs[..|xs| - 1], xs[|xs| - 1];
      if key(last) <= key(x) {
        AscendingLast(key, xs, key(x));
        AscendingSnoc(key, xs, x);
      } else {
        InsertAscending(key, init, x);
        InsertAtMost(key, init, x, key(last) - 1);
        AscendingSnoc(key, Insert(key, init, x), last);
      }
    }
  }

  /** Distinct keys come out strictly ascending. */
  lemma {:induction false} SortAscending<T>(key: T -> int, xs: seq<T>)
    requires DistinctKeys(key, xs)
    ensures Ascending(key, Sort(key, xs))
  {
    if xs == [] {
    } else {
      var init, x := xs[..|xs| - 1], xs[|xs| - 1];
      SortAscending(key, init);
      SortAvoids(key, init, key(x));
      InsertAscending(key, Sort(key, init), x);
    }
  }

  lemma {:induction false} InsertSum<T>(key: T -> int, f: T -> int, xs: seq<T>, x: T)
    ensures SumBy(f, Insert(key, xs, x)) == SumBy(f, xs) + f(x)
  {
    if xs == [] {
      SumBySnoc(f, [], x);
      assert [] + [x] == [x];
    } else if key(xs[|xs| - 1]) <= key(x) {
      SumBySnoc(f, xs, x);
    } else {
      InsertSum(key, f, xs[..|xs| - 1], x);
      SumBySnoc(f, Insert(key, xs[..|xs| - 1], x), xs[|xs| - 1]);
    }
  }

  lemma {:induction false} SortSum<T>(key: T -> int, f: T -> int, xs: seq<T>)
    ensures SumBy(f, Sort(key, xs)) == SumBy(f, xs)
  {
    if xs == [] {
    } else {
      SortSum(key, f, xs[..|xs| - 1]);
      InsertSum(key, f, Sort(key, xs[..|xs| - 1]), xs[|xs| - 1]);
    }
  }
}
