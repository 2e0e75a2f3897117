/**
 * A stable sort by a real-valued key, the behaviour of `Collections.sort`
 * (a stable merge sort) under a comparator that compares keys.
 */
module Sorting {

  /** An item tagged with the key it is sorted by. */
  datatype Keyed<T> = Keyed(key: real, item: T)

  ghost predicate SortedByKey<T>(s: seq<Keyed<T>>)
  {
    forall i, j :: 0 <= i < j < |s| ==> s[i].key <= s[j].key
  }

  /** The entries of `s` whose key is exactly `k`, in their order. */
  function WithKey<T>(s: seq<Keyed<T>>, k: real): seq<Keyed<T>>
  {
    if s == [] then []
    else WithKey(s[..|s| - 1], k) + (if s[|s| - 1].key == k then [s[|s| - 1]] else [])
  }

  /** The items of a keyed sequence, keys dropped. */
  function Items<T>(s: seq<Keyed<T>>): (r: seq<T>)
    ensures |r| == |s|
    ensures forall i :: 0 <= i < |s| ==> r[i] == s[i].item
  {
    seq(|s|, i requires 0 <= i < |s| => s[i].item)
  }

  /** Puts `x` right after the last entry of `s` whose key is at most `x.key`. */
  function Insert<T>(x: Keyed<T>, s: seq<Keyed<T>>): (r: seq<Keyed<T>>)
    ensures multiset(r) == multiset(s) + multiset{x}
    ensures |r| == |s| + 1
  {
    if s == [] || s[|s| - 1].key <= x.key then s + [x]
    else
      var n := |s| - 1;
      assert s == s[..n] + [s[n]];
      Insert(x, s[..n]) + [s[n]]
  }

  /** Sorts by inserting the entries one by one, first to last. */
  function InsertionSort<T>(s: seq<Keyed<T>>): (r: seq<Keyed<T>>)
    ensures multiset(r) == multiset(s)
    ensures |r| == |s|
  {
    if s == [] then []
    else
      var n := |s| - 1;
      assert s == s[..n] + [s[n]];
      Insert(s[n], InsertionSort(s[..n]))
  }

  lemma {:induction false} InsertSorted<T>(x: Keyed<T>, s: seq<Keyed<T>>)
    requires SortedByKey(s)
    ensures SortedByKey(Insert(x, s))
  {
    if s == [] || s[|s| - 1].key <= x.key {
    } else {
      var n := |s| - 1;
      InsertSorted(x, s[..n]);
      forall e | e in s[..n]
        ensures e.key <= s[n].key
      {
        var j :| 0 <= j < n && s[..n][j] == e;
      }
      InsertBounded(x, s[..n], s[n].key);
      SortedSnoc(Insert(x, s[..n]), s[n]);
    }
  }

  /** Inserting an entry keyed at most `b` into entries keyed at most `b`. */
  lemma InsertBounded<T>(x: Keyed<T>, t: seq<Keyed<T>>, b: real)
    requires x.key <= b && forall e :: e in t ==> e.key <= b
    ensures forall e :: e in Insert(x, t) ==> e.key <= b
  {
    forall e | e in Insert(x, t)
      ensures e.key <= b
    {
      assert e in multiset(Insert(x, t));
      if e != x {
        assert e in multiset(t);
      }
    }
  }

  /** An entry whose key bounds every key of a sorted sequence may follow it. */
  lemma SortedSnoc<T>(r: seq<Keyed<T>>, y: Keyed<T>)
    requires SortedByKey(r) && forall e :: e in r ==> e.key <= y.key
    ensures SortedByKey(r + [y])
  {
    forall i, j | 0 <= i < j < |r| + 1
      ensures (r + [y])[i].key <= (r + [y])[j].key
    {
      if j == |r| {
        assert (r + [y])[i] == r[i];
      }
    }
  }

  /** The result is ordered by key. */
  lemma {:induction false} InsertionSortSorted<T>(s: seq<Keyed<T>>)
    ensures SortedByKey(InsertionSort(s))
  {
    if s != [] {
      var n := |s| - 1;
      InsertionSortSorted(s[..n]);
      InsertSorted(s[n], InsertionSort(s[..n]));
    }
  }

  lemma {:induction false} WithKeyAppend<T>(s: seq<Keyed<T>>, t: seq<Keyed<T>>, k: real)
    ensures WithKey(s + t, k) == WithKey(s, k) + WithKey(t, k)
    decreases |t|
  {
    if t == [] {
      assert s + t == s;
    } else {
      var n := |t| - 1;
      WithKeyAppend(s, t[..n], k);
      assert (s + t)[..|s| + n] == s + t[..n];
    }
  }

  lemma {:induction false} InsertWithKey<T>(x: Keyed<T>, s: seq<Keyed<T>>, k: real)
    ensures WithKey(Insert(x, s), k) == WithKey(s, k) + (if x.key == k then [x] else [])
  {
    if s == [] || s[|s| - 1].key <= x.key {
      assert (s + [x])[..|s|] == s;
    } else {
      var n := |s| - 1;
      InsertWithKey(x, s[..n], k);
      var r := Insert(x, s[..n]);
      assert (r + [s[n]])[..|r|] == r;
      assert s[..n] + [s[n]] == s;
      WithKeyAppend(s[..n], [s[n]], k);
    }
  }

  /**
   * Stability: for every key, the entries with that key appear in the
   * result in the same order as in the input.
   */
  lemma {:induction false} InsertionSortStable<T>(s: seq<Keyed<T>>, k: real)
    ensures WithKey(InsertionSort(s), k) == WithKey(s, k)
  {
    if s != [] {
      var n := |s| - 1;
      InsertionSortStable(s[..n], k);
      InsertWithKey(s[n], InsertionSort(s[..n]), k);
    }
  }

  lemma ItemsAppend<T>(a: seq<Keyed<T>>, b: seq<Keyed<T>>)
    ensures Items(a + b) == Items(a) + Items(b)
  {
  }

  /** Rearranging the entries rearranges their items the same way. */
  lemma {:induction false} ItemsPermutation<T>(r: seq<Keyed<T>>, s: seq<Keyed<T>>)
    requires multiset(r) == multiset(s)
    ensures multiset(Items(r)) == multiset(Items(s))
    decreases |s|
  {
    if s == [] {
      assert |multiset(r)| == 0;
    } else {
      var n := |s| - 1;
      var x := s[n];
      assert s == s[..n] + [x];
      assert x in multiset(r);
      var j :| 0 <= j < |r| && r[j] == x;
      var front, back := r[..j], r[j + 1..];
      assert r == front + [x] + back;
      assert multiset(r) == multiset(front) + multiset{x} + multiset(back);
      assert multiset(s) == multiset(s[..n]) + multiset{x};
      assert multiset(front + back) == multiset(front) + multiset(back);
      assert multiset(front + back) == multiset(r) - multiset{x};
      assert multiset(s[..n]) == multiset(s) - multiset{x};
      ItemsPermutation(front + back, s[..n]);
      ItemsAppend(front, back);
      ItemsAppend(front + [x], back);
      ItemsAppend(front, [x]);
      ItemsAppend(s[..n], [x]);
    }
  }
}
