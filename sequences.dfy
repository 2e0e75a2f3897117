/** Order-preserving filtering of a sequence by a parallel mask of booleans. */
module Sequences {

  /** How many entries of the mask are true. */
  function CountTrue(keep: seq<bool>): (n: nat)
    ensures n <= |keep|
  {
    if keep == [] then 0
    else CountTrue(keep[..|keep| - 1]) + (if keep[|keep| - 1] then 1 else 0)
  }

  /** The elements of `s` whose mask entry is true, in their original order. */
  function Select<T>(s: seq<T>, keep: seq<bool>): (r: seq<T>)
    requires |keep| == |s|
    ensures |r| == CountTrue(keep)
  {
    if s == [] then []
    else
      var n := |s| - 1;
      Select(s[..n], keep[..n]) + (if keep[n] then [s[n]] else [])
  }

  /** Extending a prefix by one position adds that element when it is kept. */
  lemma SelectStep<T>(s: seq<T>, keep: seq<bool>, i: nat)
    requires |keep| == |s| && i < |s|
    ensures Select(s[..i + 1], keep[..i + 1]) == Select(s[..i], keep[..i]) + (if keep[i] then [s[i]] else [])
  {
    assert s[..i + 1][..i] == s[..i];
    assert keep[..i + 1][..i] == keep[..i];
  }

  /** One turn of a filtering loop: the element at `i` is appended when it is kept. */
  method SelectNext<T>(s: seq<T>, ghost keep: seq<bool>, i: nat, kept: bool, results: seq<T>) returns (results': seq<T>)
    requires |keep| == |s| && i < |s| && kept == keep[i]
    requires results == Select(s[..i], keep[..i])
    ensures results' == Select(s[..i + 1], keep[..i + 1])
  {
    SelectStep(s, keep, i);
    results' := if kept then results + [s[i]] else results;
  }

  /** Exactly the elements at kept positions survive. */
  lemma {:induction false} SelectMembership<T>(s: seq<T>, keep: seq<bool>, x: T)
    requires |keep| == |s|
    ensures x in Select(s, keep) <==> exists i :: 0 <= i < |s| && keep[i] && s[i] == x
  {
    if s != [] {
      var n := |s| - 1;
      SelectMembership(s[..n], keep[..n], x);
      if exists i :: 0 <= i < |s| && keep[i] && s[i] == x {
        var i :| 0 <= i < |s| && keep[i] && s[i] == x;
        if i < n {
          assert s[..n][i] == x && keep[..n][i];
        }
      }
    }
  }

  /** A mask that is true everywhere keeps everything; one that is false everywhere keeps nothing. */
  lemma {:induction false} SelectAllOrNone<T>(s: seq<T>, keep: seq<bool>)
    requires |keep| == |s|
    ensures (forall i :: 0 <= i < |keep| ==> keep[i]) ==> Select(s, keep) == s
    ensures (forall i :: 0 <= i < |keep| ==> !keep[i]) ==> Select(s, keep) == []
  {
    if s != [] {
      var n := |s| - 1;
      SelectAllOrNone(s[..n], keep[..n]);
      assert s[..n] + [s[n]] == s;
    }
  }

  /** Replacing the first element after a prefix. */
  lemma UpdateAfterPrefix<T>(a: seq<T>, b: seq<T>, x: T)
    requires b != []
    ensures (a + b)[|a|] == b[0]
    ensures (a + b)[|a| := x] == (a + [x]) + b[1..]
  {
  }

  /** No element occurs twice. */
  predicate Distinct<T(==)>(s: seq<T>)
  {
    forall i, j :: 0 <= i < j < |s| ==> s[i] != s[j]
  }

  lemma {:induction false} DistinctCountsOnce<T>(s: seq<T>, x: T)
    requires Distinct(s)
    ensures multiset(s)[x] <= 1
  {
    if s != [] {
      var n := |s| - 1;
      assert s == s[..n] + [s[n]];
      DistinctCountsOnce(s[..n], x);
      if s[n] == x {
        assert x !in s[..n];
      }
    }
  }

  lemma DuplicateCountsTwice<T>(t: seq<T>, i: nat, j: nat)
    requires i < j < |t| && t[i] == t[j]
    ensures multiset(t)[t[i]] >= 2
  {
    assert t == t[..j] + [t[j]] + t[j + 1..];
    assert t[..j][i] == t[i];
  }

  /** A rearrangement of a sequence without repetitions has none either. */
  lemma DistinctPermutation<T>(s: seq<T>, t: seq<T>)
    requires Distinct(s) && multiset(s) == multiset(t)
    ensures Distinct(t)
  {
    forall i, j | 0 <= i < j < |t|
      ensures t[i] != t[j]
    {
      if t[i] == t[j] {
        DuplicateCountsTwice(t, i, j);
        DistinctCountsOnce(s, t[i]);
      }
    }
  }
}
