/** Subsequences: what filtering keeps, how often and in which order. */
module Sequences {

  /** `Vec::retain`: the elements that satisfy `keep`, in their original order. */
  function Filter<T>(s: seq<T>, keep: T -> bool): seq<T> {
    if s == [] then []
    else Filter(s[..|s| - 1], keep) + (if keep(s[|s| - 1]) then [s[|s| - 1]] else [])
  }

  lemma {:induction false} FilterExact<T>(s: seq<T>, keep: T -> bool)
    ensures forall x :: x in Filter(s, keep) <==> x in s && keep(x)
  {
    if s != [] {
      FilterExact(s[..|s| - 1], keep);
      assert s == s[..|s| - 1] + [s[|s| - 1]];
    }
  }

  lemma {:induction false} FilterAll<T>(s: seq<T>, keep: T -> bool)
    requires forall x :: x in s ==> keep(x)
    ensures Filter(s, keep) == s
  {
    if s != [] {
      assert s == s[..|s| - 1] + [s[|s| - 1]];
      FilterAll(s[..|s| - 1], keep);
    }
  }

  lemma {:induction false} FilterSame<T>(s: seq<T>, p: T -> bool, q: T -> bool)
    requires forall x :: x in s ==> p(x) == q(x)
    ensures Filter(s, p) == Filter(s, q)
  {
    if s != [] {
      assert s == s[..|s| - 1] + [s[|s| - 1]];
      FilterSame(s[..|s| - 1], p, q);
    }
  }

  lemma {:induction false} FilterCounts<T>(s: seq<T>, keep: T -> bool, x: T)
    ensures multiset(Filter(s, keep))[x] == if keep(x) then multiset(s)[x] else 0
  {
    if s != [] {
      var front, last := s[..|s| - 1], s[|s| - 1];
      assert s == front + [last];
      FilterCounts(front, keep, x);
    }
  }

  /** `idx` picks the elements of `part` out of `whole`, in order. */
  predicate Picks<T(==)>(part: seq<T>, whole: seq<T>, idx: seq<nat>) {
    && |idx| == |part|
    && (forall i :: 0 <= i < |idx| ==> idx[i] < |whole| && whole[idx[i]] == part[i])
    && (forall i, j :: 0 <= i < j < |idx| ==> idx[i] < idx[j])
  }

  ghost predicate Subsequence<T>(part: seq<T>, whole: seq<T>) {
    exists idx: seq<nat> :: Picks(part, whole, idx)
  }

  lemma {:induction false} SubsequenceSnoc<T>(part: seq<T>, front: seq<T>, x: T)
    requires Subsequence(part, front)
    ensures Subsequence(part, front + [x]) && Subsequence(part + [x], front + [x])
  {
    var idx: seq<nat> :| Picks(part, front, idx);
    assert Picks(part, front + [x], idx);
    assert Picks(part + [x], front + [x], idx + [|front|]);
  }

  lemma {:induction false} SubsequenceTransitive<T>(a: seq<T>, b: seq<T>, c: seq<T>)
    requires Subsequence(a, b) && Subsequence(b, c)
    ensures Subsequence(a, c)
  {
    var i: seq<nat> :| Picks(a, b, i);
    var j: seq<nat> :| Picks(b, c, j);
    assert Picks(a, c, seq(|i|, k requires 0 <= k < |i| => j[i[k]]));
  }

  lemma {:induction false} FilterIsSubsequence<T>(s: seq<T>, keep: T -> bool)
    ensures Subsequence(Filter(s, keep), s)
  {
    if s == [] {
      assert Picks(Filter(s, keep), s, []);
    } else {
      var front, last := s[..|s| - 1], s[|s| - 1];
      assert s == front + [last];
      FilterIsSubsequence(front, keep);
      SubsequenceSnoc(Filter(front, keep), front, last);
      assert Filter(s, keep) == if keep(last) then Filter(front, keep) + [last] else Filter(front, keep);
    }
  }
}
