/**
 Order-preserving filtering of sequences, the Dafny counterpart of
 `Array.prototype.filter`, with the facts the roster and draw modules need.
 */
module Seqs {

  /** `a` can be obtained from `b` by deleting elements, keeping the order. */
  predicate IsSubsequence<T(==)>(a: seq<T>, b: seq<T>)
    decreases |b|
  {
    if |a| == 0 then true
    else if |b| == 0 then false
    else (a[0] == b[0] && IsSubsequence(a[1..], b[1..])) || IsSubsequence(a, b[1..])
  }

  /** The positions of `s` whose element satisfies `p`: an independent way to count. */
  function IndicesWhere<T>(s: seq<T>, p: T -> bool): set<int>
  {
    set i | 0 <= i < |s| && p(s[i])
  }

  /** The elements of `s` satisfying `p`, in their original order. */
  function Filter<T(==)>(s: seq<T>, p: T -> bool): (r: seq<T>)
    ensures |r| <= |s|
    ensures forall x :: x in r ==> x in s && p(x)
    ensures forall x :: x in s && p(x) ==> x in r
    ensures forall x :: x in s ==> multiset(r)[x] == if p(x) then multiset(s)[x] else 0
    ensures IsSubsequence(r, s)
  {
    if |s| == 0 then []
    else
      assert s == [s[0]] + s[1..];
      var rest := Filter(s[1..], p);
      if p(s[0]) then [s[0]] + rest else rest
  }

  lemma {:induction false} FilterAppend<T>(a: seq<T>, b: seq<T>, p: T -> bool)
    ensures Filter(a + b, p) == Filter(a, p) + Filter(b, p)
    decreases |a|
  {
    if |a| == 0 {
      assert a + b == b;
    } else {
      assert (a + b)[1..] == a[1..] + b;
      FilterAppend(a[1..], b, p);
    }
  }

  /** The positions of `t + [x]` satisfying `p` are those of `t`, plus `|t|` when `p(x)`. */
  lemma IndicesWhereSnoc<T>(t: seq<T>, x: T, p: T -> bool)
    ensures IndicesWhere(t + [x], p) == IndicesWhere(t, p) + (if p(x) then {|t|} else {})
  {
    var s := t + [x];
    forall i | i in IndicesWhere(s, p)
      ensures i in IndicesWhere(t, p) + (if p(x) then {|t|} else {})
    {
      if i < |t| {
        assert s[i] == t[i];
      }
    }
    forall i | i in IndicesWhere(t, p)
      ensures i in IndicesWhere(s, p)
    {
      assert s[i] == t[i];
    }
  }

  /** The length of a filtered sequence is the number of positions satisfying the predicate. */
  lemma {:induction false} FilterLengthCountsIndices<T>(s: seq<T>, p: T -> bool)
    ensures |Filter(s, p)| == |IndicesWhere(s, p)|
    decreases |s|
  {
    if |s| == 0 {
      assert IndicesWhere(s, p) == {};
    } else {
      var t := s[..|s| - 1];
      var x := s[|s| - 1];
      assert s == t + [x];
      FilterAppend(t, [x], p);
      assert |Filter(s, p)| == |Filter(t, p)| + |Filter([x], p)|;
      FilterLengthCountsIndices(t, p);
      IndicesWhereSnoc(t, x, p);
      var last := if p(x) then {|t|} else {};
      assert |Filter([x], p)| == |last|;
      assert IndicesWhere(t, p) !! last;
    }
  }

  /** Filtering by a weaker predicate keeps at least as many elements. */
  lemma {:induction false} FilterMonotone<T>(s: seq<T>, p: T -> bool, q: T -> bool)
    requires forall x :: p(x) ==> q(x)
    ensures |Filter(s, p)| <= |Filter(s, q)|
    decreases |s|
  {
    if |s| > 0 {
      FilterMonotone(s[1..], p, q);
    }
  }

  /** Filtering twice is filtering once by the conjunction. */
  lemma {:induction false} FilterFilter<T>(s: seq<T>, p: T -> bool, q: T -> bool, both: T -> bool)
    requires forall x :: both(x) == (p(x) && q(x))
    ensures Filter(Filter(s, p), q) == Filter(s, both)
    decreases |s|
  {
    if |s| > 0 {
      FilterFilter(s[1..], p, q, both);
      var rest := Filter(s[1..], p);
      if p(s[0]) {
        assert Filter(s, p) == [s[0]] + rest;
        assert ([s[0]] + rest)[1..] == rest;
      }
    }
  }

  /** Every element satisfies `p` or its negation, and never both. */
  lemma {:induction false} FilterPartition<T>(s: seq<T>, p: T -> bool, notP: T -> bool)
    requires forall x :: notP(x) == !p(x)
    ensures |Filter(s, p)| + |Filter(s, notP)| == |s|
    decreases |s|
  {
    if |s| > 0 {
      FilterPartition(s[1..], p, notP);
    }
  }

  /** A filter that rejects some element of `s` is strictly shorter than `s`. */
  lemma {:induction false} FilterDropsRejected<T>(s: seq<T>, p: T -> bool, x: T)
    requires x in s && !p(x)
    ensures |Filter(s, p)| < |s|
    decreases |s|
  {
    if s[0] != x {
      FilterDropsRejected(s[1..], p, x);
    }
  }

  /** A filter that keeps everything is the identity. */
  lemma {:induction false} FilterKeepsAll<T>(s: seq<T>, p: T -> bool)
    requires forall i :: 0 <= i < |s| ==> p(s[i])
    ensures Filter(s, p) == s
    decreases |s|
  {
    if |s| > 0 {
      assert s == [s[0]] + s[1..];
      FilterKeepsAll(s[1..], p);
    }
  }
}
