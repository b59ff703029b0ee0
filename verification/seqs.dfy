/**
  Order-preserving filtering of lists: the `filter` / `filterNot` of the
  source's collection library, and the subsequence relation it establishes.
 */
module Seqs {
  import Order

  /** `a` is obtained from `b` by deleting elements, keeping the rest in order. */
  predicate IsSubsequence<T(==)>(a: seq<T>, b: seq<T>)
    decreases |a| + |b|
  {
    |a| == 0 || (|b| > 0 && ((a[0] == b[0] && IsSubsequence(a[1..], b[1..])) || IsSubsequence(a, b[1..])))
  }

  /** The elements of `s` that satisfy `keep`, in their original order. */
  function Filter<T(==, !new)>(s: seq<T>, keep: T -> bool): (r: seq<T>)
    ensures forall x :: x in r <==> x in s && keep(x)
    ensures forall x :: multiset(r)[x] == if keep(x) then multiset(s)[x] else 0
    ensures |r| <= |s|
  {
    if |s| == 0 then []
    else
      assert s == [s[0]] + s[1..];
      (if keep(s[0]) then [s[0]] else []) + Filter(s[1..], keep)
  }

  lemma {:induction false} FilterIsSubsequence<T(!new)>(s: seq<T>, keep: T -> bool)
    ensures IsSubsequence(Filter(s, keep), s)
  {
    if |s| > 0 {
      FilterIsSubsequence(s[1..], keep);
      var rest := Filter(s[1..], keep);
      if keep(s[0]) {
        assert Filter(s, keep) == [s[0]] + rest;
        assert ([s[0]] + rest)[1..] == rest;
      } else {
        assert Filter(s, keep) == rest;
        assert IsSubsequence(rest, s[1..]);
      }
    }
  }

  /** Filtering an ascending list of ids keeps it ascending. */
  lemma {:induction false} FilterKeepsAscending(s: seq<string>, keep: string -> bool)
    requires Order.Ascending(s)
    ensures Order.Ascending(Filter(s, keep))
  {
    if |s| > 0 {
      Order.AscendingTail(s);
      FilterKeepsAscending(s[1..], keep);
      var rest := Filter(s[1..], keep);
      if keep(s[0]) {
        assert Filter(s, keep) == [s[0]] + rest;
        Order.AscendingCons(s[0], rest);
      } else {
        assert Filter(s, keep) == rest;
      }
    }
  }
}
