/**
  Ordering of document identifiers.

  A document-store query without an explicit ordering returns its documents in
  ascending order of document id, comparing ids character by character. This
  module defines that order on strings and the sorted listing of a finite set of
  ids, which the store uses to turn a map of documents into a query result list.
 */
module Order {

  /** `a` sorts at or before `b`: lexicographic order on characters. */
  predicate Below(a: string, b: string)
  {
    |a| == 0 || (|b| > 0 && (a[0] < b[0] || (a[0] == b[0] && Below(a[1..], b[1..]))))
  }

  /** `a` sorts strictly before `b`. */
  predicate Less(a: string, b: string)
  {
    Below(a, b) && a != b
  }

  /** Every element sorts strictly before every later one (so no duplicates). */
  predicate Ascending(r: seq<string>)
  {
    forall i, j :: 0 <= i < j < |r| ==> Less(r[i], r[j])
  }

  lemma {:induction false} BelowReflexive(a: string)
    ensures Below(a, a)
  {
    if |a| > 0 {
      BelowReflexive(a[1..]);
    }
  }

  lemma {:induction false} BelowAntisymmetric(a: string, b: string)
    requires Below(a, b) && Below(b, a)
    ensures a == b
  {
    if |a| > 0 && |b| > 0 {
      BelowAntisymmetric(a[1..], b[1..]);
      assert a == [a[0]] + a[1..];
      assert b == [b[0]] + b[1..];
    }
  }

  lemma {:induction false} BelowTransitive(a: string, b: string, c: string)
    requires Below(a, b) && Below(b, c)
    ensures Below(a, c)
  {
    if |a| > 0 && |b| > 0 && |c| > 0 && a[0] == b[0] == c[0] {
      BelowTransitive(a[1..], b[1..], c[1..]);
    }
  }

  lemma {:induction false} BelowTotal(a: string, b: string)
    ensures Below(a, b) || Below(b, a)
  {
    if |a| > 0 && |b| > 0 && a[0] == b[0] {
      BelowTotal(a[1..], b[1..]);
    }
  }

  /** A non-empty finite set of ids has a least element. */
  lemma {:induction false} LeastExists(s: set<string>)
    requires s != {}
    ensures exists m :: m in s && forall x :: x in s ==> Below(m, x)
    decreases s
  {
    var x :| x in s;
    if s == {x} {
      BelowReflexive(x);
      assert forall y :: y in s ==> Below(x, y);
    } else {
      LeastExists(s - {x});
      var m :| m in s - {x} && forall y :: y in s - {x} ==> Below(m, y);
      BelowTotal(m, x);
      if Below(m, x) {
        assert forall y :: y in s ==> Below(m, y);
      } else {
        forall y | y in s
          ensures Below(x, y)
        {
          if y == x {
            BelowReflexive(x);
          } else {
            BelowTransitive(x, m, y);
          }
        }
      }
    }
  }

  /** The least id of a non-empty set. */
  function Least(s: set<string>): (m: string)
    requires s != {}
    ensures m in s
    ensures forall x :: x in s ==> Below(m, x)
  {
    LeastExists(s);
    assert forall a, b :: a in s && b in s && Below(a, b) && Below(b, a) ==> a == b by {
      forall a, b | a in s && b in s && Below(a, b) && Below(b, a)
        ensures a == b
      {
        BelowAntisymmetric(a, b);
      }
    }
    var m :| m in s && forall x :: x in s ==> Below(m, x);
    m
  }

  /** The ids of `s` listed in ascending order, each exactly once. */
  function SortedKeys(s: set<string>): (r: seq<string>)
    ensures Ascending(r)
    ensures forall k :: k in r <==> k in s
    ensures |r| == |s|
    decreases s
  {
    if s == {} then []
    else
      var m := Least(s);
      var rest := SortedKeys(s - {m});
      assert forall k :: k in rest ==> Less(m, k);
      [m] + rest
  }

  /** An ascending list stays ascending when an id below all of its elements is put in front. */
  lemma {:induction false} AscendingCons(x: string, rest: seq<string>)
    requires Ascending(rest)
    requires forall k :: k in rest ==> Less(x, k)
    ensures Ascending([x] + rest)
  {
    var r := [x] + rest;
    forall i, j | 0 <= i < j < |r|
      ensures Less(r[i], r[j])
    {
      if i > 0 {
        assert r[i] == rest[i - 1] && r[j] == rest[j - 1];
      } else {
        assert r[j] in rest;
      }
    }
  }

  /** The tail of an ascending list is ascending, and its head is below every later element. */
  lemma {:induction false} AscendingTail(s: seq<string>)
    requires Ascending(s) && |s| > 0
    ensures Ascending(s[1..])
    ensures forall k :: k in s[1..] ==> Less(s[0], k)
    ensures forall k :: k in s[1..] <==> k in s && k != s[0]
  {
    forall i, j | 0 <= i < j < |s[1..]|
      ensures Less(s[1..][i], s[1..][j])
    {
      assert s[1..][i] == s[i + 1] && s[1..][j] == s[j + 1];
    }
    forall k | k in s[1..]
      ensures Less(s[0], k)
    {
      var j :| 0 <= j < |s[1..]| && s[1..][j] == k;
      assert s[j + 1] == k;
    }
    forall k | k in s && k != s[0]
      ensures k in s[1..]
    {
      var j :| 0 <= j < |s| && s[j] == k;
      assert s[1..][j - 1] == k;
    }
  }

  lemma {:induction false} NothingInEmpty(b: seq<string>)
    requires forall k :: k !in b
    ensures b == []
  {
    if |b| > 0 {
      HeadIsElement(b);
      assert false;
    }
  }

  lemma {:induction false} HeadIsElement(b: seq<string>)
    requires |b| > 0
    ensures b[0] in b
  {
  }

  /** Two ascending listings of the same ids are the same listing. */
  lemma {:induction false} AscendingUnique(a: seq<string>, b: seq<string>)
    requires Ascending(a) && Ascending(b)
    requires forall k :: k in a <==> k in b
    ensures a == b
    decreases |a|
  {
    if |a| == 0 {
      assert forall k :: k !in b;
      NothingInEmpty(b);
    } else {
      assert a[0] in b;
      assert b[0] in a;
      assert |b| > 0;
      if a[0] != b[0] {
        var j :| 0 <= j < |b| && b[j] == a[0];
        var i :| 0 <= i < |a| && a[i] == b[0];
        assert Less(b[0], a[0]) && Less(a[0], b[0]);
        BelowAntisymmetric(a[0], b[0]);
      }
      AscendingTail(a);
      AscendingTail(b);
      AscendingUnique(a[1..], b[1..]);
      assert a == [a[0]] + a[1..];
      assert b == [b[0]] + b[1..];
    }
  }
}
