/**
 * Orderings used by the queries' `orderBy` clauses: code-point lexicographic
 * order on strings, and a selection sort that lists a finite set in the order
 * of any total preorder.
 */
module Ordering {

  /** Strict lexicographic order on strings, comparing characters by code point. */
  predicate StrLess(a: string, b: string)
    decreases |a|
  {
    if |a| == 0 then |b| > 0
    else if |b| == 0 then false
    else a[0] < b[0] || (a[0] == b[0] && StrLess(a[1..], b[1..]))
  }

  /** StrLess or equal. */
  predicate StrLessEq(a: string, b: string)
  {
    a == b || StrLess(a, b)
  }

  lemma {:induction false} StrLessIrreflexive(a: string)
    ensures !StrLess(a, a)
    decreases |a|
  {
    if |a| > 0 {
      StrLessIrreflexive(a[1..]);
    }
  }

  lemma {:induction false} StrLessTransitive(a: string, b: string, c: string)
    requires StrLess(a, b) && StrLess(b, c)
    ensures StrLess(a, c)
    decreases |a|
  {
    if |a| > 0 && |b| > 0 && |c| > 0 && a[0] == b[0] == c[0] {
      StrLessTransitive(a[1..], b[1..], c[1..]);
    }
  }

  lemma {:induction false} StrLessTotal(a: string, b: string)
    requires a != b
    ensures StrLess(a, b) || StrLess(b, a)
    decreases |a|
  {
    if |a| > 0 && |b| > 0 && a[0] == b[0] {
      assert a == [a[0]] + a[1..] && b == [b[0]] + b[1..];
      StrLessTotal(a[1..], b[1..]);
    }
  }

  /** `le` is total (hence reflexive) and transitive. */
  ghost predicate TotalPreorder<T(!new)>(le: (T, T) -> bool)
  {
    && (forall a, b :: le(a, b) || le(b, a))
    && (forall a, b, c :: le(a, b) && le(b, c) ==> le(a, c))
  }

  ghost predicate SortedBy<T>(s: seq<T>, le: (T, T) -> bool)
  {
    forall i, j :: 0 <= i < j < |s| ==> le(s[i], s[j])
  }

  /** Every finite non-empty set has a least element under a total preorder. */
  lemma {:induction false} LeastExists<T(!new)>(s: set<T>, le: (T, T) -> bool)
    requires s != {} && TotalPreorder(le)
    ensures exists m :: m in s && forall y :: y in s ==> le(m, y)
    decreases s
  {
    var x :| x in s;
    if s == {x} {
      assert le(x, x) || le(x, x);
      assert forall y :: y in s ==> y == x;
    } else {
      LeastExists(s - {x}, le);
      var m :| m in s - {x} && forall y :: y in s - {x} ==> le(m, y);
      if le(m, x) {
        forall y | y in s
          ensures le(m, y)
        {
          if y != x {
            assert y in s - {x};
          }
        }
      } else {
        assert le(m, x) || le(x, m);
        forall y | y in s
          ensures le(x, y)
        {
          if y == x {
            assert le(x, x) || le(x, x);
          } else {
            assert y in s - {x};
            assert le(x, m) && le(m, y);
          }
        }
      }
    }
  }

  /**
   * The elements of `items`, each once, in ascending order of `le` (the
   * result of a query with an `orderBy` clause).
   */
  method OrderBy<T(==,!new)>(items: set<T>, le: (T, T) -> bool) returns (r: seq<T>)
    requires TotalPreorder(le)
    ensures forall i :: 0 <= i < |r| ==> r[i] in items
    ensures forall x :: x in items ==> x in r
    ensures forall i, j :: 0 <= i < j < |r| ==> r[i] != r[j]
    ensures SortedBy(r, le)
  {
    r := [];
    var rest := items;
    while rest != {}
      invariant rest <= items
      invariant forall i :: 0 <= i < |r| ==> r[i] in items && r[i] !in rest
      invariant forall x :: x in items ==> x in rest || x in r
      invariant forall i, j :: 0 <= i < j < |r| ==> r[i] != r[j]
      invariant SortedBy(r, le)
      invariant forall i, y :: 0 <= i < |r| && y in rest ==> le(r[i], y)
      decreases rest
    {
      LeastExists(rest, le);
      var m :| m in rest && forall y :: y in rest ==> le(m, y);
      r := r + [m];
      rest := rest - {m};
    }
  }
}
