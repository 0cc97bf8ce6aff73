/**
 * The order in which the archiver compares dump dates and file names.
 *
 * Dates are carried as their `%Y%m%d` strings. Python compares strings
 * lexicographically by code point, and for eight-digit date tokens that is
 * calendar order, which is also what `ORDER BY dumpdate` gives the catalog.
 * This module defines that order, sorting by it (Python's `sorted`), and the
 * "newest n" window that `ORDER BY dumpdate DESC LIMIT n` selects.
 */
module DateOrder {

  /** `a` sorts strictly before `b` (Python's `a < b` on strings). */
  predicate Before(a: string, b: string)
    decreases |a|
  {
    |b| > 0 && (|a| == 0 || a[0] < b[0] || (a[0] == b[0] && Before(a[1..], b[1..])))
  }

  /** Python's `a <= b` on strings. */
  predicate NotAfter(a: string, b: string)
  {
    a == b || Before(a, b)
  }

  lemma {:induction false} BeforeIrreflexive(a: string)
    ensures !Before(a, a)
    decreases |a|
  {
    if |a| > 0 {
      BeforeIrreflexive(a[1..]);
    }
  }

  lemma {:induction false} BeforeTransitive(a: string, b: string, c: string)
    requires Before(a, b) && Before(b, c)
    ensures Before(a, c)
    decreases |a|
  {
    if |a| > 0 && a[0] == b[0] && b[0] == c[0] {
      BeforeTransitive(a[1..], b[1..], c[1..]);
    }
  }

  lemma {:induction false} BeforeTotal(a: string, b: string)
    ensures a == b || Before(a, b) || Before(b, a)
    decreases |a|
  {
    if |a| > 0 && |b| > 0 && a[0] == b[0] {
      BeforeTotal(a[1..], b[1..]);
      if a[1..] == b[1..] {
        assert a == [a[0]] + a[1..] && b == [b[0]] + b[1..];
      }
    }
  }

  lemma BeforeAsymmetric(a: string, b: string)
    requires Before(a, b)
    ensures !Before(b, a)
  {
    if Before(b, a) {
      BeforeTransitive(a, b, a);
      BeforeIrreflexive(a);
    }
  }

  /** Ascending order, duplicates allowed: what Python's `sorted` returns. */
  predicate Ascending(s: seq<string>)
  {
    forall i, j :: 0 <= i < j < |s| ==> NotAfter(s[i], s[j])
  }

  function InsertSorted(x: string, s: seq<string>): (r: seq<string>)
    requires Ascending(s)
    ensures Ascending(r)
    ensures multiset(r) == multiset(s) + multiset{x}
    ensures |r| == |s| + 1
    ensures forall y :: y in r <==> y == x || y in s
  {
    if s == [] then [x]
    else if NotAfter(x, s[0]) then
      NotAfterChain(x, s);
      [x] + s
    else
      BeforeTotal(x, s[0]);
      var rest := InsertSorted(x, s[1..]);
      assert s == [s[0]] + s[1..];
      PrependAscending(s[0], rest);
      [s[0]] + rest
  }

  /** An element no later than every member of an ascending sequence can go in front of it. */
  lemma PrependAscending(h: string, s: seq<string>)
    requires Ascending(s) && forall y :: y in s ==> NotAfter(h, y)
    ensures Ascending([h] + s)
  {
    forall i, j | 0 <= i < j < |[h] + s|
      ensures NotAfter(([h] + s)[i], ([h] + s)[j])
    {
      if i > 0 {
        assert ([h] + s)[i] == s[i - 1];
      }
      assert ([h] + s)[j] == s[j - 1];
    }
  }

  /** An element no later than the head of an ascending sequence is no later than any of it. */
  lemma NotAfterChain(x: string, s: seq<string>)
    requires Ascending(s) && s != [] && NotAfter(x, s[0])
    ensures Ascending([x] + s)
  {
    forall j | 0 < j < |s|
      ensures NotAfter(x, s[j])
    {
      if x != s[0] && s[0] != s[j] {
        BeforeTransitive(x, s[0], s[j]);
      }
    }
  }

  /** Python's `sorted(s)` on strings, as an insertion sort. */
  function SortAscending(s: seq<string>): (r: seq<string>)
    ensures Ascending(r)
    ensures multiset(r) == multiset(s)
    ensures |r| == |s|
  {
    if s == [] then []
    else
      assert s == [s[0]] + s[1..];
      InsertSorted(s[0], SortAscending(s[1..]))
  }

  /** A non-empty finite set of strings has a latest element. */
  lemma {:induction false} LatestExists(s: set<string>)
    requires s != {}
    ensures exists m :: m in s && forall y :: y in s ==> !Before(m, y)
    decreases |s|
  {
    var x :| x in s;
    if s == {x} {
      BeforeIrreflexive(x);
    } else {
      LatestExists(s - {x});
      var m :| m in s - {x} && forall y :: y in s - {x} ==> !Before(m, y);
      if Before(m, x) {
        forall y | y in s
          ensures !Before(x, y)
        {
          if y == x {
            BeforeIrreflexive(x);
          } else if Before(x, y) {
            BeforeTransitive(m, x, y);
          }
        }
      } else {
        assert forall y :: y in s ==> !Before(m, y);
      }
    }
  }

  /** The members of `s` that sort strictly after `x`. */
  ghost function Later(s: set<string>, x: string): set<string>
  {
    set y | y in s && Before(x, y)
  }

  /**
   * The `n` latest members of `s`: those with fewer than `n` members after
   * them. This is the set of dates `ORDER BY dumpdate DESC LIMIT n` returns.
   */
  ghost function Newest(s: set<string>, n: nat): set<string>
  {
    set x | x in s && |Later(s, x)| < n
  }

  /** When the limit is at least the size of the set, the window is the whole set. */
  lemma NewestOfSmallSet(s: set<string>, n: nat)
    requires |s| <= n
    ensures Newest(s, n) == s
  {
    forall x | x in s
      ensures x in Newest(s, n)
    {
      BeforeIrreflexive(x);
      assert x in s - Later(s, x);
      SubsetCard(Later(s, x), s);
    }
  }

  /**
   * The selection `ORDER BY dumpdate DESC LIMIT limit` performs on the dates
   * in `s`: the latest `limit` of them, latest first.
   */
  method NewestFirst(s: set<string>, limit: nat) returns (r: seq<string>)
    ensures forall i, j :: 0 <= i < j < |r| ==> Before(r[j], r[i])
    ensures |r| == if |s| < limit then |s| else limit
    ensures forall x :: x in r <==> x in Newest(s, limit)
  {
    r := [];
    var rest := s;
    ghost var taken: set<string> := {};
    while |r| < limit && rest != {}
      invariant Selecting(s, r, taken, rest) && |r| <= limit
      decreases rest
    {
      LatestExists(rest);
      var m :| m in rest && forall y :: y in rest ==> !Before(m, y);
      TakeLatest(s, r, taken, rest, m);
      r := r + [m];
      taken := taken + {m};
      rest := rest - {m};
    }
    SubsetCard(taken, s);
    forall x | x in s && x !in r
      ensures x !in Newest(s, limit)
    {
      assert taken <= Later(s, x);
      SubsetCard(taken, Later(s, x));
    }
  }

  /**
   * The state of `NewestFirst` after some rounds: `r` holds the dates
   * `taken` so far, latest first, each behind exactly as many dates of `s`
   * as precede it in `r`, and every date still in `rest` is earlier.
   */
  ghost predicate Selecting(s: set<string>, r: seq<string>, taken: set<string>, rest: set<string>)
  {
    && (forall x :: x in taken <==> x in r)
    && rest == s - taken && taken <= s
    && |taken| == |r|
    && (forall i, j :: 0 <= i < j < |r| ==> Before(r[j], r[i]))
    && (forall x, y :: x in rest && y in taken ==> Before(x, y))
    && (forall i :: 0 <= i < |r| ==> |Later(s, r[i])| == i)
  }

  /** Taking the latest remaining date keeps `Selecting`. */
  lemma TakeLatest(s: set<string>, r: seq<string>, taken: set<string>, rest: set<string>, m: string)
    requires Selecting(s, r, taken, rest)
    requires m in rest && forall y :: y in rest ==> !Before(m, y)
    ensures Selecting(s, r + [m], taken + {m}, rest - {m})
  {
    assert Later(s, m) == taken;
    forall x | x in rest - {m}
      ensures Before(x, m)
    {
      BeforeTotal(x, m);
    }
    var r' := r + [m];
    assert forall i :: 0 <= i < |r| ==> r'[i] == r[i];
  }

  /** A subset is no larger; a subset missing a member is strictly smaller. */
  lemma SubsetCard<T>(a: set<T>, b: set<T>)
    requires a <= b
    ensures |a| <= |b|
    ensures (exists x :: x in b && x !in a) ==> |a| < |b|
  {
    assert b == a + (b - a);
    assert a * (b - a) == {};
  }
}
