/** `Array.prototype.filter` over sequences, and what it keeps: an
    order-preserving subsequence. */
module Sequences {

  /** `r` is `s` with some elements left out and the rest in their order. */
  predicate SubsequenceOf<T(==)>(r: seq<T>, s: seq<T>)
    decreases |s|
  {
    if s == [] then r == []
    else (r != [] && r[0] == s[0] && SubsequenceOf(r[1..], s[1..])) || SubsequenceOf(r, s[1..])
  }

  /** `s.filter(p)`: the elements of `s` that satisfy `p`, each kept in place. */
  function Select<T>(s: seq<T>, p: T -> bool): (r: seq<T>)
    ensures |r| <= |s|
  {
    if s == [] then []
    else (if p(s[0]) then [s[0]] else []) + Select(s[1..], p)
  }

  /** The elements of `Select(s, p)` are exactly the elements of `s` that
      satisfy `p`. */
  lemma {:induction false} SelectMembers<T>(s: seq<T>, p: T -> bool)
    ensures forall x :: x in Select(s, p) <==> x in s && p(x)
  {
    if s != [] {
      SelectMembers(s[1..], p);
      SelectCons(s, p);
      assert s == [s[0]] + s[1..];
    }
  }

  /** `Select` keeps every element that passes as many times as `s` holds it,
      and drops every other: together with `SelectIsSubsequence`, the result is
      fixed completely. */
  lemma {:induction false} SelectCounts<T>(s: seq<T>, p: T -> bool, x: T)
    ensures multiset(Select(s, p))[x] == if p(x) then multiset(s)[x] else 0
  {
    if s != [] {
      SelectCounts(s[1..], p, x);
      SelectCons(s, p);
      assert s == [s[0]] + s[1..];
    }
  }

  /** Filtering keeps the survivors in their original order. */
  lemma {:induction false} SelectIsSubsequence<T>(s: seq<T>, p: T -> bool)
    ensures SubsequenceOf(Select(s, p), s)
  {
    if s != [] {
      SelectIsSubsequence(s[1..], p);
      SelectCons(s, p);
      if p(s[0]) {
        assert Select(s, p)[1..] == Select(s[1..], p);
      }
    }
  }

  /** A filter that every element passes changes nothing. */
  lemma {:induction false} SelectAll<T>(s: seq<T>, p: T -> bool)
    requires forall x :: x in s ==> p(x)
    ensures Select(s, p) == s
  {
    if s != [] {
      SelectAll(s[1..], p);
    }
  }

  /** Two filters applied one after the other give the same list in either order. */
  lemma {:induction false} SelectCommutes<T>(s: seq<T>, p: T -> bool, q: T -> bool)
    ensures Select(Select(s, p), q) == Select(Select(s, q), p)
  {
    if s != [] {
      SelectCommutes(s[1..], p, q);
      SelectCons(s, p);
      SelectCons(s, q);
      if p(s[0]) { SelectCons(Select(s, p), q); }
      if q(s[0]) { SelectCons(Select(s, q), p); }
    }
  }

  /** One step of `Select` on a non-empty list. */
  lemma SelectCons<T>(s: seq<T>, p: T -> bool)
    requires s != []
    ensures Select(s, p) == (if p(s[0]) then [s[0]] + Select(s[1..], p) else Select(s[1..], p))
  {
  }

  /** Every list is a subsequence of itself. */
  lemma {:induction false} SubsequenceReflexive<T>(s: seq<T>)
    ensures SubsequenceOf(s, s)
  {
    if s != [] {
      SubsequenceReflexive(s[1..]);
    }
  }

  /** Being a subsequence is transitive. */
  lemma {:induction false} SubsequenceTransitive<T>(a: seq<T>, b: seq<T>, c: seq<T>)
    requires SubsequenceOf(a, b) && SubsequenceOf(b, c)
    ensures SubsequenceOf(a, c)
    decreases |c|
  {
    if c == [] {
      assert b == [];
    } else if b != [] && b[0] == c[0] && SubsequenceOf(b[1..], c[1..]) {
      if a != [] && a[0] == b[0] && SubsequenceOf(a[1..], b[1..]) {
        SubsequenceTransitive(a[1..], b[1..], c[1..]);
      } else {
        SubsequenceTransitive(a, b[1..], c[1..]);
      }
    } else {
      SubsequenceTransitive(a, b, c[1..]);
    }
  }

  /** `key` strictly increases along `s`. */
  predicate IncreasingBy<T>(s: seq<T>, key: T -> int) {
    forall i, j :: 0 <= i < j < |s| ==> key(s[i]) < key(s[j])
  }

  /** A subsequence of a list ordered by `key` is ordered by `key`. */
  lemma {:induction false} SubsequenceKeepsOrder<T>(r: seq<T>, s: seq<T>, key: T -> int)
    requires SubsequenceOf(r, s) && IncreasingBy(s, key)
    ensures IncreasingBy(r, key)
    ensures forall x :: x in r ==> x in s
    decreases |s|
  {
    if s != [] {
      assert IncreasingBy(s[1..], key);
      if r != [] && r[0] == s[0] && SubsequenceOf(r[1..], s[1..]) {
        SubsequenceKeepsOrder(r[1..], s[1..], key);
        forall j | 0 < j < |r| ensures key(r[0]) < key(r[j]) {
          assert r[j] in r[1..];
          var k :| 0 <= k < |s[1..]| && s[1..][k] == r[j];
          assert s[k + 1] == r[j];
        }
        assert r == [r[0]] + r[1..];
      } else {
        SubsequenceKeepsOrder(r, s[1..], key);
      }
    }
  }
}
