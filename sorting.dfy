/**
 * Ordering query results: `ORDER BY a, b` on two columns, modelled as a
 * stable insertion sort on a pair of integer keys. Rows whose keys are
 * equal keep the order in which they were handed in; the database leaves
 * that order open, so callers must not rely on it.
 */
module Sorting {

  /** Lexicographic order on (major, minor) keys. */
  predicate KeyLe(a: (int, int), b: (int, int)) {
    a.0 < b.0 || (a.0 == b.0 && a.1 <= b.1)
  }

  predicate SortedBy<T>(s: seq<T>, key: T -> (int, int)) {
    forall i, j :: 0 <= i < j < |s| ==> KeyLe(key(s[i]), key(s[j]))
  }

  /** Puts `x` in front of the first element whose key is not below its own. */
  function Insert<T>(x: T, s: seq<T>, key: T -> (int, int)): (r: seq<T>)
    requires SortedBy(s, key)
    ensures |r| == |s| + 1
    ensures multiset(r) == multiset(s) + multiset{x}
    ensures forall i :: 0 <= i < |r| ==> r[i] == x || r[i] in s
    ensures SortedBy(r, key)
  {
    if s == [] then [x]
    else if KeyLe(key(x), key(s[0])) then [x] + s
    else
      var rest := Insert(x, s[1..], key);
      assert s == [s[0]] + s[1..];
      AboveHead(x, s, key, rest);
      ConsSorted(s[0], rest, key);
      ConsMembers(x, s, rest);
      [s[0]] + rest
  }

  lemma ConsMembers<T>(x: T, s: seq<T>, rest: seq<T>)
    requires s != [] && forall i :: 0 <= i < |rest| ==> rest[i] == x || rest[i] in s[1..]
    ensures forall i :: 0 <= i < |rest| + 1 ==> ([s[0]] + rest)[i] == x || ([s[0]] + rest)[i] in s
  {
    var r := [s[0]] + rest;
    forall i | 0 <= i < |r|
      ensures r[i] == x || r[i] in s
    {
      if i > 0 {
        assert r[i] == rest[i - 1];
      }
    }
  }

  /** What goes after the head of `s` when `x` does not: `x` itself and the rest of `s`, none below the head. */
  lemma AboveHead<T>(x: T, s: seq<T>, key: T -> (int, int), rest: seq<T>)
    requires s != [] && SortedBy(s, key) && !KeyLe(key(x), key(s[0]))
    requires forall i :: 0 <= i < |rest| ==> rest[i] == x || rest[i] in s[1..]
    ensures forall i :: 0 <= i < |rest| ==> KeyLe(key(s[0]), key(rest[i]))
  {
    forall i | 0 <= i < |rest|
      ensures KeyLe(key(s[0]), key(rest[i]))
    {
      if rest[i] != x {
        var k :| 0 <= k < |s[1..]| && s[1..][k] == rest[i];
        assert s[k + 1] == rest[i];
      }
    }
  }

  lemma ConsSorted<T>(y: T, rest: seq<T>, key: T -> (int, int))
    requires SortedBy(rest, key) && forall i :: 0 <= i < |rest| ==> KeyLe(key(y), key(rest[i]))
    ensures SortedBy([y] + rest, key)
  {
    var r := [y] + rest;
    forall i, j | 0 <= i < j < |r|
      ensures KeyLe(key(r[i]), key(r[j]))
    {
      assert r[j] == rest[j - 1];
      if i > 0 {
        assert r[i] == rest[i - 1];
      }
    }
  }

  /** `s` sorted by `key`, ascending. */
  function SortBy<T>(s: seq<T>, key: T -> (int, int)): (r: seq<T>)
    ensures |r| == |s|
    ensures multiset(r) == multiset(s)
    ensures SortedBy(r, key)
  {
    if s == [] then []
    else
      assert s == [s[0]] + s[1..];
      Insert(s[0], SortBy(s[1..], key), key)
  }

  /** Sorting neither loses nor invents an element. */
  lemma SortByMembers<T>(s: seq<T>, key: T -> (int, int), x: T)
    ensures x in SortBy(s, key) <==> x in s
  {
    var r := SortBy(s, key);
    assert x in r <==> x in multiset(r);
    assert x in s <==> x in multiset(s);
  }

  /** Elements of a sorted sequence that occur without repetition occur exactly once after sorting. */
  lemma SortByDistinct<T>(s: seq<T>, key: T -> (int, int))
    requires forall i, j :: 0 <= i < j < |s| ==> s[i] != s[j]
    ensures var r := SortBy(s, key); forall i, j :: 0 <= i < j < |r| ==> r[i] != r[j]
  {
    var r := SortBy(s, key);
    forall i, j | 0 <= i < j < |r|
      ensures r[i] != r[j]
    {
      if r[i] == r[j] {
        TwoOccurrences(r, i, j);
        MultiplicityOne(s, r[i]);
      }
    }
  }

  lemma TwoOccurrences<T>(r: seq<T>, i: nat, j: nat)
    requires i < j < |r| && r[i] == r[j]
    ensures multiset(r)[r[i]] >= 2
  {
    assert r == r[..j] + r[j..];
    assert r[..j][i] == r[i];
    assert r[j..][0] == r[i];
    assert multiset(r) == multiset(r[..j]) + multiset(r[j..]);
  }

  lemma {:induction false} MultiplicityOne<T>(s: seq<T>, x: T)
    requires forall i, j :: 0 <= i < j < |s| ==> s[i] != s[j]
    ensures multiset(s)[x] <= 1
  {
    if s != [] {
      var init := s[..|s| - 1];
      MultiplicityOne(init, x);
      assert s == init + [s[|s| - 1]];
      if s[|s| - 1] == x {
        assert x !in init;
      }
    }
  }
}
