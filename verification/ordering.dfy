/** Filtering, newest-first ordering and row limits: the query shapes the event
    store answers with (`WHERE …`, `ORDER BY timestamp DESC`, `LIMIT n`). */
module Ordering {

  /** Non-increasing by `key`. */
  predicate SortedDesc<T>(s: seq<T>, key: T -> int) {
    forall i, j :: 0 <= i < j < |s| ==> key(s[i]) >= key(s[j])
  }

  /** The elements of `s` satisfying `p`, in their original order. */
  function Select<T>(s: seq<T>, p: T -> bool): (r: seq<T>)
    ensures |r| <= |s|
    ensures forall x :: x in r ==> x in s && p(x)
    ensures forall x :: x in s && p(x) ==> x in r
    ensures multiset(r) <= multiset(s)
  {
    if s == [] then []
    else
      var init := s[..|s| - 1];
      var last := s[|s| - 1];
      assert s == init + [last];
      if p(last) then Select(init, p) + [last] else Select(init, p)
  }

  /** Each element satisfying `p` is kept as often as it occurs, and no other is kept. */
  lemma {:induction false} SelectMultiplicity<T>(s: seq<T>, p: T -> bool, x: T)
    ensures multiset(Select(s, p))[x] == if p(x) then multiset(s)[x] else 0
  {
    if s != [] {
      var init, last := s[..|s| - 1], s[|s| - 1];
      assert s == init + [last];
      SelectMultiplicity(init, p, x);
    }
  }

  /** Filtering commutes with concatenation: the kept elements stay in their order. */
  lemma {:induction false} SelectAppend<T>(a: seq<T>, b: seq<T>, p: T -> bool)
    ensures Select(a + b, p) == Select(a, p) + Select(b, p)
  {
    if b == [] {
      assert a + b == a;
    } else {
      var init, last := b[..|b| - 1], b[|b| - 1];
      assert a + b == (a + init) + [last];
      assert b == init + [last];
      SelectAppend(a, init, p);
    }
  }

  /** Two filters that agree on the elements of `s` select the same elements. */
  lemma {:induction false} SelectAgrees<T>(s: seq<T>, p: T -> bool, q: T -> bool)
    requires forall i :: 0 <= i < |s| ==> p(s[i]) == q(s[i])
    ensures Select(s, p) == Select(s, q)
  {
    if s != [] {
      var init := s[..|s| - 1];
      assert forall i :: 0 <= i < |init| ==> init[i] == s[i];
      SelectAgrees(init, p, q);
    }
  }

  /** A filter no element of `s` satisfies selects nothing. */
  lemma {:induction false} SelectNone<T>(s: seq<T>, p: T -> bool)
    requires forall i :: 0 <= i < |s| ==> !p(s[i])
    ensures Select(s, p) == []
  {
    if s != [] {
      var init := s[..|s| - 1];
      assert forall i :: 0 <= i < |init| ==> init[i] == s[i];
      SelectNone(init, p);
    }
  }

  /** Places `x` after every element whose key is at least its own. */
  function InsertDesc<T>(x: T, s: seq<T>, key: T -> int): (r: seq<T>)
    requires SortedDesc(s, key)
    ensures SortedDesc(r, key)
    ensures multiset(r) == multiset(s) + multiset{x}
    ensures |r| == |s| + 1
  {
    if s == [] then [x]
    else if key(s[0]) >= key(x) then
      var rest := InsertDesc(x, s[1..], key);
      InsertBehind(x, s, rest, key);
      [s[0]] + rest
    else
      InsertInFront(x, s, key);
      [x] + s
  }

  lemma InsertBehind<T>(x: T, s: seq<T>, rest: seq<T>, key: T -> int)
    requires s != [] && key(s[0]) >= key(x) && SortedDesc(s, key)
    requires SortedDesc(rest, key) && multiset(rest) == multiset(s[1..]) + multiset{x}
    ensures SortedDesc([s[0]] + rest, key)
    ensures multiset([s[0]] + rest) == multiset(s) + multiset{x}
  {
    assert s == [s[0]] + s[1..];
    forall y | y in rest ensures key(s[0]) >= key(y) {
      assert y in multiset(rest);
      if y != x {
        assert y in multiset(s[1..]);
        assert y in s[1..];
      }
    }
    var r := [s[0]] + rest;
    forall i, j | 0 <= i < j < |r| ensures key(r[i]) >= key(r[j]) {
      if i > 0 {
        assert r[i] == rest[i - 1] && r[j] == rest[j - 1];
      } else {
        assert r[j] in rest;
      }
    }
  }

  lemma InsertInFront<T>(x: T, s: seq<T>, key: T -> int)
    requires s != [] && key(s[0]) < key(x) && SortedDesc(s, key)
    ensures SortedDesc([x] + s, key)
  {
    var r := [x] + s;
    forall i, j | 0 <= i < j < |r| ensures key(r[i]) >= key(r[j]) {
      if i > 0 {
        assert r[i] == s[i - 1] && r[j] == s[j - 1];
      } else {
        assert r[j] == s[j - 1];
        assert j - 1 == 0 || key(s[0]) >= key(s[j - 1]);
      }
    }
  }

  /** A newest-first permutation of `s`; rows with equal keys keep their input order. */
  function SortDesc<T>(s: seq<T>, key: T -> int): (r: seq<T>)
    ensures SortedDesc(r, key)
    ensures multiset(r) == multiset(s)
    ensures |r| == |s|
  {
    if s == [] then []
    else
      assert s == s[..|s| - 1] + [s[|s| - 1]];
      InsertDesc(s[|s| - 1], SortDesc(s[..|s| - 1], key), key)
  }

  /** SQL `LIMIT n`: the first `n` rows; a negative limit means no limit. */
  function Limit<T>(s: seq<T>, limit: int): (r: seq<T>)
    ensures |r| == if 0 <= limit < |s| then limit else |s|
    ensures r == s[..|r|]
  {
    if 0 <= limit < |s| then s[..limit] else s
  }

  /** `ORDER BY key DESC LIMIT limit` over `rows`. */
  function Newest<T>(rows: seq<T>, key: T -> int, limit: int): (r: seq<T>)
    ensures SortedDesc(r, key)
    ensures multiset(r) <= multiset(rows)
    ensures |r| == if 0 <= limit < |rows| then limit else |rows|
    ensures forall x, i :: x in rows && x !in r && 0 <= i < |r| ==> key(x) <= key(r[i])
  {
    var sorted := SortDesc(rows, key);
    var r := Limit(sorted, limit);
    NewestFacts(rows, sorted, r, key);
    r
  }

  lemma NewestFacts<T>(rows: seq<T>, sorted: seq<T>, r: seq<T>, key: T -> int)
    requires SortedDesc(sorted, key) && multiset(sorted) == multiset(rows)
    requires |r| <= |sorted| && r == sorted[..|r|]
    ensures SortedDesc(r, key)
    ensures multiset(r) <= multiset(rows)
    ensures forall x, i :: x in rows && x !in r && 0 <= i < |r| ==> key(x) <= key(r[i])
  {
    assert sorted == r + sorted[|r|..];
    assert multiset(sorted) == multiset(r) + multiset(sorted[|r|..]);
    forall x, i | x in rows && x !in r && 0 <= i < |r| ensures key(x) <= key(r[i]) {
      assert x in multiset(sorted);
      var j :| 0 <= j < |sorted| && sorted[j] == x;
      assert j >= |r|;
    }
  }

  /** `SELECT … WHERE p ORDER BY key DESC LIMIT limit`. */
  function Query<T>(rows: seq<T>, p: T -> bool, key: T -> int, limit: int): (r: seq<T>)
    ensures forall x :: x in r ==> x in rows && p(x)
    ensures SortedDesc(r, key)
    ensures |r| == if 0 <= limit < |Select(rows, p)| then limit else |Select(rows, p)|
    ensures multiset(r) <= multiset(Select(rows, p))
    ensures forall x, i :: x in rows && p(x) && x !in r && 0 <= i < |r| ==> key(x) <= key(r[i])
  {
    var matching := Select(rows, p);
    var r := Newest(matching, key, limit);
    QueryFacts(rows, p, matching, r);
    r
  }

  lemma QueryFacts<T>(rows: seq<T>, p: T -> bool, matching: seq<T>, r: seq<T>)
    requires matching == Select(rows, p) && multiset(r) <= multiset(matching)
    ensures forall x :: x in r ==> x in matching && x in rows && p(x)
  {
    forall x | x in r ensures x in matching {
      assert x in multiset(r);
    }
  }
}
