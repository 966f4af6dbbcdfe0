/** Counting, tallying and averaging over sequences: the building blocks of the
    emotion distributions, the per-employee breakdowns and the stress means.
    Python dictionaries built by `d[k] = d.get(k, 0) + 1` iterate in the order
    keys were first inserted; `Distinct` is that order. */
module Aggregates {

  /** Number of occurrences of `k` in `s`. */
  function Count<K(==)>(s: seq<K>, k: K): nat
  {
    if s == [] then 0 else Count(s[..|s| - 1], k) + (if s[|s| - 1] == k then 1 else 0)
  }

  lemma {:induction false} CountBounds<K>(s: seq<K>, k: K)
    ensures Count(s, k) <= |s|
    ensures Count(s, k) > 0 <==> k in s
  {
    if s != [] {
      CountBounds(s[..|s| - 1], k);
      assert s == s[..|s| - 1] + [s[|s| - 1]];
    }
  }

  /** A count of 0 for keys that are absent, as `d.get(k, 0)` reads it. */
  function Get<K>(d: map<K, nat>, k: K): nat {
    if k in d then d[k] else 0
  }

  /** The count of every key of `s`, built left to right as the program's counting loops do. */
  function Tally<K(==)>(s: seq<K>): (d: map<K, nat>)
    ensures d.Keys == set k | k in s
    ensures forall k :: k in d ==> d[k] == Count(s, k)
  {
    if s == [] then map[]
    else
      var d := Tally(s[..|s| - 1]);
      var k := s[|s| - 1];
      assert s == s[..|s| - 1] + [k];
      CountBounds(s[..|s| - 1], k);
      d[k := Get(d, k) + 1]
  }

  lemma TallyEmpty<K>(s: seq<K>)
    ensures Tally(s) == map[] <==> s == []
  {
    if s != [] {
      assert s[0] in Tally(s).Keys;
    }
  }

  /** A tally reads as the count of every key, present or not. */
  lemma TallyGet<K>(s: seq<K>, k: K)
    ensures Get(Tally(s), k) == Count(s, k)
  {
    if k !in s {
      CountBounds(s, k);
    }
  }

  predicate NoDuplicates<K(==)>(s: seq<K>) {
    forall i, j :: 0 <= i < j < |s| ==> s[i] != s[j]
  }

  /** The keys of `s` in order of first occurrence: the iteration order of `Tally(s)`. */
  function Distinct<K(==)>(s: seq<K>): (r: seq<K>)
    ensures NoDuplicates(r)
    ensures forall k :: k in r ==> k in s
    ensures forall k :: k in s ==> k in r
    ensures |r| <= |s|
  {
    if s == [] then []
    else
      var d := Distinct(s[..|s| - 1]);
      var k := s[|s| - 1];
      assert s == s[..|s| - 1] + [k];
      if k in d then d else d + [k]
  }

  /** Number of elements of `s` that are among `keys`. */
  function CountIn<K(==)>(s: seq<K>, keys: seq<K>): nat
  {
    if s == [] then 0 else CountIn(s[..|s| - 1], keys) + (if s[|s| - 1] in keys then 1 else 0)
  }

  lemma {:induction false} CountInBound<K>(s: seq<K>, keys: seq<K>)
    ensures CountIn(s, keys) <= |s|
    ensures (forall x :: x in s ==> x in keys) ==> CountIn(s, keys) == |s|
  {
    if s != [] {
      CountInBound(s[..|s| - 1], keys);
      assert s[|s| - 1] in s;
      assert forall x :: x in s[..|s| - 1] ==> x in s;
    }
  }

  /** Sum of the counts in `s` of each of `keys`. */
  function SumCounts<K(==)>(keys: seq<K>, s: seq<K>): nat
  {
    if keys == [] then 0 else SumCounts(keys[..|keys| - 1], s) + Count(s, keys[|keys| - 1])
  }

  /** Sum of the values a map holds for each of `keys` (absent keys count 0). */
  function SumValues<K>(keys: seq<K>, d: map<K, nat>): nat
  {
    if keys == [] then 0 else SumValues(keys[..|keys| - 1], d) + Get(d, keys[|keys| - 1])
  }

  lemma {:induction false} SumValuesOfTally<K>(keys: seq<K>, s: seq<K>)
    ensures SumValues(keys, Tally(s)) == SumCounts(keys, s)
  {
    if keys != [] {
      SumValuesOfTally(keys[..|keys| - 1], s);
      TallyGet(s, keys[|keys| - 1]);
    }
  }

  /** Appending `x` to `s` adds the multiplicity of `x` among `keys` to the sum. */
  lemma {:induction false} SumCountsSnoc<K>(keys: seq<K>, s: seq<K>, x: K)
    ensures SumCounts(keys, s + [x]) == SumCounts(keys, s) + Count(keys, x)
  {
    assert (s + [x])[..|s + [x]| - 1] == s;
    if keys != [] {
      SumCountsSnoc(keys[..|keys| - 1], s, x);
    }
  }

  lemma {:induction false} CountNoDuplicates<K>(keys: seq<K>, x: K)
    requires NoDuplicates(keys)
    ensures Count(keys, x) == if x in keys then 1 else 0
  {
    if keys != [] {
      var init := keys[..|keys| - 1];
      CountNoDuplicates(init, x);
      assert keys == init + [keys[|keys| - 1]];
      if keys[|keys| - 1] == x {
        assert x !in init;
      }
    }
  }

  /** Summing the counts of distinct keys counts every element that is a key exactly once. */
  lemma {:induction false} SumCountsIsCountIn<K>(keys: seq<K>, s: seq<K>)
    requires NoDuplicates(keys)
    ensures SumCounts(keys, s) == CountIn(s, keys)
  {
    if s == [] {
      SumCountsEmpty(keys, s);
    } else {
      var init := s[..|s| - 1];
      var x := s[|s| - 1];
      assert s == init + [x];
      SumCountsIsCountIn(keys, init);
      SumCountsSnoc(keys, init, x);
      CountNoDuplicates(keys, x);
    }
  }

  lemma {:induction false} SumCountsEmpty<K>(keys: seq<K>, s: seq<K>)
    requires s == []
    ensures SumCounts(keys, s) == 0
  {
    if keys != [] {
      SumCountsEmpty(keys[..|keys| - 1], s);
    }
  }

  /** The values of a tally over distinct keys never exceed the number of tallied elements,
      and add up to it when the keys cover every element. */
  lemma TallyTotal<K>(keys: seq<K>, s: seq<K>)
    requires NoDuplicates(keys)
    ensures SumValues(keys, Tally(s)) <= |s|
    ensures (forall x :: x in s ==> x in keys) ==> SumValues(keys, Tally(s)) == |s|
  {
    SumValuesOfTally(keys, s);
    SumCountsIsCountIn(keys, s);
    CountInBound(s, keys);
  }

  /** The position of the first of `keys` whose value in `d` is maximal, scanning left
      to right and replacing the best only on a strictly greater value (Python's `max`
      with a key function). */
  function FirstMaxIndex<K(==)>(keys: seq<K>, d: map<K, nat>): (i: nat)
    requires |keys| > 0
    requires forall k :: k in keys ==> k in d
    ensures i < |keys|
    ensures forall j :: 0 <= j < |keys| ==> d[keys[j]] <= d[keys[i]]
    ensures forall j :: 0 <= j < i ==> d[keys[j]] < d[keys[i]]
  {
    if |keys| == 1 then 0
    else
      var init := keys[..|keys| - 1];
      assert forall k :: k in init ==> k in keys;
      var best := FirstMaxIndex(init, d);
      if d[keys[|keys| - 1]] > d[init[best]] then |keys| - 1 else best
  }

  /** Summing a tally over distinct keys counts the tallied elements that are keys. */
  lemma TallySumOverKeys<K>(keys: seq<K>, s: seq<K>)
    requires NoDuplicates(keys)
    ensures SumValues(keys, Tally(s)) == CountIn(s, keys)
    ensures CountIn(s, keys) <= |s|
  {
    SumValuesOfTally(keys, s);
    SumCountsIsCountIn(keys, s);
    CountInBound(s, keys);
  }

  /** The most frequent element of `s`; among equally frequent ones, the one that occurs
      first (the first maximum over the insertion order of `Tally(s)`). */
  function Mode<K(==)>(s: seq<K>): (m: K)
    requires s != []
    ensures m in s
    ensures forall k :: k in s ==> Count(s, k) <= Count(s, m)
    ensures var order := Distinct(s);
      forall j, i :: 0 <= i < j < |order| && order[j] == m ==> Count(s, order[i]) < Count(s, m)
  {
    var order := Distinct(s);
    var d := Tally(s);
    ModeFacts(s, order, d);
    order[FirstMaxIndex(order, d)]
  }

  lemma ModeFacts<K>(s: seq<K>, order: seq<K>, d: map<K, nat>)
    requires s != [] && order == Distinct(s) && d == Tally(s)
    ensures |order| > 0
    ensures forall k :: k in order ==> k in d
    ensures order[FirstMaxIndex(order, d)] in s
    ensures forall k :: k in s ==> Count(s, k) <= Count(s, order[FirstMaxIndex(order, d)])
    ensures forall j, i :: 0 <= i < j < |order| && order[j] == order[FirstMaxIndex(order, d)] ==>
              Count(s, order[i]) < Count(s, order[FirstMaxIndex(order, d)])
  {
    assert s[0] in order;
    assert forall k :: k in order ==> k in d by {
      forall k | k in order ensures k in d {
        assert k in s;
      }
    }
    var m := FirstMaxIndex(order, d);
    forall k | k in s ensures Count(s, k) <= Count(s, order[m]) {
      assert k in order;
      var j :| 0 <= j < |order| && order[j] == k;
      assert d[order[j]] <= d[order[m]];
    }
    forall j, i | 0 <= i < j < |order| && order[j] == order[m]
      ensures Count(s, order[i]) < Count(s, order[m])
    {
      assert j == m;
      assert d[order[i]] < d[order[m]];
    }
  }

  /** A sequence without repeats has as many elements as the set of its elements. */
  lemma {:induction false} DistinctCardinality<K>(s: seq<K>)
    requires NoDuplicates(s)
    ensures |set k | k in s| == |s|
  {
    if s != [] {
      var init := s[..|s| - 1];
      var last := s[|s| - 1];
      assert s == init + [last];
      DistinctCardinality(init);
      assert last !in init;
      assert (set k | k in s) == (set k | k in init) + {last};
    }
  }

  /** Sum of a sequence of reals. */
  function SumReals(s: seq<real>): real
  {
    if s == [] then 0.0 else SumReals(s[..|s| - 1]) + s[|s| - 1]
  }

  /** The arithmetic mean, as `sum(xs) / len(xs)`. */
  function Mean(s: seq<real>): real
    requires |s| > 0
  {
    SumReals(s) / (|s| as real)
  }

  /** The mean times the number of elements gives back the sum. */
  lemma MeanTimesCount(s: seq<real>)
    requires |s| > 0
    ensures Mean(s) * (|s| as real) == SumReals(s)
  {
  }

  lemma {:induction false} SumRealsBounds(s: seq<real>, lo: real, hi: real)
    requires forall i :: 0 <= i < |s| ==> lo <= s[i] <= hi
    ensures lo * (|s| as real) <= SumReals(s) <= hi * (|s| as real)
  {
    if s != [] {
      SumRealsBounds(s[..|s| - 1], lo, hi);
    }
  }

  lemma {:induction false} SumRealsAbove(s: seq<real>, lo: real)
    requires |s| > 0
    requires forall i :: 0 <= i < |s| ==> lo < s[i]
    ensures lo * (|s| as real) < SumReals(s)
  {
    if |s| > 1 {
      SumRealsAbove(s[..|s| - 1], lo);
    }
  }

  /** A mean lies between the bounds of its elements, strictly above a strict lower bound. */
  lemma MeanBounds(s: seq<real>, lo: real, hi: real)
    requires |s| > 0
    requires forall i :: 0 <= i < |s| ==> lo <= s[i] <= hi
    ensures lo <= Mean(s) <= hi
  {
    SumRealsBounds(s, lo, hi);
    var n := |s| as real;
    assert lo * n <= SumReals(s) <= hi * n;
  }

  lemma MeanAbove(s: seq<real>, lo: real)
    requires |s| > 0
    requires forall i :: 0 <= i < |s| ==> lo < s[i]
    ensures lo < Mean(s)
  {
    SumRealsAbove(s, lo);
  }

  lemma MeanAtLeast(s: seq<real>, lo: real)
    requires |s| > 0
    requires forall i :: 0 <= i < |s| ==> lo <= s[i]
    ensures lo <= Mean(s)
  {
    SumRealsLower(s, lo);
  }

  lemma {:induction false} SumRealsLower(s: seq<real>, lo: real)
    requires forall i :: 0 <= i < |s| ==> lo <= s[i]
    ensures lo * (|s| as real) <= SumReals(s)
  {
    if s != [] {
      SumRealsLower(s[..|s| - 1], lo);
    }
  }

  lemma {:induction false} SumRealsConstant(s: seq<real>, c: real)
    requires forall i :: 0 <= i < |s| ==> s[i] == c
    ensures SumReals(s) == c * (|s| as real)
  {
    if s != [] {
      SumRealsConstant(s[..|s| - 1], c);
    }
  }

  /** Python's `round(x, 2)`, taken as rounding to the nearest hundredth with ties upward. */
  function Round2(x: real): real
  {
    ((x * 100.0 + 0.5).Floor as real) / 100.0
  }

  lemma Round2Monotone(x: real, y: real)
    requires x <= y
    ensures Round2(x) <= Round2(y)
  {
    assert (x * 100.0 + 0.5).Floor <= (y * 100.0 + 0.5).Floor;
  }

  lemma Round2Close(x: real)
    ensures x - 0.005 < Round2(x) <= x + 0.005
  {
  }

  /** A rounded value is a whole number of hundredths. */
  lemma Round2Hundredths(x: real)
    ensures (Round2(x) * 100.0).Floor as real == Round2(x) * 100.0
  {
    var k := (x * 100.0 + 0.5).Floor;
    assert Round2(x) * 100.0 == k as real;
  }

  /** Whole numbers are left unchanged by rounding. */
  lemma Round2Whole(n: int)
    ensures Round2(n as real) == n as real
  {
    assert (n as real * 100.0 + 0.5).Floor == n * 100;
  }

  /** Rounding keeps a value inside any range whose ends are whole hundredths. */
  lemma Round2Range(x: real, lo: int, hi: int)
    requires lo as real <= x <= hi as real
    ensures lo as real <= Round2(x) <= hi as real
  {
    Round2Monotone(lo as real, x);
    Round2Monotone(x, hi as real);
    Round2Whole(lo);
    Round2Whole(hi);
  }
}
