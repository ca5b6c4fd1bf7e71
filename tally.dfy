/** Per-key counters kept in a dictionary, as the source does with
    `map.put(k, map.getOrDefault(k, 0) + w)` in Java and `obj[k] = (obj[k] || 0) + 1` in
    JavaScript. The order in which a hash map lists its entries is not modelled. */
module Tally {

  /** The sum of all counters of a dictionary. */
  ghost function SumValues<K>(m: map<K, int>): int
    decreases |m|
  {
    if |m| == 0 then 0
    else
      var k := Pick(m);
      m[k] + SumValues(m - {k})
  }

  ghost function Pick<K>(m: map<K, int>): (k: K)
    requires |m| > 0
    ensures k in m
  {
    var k :| k in m; k
  }

  /** The sum does not depend on which entry is taken out first. */
  lemma {:induction false} SumRemove<K>(m: map<K, int>, k: K)
    requires k in m
    ensures SumValues(m) == m[k] + SumValues(m - {k})
    decreases |m|
  {
    var j := Pick(m);
    if j != k {
      assert (m - {j}) - {k} == (m - {k}) - {j};
      SumRemove(m - {j}, k);
      SumRemove(m - {k}, j);
    }
  }

  /** `getOrDefault(k, 0) + w` stored back under `k`. */
  function AddTo<K>(m: map<K, int>, k: K, w: int): (r: map<K, int>)
    ensures r.Keys == m.Keys + {k}
    ensures r[k] == (if k in m then m[k] else 0) + w
    ensures forall j :: j in m && j != k ==> r[j] == m[j]
  {
    m[k := (if k in m then m[k] else 0) + w]
  }

  /** The sum of a dictionary split into one key's counter (0 when absent) and the rest. */
  lemma SumSplit<K>(m: map<K, int>, k: K)
    ensures SumValues(m) == (if k in m then m[k] else 0) + SumValues(m - {k})
  {
    if k in m {
      SumRemove(m, k);
    } else {
      assert m - {k} == m;
    }
  }

  lemma SumStore<K>(m: map<K, int>, k: K, v: int)
    ensures SumValues(m[k := v]) == v + SumValues(m - {k})
  {
    var r := m[k := v];
    SumRemove(r, k);
    assert r - {k} == m - {k};
  }

  /** Adding `w` under one key adds `w` to the sum of all counters. */
  lemma SumAddTo<K>(m: map<K, int>, k: K, w: int)
    ensures SumValues(AddTo(m, k, w)) == SumValues(m) + w
  {
    SumStore(m, k, (if k in m then m[k] else 0) + w);
    SumSplit(m, k);
  }

  /** Counting every element of a list under its own key. */
  function Count<K>(s: seq<K>): (m: map<K, int>)
  {
    if s == [] then map[] else AddTo(Count(s[..|s| - 1]), s[|s| - 1], 1)
  }

  /** Counting a list: the keys are exactly its elements. */
  lemma {:induction false} CountKeys<K>(s: seq<K>)
    ensures Count(s).Keys == set x | x in s
  {
    if s != [] {
      var init := s[..|s| - 1];
      CountKeys(init);
      assert s == init + [s[|s| - 1]];
    }
  }

  /** Counting a list: each element is counted as often as it occurs. */
  lemma {:induction false} CountOccurrences<K>(s: seq<K>)
    ensures forall x :: x in Count(s) ==> Count(s)[x] == multiset(s)[x]
  {
    if s != [] {
      var init := s[..|s| - 1];
      var last := s[|s| - 1];
      CountOccurrences(init);
      CountKeys(init);
      assert s == init + [last];
      assert multiset(s) == multiset(init) + multiset{last};
    }
  }

  /** Counting a list: the counters add up to its length. */
  lemma {:induction false} CountSum<K>(s: seq<K>)
    ensures SumValues(Count(s)) == |s|
  {
    if s != [] {
      var init := s[..|s| - 1];
      CountSum(init);
      SumAddTo(Count(init), s[|s| - 1], 1);
    }
  }
}
