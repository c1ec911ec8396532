/** Go's `m[k]++` on a `map[K]int`, repeated over a sequence of keys, and the sum of a
    map's counts. Word frequencies, per-tag element counts and per-rune category counts are
    all built this way. */
module Counting {

  /** `m[k]` in Go: the zero value for a missing key. */
  function Get<K>(m: map<K, int>, k: K): int
  {
    if k in m then m[k] else 0
  }

  /** `m[k]++`: only `k`'s entry changes, and it grows by exactly one. */
  function Increment<K>(m: map<K, int>, k: K): (r: map<K, int>)
    ensures r.Keys == m.Keys + {k}
    ensures Get(r, k) == Get(m, k) + 1
    ensures forall j | j in m && j != k :: r[j] == m[j]
  {
    m[k := Get(m, k) + 1]
  }

  /** `for _, k := range ks { m[k]++ }` */
  function IncrementAll<K>(m: map<K, int>, ks: seq<K>): map<K, int>
    decreases |ks|
  {
    if ks == [] then m else IncrementAll(Increment(m, ks[0]), ks[1..])
  }

  lemma {:induction false} IncrementAllAppend<K>(m: map<K, int>, a: seq<K>, b: seq<K>)
    ensures IncrementAll(m, a + b) == IncrementAll(IncrementAll(m, a), b)
    decreases |a|
  {
    if a == [] {
      assert a + b == b;
    } else {
      assert (a + b)[1..] == a[1..] + b;
      IncrementAllAppend(Increment(m, a[0]), a[1..], b);
    }
  }

  /** After the loop, each key's count has grown by the number of its occurrences, and the
      keys are the old ones plus those seen. */
  lemma {:induction false} IncrementAllCounts<K>(m: map<K, int>, ks: seq<K>, k: K)
    ensures Get(IncrementAll(m, ks), k) == Get(m, k) + multiset(ks)[k]
    ensures k in IncrementAll(m, ks) <==> k in m || k in ks
    decreases |ks|
  {
    if ks != [] {
      assert ks == [ks[0]] + ks[1..];
      IncrementAllCounts(Increment(m, ks[0]), ks[1..], k);
    }
  }

  ghost function PickKey<K>(m: map<K, int>): (k: K)
    requires m != map[]
    ensures k in m
  {
    var k :| k in m; k
  }

  /** The sum of all counts in `m`. */
  ghost function Sum<K>(m: map<K, int>): int
    decreases |m|
  {
    if m == map[] then 0
    else
      var k := PickKey(m);
      assert |m - {k}| < |m| by {
        assert (m - {k}).Keys == m.Keys - {k};
      }
      m[k] + Sum(m - {k})
  }

  /** The sum does not depend on the key the definition happens to pick. */
  lemma {:induction false} SumRemove<K>(m: map<K, int>, k: K)
    requires k in m
    ensures Sum(m) == m[k] + Sum(m - {k})
    decreases |m|
  {
    var j := PickKey(m);
    if j != k {
      assert (m - {k}).Keys == m.Keys - {k};
      assert (m - {j}).Keys == m.Keys - {j};
      SumRemove(m - {j}, k);
      SumRemove(m - {k}, j);
      assert m - {j} - {k} == m - {k} - {j};
    }
  }

  lemma SumIncrement<K>(m: map<K, int>, k: K)
    ensures Sum(Increment(m, k)) == Sum(m) + 1
  {
    var r := Increment(m, k);
    SumRemove(r, k);
    assert r - {k} == m - {k};
    if k in m {
      SumRemove(m, k);
    } else {
      assert m - {k} == m;
    }
  }

  /** Every `m[k]++` adds one to the sum of the counts. */
  lemma {:induction false} SumIncrementAll<K>(m: map<K, int>, ks: seq<K>)
    ensures Sum(IncrementAll(m, ks)) == Sum(m) + |ks|
    decreases |ks|
  {
    if ks != [] {
      SumIncrement(m, ks[0]);
      SumIncrementAll(Increment(m, ks[0]), ks[1..]);
    }
  }
}
