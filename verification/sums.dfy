/** Sums over the values of a finite map, used to state that money is conserved
    across all balances. */
module Sums {

  /** The sum of the values `m` holds for `keys`. */
  ghost function SumOf<K>(m: map<K, int>, keys: set<K>): int
    requires keys <= m.Keys
    decreases keys
  {
    if keys == {} then 0
    else
      var k :| k in keys;
      m[k] + SumOf(m, keys - {k})
  }

  /** The sum of every value in `m`. */
  ghost function Total<K>(m: map<K, int>): int
  {
    SumOf(m, m.Keys)
  }

  /** Any key may be split off first: the sum does not depend on the order of summation. */
  lemma {:induction false} SumOfPick<K>(m: map<K, int>, keys: set<K>, k: K)
    requires keys <= m.Keys && k in keys
    ensures SumOf(m, keys) == m[k] + SumOf(m, keys - {k})
    decreases keys
  {
    var j :| j in keys && SumOf(m, keys) == m[j] + SumOf(m, keys - {j});
    if j != k {
      SumOfPick(m, keys - {j}, k);
      SumOfPick(m, keys - {k}, j);
      assert keys - {j} - {k} == keys - {k} - {j};
    }
  }

  /** Two maps that agree on `keys` have the same sum over `keys`. */
  lemma {:induction false} SumOfAgree<K>(m1: map<K, int>, m2: map<K, int>, keys: set<K>)
    requires keys <= m1.Keys && keys <= m2.Keys
    requires forall k :: k in keys ==> m1[k] == m2[k]
    ensures SumOf(m1, keys) == SumOf(m2, keys)
    decreases keys
  {
    if keys != {} {
      var k :| k in keys;
      SumOfPick(m1, keys, k);
      SumOfPick(m2, keys, k);
      SumOfAgree(m1, m2, keys - {k});
    }
  }

  /** Writing `v` at `k` changes the total by `v` minus whatever `k` held before
      (nothing, when `k` was absent). */
  lemma TotalUpdate<K>(m: map<K, int>, k: K, v: int)
    ensures Total(m[k := v]) == Total(m) - (if k in m then m[k] else 0) + v
  {
    var m' := m[k := v];
    SumOfPick(m', m'.Keys, k);
    assert m'.Keys - {k} == m.Keys - {k};
    SumOfAgree(m', m, m.Keys - {k});
    if k in m {
      SumOfPick(m, m.Keys, k);
    } else {
      assert m.Keys - {k} == m.Keys;
    }
  }
}
