/** Sums over the rows of a map. */
module MapSums {

  ghost function Pick<K, V>(m: map<K, V>): K
    requires m != map[]
  {
    var k :| k in m;
    k
  }

  ghost function SumOver<K(!new), V>(m: map<K, V>, f: (K, V) -> int): int {
    if m == map[] then 0
    else
      var k := Pick(m);
      f(k, m[k]) + SumOver(m - {k}, f)
  }

  lemma {:induction false} SumOverRemove<K(!new), V>(m: map<K, V>, k: K, f: (K, V) -> int)
    requires k in m
    ensures SumOver(m, f) == f(k, m[k]) + SumOver(m - {k}, f)
    decreases m.Keys
  {
    var j := Pick(m);
    if j != k {
      var mj, mk := m - {j}, m - {k};
      SumOverRemove(mj, k, f);
      SumOverRemove(mk, j, f);
      assert mj - {k} == mk - {j};
    }
  }

  lemma SumOverWrite<K(!new), V>(m: map<K, V>, k: K, v: V, f: (K, V) -> int)
    ensures SumOver(m[k := v], f) == SumOver(m, f) + f(k, v) - (if k in m then f(k, m[k]) else 0)
  {
    SumOverRemove(m[k := v], k, f);
    assert m[k := v] - {k} == m - {k};
    if k in m {
      SumOverRemove(m, k, f);
    } else {
      assert m - {k} == m;
    }
  }

  lemma {:induction false} SumOverNonNegative<K(!new), V>(m: map<K, V>, f: (K, V) -> int)
    requires forall k :: k in m ==> f(k, m[k]) >= 0
    ensures SumOver(m, f) >= 0
    decreases m.Keys
  {
    if m != map[] {
      SumOverNonNegative(m - {Pick(m)}, f);
    }
  }
}
