/** The sum of the values of a map. */
module Sums {

  ghost function Sum<K>(m: map<K, int>): int
  {
    if m.Keys == {} then 0 else
    var k :| k in m;
    m[k] + Sum(m - {k})
  }

  /** The sum does not depend on the order in which the keys are taken. */
  lemma {:induction false} SumRemove<K>(m: map<K, int>, k: K)
    requires k in m
    ensures Sum(m) == m[k] + Sum(m - {k})
    decreases m.Keys
  {
    var l :| l in m && Sum(m) == m[l] + Sum(m - {l});
    if k != l {
      var m1, m2 := m - {l}, m - {k};
      assert k in m1 && m1[k] == m[k] && l in m2 && m2[l] == m[l];
      SumRemove(m1, k);
      SumRemove(m2, l);
      assert m1 - {k} == m2 - {l};
    }
  }

  lemma SumUpdate<K>(m: map<K, int>, k: K, v: int)
    ensures Sum(m[k := v]) == Sum(m) + v - if k in m then m[k] else 0
  {
    SumRemove(m[k := v], k);
    if k in m {
      SumRemove(m, k);
      assert m[k := v] - {k} == m - {k};
    } else {
      assert m[k := v] - {k} == m;
    }
  }
}
