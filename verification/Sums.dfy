/** The total of the values of a finite map. */
module Sums {

  ghost function Total<K>(m: map<K, nat>): nat {
    if m == map[] then 0
    else
      var k :| k in m;
      m[k] + Total(m - {k})
  }

  /** The order in which the values are added does not matter. */
  lemma {:induction false} TotalWithout<K>(m: map<K, nat>, k: K)
    requires k in m
    ensures Total(m) == m[k] + Total(m - {k})
  {
    var first :| first in m && Total(m) == m[first] + Total(m - {first});
    if first != k {
      assert (m - {first}) - {k} == (m - {k}) - {first};
      TotalWithout(m - {first}, k);
      TotalWithout(m - {k}, first);
    }
  }

  lemma TotalWith<K>(m: map<K, nat>, k: K, v: nat)
    requires k !in m
    ensures Total(m[k := v]) == Total(m) + v
  {
    TotalWithout(m[k := v], k);
    assert m[k := v] - {k} == m;
  }
}
