/**
 Sums over the values of a finite map. The memory manager keeps running byte
 counters per category and per map; this module gives the reference value
 those counters are compared against.
 */
module MapSums {

  /** The sum of all values of `m`, in no particular key order. */
  ghost function Total<K>(m: map<K, nat>): nat
    decreases |m.Keys|
  {
    if |m.Keys| == 0 then 0
    else
      var k :| k in m;
      assert (m - {k}).Keys == m.Keys - {k};
      m[k] + Total(m - {k})
  }

  /** The key the definition of Total takes out first. */
  lemma PickKey<K>(m: map<K, nat>) returns (j: K)
    requires |m.Keys| != 0
    ensures j in m && Total(m) == m[j] + Total(m - {j})
  {
    j :| j in m && Total(m) == m[j] + Total(m - {j});
  }

  /** Taking any one key out of the map takes exactly its value out of the sum. */
  lemma {:induction false} TotalRemove<K>(m: map<K, nat>, k: K)
    requires k in m
    ensures Total(m) == m[k] + Total(m - {k})
    decreases |m.Keys|
  {
    assert k in m.Keys;
    var j := PickKey(m);
    if j != k {
      var mj, mk := m - {j}, m - {k};
      assert mj.Keys == m.Keys - {j};
      assert mk.Keys == m.Keys - {k};
      TotalRemove(mj, k);
      TotalRemove(mk, j);
      assert mj - {k} == mk - {j};
    }
  }

  /** Adding a fresh key adds exactly its value to the sum. */
  lemma TotalInsert<K>(m: map<K, nat>, k: K, v: nat)
    requires k !in m
    ensures Total(m[k := v]) == Total(m) + v
  {
    TotalRemove(m[k := v], k);
    assert m[k := v] - {k} == m;
  }
}
