/**
 * Totals over the values of a hash map, independent of iteration order.
 */
module MapSums {

  /** Some key of a non-empty map. */
  ghost function Pick<K>(m: map<K, nat>): (k: K)
    requires |m| > 0
    ensures k in m
  {
    assert m.Keys != {};
    var k :| k in m.Keys;
    k
  }

  /** The sum of all values of `m`. */
  ghost function Sum<K>(m: map<K, nat>): nat
    decreases |m|
  {
    if |m| == 0 then 0 else m[Pick(m)] + Sum(m - {Pick(m)})
  }

  /** Any key can be taken out first: the sum does not depend on the order of the keys. */
  lemma {:induction false} SumRemove<K>(m: map<K, nat>, k: K)
    requires k in m
    ensures Sum(m) == m[k] + Sum(m - {k})
    decreases |m|
  {
    assert k in m.Keys;
    var j := Pick(m);
    if j != k {
      assert |m - {j}| == |m| - 1;
      assert |m - {k}| == |m| - 1;
      SumRemove(m - {j}, k);
      SumRemove(m - {k}, j);
      assert m - {j} - {k} == m - {k} - {j};
    }
  }

  lemma SumUpdatePresent<K>(m: map<K, nat>, k: K, v: nat)
    requires k in m
    ensures Sum(m[k := v]) + m[k] == Sum(m) + v
  {
    var m' := m[k := v];
    SumRemove(m', k);
    SumRemove(m, k);
    assert m' - {k} == m - {k};
  }

  /** Moving the value at `from` onto `to` keeps the sum. */
  lemma SumMove<K>(m: map<K, nat>, from: K, to: K)
    requires from in m && to in m && from != to
    ensures Sum(m[to := m[to] + m[from]][from := 0]) == Sum(m)
  {
    var added := m[to := m[to] + m[from]];
    SumUpdatePresent(m, to, m[to] + m[from]);
    SumUpdatePresent(added, from, 0);
  }

  lemma SumUpdateAbsent<K>(m: map<K, nat>, k: K, v: nat)
    requires k !in m
    ensures Sum(m[k := v]) == Sum(m) + v
  {
    var m' := m[k := v];
    SumRemove(m', k);
    assert m' - {k} == m;
  }

  /** Changing (or adding) one entry changes the sum by the difference. */
  lemma SumUpdate<K>(m: map<K, nat>, k: K, v: nat)
    ensures Sum(m[k := v]) + (if k in m then m[k] else 0) == Sum(m) + v
  {
    if k in m {
      SumUpdatePresent(m, k, v);
    } else {
      SumUpdateAbsent(m, k, v);
    }
  }

  lemma SumEmpty<K>(m: map<K, nat>)
    requires |m| == 0
    ensures Sum(m) == 0
  {
  }

  lemma SumSingle<K>(k: K, v: nat)
    ensures Sum(map[k := v]) == v
  {
    SumRemove(map[k := v], k);
    assert map[k := v] - {k} == map[];
  }
}
