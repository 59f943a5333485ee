/** The sum of a quantity over the entries of a map. */
module MapSums {

  ghost function Total<K, V>(m: map<K, V>, get: V -> nat): nat {
    if m == map[] then 0
    else
      var k :| k in m;
      get(m[k]) + Total(m - {k}, get)
  }

  lemma {:induction false} TotalPick<K, V>(m: map<K, V>, get: V -> nat, k: K)
    requires k in m
    ensures Total(m, get) == get(m[k]) + Total(m - {k}, get)
    decreases |m|
  {
    var j :| j in m && Total(m, get) == get(m[j]) + Total(m - {j}, get);
    if j != k {
      TotalPick(m - {j}, get, k);
      TotalPick(m - {k}, get, j);
      assert m - {j} - {k} == m - {k} - {j};
    }
  }

  lemma TotalUpdate<K, V>(m: map<K, V>, get: V -> nat, k: K, v: V)
    ensures Total(m[k := v], get) + (if k in m then get(m[k]) else 0) == Total(m, get) + get(v)
  {
    TotalPick(m[k := v], get, k);
    if k in m {
      TotalPick(m, get, k);
      assert m[k := v] - {k} == m - {k};
    } else {
      assert m[k := v] - {k} == m;
    }
  }

  lemma TotalOfNone<K, V>(m: map<K, V>, get: V -> nat)
    requires m == map[]
    ensures Total(m, get) == 0
  {
  }
}
