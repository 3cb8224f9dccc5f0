/** The sum of a weight over a finite map's values, independent of any order of its keys. */
module MapSums {

  ghost function Sum<V>(m: map<string, V>, weight: V -> int): int {
    if m == map[] then 0
    else
      var k :| k in m;
      weight(m[k]) + Sum(m - {k}, weight)
  }

  lemma {:induction false} SumRemove<V>(m: map<string, V>, k: string, weight: V -> int)
    requires k in m
    ensures Sum(m, weight) == weight(m[k]) + Sum(m - {k}, weight)
    decreases |m|
  {
    var j :| j in m && Sum(m, weight) == weight(m[j]) + Sum(m - {j}, weight);
    if j != k {
      SumRemove(m - {j}, k, weight);
      SumRemove(m - {k}, j, weight);
      assert m - {j} - {k} == m - {k} - {j};
    }
  }

  lemma SumUpdate<V>(m: map<string, V>, k: string, v: V, weight: V -> int)
    ensures Sum(m[k := v], weight) == Sum(m, weight) - (if k in m then weight(m[k]) else 0) + weight(v)
  {
    SumRemove(m[k := v], k, weight);
    assert m[k := v] - {k} == m - {k};
    if k in m {
      SumRemove(m, k, weight);
    } else {
      assert m - {k} == m;
    }
  }

  lemma {:induction false} SumAgrees<V>(a: map<string, V>, b: map<string, V>, weight: V -> int)
    requires a.Keys == b.Keys
    requires forall k :: k in a ==> weight(a[k]) == weight(b[k])
    ensures Sum(a, weight) == Sum(b, weight)
    decreases |a|
  {
    if a == map[] {
      assert b == map[];
    } else {
      var k :| k in a;
      SumRemove(a, k, weight);
      SumRemove(b, k, weight);
      SumAgrees(a - {k}, b - {k}, weight);
    }
  }

  lemma {:induction false} SumNonNegative<V>(m: map<string, V>, weight: V -> int)
    requires forall k :: k in m ==> weight(m[k]) >= 0
    ensures Sum(m, weight) >= 0
    decreases |m|
  {
    if m != map[] {
      var k :| k in m;
      SumRemove(m, k, weight);
      SumNonNegative(m - {k}, weight);
    }
  }
}
