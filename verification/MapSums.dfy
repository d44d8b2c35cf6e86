/** Sums over the values of a map. */
module MapSums {

  ghost function Pick<V>(m: map<nat, V>): (k: nat)
    requires m != map[]
    ensures k in m
  {
    var k :| k in m;
    k
  }

  ghost function Without<V>(m: map<nat, V>, k: nat): (r: map<nat, V>) {
    m - {k}
  }

  lemma WithoutSize<V>(m: map<nat, V>, k: nat)
    requires k in m
    ensures |Without(m, k)| < |m| && Without(m, k).Keys == m.Keys - {k}
  {
    assert Without(m, k).Keys == m.Keys - {k};
    assert |Without(m, k).Keys| == |Without(m, k)| && |m.Keys| == |m|;
  }

  ghost function Sum(m: map<nat, nat>): nat
    decreases |m|
  {
    if m == map[] then 0
    else
      WithoutSize(m, Pick(m));
      m[Pick(m)] + Sum(Without(m, Pick(m)))
  }

  lemma WithoutTwice<V>(m: map<nat, V>, j: nat, k: nat)
    ensures Without(Without(m, j), k) == Without(Without(m, k), j)
  {
  }

  /** The order of adding up does not matter. */
  lemma {:induction false} SumWithout(m: map<nat, nat>, k: nat)
    requires k in m
    ensures Sum(m) == m[k] + Sum(Without(m, k))
    decreases |m|
  {
    var j := Pick(m);
    WithoutSize(m, j);
    WithoutSize(m, k);
    if j != k {
      SumWithout(Without(m, j), k);
      SumWithout(Without(m, k), j);
      WithoutTwice(m, j, k);
    }
  }

  function ValueAt(m: map<nat, nat>, k: nat): nat {
    if k in m then m[k] else 0
  }

  lemma SumUpdated(m: map<nat, nat>, k: nat, v: nat)
    ensures Sum(m[k := v]) == Sum(m) - ValueAt(m, k) + v && Sum(m) >= ValueAt(m, k)
  {
    SumWithout(m[k := v], k);
    if k in m {
      SumWithout(m, k);
      assert Without(m[k := v], k) == Without(m, k);
    } else {
      assert Without(m[k := v], k) == m;
    }
  }
}
