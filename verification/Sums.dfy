/** Sums over the values of a map. */
module Sums {

  ghost function SumOver<V>(m: map<nat, V>, f: V -> int): int
    decreases |m|
  {
    if m == map[] then 0
    else
      var k :| k in m;
      f(m[k]) + SumOver(m - {k}, f)
  }

  /** Any key can be taken out first. */
  lemma {:induction false} SumWithout<V>(m: map<nat, V>, f: V -> int, k: nat)
    requires k in m
    ensures SumOver(m, f) == f(m[k]) + SumOver(m - {k}, f)
    decreases |m|
  {
    var j :| j in m && SumOver(m, f) == f(m[j]) + SumOver(m - {j}, f);
    if j != k {
      SumWithout(m - {j}, f, k);
      SumWithout(m - {k}, f, j);
      assert m - {j} - {k} == m - {k} - {j};
    }
  }

  lemma SumSet<V>(m: map<nat, V>, f: V -> int, k: nat, v: V)
    ensures SumOver(m[k := v], f) == SumOver(m, f) + f(v) - if k in m then f(m[k]) else 0
  {
    var after := m[k := v];
    SumWithout(after, f, k);
    assert after - {k} == m - {k};
    if k in m {
      SumWithout(m, f, k);
    } else {
      assert m - {k} == m;
    }
  }

  lemma SizeWithout<V>(m: map<nat, V>, k: nat)
    requires k in m
    ensures |m - {k}| == |m| - 1
  {
    assert m == (m - {k})[k := m[k]];
  }
}
