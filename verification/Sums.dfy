/** Sums over finite maps. */
module Sums {

  ghost function Sum<K>(m: map<K, int>): int
    decreases m.Keys
  {
    if m == map[] then 0
    else
      var k :| k in m;
      m[k] + Sum(m - {k})
  }

  lemma {:induction false} SumWithout<K>(m: map<K, int>, k: K)
    requires k in m
    ensures Sum(m) == m[k] + Sum(m - {k})
    decreases m.Keys
  {
    var j :| j in m && Sum(m) == m[j] + Sum(m - {j});
    if j != k {
      SumWithout(m - {j}, k);
      SumWithout(m - {k}, j);
      assert m - {j} - {k} == m - {k} - {j};
    }
  }

  lemma SumWith<K>(m: map<K, int>, k: K, v: int)
    requires k !in m
    ensures Sum(m[k := v]) == Sum(m) + v
  {
    SumWithout(m[k := v], k);
    assert m[k := v] - {k} == m;
  }

  /** Entries of value zero do not matter. */
  lemma {:induction false} SumDropsZeros<K>(m: map<K, int>, sub: map<K, int>)
    requires sub.Keys <= m.Keys
    requires forall k :: k in m ==> m[k] == if k in sub then sub[k] else 0
    ensures Sum(m) == Sum(sub)
    decreases m.Keys
  {
    if m.Keys == {} {
      assert sub == m;
    } else {
      var k :| k in m;
      SumWithout(m, k);
      if k in sub { SumWithout(sub, k); } else { assert sub - {k} == sub; }
      SumDropsZeros(m - {k}, sub - {k});
    }
  }

  lemma {:induction false} SumAdds<K>(a: map<K, int>, b: map<K, int>, c: map<K, int>)
    requires a.Keys == b.Keys == c.Keys && forall k :: k in c ==> c[k] == a[k] + b[k]
    ensures Sum(c) == Sum(a) + Sum(b)
    decreases c.Keys
  {
    if c.Keys != {} {
      var k :| k in c;
      SumWithout(a, k);
      SumWithout(b, k);
      SumWithout(c, k);
      SumAdds(a - {k}, b - {k}, c - {k});
    }
  }

  lemma {:induction false} SumOfNonNegatives<K>(m: map<K, int>)
    requires forall k :: k in m ==> m[k] >= 0
    ensures Sum(m) >= 0 && (Sum(m) == 0 <==> forall k :: k in m ==> m[k] == 0)
    decreases m.Keys
  {
    if m != map[] {
      var k :| k in m;
      var rest := m - {k};
      SumWithout(m, k);
      SumOfNonNegatives(rest);
      assert (forall j :: j in m ==> m[j] == 0) <==> m[k] == 0 && forall j :: j in rest ==> rest[j] == 0 by {
        assert forall j :: j in rest ==> rest[j] == m[j];
        assert forall j :: j in m && j != k ==> j in rest;
      }
    }
  }
}
