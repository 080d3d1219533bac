// Sums of integer-valued maps, used to total table columns.

module Sums {

  ghost function Total<K>(m: map<K, int>): int
  {
    if m == map[] then 0
    else var k :| k in m; m[k] + Total(m - {k})
  }

  // The choice of key inside Total does not matter.
  lemma {:induction false} TotalMinus<K>(m: map<K, int>, k: K)
    requires k in m
    ensures Total(m) == m[k] + Total(m - {k})
    decreases |m|
  {
    var j :| j in m && Total(m) == m[j] + Total(m - {j});
    if j != k {
      TotalMinus(m - {j}, k);
      TotalMinus(m - {k}, j);
      assert m - {j} - {k} == m - {k} - {j};
    }
  }

  lemma TotalSet<K>(m: map<K, int>, k: K, v: int)
    ensures Total(m[k := v]) == Total(m) - (if k in m then m[k] else 0) + v
  {
    TotalMinus(m[k := v], k);
    assert m[k := v] - {k} == m - {k};
    if k in m {
      TotalMinus(m, k);
    } else {
      assert m - {k} == m;
    }
  }

  // Keys that hold nothing do not count.
  lemma {:induction false} TotalWithout<K>(m: map<K, int>, part: map<K, int>)
    requires part.Keys <= m.Keys
    requires forall k :: k in m ==> if k in part then m[k] == part[k] else m[k] == 0
    ensures Total(m) == Total(part)
    decreases |m|
  {
    if m == map[] {
      assert part == map[];
    } else {
      var k :| k in m;
      TotalMinus(m, k);
      if k in part {
        TotalMinus(part, k);
        TotalWithout(m - {k}, part - {k});
      } else {
        TotalWithout(m - {k}, part);
      }
    }
  }

  lemma {:induction false} TotalPlus<K>(m: map<K, int>, a: map<K, int>, b: map<K, int>)
    requires a.Keys == m.Keys && b.Keys == m.Keys
    requires forall k :: k in m ==> m[k] == a[k] + b[k]
    ensures Total(m) == Total(a) + Total(b)
    decreases |m|
  {
    if m == map[] {
      assert a == map[] && b == map[];
    } else {
      var k :| k in m;
      TotalMinus(m, k);
      TotalMinus(a, k);
      TotalMinus(b, k);
      TotalPlus(m - {k}, a - {k}, b - {k});
    }
  }

  // The same values under other keys.
  lemma {:induction false} TotalRenamed<K, L>(m: map<K, int>, n: map<L, int>, to: map<K, L>)
    requires to.Keys == m.Keys
    requires forall j, k :: j in m && k in m && to[j] == to[k] ==> j == k
    requires forall k :: k in m ==> to[k] in n && n[to[k]] == m[k]
    requires forall l :: l in n ==> exists k :: k in m && to[k] == l
    ensures Total(m) == Total(n)
    decreases |m|
  {
    if m == map[] {
      assert n == map[];
    } else {
      var k :| k in m;
      TotalMinus(m, k);
      TotalMinus(n, to[k]);
      forall l | l in n - {to[k]} ensures exists j :: j in m - {k} && (to - {k})[j] == l {
        var j :| j in m && to[j] == l;
        assert j in m - {k} && (to - {k})[j] == l;
      }
      TotalRenamed(m - {k}, n - {to[k]}, to - {k});
    }
  }
}
