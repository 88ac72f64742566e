/** Sums over the values of a finite map. */
module Sums {

  ghost function Sum<K>(m: map<K, int>): int
  {
    if m.Keys == {} then 0 else var k :| k in m.Keys; m[k] + Sum(m - {k})
  }

  lemma {:induction false} SumStep<K>(m: map<K, int>) returns (k: K)
    requires m.Keys != {}
    ensures k in m && Sum(m) == m[k] + Sum(m - {k}) && |m - {k}| < |m|
  {
    k :| k in m.Keys && Sum(m) == m[k] + Sum(m - {k});
    assert (m - {k}).Keys == m.Keys - {k};
  }

  lemma Commute<K>(m: map<K, int>, j: K, k: K)
    ensures m - {j} - {k} == m - {k} - {j}
  {
  }

  /** The key that is taken out first does not matter. */
  lemma {:induction false} SumWithout<K>(m: map<K, int>, k: K)
    requires k in m
    decreases |m|
    ensures Sum(m) == m[k] + Sum(m - {k})
  {
    var j := SumStep(m);
    if j != k {
      assert |m - {k}| < |m| by { assert (m - {k}).Keys == m.Keys - {k}; }
      SumWithout(m - {j}, k);
      SumWithout(m - {k}, j);
      Commute(m, j, k);
    }
  }

  lemma {:induction false} SumUpdate<K>(m: map<K, int>, k: K, v: int)
    ensures Sum(m[k := v]) == Sum(m - {k}) + v
    ensures Sum(m - {k}) == Sum(m) - (if k in m then m[k] else 0)
  {
    var m' := m[k := v];
    assert m' - {k} == m - {k};
    SumWithout(m', k);
    if k in m { SumWithout(m, k); } else { assert m - {k} == m; }
  }

  lemma {:induction false} SumNonNegative<K>(m: map<K, int>)
    requires forall k :: k in m ==> m[k] >= 0
    decreases |m|
    ensures Sum(m) >= 0
  {
    if m.Keys != {} {
      var k := SumStep(m);
      SumNonNegative(m - {k});
    }
  }

  lemma WithoutRight<K>(a: map<K, int>, b: map<K, int>, k: K)
    requires k !in a
    ensures (a + b) - {k} == a + (b - {k})
  {
  }

  lemma {:induction false} SumDisjoint<K>(a: map<K, int>, b: map<K, int>)
    requires forall k :: k in a ==> k !in b
    decreases |b|
    ensures Sum(a + b) == Sum(a) + Sum(b)
  {
    if b.Keys == {} {
      assert a + b == a;
    } else {
      hide Sum;
      var k := SumStep(b);
      SumDisjoint(a, b - {k});
      WithoutRight(a, b, k);
      SumWithout(a + b, k);
    }
  }
}
