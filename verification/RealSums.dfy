/** Sums of the real values of a map: money and kilometres. */
module RealSums {
  import opened Options

  ghost function Sum<K(!new)>(m: map<K, real>): real
    decreases |m|
  {
    if |m| == 0 then 0.0 else m[AnyKey(m)] + Sum(m - {AnyKey(m)})
  }

  /** Any key may be taken out first. */
  lemma {:induction false} SumWithout<K(!new)>(m: map<K, real>, k: K)
    requires k in m
    ensures Sum(m) == m[k] + Sum(m - {k})
    decreases |m|
  {
    var j := AnyKey(m);
    if j != k {
      SumWithout(m - {j}, k);
      SumWithout(m - {k}, j);
      assert m - {j} - {k} == m - {k} - {j};
    }
  }

  function At<K>(m: map<K, real>, k: K): real { if k in m then m[k] else 0.0 }

  lemma {:induction false} SumOfUpdate<K(!new)>(m: map<K, real>, k: K, v: real)
    ensures Sum(m[k := v]) == Sum(m) - At(m, k) + v
  {
    SumWithout(m[k := v], k);
    UpdateWithout(m, k, v);
    if k in m { SumWithout(m, k); }
  }

  lemma {:induction false} UpdateWithout<K>(m: map<K, real>, k: K, v: real)
    ensures m[k := v] - {k} == if k in m then m - {k} else m
  {}

  function Plus<K>(m: map<K, real>, k: K, v: real): map<K, real> { m[k := At(m, k) + v] }

  lemma {:induction false} PlusAdds<K(!new)>(m: map<K, real>, k: K, v: real)
    ensures Sum(Plus(m, k, v)) == Sum(m) + v
  {
    SumOfUpdate(m, k, At(m, k) + v);
  }

  lemma {:induction false} TakeFromUnion<K(!new)>(a: map<K, real>, b: map<K, real>, k: K)
    requires a.Keys !! b.Keys && k in b
    ensures (a + b)[k] == b[k] && (a + b) - {k} == a + (b - {k})
  {
    assert k !in a;
  }

  lemma {:induction false} SumOfUnion<K(!new)>(a: map<K, real>, b: map<K, real>)
    requires a.Keys !! b.Keys
    ensures Sum(a + b) == Sum(a) + Sum(b)
    decreases |b|
  {
    if b == map[] {
      assert a + b == a;
    } else {
      SumOfUnion(a, b - {AnyKey(b)});
      UnionStep(a, b, AnyKey(b));
    }
  }

  lemma {:induction false} UnionStep<K(!new)>(a: map<K, real>, b: map<K, real>, k: K)
    requires a.Keys !! b.Keys && k in b && Sum(a + (b - {k})) == Sum(a) + Sum(b - {k})
    ensures Sum(a + b) == Sum(a) + Sum(b)
  {
    TakeFromUnion(a, b, k);
    SumWithout(a + b, k);
    SumWithout(b, k);
  }
}
