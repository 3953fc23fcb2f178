/** Sums over sequences and over the values of maps, and how one change moves them. */
module Sums {
  import opened Options
  import opened Ordering

  function Total<T>(f: T -> int, s: seq<T>): int {
    if s == [] then 0 else Total(f, s[..|s| - 1]) + f(s[|s| - 1])
  }

  lemma {:induction false} TotalPush<T>(f: T -> int, s: seq<T>, x: T)
    ensures Total(f, s + [x]) == Total(f, s) + f(x)
  {
    assert (s + [x])[..|s|] == s;
  }

  lemma {:induction false} TotalAppend<T>(f: T -> int, a: seq<T>, b: seq<T>)
    ensures Total(f, a + b) == Total(f, a) + Total(f, b)
  {
    if b == [] {
      assert a + b == a;
    } else {
      TotalAppend(f, a, b[..|b| - 1]);
      assert (a + b)[..|a + b| - 1] == a + b[..|b| - 1];
    }
  }

  lemma {:induction false} TotalUpdate<T>(f: T -> int, s: seq<T>, i: nat, x: T)
    requires i < |s|
    ensures Total(f, s[i := x]) == Total(f, s) - f(s[i]) + f(x)
  {
    var a, b := s[..i], s[i + 1..];
    assert s == a + [s[i]] + b && s[i := x] == a + [x] + b;
    TotalAppend(f, a + [s[i]], b);
    TotalAppend(f, a + [x], b);
    TotalPush(f, a, s[i]);
    TotalPush(f, a, x);
  }

  lemma {:induction false} TotalOfInsert<T>(f: T -> int, leq: (T, T) -> bool, x: T, s: seq<T>)
    ensures Total(f, Insert(leq, x, s)) == Total(f, s) + f(x)
  {
    if s == [] || leq(x, s[0]) {
      TotalAppend(f, [x], s);
    } else {
      TotalOfInsert(f, leq, x, s[1..]);
      TotalAppend(f, [s[0]], Insert(leq, x, s[1..]));
      TotalAppend(f, [s[0]], s[1..]);
      assert s == [s[0]] + s[1..];
    }
  }

  /** Sorting does not change a sum. */
  lemma {:induction false} TotalOfSort<T>(f: T -> int, leq: (T, T) -> bool, s: seq<T>)
    ensures Total(f, Sort(leq, s)) == Total(f, s)
  {
    if s != [] {
      TotalOfSort(f, leq, s[1..]);
      TotalOfInsert(f, leq, s[0], Sort(leq, s[1..]));
      TotalAppend(f, [s[0]], s[1..]);
      assert s == [s[0]] + s[1..];
    }
  }

  /** An indicator that holds nowhere twice sums to at most one. */
  lemma {:induction false} AtMostOne<T>(f: T -> int, s: seq<T>)
    requires forall i :: 0 <= i < |s| ==> 0 <= f(s[i]) <= 1
    requires forall i, j :: 0 <= i < j < |s| ==> f(s[i]) == 0 || f(s[j]) == 0
    ensures 0 <= Total(f, s) <= 1
    ensures (forall i :: 0 <= i < |s| ==> f(s[i]) == 0) ==> Total(f, s) == 0
  {
    if s != [] {
      var n := |s| - 1;
      assert forall i :: 0 <= i < n ==> s[..n][i] == s[i];
      AtMostOne(f, s[..n]);
      if f(s[n]) == 1 { assert forall i :: 0 <= i < n ==> f(s[..n][i]) == 0; }
    }
  }

  lemma {:induction false} TotalAtLeast<T>(f: T -> int, s: seq<T>, i: nat)
    requires i < |s| && forall k :: 0 <= k < |s| ==> 0 <= f(s[k])
    ensures Total(f, s) >= f(s[i])
    decreases |s|
  {
    var n := |s| - 1;
    if i < n { TotalAtLeast(f, s[..n], i); } else if n > 0 { TotalAtLeast(f, s[..n], 0); }
  }

  lemma {:induction false} AtLeastTwo<T>(f: T -> int, s: seq<T>, i: nat, j: nat)
    requires i < j < |s| && f(s[i]) == f(s[j]) == 1 && forall k :: 0 <= k < |s| ==> 0 <= f(s[k])
    ensures Total(f, s) >= 2
    decreases |s|
  {
    var n := |s| - 1;
    if j < n { AtLeastTwo(f, s[..n], i, j); } else { TotalAtLeast(f, s[..n], i); }
  }

  ghost function MapSum<K(!new)>(m: map<K, int>): int
    decreases |m|
  {
    if |m| == 0 then 0
    else m[AnyKey(m)] + MapSum(m - {AnyKey(m)})
  }

  /** Any key may be taken out first. */
  lemma {:induction false} SumWithout<K(!new)>(m: map<K, int>, k: K)
    requires k in m
    ensures MapSum(m) == m[k] + MapSum(m - {k})
    decreases |m|
  {
    var j := AnyKey(m);
    if j != k {
      SumWithout(m - {j}, k);
      SumWithout(m - {k}, j);
      assert m - {j} - {k} == m - {k} - {j};
    }
  }

  function At<K>(m: map<K, int>, k: K): int { if k in m then m[k] else 0 }

  lemma {:induction false} SumOfUpdate<K(!new)>(m: map<K, int>, k: K, v: int)
    ensures MapSum(m[k := v]) == MapSum(m) - At(m, k) + v
  {
    SumWithout(m[k := v], k);
    UpdateWithout(m, k, v);
    if k in m { SumWithout(m, k); }
  }

  lemma {:induction false} UpdateWithout<K>(m: map<K, int>, k: K, v: int)
    ensures m[k := v] - {k} == if k in m then m - {k} else m
  {}

  function Plus<K>(m: map<K, int>, k: K, v: int): map<K, int> { m[k := At(m, k) + v] }

  lemma {:induction false} PlusAdds<K(!new)>(m: map<K, int>, k: K, v: int)
    ensures MapSum(Plus(m, k, v)) == MapSum(m) + v
  {
    SumOfUpdate(m, k, At(m, k) + v);
  }
}
