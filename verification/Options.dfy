/** The source's `Option`, for nullable columns and absent request fields, and what is shared about sets and maps. */
module Options {
  datatype Option<+T> = None | Some(value: T) {
    function GetOr(default: T): T { if Some? then value else default }
    function Or(other: Option<T>): Option<T> { if Some? then this else other }
  }

  /** An update: a field the request gives takes that value, one it leaves out keeps its own. */
  predicate Takes<T(==)>(given: Option<T>, before: T, after: T) {
    (given.Some? ==> after == given.value) && (given.None? ==> after == before)
  }

  predicate TakesOver<T(==)>(given: Option<T>, before: Option<T>, after: Option<T>) {
    (given.Some? ==> after == given) && (given.None? ==> after == before)
  }

  /** Some key of a map that has one. */
  ghost function AnyKey<K(!new), V>(m: map<K, V>): (k: K)
    requires |m| > 0
    ensures k in m
  {
    var k: K :| k in m;
    k
  }

  lemma {:induction false} SubsetSize<T>(a: set<T>, b: set<T>)
    requires a <= b
    ensures |a| <= |b|
  {
    assert b == a + (b - a);
  }
}
