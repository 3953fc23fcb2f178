/**
  The fleet's kilometres grouped by year and by month: the same days counted twice, so
  the groups agree, and their rounded figures differ by at most six.
*/
module FleetYears {
  import opened RealSums
  import opened FleetDistance

  /** The year and the month (from zero) of a day number. */
  datatype Dates = Dates(year: int -> int, month: int -> nat)

  ghost predicate TwelveMonths(c: Dates) { forall d :: c.month(d) < 12 }

  type Months = map<int, seq<real>>

  ghost predicate AllTwelve(months: Months) { forall y :: y in months ==> |months[y]| == 12 }

  function NoKm(): seq<real> { seq(12, _ => 0.0) }

  function MonthsOf(months: Months, y: int): seq<real> { if y in months then months[y] else NoKm() }

  function AddMonth(months: Months, y: int, i: nat, km: real): Months
    requires |MonthsOf(months, y)| == 12 && i < 12
  {
    months[y := MonthsOf(months, y)[i := MonthsOf(months, y)[i] + km]]
  }

  function SumSeq(s: seq<real>): real { if s == [] then 0.0 else s[0] + SumSeq(s[1..]) }

  lemma {:induction false} SumSeqOfUpdate(s: seq<real>, i: nat, v: real)
    requires i < |s|
    ensures SumSeq(s[i := v]) == SumSeq(s) - s[i] + v
  {
    if i == 0 {
      assert s[0 := v][1..] == s[1..];
    } else {
      SumSeqOfUpdate(s[1..], i - 1, v);
      assert s[i := v][1..] == s[1..][i - 1 := v];
    }
  }

  lemma {:induction false} SumOfZeros(n: nat)
    ensures SumSeq(seq(n, _ => 0.0)) == 0.0
  {
    if n > 0 {
      SumOfZeros(n - 1);
      assert seq(n, _ => 0.0)[1..] == seq(n - 1, _ => 0.0);
    }
  }

  // ------------------------------------------------------------- days of one bike

  function InYear(c: Dates, days: Days, y: int): Days { map d | d in days && c.year(d) == y :: days[d] }

  lemma {:induction false} InYearWithout(c: Dates, days: Days, y: int, d: int)
    requires d in days
    ensures Sum(InYear(c, days, y)) == Sum(InYear(c, days - {d}, y)) + if c.year(d) == y then days[d] else 0.0
  {
    var all: Days := InYear(c, days, y);
    if c.year(d) == y {
      SumWithout(all, d);
      assert InYear(c, days - {d}, y) == all - {d};
    } else {
      assert InYear(c, days - {d}, y) == all;
    }
  }

  /** Any key: the loops below visit maps whose order does not matter. */
  method AnyOf<K(==), V>(m: map<K, V>) returns (k: K)
    requires m != map[]
    ensures k in m
  {
    k :| k in m;
  }

  ghost predicate Shared(months: Months, before: Months, bikeYears: Days) {
    forall y :: SumSeq(MonthsOf(months, y)) == SumSeq(MonthsOf(before, y)) + At(bikeYears, y)
  }

  lemma {:induction false} OneMoreDay(months: Months, before: Months, bikeYears: Days, y: int, i: nat, km: real)
    requires AllTwelve(months) && i < 12 && Shared(months, before, bikeYears)
    ensures AllTwelve(AddMonth(months, y, i, km)) && Shared(AddMonth(months, y, i, km), before, Plus(bikeYears, y, km))
  {
    var after := AddMonth(months, y, i, km);
    var s := MonthsOf(months, y);
    SumSeqOfUpdate(s, i, s[i] + km);
    forall z ensures SumSeq(MonthsOf(after, z)) == SumSeq(MonthsOf(before, z)) + At(Plus(bikeYears, y, km), z) {
      assert SumSeq(MonthsOf(months, z)) == SumSeq(MonthsOf(before, z)) + At(bikeYears, z);
    }
  }

  ghost predicate ByYear(c: Dates, days: Days, rest: Days, bikeYears: Days) {
    forall y :: At(bikeYears, y) + Sum(InYear(c, rest, y)) == Sum(InYear(c, days, y))
  }

  function InMonth(c: Dates, days: Days, y: int, i: nat): Days {
    map d | d in days && c.year(d) == y && c.month(d) == i :: days[d]
  }

  function MonthKm(months: Months, y: int, i: nat): real {
    if y in months && i < |months[y]| then months[y][i] else 0.0
  }

  ghost predicate ByMonth(c: Dates, days: Days, rest: Days, before: Months, months: Months) {
    forall y, i: nat | i < 12 ::
      MonthKm(months, y, i) + Sum(InMonth(c, rest, y, i)) == MonthKm(before, y, i) + Sum(InMonth(c, days, y, i))
  }

  lemma {:induction false} InMonthWithout(c: Dates, days: Days, y: int, i: nat, d: int)
    requires d in days
    ensures Sum(InMonth(c, days, y, i))
         == Sum(InMonth(c, days - {d}, y, i)) + if c.year(d) == y && c.month(d) == i then days[d] else 0.0
  {
    var all: Days := InMonth(c, days, y, i);
    if c.year(d) == y && c.month(d) == i {
      SumWithout(all, d);
      assert InMonth(c, days - {d}, y, i) == all - {d};
    } else {
      assert InMonth(c, days - {d}, y, i) == all;
    }
  }

  lemma {:induction false} AddMonthAdds(months: Months, y: int, i: nat, km: real, z: int, j: nat)
    requires AllTwelve(months) && i < 12 && j < 12
    ensures MonthKm(AddMonth(months, y, i, km), z, j) == MonthKm(months, z, j) + if z == y && j == i then km else 0.0
  {}

  lemma {:induction false} ByMonthNext(c: Dates, days: Days, rest: Days, before: Months, months: Months, d: int)
    requires TwelveMonths(c) && AllTwelve(months) && ByMonth(c, days, rest, before, months) && d in rest
    ensures ByMonth(c, days, rest - {d}, before, AddMonth(months, c.year(d), c.month(d), rest[d]))
  {
    var after, fewer: Days := AddMonth(months, c.year(d), c.month(d), rest[d]), rest - {d};
    forall y, i: nat | i < 12
      ensures MonthKm(after, y, i) + Sum(InMonth(c, fewer, y, i)) == MonthKm(before, y, i) + Sum(InMonth(c, days, y, i))
    {
      InMonthWithout(c, rest, y, i, d);
      AddMonthAdds(months, c.year(d), c.month(d), rest[d], y, i);
      assert MonthKm(months, y, i) + Sum(InMonth(c, rest, y, i)) == MonthKm(before, y, i) + Sum(InMonth(c, days, y, i));
    }
  }

  ghost predicate InAll(days: Days, rest: Days, bikeYears: Days) { Sum(bikeYears) + Sum(rest) == Sum(days) }

  lemma {:induction false} ByYearNext(c: Dates, days: Days, rest: Days, bikeYears: Days, d: int, fewer: Days,
                                      more: Days)
    requires ByYear(c, days, rest, bikeYears) && d in rest
    requires fewer == rest - {d} && more == Plus(bikeYears, c.year(d), rest[d])
    ensures ByYear(c, days, fewer, more)
  {
    forall y ensures At(more, y) + Sum(InYear(c, fewer, y)) == Sum(InYear(c, days, y)) {
      InYearWithout(c, rest, y, d);
      assert At(bikeYears, y) + Sum(InYear(c, rest, y)) == Sum(InYear(c, days, y));
    }
  }

  lemma {:induction false} InAllNext(days: Days, rest: Days, bikeYears: Days, d: int, y: int)
    requires InAll(days, rest, bikeYears) && d in rest
    ensures InAll(days, rest - {d}, Plus(bikeYears, y, rest[d]))
  {
    PlusAdds(bikeYears, y, rest[d]);
    SumWithout(rest, d);
  }

  lemma {:induction false} ByYearBounds(c: Dates, days: Days, bikeYears: Days)
    ensures ByYear(c, days, days, map[])
    ensures ByYear(c, days, map[], bikeYears) ==> forall y :: At(bikeYears, y) == Sum(InYear(c, days, y))
  {
    forall y ensures Sum(InYear(c, map[], y)) == 0.0 { assert InYear(c, map[], y) == map[]; }
  }

  ghost predicate Counted(c: Dates, days: Days, rest: Days, before: Months, bikeYears: Days, months: Months) {
    && ByYear(c, days, rest, bikeYears) && InAll(days, rest, bikeYears)
    && AllTwelve(months) && ByMonth(c, days, rest, before, months) && Shared(months, before, bikeYears)
  }

  lemma {:induction false} CountedNext(c: Dates, days: Days, rest: Days, before: Months, bikeYears: Days,
                                       months: Months, d: int)
    requires TwelveMonths(c) && Counted(c, days, rest, before, bikeYears, months) && d in rest
    ensures Counted(c, days, rest - {d}, before, Plus(bikeYears, c.year(d), rest[d]),
                    AddMonth(months, c.year(d), c.month(d), rest[d]))
  {
    OneMoreDay(months, before, bikeYears, c.year(d), c.month(d), rest[d]);
    ByYearNext(c, days, rest, bikeYears, d, rest - {d}, Plus(bikeYears, c.year(d), rest[d]));
    InAllNext(days, rest, bikeYears, d, c.year(d));
    ByMonthNext(c, days, rest, before, months, d);
  }

  /** Each day goes into its year and into its month. */
  method CountDays(c: Dates, days: Days, before: Months) returns (bikeYears: Days, months: Months)
    requires TwelveMonths(c) && AllTwelve(before)
    ensures Counted(c, days, map[], before, bikeYears, months)
  {
    bikeYears, months := map[], before;
    var rest: Days := days;
    ByYearBounds(c, days, map[]);
    while rest != map[]
      invariant Counted(c, days, rest, before, bikeYears, months)
      decreases |rest|
    {
      var d := AnyOf(rest);
      CountedNext(c, days, rest, before, bikeYears, months, d);
      months := AddMonth(months, c.year(d), c.month(d), rest[d]);
      bikeYears := Plus(bikeYears, c.year(d), rest[d]);
      rest := rest - {d};
    }
  }

  /** What the counting means: years and months hold exactly their days, and the months add up to the year. */
  lemma {:induction false} CountedMeans(c: Dates, days: Days, before: Months, bikeYears: Days, months: Months, y: int,
                                        i: nat)
    requires Counted(c, days, map[], before, bikeYears, months) && i < 12
    ensures MonthKm(months, y, i) == MonthKm(before, y, i) + Sum(InMonth(c, days, y, i))
    ensures At(bikeYears, y) == Sum(InYear(c, days, y)) && Sum(bikeYears) == Sum(days)
    ensures SumSeq(MonthsOf(months, y)) - SumSeq(MonthsOf(before, y)) == At(bikeYears, y)
  {
    ByYearBounds(c, days, bikeYears);
    assert InMonth(c, map[], y, i) == map[];
    assert MonthKm(months, y, i) + Sum(InMonth(c, map[], y, i)) == MonthKm(before, y, i) + Sum(InMonth(c, days, y, i));
  }

  // -------------------------------------------------------------------- the fleet

  datatype Bike = Bike(id: nat, days: Days)

  type PerYear = map<int, map<nat, real>>

  function BikesIn(perYear: PerYear, y: int): map<nat, real> { if y in perYear then perYear[y] else map[] }

  ghost function YearDistance(perYear: PerYear, y: int): real { Sum(BikesIn(perYear, y)) }

  ghost function Totals(perYear: PerYear): Days { map y | y in perYear :: YearDistance(perYear, y) }

  ghost predicate NotYet(perYear: PerYear, id: nat) { forall y :: y in perYear ==> id !in perYear[y] }

  /** So far inserted and still to insert make up what was there and the bike's years. */
  ghost predicate YearsMoved(perYear: PerYear, rest: Days, before: PerYear, bikeYears: Days) {
    forall y :: YearDistance(perYear, y) + At(rest, y) == YearDistance(before, y) + At(bikeYears, y)
  }

  ghost predicate AllMoved(perYear: PerYear, rest: Days, before: PerYear, bikeYears: Days) {
    Sum(Totals(perYear)) + Sum(rest) == Sum(Totals(before)) + Sum(bikeYears)
  }

  function WithYear(perYear: PerYear, y: int, id: nat, km: real): PerYear {
    perYear[y := BikesIn(perYear, y)[id := km]]
  }

  lemma {:induction false} WithYearDistance(perYear: PerYear, y: int, id: nat, km: real, z: int)
    requires id !in BikesIn(perYear, y)
    ensures YearDistance(WithYear(perYear, y, id, km), z) == YearDistance(perYear, z) + if z == y then km else 0.0
  {
    SumOfUpdate(BikesIn(perYear, y), id, km);
  }

  lemma {:induction false} YearsMovedNext(perYear: PerYear, rest: Days, before: PerYear, bikeYears: Days, y: int,
                                          id: nat)
    requires YearsMoved(perYear, rest, before, bikeYears) && y in rest && id !in BikesIn(perYear, y)
    ensures YearsMoved(WithYear(perYear, y, id, rest[y]), rest - {y}, before, bikeYears)
  {
    var after, fewer: Days := WithYear(perYear, y, id, rest[y]), rest - {y};
    forall z ensures YearDistance(after, z) + At(fewer, z) == YearDistance(before, z) + At(bikeYears, z) {
      WithYearDistance(perYear, y, id, rest[y], z);
      assert YearDistance(perYear, z) + At(rest, z) == YearDistance(before, z) + At(bikeYears, z);
    }
  }

  lemma {:induction false} TotalsAt(perYear: PerYear, y: int)
    ensures At(Totals(perYear), y) == YearDistance(perYear, y)
  {}

  lemma {:induction false} SameDays(a: Days, b: Days)
    requires a.Keys == b.Keys && forall d :: At(a, d) == At(b, d)
    ensures a == b
  {
    forall d | d in a ensures a[d] == b[d] { assert At(a, d) == At(b, d); }
  }

  lemma {:induction false} TotalsOfYear(perYear: PerYear, y: int, id: nat, km: real)
    requires id !in BikesIn(perYear, y)
    ensures Totals(WithYear(perYear, y, id, km)) == Plus(Totals(perYear), y, km)
  {
    var after: PerYear := WithYear(perYear, y, id, km);
    forall z ensures At(Totals(after), z) == At(Plus(Totals(perYear), y, km), z) {
      WithYearDistance(perYear, y, id, km, z);
      TotalsAt(after, z);
      TotalsAt(perYear, z);
    }
    SameDays(Totals(after), Plus(Totals(perYear), y, km));
  }

  lemma {:induction false} AllMovedNext(perYear: PerYear, rest: Days, before: PerYear, bikeYears: Days, y: int, id: nat)
    requires AllMoved(perYear, rest, before, bikeYears) && y in rest && id !in BikesIn(perYear, y)
    ensures AllMoved(WithYear(perYear, y, id, rest[y]), rest - {y}, before, bikeYears)
  {
    TotalsOfYear(perYear, y, id, rest[y]);
    PlusAdds(Totals(perYear), y, rest[y]);
    SumWithout(rest, y);
  }

  ghost predicate Fresh(perYear: PerYear, rest: Days, id: nat) {
    forall y :: y in perYear && y in rest ==> id !in perYear[y]
  }

  /** `for (year, acc) in bike_years`: the bike's year joins the other bikes of that year. */
  method InsertYears(before: PerYear, id: nat, bikeYears: Days) returns (perYear: PerYear)
    requires NotYet(before, id)
    ensures YearsMoved(perYear, map[], before, bikeYears) && AllMoved(perYear, map[], before, bikeYears)
    ensures forall other :: other != id && NotYet(before, other) ==> NotYet(perYear, other)
  {
    perYear := before;
    var rest: Days := bikeYears;
    while rest != map[]
      invariant YearsMoved(perYear, rest, before, bikeYears) && AllMoved(perYear, rest, before, bikeYears)
      invariant Fresh(perYear, rest, id)
      invariant forall other :: other != id && NotYet(before, other) ==> NotYet(perYear, other)
      decreases |rest|
    {
      var y := AnyOf(rest);
      YearsMovedNext(perYear, rest, before, bikeYears, y, id);
      AllMovedNext(perYear, rest, before, bikeYears, y, id);
      perYear := WithYear(perYear, y, id, rest[y]);
      rest := rest - {y};
    }
  }

  ghost function AllKm(bikes: seq<Bike>): real {
    if bikes == [] then 0.0 else AllKm(bikes[..|bikes| - 1]) + Sum(bikes[|bikes| - 1].days)
  }

  ghost predicate Agree(perYear: PerYear, months: Months) {
    forall y :: SumSeq(MonthsOf(months, y)) == YearDistance(perYear, y)
  }

  /** Months and years agree in every year, and all of it is `total`. */
  ghost predicate Holds(perYear: PerYear, months: Months, total: real) {
    AllTwelve(months) && Agree(perYear, months) && Sum(Totals(perYear)) == total
  }

  lemma {:induction false} AgreeNext(perYear0: PerYear, months0: Months, perYear: PerYear, months: Months,
                                     bikeYears: Days)
    requires Agree(perYear0, months0) && Shared(months, months0, bikeYears)
    requires YearsMoved(perYear, map[], perYear0, bikeYears)
    ensures Agree(perYear, months)
  {
    forall y ensures SumSeq(MonthsOf(months, y)) == YearDistance(perYear, y) {
      assert SumSeq(MonthsOf(months0, y)) == YearDistance(perYear0, y);
      assert YearDistance(perYear, y) + At(map[], y) == YearDistance(perYear0, y) + At(bikeYears, y);
    }
  }

  method AddBike(c: Dates, b: Bike, perYear0: PerYear, months0: Months, ghost total: real)
    returns (perYear: PerYear, months: Months)
    requires TwelveMonths(c) && Holds(perYear0, months0, total) && NotYet(perYear0, b.id)
    ensures Holds(perYear, months, total + Sum(b.days))
    ensures forall other :: other != b.id && NotYet(perYear0, other) ==> NotYet(perYear, other)
  {
    var bikeYears;
    bikeYears, months := CountDays(c, b.days, months0);
    perYear := InsertYears(perYear0, b.id, bikeYears);
    AgreeNext(perYear0, months0, perYear, months, bikeYears);
  }

  method Accumulate(c: Dates, bikes: seq<Bike>) returns (perYear: PerYear, months: Months)
    requires TwelveMonths(c) && forall i, j :: 0 <= i < j < |bikes| ==> bikes[i].id != bikes[j].id
    ensures Holds(perYear, months, AllKm(bikes))
  {
    perYear, months := map[], map[];
    SumOfZeros(12);
    for n := 0 to |bikes|
      invariant Holds(perYear, months, AllKm(bikes[..n]))
      invariant forall i :: n <= i < |bikes| ==> NotYet(perYear, bikes[i].id)
    {
      assert bikes[..n + 1][..n] == bikes[..n];
      perYear, months := AddBike(c, bikes[n], perYear, months, AllKm(bikes[..n]));
    }
    assert bikes[..|bikes|] == bikes;
  }

  // -------------------------------------------------------------------- rounding

  /** `f64::round`: to the nearest integer, halves away from zero. */
  function Round(x: real): int { if x >= 0.0 then (x + 0.5).Floor else -((-x + 0.5).Floor) }

  function SumRounded(s: seq<real>): int { if s == [] then 0 else Round(s[0]) + SumRounded(s[1..]) }

  /** To the nearest integer; a half goes away from zero. */
  lemma {:induction false} RoundIsNear(x: real)
    ensures -0.5 <= Round(x) as real - x <= 0.5
    ensures x >= 0.0 ==> Round(x) as real - x > -0.5
    ensures x <= 0.0 ==> Round(x) as real - x < 0.5
  {}

  lemma {:induction false} RoundedSumIsNear(s: seq<real>)
    ensures -0.5 * |s| as real <= SumRounded(s) as real - SumSeq(s) <= 0.5 * |s| as real
  {
    if s != [] {
      RoundIsNear(s[0]);
      RoundedSumIsNear(s[1..]);
    }
  }

  /** A year's rounded distance and its twelve rounded months differ by at most six. */
  lemma {:induction false} MonthsNearYear(perYear: PerYear, months: Months, total: real, y: int)
    requires Holds(perYear, months, total)
    ensures -6 <= Round(YearDistance(perYear, y)) - SumRounded(MonthsOf(months, y)) <= 6
  {
    RoundIsNear(YearDistance(perYear, y));
    RoundedSumIsNear(MonthsOf(months, y));
  }
}
