/**
  The roll-ups of a map analysis: the same legs added up by year, by country and
  motorcycle within a year, and by calendar day.  No kilometre is lost or counted twice.
*/
module MapRollup {
  import opened Sums
  import opened TourSegments
  import opened Tours
  import opened MapAnalysis

  const UNKNOWN_COUNTRY: string := "??"

  datatype YearAgg = YearAgg(distance: int, byCountry: map<string, int>, byBike: map<int, int>)

  datatype Day = Day(km: int, stops: nat)

  type Years = map<int, YearAgg>
  type Calendar = map<string, Day>

  function CountryOf(w: World, l: Leg): string {
    if l.toLocation.Some? && l.toLocation.value in w.countries
    then w.countries[l.toLocation.value].GetOr(UNKNOWN_COUNTRY)
    else UNKNOWN_COUNTRY
  }

  // ------------------------------------------------------------------ splits

  /** `m` holds, for every key, the total of what `share` says the legs give that key. */
  ghost predicate Splits<K(!new)>(m: map<K, int>, share: K -> Leg -> int, legs: seq<Leg>) {
    forall k {:trigger Total(share(k), legs)} :: At(m, k) == Total(share(k), legs)
  }

  lemma {:induction false} SplitTakes<K(!new)>(m: map<K, int>, share: K -> Leg -> int, legs: seq<Leg>, l: Leg, key: K)
    requires Splits(m, share, legs) && forall k :: share(k)(l) == if k == key then l.km else 0
    ensures Splits(Plus(m, key, l.km), share, legs + [l])
  {
    forall k ensures At(Plus(m, key, l.km), k) == Total(share(k), legs + [l]) { TotalPush(share(k), legs, l); }
  }

  lemma {:induction false} SplitIgnores<K(!new)>(m: map<K, int>, share: K -> Leg -> int, legs: seq<Leg>, l: Leg)
    requires Splits(m, share, legs) && forall k :: share(k)(l) == 0
    ensures Splits(m, share, legs + [l])
  {
    forall k ensures At(m, k) == Total(share(k), legs + [l]) { TotalPush(share(k), legs, l); }
  }

  lemma {:induction false} SplitTouched<K(!new)>(m: map<K, int>, share: K -> Leg -> int, legs: seq<Leg>, key: K)
    requires Splits(m, share, legs)
    ensures Splits(Plus(m, key, 0), share, legs) && MapSum(Plus(m, key, 0)) == MapSum(m)
  {
    PlusAdds(m, key, 0);
    forall k ensures At(Plus(m, key, 0), k) == Total(share(k), legs) {}
  }

  function ByYear(): int -> Leg -> int { y => (l: Leg) => if l.year == y then l.km else 0 }

  /** The leg ends in this country; one that is not known goes by `??`. */
  predicate EndsIn(w: World, l: Leg, c: string) {
    if l.toLocation.Some? && l.toLocation.value in w.countries && w.countries[l.toLocation.value].Some?
    then c == w.countries[l.toLocation.value].value
    else c == "??"
  }

  function ByCountry(w: World, y: int): string -> Leg -> int {
    c => (l: Leg) => if l.year == y && EndsIn(w, l, c) then l.km else 0
  }

  function ByBike(y: int): int -> Leg -> int { m => (l: Leg) => if l.year == y && l.moto == m then l.km else 0 }

  function ByDay(): string -> Leg -> int { d => (l: Leg) => if l.endDate == d then l.km else 0 }

  // ------------------------------------------------------------------- years

  function YearAt(years: Years, y: int): YearAgg { if y in years then years[y] else YearAgg(0, map[], map[]) }

  function CountRecord(w: World, years: Years, s: Stop): Years {
    var y := YearOf(w, s.date);
    years[y := YearAt(years, y).(byBike := Plus(YearAt(years, y).byBike, s.moto, 0))]
  }

  function WithLeg(w: World, a: YearAgg, l: Leg): YearAgg {
    YearAgg(a.distance + l.km, Plus(a.byCountry, CountryOf(w, l), l.km), Plus(a.byBike, l.moto, l.km))
  }

  function CountLeg(w: World, years: Years, l: Leg): Years { years[l.year := WithLeg(w, YearAt(years, l.year), l)] }

  /** A year's entry is split exactly by country. */
  ghost predicate CountriesFit(w: World, legs: seq<Leg>, a: YearAgg, y: int) {
    Splits(a.byCountry, ByCountry(w, y), legs) && MapSum(a.byCountry) == a.distance
  }

  /** And by motorcycle. */
  ghost predicate BikesFit(legs: seq<Leg>, a: YearAgg, y: int) {
    Splits(a.byBike, ByBike(y), legs) && MapSum(a.byBike) == a.distance
  }

  function Distances(years: Years): map<int, int> { map y | y in years :: years[y].distance }

  ghost predicate DistancesAreExact(legs: seq<Leg>, years: Years) {
    Splits(Distances(years), ByYear(), legs) && MapSum(Distances(years)) == Total(Km, legs)
  }

  ghost predicate SplitByCountry(w: World, legs: seq<Leg>, years: Years) {
    forall y :: CountriesFit(w, legs, YearAt(years, y), y)
  }

  ghost predicate SplitByBike(legs: seq<Leg>, years: Years) { forall y :: BikesFit(legs, YearAt(years, y), y) }

  ghost predicate YearsAreExact(w: World, legs: seq<Leg>, years: Years) {
    DistancesAreExact(legs, years) && SplitByCountry(w, legs, years) && SplitByBike(legs, years)
  }

  lemma {:induction false} DistanceOfUpdate(years: Years, y: int, a: YearAgg, v: int)
    requires a.distance == YearAt(years, y).distance + v
    ensures Distances(years[y := a]) == Plus(Distances(years), y, v)
  {}

  lemma {:induction false} CountriesTakeLeg(w: World, legs: seq<Leg>, years: Years, l: Leg, y: int)
    requires CountriesFit(w, legs, YearAt(years, y), y)
    ensures CountriesFit(w, legs + [l], YearAt(CountLeg(w, years, l), y), y)
  {
    var m := YearAt(years, y).byCountry;
    if y == l.year {
      SplitTakes(m, ByCountry(w, y), legs, l, CountryOf(w, l));
      PlusAdds(m, CountryOf(w, l), l.km);
    } else {
      SplitIgnores(m, ByCountry(w, y), legs, l);
    }
  }

  lemma {:induction false} BikesTakeLeg(w: World, legs: seq<Leg>, years: Years, l: Leg, y: int)
    requires BikesFit(legs, YearAt(years, y), y)
    ensures BikesFit(legs + [l], YearAt(CountLeg(w, years, l), y), y)
  {
    var m := YearAt(years, y).byBike;
    if y == l.year {
      SplitTakes(m, ByBike(y), legs, l, l.moto);
      PlusAdds(m, l.moto, l.km);
    } else {
      SplitIgnores(m, ByBike(y), legs, l);
    }
  }

  lemma {:induction false} DistancesTakeLeg(w: World, legs: seq<Leg>, years: Years, l: Leg)
    requires DistancesAreExact(legs, years)
    ensures DistancesAreExact(legs + [l], CountLeg(w, years, l))
  {
    DistanceOfUpdate(years, l.year, WithLeg(w, YearAt(years, l.year), l), l.km);
    SplitTakes(Distances(years), ByYear(), legs, l, l.year);
    PlusAdds(Distances(years), l.year, l.km);
    TotalPush(Km, legs, l);
  }

  lemma {:induction false} CountLegKeeps(w: World, legs: seq<Leg>, years: Years, l: Leg)
    requires YearsAreExact(w, legs, years)
    ensures YearsAreExact(w, legs + [l], CountLeg(w, years, l))
  {
    DistancesTakeLeg(w, legs, years, l);
    forall y { CountriesTakeLeg(w, legs, years, l, y); }
    forall y { BikesTakeLeg(w, legs, years, l, y); }
  }

  /** Touching a year without adding kilometres. */
  lemma {:induction false} TouchKeeps(w: World, legs: seq<Leg>, years: Years, after: Years, y: int, a: YearAgg)
    requires YearsAreExact(w, legs, years) && after == years[y := a]
    requires a.distance == YearAt(years, y).distance && CountriesFit(w, legs, a, y) && BikesFit(legs, a, y)
    ensures YearsAreExact(w, legs, after)
  {
    TouchedDistances(legs, years, after, y, a);
    TouchedCountries(w, legs, years, after, y, a);
    TouchedBikes(legs, years, after, y, a);
  }

  lemma {:induction false} TouchedCountries(w: World, legs: seq<Leg>, years: Years, after: Years, y: int, a: YearAgg)
    requires SplitByCountry(w, legs, years) && after == years[y := a] && CountriesFit(w, legs, a, y)
    ensures SplitByCountry(w, legs, after)
  {
    forall z ensures CountriesFit(w, legs, YearAt(after, z), z) {
      if z != y { assert CountriesFit(w, legs, YearAt(years, z), z); }
    }
  }

  lemma {:induction false} TouchedBikes(legs: seq<Leg>, years: Years, after: Years, y: int, a: YearAgg)
    requires SplitByBike(legs, years) && after == years[y := a] && BikesFit(legs, a, y)
    ensures SplitByBike(legs, after)
  {
    forall z ensures BikesFit(legs, YearAt(after, z), z) {
      if z != y { assert BikesFit(legs, YearAt(years, z), z); }
    }
  }

  lemma {:induction false} TouchedDistances(legs: seq<Leg>, years: Years, after: Years, y: int, a: YearAgg)
    requires DistancesAreExact(legs, years) && after == years[y := a] && a.distance == YearAt(years, y).distance
    ensures DistancesAreExact(legs, after)
  {
    DistanceOfUpdate(years, y, a, 0);
    SplitTouched(Distances(years), ByYear(), legs, y);
  }

  lemma {:induction false} CountRecordKeeps(w: World, legs: seq<Leg>, years: Years, s: Stop)
    requires YearsAreExact(w, legs, years)
    ensures YearsAreExact(w, legs, CountRecord(w, years, s))
  {
    var y := YearOf(w, s.date);
    var a := YearAt(years, y);
    assert CountriesFit(w, legs, a, y) && BikesFit(legs, a, y);
    SplitTouched(a.byBike, ByBike(y), legs, s.moto);
    TouchKeeps(w, legs, years, CountRecord(w, years, s), y, a.(byBike := Plus(a.byBike, s.moto, 0)));
  }

  // ---------------------------------------------------------------- calendar

  function DayKm(calendar: Calendar): map<string, int> { map d | d in calendar :: calendar[d].km }

  ghost predicate CalendarIsExact(legs: seq<Leg>, calendar: Calendar) {
    Splits(DayKm(calendar), ByDay(), legs) && MapSum(DayKm(calendar)) == Total(Km, legs)
  }

  function AddDay(calendar: Calendar, d: string, km: int, stops: nat): Calendar {
    var day := if d in calendar then calendar[d] else Day(0, 0);
    calendar[d := Day(day.km + km, day.stops + stops)]
  }

  lemma {:induction false} DayKmOfAdd(calendar: Calendar, d: string, km: int, stops: nat)
    ensures DayKm(AddDay(calendar, d, km, stops)) == Plus(DayKm(calendar), d, km)
  {}

  lemma {:induction false} KeysOfAdd(calendar: Calendar, d: string, km: int, stops: nat)
    ensures AddDay(calendar, d, km, stops).Keys == calendar.Keys + {d}
  {}

  lemma {:induction false} CalendarTakesLeg(legs: seq<Leg>, calendar: Calendar, l: Leg)
    requires CalendarIsExact(legs, calendar)
    ensures CalendarIsExact(legs + [l], AddDay(calendar, l.endDate, l.km, 0))
  {
    DayKmOfAdd(calendar, l.endDate, l.km, 0);
    SplitTakes(DayKm(calendar), ByDay(), legs, l, l.endDate);
    PlusAdds(DayKm(calendar), l.endDate, l.km);
    TotalPush(Km, legs, l);
  }

  lemma {:induction false} CalendarTakesRecord(legs: seq<Leg>, calendar: Calendar, d: string)
    requires CalendarIsExact(legs, calendar)
    ensures CalendarIsExact(legs, AddDay(calendar, d, 0, 1))
  {
    DayKmOfAdd(calendar, d, 0, 1);
    SplitTouched(DayKm(calendar), ByDay(), legs, d);
  }

  // ------------------------------------------------------------- the methods

  function Dates(records: seq<Stop>, n: nat): set<string>
    requires n <= |records|
  {
    if n == 0 then {} else Dates(records, n - 1) + {records[n - 1].date}
  }

  lemma {:induction false} DateOfRecord(records: seq<Stop>, n: nat, i: nat)
    requires i < n <= |records|
    ensures records[i].date in Dates(records, n)
    decreases n
  {
    if i < n - 1 { DateOfRecord(records, n - 1, i); }
  }

  /** The years of the records; one whose date does not read has year zero. */
  function YearsSeen(w: World, records: seq<Stop>, n: nat): set<int>
    requires n <= |records|
  {
    if n == 0 then {} else YearsSeen(w, records, n - 1) + {YearOf(w, records[n - 1].date)}
  }

  lemma {:induction false} YearOfRecord(w: World, records: seq<Stop>, n: nat, i: nat)
    requires i < n <= |records|
    ensures YearOf(w, records[i].date) in YearsSeen(w, records, n)
    decreases n
  {
    if i < n - 1 { YearOfRecord(w, records, n - 1, i); }
  }

  function OnDate(d: string): Stop -> int { (s: Stop) => if s.date == d then 1 else 0 }

  function StopsAt(calendar: Calendar, d: string): nat { if d in calendar then calendar[d].stops else 0 }

  /** Every day's stops are the records of that date. */
  ghost predicate StopsCounted(records: seq<Stop>, calendar: Calendar) {
    forall d {:trigger StopsAt(calendar, d)} :: StopsAt(calendar, d) == Total(OnDate(d), records)
  }

  lemma {:induction false} StopCounted(records: seq<Stop>, n: nat, calendar: Calendar)
    requires n < |records| && StopsCounted(records[..n], calendar)
    ensures StopsCounted(records[..n + 1], AddDay(calendar, records[n].date, 0, 1))
  {
    var after := AddDay(calendar, records[n].date, 0, 1);
    assert records[..n + 1] == records[..n] + [records[n]];
    forall d ensures StopsAt(after, d) == Total(OnDate(d), records[..n + 1]) {
      assert StopsAt(calendar, d) == Total(OnDate(d), records[..n]);
      TotalPush(OnDate(d), records[..n], records[n]);
    }
  }

  /** The same stops on the same days, whatever kilometres were added. */
  ghost predicate SameStops(a: Calendar, b: Calendar) { a.Keys == b.Keys && forall d :: StopsAt(a, d) == StopsAt(b, d) }

  ghost predicate Exact(w: World, legs: seq<Leg>, years: Years, calendar: Calendar) {
    YearsAreExact(w, legs, years) && CalendarIsExact(legs, calendar)
  }

  lemma {:induction false} RecordKeepsExact(w: World, years: Years, calendar: Calendar, s: Stop)
    requires Exact(w, [], years, calendar)
    ensures Exact(w, [], CountRecord(w, years, s), AddDay(calendar, s.date, 0, 1))
  {
    CountRecordKeeps(w, [], years, s);
    CalendarTakesRecord([], calendar, s.date);
  }

  lemma {:induction false} LegKeepsExact(w: World, legs: seq<Leg>, n: nat, years: Years, calendar: Calendar)
    requires n < |legs| && Exact(w, legs[..n], years, calendar)
    ensures Exact(w, legs[..n + 1], CountLeg(w, years, legs[n]), AddDay(calendar, legs[n].endDate, legs[n].km, 0))
  {
    assert legs[..n + 1] == legs[..n] + [legs[n]];
    CountLegKeeps(w, legs[..n], years, legs[n]);
    CalendarTakesLeg(legs[..n], calendar, legs[n]);
  }

  lemma {:induction false} NothingIsExact(w: World)
    ensures Exact(w, [], map[], map[])
  {}

  ghost predicate Recorded(w: World, records: seq<Stop>, n: nat, years: Years, calendar: Calendar)
    requires n <= |records|
  {
    Exact(w, [], years, calendar) && Entered(w, records, n, years, calendar)
  }

  /** The days and years of the first `n` records are there, and the days' stops. */
  ghost predicate Entered(w: World, records: seq<Stop>, n: nat, years: Years, calendar: Calendar)
    requires n <= |records|
  {
    && calendar.Keys == Dates(records, n) && years.Keys == YearsSeen(w, records, n)
    && StopsCounted(records[..n], calendar)
  }

  lemma {:induction false} EnterOneMore(w: World, records: seq<Stop>, n: nat, years: Years, calendar: Calendar)
    requires n < |records| && Entered(w, records, n, years, calendar)
    ensures Entered(w, records, n + 1, CountRecord(w, years, records[n]), AddDay(calendar, records[n].date, 0, 1))
  {
    KeysOfAdd(calendar, records[n].date, 0, 1);
    StopCounted(records, n, calendar);
  }

  lemma {:induction false} RecordOneMore(w: World, records: seq<Stop>, n: nat, years: Years, calendar: Calendar)
    requires n < |records| && Recorded(w, records, n, years, calendar)
    ensures Recorded(w, records, n + 1, CountRecord(w, years, records[n]), AddDay(calendar, records[n].date, 0, 1))
  {
    RecordKeepsExact(w, years, calendar, records[n]);
    EnterOneMore(w, records, n, years, calendar);
  }

  method CountRecords(w: World, records: seq<Stop>) returns (years: Years, calendar: Calendar)
    ensures Recorded(w, records, |records|, years, calendar)
  {
    years, calendar := map[], map[];
    NothingIsExact(w);
    for i := 0 to |records|
      invariant Recorded(w, records, i, years, calendar)
    {
      RecordOneMore(w, records, i, years, calendar);
      years := CountRecord(w, years, records[i]);
      calendar := AddDay(calendar, records[i].date, 0, 1);
    }
  }

  /** A leg whose end date had no entry would be missing from the calendar; none is. */
  method CountLegs(w: World, legs: seq<Leg>, years0: Years, calendar0: Calendar)
    returns (years: Years, calendar: Calendar)
    requires Exact(w, [], years0, calendar0) && forall l :: l in legs ==> l.endDate in calendar0 && l.year in years0
    ensures Exact(w, legs, years, calendar) && SameStops(calendar, calendar0) && years.Keys == years0.Keys
  {
    years, calendar := years0, calendar0;
    for i := 0 to |legs|
      invariant Exact(w, legs[..i], years, calendar) && SameStops(calendar, calendar0) && years.Keys == years0.Keys
    {
      var l := legs[i];
      LegKeepsExact(w, legs, i, years, calendar);
      years := CountLeg(w, years, l);
      if l.endDate in calendar { calendar := AddDay(calendar, l.endDate, l.km, 0); }
    }
    assert legs[..|legs|] == legs;
  }

  lemma {:induction false} LegIsSeen(w: World, records: seq<Stop>, l: Leg)
    requires LegOf(w, records, l)
    ensures l.endDate in Dates(records, |records|) && l.year in YearsSeen(w, records, |records|)
  {
    LegEnds(w, records, l);
    var i :| 0 <= i < |records| && records[i].date == l.endDate;
    DateOfRecord(records, |records|, i);
    YearOfRecord(w, records, |records|, i);
  }

  lemma {:induction false} TourIsSeen(w: World, records: seq<Stop>, t: Tour)
    requires TourOfStops(w, StopsOf(records, t.moto), t)
    ensures t.year in YearsSeen(w, records, |records|)
  {
    var stops := StopsOf(records, t.moto);
    var a, b :| 0 <= a < b < |stops| && TourBetween(w, stops, a, b, t);
    StopsOfBike(records, t.moto);
    assert stops[a] in records;
    var i :| 0 <= i < |records| && records[i] == stops[a];
    YearOfRecord(w, records, |records|, i);
  }

  /** Every figure is that of the legs, every day's stops are its records, and there are no other days or years. */
  ghost predicate RolledUp(w: World, records: seq<Stop>, legs: seq<Leg>, years: Years, calendar: Calendar) {
    && Exact(w, legs, years, calendar) && StopsCounted(records, calendar)
    && calendar.Keys == Dates(records, |records|) && years.Keys == YearsSeen(w, records, |records|)
  }

  /** A tour's year has an entry, even one without legs. */
  method TouchYears(w: World, legs: seq<Leg>, tours: seq<Tour>, years0: Years) returns (years: Years)
    requires YearsAreExact(w, legs, years0) && forall t :: t in tours ==> t.year in years0
    ensures YearsAreExact(w, legs, years) && years.Keys == years0.Keys
  {
    years := years0;
    for i := 0 to |tours|
      invariant YearsAreExact(w, legs, years) && years.Keys == years0.Keys
    {
      var y := tours[i].year;
      assert CountriesFit(w, legs, YearAt(years, y), y) && BikesFit(legs, YearAt(years, y), y);
      var touched := years[y := YearAt(years, y)];
      TouchKeeps(w, legs, years, touched, y, YearAt(years, y));
      years := touched;
    }
  }

  method RollUp(w: World, records: seq<Stop>, legs: seq<Leg>, tours: seq<Tour>)
    returns (years: Years, calendar: Calendar)
    requires forall l :: l in legs ==> LegOf(w, records, l)
    requires forall t :: t in tours ==> TourOfStops(w, StopsOf(records, t.moto), t)
    ensures RolledUp(w, records, legs, years, calendar)
  {
    years, calendar := CountRecords(w, records);
    assert records[..|records|] == records;
    forall l | l in legs ensures l.endDate in calendar && l.year in years { LegIsSeen(w, records, l); }
    forall t | t in tours ensures t.year in years { TourIsSeen(w, records, t); }
    years, calendar := CountLegs(w, legs, years, calendar);
    years := TouchYears(w, legs, tours, years);
  }

  /**
    The analysis end to end.  One set of legs stands behind every figure: years, countries
    and motorcycles within a year, calendar days, and, for the tagged ones, tours.
  */
  method Summarise(w: World, records: seq<Stop>)
    returns (legs: seq<Leg>, tours: seq<Tour>, years: Years, calendar: Calendar)
    requires DistinctIds(records)
    ensures exists rides :: WholeAnalysis(w, records, rides) && ResultOf(rides, legs, tours)
    ensures forall rides :: WholeAnalysis(w, records, rides) ==> ResultOf(rides, legs, tours)
    ensures RolledUp(w, records, legs, years, calendar)
    ensures MapSum(Distances(years)) == MapSum(DayKm(calendar)) == Total(Km, legs)
    ensures Total(TourKm, tours) == Total(TaggedKm, legs) && IdsApart(tours)
    ensures forall l :: l in legs ==> LegOf(w, records, l)
    ensures forall t :: t in tours ==> TourOfStops(w, StopsOf(records, t.moto), t)
    ensures forall i, j :: 0 <= i < j < |tours| ==> ToursInOrder(tours[i], tours[j])
  {
    ghost var rides;
    legs, tours, rides := Analyse(w, records);
    LegsAreListed(w, records, rides);
    ToursAreListed(w, records, rides);
    SortedTours(AllTours(rides));
    ToursAreTheirLegs(w, records, rides);
    TourIdsAreUnique(w, records, rides);
    years, calendar := RollUp(w, records, legs, tours);
  }
}
