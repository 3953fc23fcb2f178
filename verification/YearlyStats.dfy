/**
  Distance per year the other way: the highest reading of each year against the highest
  before it.  It is compared with the day-by-day distances of `FleetDistance`.
*/
module YearlyStats {
  import opened Options
  import opened Sums
  import F = FleetDistance
  import RealSums

  /** A maintenance record: its odometer, and its date as a day and as a year, where it reads as one. */
  datatype Entry = Entry(day: Option<int>, year: Option<int>, odo: int)

  datatype Bike = Bike(initialOdo: int, purchaseDay: Option<int>, purchaseYear: Option<int>)

  /** Records of previous owners predate the purchase. */
  predicate Owned(b: Bike, e: Entry) {
    b.purchaseDay.Some? && e.day.Some? ==> e.day.value >= b.purchaseDay.value
  }

  /** The highest positive odometer value among the bike's records of a year; zero without any. */
  function YearMax(b: Bike, records: seq<Entry>, y: int): int {
    if records == [] then 0
    else
      var e, before := records[|records| - 1], YearMax(b, records[..|records| - 1], y);
      if Owned(b, e) && e.year == Some(y) && e.odo > before then e.odo else before
  }

  /** The odometer carried over from year to year, never going back. */
  function Carried(b: Bike, records: seq<Entry>, first: int, y: int): int
    decreases y - first
  {
    if y < first then b.initialOdo
    else
      var last, max := Carried(b, records, first, y - 1), YearMax(b, records, y);
      if max > 0 && max > last then max else last
  }

  method YearMaxima(b: Bike, records: seq<Entry>, purchaseYear: int) returns (odoByYear: map<int, int>)
    ensures forall y :: y != purchaseYear - 1 ==> At(odoByYear, y) == YearMax(b, records, y)
    ensures forall y :: y != purchaseYear - 1 && y in odoByYear ==> odoByYear[y] > 0
  {
    odoByYear := map[purchaseYear - 1 := b.initialOdo];
    for i := 0 to |records|
      invariant forall y :: y != purchaseYear - 1 ==> At(odoByYear, y) == YearMax(b, records[..i], y)
      invariant forall y :: y != purchaseYear - 1 && y in odoByYear ==> odoByYear[y] > 0
    {
      var e := records[i];
      assert records[..i + 1][..i] == records[..i];
      if Owned(b, e) && e.year.Some? {
        var current := At(odoByYear, e.year.value);
        if e.odo > current { odoByYear := odoByYear[e.year.value := e.odo]; }
      }
    }
    assert records[..|records|] == records;
  }

  function Gain(b: Bike, records: seq<Entry>, first: int, y: int): (km: int)
    ensures km >= 0
  {
    Carried(b, records, first, y) - Carried(b, records, first, y - 1)
  }

  /** What the odometer gained in each year from `first` to `y`. */
  function Gains(b: Bike, records: seq<Entry>, first: int, y: int): map<int, int> {
    map z | first <= z <= y :: Gain(b, records, first, z)
  }

  lemma {:induction false} GainsNext(b: Bike, records: seq<Entry>, first: int, y: int)
    ensures Gains(b, records, first, y)
         == if y < first then map[] else Gains(b, records, first, y - 1)[y := Gain(b, records, first, y)]
  {}

  /** The yearly distances telescope to the lifetime distance. */
  lemma {:induction false} GainsTelescope(b: Bike, records: seq<Entry>, first: int, y: int)
    ensures MapSum(Gains(b, records, first, y)) == Carried(b, records, first, y) - b.initialOdo
    decreases y - first
  {
    GainsNext(b, records, first, y);
    if y >= first {
      GainsTelescope(b, records, first, y - 1);
      SumOfUpdate(Gains(b, records, first, y - 1), y, Gain(b, records, first, y));
    }
  }

  method YearlyDistances(b: Bike, records: seq<Entry>, startYear: int, currentYear: int)
    returns (distances: map<int, int>, bikeMax: int)
    requires startYear <= currentYear
    ensures var first := F.Larger(startYear, b.purchaseYear.GetOr(startYear));
            distances == Gains(b, records, first, currentYear) && bikeMax == Carried(b, records, first, currentYear)
  {
    var purchaseYear := b.purchaseYear.GetOr(startYear);
    ghost var first := F.Larger(startYear, purchaseYear);
    var odoByYear := YearMaxima(b, records, purchaseYear);
    var lastOdo := b.initialOdo;
    bikeMax, distances := b.initialOdo, map[];
    GainsNext(b, records, first, startYear - 1);
    for y := startYear to currentYear + 1
      invariant lastOdo == bikeMax == Carried(b, records, first, y - 1)
      invariant distances == Gains(b, records, first, y - 1)
    {
      GainsNext(b, records, first, y);
      if y >= purchaseYear {
        var maxOdoForYear := F.Larger(if y in odoByYear then odoByYear[y] else lastOdo, lastOdo);
        distances := distances[y := maxOdoForYear - lastOdo];
        lastOdo := maxOdoForYear;
        if maxOdoForYear > bikeMax { bikeMax := maxOdoForYear; }
      }
    }
  }

  // ------------------------------------------------- the two ways of counting agree

  /** Not dated before the purchase, as far as both dates are known. */
  ghost predicate SincePurchase(b: Bike, e: Entry) {
    b.purchaseDay.None? || e.day.None? || b.purchaseDay.value <= e.day.value
  }

  ghost predicate Counts(b: Bike, e: Entry, first: int, y: int) {
    SincePurchase(b, e) && e.year.Some? && first <= e.year.value <= y && e.odo > 0
  }

  lemma {:induction false} YearMaxIsMax(b: Bike, records: seq<Entry>, y: int)
    ensures YearMax(b, records, y) >= 0
    ensures forall e :: e in records && SincePurchase(b, e) && e.year == Some(y) ==> e.odo <= YearMax(b, records, y)
    ensures YearMax(b, records, y) == 0
         || exists e :: e in records && SincePurchase(b, e) && e.year == Some(y) && e.odo == YearMax(b, records, y)
  {
    if records != [] {
      var n := |records| - 1;
      YearMaxIsMax(b, records[..n], y);
      assert records == records[..n] + [records[n]];
    }
  }

  /** The carried odometer is the highest of the initial value and the records so far. */
  lemma {:induction false} CarriedIsHighest(b: Bike, records: seq<Entry>, first: int, y: int)
    ensures Carried(b, records, first, y) >= b.initialOdo
    ensures forall e :: e in records && Counts(b, e, first, y) ==> e.odo <= Carried(b, records, first, y)
    ensures Carried(b, records, first, y) == b.initialOdo
         || exists e :: e in records && Counts(b, e, first, y) && e.odo == Carried(b, records, first, y)
    decreases y - first
  {
    if y >= first {
      CarriedIsHighest(b, records, first, y - 1);
      YearMaxIsMax(b, records, y);
      forall e | e in records && Counts(b, e, first, y) ensures e.odo <= Carried(b, records, first, y) {
        if e.year.value < y { assert Counts(b, e, first, y - 1); }
      }
    }
  }

  /** What the fleet statistics take as readings: the bike's own records with a date and a positive odometer. */
  function Readings(b: Bike, records: seq<Entry>): seq<F.Reading> {
    if records == [] then []
    else
      var e, before := records[|records| - 1], Readings(b, records[..|records| - 1]);
      if e.day.Some? && Owned(b, e) && e.odo > 0 then before + [F.Reading(e.day.value, e.odo)] else before
  }

  lemma {:induction false} ReadingsAreOwn(b: Bike, records: seq<Entry>, r: F.Reading)
    ensures r in Readings(b, records)
       <==> exists e :: e in records && e.day == Some(r.day) && e.odo == r.odo && SincePurchase(b, e) && e.odo > 0
  {
    if records != [] {
      var n := |records| - 1;
      ReadingsAreOwn(b, records[..n], r);
      assert records == records[..n] + [records[n]];
    }
  }

  ghost predicate Monotone(yearOf: int -> int) { forall a, c :: a <= c ==> yearOf(a) <= yearOf(c) }

  /** The bike was bought on a known day, and every record has a date no later than this year. */
  ghost predicate Dated(b: Bike, records: seq<Entry>, yearOf: int -> int, currentYear: int) {
    && b.purchaseDay.Some? && b.purchaseYear == Some(yearOf(b.purchaseDay.value))
    && forall e :: e in records ==> e.day.Some? && e.year == Some(yearOf(e.day.value)) && e.year.value <= currentYear
  }

  lemma {:induction false} OwnRecordsCount(b: Bike, records: seq<Entry>, yearOf: int -> int, first: int,
                                           currentYear: int, e: Entry)
    requires Monotone(yearOf) && Dated(b, records, yearOf, currentYear) && first <= b.purchaseYear.value && e in records
    ensures Counts(b, e, first, currentYear) <==> SincePurchase(b, e) && e.odo > 0
  {}

  lemma {:induction false} SameHighest(b: Bike, records: seq<Entry>, yearOf: int -> int, first: int, currentYear: int)
    requires Monotone(yearOf) && Dated(b, records, yearOf, currentYear) && first <= b.purchaseYear.value
    ensures Carried(b, records, first, currentYear) == F.Highest(b.initialOdo, Readings(b, records))
  {
    var readings := Readings(b, records);
    var c, h := Carried(b, records, first, currentYear), F.Highest(b.initialOdo, readings);
    CarriedIsHighest(b, records, first, currentYear);
    F.HighestIsHighest(b.initialOdo, readings);
    if c != b.initialOdo {
      var e :| e in records && Counts(b, e, first, currentYear) && e.odo == c;
      ReadingsAreOwn(b, records, F.Reading(e.day.value, e.odo));
      assert h >= c;
    }
    if h != b.initialOdo {
      var r :| r in readings && r.odo == h;
      ReadingsAreOwn(b, records, r);
      var e :| e in records && e.day == Some(r.day) && e.odo == r.odo && SincePurchase(b, e) && e.odo > 0;
      OwnRecordsCount(b, records, yearOf, first, currentYear, e);
      assert c >= h;
    }
  }

  /**
    For an unsold bike with a purchase date and dated records up to this year, the yearly
    distances and the daily distances add up to the same lifetime distance.
  */
  lemma {:induction false} SameLifetimeDistance(b: Bike, records: seq<Entry>, yearOf: int -> int, startYear: int,
                                                currentYear: int)
    requires Monotone(yearOf) && Dated(b, records, yearOf, currentYear) && startYear <= b.purchaseYear.value
    ensures var first := F.Larger(startYear, b.purchaseYear.value);
            (Carried(b, records, first, currentYear) - b.initialOdo) as real
              == RealSums.Sum(F.Daily(Some(F.Reading(b.purchaseDay.value, b.initialOdo)), Readings(b, records)))
  {
    SameHighest(b, records, yearOf, F.Larger(startYear, b.purchaseYear.value), currentYear);
    F.DaysAddUp(F.Reading(b.purchaseDay.value, b.initialOdo), Readings(b, records));
  }
}
