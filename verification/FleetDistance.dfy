/**
  Fleet distances: odometer deltas spread over days, the same kilometres by year and by
  month, and rounding.  Days are day numbers; kilometres are exact reals.
*/
module FleetDistance {
  import opened Options
  import opened Ordering
  import opened RealSums

  datatype Reading = Reading(day: int, odo: int)

  type Days = map<int, real>

  predicate ReadingLeq(a: Reading, b: Reading) { a.day < b.day || (a.day == b.day && a.odo <= b.odo) }

  function Larger(a: int, b: int): int { if a < b then b else a }

  /** `perDay` on every day after `first` up to `last`. */
  function Spread(days: Days, first: int, last: int, perDay: real): Days
    decreases last - first
  {
    if first >= last then days else Spread(Plus(days, first + 1, perDay), first + 1, last, perDay)
  }

  /** How a rise is shared among the days it took; the theorems need only that the shares make up the rise. */
  type Sharing = (int, int) -> real

  function Evenly(delta: int, span: int): real { if span > 0 then delta as real / span as real else 0.0 }

  function Times(perDay: real, n: int): real { perDay * n as real }

  ghost predicate Fair(share: Sharing) {
    forall delta, span :: span > 0 ==> Times(share(delta, span), span) == delta as real
  }

  /** What one accepted rise adds: on its day, or evenly over the days since the last reading. */
  function Added(share: Sharing, days: Days, base: Reading, r: Reading): Days
    requires r.odo >= base.odo
  {
    var delta := r.odo - base.odo;
    if delta == 0 then days
    else if r.day <= base.day then Plus(days, r.day, delta as real)
    else Spread(days, base.day, r.day, share(delta, r.day - base.day))
  }

  function DailyFrom(share: Sharing, base: Option<Reading>, readings: seq<Reading>, days: Days): Days
    decreases |readings|
  {
    if readings == [] then days
    else
      var r, rest := readings[0], readings[1..];
      if base.None? then DailyFrom(share, Some(r), rest, days)
      else if r.odo < base.value.odo then DailyFrom(share, base, rest, days)
      else DailyFrom(share, Some(Reading(Larger(r.day, base.value.day), r.odo)), rest,
                     Added(share, days, base.value, r))
  }

  /** Kilometres per day, from a bike's readings in any order. */
  function Daily(start: Option<Reading>, readings: seq<Reading>): Days {
    DailyFrom(Evenly, start, Sort(ReadingLeq, readings), map[])
  }

  method DailyDistance(start: Option<Reading>, unsorted: seq<Reading>) returns (days: Days)
    ensures days == Daily(start, unsorted)
    ensures start.Some? ==> SaysWhen(start.value, unsorted, days)
    ensures start.None? ==> forall first :: IsFirst(first, unsorted) ==> SaysWhen(first, unsorted, days)
  {
    DailySaysWhen(start, unsorted);
    var readings := Sort(ReadingLeq, unsorted);
    days := map[];
    var base := start;
    for i := 0 to |readings|
      invariant Daily(start, unsorted) == DailyFrom(Evenly, base, readings[i..], days)
    {
      var r := readings[i];
      assert readings[i..][0] == r && readings[i..][1..] == readings[i + 1..];
      if base.None? { base := Some(r); continue; }
      if r.odo < base.value.odo { continue; }
      var delta := r.odo - base.value.odo;
      if delta > 0 {
        var span := r.day - base.value.day;
        if span <= 0 {
          days := Plus(days, r.day, delta as real);
        } else {
          var perDay := Evenly(delta, span);
          var d, before := base.value.day, days;
          while d < r.day
            invariant d <= r.day && Spread(before, base.value.day, r.day, perDay) == Spread(days, d, r.day, perDay)
          {
            d := d + 1;
            days := Plus(days, d, perDay);
          }
        }
      }
      base := Some(Reading(Larger(r.day, base.value.day), r.odo));
    }
  }

  // ------------------------------------------------------------------ conservation

  /** The highest odometer value reached, starting from `odo`. */
  function Highest(odo: int, readings: seq<Reading>): int
    decreases |readings|
  {
    if readings == [] then odo else Highest(Larger(odo, readings[0].odo), readings[1..])
  }

  lemma {:induction false} SpreadAdds(days: Days, first: int, last: int, perDay: real)
    requires first <= last
    ensures Sum(Spread(days, first, last, perDay)) == Sum(days) + Times(perDay, last - first)
    decreases last - first
  {
    if first == last {
      NoDays(perDay);
    } else {
      var more: Days := Plus(days, first + 1, perDay);
      PlusAdds(days, first + 1, perDay);
      SpreadAdds(more, first + 1, last, perDay);
      assert Spread(days, first, last, perDay) == Spread(more, first + 1, last, perDay);
      OneMoreDay(perDay, last - first, Sum(days), Sum(more), Sum(Spread(more, first + 1, last, perDay)));
    }
  }

  lemma {:induction false} NoDays(perDay: real)
    ensures Times(perDay, 0) == 0.0
  {}

  lemma {:induction false} OneMoreDay(perDay: real, n: int, before: real, more: real, after: real)
    requires more == before + perDay && after == more + Times(perDay, n - 1)
    ensures after == before + Times(perDay, n)
  {}

  lemma {:induction false} EvenlyIsFair()
    ensures Fair(Evenly)
  {}

  lemma {:induction false} AddedAdds(share: Sharing, days: Days, base: Reading, r: Reading, after: Days)
    requires Fair(share) && r.odo >= base.odo && after == Added(share, days, base, r)
    ensures Sum(after) == Sum(days) + (r.odo - base.odo) as real
  {
    var delta := r.odo - base.odo;
    if delta == 0 {
      assert after == days;
    } else if r.day <= base.day {
      assert after == Plus(days, r.day, delta as real);
      PlusAdds(days, r.day, delta as real);
    } else {
      var perDay := share(delta, r.day - base.day);
      assert after == Spread(days, base.day, r.day, perDay);
      SpreadAdds(days, base.day, r.day, perDay);
    }
  }

  lemma {:induction false} DailyFromAdds(share: Sharing, base: Reading, readings: seq<Reading>, days: Days)
    requires Fair(share)
    ensures Sum(DailyFrom(share, Some(base), readings, days))
         == Sum(days) + (Highest(base.odo, readings) - base.odo) as real
    decreases |readings|
  {
    if readings != [] {
      var r, rest := readings[0], readings[1..];
      if r.odo < base.odo {
        DailyFromAdds(share, base, rest, days);
      } else {
        var after: Days := Added(share, days, base, r);
        AddedAdds(share, days, base, r, after);
        DailyFromAdds(share, Reading(Larger(r.day, base.day), r.odo), rest, after);
      }
    }
  }

  /** The order of the readings does not matter for the highest. */
  lemma {:induction false} HighestIsHighest(odo: int, readings: seq<Reading>)
    ensures Highest(odo, readings) >= odo && forall r :: r in readings ==> Highest(odo, readings) >= r.odo
    ensures Highest(odo, readings) == odo || exists r :: r in readings && r.odo == Highest(odo, readings)
    decreases |readings|
  {
    if readings != [] {
      HighestIsHighest(Larger(odo, readings[0].odo), readings[1..]);
      assert readings == [readings[0]] + readings[1..];
    }
  }

  lemma {:induction false} HighestOfSame(odo: int, a: seq<Reading>, b: seq<Reading>)
    requires forall r :: r in a <==> r in b
    ensures Highest(odo, a) == Highest(odo, b)
  {
    HighestIsHighest(odo, a);
    HighestIsHighest(odo, b);
  }

  lemma {:induction false} SortKeepsMembers(readings: seq<Reading>)
    ensures forall r :: r in Sort(ReadingLeq, readings) <==> r in readings
  {
    SortSorts(ReadingLeq, readings);
    forall r ensures r in Sort(ReadingLeq, readings) <==> r in readings {
      assert r in readings <==> r in multiset(readings);
      assert r in Sort(ReadingLeq, readings) <==> r in multiset(Sort(ReadingLeq, readings));
    }
  }

  /**
    With a start given, the days add up to the highest odometer value reached less the start,
    in whatever order the readings come and whichever of them go backwards.
  */
  lemma {:induction false} DaysAddUp(start: Reading, readings: seq<Reading>)
    ensures Sum(Daily(Some(start), readings)) == (Highest(start.odo, readings) - start.odo) as real
  {
    EvenlyIsFair();
    DailyFromAdds(Evenly, start, Sort(ReadingLeq, readings), map[]);
    SortKeepsMembers(readings);
    HighestOfSame(start.odo, Sort(ReadingLeq, readings), readings);
  }

  ghost predicate AllPositive(days: Days) { forall d :: d in days ==> days[d] > 0.0 }

  lemma {:induction false} SpreadIsPositive(days: Days, first: int, last: int, perDay: real)
    requires AllPositive(days) && perDay > 0.0
    ensures AllPositive(Spread(days, first, last, perDay))
    decreases last - first
  {
    if first < last { SpreadIsPositive(Plus(days, first + 1, perDay), first + 1, last, perDay); }
  }

  ghost predicate Positive(share: Sharing) { forall delta, span :: delta > 0 && span > 0 ==> share(delta, span) > 0.0 }

  lemma {:induction false} EvenlyIsPositive()
    ensures Positive(Evenly)
  {}

  lemma {:induction false} DailyFromIsPositive(share: Sharing, base: Option<Reading>, readings: seq<Reading>,
                                               days: Days)
    requires Positive(share) && AllPositive(days)
    ensures AllPositive(DailyFrom(share, base, readings, days))
    decreases |readings|
  {
    if readings != [] {
      var r, rest := readings[0], readings[1..];
      if base.None? {
        DailyFromIsPositive(share, Some(r), rest, days);
      } else if r.odo < base.value.odo {
        DailyFromIsPositive(share, base, rest, days);
      } else {
        var b := base.value;
        if b.odo < r.odo && b.day < r.day { SpreadIsPositive(days, b.day, r.day, share(r.odo - b.odo, r.day - b.day)); }
        DailyFromIsPositive(share, Some(Reading(Larger(r.day, b.day), r.odo)), rest, Added(share, days, b, r));
      }
    }
  }

  /** No day carries a negative distance, or is listed with none. */
  lemma {:induction false} DaysArePositive(start: Option<Reading>, readings: seq<Reading>)
    ensures AllPositive(Daily(start, readings))
  {
    EvenlyIsPositive();
    DailyFromIsPositive(Evenly, start, Sort(ReadingLeq, readings), map[]);
  }

  // --------------------------------------------------------- on which days they land

  function UpTo(days: Days, limit: int): Days { map d | d in days && d <= limit :: days[d] }

  ghost function KmUpTo(days: Days, limit: int): real { Sum(UpTo(days, limit)) }

  /** The readings of days no later than `limit`. */
  function Early(readings: seq<Reading>, limit: int): seq<Reading>
    decreases |readings|
  {
    if readings == [] then []
    else if readings[0].day <= limit then [readings[0]] + Early(readings[1..], limit) else Early(readings[1..], limit)
  }

  lemma {:induction false} EarlyMembers(readings: seq<Reading>, limit: int, r: Reading)
    ensures r in Early(readings, limit) <==> r in readings && r.day <= limit
    decreases |readings|
  {
    if readings != [] {
      EarlyMembers(readings[1..], limit, r);
      assert readings == [readings[0]] + readings[1..];
    }
  }

  lemma {:induction false} PlusUpTo(days: Days, d: int, v: real, limit: int)
    ensures KmUpTo(Plus(days, d, v), limit) == KmUpTo(days, limit) + if d <= limit then v else 0.0
  {
    if d <= limit {
      PlusEarly(days, d, v, limit);
      PlusAdds(UpTo(days, limit), d, v);
    } else {
      assert UpTo(Plus(days, d, v), limit) == UpTo(days, limit);
    }
  }

  lemma {:induction false} PlusEarly(days: Days, d: int, v: real, limit: int)
    requires d <= limit
    ensures UpTo(Plus(days, d, v), limit) == Plus(UpTo(days, limit), d, v)
  {}

  lemma {:induction false} SpreadWithin(days: Days, first: int, last: int, perDay: real, limit: int)
    requires first <= last <= limit
    ensures KmUpTo(Spread(days, first, last, perDay), limit) == KmUpTo(days, limit) + Times(perDay, last - first)
    decreases last - first
  {
    if first == last {
      NoDays(perDay);
    } else {
      var more: Days := Plus(days, first + 1, perDay);
      PlusUpTo(days, first + 1, perDay, limit);
      SpreadWithin(more, first + 1, last, perDay, limit);
      OneMoreDay(perDay, last - first, KmUpTo(days, limit), KmUpTo(more, limit),
                 KmUpTo(Spread(more, first + 1, last, perDay), limit));
    }
  }

  lemma {:induction false} SpreadBeyond(days: Days, first: int, last: int, perDay: real, limit: int)
    requires limit <= first
    ensures KmUpTo(Spread(days, first, last, perDay), limit) == KmUpTo(days, limit)
    decreases last - first
  {
    if first < last {
      PlusUpTo(days, first + 1, perDay, limit);
      SpreadBeyond(Plus(days, first + 1, perDay), first + 1, last, perDay, limit);
    }
  }

  lemma {:induction false} AddedWithin(share: Sharing, days: Days, base: Reading, r: Reading, limit: int)
    requires Fair(share) && r.odo >= base.odo && r.day <= limit
    ensures KmUpTo(Added(share, days, base, r), limit) == KmUpTo(days, limit) + (r.odo - base.odo) as real
  {
    var delta := r.odo - base.odo;
    if delta > 0 && r.day <= base.day {
      PlusUpTo(days, r.day, delta as real, limit);
    } else if delta > 0 {
      SpreadWithin(days, base.day, r.day, share(delta, r.day - base.day), limit);
    }
  }

  lemma {:induction false} AddedBeyond(share: Sharing, days: Days, base: Reading, r: Reading, limit: int)
    requires r.odo >= base.odo && limit < r.day && limit <= base.day
    ensures KmUpTo(Added(share, days, base, r), limit) == KmUpTo(days, limit)
  {
    var delta := r.odo - base.odo;
    if delta > 0 && r.day <= base.day {
      PlusUpTo(days, r.day, delta as real, limit);
    } else if delta > 0 {
      SpreadBeyond(days, base.day, r.day, share(delta, r.day - base.day), limit);
    }
  }

  /** The base the loop is left with. */
  function LastBase(base: Reading, readings: seq<Reading>): Reading
    decreases |readings|
  {
    if readings == [] then base
    else if readings[0].odo < base.odo then LastBase(base, readings[1..])
    else LastBase(Reading(Larger(readings[0].day, base.day), readings[0].odo), readings[1..])
  }

  lemma {:induction false} DailyFromAppend(share: Sharing, base: Reading, a: seq<Reading>, b: seq<Reading>, days: Days)
    ensures DailyFrom(share, Some(base), a + b, days)
         == DailyFrom(share, Some(LastBase(base, a)), b, DailyFrom(share, Some(base), a, days))
    decreases |a|
  {
    if a == [] {
      assert a + b == b;
    } else {
      var r, rest := a[0], a[1..];
      assert (a + b)[0] == r && (a + b)[1..] == rest + b;
      if r.odo < base.odo {
        DailyFromAppend(share, base, rest, b, days);
      } else {
        DailyFromAppend(share, Reading(Larger(r.day, base.day), r.odo), rest, b, Added(share, days, base, r));
      }
    }
  }

  lemma {:induction false} AllWithin(share: Sharing, base: Reading, readings: seq<Reading>, days: Days, limit: int)
    requires Fair(share) && forall r :: r in readings ==> r.day <= limit
    ensures KmUpTo(DailyFrom(share, Some(base), readings, days), limit)
         == KmUpTo(days, limit) + (Highest(base.odo, readings) - base.odo) as real
    decreases |readings|
  {
    if readings != [] {
      var r, rest := readings[0], readings[1..];
      assert readings == [r] + rest;
      if r.odo < base.odo {
        AllWithin(share, base, rest, days, limit);
      } else {
        AddedWithin(share, days, base, r, limit);
        AllWithin(share, Reading(Larger(r.day, base.day), r.odo), rest, Added(share, days, base, r), limit);
      }
    }
  }

  lemma {:induction false} AllBeyond(share: Sharing, base: Reading, readings: seq<Reading>, days: Days, limit: int)
    requires limit <= base.day && forall r :: r in readings ==> limit < r.day
    ensures KmUpTo(DailyFrom(share, Some(base), readings, days), limit) == KmUpTo(days, limit)
    decreases |readings|
  {
    if readings != [] {
      var r, rest := readings[0], readings[1..];
      assert readings == [r] + rest;
      if r.odo < base.odo {
        AllBeyond(share, base, rest, days, limit);
      } else {
        AddedBeyond(share, days, base, r, limit);
        AllBeyond(share, Reading(Larger(r.day, base.day), r.odo), rest, Added(share, days, base, r), limit);
      }
    }
  }

  lemma {:induction false} BaseMovesOn(base: Reading, readings: seq<Reading>)
    ensures LastBase(base, readings).day >= base.day
    ensures forall r :: r in readings && r.odo == Highest(base.odo, readings) ==> LastBase(base, readings).day >= r.day
    decreases |readings|
  {
    if readings != [] {
      var r, rest := readings[0], readings[1..];
      assert readings == [r] + rest;
      HighestIsHighest(base.odo, readings);
      BaseMovesOn(if r.odo < base.odo then base else Reading(Larger(r.day, base.day), r.odo), rest);
    }
  }

  lemma {:induction false} SortedSplits(s: seq<Reading>, limit: int) returns (late: seq<Reading>)
    requires Sorted(ReadingLeq, s)
    ensures s == Early(s, limit) + late && forall r :: r in late ==> limit < r.day
    decreases |s|
  {
    if s == [] {
      late := [];
    } else if s[0].day <= limit {
      late := SortedSplits(s[1..], limit);
      assert s == [s[0]] + s[1..];
    } else {
      late := s;
      forall r | r in s ensures limit < r.day {
        var i :| 0 <= i < |s| && s[i] == r;
        assert i > 0 ==> ReadingLeq(s[0], s[i]);
      }
      assert Early(s, limit) == [] by {
        if Early(s, limit) != [] { EarlyMembers(s, limit, Early(s, limit)[0]); }
      }
    }
  }

  lemma {:induction false} ReadingOrder()
    ensures TotalOrder(ReadingLeq)
  {}

  /** The highest value reached by the end of a day. */
  function HighestBy(odo: int, readings: seq<Reading>, limit: int): int { Highest(odo, Early(readings, limit)) }

  /** A day on which the distance is settled: the start, or one whose readings reach the highest value so far. */
  ghost predicate Settled(start: Reading, readings: seq<Reading>, day: int) {
    day == start.day || exists r :: r in readings && r.day == day && r.odo == HighestBy(start.odo, readings, day)
  }

  lemma {:induction false} SortKeepsEarly(readings: seq<Reading>, limit: int)
    ensures forall r :: r in Early(Sort(ReadingLeq, readings), limit) <==> r in Early(readings, limit)
  {
    SortKeepsMembers(readings);
    forall r ensures r in Early(Sort(ReadingLeq, readings), limit) <==> r in Early(readings, limit) {
      EarlyMembers(Sort(ReadingLeq, readings), limit, r);
      EarlyMembers(readings, limit, r);
    }
  }

  lemma {:induction false} SettledBase(start: Reading, readings: seq<Reading>, sorted: seq<Reading>, day: int)
    requires Settled(start, readings, day) && sorted == Sort(ReadingLeq, readings)
    ensures LastBase(start, Early(sorted, day)).day >= day
  {
    var early := Early(sorted, day);
    BaseMovesOn(start, early);
    SortKeepsEarly(readings, day);
    HighestOfSame(start.odo, early, Early(readings, day));
    if day != start.day {
      var r :| r in readings && r.day == day && r.odo == HighestBy(start.odo, readings, day);
      EarlyMembers(readings, day, r);
      assert r in early;
    }
  }

  /**
    On every settled day the distance so far is the highest value so far less the start: what was ridden
    by then is on days up to then, and what was ridden later is on later days.
  */
  lemma {:induction false} DaysAreSettled(start: Reading, readings: seq<Reading>, day: int)
    requires Settled(start, readings, day)
    ensures KmUpTo(Daily(Some(start), readings), day) == (HighestBy(start.odo, readings, day) - start.odo) as real
  {
    var sorted := Sort(ReadingLeq, readings);
    ReadingOrder();
    SortSorts(ReadingLeq, readings);
    var late := SortedSplits(sorted, day);
    var early := Early(sorted, day);
    var days: Days := DailyFrom(Evenly, Some(start), early, map[]);
    EvenlyIsFair();
    DailyFromAppend(Evenly, start, early, late, map[]);
    EarlyIsWithin(sorted, day);
    AllWithin(Evenly, start, early, map[], day);
    SettledBase(start, readings, sorted, day);
    AllBeyond(Evenly, LastBase(start, early), late, days, day);
    SortKeepsEarly(readings, day);
    HighestOfSame(start.odo, early, Early(readings, day));
    assert UpTo(map[], day) == map[];
  }

  lemma {:induction false} EarlyIsWithin(readings: seq<Reading>, limit: int)
    ensures forall r :: r in Early(readings, limit) ==> r.day <= limit
  {
    forall r | r in Early(readings, limit) ensures r.day <= limit { EarlyMembers(readings, limit, r); }
  }

  lemma {:induction false} SpreadDay(days: Days, first: int, last: int, perDay: real, d: int)
    requires first <= last
    ensures At(Spread(days, first, last, perDay), d) == At(days, d) + if first < d <= last then perDay else 0.0
    decreases last - first
  {
    if first < last { SpreadDay(Plus(days, first + 1, perDay), first + 1, last, perDay, d); }
  }

  /**
    A rise over some days gives each of them after the first an equal part, so many times over the whole,
    and no other day anything; a rise within a day goes to that day.
  */
  lemma {:induction false} RiseByDay(days: Days, base: Reading, r: Reading, d: int)
    requires r.odo >= base.odo
    ensures var gain := At(Added(Evenly, days, base, r), d) - At(days, d);
            if base.day < r.day then
              if base.day < d <= r.day then gain * (r.day - base.day) as real == (r.odo - base.odo) as real
              else gain == 0.0
            else gain == if d == r.day then (r.odo - base.odo) as real else 0.0
  {
    var delta := r.odo - base.odo;
    if delta > 0 && base.day < r.day {
      SpreadDay(days, base.day, r.day, Evenly(delta, r.day - base.day), d);
      EvenShare(delta, r.day - base.day);
    }
  }

  lemma {:induction false} EvenShare(delta: int, span: int)
    requires span > 0
    ensures Evenly(delta, span) * span as real == delta as real
  {}

  predicate IsFirst(first: Reading, readings: seq<Reading>) {
    first in readings && forall r :: r in readings ==> first.day < r.day || (first.day == r.day && first.odo <= r.odo)
  }

  /** Without a start the first reading, by day and odometer, is the start. */
  lemma {:induction false} FirstReadingStarts(readings: seq<Reading>, first: Reading)
    requires IsFirst(first, readings)
    ensures Daily(None, readings) == Daily(Some(first), readings)
  {
    var sorted := Sort(ReadingLeq, readings);
    ReadingOrder();
    SortSorts(ReadingLeq, readings);
    SortKeepsMembers(readings);
    var i :| 0 <= i < |sorted| && sorted[i] == first;
    assert i > 0 ==> ReadingLeq(sorted[0], sorted[i]);
    assert sorted[0] in sorted && sorted[0] == first;
    assert DailyFrom(Evenly, Some(first), sorted, map[]) == DailyFrom(Evenly, Some(first), sorted[1..], map[]);
  }

  /** What the days of a bike with a start, or of its first reading, say. */
  ghost predicate SaysWhen(start: Reading, readings: seq<Reading>, days: Days) {
    forall day :: Settled(start, readings, day) ==>
      KmUpTo(days, day) == (HighestBy(start.odo, readings, day) - start.odo) as real
  }

  lemma {:induction false} DailySaysWhen(start: Option<Reading>, readings: seq<Reading>)
    ensures start.Some? ==> SaysWhen(start.value, readings, Daily(start, readings))
    ensures start.None? ==>
              forall first :: IsFirst(first, readings) ==> SaysWhen(first, readings, Daily(start, readings))
    decreases if start.None? then 1 else 0
  {
    if start.Some? {
      forall day | Settled(start.value, readings, day)
        ensures KmUpTo(Daily(start, readings), day)
             == (HighestBy(start.value.odo, readings, day) - start.value.odo) as real
      {
        DaysAreSettled(start.value, readings, day);
      }
    } else {
      forall first | IsFirst(first, readings)
        ensures SaysWhen(first, readings, Daily(None, readings))
      {
        FirstReadingStarts(readings, first);
        DailySaysWhen(Some(first), readings);
      }
    }
  }
}
