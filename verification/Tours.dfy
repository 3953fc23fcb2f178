/**
  Legs, tours and their tags.  `AnalyseBike` runs the source's loops for one motorcycle;
  the theorems are about the values it is proved to return.
*/
module Tours {
  import opened Options
  import opened Ordering
  import opened Sums
  import opened TourSegments
  import Decimal

  datatype Leg = Leg(from: int, to: int, moto: int, toLocation: Option<int>, startDate: string, endDate: string,
                     km: int, year: int, tour: Option<string>)

  datatype Tour = Tour(id: string, moto: int, startDate: string, endDate: string, km: int, year: int, stops: nat)

  function YearOf(w: World, date: string): int { if date in w.yearNumber then w.yearNumber[date] else 0 }

  /** Windows are the consecutive pairs of stops; a window is ridden when the odometer rose. */
  function Windows(stops: seq<Stop>): nat { if stops == [] then 0 else |stops| - 1 }

  predicate Ridden(stops: seq<Stop>, i: nat)
    requires i < Windows(stops)
  {
    stops[i + 1].odo > stops[i].odo
  }

  function LegAt(w: World, stops: seq<Stop>, i: nat, tour: Option<string>): Leg
    requires i < Windows(stops)
  {
    var a, b := stops[i], stops[i + 1];
    var toLocation := if b.location.Some? && b.location.value in w.countries then b.location else None;
    Leg(a.id, b.id, b.moto, toLocation, a.date, b.date, b.odo - a.odo, YearOf(w, b.date), tour)
  }

  /** The legs of the first `n` windows, given the tour tag of each window. */
  function Legs(w: World, stops: seq<Stop>, tags: seq<Option<string>>, n: nat): seq<Leg>
    requires n <= Windows(stops) == |tags|
  {
    if n == 0 then []
    else if Ridden(stops, n - 1) then Legs(w, stops, tags, n - 1) + [LegAt(w, stops, n - 1, tags[n - 1])]
    else Legs(w, stops, tags, n - 1)
  }

  function LegNo(stops: seq<Stop>, i: nat): nat
    requires i <= Windows(stops)
  {
    if i == 0 then 0 else LegNo(stops, i - 1) + if Ridden(stops, i - 1) then 1 else 0
  }

  /** Kilometres of windows `a` up to `b`: the odometer rises, without the drops. */
  function RiddenKm(stops: seq<Stop>, a: nat, b: nat): int
    requires a <= b <= Windows(stops)
    decreases b
  {
    if a == b then 0
    else RiddenKm(stops, a, b - 1) + if Ridden(stops, b - 1) then stops[b].odo - stops[b - 1].odo else 0
  }

  predicate Emitted(stops: seq<Stop>, t: seq<nat>)
    requires Run(t, |stops|)
  {
    Less(stops[First(t)].date, stops[Last(t)].date)
  }

  function TourId(moto: int, startDate: string): string { Decimal.PrintInt(moto) + "-" + startDate }

  function TourOf(w: World, moto: int, stops: seq<Stop>, t: seq<nat>): Tour
    requires Run(t, |stops|)
  {
    var start := stops[First(t)].date;
    Tour(TourId(moto, start), moto, start, stops[Last(t)].date,
         RiddenKm(stops, First(t), Last(t)), YearOf(w, start), |t|)
  }

  ghost predicate Runs(stops: seq<Stop>, ts: seq<seq<nat>>) { forall i :: 0 <= i < |ts| ==> Run(ts[i], |stops|) }

  ghost function ToursOf(w: World, moto: int, stops: seq<Stop>, ts: seq<seq<nat>>): seq<Tour>
    requires Runs(stops, ts)
  {
    if ts == [] then []
    else
      var t, before := ts[|ts| - 1], ToursOf(w, moto, stops, ts[..|ts| - 1]);
      if Emitted(stops, t) then before + [TourOf(w, moto, stops, t)] else before
  }

  function Mark(tags: seq<Option<string>>, a: nat, b: nat, id: string): (marked: seq<Option<string>>)
    requires a <= b <= |tags|
    ensures |marked| == |tags|
    decreases b
  {
    if a == b then tags else Mark(tags, a, b - 1, id)[b - 1 := Some(id)]
  }

  lemma {:induction false} Marked(tags: seq<Option<string>>, a: nat, b: nat, id: string, i: nat)
    requires a <= b <= |tags| && i < |tags|
    ensures Mark(tags, a, b, id)[i] == if a <= i < b then Some(id) else tags[i]
    decreases b
  {
    if a < b { Marked(tags, a, b - 1, id, i); }
  }

  function Untagged(n: nat): seq<Option<string>> { seq(n, _ => None) }

  ghost function Tags(moto: int, stops: seq<Stop>, ts: seq<seq<nat>>): (tags: seq<Option<string>>)
    requires Runs(stops, ts)
    ensures |tags| == Windows(stops)
  {
    if ts == [] then Untagged(Windows(stops))
    else
      var t, before := ts[|ts| - 1], Tags(moto, stops, ts[..|ts| - 1]);
      if Emitted(stops, t) then Mark(before, First(t), Last(t), TourId(moto, stops[First(t)].date)) else before
  }

  ghost predicate InTour(stops: seq<Stop>, t: seq<nat>, i: nat)
    requires Run(t, |stops|)
  {
    Emitted(stops, t) && First(t) <= i < Last(t)
  }

  lemma {:induction false} SegmentationRuns(w: World, stops: seq<Stop>, ts: seq<seq<nat>>, n: nat)
    requires Segmentation(w, stops, ts) && n <= |ts|
    ensures Runs(stops, ts[..n])
  {}

  /** No leg belongs to two tours. */
  lemma {:induction false} LegInOneTour(w: World, stops: seq<Stop>, ts: seq<seq<nat>>, i: nat, j: nat, k: nat)
    requires Segmentation(w, stops, ts) && j < k < |ts| && i < Windows(stops)
    ensures !(InTour(stops, ts[j], i) && InTour(stops, ts[k], i))
  {
    assert Follows(w, stops, ts[j], ts[k]);
  }

  lemma {:induction false} OneMore(w: World, moto: int, stops: seq<Stop>, ts: seq<seq<nat>>, n: nat)
    requires n < |ts| && Runs(stops, ts[..n]) && Runs(stops, ts[..n + 1])
    ensures Run(ts[n], |stops|)
    ensures var before := Tags(moto, stops, ts[..n]);
            Tags(moto, stops, ts[..n + 1])
              == if Emitted(stops, ts[n])
                 then Mark(before, First(ts[n]), Last(ts[n]), TourId(moto, stops[First(ts[n])].date))
                 else before
    ensures var tours := ToursOf(w, moto, stops, ts[..n]);
            ToursOf(w, moto, stops, ts[..n + 1])
            == if Emitted(stops, ts[n]) then tours + [TourOf(w, moto, stops, ts[n])] else tours
  {
    assert ts[..n + 1][n] == ts[n];
    assert ts[..n + 1][..n] == ts[..n];
  }

  ghost predicate InSome(stops: seq<Stop>, ts: seq<seq<nat>>, n: nat, i: nat)
    requires n <= |ts| && Runs(stops, ts)
  {
    exists j :: 0 <= j < n && InTour(stops, ts[j], i)
  }

  /** The tag a window should carry after the first `n` tours. */
  ghost predicate TagIs(moto: int, stops: seq<Stop>, ts: seq<seq<nat>>, n: nat, i: nat, tag: Option<string>)
    requires n <= |ts| && Runs(stops, ts)
  {
    && (tag.Some? <==> InSome(stops, ts, n, i))
    && (forall j :: 0 <= j < n && InTour(stops, ts[j], i) ==> tag == Some(TourId(moto, stops[First(ts[j])].date)))
  }

  lemma {:induction false} InSomeNext(stops: seq<Stop>, ts: seq<seq<nat>>, n: nat, i: nat)
    requires n < |ts| && Runs(stops, ts)
    ensures InSome(stops, ts, n + 1, i) <==> InSome(stops, ts, n, i) || InTour(stops, ts[n], i)
  {
    if InSome(stops, ts, n, i) {
      var j :| 0 <= j < n && InTour(stops, ts[j], i);
      assert j < n + 1;
    }
  }

  lemma {:induction false} TagNext(w: World, moto: int, stops: seq<Stop>, ts: seq<seq<nat>>, n: nat, i: nat,
                                   tag: Option<string>, tag': Option<string>)
    requires Segmentation(w, stops, ts) && Runs(stops, ts) && n < |ts| && i < Windows(stops)
    requires TagIs(moto, stops, ts, n, i, tag)
    requires tag' == if InTour(stops, ts[n], i) then Some(TourId(moto, stops[First(ts[n])].date)) else tag
    ensures TagIs(moto, stops, ts, n + 1, i, tag')
  {
    InSomeNext(stops, ts, n, i);
    forall j | 0 <= j < n + 1 && InTour(stops, ts[j], i) ensures tag' == Some(TourId(moto, stops[First(ts[j])].date)) {
      if j < n { LegInOneTour(w, stops, ts, i, j, n); }
    }
  }

  lemma {:induction false} TagAfterNext(w: World, moto: int, stops: seq<Stop>, ts: seq<seq<nat>>, n: nat, i: nat)
    requires n < |ts| && Runs(stops, ts[..n]) && Runs(stops, ts[..n + 1]) && Run(ts[n], |stops|) && i < Windows(stops)
    ensures Tags(moto, stops, ts[..n + 1])[i]
         == if InTour(stops, ts[n], i) then Some(TourId(moto, stops[First(ts[n])].date))
            else Tags(moto, stops, ts[..n])[i]
  {
    var t := ts[n];
    OneMore(w, moto, stops, ts, n);
    if Emitted(stops, t) {
      Marked(Tags(moto, stops, ts[..n]), First(t), Last(t), TourId(moto, stops[First(t)].date), i);
    }
  }

  /** A window carries a tag exactly when a multi-day tour rides through it, and then that tour's. */
  lemma {:induction false} TagMeansTour(w: World, moto: int, stops: seq<Stop>, ts: seq<seq<nat>>, n: nat, i: nat)
    requires Segmentation(w, stops, ts) && Runs(stops, ts) && n <= |ts| && i < Windows(stops) && Runs(stops, ts[..n])
    ensures TagIs(moto, stops, ts, n, i, Tags(moto, stops, ts[..n])[i])
    decreases n
  {
    if n > 0 {
      SegmentationRuns(w, stops, ts, n - 1);
      TagMeansTour(w, moto, stops, ts, n - 1, i);
      TagAfterNext(w, moto, stops, ts, n - 1, i);
      TagNext(w, moto, stops, ts, n - 1, i, Tags(moto, stops, ts[..n - 1])[i], Tags(moto, stops, ts[..n])[i]);
    }
  }

  lemma {:induction false} LegsLength(w: World, stops: seq<Stop>, tags: seq<Option<string>>, n: nat)
    requires n <= Windows(stops) == |tags|
    ensures |Legs(w, stops, tags, n)| == LegNo(stops, n)
  {
    if n > 0 { LegsLength(w, stops, tags, n - 1); }
  }

  lemma {:induction false} LegNoGrows(stops: seq<Stop>, i: nat, n: nat)
    requires i <= n <= Windows(stops)
    ensures LegNo(stops, i) <= LegNo(stops, n)
    decreases n
  {
    if i < n { LegNoGrows(stops, i, n - 1); }
  }

  /** Changing one window's tag changes its leg in place, if it has one. */
  lemma {:induction false} Retag(w: World, stops: seq<Stop>, tags: seq<Option<string>>, i: nat, tag: Option<string>,
                                 n: nat)
    requires i < Windows(stops) == |tags| && n <= Windows(stops)
    ensures var legs, after := Legs(w, stops, tags, n), Legs(w, stops, tags[i := tag], n);
            if i < n && Ridden(stops, i)
            then LegNo(stops, i) < |legs| && legs[LegNo(stops, i)] == LegAt(w, stops, i, tags[i])
                 && after == legs[LegNo(stops, i) := LegAt(w, stops, i, tag)]
            else after == legs
    decreases n
  {
    if n > 0 {
      Retag(w, stops, tags, i, tag, n - 1);
      LegsLength(w, stops, tags, n - 1);
      if i < n { LegNoGrows(stops, i, n - 1); }
    }
  }

  function Km(l: Leg): int { l.km }

  function TaggedKm(l: Leg): int { if l.tour.Some? then l.km else 0 }

  function TourKm(t: Tour): int { t.km }

  lemma {:induction false} MarkAddsKm(w: World, stops: seq<Stop>, tags: seq<Option<string>>, a: nat, b: nat, id: string)
    requires a <= b <= Windows(stops) == |tags| && forall i :: a <= i < b ==> tags[i] == None
    ensures Total(TaggedKm, Legs(w, stops, Mark(tags, a, b, id), |tags|))
         == Total(TaggedKm, Legs(w, stops, tags, |tags|)) + RiddenKm(stops, a, b)
    decreases b
  {
    if a < b {
      MarkAddsKm(w, stops, tags, a, b - 1, id);
      var before := Mark(tags, a, b - 1, id);
      Marked(tags, a, b - 1, id, b - 1);
      Retag(w, stops, before, b - 1, Some(id), |tags|);
      if Ridden(stops, b - 1) {
        TotalUpdate(TaggedKm, Legs(w, stops, before, |tags|), LegNo(stops, b - 1), LegAt(w, stops, b - 1, Some(id)));
      }
    }
  }

  lemma {:induction false} UntaggedKm(w: World, stops: seq<Stop>, n: nat)
    requires n <= Windows(stops)
    ensures Total(TaggedKm, Legs(w, stops, Untagged(Windows(stops)), n)) == 0
  {
    if n > 0 {
      UntaggedKm(w, stops, n - 1);
      TotalPush(TaggedKm, Legs(w, stops, Untagged(Windows(stops)), n - 1), LegAt(w, stops, n - 1, None));
    }
  }

  lemma {:induction false} EarlierToursDoNotTag(w: World, moto: int, stops: seq<Stop>, ts: seq<seq<nat>>, n: nat)
    requires Segmentation(w, stops, ts) && Runs(stops, ts) && n < |ts| && Runs(stops, ts[..n]) && Emitted(stops, ts[n])
    ensures forall i :: First(ts[n]) <= i < Last(ts[n]) ==> Tags(moto, stops, ts[..n])[i] == None
  {
    forall i | First(ts[n]) <= i < Last(ts[n]) ensures Tags(moto, stops, ts[..n])[i] == None {
      TagMeansTour(w, moto, stops, ts, n, i);
      forall j | 0 <= j < n ensures !InTour(stops, ts[j], i) { LegInOneTour(w, stops, ts, i, j, n); }
    }
  }

  /** The tours of a motorcycle are as long as the legs they tag. */
  lemma {:induction false} TourKmIsTaggedKm(w: World, moto: int, stops: seq<Stop>, ts: seq<seq<nat>>, n: nat)
    requires Segmentation(w, stops, ts) && Runs(stops, ts) && n <= |ts| && Runs(stops, ts[..n])
    ensures Total(TourKm, ToursOf(w, moto, stops, ts[..n]))
         == Total(TaggedKm, Legs(w, stops, Tags(moto, stops, ts[..n]), Windows(stops)))
    decreases n
  {
    if n == 0 {
      UntaggedKm(w, stops, Windows(stops));
    } else {
      SegmentationRuns(w, stops, ts, n - 1);
      TourKmIsTaggedKm(w, moto, stops, ts, n - 1);
      OneMore(w, moto, stops, ts, n - 1);
      var t := ts[n - 1];
      if Emitted(stops, t) {
        EarlierToursDoNotTag(w, moto, stops, ts, n - 1);
        MarkAddsKm(w, stops, Tags(moto, stops, ts[..n - 1]), First(t), Last(t), TourId(moto, stops[First(t)].date));
        TotalPush(TourKm, ToursOf(w, moto, stops, ts[..n - 1]), TourOf(w, moto, stops, t));
      }
    }
  }

  /** Tagging moves no kilometres: the legs always add up to the odometer rises. */
  lemma {:induction false} LegKmIsRiddenKm(w: World, stops: seq<Stop>, tags: seq<Option<string>>, n: nat)
    requires n <= Windows(stops) == |tags|
    ensures Total(Km, Legs(w, stops, tags, n)) == RiddenKm(stops, 0, n)
  {
    if n > 0 {
      LegKmIsRiddenKm(w, stops, tags, n - 1);
      TotalPush(Km, Legs(w, stops, tags, n - 1), LegAt(w, stops, n - 1, tags[n - 1]));
    }
  }

  /** The map from the record ids of a leg's ends to the leg's position. */
  ghost predicate Indexed(stops: seq<Stop>, index: map<(int, int), nat>, n: nat)
    requires n <= Windows(stops)
  {
    && (forall i :: 0 <= i < n && Ridden(stops, i)
          ==> (stops[i].id, stops[i + 1].id) in index && index[(stops[i].id, stops[i + 1].id)] == LegNo(stops, i))
    && (forall i :: 0 <= i < Windows(stops) && (i >= n || !Ridden(stops, i))
          ==> (stops[i].id, stops[i + 1].id) !in index)
  }

  ghost predicate DistinctIds(stops: seq<Stop>) {
    forall i, j :: 0 <= i < j < |stops| ==> stops[i].id != stops[j].id
  }

  lemma {:induction false} IndexOneMore(stops: seq<Stop>, index: map<(int, int), nat>, n: nat)
    requires DistinctIds(stops) && n < Windows(stops) && Indexed(stops, index, n)
    ensures !Ridden(stops, n) ==> Indexed(stops, index, n + 1)
    ensures Ridden(stops, n) ==> Indexed(stops, index[(stops[n].id, stops[n + 1].id) := LegNo(stops, n)], n + 1)
  {
    KeysApart(stops, n);
  }

  lemma {:induction false} KeysApart(stops: seq<Stop>, n: nat)
    requires DistinctIds(stops) && n < Windows(stops)
    ensures forall i :: 0 <= i < Windows(stops) && i != n ==>
              (stops[i].id, stops[i + 1].id) != (stops[n].id, stops[n + 1].id)
  {
    forall i | 0 <= i < Windows(stops) && i != n ensures stops[i].id != stops[n].id {
      if i < n { assert stops[i].id != stops[n].id; } else { assert stops[n].id != stops[i].id; }
    }
  }

  method CollectLegs(w: World, stops: seq<Stop>) returns (legs: seq<Leg>, index: map<(int, int), nat>)
    requires DistinctIds(stops)
    ensures legs == Legs(w, stops, Untagged(Windows(stops)), Windows(stops))
    ensures Indexed(stops, index, Windows(stops))
  {
    legs, index := [], map[];
    for i := 0 to Windows(stops)
      invariant legs == Legs(w, stops, Untagged(Windows(stops)), i)
      invariant Indexed(stops, index, i)
    {
      LegsLength(w, stops, Untagged(Windows(stops)), i);
      IndexOneMore(stops, index, i);
      if stops[i + 1].odo - stops[i].odo <= 0 { continue; }
      index := index[(stops[i].id, stops[i + 1].id) := |legs|];
      legs := legs + [LegAt(w, stops, i, None)];
    }
  }

  /** Tags the legs of one multi-day tour in place and adds up its distance. */
  method TagLegs(w: World, moto: int, stops: seq<Stop>, index: map<(int, int), nat>, before: seq<Leg>,
                 t: seq<nat>, ghost tags: seq<Option<string>>) returns (legs: seq<Leg>, distance: int)
    requires Indexed(stops, index, Windows(stops)) && |tags| == Windows(stops) && Run(t, |stops|)
    requires before == Legs(w, stops, tags, Windows(stops))
    ensures legs == Legs(w, stops, Mark(tags, First(t), Last(t), TourId(moto, stops[First(t)].date)), Windows(stops))
    ensures distance == RiddenKm(stops, First(t), Last(t))
  {
    legs, distance := before, 0;
    var id := TourId(moto, stops[First(t)].date);
    for k := 0 to |t| - 1
      invariant legs == Legs(w, stops, Mark(tags, First(t), First(t) + k, id), Windows(stops))
      invariant distance == RiddenKm(stops, First(t), First(t) + k)
    {
      var a, b := t[k], t[k + 1];
      ghost var marked := Mark(tags, First(t), a, id);
      assert Mark(tags, First(t), b, id) == marked[a := Some(id)];
      legs, distance := TagLeg(w, stops, index, legs, distance, a, b, id, marked);
    }
  }

  method TagLeg(w: World, stops: seq<Stop>, index: map<(int, int), nat>, before: seq<Leg>, km: int, a: nat, b: nat,
                id: string, ghost tags: seq<Option<string>>) returns (legs: seq<Leg>, distance: int)
    requires Indexed(stops, index, Windows(stops)) && |tags| == Windows(stops) && b == a + 1 < |stops|
    requires before == Legs(w, stops, tags, Windows(stops))
    ensures legs == Legs(w, stops, tags[a := Some(id)], Windows(stops))
    ensures distance == km + RiddenKm(stops, a, b)
  {
    legs, distance := before, km;
    Retag(w, stops, tags, a, Some(id), Windows(stops));
    var key := (stops[a].id, stops[b].id);
    if key in index {
      var leg := legs[index[key]];
      legs := legs[index[key] := leg.(tour := Some(id))];
      distance := distance + leg.km;
    }
  }

  /** Tours that begin and end on one day, by year. */
  ghost function DayTripsOf(w: World, stops: seq<Stop>, ts: seq<seq<nat>>): map<int, int>
    requires Runs(stops, ts)
  {
    if ts == [] then map[]
    else
      var t, before := ts[|ts| - 1], DayTripsOf(w, stops, ts[..|ts| - 1]);
      var year := YearOf(w, stops[First(t)].date);
      if Emitted(stops, t) then before else Plus(before, year, 1)
  }

  lemma {:induction false} DayTripsOneMore(w: World, stops: seq<Stop>, ts: seq<seq<nat>>, n: nat)
    requires n < |ts| && Runs(stops, ts[..n]) && Runs(stops, ts[..n + 1])
    ensures Run(ts[n], |stops|)
    ensures var before, year := DayTripsOf(w, stops, ts[..n]), YearOf(w, stops[First(ts[n])].date);
            DayTripsOf(w, stops, ts[..n + 1]) == if Emitted(stops, ts[n]) then before else Plus(before, year, 1)
  {
    assert ts[..n + 1][n] == ts[n];
    assert ts[..n + 1][..n] == ts[..n];
  }

  method EmitTour(w: World, moto: int, stops: seq<Stop>, index: map<(int, int), nat>, t: seq<nat>,
                  ghost tags: seq<Option<string>>, legs: seq<Leg>, tours: seq<Tour>)
    returns (legs': seq<Leg>, tours': seq<Tour>)
    requires Indexed(stops, index, Windows(stops)) && |tags| == Windows(stops) && Run(t, |stops|)
    requires legs == Legs(w, stops, tags, Windows(stops))
    ensures legs' == Legs(w, stops, Mark(tags, First(t), Last(t), TourId(moto, stops[First(t)].date)), Windows(stops))
    ensures tours' == tours + [TourOf(w, moto, stops, t)]
  {
    var startDate, endDate := stops[First(t)].date, stops[Last(t)].date;
    var distance;
    legs', distance := TagLegs(w, moto, stops, index, legs, t, tags);
    tours' := tours + [Tour(TourId(moto, startDate), moto, startDate, endDate, distance, YearOf(w, startDate), |t|)];
  }

  /** What one finished segment becomes: a tour and its tags, or a day trip. */
  ghost predicate Emission(w: World, moto: int, stops: seq<Stop>, t: seq<nat>, tags: seq<Option<string>>,
                           legs: seq<Leg>, tours: seq<Tour>, dayTrips: map<int, int>,
                           legs': seq<Leg>, tours': seq<Tour>, dayTrips': map<int, int>)
    requires |tags| == Windows(stops) && Run(t, |stops|)
  {
    if Emitted(stops, t) then
      && legs' == Legs(w, stops, Mark(tags, First(t), Last(t), TourId(moto, stops[First(t)].date)), Windows(stops))
      && tours' == tours + [TourOf(w, moto, stops, t)] && dayTrips' == dayTrips
    else
      legs' == legs && tours' == tours && dayTrips' == Plus(dayTrips, YearOf(w, stops[First(t)].date), 1)
  }

  /** One turn of the loop over the finished runs: a day trip is counted, a tour is emitted and its legs tagged. */
  method Emit(w: World, moto: int, stops: seq<Stop>, index: map<(int, int), nat>, t: seq<nat>,
              ghost tags: seq<Option<string>>, legs: seq<Leg>, tours: seq<Tour>, dayTrips: map<int, int>)
    returns (legs': seq<Leg>, tours': seq<Tour>, dayTrips': map<int, int>)
    requires Indexed(stops, index, Windows(stops)) && |tags| == Windows(stops) && Run(t, |stops|)
    requires legs == Legs(w, stops, tags, Windows(stops))
    ensures Emission(w, moto, stops, t, tags, legs, tours, dayTrips, legs', tours', dayTrips')
  {
    var startDate, endDate := stops[First(t)].date, stops[Last(t)].date;
    NotLess(startDate, endDate);
    if Leq(endDate, startDate) {
      var year := YearOf(w, startDate);
      return legs, tours, Plus(dayTrips, year, 1);
    }
    legs', tours' := EmitTour(w, moto, stops, index, t, tags, legs, tours);
    dayTrips' := dayTrips;
  }

  /** What the loop over the finished runs has made of the first `n` of them. */
  ghost predicate Progress(w: World, moto: int, stops: seq<Stop>, ts: seq<seq<nat>>, n: nat,
                           legs: seq<Leg>, tours: seq<Tour>, dayTrips: map<int, int>)
    requires n <= |ts| && Runs(stops, ts)
  {
    Runs(stops, ts[..n]) && legs == Legs(w, stops, Tags(moto, stops, ts[..n]), Windows(stops))
    && tours == ToursOf(w, moto, stops, ts[..n]) && dayTrips == DayTripsOf(w, stops, ts[..n])
  }

  lemma {:induction false} LegsNext(w: World, moto: int, stops: seq<Stop>, ts: seq<seq<nat>>, n: nat, legs: seq<Leg>,
                                    legs': seq<Leg>)
    requires n < |ts| && Runs(stops, ts[..n]) && Runs(stops, ts[..n + 1]) && Run(ts[n], |stops|)
    requires legs == Legs(w, stops, Tags(moto, stops, ts[..n]), Windows(stops))
    requires legs' == if Emitted(stops, ts[n])
                      then Legs(w, stops,
                                Mark(Tags(moto, stops, ts[..n]), First(ts[n]), Last(ts[n]),
                                     TourId(moto, stops[First(ts[n])].date)),
                                Windows(stops))
                      else legs
    ensures legs' == Legs(w, stops, Tags(moto, stops, ts[..n + 1]), Windows(stops))
  {
    OneMore(w, moto, stops, ts, n);
  }

  lemma {:induction false} ToursNext(w: World, moto: int, stops: seq<Stop>, ts: seq<seq<nat>>, n: nat, tours: seq<Tour>,
                                     tours': seq<Tour>)
    requires n < |ts| && Runs(stops, ts[..n]) && Runs(stops, ts[..n + 1]) && Run(ts[n], |stops|)
    requires tours == ToursOf(w, moto, stops, ts[..n])
    requires tours' == if Emitted(stops, ts[n]) then tours + [TourOf(w, moto, stops, ts[n])] else tours
    ensures tours' == ToursOf(w, moto, stops, ts[..n + 1])
  {
    OneMore(w, moto, stops, ts, n);
  }

  lemma {:induction false} ProgressNext(w: World, moto: int, stops: seq<Stop>, ts: seq<seq<nat>>, n: nat,
                                        legs: seq<Leg>, tours: seq<Tour>, dayTrips: map<int, int>,
                                        legs': seq<Leg>, tours': seq<Tour>, dayTrips': map<int, int>)
    requires Runs(stops, ts) && n < |ts| && Run(ts[n], |stops|)
    requires Progress(w, moto, stops, ts, n, legs, tours, dayTrips)
    requires Emission(w, moto, stops, ts[n], Tags(moto, stops, ts[..n]), legs, tours, dayTrips, legs', tours',
                      dayTrips')
    ensures Progress(w, moto, stops, ts, n + 1, legs', tours', dayTrips')
  {
    assert Runs(stops, ts[..n + 1]);
    LegsNext(w, moto, stops, ts, n, legs, legs');
    ToursNext(w, moto, stops, ts, n, tours, tours');
    DayTripsOneMore(w, stops, ts, n);
  }

  method EmitNext(w: World, moto: int, stops: seq<Stop>, index: map<(int, int), nat>, ts: seq<seq<nat>>, n: nat,
                  legs: seq<Leg>, tours: seq<Tour>, dayTrips: map<int, int>)
    returns (legs': seq<Leg>, tours': seq<Tour>, dayTrips': map<int, int>)
    requires Indexed(stops, index, Windows(stops)) && Runs(stops, ts) && n < |ts|
    requires Progress(w, moto, stops, ts, n, legs, tours, dayTrips)
    ensures Progress(w, moto, stops, ts, n + 1, legs', tours', dayTrips')
  {
    assert Run(ts[n], |stops|);
    legs', tours', dayTrips' := Emit(w, moto, stops, index, ts[n], Tags(moto, stops, ts[..n]), legs, tours, dayTrips);
    ProgressNext(w, moto, stops, ts, n, legs, tours, dayTrips, legs', tours', dayTrips');
  }

  method AnalyseBike(w: World, moto: int, stops: seq<Stop>)
    returns (legs: seq<Leg>, tours: seq<Tour>, dayTrips: map<int, int>, ghost ts: seq<seq<nat>>)
    requires DistinctIds(stops)
    ensures Segmentation(w, stops, ts) && Runs(stops, ts)
    ensures legs == Legs(w, stops, Tags(moto, stops, ts), Windows(stops))
    ensures tours == ToursOf(w, moto, stops, ts)
    ensures dayTrips == DayTripsOf(w, stops, ts)
    ensures forall us :: Segmentation(w, stops, us) ==>
              && Runs(stops, us) && legs == Legs(w, stops, Tags(moto, stops, us), Windows(stops))
              && tours == ToursOf(w, moto, stops, us) && dayTrips == DayTripsOf(w, stops, us)
  {
    var index;
    legs, index := CollectLegs(w, stops);
    var finished := SegmentTours(w, stops);
    tours, dayTrips := [], map[];
    assert Runs(stops, finished);
    for n := 0 to |finished|
      invariant Progress(w, moto, stops, finished, n, legs, tours, dayTrips)
    {
      legs, tours, dayTrips := EmitNext(w, moto, stops, index, finished, n, legs, tours, dayTrips);
    }
    assert finished[..|finished|] == finished;
    ts := finished;
    forall us | Segmentation(w, stops, us) ensures us == ts { SegmentationIsUnique(w, stops, us, ts); }
  }

  /** Every tour found is either emitted or counted as a day trip. */
  lemma {:induction false} EveryTourCounted(w: World, moto: int, stops: seq<Stop>, ts: seq<seq<nat>>)
    requires Runs(stops, ts)
    ensures |ToursOf(w, moto, stops, ts)| + MapSum(DayTripsOf(w, stops, ts)) == |ts|
  {
    if ts != [] {
      var before, t := ts[..|ts| - 1], ts[|ts| - 1];
      EveryTourCounted(w, moto, stops, before);
      PlusAdds(DayTripsOf(w, stops, before), YearOf(w, stops[First(t)].date), 1);
      if Emitted(stops, t) {
        assert ToursOf(w, moto, stops, ts) == ToursOf(w, moto, stops, before) + [TourOf(w, moto, stops, t)];
      }
    }
  }

  /** The run begins and ends on one day, and that day is in the year; zero where its text is no date. */
  ghost predicate IsDayTripIn(w: World, stops: seq<Stop>, t: seq<nat>, y: int)
    requires Run(t, |stops|)
  {
    var day := stops[First(t)].date;
    !Less(day, stops[Last(t)].date) && y == if day in w.yearNumber then w.yearNumber[day] else 0
  }

  ghost function DayTripRuns(w: World, stops: seq<Stop>, ts: seq<seq<nat>>, y: int): set<nat>
    requires Runs(stops, ts)
  {
    set i: nat | i < |ts| && IsDayTripIn(w, stops, ts[i], y)
  }

  lemma {:induction false} DayTripRunsNext(w: World, stops: seq<Stop>, ts: seq<seq<nat>>, n: nat, y: int)
    requires Runs(stops, ts) && |ts| == n + 1
    ensures Runs(stops, ts[..n])
    ensures var before := DayTripRuns(w, stops, ts[..n], y);
            && n !in before
            && DayTripRuns(w, stops, ts, y) == if IsDayTripIn(w, stops, ts[n], y) then before + {n} else before
  {
    var before, after := DayTripRuns(w, stops, ts[..n], y), DayTripRuns(w, stops, ts, y);
    forall i: nat | i < n ensures i in before <==> i in after { assert ts[..n][i] == ts[i]; }
  }

  lemma {:induction false} DayTripsNext(w: World, stops: seq<Stop>, ts: seq<seq<nat>>, n: nat, y: int)
    requires Runs(stops, ts) && |ts| == n + 1 && Runs(stops, ts[..n])
    ensures At(DayTripsOf(w, stops, ts), y)
         == At(DayTripsOf(w, stops, ts[..n]), y) + if IsDayTripIn(w, stops, ts[n], y) then 1 else 0
  {}

  /** Each year counts the day trips begun in it. */
  lemma {:induction false} DayTripsAre(w: World, stops: seq<Stop>, ts: seq<seq<nat>>, y: int)
    requires Runs(stops, ts)
    ensures At(DayTripsOf(w, stops, ts), y) == |DayTripRuns(w, stops, ts, y)|
  {
    if ts == [] {
      assert DayTripRuns(w, stops, ts, y) == {};
    } else {
      var n := |ts| - 1;
      DayTripRunsNext(w, stops, ts, n, y);
      DayTripsNext(w, stops, ts, n, y);
      DayTripsAre(w, stops, ts[..n], y);
    }
  }
}
