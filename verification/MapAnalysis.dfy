/** The whole of a map analysis: records grouped by motorcycle, sorted, analysed, and the tours sorted. */
module MapAnalysis {
  import opened Options
  import opened Ordering
  import opened Sums
  import opened TourSegments
  import opened Tours
  import Decimal

  predicate StopLeq(a: Stop, b: Stop) {
    Less(a.date, b.date) || (a.date == b.date && (a.odo < b.odo || (a.odo == b.odo && a.id <= b.id)))
  }

  predicate TourLeq(a: Tour, b: Tour) {
    Less(a.startDate, b.startDate) || (a.startDate == b.startDate && a.moto <= b.moto)
  }

  predicate IntLeq(a: int, b: int) { a <= b }

  lemma {:induction false} StopLeqIsTotalOrder()
    ensures TotalOrder(StopLeq)
  {
    forall a, b ensures StopLeq(a, b) || StopLeq(b, a) { LeqTotal(a.date, b.date); }
    forall a, b, c | StopLeq(a, b) && StopLeq(b, c) ensures StopLeq(a, c) {
      if Leq(a.date, b.date) && Leq(b.date, c.date) { LeqTransitive(a.date, b.date, c.date); }
      LeqTotal(a.date, b.date);
      LeqTotal(b.date, c.date);
    }
  }

  function OfBike(records: seq<Stop>, moto: int): seq<Stop> {
    if records == [] then []
    else
      var r, before := records[|records| - 1], OfBike(records[..|records| - 1], moto);
      if r.moto == moto then before + [r] else before
  }

  function StopsOf(records: seq<Stop>, moto: int): seq<Stop> { Sort(StopLeq, OfBike(records, moto)) }

  function HasId(id: int): Stop -> int { (s: Stop) => if s.id == id then 1 else 0 }

  function HasTourId(id: string): Tour -> int { (t: Tour) => if t.id == id then 1 else 0 }

  lemma {:induction false} FewerOfBike(records: seq<Stop>, moto: int, id: int)
    ensures 0 <= Total(HasId(id), OfBike(records, moto)) <= Total(HasId(id), records)
  {
    if records != [] {
      var r, before := records[|records| - 1], records[..|records| - 1];
      FewerOfBike(before, moto, id);
      TotalPush(HasId(id), OfBike(before, moto), r);
    }
  }

  lemma {:induction false} StopsKeepIdsDistinct(records: seq<Stop>, moto: int)
    requires DistinctIds(records)
    ensures DistinctIds(StopsOf(records, moto))
  {
    var stops := StopsOf(records, moto);
    forall i, j | 0 <= i < j < |stops| ensures stops[i].id != stops[j].id {
      var f := HasId(stops[i].id);
      AtMostOne(f, records);
      FewerOfBike(records, moto, stops[i].id);
      TotalOfSort(f, StopLeq, OfBike(records, moto));
      if stops[i].id == stops[j].id { AtLeastTwo(f, stops, i, j); }
    }
  }

  lemma {:induction false} OfBikeMembers(records: seq<Stop>, moto: int, s: Stop)
    ensures s in OfBike(records, moto) <==> s in records && s.moto == moto
  {
    if records != [] {
      var n := |records| - 1;
      OfBikeMembers(records[..n], moto, s);
      assert records == records[..n] + [records[n]];
    }
  }

  lemma {:induction false} StopsOfBike(records: seq<Stop>, moto: int)
    ensures Sorted(StopLeq, StopsOf(records, moto))
    ensures forall s :: s in StopsOf(records, moto) <==> s in records && s.moto == moto
  {
    StopLeqIsTotalOrder();
    SortSorts(StopLeq, OfBike(records, moto));
    forall s ensures s in StopsOf(records, moto) <==> s in records && s.moto == moto {
      OfBikeMembers(records, moto, s);
      assert s in StopsOf(records, moto) <==> s in multiset(StopsOf(records, moto));
      assert s in OfBike(records, moto) <==> s in multiset(OfBike(records, moto));
    }
  }

  /** By date, then odometer, then id. */
  lemma {:induction false} StopsInOrder(records: seq<Stop>, moto: int, i: nat, j: nat)
    requires i < j < |StopsOf(records, moto)|
    ensures var (a, b) := (StopsOf(records, moto)[i], StopsOf(records, moto)[j]);
            && Leq(a.date, b.date) && (a.date == b.date ==> a.odo <= b.odo)
            && (a.date == b.date && a.odo == b.odo ==> a.id <= b.id)
  {
    StopsOfBike(records, moto);
    var a, b := StopsOf(records, moto)[i], StopsOf(records, moto)[j];
    assert StopLeq(a, b);
    LeqTotal(a.date, b.date);
  }

  /** What was computed for one motorcycle. */
  datatype Ride = Ride(moto: int, ts: seq<seq<nat>>, legs: seq<Leg>, tours: seq<Tour>, dayTrips: map<int, int>)

  ghost predicate Analysed(w: World, records: seq<Stop>, r: Ride) {
    var stops := StopsOf(records, r.moto);
    && Segmentation(w, stops, r.ts) && Runs(stops, r.ts)
    && r.legs == Legs(w, stops, Tags(r.moto, stops, r.ts), Windows(stops))
    && r.tours == ToursOf(w, r.moto, stops, r.ts)
    && r.dayTrips == DayTripsOf(w, stops, r.ts)
  }

  ghost predicate AllAnalysed(w: World, records: seq<Stop>, rides: seq<Ride>) {
    && (forall i :: 0 <= i < |rides| ==> Analysed(w, records, rides[i]))
    && (forall i, j :: 0 <= i < j < |rides| ==> rides[i].moto < rides[j].moto)
  }

  ghost function AllLegs(rides: seq<Ride>): seq<Leg> {
    if rides == [] then [] else AllLegs(rides[..|rides| - 1]) + rides[|rides| - 1].legs
  }

  ghost function AllTours(rides: seq<Ride>): seq<Tour> {
    if rides == [] then [] else AllTours(rides[..|rides| - 1]) + rides[|rides| - 1].tours
  }

  ghost predicate HasMoto(records: seq<Stop>, m: int) { exists i :: 0 <= i < |records| && records[i].moto == m }

  ghost predicate HasRide(rides: seq<Ride>, m: int) { exists i :: 0 <= i < |rides| && rides[i].moto == m }

  /** Each motorcycle's group holds its records, in the order they came. */
  ghost predicate GroupsOk(records: seq<Stop>, groups: map<int, seq<Stop>>) {
    && (forall m :: m in groups <==> HasMoto(records, m))
    && (forall m :: OfBike(records, m) == if m in groups then groups[m] else [])
  }

  /** The keys in ascending order, as the map is walked. */
  ghost predicate KeysOk(groups: map<int, seq<Stop>>, keys: seq<int>) {
    && (forall m :: m in keys <==> m in groups)
    && (forall i, j :: 0 <= i < j < |keys| ==> keys[i] < keys[j])
  }

  ghost predicate Grouped(records: seq<Stop>, groups: map<int, seq<Stop>>, keys: seq<int>) {
    GroupsOk(records, groups) && KeysOk(groups, keys)
  }

  lemma {:induction false} InsertKey(m: int, keys: seq<int>)
    requires m !in keys && forall i, j :: 0 <= i < j < |keys| ==> keys[i] < keys[j]
    ensures var after := Insert(IntLeq, m, keys);
            && (forall k :: k in after <==> k == m || k in keys)
            && forall i, j :: 0 <= i < j < |after| ==> after[i] < after[j]
  {
    if keys != [] && keys[0] < m {
      InsertKey(m, keys[1..]);
      var rest := Insert(IntLeq, m, keys[1..]);
      assert keys == [keys[0]] + keys[1..];
      forall j | 0 <= j < |rest| ensures keys[0] < rest[j] { assert rest[j] in rest; }
    }
  }

  lemma {:induction false} OfBikeNext(records: seq<Stop>, n: nat, m: int)
    requires n < |records|
    ensures OfBike(records[..n + 1], m)
         == if records[n].moto == m then OfBike(records[..n], m) + [records[n]] else OfBike(records[..n], m)
  {
    assert records[..n + 1][..n] == records[..n];
  }

  lemma {:induction false} GroupsNext(records: seq<Stop>, groups: map<int, seq<Stop>>, n: nat,
                                      groups': map<int, seq<Stop>>)
    requires n < |records| && GroupsOk(records[..n], groups)
    requires var r := records[n]; groups' == groups[r.moto := (if r.moto in groups then groups[r.moto] else []) + [r]]
    ensures GroupsOk(records[..n + 1], groups')
  {
    HasMotoNext(records, n);
    forall m ensures OfBike(records[..n + 1], m) == if m in groups' then groups'[m] else [] {
      OfBikeNext(records, n, m);
    }
  }

  lemma {:induction false} GroupOneMore(records: seq<Stop>, groups: map<int, seq<Stop>>, keys: seq<int>, n: nat,
                                        groups': map<int, seq<Stop>>, keys': seq<int>)
    requires n < |records| && Grouped(records[..n], groups, keys)
    requires var r := records[n]; groups' == groups[r.moto := (if r.moto in groups then groups[r.moto] else []) + [r]]
    requires var r := records[n]; keys' == if r.moto in groups then keys else Insert(IntLeq, r.moto, keys)
    ensures Grouped(records[..n + 1], groups', keys')
  {
    GroupsNext(records, groups, n, groups');
    if records[n].moto !in groups { InsertKey(records[n].moto, keys); }
  }

  lemma {:induction false} HasMotoNext(records: seq<Stop>, n: nat)
    requires n < |records|
    ensures forall m :: HasMoto(records[..n + 1], m) <==> HasMoto(records[..n], m) || m == records[n].moto
  {
    var r, before, after := records[n], records[..n], records[..n + 1];
    assert after[n] == r;
    forall m ensures HasMoto(after, m) <==> HasMoto(before, m) || m == r.moto {
      if HasMoto(before, m) {
        var i :| 0 <= i < n && before[i].moto == m;
        assert after[i].moto == m;
      }
      if HasMoto(after, m) {
        var i :| 0 <= i < n + 1 && after[i].moto == m;
        assert i < n ==> before[i].moto == m;
      }
    }
  }

  method GroupByMotorcycle(records: seq<Stop>) returns (groups: map<int, seq<Stop>>, keys: seq<int>)
    ensures Grouped(records, groups, keys)
  {
    groups, keys := map[], [];
    for n := 0 to |records|
      invariant Grouped(records[..n], groups, keys)
    {
      var r := records[n];
      ghost var groups0, keys0 := groups, keys;
      if r.moto !in groups {
        keys := Insert(IntLeq, r.moto, keys);
        groups := groups[r.moto := []];
      }
      groups := groups[r.moto := groups[r.moto] + [r]];
      GroupOneMore(records, groups0, keys0, n, groups, keys);
    }
    assert records[..|records|] == records;
  }

  ghost predicate RidesFor(w: World, records: seq<Stop>, keys: seq<int>, rides: seq<Ride>) {
    |rides| == |keys| && forall i :: 0 <= i < |keys| ==> rides[i].moto == keys[i] && Analysed(w, records, rides[i])
  }

  lemma {:induction false} OneMoreRide(w: World, records: seq<Stop>, keys: seq<int>, n: nat, rides: seq<Ride>, r: Ride)
    requires n < |keys| && RidesFor(w, records, keys[..n], rides) && Analysed(w, records, r) && r.moto == keys[n]
    ensures RidesFor(w, records, keys[..n + 1], rides + [r])
  {
    var more := rides + [r];
    forall i | 0 <= i < n + 1 ensures more[i].moto == keys[..n + 1][i] && Analysed(w, records, more[i]) {
      if i < n { assert more[i] == rides[i]; } else { assert more[i] == r; }
    }
  }

  lemma {:induction false} RidesPush(rides: seq<Ride>, r: Ride)
    ensures AllLegs(rides + [r]) == AllLegs(rides) + r.legs && AllTours(rides + [r]) == AllTours(rides) + r.tours
  {
    assert (rides + [r])[..|rides|] == rides;
  }

  /** Every motorcycle that has records, analysed. */
  ghost predicate WholeAnalysis(w: World, records: seq<Stop>, rides: seq<Ride>) {
    AllAnalysed(w, records, rides) && forall m :: HasRide(rides, m) <==> HasMoto(records, m)
  }

  lemma {:induction false} AllRides(w: World, records: seq<Stop>, groups: map<int, seq<Stop>>, keys: seq<int>,
                                    rides: seq<Ride>)
    requires Grouped(records, groups, keys) && RidesFor(w, records, keys, rides)
    ensures WholeAnalysis(w, records, rides)
  {
    forall m ensures HasRide(rides, m) <==> m in keys {
      if m in keys {
        var i :| 0 <= i < |keys| && keys[i] == m;
        assert rides[i].moto == m;
      }
      if HasRide(rides, m) {
        var i :| 0 <= i < |rides| && rides[i].moto == m;
        assert keys[i] == m;
      }
    }
  }

  /** Motorcycles in ascending order are determined by which there are. */
  lemma {:induction false} SameMotorcycles(a: seq<Ride>, b: seq<Ride>, n: nat)
    requires forall i, j :: 0 <= i < j < |a| ==> a[i].moto < a[j].moto
    requires forall i, j :: 0 <= i < j < |b| ==> b[i].moto < b[j].moto
    requires forall m :: HasRide(a, m) <==> HasRide(b, m)
    requires n <= |a|
    ensures n <= |b| && forall i :: 0 <= i < n ==> a[i].moto == b[i].moto
  {
    if n > 0 {
      var k := n - 1;
      SameMotorcycles(a, b, k);
      assert HasRide(a, a[k].moto);
      var j :| 0 <= j < |b| && b[j].moto == a[k].moto;
      assert HasRide(b, b[k].moto);
      var i :| 0 <= i < |a| && a[i].moto == b[k].moto;
    }
  }

  /** An analysis of given records has one outcome. */
  lemma {:induction false} AnalysisIsUnique(w: World, records: seq<Stop>, a: seq<Ride>, b: seq<Ride>)
    requires WholeAnalysis(w, records, a) && WholeAnalysis(w, records, b)
    ensures a == b
  {
    SameMotorcycles(a, b, |a|);
    SameMotorcycles(b, a, |b|);
    forall i | 0 <= i < |a| ensures a[i] == b[i] {
      assert Analysed(w, records, a[i]) && Analysed(w, records, b[i]);
      SegmentationIsUnique(w, StopsOf(records, a[i].moto), a[i].ts, b[i].ts);
    }
  }

  method AnalyseGroup(w: World, records: seq<Stop>, moto: int, group: seq<Stop>)
    returns (legs: seq<Leg>, tours: seq<Tour>, ghost r: Ride)
    requires DistinctIds(records) && group == OfBike(records, moto)
    ensures Analysed(w, records, r) && r.moto == moto && r.legs == legs && r.tours == tours
  {
    StopsKeepIdsDistinct(records, moto);
    var dayTrips;
    ghost var ts;
    legs, tours, dayTrips, ts := AnalyseBike(w, moto, Sort(StopLeq, group));
    r := Ride(moto, ts, legs, tours, dayTrips);
  }

  /** The legs motorcycle by motorcycle, and the tours of all sorted by start and motorcycle. */
  ghost predicate ResultOf(rides: seq<Ride>, legs: seq<Leg>, tours: seq<Tour>) {
    legs == AllLegs(rides) && tours == Sort(TourLeq, AllTours(rides))
  }

  method Analyse(w: World, records: seq<Stop>) returns (legs: seq<Leg>, tours: seq<Tour>, ghost rides: seq<Ride>)
    requires DistinctIds(records)
    ensures WholeAnalysis(w, records, rides) && ResultOf(rides, legs, tours)
    ensures forall us :: WholeAnalysis(w, records, us) ==> ResultOf(us, legs, tours)
  {
    var groups, keys := GroupByMotorcycle(records);
    legs, tours, rides := [], [], [];
    for n := 0 to |keys|
      invariant RidesFor(w, records, keys[..n], rides)
      invariant legs == AllLegs(rides) && tours == AllTours(rides)
    {
      var moto := keys[n];
      assert moto in groups;
      var bikeLegs, bikeTours, ride := AnalyseGroup(w, records, moto, groups[moto]);
      legs, tours := legs + bikeLegs, tours + bikeTours;
      OneMoreRide(w, records, keys, n, rides, ride);
      RidesPush(rides, ride);
      rides := rides + [ride];
    }
    assert keys[..|keys|] == keys;
    AllRides(w, records, groups, keys, rides);
    tours := Sort(TourLeq, tours);
    forall us | WholeAnalysis(w, records, us) ensures us == rides { AnalysisIsUnique(w, records, us, rides); }
  }

  /** The tours, sorted or not, are as long together as the legs tagged with a tour. */
  lemma {:induction false} ToursAreTheirLegs(w: World, records: seq<Stop>, rides: seq<Ride>)
    requires forall i :: 0 <= i < |rides| ==> Analysed(w, records, rides[i])
    ensures Total(TourKm, Sort(TourLeq, AllTours(rides))) == Total(TaggedKm, AllLegs(rides))
  {
    TotalOfSort(TourKm, TourLeq, AllTours(rides));
    if rides != [] {
      var before, r := rides[..|rides| - 1], rides[|rides| - 1];
      ToursAreTheirLegs(w, records, before);
      TotalOfSort(TourKm, TourLeq, AllTours(before));
      BikeToursAreTheirLegs(w, records, r);
      TotalAppend(TourKm, AllTours(before), r.tours);
      TotalAppend(TaggedKm, AllLegs(before), r.legs);
    }
  }

  lemma {:induction false} BikeToursAreTheirLegs(w: World, records: seq<Stop>, r: Ride)
    requires Analysed(w, records, r)
    ensures Total(TourKm, r.tours) == Total(TaggedKm, r.legs)
  {
    assert r.ts[..|r.ts|] == r.ts;
    TourKmIsTaggedKm(w, r.moto, StopsOf(records, r.moto), r.ts, |r.ts|);
  }

  /** The legs of a motorcycle add up to its odometer rises from stop to stop. */
  lemma {:induction false} BikeLegsAreItsRises(w: World, records: seq<Stop>, r: Ride)
    requires Analysed(w, records, r)
    ensures var stops := StopsOf(records, r.moto); Total(Km, r.legs) == RiddenKm(stops, 0, Windows(stops))
  {
    var stops := StopsOf(records, r.moto);
    LegKmIsRiddenKm(w, stops, Tags(r.moto, stops, r.ts), Windows(stops));
  }

  /** A leg from one stop to another, as it is listed. */
  ghost predicate LegBetween(w: World, a: Stop, b: Stop, l: Leg) {
    && l.from == a.id && l.to == b.id && l.moto == b.moto && l.startDate == a.date && l.endDate == b.date
    && l.km == b.odo - a.odo > 0 && l.year == (if b.date in w.yearNumber then w.yearNumber[b.date] else 0)
    && l.toLocation == if b.location.Some? && b.location.value in w.countries then b.location else None
  }

  /** The leg leads from one of the motorcycle's sorted stops to the next. */
  ghost predicate LegOf(w: World, records: seq<Stop>, l: Leg) {
    exists i :: 0 < i < |StopsOf(records, l.moto)|
      && LegBetween(w, StopsOf(records, l.moto)[i - 1], StopsOf(records, l.moto)[i], l)
  }

  lemma {:induction false} LegEnds(w: World, records: seq<Stop>, l: Leg)
    requires LegOf(w, records, l)
    ensures exists i :: 0 <= i < |records| && records[i].date == l.endDate && records[i].moto == l.moto
  {
    var stops := StopsOf(records, l.moto);
    var i :| 0 < i < |stops| && LegBetween(w, stops[i - 1], stops[i], l);
    StopsOfBike(records, l.moto);
    assert stops[i] in records;
  }

  lemma {:induction false} BikeLegsAreListed(w: World, records: seq<Stop>, moto: int, tags: seq<Option<string>>, n: nat)
    requires n <= Windows(StopsOf(records, moto)) == |tags|
    ensures forall l :: l in Legs(w, StopsOf(records, moto), tags, n) ==> LegOf(w, records, l)
  {
    if n > 0 {
      BikeLegsAreListed(w, records, moto, tags, n - 1);
      if Ridden(StopsOf(records, moto), n - 1) { WindowIsListed(w, records, moto, n, tags[n - 1]); }
    }
  }

  lemma {:induction false} WindowIsListed(w: World, records: seq<Stop>, moto: int, n: nat, tag: Option<string>)
    requires 0 < n <= Windows(StopsOf(records, moto)) && Ridden(StopsOf(records, moto), n - 1)
    ensures LegOf(w, records, LegAt(w, StopsOf(records, moto), n - 1, tag))
  {
    var stops := StopsOf(records, moto);
    var l := LegAt(w, stops, n - 1, tag);
    StopsOfBike(records, moto);
    assert stops[n] in stops && l.moto == moto;
    assert LegBetween(w, stops[n - 1], stops[n], l);
  }

  /** Every leg leads from one record of its motorcycle to the next, and says so. */
  lemma {:induction false} LegsAreListed(w: World, records: seq<Stop>, rides: seq<Ride>)
    requires forall i :: 0 <= i < |rides| ==> Analysed(w, records, rides[i])
    ensures forall l :: l in AllLegs(rides) ==> LegOf(w, records, l)
  {
    if rides != [] {
      var r := rides[|rides| - 1];
      var stops := StopsOf(records, r.moto);
      LegsAreListed(w, records, rides[..|rides| - 1]);
      BikeLegsAreListed(w, records, r.moto, Tags(r.moto, stops, r.ts), Windows(stops));
    }
  }

  /** A tour from one stop to a later one, as it is listed. */
  ghost predicate TourBetween(w: World, stops: seq<Stop>, a: nat, b: nat, t: Tour)
    requires a < b < |stops|
  {
    && t.startDate == stops[a].date && t.endDate == stops[b].date && Less(t.startDate, t.endDate)
    && t.km == RiddenKm(stops, a, b) && t.stops == b - a + 1
    && t.year == (if t.startDate in w.yearNumber then w.yearNumber[t.startDate] else 0)
  }

  ghost predicate TourOfStops(w: World, stops: seq<Stop>, t: Tour) {
    exists a, b :: 0 <= a < b < |stops| && TourBetween(w, stops, a, b, t)
  }

  lemma {:induction false} BikeToursAreListed(w: World, moto: int, stops: seq<Stop>, ts: seq<seq<nat>>)
    requires Runs(stops, ts)
    ensures forall t :: t in ToursOf(w, moto, stops, ts) ==> t.moto == moto && TourOfStops(w, stops, t)
  {
    if ts != [] {
      var n := |ts| - 1;
      BikeToursAreListed(w, moto, stops, ts[..n]);
      if Emitted(stops, ts[n]) {
        var a, b := First(ts[n]), Last(ts[n]);
        assert a < b && TourBetween(w, stops, a, b, TourOf(w, moto, stops, ts[n]));
      }
    }
  }

  /** Every tour leads from one record of its motorcycle to another of a later day, and says so. */
  lemma {:induction false} ToursAreListed(w: World, records: seq<Stop>, rides: seq<Ride>)
    requires forall i :: 0 <= i < |rides| ==> Analysed(w, records, rides[i])
    ensures forall t :: t in AllTours(rides) ==> TourOfStops(w, StopsOf(records, t.moto), t)
  {
    if rides != [] {
      var r := rides[|rides| - 1];
      ToursAreListed(w, records, rides[..|rides| - 1]);
      BikeToursAreListed(w, r.moto, StopsOf(records, r.moto), r.ts);
    }
  }

  /** Sorted, they are the same tours, by start and then by motorcycle. */
  lemma {:induction false} SortedTours(tours: seq<Tour>)
    ensures forall t :: t in Sort(TourLeq, tours) <==> t in tours
    ensures forall i, j :: 0 <= i < j < |Sort(TourLeq, tours)| ==>
              ToursInOrder(Sort(TourLeq, tours)[i], Sort(TourLeq, tours)[j])
  {
    TourLeqIsTotalOrder();
    var sorted := Sort(TourLeq, tours);
    SortSorts(TourLeq, tours);
    forall t ensures t in sorted <==> t in tours {
      assert t in sorted <==> t in multiset(sorted);
      assert t in tours <==> t in multiset(tours);
    }
    forall i, j | 0 <= i < j < |sorted| ensures ToursInOrder(sorted[i], sorted[j]) {
      assert TourLeq(sorted[i], sorted[j]);
      LeqTotal(sorted[i].startDate, sorted[j].startDate);
    }
  }

  ghost predicate ToursInOrder(a: Tour, b: Tour) {
    Leq(a.startDate, b.startDate) && (a.startDate == b.startDate ==> a.moto <= b.moto)
  }

  lemma {:induction false} TourLeqIsTotalOrder()
    ensures TotalOrder(TourLeq)
  {
    forall a, b ensures TourLeq(a, b) || TourLeq(b, a) { LeqTotal(a.startDate, b.startDate); }
    forall a, b, c | TourLeq(a, b) && TourLeq(b, c) ensures TourLeq(a, c) {
      if Leq(a.startDate, b.startDate) && Leq(b.startDate, c.startDate) {
        LeqTransitive(a.startDate, b.startDate, c.startDate);
      }
      LeqTotal(a.startDate, b.startDate);
      LeqTotal(b.startDate, c.startDate);
    }
  }

  ghost predicate DatesSorted(stops: seq<Stop>) {
    forall i, j :: 0 <= i <= j < |stops| ==> Leq(stops[i].date, stops[j].date)
  }

  ghost predicate DatesRise(moto: int, tours: seq<Tour>) {
    && (forall i :: 0 <= i < |tours| ==> tours[i].moto == moto && tours[i].id == TourId(moto, tours[i].startDate))
    && (forall i, j :: 0 <= i < j < |tours| ==> Less(tours[i].startDate, tours[j].startDate))
  }

  ghost predicate EndedBy(tours: seq<Tour>, date: string) {
    forall i :: 0 <= i < |tours| ==> Less(tours[i].startDate, tours[i].endDate) && Leq(tours[i].endDate, date)
  }

  lemma {:induction false} EndedLater(tours: seq<Tour>, d: string, e: string)
    requires EndedBy(tours, d) && Leq(d, e)
    ensures EndedBy(tours, e)
  {
    forall i | 0 <= i < |tours| ensures Leq(tours[i].endDate, e) { LeqTransitive(tours[i].endDate, d, e); }
  }

  lemma {:induction false} LessLeq(a: string, b: string, c: string)
    requires Less(a, b) && Leq(b, c)
    ensures Less(a, c)
  {
    LeqTransitive(a, b, c);
    LeqTotal(b, c);
    LeqTotal(a, b);
  }

  /** One more tour, starting no earlier than all before it ended. */
  lemma {:induction false} DatesRiseFurther(moto: int, tours: seq<Tour>, t: Tour)
    requires DatesRise(moto, tours) && EndedBy(tours, t.startDate) && Less(t.startDate, t.endDate)
    requires t.moto == moto && t.id == TourId(moto, t.startDate)
    ensures DatesRise(moto, tours + [t]) && EndedBy(tours + [t], t.endDate)
  {
    forall i | 0 <= i < |tours| ensures Less(tours[i].startDate, t.startDate) {
      LessLeq(tours[i].startDate, tours[i].endDate, t.startDate);
    }
    EndedLater(tours, t.startDate, t.endDate);
    LeqTotal(t.endDate, t.endDate);
  }

  /** A motorcycle's tours start on later and later days: each starts no earlier than the last one ended. */
  lemma {:induction false} TourDatesRise(w: World, moto: int, stops: seq<Stop>, ts: seq<seq<nat>>, n: nat)
    requires Segmentation(w, stops, ts) && DatesSorted(stops) && n <= |ts| && Runs(stops, ts[..n])
    ensures DatesRise(moto, ToursOf(w, moto, stops, ts[..n]))
    ensures n < |ts| ==> EndedBy(ToursOf(w, moto, stops, ts[..n]), stops[First(ts[n])].date)
    decreases n
  {
    if n > 0 {
      SegmentationRuns(w, stops, ts, n - 1);
      TourDatesRise(w, moto, stops, ts, n - 1);
      OneMore(w, moto, stops, ts, n - 1);
      var before, t := ToursOf(w, moto, stops, ts[..n - 1]), ts[n - 1];
      EndedLater(before, stops[First(t)].date, stops[Last(t)].date);
      if Emitted(stops, t) { DatesRiseFurther(moto, before, TourOf(w, moto, stops, t)); }
      if n < |ts| {
        assert Follows(w, stops, t, ts[n]);
        EndedLater(ToursOf(w, moto, stops, ts[..n]), stops[Last(t)].date, stops[First(ts[n])].date);
      }
    }
  }

  lemma {:induction false} BikeTourDatesRise(w: World, records: seq<Stop>, r: Ride)
    requires Analysed(w, records, r)
    ensures DatesRise(r.moto, r.tours)
  {
    var stops := StopsOf(records, r.moto);
    StopsOfBike(records, r.moto);
    forall i, j | 0 <= i <= j < |stops| ensures Leq(stops[i].date, stops[j].date) {
      LeqTotal(stops[i].date, stops[j].date);
      if i < j { assert StopLeq(stops[i], stops[j]); }
    }
    assert r.ts[..|r.ts|] == r.ts;
    TourDatesRise(w, r.moto, stops, r.ts, |r.ts|);
  }

  ghost predicate IdsApart(tours: seq<Tour>) { forall i, j :: 0 <= i < j < |tours| ==> tours[i].id != tours[j].id }

  ghost predicate OwnIds(tours: seq<Tour>) {
    forall i :: 0 <= i < |tours| ==> tours[i].id == TourId(tours[i].moto, tours[i].startDate)
  }

  lemma {:induction false} IdsDiffer(m: int, n: int, a: string, b: string)
    requires m != n || a != b
    ensures TourId(m, a) != TourId(n, b)
  {
    if TourId(m, a) == TourId(n, b) { Decimal.PrintedPrefix(m, n, a, b); }
  }

  lemma {:induction false} UnsortedIdsApart(w: World, records: seq<Stop>, rides: seq<Ride>)
    requires AllAnalysed(w, records, rides)
    ensures IdsApart(AllTours(rides)) && OwnIds(AllTours(rides))
    ensures forall t :: t in AllTours(rides) ==> HasRide(rides, t.moto)
  {
    if rides != [] {
      var n := |rides| - 1;
      var before, r := rides[..n], rides[n];
      UnsortedIdsApart(w, records, before);
      BikeTourDatesRise(w, records, r);
      JoinIdsApart(before, r);
      forall t | t in AllTours(rides) ensures HasRide(rides, t.moto) {
        if t in AllTours(before) {
          var i :| 0 <= i < n && before[i].moto == t.moto;
          assert rides[i].moto == t.moto;
        } else {
          assert rides[n].moto == t.moto;
        }
      }
    }
  }

  lemma {:induction false} JoinIdsApart(before: seq<Ride>, r: Ride)
    requires IdsApart(AllTours(before)) && OwnIds(AllTours(before)) && DatesRise(r.moto, r.tours)
    requires forall t :: t in AllTours(before) ==> HasRide(before, t.moto)
    requires forall i :: 0 <= i < |before| ==> before[i].moto < r.moto
    ensures IdsApart(AllTours(before) + r.tours) && OwnIds(AllTours(before) + r.tours)
  {
    var a, tours := AllTours(before), AllTours(before) + r.tours;
    forall i, j | 0 <= i < j < |tours| ensures tours[i].id != tours[j].id {
      if i < |a| <= j {
        assert a[i] in a;
        IdsDiffer(a[i].moto, r.moto, a[i].startDate, tours[j].startDate);
      } else if i >= |a| {
        assert Less(r.tours[i - |a|].startDate, r.tours[j - |a|].startDate);
        IdsDiffer(r.moto, r.moto, tours[i].startDate, tours[j].startDate);
      }
    }
  }

  lemma {:induction false} SortingKeepsApart(tours: seq<Tour>)
    requires IdsApart(tours)
    ensures IdsApart(Sort(TourLeq, tours))
  {
    var sorted := Sort(TourLeq, tours);
    forall i, j | 0 <= i < j < |sorted| ensures sorted[i].id != sorted[j].id {
      var f := HasTourId(sorted[i].id);
      AtMostOne(f, tours);
      TotalOfSort(f, TourLeq, tours);
      if sorted[i].id == sorted[j].id { AtLeastTwo(f, sorted, i, j); }
    }
  }

  /** No two tours of an analysis share an id, whatever the sign of the motorcycle ids. */
  lemma {:induction false} TourIdsAreUnique(w: World, records: seq<Stop>, rides: seq<Ride>)
    requires AllAnalysed(w, records, rides)
    ensures IdsApart(Sort(TourLeq, AllTours(rides)))
  {
    UnsortedIdsApart(w, records, rides);
    SortingKeepsApart(AllTours(rides));
  }
}
