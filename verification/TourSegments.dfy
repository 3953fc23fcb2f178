/**
  Tour detection: one greedy pass over a motorcycle's fuel stops.  `Segmentation` says
  which runs of stops are tours without mentioning the pass, and fixes them uniquely.
*/
module TourSegments {
  import opened Options

  const HOME_RADIUS_KM: real := 80.0
  const TOUR_MAX_GAP_DAYS: int := 4

  /** A fuel record; `date` is the text `date_only` keeps. */
  datatype Stop = Stop(id: int, moto: int, date: string, odo: int, location: Option<int>)

  /**
    What the analysis is told: the distance from home of the locations that have
    coordinates, the country of the known locations, and how texts read as dates and years.
  */
  datatype World = World(fromHome: map<int, real>, countries: map<int, Option<string>>,
                         dayNumber: map<string, int>, yearNumber: map<string, int>)

  function StopDistance(w: World, s: Stop): Option<real> {
    if s.location.Some? && s.location.value in w.fromHome then Some(w.fromHome[s.location.value]) else None
  }

  predicate Away(w: World, s: Stop) { StopDistance(w, s).Some? && StopDistance(w, s).value > HOME_RADIUS_KM }

  predicate HomeSide(w: World, s: Stop) { StopDistance(w, s).Some? && StopDistance(w, s).value <= HOME_RADIUS_KM }

  /** Calendar days from `a` to `b`; 0 when either text is no date. */
  function DayDelta(w: World, a: string, b: string): int {
    if a in w.dayNumber && b in w.dayNumber then w.dayNumber[b] - w.dayNumber[a] else 0
  }

  predicate LongGap(w: World, stops: seq<Stop>, i: int)
    requires 0 < i < |stops|
  {
    DayDelta(w, stops[i - 1].date, stops[i].date) > TOUR_MAX_GAP_DAYS
  }

  /** A run of consecutive stop indices. */
  predicate Run(t: seq<nat>, n: nat) {
    |t| > 0 && t[0] + |t| <= n && forall k :: 0 <= k < |t| ==> t[k] == t[0] + k
  }

  function First(t: seq<nat>): nat
    requires |t| > 0
  {
    t[0]
  }

  function Last(t: seq<nat>): nat
    requires |t| > 0
  {
    t[|t| - 1]
  }

  /** Starts at an away stop nothing recent leads to, or at the stop before the first away one. */
  predicate Opens(w: World, stops: seq<Stop>, a: nat, b: nat)
    requires a <= b < |stops|
  {
    if Away(w, stops[a]) then a == 0 || LongGap(w, stops, a) else a < b && Away(w, stops[a + 1])
  }

  predicate Unbroken(w: World, stops: seq<Stop>, a: nat, b: nat)
    requires a <= b < |stops|
  {
    && (forall k :: a < k <= b ==> !LongGap(w, stops, k))
    && (forall k :: a < k < b ==> !HomeSide(w, stops[k]))
  }

  predicate Closes(w: World, stops: seq<Stop>, b: nat)
    requires b < |stops|
  {
    HomeSide(w, stops[b]) || b + 1 == |stops| || LongGap(w, stops, b + 1)
  }

  predicate IsTour(w: World, stops: seq<Stop>, t: seq<nat>) {
    && Run(t, |stops|)
    && Opens(w, stops, First(t), Last(t))
    && Unbroken(w, stops, First(t), Last(t))
    && Closes(w, stops, Last(t))
  }

  predicate Follows(w: World, stops: seq<Stop>, t: seq<nat>, u: seq<nat>)
    requires Run(t, |stops|) && Run(u, |stops|)
  {
    Last(t) < First(u) || (Last(t) == First(u) && HomeSide(w, stops[Last(t)]))
  }

  ghost predicate Covered(ts: seq<seq<nat>>, k: nat) { exists i :: 0 <= i < |ts| && k in ts[i] }

  ghost predicate Segmentation(w: World, stops: seq<Stop>, ts: seq<seq<nat>>) {
    && (forall i :: 0 <= i < |ts| ==> IsTour(w, stops, ts[i]))
    && (forall i, j :: 0 <= i < j < |ts| ==> Follows(w, stops, ts[i], ts[j]))
    && (forall k: nat :: k < |stops| && Away(w, stops[k]) ==> Covered(ts, k))
  }

  /** The tours closed before stop `n`. */
  ghost predicate Closed(w: World, stops: seq<Stop>, ts: seq<seq<nat>>, n: nat)
    requires n <= |stops|
  {
    && (forall i :: 0 <= i < |ts| ==> IsTour(w, stops, ts[i]) && Last(ts[i]) < n)
    && (forall i, j :: 0 <= i < j < |ts| ==> Follows(w, stops, ts[i], ts[j]))
  }

  /** The tour under way before stop `n`. */
  ghost predicate UnderWay(w: World, stops: seq<Stop>, ts: seq<seq<nat>>, t: seq<nat>, n: nat)
    requires n <= |stops|
  {
    && Run(t, n) && Last(t) == n - 1
    && Opens(w, stops, First(t), Last(t)) && Unbroken(w, stops, First(t), Last(t))
    && !HomeSide(w, stops[n - 1])
    && (forall i :: 0 <= i < |ts| ==> Run(ts[i], |stops|) && Follows(w, stops, ts[i], t))
  }

  ghost predicate Idle(w: World, stops: seq<Stop>, ts: seq<seq<nat>>, n: nat)
    requires n <= |stops|
  {
    && (n > 0 ==> !Away(w, stops[n - 1]))
    && (forall i :: 0 <= i < |ts| ==> |ts[i]| > 0 && (Last(ts[i]) == n - 1 ==> HomeSide(w, stops[n - 1])))
  }

  ghost predicate CoveredSoFar(w: World, stops: seq<Stop>, ts: seq<seq<nat>>, open: Option<seq<nat>>, n: nat)
    requires n <= |stops|
  {
    forall k: nat :: k < n && Away(w, stops[k]) ==> Covered(ts, k) || (open.Some? && k in open.value)
  }

  ghost predicate PassInv(w: World, stops: seq<Stop>, ts: seq<seq<nat>>, open: Option<seq<nat>>, n: nat)
    requires n <= |stops|
  {
    && Closed(w, stops, ts, n)
    && CoveredSoFar(w, stops, ts, open, n)
    && if open.Some? then UnderWay(w, stops, ts, open.value, n) else Idle(w, stops, ts, n)
  }

  function Range(a: nat, b: nat): seq<nat>
    requires a <= b
    decreases b
  {
    if a == b then [b] else Range(a, b - 1) + [b]
  }

  lemma {:induction false} RangeIsRun(a: nat, b: nat)
    requires a <= b
    ensures Run(Range(a, b), b + 1) && First(Range(a, b)) == a && Last(Range(a, b)) == b && b in Range(a, b)
    decreases b
  {
    if a < b { RangeIsRun(a, b - 1); }
  }

  lemma {:induction false} CoveredPush(ts: seq<seq<nat>>, t: seq<nat>, k: nat)
    ensures Covered(ts + [t], k) <==> Covered(ts, k) || k in t
  {
    if k in t { assert (ts + [t])[|ts|] == t; }
    if Covered(ts, k) {
      var i :| 0 <= i < |ts| && k in ts[i];
      assert (ts + [t])[i] == ts[i];
    }
  }

  /** Closing the open tour keeps everything; the stop it ends at is covered by it. */
  lemma {:induction false} Close(w: World, stops: seq<Stop>, ts: seq<seq<nat>>, t: seq<nat>, n: nat)
    requires n <= |stops| && Closed(w, stops, ts, n) && CoveredSoFar(w, stops, ts, Some(t), n)
    requires IsTour(w, stops, t) && Last(t) < n && forall i :: 0 <= i < |ts| ==> Follows(w, stops, ts[i], t)
    ensures Closed(w, stops, ts + [t], n) && CoveredSoFar(w, stops, ts + [t], None, n)
  {
    forall k: nat | k < n && Away(w, stops[k]) ensures Covered(ts + [t], k) { CoveredPush(ts, t, k); }
  }

  lemma {:induction false} GapCloses(w: World, stops: seq<Stop>, ts: seq<seq<nat>>, t: seq<nat>, n: nat)
    requires n < |stops| && PassInv(w, stops, ts, Some(t), n) && LongGap(w, stops, n)
    ensures Closed(w, stops, ts + [t], n) && CoveredSoFar(w, stops, ts + [t], None, n)
  {
    Close(w, stops, ts, t, n);
  }

  lemma {:induction false} RunPush(t: seq<nat>, n: nat)
    requires Run(t, n) && Last(t) == n - 1
    ensures Run(t + [n], n + 1) && First(t + [n]) == First(t) && Last(t + [n]) == n
  {}

  lemma {:induction false} Extends(w: World, stops: seq<Stop>, ts: seq<seq<nat>>, t: seq<nat>, n: nat)
    requires n < |stops| && PassInv(w, stops, ts, Some(t), n) && !LongGap(w, stops, n)
    ensures !HomeSide(w, stops[n]) ==> PassInv(w, stops, ts, Some(t + [n]), n + 1)
    ensures HomeSide(w, stops[n]) ==> PassInv(w, stops, ts + [t + [n]], None, n + 1)
  {
    var u := t + [n];
    RunPush(t, n);
    assert u[|t|] == n;
    assert forall k :: k in t ==> k in u;
    assert CoveredSoFar(w, stops, ts, Some(u), n + 1);
    if HomeSide(w, stops[n]) {
      Close(w, stops, ts, u, n + 1);
      assert forall i :: 0 <= i < |ts + [u]| ==> |(ts + [u])[i]| > 0;
    }
  }

  lemma {:induction false} ClosedLater(w: World, stops: seq<Stop>, ts: seq<seq<nat>>, n: nat)
    requires n < |stops| && Closed(w, stops, ts, n)
    ensures Closed(w, stops, ts, n + 1)
  {}

  lemma {:induction false} OpenedRun(w: World, stops: seq<Stop>, ts: seq<seq<nat>>, t: seq<nat>, n: nat, start: nat)
    requires n < |stops| && Closed(w, stops, ts, n) && Away(w, stops[n])
    requires Run(t, n + 1) && First(t) == start && Last(t) == n
    requires if n > 0 && !LongGap(w, stops, n) then start == n - 1 && Idle(w, stops, ts, n) else start == n
    ensures UnderWay(w, stops, ts, t, n + 1)
  {}

  lemma {:induction false} Opened(w: World, stops: seq<Stop>, ts: seq<seq<nat>>, n: nat, start: nat)
    requires n < |stops| && Closed(w, stops, ts, n) && CoveredSoFar(w, stops, ts, None, n) && Away(w, stops[n])
    requires if n > 0 && !LongGap(w, stops, n) then start == n - 1 && Idle(w, stops, ts, n) else start == n
    ensures PassInv(w, stops, ts, Some(Range(start, n)), n + 1)
  {
    var t := Range(start, n);
    RangeIsRun(start, n);
    OpenedRun(w, stops, ts, t, n, start);
    ClosedLater(w, stops, ts, n);
    forall k: nat | k < n + 1 && Away(w, stops[k]) ensures Covered(ts, k) || k in t {}
    assert CoveredSoFar(w, stops, ts, Some(t), n + 1);
  }

  lemma {:induction false} Skipped(w: World, stops: seq<Stop>, ts: seq<seq<nat>>, n: nat)
    requires n < |stops| && Closed(w, stops, ts, n) && CoveredSoFar(w, stops, ts, None, n) && !Away(w, stops[n])
    ensures PassInv(w, stops, ts, None, n + 1)
  {}

  /** What one stop does to the finished tours and the open one. */
  method Visit(w: World, stops: seq<Stop>, finished0: seq<seq<nat>>, open0: Option<seq<nat>>, index: nat)
    returns (finished: seq<seq<nat>>, open: Option<seq<nat>>)
    requires index < |stops| && PassInv(w, stops, finished0, open0, index)
    ensures PassInv(w, stops, finished, open, index + 1)
  {
    finished, open := finished0, open0;
    if open.Some? {
      var t := open.value;
      var previous := Last(t);
      assert previous == index - 1;
      if DayDelta(w, stops[previous].date, stops[index].date) > TOUR_MAX_GAP_DAYS {
        GapCloses(w, stops, finished, t, index);
        finished := finished + [t];
        open := None;
      } else {
        Extends(w, stops, finished, t, index);
        t := t + [index];
        open := Some(t);
        if HomeSide(w, stops[index]) {
          finished := finished + [t];
          open := None;
        }
        return;
      }
    }
    if Away(w, stops[index]) {
      var start := if index > 0 && !LongGap(w, stops, index) then index - 1 else index;
      open := Some(Range(start, index));
      Opened(w, stops, finished, index, start);
    } else {
      Skipped(w, stops, finished, index);
    }
  }

  method SegmentTours(w: World, stops: seq<Stop>) returns (finished: seq<seq<nat>>)
    ensures Segmentation(w, stops, finished) && Plain(w, stops, finished)
  {
    finished := [];
    var open: Option<seq<nat>> := None;
    for index := 0 to |stops|
      invariant PassInv(w, stops, finished, open, index)
    {
      finished, open := Visit(w, stops, finished, open, index);
    }
    if open.Some? {
      Close(w, stops, finished, open.value, |stops|);
      finished := finished + [open.value];
    }
    SegmentationIsPlain(w, stops, finished);
  }

  /** The first away stop of a tour. */
  function Lead(w: World, stops: seq<Stop>, t: seq<nat>): (k: nat)
    requires IsTour(w, stops, t)
    ensures First(t) <= k <= Last(t) && Away(w, stops[k]) && forall j :: First(t) <= j < k ==> !Away(w, stops[j])
  {
    if Away(w, stops[First(t)]) then First(t) else First(t) + 1
  }

  /** No stop away from home is in two tours. */
  lemma {:induction false} AwayStopInOneTour(w: World, stops: seq<Stop>, ts: seq<seq<nat>>, i: nat, j: nat, k: nat)
    requires Segmentation(w, stops, ts) && i < j < |ts| && k < |stops| && Away(w, stops[k])
    ensures !(k in ts[i] && k in ts[j])
  {
    var t, u := ts[i], ts[j];
    assert Follows(w, stops, t, u) && IsTour(w, stops, t) && IsTour(w, stops, u);
    RunMember(t, |stops|, k);
    RunMember(u, |stops|, k);
  }

  lemma {:induction false} RunMember(t: seq<nat>, n: nat, k: nat)
    requires Run(t, n)
    ensures k in t <==> First(t) <= k <= Last(t)
  {
    if First(t) <= k <= Last(t) { assert t[k - First(t)] == k; }
  }

  lemma {:induction false} SameRun(t: seq<nat>, u: seq<nat>, n: nat)
    requires Run(t, n) && Run(u, n) && First(t) == First(u) && Last(t) == Last(u)
    ensures t == u
  {}

  lemma {:induction false} EndsNoLater(w: World, stops: seq<Stop>, t: seq<nat>, u: seq<nat>)
    requires IsTour(w, stops, t) && IsTour(w, stops, u) && First(t) == First(u)
    ensures Last(u) <= Last(t)
  {}

  lemma {:induction false} LeadFixesTour(w: World, stops: seq<Stop>, t: seq<nat>, u: seq<nat>)
    requires IsTour(w, stops, t) && IsTour(w, stops, u) && Lead(w, stops, t) == Lead(w, stops, u)
    ensures t == u
  {
    assert First(t) == First(u);
    EndsNoLater(w, stops, t, u);
    EndsNoLater(w, stops, u, t);
    SameRun(t, u, |stops|);
  }

  /** Where the first `k` tours agree, the next one of `ts` starts no earlier than that of `us`. */
  lemma {:induction false} NextLead(w: World, stops: seq<Stop>, ts: seq<seq<nat>>, us: seq<seq<nat>>, k: nat)
    requires Segmentation(w, stops, ts) && Segmentation(w, stops, us)
    requires k < |ts| && k <= |us| && ts[..k] == us[..k]
    ensures k < |us| && Lead(w, stops, us[k]) <= Lead(w, stops, ts[k])
  {
    var i := Lead(w, stops, ts[k]);
    RunMember(ts[k], |stops|, i);
    assert Covered(us, i);
    var m :| 0 <= m < |us| && i in us[m];
    RunMember(us[m], |stops|, i);
    if m < k {
      assert us[m] == us[..k][m] == ts[m];
      AwayStopInOneTour(w, stops, ts, m, k, i);
    } else if m > k {
      assert Follows(w, stops, us[k], us[m]);
    }
  }

  lemma {:induction false} NextTour(w: World, stops: seq<Stop>, ts: seq<seq<nat>>, us: seq<seq<nat>>, k: nat)
    requires Segmentation(w, stops, ts) && Segmentation(w, stops, us)
    requires k < |ts| && k <= |us| && ts[..k] == us[..k]
    ensures k < |us| && us[k] == ts[k]
  {
    NextLead(w, stops, ts, us, k);
    NextLead(w, stops, us, ts, k);
    LeadFixesTour(w, stops, ts[k], us[k]);
  }

  lemma {:induction false} PrefixGrows<T>(s: seq<T>, t: seq<T>, k: nat)
    requires k < |s| && k < |t| && s[..k] == t[..k] && s[k] == t[k]
    ensures s[..k + 1] == t[..k + 1]
  {
    assert s[..k + 1] == s[..k] + [s[k]] && t[..k + 1] == t[..k] + [t[k]];
  }

  lemma {:induction false} AgreeUpTo(w: World, stops: seq<Stop>, ts: seq<seq<nat>>, us: seq<seq<nat>>, k: nat)
    requires Segmentation(w, stops, ts) && Segmentation(w, stops, us) && k <= |ts|
    ensures k <= |us| && ts[..k] == us[..k]
    decreases k
  {
    if k > 0 {
      AgreeUpTo(w, stops, ts, us, k - 1);
      NextTour(w, stops, ts, us, k - 1);
      PrefixGrows(ts, us, k - 1);
    }
  }

  /** The declarative reading leaves no choice: the pass finds the only segmentation there is. */
  lemma {:induction false} SegmentationIsUnique(w: World, stops: seq<Stop>, ts: seq<seq<nat>>, us: seq<seq<nat>>)
    requires Segmentation(w, stops, ts) && Segmentation(w, stops, us)
    ensures ts == us
  {
    var n, m := |ts|, |us|;
    AgreeUpTo(w, stops, ts, us, n);
    AgreeUpTo(w, stops, us, ts, m);
    assert ts[..n] == ts;
    assert us[..m] == us;
  }

  // ------------------------------------------------- what that means, in kilometres and days

  predicate FarAway(w: World, s: Stop) {
    s.location.Some? && s.location.value in w.fromHome && w.fromHome[s.location.value] > 80.0
  }

  predicate NearHome(w: World, s: Stop) {
    s.location.Some? && s.location.value in w.fromHome && w.fromHome[s.location.value] <= 80.0
  }

  /** Both texts are dates, and the second is more than four days after the first. */
  predicate DaysLater(w: World, s: Stop, t: Stop) {
    s.date in w.dayNumber && t.date in w.dayNumber && w.dayNumber[t.date] - w.dayNumber[s.date] > 4
  }

  ghost predicate Together(ts: seq<seq<nat>>, a: nat, b: nat) { exists i :: 0 <= i < |ts| && a in ts[i] && b in ts[i] }

  /** Of two neighbouring stops, one of them away, exactly those no more than four days apart share a tour. */
  ghost predicate SplitByDays(w: World, stops: seq<Stop>, ts: seq<seq<nat>>) {
    forall k: nat :: 0 < k < |stops| && (FarAway(w, stops[k - 1]) || FarAway(w, stops[k])) ==>
      (Together(ts, k - 1, k) <==> !DaysLater(w, stops[k - 1], stops[k]))
  }

  /** A tour runs on from stop to stop, and ends at home, before a longer break, or with the stops. */
  ghost predicate RunsOn(w: World, stops: seq<Stop>, t: seq<nat>) {
    && |t| > 0 && (forall p :: 0 <= p < |t| ==> t[p] < |stops|)
    && (forall p :: 0 < p < |t| ==> t[p] == t[p - 1] + 1 && !DaysLater(w, stops[t[p - 1]], stops[t[p]]))
    && (forall p :: 0 < p < |t| - 1 ==> !NearHome(w, stops[t[p]]))
    && (FarAway(w, stops[t[0]]) || (|t| > 1 && FarAway(w, stops[t[1]])))
    && var last := t[|t| - 1];
       NearHome(w, stops[last]) || last + 1 == |stops| || DaysLater(w, stops[last], stops[last + 1])
  }

  ghost predicate Plain(w: World, stops: seq<Stop>, ts: seq<seq<nat>>) {
    SplitByDays(w, stops, ts) && forall i :: 0 <= i < |ts| ==> RunsOn(w, stops, ts[i])
  }

  lemma {:induction false} GapMeans(w: World, stops: seq<Stop>, k: nat)
    requires 0 < k < |stops|
    ensures LongGap(w, stops, k) <==> DaysLater(w, stops[k - 1], stops[k])
  {}

  lemma {:induction false} TourRunsOn(w: World, stops: seq<Stop>, t: seq<nat>)
    requires IsTour(w, stops, t)
    ensures RunsOn(w, stops, t)
  {
    forall p | 0 < p < |t| ensures t[p] == t[p - 1] + 1 && !DaysLater(w, stops[t[p - 1]], stops[t[p]]) {
      GapMeans(w, stops, t[p]);
    }
    if Last(t) + 1 < |stops| { GapMeans(w, stops, Last(t) + 1); }
  }

  lemma {:induction false} InTourIsClose(w: World, stops: seq<Stop>, t: seq<nat>, k: nat)
    requires IsTour(w, stops, t) && 0 < k < |stops| && k - 1 in t && k in t
    ensures !LongGap(w, stops, k)
  {
    RunMember(t, |stops|, k - 1);
    RunMember(t, |stops|, k);
  }

  lemma {:induction false} CloseIsInTour(w: World, stops: seq<Stop>, t: seq<nat>, k: nat, a: nat)
    requires IsTour(w, stops, t) && 0 < k < |stops| && !LongGap(w, stops, k)
    requires k - 1 <= a <= k && a in t && Away(w, stops[a])
    ensures k - 1 in t && k in t
  {
    RunMember(t, |stops|, a);
    RunMember(t, |stops|, k - 1);
    RunMember(t, |stops|, k);
  }

  lemma {:induction false} NeighboursTogether(w: World, stops: seq<Stop>, ts: seq<seq<nat>>, k: nat, a: nat)
    requires Segmentation(w, stops, ts) && 0 < k < |stops| && k - 1 <= a <= k && Away(w, stops[a])
    ensures Together(ts, k - 1, k) <==> !LongGap(w, stops, k)
  {
    if Together(ts, k - 1, k) {
      var i :| 0 <= i < |ts| && k - 1 in ts[i] && k in ts[i];
      InTourIsClose(w, stops, ts[i], k);
    }
    if !LongGap(w, stops, k) {
      assert Covered(ts, a);
      var i :| 0 <= i < |ts| && a in ts[i];
      CloseIsInTour(w, stops, ts[i], k, a);
    }
  }

  /** Said of the days and kilometres themselves. */
  lemma {:induction false} SegmentationIsPlain(w: World, stops: seq<Stop>, ts: seq<seq<nat>>)
    requires Segmentation(w, stops, ts)
    ensures Plain(w, stops, ts)
  {
    forall i | 0 <= i < |ts| ensures RunsOn(w, stops, ts[i]) { TourRunsOn(w, stops, ts[i]); }
    forall k: nat | 0 < k < |stops| && (FarAway(w, stops[k - 1]) || FarAway(w, stops[k]))
      ensures Together(ts, k - 1, k) <==> !DaysLater(w, stops[k - 1], stops[k])
    {
      NeighboursTogether(w, stops, ts, k, if Away(w, stops[k]) then k else k - 1);
      GapMeans(w, stops, k);
    }
  }
}
