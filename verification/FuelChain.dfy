/**
  The fuel chain of a motorcycle: every fill's trip and consumption are derived from the
  fill before it in (odometer, date, id) order, stored, and recomputed after each edit.
*/
module FuelChain {
  import opened Options
  import opened Ordering

  /** A live fuel record, as far as the chain is concerned. */
  datatype Fill = Fill(odo: int, date: string, amount: Option<real>, trip: Option<real>, consumption: Option<real>)

  type Fills = map<nat, Fill>

  datatype Stats = Stats(trip: Option<real>, consumption: Option<real>)

  function PerHundred(amount: real, trip: int): real
    requires trip > 0
  {
    amount / trip as real * 100.0
  }

  function StatsForGap(prev: Option<int>, odo: int, amount: Option<real>): Stats {
    if prev.Some? && odo > prev.value then
      var trip := odo - prev.value;
      Stats(Some(trip as real),
            if amount.Some? && amount.value > 0.0 then Some(PerHundred(amount.value, trip)) else None)
    else Stats(None, None)
  }

  function SameValue(a: Option<real>, b: Option<real>): bool {
    if a.Some? && b.Some? then -0.000000001 < a.value - b.value < 0.000000001 else a.None? && b.None?
  }

  predicate Agrees(f: Fill, s: Stats) { SameValue(f.trip, s.trip) && SameValue(f.consumption, s.consumption) }

  // --------------------------------------------------------------------- the order

  /** `ORDER BY odo, date, id`. */
  predicate Before(a: Fill, i: nat, b: Fill, j: nat) {
    a.odo < b.odo || (a.odo == b.odo && (Less(a.date, b.date) || (a.date == b.date && i < j)))
  }

  ghost predicate IsChain(fills: Fills, ids: seq<nat>) {
    && (forall id :: id in fills <==> id in ids)
    && (forall i, j :: 0 <= i < j < |ids| ==>
          ids[i] in fills && ids[j] in fills && Before(fills[ids[i]], ids[i], fills[ids[j]], ids[j]))
  }

  lemma {:induction false} BeforeIsStrict(a: Fill, i: nat, b: Fill, j: nat)
    ensures !(Before(a, i, b, j) && Before(b, j, a, i))
    ensures i != j ==> Before(a, i, b, j) || Before(b, j, a, i)
  {
    LeqTotal(a.date, b.date);
  }

  lemma {:induction false} BeforeTransitive(a: Fill, i: nat, b: Fill, j: nat, c: Fill, k: nat)
    requires Before(a, i, b, j) && Before(b, j, c, k)
    ensures Before(a, i, c, k)
  {
    if Leq(a.date, b.date) && Leq(b.date, c.date) {
      LeqTransitive(a.date, b.date, c.date);
      LeqTotal(a.date, b.date);
    }
  }

  /** By odometer, then date, then id. */
  lemma {:induction false} ChainInOrder(fills: Fills, ids: seq<nat>, i: nat, j: nat)
    requires IsChain(fills, ids) && i < j < |ids|
    ensures ids[i] in fills && ids[j] in fills
    ensures var (a, b) := (fills[ids[i]], fills[ids[j]]);
            && a.odo <= b.odo && (a.odo == b.odo ==> Leq(a.date, b.date))
            && (a.odo == b.odo && a.date == b.date ==> ids[i] < ids[j])
  {
    LeqTotal(fills[ids[i]].date, fills[ids[j]].date);
  }

  /** There is one order only. */
  lemma {:induction false} ChainIsUnique(fills: Fills, a: seq<nat>, b: seq<nat>)
    requires IsChain(fills, a) && IsChain(fills, b)
    ensures a == b
    decreases |a|
  {
    SameEmptiness(fills, a, b);
    if a != [] {
      FirstIsFirst(fills, a, b);
      TailIsChain(fills, a);
      TailIsChain(fills, b);
      ChainIsUnique(fills - {a[0]}, a[1..], b[1..]);
      assert a == [a[0]] + a[1..] && b == [b[0]] + b[1..];
    }
  }

  lemma {:induction false} SameEmptiness(fills: Fills, a: seq<nat>, b: seq<nat>)
    requires IsChain(fills, a) && IsChain(fills, b)
    ensures a == [] <==> b == []
  {
    assert a != [] ==> a[0] in b;
    assert b != [] ==> b[0] in a;
  }

  lemma {:induction false} FirstIsFirst(fills: Fills, a: seq<nat>, b: seq<nat>)
    requires IsChain(fills, a) && IsChain(fills, b) && a != []
    ensures b != [] && a[0] == b[0]
  {
    assert a[0] in a;
    var j :| 0 <= j < |b| && b[j] == a[0];
    assert b[0] in b;
    var i :| 0 <= i < |a| && a[i] == b[0];
    BeforeIsStrict(fills[a[0]], a[0], fills[b[0]], b[0]);
  }

  lemma {:induction false} TailIsChain(fills: Fills, ids: seq<nat>)
    requires IsChain(fills, ids) && ids != []
    ensures IsChain(fills - {ids[0]}, ids[1..])
  {
    var rest, tail: Fills := ids[1..], fills - {ids[0]};
    assert ids == [ids[0]] + rest;
    forall id ensures id in tail <==> id in rest {
      if id in rest {
        var k :| 0 <= k < |rest| && rest[k] == id;
        assert Before(fills[ids[0]], ids[0], fills[ids[k + 1]], ids[k + 1]);
        BeforeIsStrict(fills[ids[0]], ids[0], fills[ids[k + 1]], ids[k + 1]);
      }
    }
  }

  function InsertFill(fills: Fills, id: nat, ids: seq<nat>): seq<nat>
    requires id in fills && forall k :: k in ids ==> k in fills
  {
    if ids == [] then [id]
    else if Before(fills[id], id, fills[ids[0]], ids[0]) then [id] + ids
    else [ids[0]] + InsertFill(fills, id, ids[1..])
  }

  ghost predicate Ordered(fills: Fills, ids: seq<nat>) {
    && (forall k :: k in ids ==> k in fills)
    && (forall i, j :: 0 <= i < j < |ids| ==> Before(fills[ids[i]], ids[i], fills[ids[j]], ids[j]))
  }

  lemma {:induction false} InsertKeepsOrder(fills: Fills, id: nat, ids: seq<nat>)
    requires id in fills && Ordered(fills, ids) && id !in ids
    ensures Ordered(fills, InsertFill(fills, id, ids))
    ensures forall k :: k in InsertFill(fills, id, ids) <==> k == id || k in ids
  {
    if ids != [] {
      assert ids == [ids[0]] + ids[1..];
      if Before(fills[id], id, fills[ids[0]], ids[0]) {
        forall j | 0 <= j < |ids| ensures Before(fills[id], id, fills[ids[j]], ids[j]) {
          if j > 0 { BeforeTransitive(fills[id], id, fills[ids[0]], ids[0], fills[ids[j]], ids[j]); }
        }
      } else {
        BeforeIsStrict(fills[id], id, fills[ids[0]], ids[0]);
        InsertKeepsOrder(fills, id, ids[1..]);
        var rest := InsertFill(fills, id, ids[1..]);
        forall j | 0 <= j < |rest| ensures Before(fills[ids[0]], ids[0], fills[rest[j]], rest[j]) {
          assert rest[j] in rest;
        }
      }
    }
  }

  method OrderedRows(fills: Fills) returns (ids: seq<nat>)
    ensures IsChain(fills, ids)
  {
    ids := [];
    var todo: set<nat> := fills.Keys;
    while todo != {}
      invariant todo <= fills.Keys && Ordered(fills, ids) && forall k :: k in ids <==> k in fills && k !in todo
    {
      var id: nat :| id in todo;
      InsertKeepsOrder(fills, id, ids);
      ids := InsertFill(fills, id, ids);
      todo := todo - {id};
    }
  }

  // -------------------------------------------------------------- what should be stored

  function PrevOdo(fills: Fills, ids: seq<nat>, first: Option<int>, k: nat): Option<int>
    requires k < |ids| && forall id :: id in ids ==> id in fills
  {
    if k == 0 then first else Some(fills[ids[k - 1]].odo)
  }

  function StatsAt(fills: Fills, ids: seq<nat>, first: Option<int>, k: nat): Stats
    requires k < |ids| && forall id :: id in ids ==> id in fills
  {
    StatsForGap(PrevOdo(fills, ids, first, k), fills[ids[k]].odo, fills[ids[k]].amount)
  }

  /** The first fill of the chain has none before it. */
  function Expected(fills: Fills, ids: seq<nat>, k: nat): Stats
    requires k < |ids| && forall id :: id in ids ==> id in fills
  {
    StatsAt(fills, ids, None, k)
  }

  ghost predicate AgreesAlong(fills: Fills, ids: seq<nat>)
    requires forall id :: id in ids ==> id in fills
  {
    forall k :: 0 <= k < |ids| ==> Agrees(fills[ids[k]], Expected(fills, ids, k))
  }

  /** What is stored agrees with a recomputation, up to the tolerance. */
  ghost predicate ChainOk(fills: Fills) {
    forall ids :: IsChain(fills, ids) ==> AgreesAlong(fills, ids)
  }

  lemma {:induction false} ChainOkBy(fills: Fills, ids: seq<nat>)
    requires IsChain(fills, ids)
    ensures ChainOk(fills) <==> AgreesAlong(fills, ids)
  {
    forall other | IsChain(fills, other) ensures other == ids { ChainIsUnique(fills, other, ids); }
  }

  /** The derived trips of the first `n` fills. */
  function TripSum(fills: Fills, ids: seq<nat>, n: nat): real
    requires n <= |ids| && forall id :: id in ids ==> id in fills
  {
    if n == 0 then 0.0 else TripSum(fills, ids, n - 1) + Expected(fills, ids, n - 1).trip.GetOr(0.0)
  }

  /** The derived trips telescope to the last odometer value less the first. */
  lemma {:induction false} TripsTelescope(fills: Fills, ids: seq<nat>, n: nat)
    requires IsChain(fills, ids) && 0 < n <= |ids|
    ensures TripSum(fills, ids, n) == (fills[ids[n - 1]].odo - fills[ids[0]].odo) as real
    decreases n
  {
    if n > 1 {
      TripsTelescope(fills, ids, n - 1);
      assert Before(fills[ids[n - 2]], ids[n - 2], fills[ids[n - 1]], ids[n - 1]);
    } else {
      assert TripSum(fills, ids, 0) == 0.0;
    }
  }

  // ------------------------------------------------------ what the figures say

  predicate Near(a: real, b: real) { -0.000000001 < a - b < 0.000000001 }

  /** `c` litres for a hundred kilometres, over `km` of them, are `litres`. */
  predicate IsRate(c: real, km: int, litres: real) { c * km as real == 100.0 * litres }

  /**
    The k-th fill's stored figures: after a rise of the odometer the distance ridden, and with a positive
    amount the litres for a hundred kilometres of it, both within the tolerance; nothing otherwise.
  */
  ghost predicate SaysWhatWasRidden(fills: Fills, ids: seq<nat>, k: nat)
    requires k < |ids| && forall id :: id in ids ==> id in fills
  {
    var f := fills[ids[k]];
    if k > 0 && f.odo > fills[ids[k - 1]].odo then
      var km := f.odo - fills[ids[k - 1]].odo;
      && f.trip.Some? && Near(f.trip.value, km as real)
      && if f.amount.GetOr(0.0) > 0.0
         then f.consumption.Some? && exists c :: IsRate(c, km, f.amount.value) && Near(f.consumption.value, c)
         else f.consumption.None?
    else f.trip.None? && f.consumption.None?
  }

  ghost predicate AllSay(fills: Fills, ids: seq<nat>) {
    IsChain(fills, ids) && forall k :: 0 <= k < |ids| ==> SaysWhatWasRidden(fills, ids, k)
  }

  lemma {:induction false} RateOf(amount: real, km: int)
    requires km > 0
    ensures IsRate(PerHundred(amount, km), km, amount)
  {}

  lemma {:induction false} ConsumptionSays(consumption: Option<real>, amount: real, km: int)
    requires km > 0 && SameValue(consumption, Some(PerHundred(amount, km)))
    ensures consumption.Some? && exists c :: IsRate(c, km, amount) && Near(consumption.value, c)
  {
    RateOf(amount, km);
  }

  lemma {:induction false} FillSays(fills: Fills, ids: seq<nat>, k: nat)
    requires k < |ids| && (forall id :: id in ids ==> id in fills)
    requires Agrees(fills[ids[k]], StatsForGap(PrevOdo(fills, ids, None, k), fills[ids[k]].odo, fills[ids[k]].amount))
    ensures SaysWhatWasRidden(fills, ids, k)
  {
    var f := fills[ids[k]];
    if k > 0 && f.odo > fills[ids[k - 1]].odo && f.amount.GetOr(0.0) > 0.0 {
      ConsumptionSays(f.consumption, f.amount.value, f.odo - fills[ids[k - 1]].odo);
    }
  }

  /** In a correct chain every fill says what was ridden on it. */
  lemma {:induction false} CorrectChainSays(fills: Fills, ids: seq<nat>, k: nat)
    requires IsChain(fills, ids) && ChainOk(fills) && k < |ids|
    ensures SaysWhatWasRidden(fills, ids, k)
  {
    ChainOkBy(fills, ids);
    assert Agrees(fills[ids[k]], Expected(fills, ids, k));
    FillSays(fills, ids, k);
  }

  /** And only in a correct chain. */
  lemma {:induction false} SayingIsCorrect(fills: Fills, ids: seq<nat>)
    requires IsChain(fills, ids) && forall k :: 0 <= k < |ids| ==> SaysWhatWasRidden(fills, ids, k)
    ensures ChainOk(fills)
  {
    forall k | 0 <= k < |ids| ensures Agrees(fills[ids[k]], Expected(fills, ids, k)) {
      assert SaysWhatWasRidden(fills, ids, k);
      OneSaying(fills, ids, k);
    }
    ChainOkBy(fills, ids);
  }

  lemma {:induction false} OneSaying(fills: Fills, ids: seq<nat>, k: nat)
    requires k < |ids| && (forall id :: id in ids ==> id in fills) && SaysWhatWasRidden(fills, ids, k)
    ensures Agrees(fills[ids[k]], Expected(fills, ids, k))
  {
    var f := fills[ids[k]];
    if k > 0 && f.odo > fills[ids[k - 1]].odo && f.amount.GetOr(0.0) > 0.0 {
      var km := f.odo - fills[ids[k - 1]].odo;
      var c :| IsRate(c, km, f.amount.value) && Near(f.consumption.value, c);
      RateOf(f.amount.value, km);
      OneRate(c, PerHundred(f.amount.value, km), km, f.amount.value);
    }
  }

  lemma {:induction false} OneRate(c: real, d: real, km: int, litres: real)
    requires km > 0 && IsRate(c, km, litres) && IsRate(d, km, litres)
    ensures c == d
  {}

  /** The litres of the first `n` fills that measure a consumption. */
  function LitresMeasured(fills: Fills, ids: seq<nat>, n: nat): real
    requires n <= |ids| && forall id :: id in ids ==> id in fills
  {
    if n == 0 then 0.0
    else
      var f, before := fills[ids[n - 1]], LitresMeasured(fills, ids, n - 1);
      if n > 1 && f.odo > fills[ids[n - 2]].odo && f.amount.GetOr(0.0) > 0.0 then before + f.amount.value else before
  }

  /** Consumption times distance, over the first `n` fills. */
  function LitresDerived(fills: Fills, ids: seq<nat>, n: nat): real
    requires n <= |ids| && forall id :: id in ids ==> id in fills
  {
    if n == 0 then 0.0
    else
      var s := Expected(fills, ids, n - 1);
      LitresDerived(fills, ids, n - 1) + s.consumption.GetOr(0.0) * s.trip.GetOr(0.0)
  }

  /** The derived consumption accounts for every litre of those fills. */
  lemma {:induction false} LitresAddUp(fills: Fills, ids: seq<nat>, n: nat)
    requires n <= |ids| && forall id :: id in ids ==> id in fills
    ensures LitresDerived(fills, ids, n) == 100.0 * LitresMeasured(fills, ids, n)
  {
    if n > 0 {
      LitresAddUp(fills, ids, n - 1);
      var f := fills[ids[n - 1]];
      if n > 1 && f.odo > fills[ids[n - 2]].odo && f.amount.GetOr(0.0) > 0.0 {
        RateOf(f.amount.value, f.odo - fills[ids[n - 2]].odo);
      }
    }
  }

  // ------------------------------------------------------------------ recomputation

  function Fixed(f: Fill, s: Stats): Fill {
    if Agrees(f, s) then f else f.(trip := s.trip, consumption := s.consumption)
  }

  /** The loop of `recalculate_fuel_chain`, over the rows from the `k`-th on. */
  function Refilled(fills: Fills, ids: seq<nat>, prev: Option<int>): (after: Fills)
    requires forall id :: id in ids ==> id in fills
    ensures after.Keys == fills.Keys
    decreases |ids|
  {
    if ids == [] then fills
    else
      var f := fills[ids[0]];
      Refilled(fills[ids[0] := Fixed(f, StatsForGap(prev, f.odo, f.amount))], ids[1..], Some(f.odo))
  }

  predicate SameFill(a: Fill, b: Fill) { a.odo == b.odo && a.date == b.date && a.amount == b.amount }

  ghost predicate SameFills(a: Fills, b: Fills) { a.Keys == b.Keys && forall id :: id in a ==> SameFill(a[id], b[id]) }

  lemma {:induction false} SameChain(a: Fills, b: Fills, ids: seq<nat>)
    requires SameFills(a, b) && IsChain(a, ids)
    ensures IsChain(b, ids)
  {}

  ghost predicate Apart(ids: seq<nat>) { forall i, j :: 0 <= i < j < |ids| ==> ids[i] != ids[j] }

  lemma {:induction false} ChainApart(fills: Fills, ids: seq<nat>)
    requires IsChain(fills, ids)
    ensures Apart(ids)
  {
    forall i, j | 0 <= i < j < |ids| ensures ids[i] != ids[j] {
      BeforeIsStrict(fills[ids[i]], ids[i], fills[ids[j]], ids[j]);
    }
  }

  ghost predicate RowsFixed(fills: Fills, after: Fills, ids: seq<nat>, prev: Option<int>)
    requires forall id :: id in ids ==> id in fills && id in after
  {
    forall k :: 0 <= k < |ids| ==> after[ids[k]] == Fixed(fills[ids[k]], StatsAt(fills, ids, prev, k))
  }

  /** Each row is fixed from the odometer of the row before it, and no other row changes. */
  lemma {:induction false} RefilledRows(fills: Fills, ids: seq<nat>, prev: Option<int>)
    requires Apart(ids) && forall id :: id in ids ==> id in fills
    ensures SameFills(fills, Refilled(fills, ids, prev))
    ensures forall id :: id in fills && id !in ids ==> Refilled(fills, ids, prev)[id] == fills[id]
    ensures RowsFixed(fills, Refilled(fills, ids, prev), ids, prev)
    decreases |ids|
  {
    if ids != [] {
      var f, rest := fills[ids[0]], ids[1..];
      var next: Fills := fills[ids[0] := Fixed(f, StatsForGap(prev, f.odo, f.amount))];
      assert ids == [ids[0]] + rest;
      assert ids[0] !in rest by {
        forall k | 0 <= k < |rest| ensures rest[k] != ids[0] { assert rest[k] == ids[k + 1]; }
      }
      RefilledRows(next, rest, Some(f.odo));
      FixedFurther(fills, next, Refilled(fills, ids, prev), ids, prev);
    }
  }

  lemma {:induction false} FixedFurther(fills: Fills, next: Fills, after: Fills, ids: seq<nat>, prev: Option<int>)
    requires ids != [] && Apart(ids) && (forall id :: id in ids ==> id in fills) && after.Keys == fills.Keys
    requires next == fills[ids[0] := Fixed(fills[ids[0]], StatsForGap(prev, fills[ids[0]].odo, fills[ids[0]].amount))]
    requires RowsFixed(next, after, ids[1..], Some(fills[ids[0]].odo)) && after[ids[0]] == next[ids[0]]
    ensures RowsFixed(fills, after, ids, prev)
  {
    var rest := ids[1..];
    forall k | 0 <= k < |ids| ensures after[ids[k]] == Fixed(fills[ids[k]], StatsAt(fills, ids, prev, k)) {
      if k > 0 {
        assert rest[k - 1] == ids[k] && next[ids[k]] == fills[ids[k]];
        assert k > 1 ==> rest[k - 2] == ids[k - 1];
        assert StatsAt(next, rest, Some(fills[ids[0]].odo), k - 1) == StatsAt(fills, ids, prev, k);
      }
    }
  }

  /** A recomputation leaves a correct chain, and does not touch what was correct already. */
  lemma {:induction false} RefilledIsOk(fills: Fills, ids: seq<nat>)
    requires IsChain(fills, ids)
    ensures ChainOk(Refilled(fills, ids, None)) && IsChain(Refilled(fills, ids, None), ids)
  {
    ChainApart(fills, ids);
    RefilledRows(fills, ids, None);
    var after := Refilled(fills, ids, None);
    SameChain(fills, after, ids);
    forall k | 0 <= k < |ids| ensures Agrees(after[ids[k]], Expected(after, ids, k)) {
      assert after[ids[k]] == Fixed(fills[ids[k]], Expected(fills, ids, k));
    }
    ChainOkBy(after, ids);
  }

  lemma {:induction false} RefillingOkChangesNothing(fills: Fills, ids: seq<nat>)
    requires IsChain(fills, ids) && ChainOk(fills)
    ensures Refilled(fills, ids, None) == fills
  {
    ChainApart(fills, ids);
    RefilledRows(fills, ids, None);
    var after := Refilled(fills, ids, None);
    assert AgreesAlong(fills, ids);
    forall id | id in fills ensures after[id] == fills[id] {
      var k :| 0 <= k < |ids| && ids[k] == id;
      assert after[ids[k]] == Fixed(fills[ids[k]], Expected(fills, ids, k));
    }
  }

  // ------------------------------------------------------------- fills taken away

  /** What is left of the first `n` fills. */
  function Survivors(ids: seq<nat>, gone: set<nat>, n: nat): seq<nat>
    requires n <= |ids|
  {
    if n == 0 then []
    else if ids[n - 1] in gone then Survivors(ids, gone, n - 1) else Survivors(ids, gone, n - 1) + [ids[n - 1]]
  }

  /** The odometer at the last of them. */
  function OdoLeft(fills: Fills, ids: seq<nat>, gone: set<nat>, n: nat): Option<int>
    requires n <= |ids| && forall id :: id in ids ==> id in fills
  {
    if n == 0 then None
    else if ids[n - 1] in gone then OdoLeft(fills, ids, gone, n - 1) else Some(fills[ids[n - 1]].odo)
  }

  lemma {:induction false} SurvivorsMembers(ids: seq<nat>, gone: set<nat>, n: nat, id: nat)
    requires n <= |ids|
    ensures id in Survivors(ids, gone, n) <==> id in ids[..n] && id !in gone
  {
    if n > 0 {
      SurvivorsMembers(ids, gone, n - 1, id);
      assert ids[..n] == ids[..n - 1] + [ids[n - 1]];
    }
  }

  lemma {:induction false} SurvivorsOrdered(fills: Fills, ids: seq<nat>, gone: set<nat>, n: nat)
    requires IsChain(fills, ids) && n <= |ids|
    ensures Ordered(fills, Survivors(ids, gone, n))
  {
    if n > 0 {
      var left := Survivors(ids, gone, n - 1);
      SurvivorsOrdered(fills, ids, gone, n - 1);
      forall i | 0 <= i < |left| ensures Before(fills[left[i]], left[i], fills[ids[n - 1]], ids[n - 1]) {
        SurvivorsMembers(ids, gone, n - 1, left[i]);
        var k :| 0 <= k < n - 1 && ids[..n - 1][k] == left[i];
        assert ids[k] == left[i];
      }
    }
  }

  lemma {:induction false} SurvivorsAreChain(fills: Fills, ids: seq<nat>, gone: set<nat>)
    requires IsChain(fills, ids)
    ensures IsChain(fills - gone, Survivors(ids, gone, |ids|))
  {
    var left, rest: Fills := Survivors(ids, gone, |ids|), fills - gone;
    assert ids[..|ids|] == ids;
    forall id ensures id in rest <==> id in left { SurvivorsMembers(ids, gone, |ids|, id); }
    SurvivorsOrdered(fills, ids, gone, |ids|);
    forall i, j | 0 <= i < j < |left|
      ensures left[i] in rest && left[j] in rest && Before(rest[left[i]], left[i], rest[left[j]], left[j])
    {
      assert left[i] in left && left[j] in left;
    }
  }

  lemma {:induction false} LastLeft(fills: Fills, ids: seq<nat>, gone: set<nat>, n: nat)
    requires n <= |ids| && forall id :: id in ids ==> id in fills
    ensures var left := Survivors(ids, gone, n);
            if left == [] then OdoLeft(fills, ids, gone, n) == None
            else left[|left| - 1] in fills && OdoLeft(fills, ids, gone, n) == Some(fills[left[|left| - 1]].odo)
  {
    if n > 0 { LastLeft(fills, ids, gone, n - 1); }
  }

  /** The next fill's figures still hold exactly when the odometer says the same about them. */
  lemma {:induction false} OtherPredecessor(f: Fill, before: Option<int>, odo: int)
    requires Agrees(f, StatsForGap(Some(odo), f.odo, f.amount)) && odo <= f.odo
    requires (before.Some? ==> before.value <= odo)
    ensures Agrees(f, StatsForGap(before, f.odo, f.amount))
       <==> (if before.Some? then before.value == odo else f.odo == odo)
  {}

  lemma {:induction false} OdoLeftBelow(fills: Fills, ids: seq<nat>, gone: set<nat>, n: nat, k: nat)
    requires IsChain(fills, ids) && n <= k < |ids|
    ensures OdoLeft(fills, ids, gone, n).Some? ==> OdoLeft(fills, ids, gone, n).value <= fills[ids[k]].odo
  {
    if n > 0 {
      OdoLeftBelow(fills, ids, gone, n - 1, k);
      assert Before(fills[ids[n - 1]], ids[n - 1], fills[ids[k]], ids[k]);
    }
  }

  /** Whether a fill's figures stand, given the odometer at the one before it. */
  ghost function Stands(fills: Fills): (nat, Option<int>) -> bool {
    (id: nat, prev: Option<int>) => id in fills && Agrees(fills[id], StatsForGap(prev, fills[id].odo, fills[id].amount))
  }

  ghost predicate Along(ok: (nat, Option<int>) -> bool, fills: Fills, ids: seq<nat>)
    requires forall id :: id in ids ==> id in fills
  {
    forall k :: 0 <= k < |ids| ==> AlongAt(ok, fills, ids, k)
  }

  ghost predicate AlongAt(ok: (nat, Option<int>) -> bool, fills: Fills, ids: seq<nat>, k: nat)
    requires k < |ids| && forall id :: id in ids ==> id in fills
  {
    ok(ids[k], PrevOdo(fills, ids, None, k))
  }

  lemma {:induction false} AgreesMeansStands(fills: Fills, ids: seq<nat>)
    requires forall id :: id in ids ==> id in fills
    ensures AgreesAlong(fills, ids) <==> Along(Stands(fills), fills, ids)
  {
    forall k | 0 <= k < |ids|
      ensures Agrees(fills[ids[k]], Expected(fills, ids, k)) <==> AlongAt(Stands(fills), fills, ids, k)
    {
      assert ids[k] in ids;
    }
    if AgreesAlong(fills, ids) {
      forall k | 0 <= k < |ids| ensures AlongAt(Stands(fills), fills, ids, k) {
        assert Agrees(fills[ids[k]], Expected(fills, ids, k));
      }
    } else {
      var k :| 0 <= k < |ids| && !Agrees(fills[ids[k]], Expected(fills, ids, k));
      assert !AlongAt(Stands(fills), fills, ids, k);
    }
  }

  lemma {:induction false} StandsWithout(fills: Fills, gone: set<nat>, ids: seq<nat>)
    requires forall id :: id in ids ==> id in fills - gone
    ensures Along(Stands(fills - gone), fills - gone, ids) <==> Along(Stands(fills), fills - gone, ids)
  {
    var rest: Fills := fills - gone;
    forall k | 0 <= k < |ids| ensures AlongAt(Stands(rest), rest, ids, k) <==> AlongAt(Stands(fills), rest, ids, k) {
      assert ids[k] in ids && rest[ids[k]] == fills[ids[k]];
    }
    if Along(Stands(rest), rest, ids) {
      forall k | 0 <= k < |ids| ensures AlongAt(Stands(fills), rest, ids, k) {
        assert AlongAt(Stands(rest), rest, ids, k);
      }
    }
    if Along(Stands(fills), rest, ids) {
      forall k | 0 <= k < |ids| ensures AlongAt(Stands(rest), rest, ids, k) {
        assert AlongAt(Stands(fills), rest, ids, k);
      }
    }
  }

  lemma {:induction false} AlongOneMore(ok: (nat, Option<int>) -> bool, fills: Fills, left: seq<nat>, id: nat)
    requires id in fills && forall x :: x in left ==> x in fills
    ensures forall x :: x in left + [id] ==> x in fills
    ensures Along(ok, fills, left + [id]) <==> Along(ok, fills, left) && AlongAt(ok, fills, left + [id], |left|)
  {
    var more := left + [id];
    forall k | 0 <= k < |left| ensures AlongAt(ok, fills, more, k) <==> AlongAt(ok, fills, left, k) {
      assert more[k] == left[k] && (k > 0 ==> more[k - 1] == left[k - 1]);
    }
    if Along(ok, fills, more) {
      forall k | 0 <= k < |left| ensures AlongAt(ok, fills, left, k) { assert AlongAt(ok, fills, more, k); }
    }
    if Along(ok, fills, left) && AlongAt(ok, fills, more, |left|) {
      forall k | 0 <= k < |more| ensures AlongAt(ok, fills, more, k) {
        assert k < |left| ==> AlongAt(ok, fills, left, k);
      }
    }
  }

  ghost predicate LeftAt(ok: (nat, Option<int>) -> bool, fills: Fills, ids: seq<nat>, gone: set<nat>, k: nat)
    requires k < |ids| && forall id :: id in ids ==> id in fills
  {
    ids[k] !in gone ==> ok(ids[k], OdoLeft(fills, ids, gone, k))
  }

  ghost predicate LeftAlong(ok: (nat, Option<int>) -> bool, fills: Fills, ids: seq<nat>, gone: set<nat>, n: nat)
    requires n <= |ids| && forall id :: id in ids ==> id in fills
  {
    forall k :: 0 <= k < n ==> LeftAt(ok, fills, ids, gone, k)
  }

  /** What holds along the survivors, fill by fill of the old chain. */
  lemma {:induction false} SurvivorsAlong(ok: (nat, Option<int>) -> bool, fills: Fills, ids: seq<nat>, gone: set<nat>,
                                          n: nat)
    requires (forall id :: id in ids ==> id in fills) && n <= |ids|
    ensures forall id :: id in Survivors(ids, gone, n) ==> id in fills - gone
    ensures Along(ok, fills - gone, Survivors(ids, gone, n)) <==> LeftAlong(ok, fills, ids, gone, n)
  {
    if n > 0 {
      var left, rest: Fills := Survivors(ids, gone, n - 1), fills - gone;
      SurvivorsAlong(ok, fills, ids, gone, n - 1);
      if ids[n - 1] !in gone {
        assert ids[n - 1] in ids;
        AlongOneMore(ok, rest, left, ids[n - 1]);
        LastStands(ok, fills, ids, gone, n);
      }
      if LeftAlong(ok, fills, ids, gone, n) { assert LeftAlong(ok, fills, ids, gone, n - 1); }
    }
  }

  lemma {:induction false} LastStands(ok: (nat, Option<int>) -> bool, fills: Fills, ids: seq<nat>, gone: set<nat>,
                                      n: nat)
    requires (forall id :: id in ids ==> id in fills) && 0 < n <= |ids| && ids[n - 1] !in gone
    requires forall id :: id in Survivors(ids, gone, n) ==> id in fills - gone
    ensures var left := Survivors(ids, gone, n);
            |left| > 0 && (AlongAt(ok, fills - gone, left, |left| - 1) <==> LeftAt(ok, fills, ids, gone, n - 1))
  {
    var left := Survivors(ids, gone, n - 1);
    LastLeft(fills, ids, gone, n - 1);
    if left != [] { assert left[|left| - 1] in Survivors(ids, gone, n); }
  }

  /** A fill left behind by the one before it measures the same distance still. */
  ghost predicate MeasuredAt(fills: Fills, ids: seq<nat>, gone: set<nat>, k: nat)
    requires 0 < k < |ids| && forall id :: id in ids ==> id in fills
  {
    ids[k] !in gone && ids[k - 1] in gone ==>
      fills[ids[k - 1]].odo == OdoLeft(fills, ids, gone, k - 1).GetOr(fills[ids[k]].odo)
  }

  ghost predicate NotMissed(fills: Fills, ids: seq<nat>, gone: set<nat>)
    requires forall id :: id in ids ==> id in fills
  {
    forall k :: 0 < k < |ids| ==> MeasuredAt(fills, ids, gone, k)
  }

  lemma {:induction false} StandsElsewhere(fills: Fills, id: nat, before: Option<int>, odo: int)
    requires Stands(fills)(id, Some(odo)) && odo <= fills[id].odo && (before.Some? ==> before.value <= odo)
    ensures Stands(fills)(id, before) <==> odo == before.GetOr(fills[id].odo)
  {
    OtherPredecessor(fills[id], before, odo);
  }

  lemma {:induction false} StillStands(fills: Fills, ids: seq<nat>, gone: set<nat>, k: nat)
    requires IsChain(fills, ids) && k < |ids| && AlongAt(Stands(fills), fills, ids, k)
    ensures LeftAt(Stands(fills), fills, ids, gone, k) <==> (k > 0 ==> MeasuredAt(fills, ids, gone, k))
  {
    if k > 0 && ids[k - 1] in gone {
      OdoLeftBelow(fills, ids, gone, k - 1, k - 1);
      assert Before(fills[ids[k - 1]], ids[k - 1], fills[ids[k]], ids[k]);
      StandsElsewhere(fills, ids[k], OdoLeft(fills, ids, gone, k - 1), fills[ids[k - 1]].odo);
    }
  }

  lemma {:induction false} LeftStands(fills: Fills, ids: seq<nat>, gone: set<nat>)
    requires IsChain(fills, ids) && Along(Stands(fills), fills, ids)
    ensures LeftAlong(Stands(fills), fills, ids, gone, |ids|) <==> NotMissed(fills, ids, gone)
  {
    forall k | 0 <= k < |ids|
      ensures LeftAt(Stands(fills), fills, ids, gone, k) <==> (k > 0 ==> MeasuredAt(fills, ids, gone, k))
    {
      assert AlongAt(Stands(fills), fills, ids, k);
      StillStands(fills, ids, gone, k);
    }
  }

  /**
    Taking any fills out of a correct chain without a recomputation leaves it correct exactly
    when every fill whose predecessor went had the odometer there of the nearest fill that is
    left before it, or its own where none is left.
  */
  lemma {:induction false} DroppedFills(fills: Fills, ids: seq<nat>, gone: set<nat>)
    requires IsChain(fills, ids) && ChainOk(fills)
    ensures ChainOk(fills - gone) <==> NotMissed(fills, ids, gone)
  {
    var left := Survivors(ids, gone, |ids|);
    SurvivorsAreChain(fills, ids, gone);
    ChainOkBy(fills, ids);
    ChainOkBy(fills - gone, left);
    AgreesMeansStands(fills, ids);
    AgreesMeansStands(fills - gone, left);
    StandsWithout(fills, gone, left);
    SurvivorsAlong(Stands(fills), fills, ids, gone, |ids|);
    LeftStands(fills, ids, gone);
  }

  lemma {:induction false} SomeChain(fills: Fills) returns (ids: seq<nat>)
    ensures IsChain(fills, ids)
    decreases |fills|
  {
    ids := [];
    if fills != map[] {
      var id: nat :| id in fills;
      var rest := SomeChain(fills - {id});
      assert Ordered(fills, rest);
      InsertKeepsOrder(fills, id, rest);
      ids := InsertFill(fills, id, rest);
      forall i, j | 0 <= i < j < |ids|
        ensures ids[i] in fills && ids[j] in fills && Before(fills[ids[i]], ids[i], fills[ids[j]], ids[j])
      {
        assert ids[i] in ids && ids[j] in ids;
      }
    }
  }

  /** The same of the one chain the fills have. */
  ghost predicate Harmless(fills: Fills, gone: set<nat>) {
    forall ids :: IsChain(fills, ids) ==> NotMissed(fills, ids, gone)
  }

  lemma {:induction false} HarmlessMeans(fills: Fills, gone: set<nat>)
    requires ChainOk(fills)
    ensures ChainOk(fills - gone) <==> Harmless(fills, gone)
  {
    var ids := SomeChain(fills);
    DroppedFills(fills, ids, gone);
    forall other | IsChain(fills, other) ensures other == ids { ChainIsUnique(fills, other, ids); }
  }
}
