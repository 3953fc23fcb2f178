/**
  Maintenance records and the fuel chain among them: create, update with its bundled
  items, and delete.  Each leaves every motorcycle's chain correct, but for one case: an
  update drops the bundled items that it does not list, and the foreign key takes along
  whatever is booked under those, fuel records of any motorcycle included.
*/
module FuelRecords {
  import opened Options
  import opened FuelChain
  import opened ParentGraph
  import opened Cascade

  datatype Record = Record(bike: nat, kind: string, fluid: Option<string>, parent: Option<nat>, odo: int, date: string,
                           amount: Option<real>, trip: Option<real>, consumption: Option<real>,
                           deleted: bool, updatedAt: nat)

  type Records = map<nat, Record>

  predicate IsFuel(r: Record, bike: nat) { r.bike == bike && r.kind == "fuel" && !r.deleted }

  function FillOf(r: Record): Fill { Fill(r.odo, r.date, r.amount, r.trip, r.consumption) }

  function FuelRows(records: Records, bike: nat): Fills {
    map id | id in records && IsFuel(records[id], bike) :: FillOf(records[id])
  }

  /** The chain of a motorcycle is over its live records of kind fuel, as they are stored. */
  lemma {:induction false} FuelRowsAre(records: Records, bike: nat, id: nat)
    ensures id in FuelRows(records, bike)
       <==> (id in records && records[id].bike == bike && records[id].kind == "fuel" && !records[id].deleted)
    ensures id in FuelRows(records, bike) ==>
              var (r, f) := (records[id], FuelRows(records, bike)[id]);
              && f.odo == r.odo && f.date == r.date && f.amount == r.amount
              && f.trip == r.trip && f.consumption == r.consumption
  {}

  ghost predicate ChainsOk(records: Records) { forall bike :: ChainOk(FuelRows(records, bike)) }

  // ------------------------------------------------------------------ recomputation

  function Settled(r: Record, s: Stats, now: nat): Record {
    if Agrees(FillOf(r), s) then r else r.(trip := s.trip, consumption := s.consumption, updatedAt := now)
  }

  /** The rows are rewritten one by one, where the stored values do not stand. */
  function Rewritten(records: Records, ids: seq<nat>, prev: Option<int>, now: nat): (after: Records)
    requires forall id :: id in ids ==> id in records
    ensures after.Keys == records.Keys
    decreases |ids|
  {
    if ids == [] then records
    else
      var r := records[ids[0]];
      Rewritten(records[ids[0] := Settled(r, StatsForGap(prev, r.odo, r.amount), now)], ids[1..], Some(r.odo), now)
  }

  ghost predicate OnBike(records: Records, ids: seq<nat>, bike: nat) {
    forall id :: id in ids ==> id in records && IsFuel(records[id], bike)
  }

  /** The first `i` rows are done: what is left to do gives what all of it was to give. */
  ghost predicate Pending(original: Records, records: Records, ids: seq<nat>, i: nat, prev: Option<int>, now: nat,
                          bike: nat)
    requires i <= |ids|
  {
    && OnBike(original, ids, bike) && OnBike(records, ids, bike) && OnBike(records, ids[i..], bike)
    && (forall k :: i <= k < |ids| ==> records[ids[k]] == original[ids[k]])
    && Rewritten(original, ids, None, now) == Rewritten(records, ids[i..], prev, now)
  }

  lemma {:induction false} PendingNext(original: Records, records: Records, ids: seq<nat>, i: nat, prev: Option<int>,
                                       now: nat, bike: nat, r: Record)
    requires i < |ids| && Apart(ids) && Pending(original, records, ids, i, prev, now, bike)
    requires r == Settled(original[ids[i]], StatsForGap(prev, original[ids[i]].odo, original[ids[i]].amount), now)
    ensures Pending(original, records[ids[i] := r], ids, i + 1, Some(original[ids[i]].odo), now, bike)
  {
    assert ids[i..][0] == ids[i] && ids[i..][1..] == ids[i + 1..] && ids[i] in ids;
    var next: Records := records[ids[i] := r];
    assert Rewritten(records, ids[i..], prev, now) == Rewritten(next, ids[i + 1..], Some(original[ids[i]].odo), now);
    forall id | id in ids ensures id in next && IsFuel(next[id], bike) {}
    forall id | id in ids[i + 1..] ensures id in next && IsFuel(next[id], bike) { assert id in ids; }
  }

  lemma {:induction false} SettledRow(records: Records, id: nat, s: Stats, now: nat, bike: nat, b: nat)
    requires id in records && IsFuel(records[id], bike)
    ensures FuelRows(records[id := Settled(records[id], s, now)], b)
         == if b == bike then FuelRows(records, b)[id := Fixed(FuelRows(records, b)[id], s)] else FuelRows(records, b)
  {}

  /** On the rows of the motorcycle this is the recomputation of its chain; other motorcycles see nothing. */
  lemma {:induction false} RewrittenRows(records: Records, ids: seq<nat>, prev: Option<int>, now: nat, bike: nat,
                                         b: nat)
    requires OnBike(records, ids, bike)
    ensures FuelRows(Rewritten(records, ids, prev, now), b)
         == if b == bike then Refilled(FuelRows(records, b), ids, prev) else FuelRows(records, b)
    decreases |ids|
  {
    if ids != [] {
      var r, rest := records[ids[0]], ids[1..];
      var s := StatsForGap(prev, r.odo, r.amount);
      var next: Records := records[ids[0] := Settled(r, s, now)];
      assert ids == [ids[0]] + rest;
      SettledRow(records, ids[0], s, now, bike, b);
      SettledRow(records, ids[0], s, now, bike, bike);
      RewrittenRows(next, rest, Some(r.odo), now, bike, b);
    }
  }

  /** Where every row agrees with what would be stored, nothing is written, not even a stamp. */
  lemma {:induction false} NothingToRewrite(records: Records, ids: seq<nat>, prev: Option<int>, now: nat, bike: nat)
    requires OnBike(records, ids, bike)
    requires forall k :: 0 <= k < |ids| ==> Agrees(FuelRows(records, bike)[ids[k]],
                                                   StatsAt(FuelRows(records, bike), ids, prev, k))
    ensures Rewritten(records, ids, prev, now) == records
    decreases |ids|
  {
    if ids != [] {
      var r, rest, rows := records[ids[0]], ids[1..], FuelRows(records, bike);
      assert ids == [ids[0]] + rest && ids[0] in ids;
      assert Agrees(rows[ids[0]], StatsAt(rows, ids, prev, 0));
      assert records[ids[0] := r] == records;
      forall k | 0 <= k < |rest| ensures Agrees(rows[rest[k]], StatsAt(rows, rest, Some(r.odo), k)) {
        assert Agrees(rows[ids[k + 1]], StatsAt(rows, ids, prev, k + 1));
        assert rest[k] == ids[k + 1] && PrevOdo(rows, rest, Some(r.odo), k) == PrevOdo(rows, ids, prev, k + 1);
      }
      NothingToRewrite(records, rest, Some(r.odo), now, bike);
    }
  }

  /** A second recomputation, at whatever time, writes no row. */
  lemma {:induction false} RecalculatingTwice(records: Records, ids: seq<nat>, now: nat, later: nat, bike: nat)
    requires IsChain(FuelRows(records, bike), ids) && OnBike(records, ids, bike)
    ensures Rewritten(Rewritten(records, ids, None, now), ids, None, later) == Rewritten(records, ids, None, now)
  {
    var once := Rewritten(records, ids, None, now);
    RewrittenRows(records, ids, None, now, bike, bike);
    assert OnBike(once, ids, bike) by { forall id | id in ids ensures id in FuelRows(once, bike) {} }
    RefilledIsOk(FuelRows(records, bike), ids);
    ChainOkBy(FuelRows(once, bike), ids);
    NothingToRewrite(once, ids, None, later, bike);
  }

  // -------------------------------------------------------------- what a handler does

  /**
    The chain of the motorcycle was recomputed, or else its fuel rows are what they were
    less the dropped ones; so are those of every other motorcycle.
  */
  ghost predicate Outcome(before: Records, after: Records, bike: nat, recomputed: bool, dropped: set<nat>) {
    forall b :: if recomputed && b == bike then ChainOk(FuelRows(after, b))
                else FuelRows(after, b) == FuelRows(before, b) - dropped
  }

  /**
    Then all chains are correct exactly when, on every motorcycle not recomputed, the fills
    that follow a dropped one had the odometer there of the nearest fill left before them.
  */
  lemma {:induction false} OutcomeChains(before: Records, after: Records, bike: nat, recomputed: bool,
                                         dropped: set<nat>)
    requires ChainsOk(before) && Outcome(before, after, bike, recomputed, dropped)
    ensures ChainsOk(after) <==> forall b :: !(recomputed && b == bike) ==> Harmless(FuelRows(before, b), dropped)
  {
    forall b: nat | !(recomputed && b == bike)
      ensures ChainOk(FuelRows(after, b)) <==> Harmless(FuelRows(before, b), dropped)
    {
      assert ChainOk(FuelRows(before, b));
      HarmlessMeans(FuelRows(before, b), dropped);
      assert FuelRows(after, b) == FuelRows(before, b) - dropped;
    }
    forall b: nat | recomputed && b == bike ensures ChainOk(FuelRows(after, b)) {}
    if ChainsOk(after) {
      forall b: nat | !(recomputed && b == bike) ensures Harmless(FuelRows(before, b), dropped) {
        assert ChainOk(FuelRows(after, b));
      }
    }
  }

  /** In particular where no live fuel row of a chain not recomputed was dropped. */
  lemma {:induction false} OutcomeKeepsChains(before: Records, after: Records, bike: nat, recomputed: bool,
                                              dropped: set<nat>)
    requires ChainsOk(before) && Outcome(before, after, bike, recomputed, dropped)
    requires forall b, id :: id in dropped && id in FuelRows(before, b) ==> recomputed && b == bike
    ensures ChainsOk(after)
  {
    forall b: nat ensures ChainOk(FuelRows(after, b)) {
      assert ChainOk(FuelRows(before, b));
      if !(recomputed && b == bike) { assert FuelRows(before, b) - dropped == FuelRows(before, b); }
    }
  }

  // ---------------------------------------------------------------- bundled items

  function ItemKind(item: string): (string, Option<string>) {
    if item in ["engineoil", "gearboxoil", "finaldriveoil", "finaldrivegearboxoil", "forkoil", "brakefluid", "coolant"]
    then ("fluid", Some(item))
    else (if item == "chain" then "chain" else "general", None)
  }

  /** The item a child stands for; any other kind, fuel included, counts as general. */
  function ItemKey(r: Record): string {
    if r.kind == "fluid" then r.fluid.GetOr("") else if r.kind == "chain" then "chain" else "general"
  }

  function Children(records: Records, mid: nat): Records {
    map id | id in records && records[id].parent == Some(mid) :: records[id]
  }

  function ParentsOf(records: Records): Parents { map id | id in records :: records[id].parent }

  function Unlisted(records: Records, mid: nat, items: Option<seq<string>>): set<nat> {
    if items.None? then {} else set id | id in Children(records, mid) && ItemKey(records[id]) !in items.value
  }

  /** The children not listed any more are deleted, and the foreign key deletes what is below them. */
  ghost function Dropped(records: Records, mid: nat, items: Option<seq<string>>): set<nat> {
    CascadeOf(ParentsOf(records), Unlisted(records, mid, items))
  }

  predicate HasItem(children: Records, kind: string, fluid: Option<string>) {
    exists c :: c in children && children[c].kind == kind && (kind == "fluid" ==> children[c].fluid == fluid)
  }

  /** The WHERE clause compares with NULL: it matches an equal fluid or a row without one. */
  predicate Matches(r: Record, mid: nat, kind: string, fluid: Option<string>) {
    r.parent == Some(mid) && r.kind == kind && (r.fluid.None? || r.fluid == fluid)
  }

  function Bundled(bike: nat, mid: nat, kind: string, fluid: Option<string>, odo: int, date: string,
                   stamp: nat): Record {
    Record(bike, kind, fluid, Some(mid), odo, date, None, None, None, false, stamp)
  }

  function WithItem(records: Records, children: Records, bike: nat, mid: nat, item: string, odo: int, date: string,
                    id: nat, stamp: nat): Records {
    var (kind, fluid) := ItemKind(item);
    if HasItem(children, kind, fluid)
    then map r | r in records ::
           if Matches(records[r], mid, kind, fluid) then records[r].(date := date, odo := odo) else records[r]
    else records[id := Bundled(bike, mid, kind, fluid, odo, date, stamp)]
  }

  function WithItems(records: Records, children: Records, bike: nat, mid: nat, items: seq<string>, odo: int,
                     date: string, ids: seq<nat>, stamp: nat): Records
    requires |items| == |ids|
    decreases |items|
  {
    if items == [] then records
    else WithItems(WithItem(records, children, bike, mid, items[0], odo, date, ids[0], stamp),
                   children, bike, mid, items[1..], odo, date, ids[1..], stamp)
  }

  lemma {:induction false} ItemKeepsFuel(records: Records, children: Records, bike: nat, mid: nat, item: string,
                                         odo: int, date: string, id: nat, stamp: nat, b: nat)
    requires id !in records
    ensures FuelRows(WithItem(records, children, bike, mid, item, odo, date, id, stamp), b) == FuelRows(records, b)
    ensures WithItem(records, children, bike, mid, item, odo, date, id, stamp).Keys <= records.Keys + {id}
  {}

  ghost predicate NewIds(records: Records, ids: seq<nat>) {
    (forall i :: 0 <= i < |ids| ==> ids[i] !in records) && (forall i, j :: 0 <= i < j < |ids| ==> ids[i] != ids[j])
  }

  /** Bundled items are never fuel: no chain notices them. */
  lemma {:induction false} ItemsKeepFuel(records: Records, children: Records, bike: nat, mid: nat, items: seq<string>,
                                         odo: int, date: string, ids: seq<nat>, stamp: nat, b: nat)
    requires |items| == |ids| && NewIds(records, ids)
    ensures FuelRows(WithItems(records, children, bike, mid, items, odo, date, ids, stamp), b) == FuelRows(records, b)
    decreases |items|
  {
    if items != [] {
      var next: Records := WithItem(records, children, bike, mid, items[0], odo, date, ids[0], stamp);
      ItemKeepsFuel(records, children, bike, mid, items[0], odo, date, ids[0], stamp, b);
      forall i | 0 <= i < |ids[1..]| ensures ids[1..][i] !in next { assert ids[1..][i] == ids[i + 1]; }
      ItemsKeepFuel(next, children, bike, mid, items[1..], odo, date, ids[1..], stamp, b);
    }
  }

  // ---------------------------------------------------------------- what the handlers leave

  lemma {:induction false} ChainOnBike(records: Records, ids: seq<nat>, bike: nat)
    requires IsChain(FuelRows(records, bike), ids)
    ensures OnBike(records, ids, bike) && Apart(ids)
  {
    ChainApart(FuelRows(records, bike), ids);
    forall id | id in ids ensures id in FuelRows(records, bike) {}
  }

  lemma {:induction false} RecomputedOutcome(records: Records, ids: seq<nat>, now: nat, bike: nat)
    requires IsChain(FuelRows(records, bike), ids) && OnBike(records, ids, bike)
    ensures Outcome(records, Rewritten(records, ids, None, now), bike, true, {})
  {
    var after := Rewritten(records, ids, None, now);
    RefilledIsOk(FuelRows(records, bike), ids);
    forall b
      ensures if b == bike then ChainOk(FuelRows(after, b)) else FuelRows(after, b) == FuelRows(records, b) - {}
    {
      RewrittenRows(records, ids, None, now, bike, b);
    }
  }

  lemma {:induction false} RecomputedSays(records: Records, ids: seq<nat>, now: nat, bike: nat)
    requires IsChain(FuelRows(records, bike), ids) && OnBike(records, ids, bike)
    ensures AllSay(FuelRows(Rewritten(records, ids, None, now), bike), ids)
  {
    var fills := FuelRows(records, bike);
    RewrittenRows(records, ids, None, now, bike, bike);
    RefilledIsOk(fills, ids);
    forall k | 0 <= k < |ids| ensures SaysWhatWasRidden(Refilled(fills, ids, None), ids, k) {
      CorrectChainSays(Refilled(fills, ids, None), ids, k);
    }
  }

  lemma {:induction false} ThenRecomputed(before: Records, stored: Records, after: Records, bike: nat,
                                          dropped: set<nat>)
    requires forall b :: b != bike ==> FuelRows(stored, b) == FuelRows(before, b) - dropped
    requires Outcome(stored, after, bike, true, {})
    ensures Outcome(before, after, bike, true, dropped)
  {}

  datatype Changes = Changes(kind: Option<string>, fluid: Option<string>, parent: Option<nat>, odo: Option<int>,
                             date: Option<string>, amount: Option<real>, trip: Option<real>, consumption: Option<real>)

  function Changed(r: Record, c: Changes, now: nat): Record {
    r.(kind := c.kind.GetOr(r.kind), fluid := c.fluid.Or(r.fluid), parent := c.parent.Or(r.parent),
       odo := c.odo.GetOr(r.odo),
       date := c.date.GetOr(r.date), amount := c.amount.Or(r.amount), trip := c.trip.Or(r.trip),
       consumption := c.consumption.Or(r.consumption), updatedAt := now)
  }

  lemma {:induction false} ChangedTakes(r: Record, c: Changes, now: nat)
    ensures var after := Changed(r, c, now);
            && Takes(c.kind, r.kind, after.kind) && Takes(c.odo, r.odo, after.odo) && Takes(c.date, r.date, after.date)
            && TakesOver(c.fluid, r.fluid, after.fluid) && TakesOver(c.parent, r.parent, after.parent)
            && TakesOver(c.amount, r.amount, after.amount) && TakesOver(c.trip, r.trip, after.trip)
            && TakesOver(c.consumption, r.consumption, after.consumption)
            && after.bike == r.bike && after.deleted == r.deleted && after.updatedAt == now
  {}

  /** The tables an update leaves before any recomputation. */
  ghost function Reconciled(records: Records, bike: nat, mid: nat, row: Record, items: Option<seq<string>>,
                            ids: seq<nat>, stamp: nat): Records
    requires |items.GetOr([])| == |ids|
  {
    var written := records[mid := row];
    WithItems(written - Dropped(written, mid, items), Children(written, mid), bike, mid, items.GetOr([]), row.odo,
              row.date, ids, stamp)
  }

  lemma {:induction false} WrittenRows(records: Records, mid: nat, row: Record, bike: nat, b: nat)
    requires mid in records && records[mid].bike == row.bike == bike
    requires b != bike || (records[mid].kind != "fuel" && row.kind != "fuel")
    ensures FuelRows(records[mid := row], b) == FuelRows(records, b)
  {}

  lemma {:induction false} ReconciledRows(records: Records, bike: nat, mid: nat, row: Record,
                                          items: Option<seq<string>>, ids: seq<nat>, stamp: nat, b: nat)
    requires |items.GetOr([])| == |ids| && NewIds(records, ids) && mid in records
    requires records[mid].bike == row.bike == bike
    requires b != bike || (records[mid].kind != "fuel" && row.kind != "fuel")
    ensures FuelRows(Reconciled(records, bike, mid, row, items, ids, stamp), b)
         == FuelRows(records, b) - Dropped(records[mid := row], mid, items)
  {
    var written: Records := records[mid := row];
    var dropped := Dropped(written, mid, items);
    WrittenRows(records, mid, row, bike, b);
    assert FuelRows(written - dropped, b) == FuelRows(written, b) - dropped;
    ItemsKeepFuel(written - dropped, Children(written, mid), bike, mid, items.GetOr([]), row.odo, row.date, ids, stamp,
                  b);
  }

  lemma {:induction false} CreatedRows(before: Records, id: nat, row: Record, bike: nat, items: seq<string>,
                                       newIds: seq<nat>, now: nat)
    requires id !in before && NewIds(before, newIds) && id !in newIds && |items| == |newIds| && row.bike == bike
    ensures forall b :: b != bike || row.kind != "fuel" ==>
      FuelRows(WithItems(before[id := row], map[], bike, id, items, row.odo, row.date, newIds, now), b)
      == FuelRows(before, b) - {}
  {
    var inserted: Records := before[id := row];
    forall b | b != bike || row.kind != "fuel"
      ensures FuelRows(WithItems(inserted, map[], bike, id, items, row.odo, row.date, newIds, now), b)
           == FuelRows(before, b) - {}
    {
      ItemsKeepFuel(inserted, map[], bike, id, items, row.odo, row.date, newIds, now, b);
      assert FuelRows(inserted, b) == FuelRows(before, b);
    }
  }

  ghost predicate IsRecomputed(stored: Records, after: Records, bike: nat, chain: seq<nat>, now: nat) {
    && IsChain(FuelRows(stored, bike), chain) && OnBike(stored, chain, bike)
    && after == Rewritten(stored, chain, None, now)
  }

  // ---------------------------------------------------------------- a stale chain

  /** A fill booked under a general item that is itself booked under a repair. */
  function Example(): Records {
    map[1 := Record(0, "fuel", None, None, 100, "2024-01-01", None, None, None, false, 0),
        2 := Record(0, "fuel", None, Some(8), 200, "2024-01-02", None, Some(100.0), None, false, 0),
        3 := Record(0, "fuel", None, None, 300, "2024-01-03", None, Some(100.0), None, false, 0),
        8 := Record(0, "general", None, Some(9), 200, "2024-01-02", None, None, None, false, 0),
        9 := Record(0, "repair", None, None, 200, "2024-01-02", None, None, None, false, 0)]
  }

  function ExampleFills(): Fills {
    map[1 := Fill(100, "2024-01-01", None, None, None),
        2 := Fill(200, "2024-01-02", None, Some(100.0), None),
        3 := Fill(300, "2024-01-03", None, Some(100.0), None)]
  }

  lemma {:induction false} ExampleRows(b: nat)
    ensures FuelRows(Example(), b) == if b == 0 then ExampleFills() else map[]
  {
    var records := Example();
    assert records.Keys == {1, 2, 3, 8, 9};
    if b == 0 { assert FuelRows(records, b).Keys == {1, 2, 3}; }
  }

  lemma {:induction false} ExampleChain()
    ensures IsChain(ExampleFills(), [1, 2, 3]) && ChainOk(ExampleFills())
  {
    ExampleOrder();
    ExampleAgrees();
    ChainOkBy(ExampleFills(), [1, 2, 3]);
  }

  lemma {:induction false} ExampleOrder()
    ensures IsChain(ExampleFills(), [1, 2, 3])
  {}

  lemma {:induction false} ExampleAgrees()
    ensures AgreesAlong(ExampleFills(), [1, 2, 3])
  {
    var fills, ids: seq<nat> := ExampleFills(), [1, 2, 3];
    forall k | 0 <= k < 3 ensures Agrees(fills[ids[k]], Expected(fills, ids, k)) {
      assert fills[ids[k]].odo == 100 * (k + 1);
      assert PrevOdo(fills, ids, None, k) == if k == 0 then None else Some(100 * k);
      assert fills[ids[k]].amount == None;
    }
  }

  lemma {:induction false} ExampleIsOk()
    ensures ChainsOk(Example())
  {
    forall b: nat ensures ChainOk(FuelRows(Example(), b)) {
      ExampleRows(b);
      if b == 0 { ExampleChain(); } else { NoFillsIsOk(); }
    }
  }

  lemma {:induction false} NoFillsIsOk()
    ensures ChainOk(map[])
  {
    ChainOkBy(map[], []);
  }

  lemma {:induction false} TopIsBelowNone(g: Parents, a: nat, x: nat)
    requires ParentOf(g, x).None?
    ensures Above(g, a, x) <==> a == x
  {
    assert Up(g, x, 0) == Some(x);
  }

  lemma {:induction false} ExampleDropped(row: Record)
    requires row.parent.None?
    ensures Dropped(Example()[9 := row], 9, Some([])) == {2, 8}
  {
    var written: Records := Example()[9 := row];
    var g := ParentsOf(written);
    assert written.Keys == {1, 2, 3, 8, 9} && Unlisted(written, 9, Some([])) == {8};
    assert Up(g, 8, 0) == Some(8) && Up(g, 2, 1) == Up(g, 8, 0);
    assert Above(g, 8, 8) && Above(g, 8, 2);
    forall x | x in {1, 3, 9} ensures !Above(g, 8, x) { TopIsBelowNone(g, 8, x); }
  }

  /**
    An update of repair 9 that lists no bundled items drops item 8, fill 2 with it, and leaves fill
    3 with a stale trip.
  */
  lemma {:induction false} DroppedItemLeavesStaleChain(row: Record)
    requires row.bike == 0 && row.kind == "repair" && row.parent.None?
    ensures ChainsOk(Example())
    ensures !ChainOk(FuelRows(Reconciled(Example(), 0, 9, row, Some([]), [], 0), 0))
  {
    ExampleIsOk();
    ExampleRows(0);
    ExampleChain();
    ExampleDropped(row);
    ReconciledRows(Example(), 0, 9, row, Some([]), [], 0, 0);
    ExampleMissed();
    DroppedFills(ExampleFills(), [1, 2, 3], {2, 8});
  }

  lemma {:induction false} ExampleMissed()
    ensures (forall id :: id in [1, 2, 3] ==> id in ExampleFills()) && !NotMissed(ExampleFills(), [1, 2, 3], {2, 8})
  {
    assert !MeasuredAt(ExampleFills(), [1, 2, 3], {2, 8}, 2);
  }

  // ---------------------------------------------------------------- the handlers

  /** A foreign key: the parent exists, or is the row itself. */
  predicate ParentKnown(written: Records, row: Record) { row.parent.Some? ==> row.parent.value in written }

  predicate MissesItem(children: Records, items: seq<string>) {
    exists i :: 0 <= i < |items| && !HasItem(children, ItemKind(items[i]).0, ItemKind(items[i]).1)
  }

  /**
    The deletes may take the record itself along, when it hangs from an item of its own; then
    nothing can be booked under it.
  */
  ghost predicate Reconcilable(written: Records, mid: nat, items: Option<seq<string>>) {
    mid in Dropped(written, mid, items) ==> !MissesItem(Children(written, mid), items.GetOr([]))
  }

  method DropUnlisted(written: Records, mid: nat, items: seq<string>) returns (left: Records)
    ensures left == written - Dropped(written, mid, Some(items))
  {
    var unlisted, g := Unlisted(written, mid, Some(items)), ParentsOf(written);
    var todo: set<nat> := unlisted;
    left := written;
    assert unlisted - todo == {} && CascadeOf(g, {}) == {};
    while todo != {}
      invariant todo <= unlisted && left == written - CascadeOf(g, unlisted - todo)
    {
      var c: nat :| c in todo;
      assert ParentsOf(left) == g - CascadeOf(g, unlisted - todo);
      DeletesAdd(g, unlisted - todo, c);
      assert unlisted - (todo - {c}) == unlisted - todo + {c};
      var gone := Delete(ParentsOf(left), {c});
      left := left - gone;
      todo := todo - {c};
    }
    assert unlisted - todo == unlisted;
  }

  /** Inside the transaction of an update: false where the foreign key rolls it back. */
  method Reconcile(written: Records, bike: nat, mid: nat, items: seq<string>, odo: int, date: string, ids: seq<nat>,
                   stamp: nat)
    returns (ok: bool, tx: Records)
    requires mid in written && |items| == |ids| && NewIds(written, ids)
    ensures ok <==> Reconcilable(written, mid, Some(items))
    ensures ok ==> tx == WithItems(written - Dropped(written, mid, Some(items)), Children(written, mid), bike, mid,
                                   items, odo, date, ids, stamp)
  {
    var children := Children(written, mid);
    tx := DropUnlisted(written, mid, items);
    ghost var target := WithItems(tx, children, bike, mid, items, odo, date, ids, stamp);
    for n := 0 to |items|
      invariant target == WithItems(tx, children, bike, mid, items[n..], odo, date, ids[n..], stamp)
      invariant mid in tx <==> mid !in Dropped(written, mid, Some(items))
      invariant mid !in tx ==> forall i :: 0 <= i < n ==> HasItem(children, ItemKind(items[i]).0, ItemKind(items[i]).1)
    {
      var (kind, fluid) := ItemKind(items[n]);
      if !HasItem(children, kind, fluid) && mid !in tx { return false, tx; }
      assert items[n..][0] == items[n] && ids[n..][0] == ids[n];
      assert items[n..][1..] == items[n + 1..] && ids[n..][1..] == ids[n + 1..];
      tx := WithItem(tx, children, bike, mid, items[n], odo, date, ids[n], stamp);
    }
    ok := true;
  }

  class Maintenance {
    var records: Records

    /** `recalculate_fuel_chain`: the rows are read once, then rewritten where their values do not stand. */
    method RecalculateFuelChain(bike: nat, now: nat) returns (ghost chain: seq<nat>)
      modifies this
      ensures IsRecomputed(old(records), records, bike, chain, now)
      ensures Outcome(old(records), records, bike, true, {}) && AllSay(FuelRows(records, bike), chain)
      ensures forall id :: id in chain <==> id in FuelRows(old(records), bike)
    {
      var rows: Fills := FuelRows(records, bike);
      var ids := OrderedRows(rows);
      ChainOnBike(records, ids, bike);
      RecomputedOutcome(records, ids, now, bike);
      RecomputedSays(records, ids, now, bike);
      chain := ids;
      var prevOdo: Option<int> := None;
      assert ids[0..] == ids;
      for i := 0 to |ids|
        invariant Pending(old(records), records, ids, i, prevOdo, now, bike)
      {
        var row := rows[ids[i]];
        var s := StatsForGap(prevOdo, row.odo, row.amount);
        assert ids[i] in ids && FillOf(records[ids[i]]) == row && records[ids[i]] == old(records)[ids[i]];
        PendingNext(old(records), records, ids, i, prevOdo, now, bike, Settled(records[ids[i]], s, now));
        Settle(ids[i], row, s, now);
        prevOdo := Some(row.odo);
      }
      assert ids[|ids|..] == [];
    }

    /** A row whose values stand is not written, so its stamp stays too. */
    method Settle(id: nat, row: Fill, s: Stats, now: nat)
      requires id in records && FillOf(records[id]) == row
      modifies this
      ensures records == old(records)[id := Settled(old(records)[id], s, now)]
    {
      if SameValue(row.trip, s.trip) && SameValue(row.consumption, s.consumption) {
        assert records[id := records[id]] == records;
        return;
      }
      records := records[id := records[id].(trip := s.trip, consumption := s.consumption, updatedAt := now)];
    }

    method InsertItems(bike: nat, mid: nat, items: seq<string>, odo: int, date: string, newIds: seq<nat>, now: nat)
      requires |items| == |newIds|
      modifies this
      ensures records == WithItems(old(records), map[], bike, mid, items, odo, date, newIds, now)
    {
      for n := 0 to |items|
        invariant WithItems(old(records), map[], bike, mid, items, odo, date, newIds, now)
               == WithItems(records, map[], bike, mid, items[n..], odo, date, newIds[n..], now)
      {
        assert items[n..][0] == items[n] && newIds[n..][0] == newIds[n];
        assert items[n..][1..] == items[n + 1..] && newIds[n..][1..] == newIds[n + 1..];
        var (kind, fluid) := ItemKind(items[n]);
        records := records[newIds[n] := Bundled(bike, mid, kind, fluid, odo, date, now)];
      }
    }

    method CreateMaintenance(bike: nat, now: nat, id: nat, row: Record, items: Option<seq<string>>, newIds: seq<nat>)
      returns (done: bool, ghost chain: seq<nat>)
      requires id !in records && NewIds(records, newIds) && id !in newIds && |items.GetOr([])| == |newIds|
      requires row.bike == bike && !row.deleted && row.updatedAt == now
      modifies this
      ensures done <==> ParentKnown(old(records)[id := row], row)
      ensures !done ==> records == old(records)
      ensures done ==>
        var stored := WithItems(old(records)[id := row], map[], bike, id, items.GetOr([]), row.odo, row.date, newIds,
                                now);
        && (if row.kind == "fuel" then IsRecomputed(stored, records, bike, chain, now) else records == stored)
        && Outcome(old(records), records, bike, row.kind == "fuel", {})
    {
      chain := [];
      done := row.parent.None? || row.parent.value == id || row.parent.value in records;
      if !done { return; }
      records := records[id := row];
      ghost var inserted := records;
      InsertItems(bike, id, items.GetOr([]), row.odo, row.date, newIds, now);
      ghost var stored := records;
      CreatedRows(old(records), id, row, bike, items.GetOr([]), newIds, now);
      if row.kind == "fuel" {
        chain := RecalculateFuelChain(bike, now);
        ThenRecomputed(old(records), stored, records, bike, {});
      }
    }

    /** A tombstone is found too; a row the request leaves without a kind keeps the one it had. */
    method UpdateMaintenance(bike: nat, now: nat, mid: nat, c: Changes, items: Option<seq<string>>, newIds: seq<nat>,
                             stamp: nat)
      returns (done: bool, ghost recomputed: bool, ghost dropped: set<nat>, ghost chain: seq<nat>)
      requires NewIds(records, newIds) && |items.GetOr([])| == |newIds|
      modifies this
      ensures done <==> mid in old(records) && old(records)[mid].bike == bike
                        && var row := Changed(old(records)[mid], c, now);
                           ParentKnown(old(records)[mid := row], row)
                           && Reconcilable(old(records)[mid := row], mid, items)
      ensures !done ==> records == old(records)
      ensures done ==>
        var row := Changed(old(records)[mid], c, now);
        var stored := Reconciled(old(records), bike, mid, row, items, newIds, stamp);
        && recomputed == (row.kind == "fuel" || old(records)[mid].kind == "fuel")
        && dropped == Dropped(old(records)[mid := row], mid, items)
        && Outcome(old(records), records, bike, recomputed, dropped)
        && (if recomputed then IsRecomputed(stored, records, bike, chain, now) else records == stored)
    {
      recomputed, dropped, chain := false, {}, [];
      done := mid in records && records[mid].bike == bike;
      if !done { return; }
      var existing := records[mid];
      var row := Changed(existing, c, now);
      ghost var before := records;
      var tx: Records := records[mid := row];
      dropped := Dropped(tx, mid, items);
      if row.parent.Some? && row.parent.value !in tx { return false, recomputed, dropped, chain; }
      if items.Some? {
        done, tx := Reconcile(tx, bike, mid, items.value, row.odo, row.date, newIds, stamp);
        if !done { return; }
      } else {
        NothingDropped(tx, mid);
      }
      records := tx;
      ghost var stored := records;
      recomputed := row.kind == "fuel" || existing.kind == "fuel";
      forall b | b != bike || !recomputed ensures FuelRows(stored, b) == FuelRows(before, b) - dropped {
        ReconciledRows(before, bike, mid, row, items, newIds, stamp, b);
      }
      if row.kind == "fuel" || existing.kind == "fuel" {
        chain := RecalculateFuelChain(bike, now);
        ThenRecomputed(before, stored, records, bike, dropped);
      }
    }

    method DeleteMaintenance(bike: nat, now: nat, mid: nat) returns (found: bool, ghost chain: seq<nat>)
      modifies this
      ensures found <==> mid in old(records) && old(records)[mid].bike == bike && !old(records)[mid].deleted
      ensures !found ==> records == old(records)
      ensures found ==> mid !in chain
      ensures found ==>
        var stored := old(records)[mid := old(records)[mid].(deleted := true, updatedAt := now)];
        IsRecomputed(stored, records, bike, chain, now) && Outcome(old(records), records, bike, true, {})
    {
      chain := [];
      found := mid in records && records[mid].bike == bike && !records[mid].deleted;
      if !found { return; }
      records := records[mid := records[mid].(deleted := true, updatedAt := now)];
      ghost var stored := records;
      assert forall b :: b != bike ==> FuelRows(stored, b) == FuelRows(old(records), b) - {};
      chain := RecalculateFuelChain(bike, now);
      ThenRecomputed(old(records), stored, records, bike, {});
    }

    /** Deleting a motorcycle deletes its records, and the foreign key what hangs from them on any other. */
    method DeleteMotorcycle(bike: nat) returns (ghost dropped: set<nat>)
      modifies this
      ensures dropped
           == CascadeOf(ParentsOf(old(records)), set id | id in old(records) && old(records)[id].bike == bike)
      ensures records == old(records) - dropped && Outcome(old(records), records, bike, false, dropped)
      ensures forall id :: id in records ==> records[id].bike != bike
    {
      var roots := set id | id in records && records[id].bike == bike;
      var gone := Delete(ParentsOf(records), roots);
      dropped := gone;
      forall id | id in roots ensures id in gone { RootGoes(ParentsOf(records), roots, id); }
      records := records - gone;
      assert forall b :: FuelRows(records, b) == FuelRows(old(records), b) - dropped;
    }
  }

  lemma {:induction false} NothingDropped(written: Records, mid: nat)
    ensures Dropped(written, mid, None) == {} && written - Dropped(written, mid, None) == written
  {}
}
