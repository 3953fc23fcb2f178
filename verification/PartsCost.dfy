/** The cached `partsCost` of a maintenance record: when it is null, what it is, and when that is up to date. */
module PartsCost {
  import opened Options
  import opened Sums
  import opened SyncTables
  import opened Inventory
  import opened InventorySync
  import RealSums

  /** A live record has no parts cost exactly when it has no live consumption. */
  ghost predicate CostsOk(db: Db) {
    forall r :: r in db.records && db.records[r].Live()
      ==> (db.records[r].cols.partsCost.None? <==> Unused(db.consumptions, r))
  }

  ghost predicate SameUse(a: Table<Consumption>, b: Table<Consumption>, r: nat) { Unused(a, r) <==> Unused(b, r) }

  /** Consumption changed, and at least the records whose use changed were recosted. */
  lemma {:induction false} RecostKeepsCosts(db: Db, changed: Db, ids: set<nat>, now: nat)
    requires CostsOk(db) && changed.records == db.records
    requires forall r :: r in db.records && r !in ids ==> SameUse(db.consumptions, changed.consumptions, r)
    ensures CostsOk(Recosted(changed, ids, now))
  {
    var after := Recosted(changed, ids, now);
    forall r | r in after.records && after.records[r].Live()
      ensures after.records[r].cols.partsCost.None? <==> Unused(after.consumptions, r)
    {
      UnusedIsEmpty(changed.consumptions, r);
      if r !in ids { assert SameUse(db.consumptions, changed.consumptions, r); }
    }
  }

  /** One row written: only the record it names, before and after, can see a difference. */
  lemma {:induction false} UsedAfterWrite(t: Table<Consumption>, id: nat, row: Row<Consumption>, r: nat)
    requires row.cols.record != Some(r) && (id in t ==> t[id].cols.record != Some(r))
    ensures UsedEntries(t[id := row], r) == UsedEntries(t, r)
  {}

  lemma {:induction false} PartGoneUsed(db: Db, id: nat, now: nat, r: nat)
    requires id in db.parts && r !in RecordsUsing(db.consumptions, id)
    ensures UsedEntries(WithoutPart(db, id, now).consumptions, r) == UsedEntries(db.consumptions, r)
  {
    var after := WithoutPart(db, id, now).consumptions;
    forall c | c in db.consumptions ensures c in UsedEntries(after, r) <==> c in UsedEntries(db.consumptions, r) {
      if c in UsedEntries(db.consumptions, r) { assert db.consumptions[c].cols.part != id; }
    }
  }

  lemma {:induction false} RecordGoneUsed(t: Table<Consumption>, id: nat, now: nat, r: nat)
    requires r != id
    ensures UsedEntries(TombstoneWhere(t, (c: Consumption) => c.record == Some(id), now), r) == UsedEntries(t, r)
  {}

  lemma {:induction false} UnboundUsed(t: Table<Consumption>, gone: set<nat>, r: nat)
    requires r !in gone
    ensures UsedEntries(Unbound(t, gone), r) == UsedEntries(t, r)
  {}

  lemma {:induction false} UsedDecidesUse(a: Table<Consumption>, b: Table<Consumption>, r: nat)
    requires UsedEntries(a, r) == UsedEntries(b, r)
    ensures SameUse(a, b, r)
  {
    UnusedIsEmpty(a, r);
    UnusedIsEmpty(b, r);
  }

  lemma {:induction false} ConsumptionWriteKeepsCosts(db: Db, id: nat, row: Row<Consumption>, now: nat)
    requires CostsOk(db) && (id in db.consumptions ==> db.consumptions[id].cols.record == row.cols.record)
    ensures CostsOk(Recosted(db.(consumptions := db.consumptions[id := row]), RecordIds(row.cols.record), now))
  {
    var changed := db.(consumptions := db.consumptions[id := row]);
    forall r | r in db.records && r !in RecordIds(row.cols.record)
      ensures SameUse(db.consumptions, changed.consumptions, r)
    {
      UsedAfterWrite(db.consumptions, id, row, r);
      UsedDecidesUse(db.consumptions, changed.consumptions, r);
    }
    RecostKeepsCosts(db, changed, RecordIds(row.cols.record), now);
  }

  lemma {:induction false} ConsumptionHandlersKeepCosts(db: Db, user: nat, now: nat, q: Request)
    requires CostsOk(db) && (q.CreateConsumption? || q.UpdateConsumption? || q.DeleteConsumption?) && NewId(db, q)
    ensures CostsOk(Apply(db, user, now, q))
  {
    var after := Apply(db, user, now, q);
    if after != db {
      var row := after.consumptions[q.id];
      assert after == Recosted(db.(consumptions := db.consumptions[q.id := row]), RecordIds(row.cols.record), now);
      ConsumptionWriteKeepsCosts(db, q.id, row, now);
    }
  }

  lemma {:induction false} DeletePartKeepsCosts(db: Db, user: nat, now: nat, id: nat)
    requires CostsOk(db)
    ensures CostsOk(DeletePartIn(db, user, now, id))
  {
    if LivePart(db, user, id) {
      var gone, ids := WithoutPart(db, id, now), RecordsUsing(db.consumptions, id);
      forall r | r in db.records && r !in ids ensures SameUse(db.consumptions, gone.consumptions, r) {
        PartGoneUsed(db, id, now, r);
        UsedDecidesUse(db.consumptions, gone.consumptions, r);
      }
      RecostKeepsCosts(db, gone, ids, now);
    }
  }

  lemma {:induction false} DeleteRecordKeepsCosts(db: Db, user: nat, now: nat, id: nat)
    requires CostsOk(db)
    ensures CostsOk(DeleteRecordIn(db, user, now, id))
  {
    if LiveRecord(db, user, id) {
      var after := WithoutRecord(db, id, now);
      forall r | r in after.records && after.records[r].Live()
        ensures after.records[r].cols.partsCost.None? <==> Unused(after.consumptions, r)
      {
        RecordGoneUsed(db.consumptions, id, now, r);
        UsedDecidesUse(db.consumptions, after.consumptions, r);
      }
    }
  }

  lemma {:induction false} EraseKeepsCosts(db: Db, gone: set<nat>)
    requires CostsOk(db)
    ensures CostsOk(EraseRecordsIn(db, gone))
  {
    var after := EraseRecordsIn(db, gone);
    forall r | r in after.records && after.records[r].Live()
      ensures after.records[r].cols.partsCost.None? <==> Unused(after.consumptions, r)
    {
      assert r in db.records && r !in gone;
      UnboundUsed(db.consumptions, gone, r);
      UsedDecidesUse(db.consumptions, after.consumptions, r);
    }
  }

  lemma {:induction false} CreateRecordKeepsCosts(db: Db, user: nat, now: nat, id: nat)
    requires CostsOk(db) && Linked(db) && id !in db.records
    ensures CostsOk(CreateRecordIn(db, user, now, id))
  {
    forall c | c in db.consumptions ensures !Uses(db.consumptions, id, c) {}
  }

  /** Requests that write neither consumptions nor records. */
  predicate LeavesCosts(q: Request) {
    || q.CreateNode? || q.UpdateNode? || q.DeleteNode? || q.CreatePart? || q.UpdatePart?
    || q.CreateStock? || q.UpdateStock? || q.DeleteStock? || q.CreatePlace? || q.DeletePlace? || q.MergePlaces?
  }

  lemma {:induction false} RestKeepsCosts(db: Db, user: nat, now: nat, q: Request)
    requires LeavesCosts(q)
    ensures Apply(db, user, now, q).consumptions == db.consumptions && Apply(db, user, now, q).records == db.records
  {}

  lemma {:induction false} RequestsKeepCosts(db: Db, user: nat, now: nat, q: Request)
    requires CostsOk(db) && Linked(db) && NewId(db, q)
    ensures CostsOk(Apply(db, user, now, q))
  {
    match q
    case DeletePart(id) => DeletePartKeepsCosts(db, user, now, id);
    case DeleteRecord(id) => DeleteRecordKeepsCosts(db, user, now, id);
    case CreateRecord(id) => CreateRecordKeepsCosts(db, user, now, id);
    case EraseRecords(gone) => EraseKeepsCosts(db, gone);
    case CreateConsumption(_, _) => ConsumptionHandlersKeepCosts(db, user, now, q);
    case UpdateConsumption(_, _) => ConsumptionHandlersKeepCosts(db, user, now, q);
    case DeleteConsumption(_) => ConsumptionHandlersKeepCosts(db, user, now, q);
    case _ => RestKeepsCosts(db, user, now, q);
  }

  /** In every run a live record's parts cost is null exactly when nothing live is booked on it. */
  lemma {:induction false} RunsKeepCosts(db: Db, actions: seq<Action>)
    requires CostsOk(db) && Linked(db) && Legal(db, actions)
    ensures CostsOk(Exec(db, actions))
    decreases |actions|
  {
    if actions != [] {
      var a := actions[0];
      RequestsKeepCosts(db, a.user, a.now, a.request);
      StepKeepsLinks(db, a);
      RunsKeepCosts(Apply(db, a.user, a.now, a.request), actions[1..]);
    }
  }

  lemma {:induction false} StepKeepsLinks(db: Db, a: Action)
    requires Linked(db) && NewId(db, a.request)
    ensures Linked(Apply(db, a.user, a.now, a.request))
  {
    EveryWriterSteps(db, a.user, a.now, a.request, a.now - 1);
  }

  // ------------------------------------------------------------- the stored value itself

  /** The records an accepted request recosts. */
  ghost function RecostedIds(db: Db, user: nat, q: Request): set<nat> {
    match q
    case CreateConsumption(_, c) => if MayConsume(db, user, c) then RecordIds(c.record) else {}
    case UpdateConsumption(id, n) =>
      if MayReconsume(db, user, id, n) then RecordIds(db.consumptions[id].cols.record) else {}
    case DeleteConsumption(id) =>
      if LiveConsumption(db, user, id) then RecordIds(db.consumptions[id].cols.record) else {}
    case DeletePart(id) => if LivePart(db, user, id) then RecordsUsing(db.consumptions, id) else {}
    case _ => {}
  }

  predicate IsLive(db: Db, r: nat) { r in db.records && db.records[r].Live() }

  /** The stored cost is that of what is booked on the record now, at the prices of some stock. */
  ghost predicate PricedBy(db: Db, stocks: Table<Stock>, r: nat) {
    IsLive(db, r) ==> db.records[r].cols.partsCost == CostOf(stocks, db.factors, UsedEntries(db.consumptions, r))
  }

  lemma {:induction false} RecostPrices(db: Db, changed: Db, ids: set<nat>, now: nat, stocks: Table<Stock>, r: nat)
    requires PricedBy(db, stocks, r) && changed.records == db.records && changed.factors == db.factors
    requires r !in ids ==> UsedEntries(changed.consumptions, r) == UsedEntries(db.consumptions, r)
    ensures PricedBy(Recosted(changed, ids, now), if r in ids then changed.stocks else stocks, r)
  {}

  lemma {:induction false} WritePrices(db: Db, id: nat, row: Row<Consumption>, now: nat, stocks: Table<Stock>, r: nat)
    requires PricedBy(db, stocks, r) && (id in db.consumptions ==> db.consumptions[id].cols.record == row.cols.record)
    ensures PricedBy(Recosted(db.(consumptions := db.consumptions[id := row]), RecordIds(row.cols.record), now),
                     if r in RecordIds(row.cols.record) then db.stocks else stocks, r)
  {
    var changed := db.(consumptions := db.consumptions[id := row]);
    if r !in RecordIds(row.cols.record) { UsedAfterWrite(db.consumptions, id, row, r); }
    RecostPrices(db, changed, RecordIds(row.cols.record), now, stocks, r);
  }

  lemma {:induction false} ConsumptionHandlersPrice(db: Db, user: nat, now: nat, q: Request, stocks: Table<Stock>,
                                                    r: nat)
    requires PricedBy(db, stocks, r) && NewId(db, q)
    requires q.CreateConsumption? || q.UpdateConsumption? || q.DeleteConsumption?
    ensures PricedBy(Apply(db, user, now, q), if r in RecostedIds(db, user, q) then db.stocks else stocks, r)
  {
    match q
    case CreateConsumption(id, c) =>
      if MayConsume(db, user, c) { WritePrices(db, id, Inserted(c, now), now, stocks, r); }
    case UpdateConsumption(id, n) =>
      if MayReconsume(db, user, id, n) {
        var row := db.consumptions[id];
        WritePrices(db, id, Written(row, row.cols.(quantity := n.GetOr(row.cols.quantity)), now), now, stocks, r);
      }
    case DeleteConsumption(id) =>
      if LiveConsumption(db, user, id) { WritePrices(db, id, Tombstone(db.consumptions[id], now), now, stocks, r); }
  }

  lemma {:induction false} DeletePartPrices(db: Db, user: nat, now: nat, id: nat, stocks: Table<Stock>, r: nat)
    requires PricedBy(db, stocks, r)
    ensures var after := DeletePartIn(db, user, now, id);
            PricedBy(after, if r in RecostedIds(db, user, DeletePart(id)) then after.stocks else stocks, r)
  {
    if LivePart(db, user, id) {
      var gone, ids := WithoutPart(db, id, now), RecordsUsing(db.consumptions, id);
      if r !in ids { PartGoneUsed(db, id, now, r); }
      RecostPrices(db, gone, ids, now, stocks, r);
    }
  }

  lemma {:induction false} CreateRecordPrices(db: Db, user: nat, now: nat, id: nat, stocks: Table<Stock>, r: nat)
    requires PricedBy(db, stocks, r) && Linked(db) && id !in db.records
    ensures PricedBy(CreateRecordIn(db, user, now, id), stocks, r)
  {
    if r == id { assert UsedEntries(db.consumptions, r) == map[]; }
  }

  lemma {:induction false} DeleteRecordPrices(db: Db, user: nat, now: nat, id: nat, stocks: Table<Stock>, r: nat)
    requires PricedBy(db, stocks, r)
    ensures PricedBy(DeleteRecordIn(db, user, now, id), stocks, r)
  {
    if r != id { RecordGoneUsed(db.consumptions, id, now, r); }
  }

  lemma {:induction false} ErasePrices(db: Db, gone: set<nat>, stocks: Table<Stock>, r: nat)
    requires PricedBy(db, stocks, r)
    ensures PricedBy(EraseRecordsIn(db, gone), stocks, r)
  {
    if r !in gone { UnboundUsed(db.consumptions, gone, r); }
  }

  lemma {:induction false} RestPrices(db: Db, user: nat, now: nat, q: Request, stocks: Table<Stock>, r: nat)
    requires PricedBy(db, stocks, r) && LeavesCosts(q)
    ensures PricedBy(Apply(db, user, now, q), stocks, r)
  {
    RestKeepsCosts(db, user, now, q);
    RestKeepsFactors(db, user, now, q);
  }

  lemma {:induction false} RestKeepsFactors(db: Db, user: nat, now: nat, q: Request)
    requires LeavesCosts(q)
    ensures Apply(db, user, now, q).factors == db.factors
  {}

  lemma {:induction false} RequestsPrice(db: Db, user: nat, now: nat, q: Request, stocks: Table<Stock>, r: nat)
    requires PricedBy(db, stocks, r) && Linked(db) && NewId(db, q)
    ensures PricedBy(Apply(db, user, now, q), Seen(db, user, now, q, stocks, r), r)
  {
    if q.CreateConsumption? || q.UpdateConsumption? || q.DeleteConsumption? {
      ConsumptionHandlersPrice(db, user, now, q, stocks, r);
      UsesKeepStocks(db, user, now, q);
    } else if q.DeletePart? {
      DeletePartPrices(db, user, now, q.id, stocks, r);
    } else if q.CreateRecord? {
      CreateRecordPrices(db, user, now, q.id, stocks, r);
    } else if q.DeleteRecord? {
      DeleteRecordPrices(db, user, now, q.id, stocks, r);
    } else if q.EraseRecords? {
      ErasePrices(db, q.gone, stocks, r);
    } else {
      RestPrices(db, user, now, q, stocks, r);
    }
  }

  /** The stock a record was last costed with: the present one whenever a request recosts it. */
  ghost function Seen(db: Db, user: nat, now: nat, q: Request, stocks: Table<Stock>, r: nat): Table<Stock> {
    if r in RecostedIds(db, user, q) then Apply(db, user, now, q).stocks else stocks
  }

  ghost function SeenIn(db: Db, actions: seq<Action>, stocks: Table<Stock>, r: nat): Table<Stock>
    decreases |actions|
  {
    if actions == [] then stocks
    else
      var a := actions[0];
      SeenIn(Apply(db, a.user, a.now, a.request), actions[1..], Seen(db, a.user, a.now, a.request, stocks, r), r)
  }

  /** In every run the stored cost is what is booked on the record now at the prices it was last costed with. */
  lemma {:induction false} StoredAtLastPrices(db: Db, actions: seq<Action>, stocks: Table<Stock>, r: nat)
    requires PricedBy(db, stocks, r) && Linked(db) && Legal(db, actions)
    ensures PricedBy(Exec(db, actions), SeenIn(db, actions, stocks, r), r)
    decreases |actions|
  {
    if actions != [] {
      var a := actions[0];
      RequestsPrice(db, a.user, a.now, a.request, stocks, r);
      StepKeepsLinks(db, a);
      var seen := Seen(db, a.user, a.now, a.request, stocks, r);
      StoredAtLastPrices(Apply(db, a.user, a.now, a.request), actions[1..], seen, r);
    }
  }

  /** The two tables agree on what each part used cost apiece. */
  ghost predicate SamePrices(a: Table<Stock>, b: Table<Stock>, factors: map<string, real>, used: map<nat, Entry>) {
    forall p :: p in PartsIn(used) ==> UnitPrice(a, factors, p) == UnitPrice(b, factors, p)
  }

  /**
    So from a right cost it is right after the run exactly when the stock written since the record was
    last costed leaves that sum as it was, and in particular when it leaves every unit price.
  */
  lemma {:induction false} StoredCostIsRightWhen(db: Db, actions: seq<Action>, r: nat)
    requires PricedBy(db, db.stocks, r) && Linked(db) && Legal(db, actions) && IsLive(Exec(db, actions), r)
    ensures var after, seen := Exec(db, actions), SeenIn(db, actions, db.stocks, r);
            var used := UsedEntries(after.consumptions, r);
            && (after.records[r].cols.partsCost == Cost(after, r)
                <==> CostOf(seen, after.factors, used) == CostOf(after.stocks, after.factors, used))
            && (SamePrices(seen, after.stocks, after.factors, used)
                ==> after.records[r].cols.partsCost == Cost(after, r))
  {
    var after, seen := Exec(db, actions), SeenIn(db, actions, db.stocks, r);
    StoredAtLastPrices(db, actions, db.stocks, r);
    SamePricesSameCost(seen, after.stocks, after.factors, UsedEntries(after.consumptions, r));
  }

  lemma {:induction false} SamePriceMaps(a: Table<Stock>, b: Table<Stock>, factors: map<string, real>, parts: set<nat>)
    requires forall p :: p in parts ==> UnitPrice(a, factors, p) == UnitPrice(b, factors, p)
    ensures Prices(a, factors, parts) == Prices(b, factors, parts)
  {}

  lemma {:induction false} SamePricesSameCost(a: Table<Stock>, b: Table<Stock>, factors: map<string, real>,
                                              used: map<nat, Entry>)
    ensures SamePrices(a, b, factors, used) ==> CostOf(a, factors, used) == CostOf(b, factors, used)
  {
    if SamePrices(a, b, factors, used) { SamePriceMaps(a, b, factors, PartsIn(used)); }
  }

  /** Whatever changes a record here, its cost above all, stamps it: an offline client hears of it. */
  lemma {:induction false} CostChangesAreStamped(db: Db, user: nat, now: nat, q: Request, since: int)
    requires NewId(db, q) && since < now && !q.EraseRecords?
    ensures Bumped(db.records, Apply(db, user, now, q).records, since)
  {
    if LeavesCosts(q) { RestKeepsCosts(db, user, now, q); }
  }

  // ------------------------------------------------------------------ what a piece costs

  /** A part has a unit price as long as some is stocked; times the stock, that is what all of it was worth. */
  lemma {:induction false} UnitPriceMeans(stocks: Table<Stock>, factors: map<string, real>, p: nat)
    ensures UnitPrice(stocks, factors, p).Some? <==> Quantity(StockEntries(stocks), p) > 0
    ensures UnitPrice(stocks, factors, p).Some?
        ==> (Times(UnitPrice(stocks, factors, p).value, Quantity(StockEntries(stocks), p))
             == RealSums.Sum(WorthOf(stocks, factors, p)))
  {
    var quantity := Quantity(StockEntries(stocks), p);
    if quantity > 0 { Shares(RealSums.Sum(WorthOf(stocks, factors, p)), quantity); }
  }

  lemma {:induction false} Shares(total: real, n: int)
    requires n > 0
    ensures Times(total / n as real, n) == total
  {}

  /** In the base currency: times the factor of the currency, one where that is unknown; zero without a price. */
  ghost predicate Converts(s: Stock, factors: map<string, real>, base: real) {
    if s.price.None? then base == 0.0
    else if s.currency.Some? && s.currency.value in factors then base == s.price.value * factors[s.currency.value]
    else base == s.price.value
  }

  lemma {:induction false} ConvertingKeepsWorth(s: Stock, factors: map<string, real>, base: real)
    requires s.normalized.None? && Converts(s, factors, base)
    ensures Worth(s.(normalized := Some(base)), factors) == Worth(s, factors)
  {}

  /** The base price that may be stored with a purchase is a short cut: storing it changes no unit price. */
  lemma {:induction false} ConvertingKeepsPrices(stocks: Table<Stock>, factors: map<string, real>, id: nat, base: real,
                                                 p: nat)
    requires id in stocks && stocks[id].cols.normalized.None? && Converts(stocks[id].cols, factors, base)
    ensures var r := stocks[id];
            UnitPrice(stocks[id := r.(cols := r.cols.(normalized := Some(base)))], factors, p)
              == UnitPrice(stocks, factors, p)
  {
    var r := stocks[id];
    var after := stocks[id := r.(cols := r.cols.(normalized := Some(base)))];
    ConvertingKeepsWorth(r.cols, factors, base);
    assert StockEntries(after) == StockEntries(stocks);
    assert WorthOf(after, factors, p) == WorthOf(stocks, factors, p);
  }

  /** Every purchase of the part came at this price apiece, in the base currency. */
  ghost predicate AllBoughtAt(stocks: Table<Stock>, p: nat, unit: real) {
    forall s :: s in stocks && stocks[s].Live() && stocks[s].cols.part == p ==>
      stocks[s].cols.normalized == Some(Times(unit, stocks[s].cols.quantity))
  }

  lemma {:induction false} ProportionalSums(worth: map<nat, real>, quantities: map<nat, int>, unit: real)
    requires worth.Keys == quantities.Keys && forall k :: k in worth ==> worth[k] == Times(unit, quantities[k])
    ensures RealSums.Sum(worth) == Times(unit, MapSum(quantities))
    decreases |worth|
  {
    if worth == map[] {
      assert quantities == map[];
    } else {
      var k: nat :| k in worth;
      var fewer: map<nat, real>, less: map<nat, int> := worth - {k}, quantities - {k};
      SumWithout(quantities, k);
      RealSums.SumWithout(worth, k);
      ProportionalSums(fewer, less, unit);
      TimesAdds(unit, quantities[k], MapSum(less));
    }
  }

  /** Then that is its unit price. */
  lemma {:induction false} BoughtAtIsUnitPrice(stocks: Table<Stock>, factors: map<string, real>, p: nat, unit: real)
    requires AllBoughtAt(stocks, p, unit) && Quantity(StockEntries(stocks), p) > 0
    ensures UnitPrice(stocks, factors, p) == Some(unit)
  {
    BoughtAtWorth(stocks, factors, p, unit);
    Quotient(unit, Quantity(StockEntries(stocks), p));
  }

  lemma {:induction false} BoughtAtWorth(stocks: Table<Stock>, factors: map<string, real>, p: nat, unit: real)
    requires AllBoughtAt(stocks, p, unit)
    ensures RealSums.Sum(WorthOf(stocks, factors, p)) == Times(unit, Quantity(StockEntries(stocks), p))
  {
    ProportionalSums(WorthOf(stocks, factors, p), QuantitiesOf(StockEntries(stocks), p), unit);
  }

  lemma {:induction false} Quotient(unit: real, n: int)
    requires n > 0
    ensures Times(unit, n) / n as real == unit
  {}

  /** One use of a part costs its unit price times the quantity. */
  lemma {:induction false} OneUseCosts(stocks: Table<Stock>, factors: map<string, real>, used: map<nat, Entry>, e: nat,
                                       unit: real)
    requires used.Keys == {e} && UnitPrice(stocks, factors, used[e].part) == Some(unit)
    ensures CostOf(stocks, factors, used) == Some(Times(unit, used[e].quantity))
  {
    OnlyOnePart(used, e);
    OnePriced(Prices(stocks, factors, PartsIn(used)), used, e);
  }

  lemma {:induction false} OnlyOnePart(used: map<nat, Entry>, e: nat)
    requires used.Keys == {e}
    ensures PartsIn(used) == {used[e].part}
  {
    assert e in used && forall k :: k in used ==> k == e;
  }

  lemma {:induction false} OnePriced(prices: map<nat, real>, used: map<nat, Entry>, e: nat)
    requires used.Keys == {e} && used[e].part in prices
    ensures RealSums.Sum(Priced(prices, used)) == Times(prices[used[e].part], used[e].quantity)
  {
    SumOfOne(Priced(prices, used), e);
  }

  // ------------------------------------------------------------------ the smallest case

  /** One piece of one part, bought at a price and used on a record. */
  ghost function Workshop(price: real, stored: real, stamp: nat): Db {
    var parts: Table<Part> := map[1 := Inserted(Part(1, "11 42", "Filter", None), 0)];
    var stocks: Table<Stock> := map[1 := Inserted(Stock(1, 1, Some(price), None, None, None, None), stamp)];
    var consumptions: Table<Consumption> := map[1 := Inserted(Consumption(1, Some(1), 1, None), 0)];
    var records: Table<Record> := map[1 := Inserted(Record(1, Some(stored)), 0)];
    Db(parts, stocks, consumptions, map[], records, map[], map[])
  }

  ghost function Reprice(price: real, now: nat): Action {
    Action(1, now, UpdateStock(1, None, Some(price), None, None, None))
  }

  lemma {:induction false} SumOfOne(m: map<nat, real>, k: nat)
    requires m.Keys == {k}
    ensures RealSums.Sum(m) == m[k]
  {
    RealSums.SumWithout(m, k);
    assert m - {k} == map[];
  }

  lemma {:induction false} PieceCostsItsPrice(price: real, stored: real, stamp: nat)
    ensures UnitPrice(Workshop(price, stored, stamp).stocks, map[], 1) == Some(price)
  {
    var stocks := Workshop(price, stored, stamp).stocks;
    var q := QuantitiesOf(StockEntries(stocks), 1);
    SumWithout(q, 1);
    assert q - {1} == map[];
    SumOfOne(WorthOf(stocks, map[], 1), 1);
  }

  lemma {:induction false} WorkshopUse(price: real, stored: real, stamp: nat)
    ensures UsedEntries(Workshop(price, stored, stamp).consumptions, 1) == map[1 := Entry(1, 1)]
  {}

  lemma {:induction false} WorkshopCost(price: real, stored: real, stamp: nat)
    ensures Cost(Workshop(price, stored, stamp), 1) == Some(price)
  {
    var stocks, used: map<nat, Entry> := Workshop(price, stored, stamp).stocks, map[1 := Entry(1, 1)];
    WorkshopUse(price, stored, stamp);
    PieceCostsItsPrice(price, stored, stamp);
    OneUseCosts(stocks, map[], used, 1, price);
  }

  lemma {:induction false} Repriced(was: real, price: real, now: nat)
    ensures UpdateStockIn(Workshop(was, was, 0), 1, now, Reprice(price, now).request) == Workshop(price, was, now)
  {}

  lemma {:induction false} WorkshopLinked(price: real, stored: real, stamp: nat)
    ensures Linked(Workshop(price, stored, stamp)) && IsLive(Workshop(price, stored, stamp), 1)
  {}

  /** A new price on the purchase does not reach the record the piece was used on. */
  lemma {:induction false} RepricingIsNotCosted(was: real, price: real, now: nat)
    requires was != price
    ensures Linked(Workshop(was, was, 0)) && Legal(Workshop(was, was, 0), [Reprice(price, now)])
    ensures PricedBy(Workshop(was, was, 0), Workshop(was, was, 0).stocks, 1)
    ensures var after := Exec(Workshop(was, was, 0), [Reprice(price, now)]);
            IsLive(after, 1) && after.records[1].cols.partsCost == Some(was) && Cost(after, 1) == Some(price)
  {
    WorkshopLinked(was, was, 0);
    WorkshopCost(was, was, 0);
    WorkshopCost(price, was, now);
    OneRepricing(was, price, now);
  }

  lemma {:induction false} OneRepricing(was: real, price: real, now: nat)
    ensures Legal(Workshop(was, was, 0), [Reprice(price, now)])
    ensures Exec(Workshop(was, was, 0), [Reprice(price, now)]) == Workshop(price, was, now)
  {
    Repriced(was, price, now);
    assert [Reprice(price, now)][1..] == [];
  }
}
