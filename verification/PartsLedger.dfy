/** The parts ledger over runs: on-hand stock, its batched form, and the cached cost of a record. */
module PartsLedger {
  import opened Options
  import opened Sums
  import opened SyncTables
  import opened Inventory
  import opened InventorySync

  // -------------------------------------------------------------- the batched totals

  ghost predicate HasEntry(entries: map<nat, Entry>, p: nat) { exists e :: e in entries && entries[e].part == p }

  lemma {:induction false} HasOneMore(seen: map<nat, Entry>, id: nat, e: Entry)
    requires id !in seen
    ensures forall p :: HasEntry(seen[id := e], p) <==> HasEntry(seen, p) || p == e.part
  {
    forall p ensures HasEntry(seen[id := e], p) <==> HasEntry(seen, p) || p == e.part {
      if HasEntry(seen, p) {
        var k :| k in seen && seen[k].part == p;
        assert seen[id := e][k].part == p;
      }
      if p == e.part { assert seen[id := e][id].part == p; }
    }
  }

  ghost predicate GroupedBy(totals: map<nat, int>, entries: map<nat, Entry>, keep: set<nat>) {
    && (forall p :: p in totals <==> p in keep && HasEntry(entries, p))
    && (forall p :: p in keep ==> At(totals, p) == Quantity(entries, p))
  }

  function Tallied(totals: map<nat, int>, keep: set<nat>, e: Entry): map<nat, int> {
    if e.part in keep then totals[e.part := At(totals, e.part) + e.quantity] else totals
  }

  lemma {:induction false} GroupOneMore(totals: map<nat, int>, seen: map<nat, Entry>, keep: set<nat>, id: nat, e: Entry)
    requires GroupedBy(totals, seen, keep) && id !in seen
    ensures GroupedBy(Tallied(totals, keep, e), seen[id := e], keep)
  {
    forall p { QuantityOfUpdate(seen, id, e, p); }
    HasOneMore(seen, id, e);
  }

  lemma {:induction false} GroupNext(totals: map<nat, int>, entries: map<nat, Entry>, todo: set<nat>, keep: set<nat>,
                                     e: nat)
    requires GroupedBy(totals, entries - todo, keep) && e in todo && e in entries
    ensures GroupedBy(Tallied(totals, keep, entries[e]), entries - (todo - {e}), keep)
  {
    GroupOneMore(totals, entries - todo, keep, e, entries[e]);
    TakeBack(entries, todo, e);
  }

  /** `GROUP BY partId` over the rows of the kept parts, in whatever order the rows come. */
  method GroupByPart(entries: map<nat, Entry>, keep: set<nat>) returns (totals: map<nat, int>)
    ensures GroupedBy(totals, entries, keep)
  {
    totals := map[];
    var todo := entries.Keys;
    NothingGrouped(entries - todo, keep);
    while todo != {}
      invariant todo <= entries.Keys && GroupedBy(totals, entries - todo, keep)
    {
      var e: nat :| e in todo;
      GroupNext(totals, entries, todo, keep, e);
      totals := Tallied(totals, keep, entries[e]);
      todo := todo - {e};
    }
    assert entries - todo == entries;
  }

  lemma {:induction false} TakeBack(entries: map<nat, Entry>, todo: set<nat>, e: nat)
    requires e in todo && e in entries
    ensures entries - (todo - {e}) == (entries - todo)[e := entries[e]]
  {}

  lemma {:induction false} NothingGrouped(none: map<nat, Entry>, keep: set<nat>)
    requires none == map[]
    ensures GroupedBy(map[], none, keep)
  {
    forall p ensures QuantitiesOf(none, p) == map[] {}
  }

  /** The listing's on-hand figures, from two grouped queries. */
  method BatchedOnHand(db: Db, user: nat) returns (onHand: map<nat, int>)
    ensures onHand.Keys == PartsOf(db, user).Keys
    ensures forall p :: p in onHand ==> onHand[p] == OnHand(db, p)
  {
    var parts := PartsOf(db, user).Keys;
    var stocked := GroupByPart(StockEntries(db.stocks), parts);
    var consumed := GroupByPart(ConsumptionEntries(db.consumptions), parts);
    onHand := map p | p in parts :: At(stocked, p) - At(consumed, p);
  }

  // ------------------------------------------------------------------ on-hand over runs

  ghost predicate NonNegative(db: Db) { forall p :: OnHand(db, p) >= 0 }

  /** Every counted quantity is at least one. */
  ghost predicate Positive(db: Db) {
    && (forall s :: s in db.stocks && db.stocks[s].Live() ==> db.stocks[s].cols.quantity >= 1)
    && (forall c :: c in db.consumptions && db.consumptions[c].Live() ==> db.consumptions[c].cols.quantity >= 1)
  }

  lemma {:induction false} StockWriteMovesOnHand(db: Db, id: nat, r: Row<Stock>, p: nat)
    ensures OnHand(db.(stocks := db.stocks[id := r]), p)
         == OnHand(db, p) - Counted(StockEntries(db.stocks), id, p)
            + if r.Live() && r.cols.part == p then r.cols.quantity else 0
  {
    StockEntriesOfWrite(db.stocks, id, r);
    QuantityOfUpdate(StockEntries(db.stocks), id, Entry(r.cols.part, r.cols.quantity), p);
    QuantityWithout(StockEntries(db.stocks), id, p);
  }

  lemma {:induction false} ConsumptionWriteMovesOnHand(db: Db, id: nat, r: Row<Consumption>, p: nat)
    ensures OnHand(db.(consumptions := db.consumptions[id := r]), p)
         == OnHand(db, p) + Counted(ConsumptionEntries(db.consumptions), id, p)
            - if r.Live() && r.cols.part == p then r.cols.quantity else 0
  {
    ConsumptionEntriesOfWrite(db.consumptions, id, r);
    QuantityOfUpdate(ConsumptionEntries(db.consumptions), id, Entry(r.cols.part, r.cols.quantity), p);
    QuantityWithout(ConsumptionEntries(db.consumptions), id, p);
  }

  /** A record a handler recosted has its row-by-row cost, and some, as long as something live is booked on it. */
  ghost predicate Costed(db: Db, record: Option<nat>) {
    record.Some? && record.value in db.records ==>
      && db.records[record.value].cols.partsCost == Cost(db, record.value)
      && (Unused(db.consumptions, record.value) <==> db.records[record.value].cols.partsCost.None?)
  }

  lemma {:induction false} RecostedIsCosted(db: Db, record: Option<nat>, now: nat)
    ensures Costed(Recosted(db, RecordIds(record), now), record)
  {
    if record.Some? { UnusedIsEmpty(db.consumptions, record.value); }
  }

  /**
    A consumption, booked on a record or not, is accepted exactly when the stock covers it;
    then it takes what it says from its part and nothing from any other, and its record is
    recosted.
  */
  lemma {:induction false} ConsumptionTakesWhatIsThere(db: Db, user: nat, now: nat, id: nat, c: Consumption)
    requires id !in db.consumptions && LivePart(db, user, c.part) && c.quantity >= 1 && !TakenConsumption(db, c.client)
    requires c.record.Some? ==> LiveRecord(db, user, c.record.value)
    ensures id in CreateConsumptionIn(db, user, now, id, c).consumptions <==> c.quantity <= OnHand(db, c.part)
    ensures var after := CreateConsumptionIn(db, user, now, id, c);
            id in after.consumptions ==>
              && OnHand(after, c.part) == OnHand(db, c.part) - c.quantity >= 0
              && (forall p :: p != c.part ==> OnHand(after, p) == OnHand(db, p))
              && Costed(after, c.record) && (c.record.Some? ==> !Unused(after.consumptions, c.record.value))
  {
    forall p { ConsumptionWriteMovesOnHand(db, id, Inserted(c, now), p); }
    var changed := db.(consumptions := db.consumptions[id := Inserted(c, now)]);
    RecostedIsCosted(changed, c.record, now);
    if c.record.Some? { assert Uses(changed.consumptions, c.record.value, id); }
  }

  /** A change of quantity is accepted exactly when it leaves on-hand no lower than zero, or lowers the quantity. */
  lemma {:induction false} UpdateTakesWhatIsThere(db: Db, user: nat, now: nat, id: nat, quantity: int)
    requires LiveConsumption(db, user, id) && quantity >= 1
    ensures var row, after := db.consumptions[id].cols, UpdateConsumptionIn(db, user, now, id, Some(quantity));
            && id in after.consumptions
            && (after.consumptions[id].cols.quantity == quantity
                <==> quantity <= row.quantity || OnHand(db, row.part) + row.quantity - quantity >= 0)
            && OnHand(after, row.part) == OnHand(db, row.part) + row.quantity - after.consumptions[id].cols.quantity
            && (forall p :: p != row.part ==> OnHand(after, p) == OnHand(db, p))
            && (after.consumptions[id].cols.quantity != row.quantity ==> Costed(after, row.record))
  {
    var r := db.consumptions[id];
    var written := Written(r, r.cols.(quantity := quantity), now);
    forall p { ConsumptionWriteMovesOnHand(db, id, written, p); }
    RecostedIsCosted(db.(consumptions := db.consumptions[id := written]), r.cols.record, now);
  }

  /** Dropping entries of non-negative quantity does not raise a total. */
  lemma {:induction false} FewerIsLess(a: map<nat, int>, b: map<nat, int>)
    requires a.Keys <= b.Keys && (forall k :: k in a ==> a[k] == b[k]) && forall k :: k in b ==> b[k] >= 0
    ensures MapSum(a) <= MapSum(b)
    decreases |b|
  {
    if k :| k in b && k !in a {
      SumWithout(b, k);
      FewerIsLess(a, b - {k});
    } else {
      assert a == b;
    }
  }

  /** The requests that may take stock away: deleting it, or lowering its quantity. */
  ghost predicate LowersStock(db: Db, q: Request) {
    || q.DeleteStock?
    || (q.UpdateStock? && q.id in db.stocks
        && q.newQuantity.GetOr(db.stocks[q.id].cols.quantity) < db.stocks[q.id].cols.quantity)
  }

  ghost predicate LedgerOk(db: Db) { NonNegative(db) && Positive(db) }

  /** The ledger looks at the counted rows alone. */
  lemma {:induction false} SameEntriesSameLedger(a: Db, b: Db)
    requires StockEntries(a.stocks) == StockEntries(b.stocks)
    requires ConsumptionEntries(a.consumptions) == ConsumptionEntries(b.consumptions)
    ensures LedgerOk(a) ==> LedgerOk(b)
  {
    if LedgerOk(a) {
      forall p ensures OnHand(b, p) >= 0 { assert OnHand(a, p) >= 0; }
      SameEntriesPositive(a, b);
    }
  }

  lemma {:induction false} SameEntriesPositive(a: Db, b: Db)
    requires StockEntries(a.stocks) == StockEntries(b.stocks)
    requires ConsumptionEntries(a.consumptions) == ConsumptionEntries(b.consumptions)
    ensures Positive(a) ==> Positive(b)
  {
    if Positive(a) {
      forall s | s in b.stocks && b.stocks[s].Live() ensures b.stocks[s].cols.quantity >= 1 {
        assert s in StockEntries(b.stocks) && StockEntries(a.stocks)[s] == StockEntries(b.stocks)[s];
      }
      forall c | c in b.consumptions && b.consumptions[c].Live() ensures b.consumptions[c].cols.quantity >= 1 {
        assert c in ConsumptionEntries(b.consumptions);
        assert ConsumptionEntries(a.consumptions)[c] == ConsumptionEntries(b.consumptions)[c];
      }
    }
  }

  lemma {:induction false} DetachKeepsEntries(stocks: Table<Stock>, id: nat, now: nat)
    ensures var (there, detach) := ((s: Stock) => s.storage == Some(id), (s: Stock) => s.(storage := None));
            StockEntries(UpdateWhere(stocks, there, detach, now)) == StockEntries(stocks)
  {}

  lemma {:induction false} StockWriteKeepsLedger(db: Db, id: nat, r: Row<Stock>)
    requires LedgerOk(db) && r.Live() && r.cols.quantity >= 1
    requires id in StockEntries(db.stocks) ==>
      r.cols.part == db.stocks[id].cols.part && r.cols.quantity >= db.stocks[id].cols.quantity
    ensures LedgerOk(db.(stocks := db.stocks[id := r]))
  {
    var after := db.(stocks := db.stocks[id := r]);
    StockEntriesOfWrite(db.stocks, id, r);
    forall p ensures OnHand(after, p) >= 0 {
      StockWriteMovesOnHand(db, id, r, p);
      assert OnHand(db, p) >= 0;
    }
  }

  lemma {:induction false} ConsumptionWriteKeepsLedger(db: Db, id: nat, r: Row<Consumption>)
    requires LedgerOk(db) && (r.Live() ==> r.cols.quantity >= 1)
    requires id in ConsumptionEntries(db.consumptions) ==> r.cols.part == db.consumptions[id].cols.part
    requires r.Live() ==>
      r.cols.quantity - Counted(ConsumptionEntries(db.consumptions), id, r.cols.part) <= OnHand(db, r.cols.part)
    ensures LedgerOk(db.(consumptions := db.consumptions[id := r]))
  {
    var after := db.(consumptions := db.consumptions[id := r]);
    ConsumptionEntriesOfWrite(db.consumptions, id, r);
    forall p ensures OnHand(after, p) >= 0 {
      ConsumptionWriteMovesOnHand(db, id, r, p);
      assert OnHand(db, p) >= 0;
    }
  }

  lemma {:induction false} ConsumptionHandlersKeepLedger(db: Db, user: nat, now: nat, q: Request)
    requires LedgerOk(db) && (q.CreateConsumption? || q.UpdateConsumption? || q.DeleteConsumption?) && NewId(db, q)
    ensures LedgerOk(Apply(db, user, now, q))
  {
    var after := Apply(db, user, now, q);
    if after.consumptions != db.consumptions {
      var r := after.consumptions[q.id];
      assert after.consumptions == db.consumptions[q.id := r];
      ConsumptionWriteKeepsLedger(db, q.id, r);
      SameEntriesSameLedger(db.(consumptions := db.consumptions[q.id := r]), after);
    } else {
      SameEntriesSameLedger(db, after);
    }
  }

  lemma {:induction false} StockHandlersKeepLedger(db: Db, user: nat, now: nat, q: Request)
    requires LedgerOk(db) && (q.CreateStock? || q.UpdateStock?) && NewId(db, q) && !LowersStock(db, q)
    ensures LedgerOk(Apply(db, user, now, q))
  {
    var after := Apply(db, user, now, q);
    if after != db {
      var r := after.stocks[q.id];
      assert after == db.(stocks := db.stocks[q.id := r]);
      StockWriteKeepsLedger(db, q.id, r);
    }
  }

  lemma {:induction false} PartGoneEntries(db: Db, id: nat, now: nat, p: nat)
    requires id in db.parts
    ensures QuantitiesOf(StockEntries(WithoutPart(db, id, now).stocks), p)
         == if p == id then map[] else QuantitiesOf(StockEntries(db.stocks), p)
    ensures QuantitiesOf(ConsumptionEntries(WithoutPart(db, id, now).consumptions), p)
         == if p == id then map[] else QuantitiesOf(ConsumptionEntries(db.consumptions), p)
  {}

  lemma {:induction false} PartGonePositive(db: Db, id: nat, now: nat)
    requires id in db.parts && Positive(db)
    ensures Positive(WithoutPart(db, id, now))
  {}

  lemma {:induction false} DeletePartKeepsLedger(db: Db, user: nat, now: nat, id: nat)
    requires LedgerOk(db)
    ensures LedgerOk(DeletePartIn(db, user, now, id))
  {
    if LivePart(db, user, id) {
      var after := WithoutPart(db, id, now);
      PartGonePositive(db, id, now);
      forall p ensures OnHand(after, p) >= 0 {
        PartGoneEntries(db, id, now, p);
        assert OnHand(db, p) >= 0;
      }
      SameEntriesSameLedger(after, DeletePartIn(db, user, now, id));
    }
  }

  lemma {:induction false} RecordGoneEntries(consumptions: Table<Consumption>, id: nat, now: nat)
    ensures var gone := TombstoneWhere(consumptions, (c: Consumption) => c.record == Some(id), now);
            var after := ConsumptionEntries(gone);
            && after.Keys <= ConsumptionEntries(consumptions).Keys
            && forall c :: c in after ==> after[c] == ConsumptionEntries(consumptions)[c]
  {}

  lemma {:induction false} FewerEntries(a: map<nat, Entry>, b: map<nat, Entry>, p: nat)
    requires a.Keys <= b.Keys && (forall e :: e in a ==> a[e] == b[e]) && forall e :: e in b ==> b[e].quantity >= 1
    ensures Quantity(a, p) <= Quantity(b, p)
  {
    FewerIsLess(QuantitiesOf(a, p), QuantitiesOf(b, p));
  }

  lemma {:induction false} DeleteRecordKeepsLedger(db: Db, user: nat, now: nat, id: nat)
    requires LedgerOk(db)
    ensures LedgerOk(DeleteRecordIn(db, user, now, id))
  {
    if LiveRecord(db, user, id) {
      var after := WithoutRecord(db, id, now);
      RecordGoneEntries(db.consumptions, id, now);
      forall p ensures OnHand(after, p) >= 0 {
        FewerEntries(ConsumptionEntries(after.consumptions), ConsumptionEntries(db.consumptions), p);
        assert OnHand(db, p) >= 0;
      }
    }
  }

  lemma {:induction false} UnboundKeepsEntries(consumptions: Table<Consumption>, gone: set<nat>)
    ensures ConsumptionEntries(Unbound(consumptions, gone)) == ConsumptionEntries(consumptions)
  {}

  /** The requests that touch no counted row. */
  predicate MovesNothing(q: Request) {
    || q.CreateNode? || q.UpdateNode? || q.DeleteNode? || q.CreatePart? || q.UpdatePart?
    || q.CreateRecord? || q.EraseRecords? || q.CreatePlace? || q.DeletePlace? || q.MergePlaces?
  }

  lemma {:induction false} RestKeepsEntries(db: Db, user: nat, now: nat, q: Request)
    requires MovesNothing(q)
    ensures StockEntries(Apply(db, user, now, q).stocks) == StockEntries(db.stocks)
    ensures ConsumptionEntries(Apply(db, user, now, q).consumptions) == ConsumptionEntries(db.consumptions)
  {
    if q.DeleteNode? {
      DetachKeepsEntries(db.stocks, q.id, now);
    } else if q.EraseRecords? {
      UnboundKeepsEntries(db.consumptions, q.gone);
    } else {
      RestKeepsRows(db, user, now, q);
    }
  }

  lemma {:induction false} RestKeepsRows(db: Db, user: nat, now: nat, q: Request)
    requires MovesNothing(q) && !q.DeleteNode? && !q.EraseRecords?
    ensures Apply(db, user, now, q).stocks == db.stocks && Apply(db, user, now, q).consumptions == db.consumptions
  {}

  lemma {:induction false} RequestsKeepLedger(db: Db, user: nat, now: nat, q: Request)
    requires LedgerOk(db) && NewId(db, q) && !LowersStock(db, q)
    ensures LedgerOk(Apply(db, user, now, q))
  {
    match q
    case DeletePart(id) => DeletePartKeepsLedger(db, user, now, id);
    case DeleteRecord(id) => DeleteRecordKeepsLedger(db, user, now, id);
    case CreateStock(_, _) => StockHandlersKeepLedger(db, user, now, q);
    case UpdateStock(_, _, _, _, _, _) => StockHandlersKeepLedger(db, user, now, q);
    case CreateConsumption(_, _) => ConsumptionHandlersKeepLedger(db, user, now, q);
    case UpdateConsumption(_, _) => ConsumptionHandlersKeepLedger(db, user, now, q);
    case DeleteConsumption(_) => ConsumptionHandlersKeepLedger(db, user, now, q);
    case _ =>
      RestKeepsEntries(db, user, now, q);
      SameEntriesSameLedger(db, Apply(db, user, now, q));
  }

  ghost predicate NeverLowersStock(db: Db, actions: seq<Action>)
    decreases |actions|
  {
    actions != [] ==>
      !LowersStock(db, actions[0].request)
      && NeverLowersStock(Apply(db, actions[0].user, actions[0].now, actions[0].request), actions[1..])
  }

  /** On-hand stays non-negative in every run that never deletes stock or lowers a quantity. */
  lemma {:induction false} RunsKeepLedger(db: Db, actions: seq<Action>)
    requires LedgerOk(db) && Legal(db, actions) && NeverLowersStock(db, actions)
    ensures LedgerOk(Exec(db, actions))
    decreases |actions|
  {
    if actions != [] {
      var a := actions[0];
      RequestsKeepLedger(db, a.user, a.now, a.request);
      RunsKeepLedger(Apply(db, a.user, a.now, a.request), actions[1..]);
    }
  }

  /** Deleting stock, which the source allows on purpose, keeps on-hand non-negative exactly when it was not needed. */
  lemma {:induction false} DeletingStockMayOverdraw(db: Db, user: nat, now: nat, id: nat)
    requires LedgerOk(db) && LiveStock(db, user, id)
    ensures LedgerOk(DeleteStockIn(db, user, now, id))
       <==> db.stocks[id].cols.quantity <= OnHand(db, db.stocks[id].cols.part)
  {
    var r := Tombstone(db.stocks[id], now);
    var after := db.(stocks := db.stocks[id := r]);
    StockEntriesOfWrite(db.stocks, id, r);
    StockWriteMovesOnHand(db, id, r, db.stocks[id].cols.part);
    forall p ensures OnHand(after, p) >= 0 || p == db.stocks[id].cols.part {
      StockWriteMovesOnHand(db, id, r, p);
      assert OnHand(db, p) >= 0;
    }
  }
}
