/**
  How on-hand moves: by exactly what the accepted writes of stock and consumption say.  From
  that, which of the figures a syncing client holds stay right.
*/
module OnHandMoves {
  import opened Options
  import opened SyncTables
  import opened Inventory
  import opened InventorySync
  import opened PartsLedger

  function If(part: nat, p: nat, quantity: int): int { if part == p then quantity else 0 }

  /** What an accepted request puts on a part's on-hand; everything else puts nothing. */
  ghost function Moved(db: Db, user: nat, q: Request, p: nat): int {
    match q
    case CreateStock(_, s) => if MayStock(db, user, s) then If(s.part, p, s.quantity) else 0
    case UpdateStock(id, newQuantity, _, _, _, _) =>
      if MayRestock(db, user, q)
      then If(db.stocks[id].cols.part, p, newQuantity.GetOr(db.stocks[id].cols.quantity) - db.stocks[id].cols.quantity)
      else 0
    case DeleteStock(id) =>
      if LiveStock(db, user, id) then If(db.stocks[id].cols.part, p, -db.stocks[id].cols.quantity) else 0
    case CreateConsumption(_, c) => if MayConsume(db, user, c) then If(c.part, p, -c.quantity) else 0
    case UpdateConsumption(id, newQuantity) =>
      if MayReconsume(db, user, id, newQuantity)
      then If(db.consumptions[id].cols.part, p,
              db.consumptions[id].cols.quantity - newQuantity.GetOr(db.consumptions[id].cols.quantity)) else 0
    case DeleteConsumption(id) =>
      if LiveConsumption(db, user, id) then If(db.consumptions[id].cols.part, p, db.consumptions[id].cols.quantity)
      else 0
    case DeletePart(id) => if LivePart(db, user, id) then If(id, p, -OnHand(db, p)) else 0
    case DeleteRecord(id) => if LiveRecord(db, user, id) then Quantity(UsedEntries(db.consumptions, id), p) else 0
    case _ => 0
  }

  lemma {:induction false} SameEntriesOnHand(a: Db, b: Db, p: nat)
    requires StockEntries(a.stocks) == StockEntries(b.stocks)
    requires ConsumptionEntries(a.consumptions) == ConsumptionEntries(b.consumptions)
    ensures OnHand(a, p) == OnHand(b, p)
  {}

  lemma {:induction false} StockMoves(db: Db, user: nat, now: nat, q: Request, p: nat)
    requires NewId(db, q) && (q.CreateStock? || q.UpdateStock? || q.DeleteStock?)
    ensures OnHand(Apply(db, user, now, q), p) == OnHand(db, p) + Moved(db, user, q, p)
  {
    var after := Apply(db, user, now, q);
    if after.stocks != db.stocks {
      var r := after.stocks[q.id];
      assert after == db.(stocks := db.stocks[q.id := r]);
      StockWriteMovesOnHand(db, q.id, r, p);
      assert r.Live() <==> !q.DeleteStock?;
    } else {
      SameEntriesOnHand(db, after, p);
      UnmovedStock(db, user, now, q, p);
    }
  }

  lemma {:induction false} UnmovedStock(db: Db, user: nat, now: nat, q: Request, p: nat)
    requires NewId(db, q) && (q.CreateStock? || q.UpdateStock? || q.DeleteStock?)
    requires Apply(db, user, now, q).stocks == db.stocks
    ensures Moved(db, user, q, p) == 0
  {
    var after := Apply(db, user, now, q).stocks;
    if q.CreateStock? { assert q.id !in after; }
    if q.UpdateStock? && MayRestock(db, user, q) {
      assert after[q.id].cols.quantity == q.newQuantity.GetOr(db.stocks[q.id].cols.quantity);
    }
  }

  lemma {:induction false} RecostKeepsOnHand(db: Db, ids: set<nat>, now: nat, p: nat)
    ensures OnHand(Recosted(db, ids, now), p) == OnHand(db, p)
  {
    SameEntriesOnHand(Recosted(db, ids, now), db, p);
  }

  lemma {:induction false} ConsumptionWritten(db: Db, id: nat, r: Row<Consumption>, ids: set<nat>, now: nat, p: nat)
    ensures OnHand(Recosted(db.(consumptions := db.consumptions[id := r]), ids, now), p)
         == OnHand(db, p) + Counted(ConsumptionEntries(db.consumptions), id, p)
            - if r.Live() && r.cols.part == p then r.cols.quantity else 0
  {
    ConsumptionWriteMovesOnHand(db, id, r, p);
    RecostKeepsOnHand(db.(consumptions := db.consumptions[id := r]), ids, now, p);
  }

  lemma {:induction false} ConsumptionMoves(db: Db, user: nat, now: nat, q: Request, p: nat)
    requires NewId(db, q) && (q.CreateConsumption? || q.UpdateConsumption? || q.DeleteConsumption?)
    ensures OnHand(Apply(db, user, now, q), p) == OnHand(db, p) + Moved(db, user, q, p)
  {
    match q
    case CreateConsumption(id, c) =>
      if MayConsume(db, user, c) { ConsumptionWritten(db, id, Inserted(c, now), RecordIds(c.record), now, p); }
    case UpdateConsumption(id, n) =>
      if MayReconsume(db, user, id, n) {
        var r := db.consumptions[id];
        ConsumptionWritten(db, id, Written(r, r.cols.(quantity := n.GetOr(r.cols.quantity)), now),
                           RecordIds(r.cols.record), now, p);
      }
    case DeleteConsumption(id) =>
      if LiveConsumption(db, user, id) {
        var r := db.consumptions[id];
        ConsumptionWritten(db, id, Tombstone(r, now), RecordIds(r.cols.record), now, p);
      }
  }

  lemma {:induction false} PartMoves(db: Db, user: nat, now: nat, id: nat, p: nat)
    ensures OnHand(DeletePartIn(db, user, now, id), p) == OnHand(db, p) + Moved(db, user, DeletePart(id), p)
  {
    if LivePart(db, user, id) {
      PartGoneEntries(db, id, now, p);
      RecostKeepsOnHand(WithoutPart(db, id, now), RecordsUsing(db.consumptions, id), now, p);
    }
  }

  /** Some entries taken out take their quantity along. */
  lemma {:induction false} QuantityApart(entries: map<nat, Entry>, some: map<nat, Entry>, p: nat)
    requires some.Keys <= entries.Keys && forall e :: e in some ==> some[e] == entries[e]
    ensures Quantity(entries, p) == Quantity(entries - some.Keys, p) + Quantity(some, p)
    decreases |some|
  {
    if some == map[] {
      assert entries - some.Keys == entries && QuantitiesOf(some, p) == map[];
    } else {
      var e: nat :| e in some;
      var rest: map<nat, Entry> := entries - (some - {e}).Keys;
      QuantityApart(entries, some - {e}, p);
      assert rest - {e} == entries - some.Keys && rest[e] == some[e];
      QuantityWithout(rest, e, p);
      QuantityWithout(some, e, p);
    }
  }

  lemma {:induction false} RecordGoneLeaves(consumptions: Table<Consumption>, id: nat, now: nat)
    ensures ConsumptionEntries(TombstoneWhere(consumptions, (c: Consumption) => c.record == Some(id), now))
         == ConsumptionEntries(consumptions) - UsedEntries(consumptions, id).Keys
  {}

  lemma {:induction false} RecordGives(db: Db, user: nat, now: nat, id: nat, p: nat)
    requires LiveRecord(db, user, id)
    ensures OnHand(DeleteRecordIn(db, user, now, id), p)
         == OnHand(db, p) + Quantity(UsedEntries(db.consumptions, id), p)
  {
    var entries, used := ConsumptionEntries(db.consumptions), UsedEntries(db.consumptions, id);
    RecordGoneLeaves(db.consumptions, id, now);
    QuantityApart(entries, used, p);
  }

  lemma {:induction false} RecordMoves(db: Db, user: nat, now: nat, id: nat, p: nat)
    ensures OnHand(DeleteRecordIn(db, user, now, id), p) == OnHand(db, p) + Moved(db, user, DeleteRecord(id), p)
  {
    if LiveRecord(db, user, id) { RecordGives(db, user, now, id, p); }
  }

  /** Every request moves the on-hand of every part by what it puts there, and nothing else does. */
  lemma {:induction false} RequestsMoveOnHand(db: Db, user: nat, now: nat, q: Request, p: nat)
    requires NewId(db, q)
    ensures OnHand(Apply(db, user, now, q), p) == OnHand(db, p) + Moved(db, user, q, p)
  {
    match q
    case DeletePart(id) => PartMoves(db, user, now, id, p);
    case DeleteRecord(id) => RecordMoves(db, user, now, id, p);
    case CreateStock(_, _) => StockMoves(db, user, now, q, p);
    case UpdateStock(_, _, _, _, _, _) => StockMoves(db, user, now, q, p);
    case DeleteStock(_) => StockMoves(db, user, now, q, p);
    case CreateConsumption(_, _) => ConsumptionMoves(db, user, now, q, p);
    case UpdateConsumption(_, _) => ConsumptionMoves(db, user, now, q, p);
    case DeleteConsumption(_) => ConsumptionMoves(db, user, now, q, p);
    case _ =>
      RestKeepsEntries(db, user, now, q);
      SameEntriesOnHand(db, Apply(db, user, now, q), p);
  }

  // ------------------------------------------------------------ the same, request by request

  lemma {:induction false} StockCreated(db: Db, user: nat, now: nat, id: nat, s: Stock)
    requires id !in db.stocks && MayStock(db, user, s)
    ensures forall p :: OnHand(CreateStockIn(db, user, now, id, s), p) == OnHand(db, p) + If(s.part, p, s.quantity)
  {
    forall p { StockMoves(db, user, now, Request.CreateStock(id, s), p); }
  }

  lemma {:induction false} StockUpdated(db: Db, user: nat, now: nat, q: Request)
    requires q.UpdateStock? && MayRestock(db, user, q)
    ensures var row := db.stocks[q.id].cols;
            forall p :: OnHand(UpdateStockIn(db, user, now, q), p)
                     == OnHand(db, p) + If(row.part, p, q.newQuantity.GetOr(row.quantity) - row.quantity)
  {
    forall p { StockMoves(db, user, now, q, p); }
  }

  lemma {:induction false} StockDeleted(db: Db, user: nat, now: nat, id: nat)
    requires LiveStock(db, user, id)
    ensures var row := db.stocks[id].cols;
            forall p :: OnHand(DeleteStockIn(db, user, now, id), p) == OnHand(db, p) - If(row.part, p, row.quantity)
  {
    forall p { StockMoves(db, user, now, Request.DeleteStock(id), p); }
  }

  lemma {:induction false} ConsumptionCreated(db: Db, user: nat, now: nat, id: nat, c: Consumption)
    requires id !in db.consumptions && MayConsume(db, user, c)
    ensures forall p :: OnHand(CreateConsumptionIn(db, user, now, id, c), p)
                     == OnHand(db, p) - If(c.part, p, c.quantity)
  {
    forall p { ConsumptionMoves(db, user, now, Request.CreateConsumption(id, c), p); }
  }

  lemma {:induction false} ConsumptionUpdated(db: Db, user: nat, now: nat, id: nat, n: Option<int>)
    requires MayReconsume(db, user, id, n)
    ensures var row := db.consumptions[id].cols;
            forall p :: OnHand(UpdateConsumptionIn(db, user, now, id, n), p)
                     == OnHand(db, p) + If(row.part, p, row.quantity - n.GetOr(row.quantity))
  {
    forall p { ConsumptionMoves(db, user, now, Request.UpdateConsumption(id, n), p); }
  }

  lemma {:induction false} ConsumptionDeleted(db: Db, user: nat, now: nat, id: nat)
    requires LiveConsumption(db, user, id)
    ensures var row := db.consumptions[id].cols;
            forall p :: OnHand(DeleteConsumptionIn(db, user, now, id), p)
                     == OnHand(db, p) + If(row.part, p, row.quantity)
  {
    forall p { ConsumptionMoves(db, user, now, Request.DeleteConsumption(id), p); }
  }

  lemma {:induction false} PartDeleted(db: Db, user: nat, now: nat, id: nat)
    requires LivePart(db, user, id)
    ensures forall p :: OnHand(DeletePartIn(db, user, now, id), p) == if p == id then 0 else OnHand(db, p)
  {
    forall p { PartMoves(db, user, now, id, p); }
  }

  lemma {:induction false} RecordDeleted(db: Db, user: nat, now: nat, id: nat)
    requires LiveRecord(db, user, id)
    ensures forall p :: OnHand(DeleteRecordIn(db, user, now, id), p)
                     == OnHand(db, p) + Quantity(UsedEntries(db.consumptions, id), p)
  {
    forall p { RecordGives(db, user, now, id, p); }
  }

  lemma {:induction false} RecordDeletedUnused(db: Db, user: nat, now: nat, id: nat)
    requires LiveRecord(db, user, id)
    ensures Unused(DeleteRecordIn(db, user, now, id).consumptions, id)
  {}

  ghost function MovedIn(db: Db, actions: seq<Action>, p: nat): int
    decreases |actions|
  {
    if actions == [] then 0
    else
      var a := actions[0];
      Moved(db, a.user, a.request, p) + MovedIn(Apply(db, a.user, a.now, a.request), actions[1..], p)
  }

  /** Conservation over runs: what is on hand is what was, plus all that was put in, less all that was taken. */
  lemma {:induction false} RunsMoveOnHand(db: Db, actions: seq<Action>, p: nat)
    requires Legal(db, actions)
    ensures OnHand(Exec(db, actions), p) == OnHand(db, p) + MovedIn(db, actions, p)
    decreases |actions|
  {
    if actions != [] {
      var a := actions[0];
      RequestsMoveOnHand(db, a.user, a.now, a.request, p);
      RunsMoveOnHand(Apply(db, a.user, a.now, a.request), actions[1..], p);
    }
  }

  // --------------------------------------------------------------- what a client derives

  lemma {:induction false} OwnQuantities(db: Db, user: nat, part: nat)
    requires OwnPart(db, user, part)
    ensures QuantitiesOf(StockEntries(Listing(StocksOf(db, user))), part) == QuantitiesOf(StockEntries(db.stocks), part)
    ensures QuantitiesOf(ConsumptionEntries(Listing(ConsumptionsOf(db, user))), part)
         == QuantitiesOf(ConsumptionEntries(db.consumptions), part)
  {}

  lemma {:induction false} UnbookedMerge(before: Table<Consumption>, after: Table<Consumption>, since: int)
    ensures Unbooked(Merge(Listing(before), Pull(after, since)))
         == Merge(Listing(Unbooked(before)), Pull(Unbooked(after), since))
  {
    assert Unbooked(Pull(after, since)) == Pull(Unbooked(after), since);
    UnbookedListing(before);
  }

  lemma {:induction false} UnbookedListing(t: Table<Consumption>)
    ensures Unbooked(Listing(t)) == Listing(Unbooked(t))
  {}

  lemma {:induction false} UnbookedEntries(t: Table<Consumption>)
    ensures ConsumptionEntries(Unbooked(t)) == ConsumptionEntries(t)
  {}

  /**
    What the client derives from its merged rows is what the server would derive, whether or not
    records were erased.
  */
  lemma {:induction false} ClientOnHandIsRight(db: Db, actions: seq<Action>, user: nat, since: int, part: nat)
    requires Linked(db) && Legal(db, actions) && After(actions, since) && OwnPart(Exec(db, actions), user, part)
    ensures var after := Exec(db, actions);
            var stocks := Merge(Listing(StocksOf(db, user)), Pull(StocksOf(after, user), since));
            var consumptions := Merge(Listing(ConsumptionsOf(db, user)), Pull(ConsumptionsOf(after, user), since));
            Quantity(StockEntries(stocks), part) - Quantity(ConsumptionEntries(consumptions), part)
            == OnHand(after, part)
  {
    var after := Exec(db, actions);
    var before, later := ConsumptionsOf(db, user), ConsumptionsOf(after, user);
    PullsAreExact(db, actions, user, since);
    OwnQuantities(after, user, part);
    UnbookedMerge(before, later, since);
    UnbookedListing(later);
    UnbookedEntries(Merge(Listing(before), Pull(later, since)));
    UnbookedEntries(Listing(later));
  }

  // -------------------------------------------------------------- what a client was told

  /**
    A listing and a pull send figures about each part along with it, its on-hand and how many
    purchases there are; the client takes over the figures of a pull and keeps the others.
  */
  ghost function MergedFigure(figure: (Db, nat) -> int, db: Db, after: Db, user: nat, since: int, p: nat): int
    requires p in Merge(Listing(PartsOf(db, user)), Pull(PartsOf(after, user), since))
  {
    figure(if p in Pull(PartsOf(after, user), since) then after else db, p)
  }

  lemma {:induction false} PartsPull(db: Db, actions: seq<Action>, user: nat, since: int)
    requires Linked(db) && Legal(db, actions) && After(actions, since)
    ensures PullGives(PartsOf(db, user), PartsOf(Exec(db, actions), user), since)
  {
    PullsAreExact(db, actions, user, since);
  }

  lemma {:induction false} Pulled(parts: Table<Part>, since: int, p: nat)
    requires p in parts
    ensures p in Pull(parts, since) <==> parts[p].updatedAt > since
  {}

  /**
    Such a figure is right exactly when the part's own row was stamped after the cursor, or
    what the run put on its on-hand nets to zero: stock and consumption do not stamp parts.
  */
  lemma {:induction false} FigureIsRightWhen(db: Db, actions: seq<Action>, user: nat, since: int, p: nat)
    requires Linked(db) && Legal(db, actions) && After(actions, since)
    requires p in Listing(PartsOf(Exec(db, actions), user))
    ensures p in Merge(Listing(PartsOf(db, user)), Pull(PartsOf(Exec(db, actions), user), since))
    ensures MergedFigure(OnHand, db, Exec(db, actions), user, since, p) == OnHand(Exec(db, actions), p)
       <==> Exec(db, actions).parts[p].updatedAt > since || MovedIn(db, actions, p) == 0
  {
    PartsPull(db, actions, user, since);
    RunsMoveOnHand(db, actions, p);
    ListedIsOwn(Exec(db, actions), user, p);
    FigureIs(OnHand, db, Exec(db, actions), user, since, p, MovedIn(db, actions, p));
  }

  lemma {:induction false} ListedIsOwn(db: Db, user: nat, p: nat)
    requires p in Listing(PartsOf(db, user))
    ensures OwnPart(db, user, p)
  {}

  lemma {:induction false} FigureIs(figure: (Db, nat) -> int, db: Db, after: Db, user: nat, since: int, p: nat,
                                    moved: int)
    requires p in Merge(Listing(PartsOf(db, user)), Pull(PartsOf(after, user), since)) && OwnPart(after, user, p)
    requires figure(after, p) == figure(db, p) + moved
    ensures MergedFigure(figure, db, after, user, since, p) == figure(after, p)
       <==> after.parts[p].updatedAt > since || moved == 0
  {
    Pulled(PartsOf(after, user), since, p);
  }

  // ----------------------------------------------------------------- the stock count

  /** How many live purchases of a part there are. */
  ghost function StockCount(db: Db, part: nat): int { |QuantitiesOf(StockEntries(db.stocks), part)| }

  ghost function CountMoved(db: Db, user: nat, q: Request, p: nat): int {
    match q
    case CreateStock(_, s) => if MayStock(db, user, s) then If(s.part, p, 1) else 0
    case DeleteStock(id) => if LiveStock(db, user, id) then If(db.stocks[id].cols.part, p, -1) else 0
    case DeletePart(id) => if LivePart(db, user, id) then If(id, p, -StockCount(db, p)) else 0
    case _ => 0
  }

  lemma {:induction false} SizeOfWrite(m: map<nat, int>, id: nat, v: int)
    ensures |m[id := v]| == |m| + if id in m then 0 else 1
    ensures |m - {id}| == |m| - if id in m then 1 else 0
  {
    assert m[id := v].Keys == m.Keys + {id} && (m - {id}).Keys == m.Keys - {id};
    assert |m[id := v]| == |m[id := v].Keys| && |m - {id}| == |(m - {id}).Keys| && |m| == |m.Keys|;
  }

  lemma {:induction false} StockWriteMovesCount(db: Db, id: nat, r: Row<Stock>, p: nat)
    ensures StockCount(db.(stocks := db.stocks[id := r]), p)
         == StockCount(db, p) - (if id in QuantitiesOf(StockEntries(db.stocks), p) then 1 else 0)
            + if r.Live() then If(r.cols.part, p, 1) else 0
  {
    StockEntriesOfWrite(db.stocks, id, r);
    CountOfUpdate(StockEntries(db.stocks), id, Entry(r.cols.part, r.cols.quantity), p);
  }

  lemma {:induction false} CountOfUpdate(entries: map<nat, Entry>, id: nat, e: Entry, p: nat)
    ensures var q := QuantitiesOf(entries, p);
            && |QuantitiesOf(entries - {id}, p)| == |q| - (if id in q then 1 else 0)
            && |QuantitiesOf(entries[id := e], p)| == |q| - (if id in q then 1 else 0) + If(e.part, p, 1)
  {
    QuantitiesOfUpdate(entries, id, e, p);
    QuantitiesWithout(entries, id, p);
    SizeOfWrite(QuantitiesOf(entries, p), id, e.quantity);
  }

  lemma {:induction false} StockHandlersMoveCount(db: Db, user: nat, now: nat, q: Request, p: nat)
    requires NewId(db, q) && (q.CreateStock? || q.UpdateStock? || q.DeleteStock?)
    ensures StockCount(Apply(db, user, now, q), p) == StockCount(db, p) + CountMoved(db, user, q, p)
  {
    match q
    case CreateStock(id, s) => if MayStock(db, user, s) { StockWriteMovesCount(db, id, Inserted(s, now), p); }
    case UpdateStock(id, _, _, _, _, _) =>
      if MayRestock(db, user, q) { StockWriteMovesCount(db, id, UpdateStockIn(db, user, now, q).stocks[id], p); }
    case DeleteStock(id) =>
      if LiveStock(db, user, id) { StockWriteMovesCount(db, id, Tombstone(db.stocks[id], now), p); }
  }

  lemma {:induction false} RequestsMoveCount(db: Db, user: nat, now: nat, q: Request, p: nat)
    requires NewId(db, q)
    ensures StockCount(Apply(db, user, now, q), p) == StockCount(db, p) + CountMoved(db, user, q, p)
  {
    if q.CreateStock? || q.UpdateStock? || q.DeleteStock? {
      StockHandlersMoveCount(db, user, now, q, p);
    } else if q.DeletePart? {
      if LivePart(db, user, q.id) { PartGoneEntries(db, q.id, now, p); }
    } else if MovesNothing(q) {
      RestKeepsEntries(db, user, now, q);
    } else {
      UsesKeepStocks(db, user, now, q);
    }
  }

  ghost function CountMovedIn(db: Db, actions: seq<Action>, p: nat): int
    decreases |actions|
  {
    if actions == [] then 0
    else
      var a := actions[0];
      CountMoved(db, a.user, a.request, p) + CountMovedIn(Apply(db, a.user, a.now, a.request), actions[1..], p)
  }

  lemma {:induction false} RunsMoveCount(db: Db, actions: seq<Action>, p: nat)
    requires Legal(db, actions)
    ensures StockCount(Exec(db, actions), p) == StockCount(db, p) + CountMovedIn(db, actions, p)
    decreases |actions|
  {
    if actions != [] {
      var a := actions[0];
      RequestsMoveCount(db, a.user, a.now, a.request, p);
      RunsMoveCount(Apply(db, a.user, a.now, a.request), actions[1..], p);
    }
  }

  /** The count sent with a part is right exactly when its row was stamped or as many purchases came as went. */
  lemma {:induction false} CountIsRightWhen(db: Db, actions: seq<Action>, user: nat, since: int, p: nat)
    requires Linked(db) && Legal(db, actions) && After(actions, since)
    requires p in Listing(PartsOf(Exec(db, actions), user))
    ensures p in Merge(Listing(PartsOf(db, user)), Pull(PartsOf(Exec(db, actions), user), since))
    ensures MergedFigure(StockCount, db, Exec(db, actions), user, since, p) == StockCount(Exec(db, actions), p)
       <==> Exec(db, actions).parts[p].updatedAt > since || CountMovedIn(db, actions, p) == 0
  {
    PartsPull(db, actions, user, since);
    RunsMoveCount(db, actions, p);
    ListedIsOwn(Exec(db, actions), user, p);
    FigureIs(StockCount, db, Exec(db, actions), user, since, p, CountMovedIn(db, actions, p));
  }

  // ----------------------------------------------------------------- the smallest case

  ghost function Shelf(): Db {
    var parts: Table<Part> := map[1 := Inserted(Part(1, "11 42", "Filter", None), 0)];
    Db(parts, map[], map[], map[], map[], map[], map[])
  }

  ghost function Purchase(now: nat): Action {
    Action(1, now, CreateStock(1, Stock(1, 2, None, None, None, None, None)))
  }

  lemma {:induction false} NoneOnShelf()
    ensures OnHand(Shelf(), 1) == 0 && MayStock(Shelf(), 1, Purchase(0).request.stock)
  {
    assert QuantitiesOf(StockEntries(Shelf().stocks), 1) == map[];
    assert QuantitiesOf(ConsumptionEntries(Shelf().consumptions), 1) == map[];
  }

  lemma {:induction false} PurchaseMoves(now: nat)
    ensures Legal(Shelf(), [Purchase(now)]) && MovedIn(Shelf(), [Purchase(now)], 1) == 2
    ensures Exec(Shelf(), [Purchase(now)]).parts == Shelf().parts
  {
    NoneOnShelf();
    assert [Purchase(now)][1..] == [];
  }

  /** The smallest case: after a purchase of two the client's figure is not two. */
  lemma {:induction false} PurchaseIsNotToldOf(now: nat)
    requires now > 0
    ensures Linked(Shelf()) && Legal(Shelf(), [Purchase(now)])
    ensures var after := Exec(Shelf(), [Purchase(now)]);
            && OnHand(after, 1) == 2 && 1 in Merge(Listing(PartsOf(Shelf(), 1)), Pull(PartsOf(after, 1), 0))
            && MergedFigure(OnHand, Shelf(), after, 1, 0, 1) != 2
  {
    NoneOnShelf();
    PurchaseMoves(now);
    RunsMoveOnHand(Shelf(), [Purchase(now)], 1);
    FigureIsRightWhen(Shelf(), [Purchase(now)], 1, 0, 1);
  }
}
