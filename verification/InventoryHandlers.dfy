/**
  The inventory handlers as they run: statement after statement on the tables.  Each leaves
  exactly the tables that `Inventory` says, keeps them in order, and answers and does for its
  caller what its contract says.
*/
module InventoryHandlers {
  import opened Options
  import opened Sums
  import opened SyncTables
  import opened ParentGraph
  import opened Inventory
  import opened StorageTree
  import opened PartsLedger
  import opened InventorySync
  import opened OnHandMoves
  import opened InventoryRules
  import RealSums

  method SumQuantities(m: map<nat, int>) returns (sum: int)
    ensures sum == MapSum(m)
  {
    sum := 0;
    var rest: map<nat, int> := m;
    while rest != map[]
      invariant MapSum(m) == sum + MapSum(rest)
      decreases |rest|
    {
      var k: nat :| k in rest;
      SumWithout(rest, k);
      sum := sum + rest[k];
      rest := rest - {k};
    }
  }

  method SumWorth(m: map<nat, real>) returns (sum: real)
    ensures sum == RealSums.Sum(m)
  {
    sum := 0.0;
    var rest: map<nat, real> := m;
    while rest != map[]
      invariant RealSums.Sum(m) == sum + RealSums.Sum(rest)
      decreases |rest|
    {
      var k: nat :| k in rest;
      RealSums.SumWithout(rest, k);
      sum := sum + rest[k];
      rest := rest - {k};
    }
  }

  // ------------------------------------------------- costs by part and by row agree

  function OnlyPart(entries: map<nat, Entry>, p: nat): map<nat, Entry> {
    map e | e in entries && entries[e].part == p :: entries[e]
  }

  function NotParts(entries: map<nat, Entry>, parts: set<nat>): map<nat, Entry> {
    map e | e in entries && entries[e].part !in parts :: entries[e]
  }

  lemma {:induction false} OnePartPriced(prices: map<nat, real>, entries: map<nat, Entry>, p: nat)
    requires forall e :: e in entries ==> entries[e].part == p
    ensures RealSums.Sum(Priced(prices, entries)) == Times(RealSums.At(prices, p), Quantity(entries, p))
    decreases |entries|
  {
    if entries == map[] {
      assert Priced(prices, entries) == map[] && QuantitiesOf(entries, p) == map[];
    } else {
      var e: nat :| e in entries;
      OnePartPriced(prices, entries - {e}, p);
      OneEntryPriced(prices, entries, p, e);
    }
  }

  lemma {:induction false} OneEntryPriced(prices: map<nat, real>, entries: map<nat, Entry>, p: nat, e: nat)
    requires e in entries && entries[e].part == p
    requires RealSums.Sum(Priced(prices, entries - {e})) == Times(RealSums.At(prices, p), Quantity(entries - {e}, p))
    ensures RealSums.Sum(Priced(prices, entries)) == Times(RealSums.At(prices, p), Quantity(entries, p))
  {
    var priced: map<nat, real>, price := Priced(prices, entries), RealSums.At(prices, p);
    var fewer, sum := RealSums.Sum(priced - {e}), RealSums.Sum(priced);
    var less, quantity := Quantity(entries - {e}, p), Quantity(entries, p);
    assert fewer == Times(price, less) by { PricedWithout(prices, entries, e); }
    assert sum == priced[e] + fewer by { RealSums.SumWithout(priced, e); }
    assert quantity == less + entries[e].quantity by { QuantityWithout(entries, e, p); }
    OneMorePiece(price, less, entries[e].quantity, quantity, fewer, sum);
  }

  lemma {:induction false} OneMorePiece(price: real, less: int, q: int, quantity: int, fewer: real, sum: real)
    requires fewer == Times(price, less) && quantity == less + q && sum == Times(price, q) + fewer
    ensures sum == Times(price, quantity)
  {
    TimesAdds(price, less, q);
  }

  lemma {:induction false} PricedWithout(prices: map<nat, real>, entries: map<nat, Entry>, e: nat)
    ensures Priced(prices, entries - {e}) == Priced(prices, entries) - {e}
  {}

  /** Taking the group of one part out of the rows still to be priced. */
  lemma {:induction false} PriceNext(prices: map<nat, real>, entries: map<nat, Entry>, done: set<nat>, p: nat)
    requires p !in done
    ensures RealSums.Sum(Priced(prices, NotParts(entries, done)))
         == RealSums.Sum(Priced(prices, NotParts(entries, done + {p})))
            + Times(RealSums.At(prices, p), Quantity(entries, p))
  {
    var all, rest, group := NotParts(entries, done), NotParts(entries, done + {p}), OnlyPart(entries, p);
    OnePartPriced(prices, group, p);
    GroupQuantity(entries, p);
    PricedApart(prices, entries, done, p);
    RealSums.SumOfUnion(Priced(prices, rest), Priced(prices, group));
  }

  lemma {:induction false} GroupQuantity(entries: map<nat, Entry>, p: nat)
    ensures Quantity(OnlyPart(entries, p), p) == Quantity(entries, p)
  {
    assert QuantitiesOf(OnlyPart(entries, p), p) == QuantitiesOf(entries, p);
  }

  lemma {:induction false} PricedApart(prices: map<nat, real>, entries: map<nat, Entry>, done: set<nat>, p: nat)
    requires p !in done
    ensures Priced(prices, NotParts(entries, done))
         == Priced(prices, NotParts(entries, done + {p})) + Priced(prices, OnlyPart(entries, p))
  {}

  ghost function GroupCosts(prices: map<nat, real>, used: map<nat, Entry>, parts: set<nat>): map<nat, real> {
    map p | p in parts :: Times(RealSums.At(prices, p), Quantity(used, p))
  }

  lemma {:induction false} OneGroupLess(prices: map<nat, real>, used: map<nat, Entry>, parts: set<nat>, p: nat)
    requires p in parts
    ensures RealSums.Sum(GroupCosts(prices, used, parts))
         == Times(RealSums.At(prices, p), Quantity(used, p)) + RealSums.Sum(GroupCosts(prices, used, parts - {p}))
  {
    RealSums.SumWithout(GroupCosts(prices, used, parts), p);
    assert GroupCosts(prices, used, parts) - {p} == GroupCosts(prices, used, parts - {p});
  }

  /** Part by part or row by row, the total is the same. */
  lemma {:induction false} ByPartIsByRow(prices: map<nat, real>, used: map<nat, Entry>, done: set<nat>, todo: set<nat>)
    requires done !! todo && forall e :: e in used ==> used[e].part in done || used[e].part in todo
    ensures RealSums.Sum(GroupCosts(prices, used, todo)) == RealSums.Sum(Priced(prices, NotParts(used, done)))
    decreases |todo|
  {
    if todo == {} {
      assert Priced(prices, NotParts(used, done)) == map[] && GroupCosts(prices, used, todo) == map[];
    } else {
      var p: nat :| p in todo;
      PriceNext(prices, used, done, p);
      ByPartIsByRow(prices, used, done + {p}, todo - {p});
      OneGroupLess(prices, used, todo, p);
    }
  }

  lemma {:induction false} AllByRow(prices: map<nat, real>, used: map<nat, Entry>, parts: set<nat>)
    requires forall e :: e in used ==> used[e].part in parts
    ensures RealSums.Sum(GroupCosts(prices, used, parts)) == RealSums.Sum(Priced(prices, used))
  {
    ByPartIsByRow(prices, used, {}, parts);
    assert NotParts(used, {}) == used;
  }

  /** The UPDATE at the end of `recalculate_parts_cost`. */
  function WithCost(records: Table<Record>, record: nat, cost: Option<real>, now: nat): Table<Record> {
    if record in records && records[record].cols.partsCost != cost
    then records[record := Written(records[record], records[record].cols.(partsCost := cost), now)] else records
  }

  lemma {:induction false} RecostOne(db: Db, record: nat, now: nat)
    ensures Recosted(db, {record}, now).records == WithCost(db.records, record, Cost(db, record), now)
  {}

  class Store {
    var parts: Table<Part>
    var stocks: Table<Stock>
    var consumptions: Table<Consumption>
    var nodes: Table<Node>
    var records: Table<Record>
    var places: map<nat, nat>
    var factors: map<string, real>

    function Tables(): Db
      reads this
    {
      Db(parts, stocks, consumptions, nodes, records, places, factors)
    }

    ghost predicate Valid()
      reads this
    {
      TablesOk(Tables())
    }

    constructor (db: Db)
      requires TablesOk(db)
      ensures Valid() && Tables() == db
    {
      parts, stocks, consumptions, nodes := db.parts, db.stocks, db.consumptions, db.nodes;
      records, places, factors := db.records, db.places, db.factors;
    }

    // ----------------------------------------------------------------- storage

    method VerifyNoCycle(id: nat, newParent: nat) returns (ok: bool)
      ensures ok == ChainClear(ParentsOf(nodes), id, Some(newParent), MAX_HIERARCHY_DEPTH)
      ensures ok <==> exists k: nat :: k < MAX_HIERARCHY_DEPTH && EndsClear(ParentsOf(nodes), id, newParent, k)
    {
      var g := ParentsOf(nodes);
      ChainClearMeans(g, id, newParent, MAX_HIERARCHY_DEPTH);
      var current := Some(newParent);
      for step := 0 to MAX_HIERARCHY_DEPTH
        invariant ChainClear(g, id, Some(newParent), MAX_HIERARCHY_DEPTH)
             == ChainClear(g, id, current, MAX_HIERARCHY_DEPTH - step)
      {
        if current.None? { return true; }
        if current.value == id { return false; }
        current := ParentOf(g, current.value);
      }
      return false;
    }

    method CreateNode(user: nat, now: nat, q: Request) returns (ok: bool)
      requires Valid() && q.CreateNode? && q.id !in nodes
      modifies this
      ensures Valid() && Tables() == CreateNodeIn(old(Tables()), user, now, q)
      ensures ok <==>
        && q.name != ""
        && (|| SeenNode(old(Tables()), user, q.client)
            || (!TakenNode(old(Tables()), q.client) && MayHang(old(Tables()), user, q.parent, q.place)))
      ensures q.id in nodes ==> HangsFrom(old(nodes), nodes, q.id, q.parent)
    {
      ghost var before := Tables();
      if q.name == "" { return false; }
      if SeenNode(Tables(), user, q.client) { return true; }
      if q.parent.Some? && !LiveNode(nodes, user, q.parent.value) { return false; }
      if q.place.Some? && q.parent.Some? { return false; }
      if !OwnPlace(Tables(), user, q.place) { return false; }
      if TakenNode(Tables(), q.client) { return false; }
      nodes := nodes[q.id := Inserted(Node(user, q.name, q.parent, q.place, q.client), now)];
      RequestsKeepTables(before, user, now, q);
      CreatedHangs(before, user, now, q);
      return true;
    }

    method UpdateNode(user: nat, now: nat, q: Request) returns (ok: bool)
      requires Valid() && q.UpdateNode?
      modifies this
      ensures Valid() && Tables() == UpdateNodeIn(old(Tables()), user, now, q)
      ensures ok <==> LiveNode(old(nodes), user, q.id) && ChangeAllowed(old(Tables()), user, q)
      ensures ok ==> HangsFrom(old(nodes), nodes, q.id, q.newParent.GetOr(old(nodes)[q.id].cols.parent))
    {
      ghost var before := Tables();
      ok := false;
      if !LiveNode(nodes, user, q.id) { return; }
      var existing := nodes[q.id].cols;
      ChangeMeans(before, user, q);
      var parent, place;
      ok, parent, place := Placement(user, q);
      if !ok { return; }
      var changed := existing.(name := q.newName.GetOr(existing.name), parent := parent, place := place);
      nodes := nodes[q.id := Written(nodes[q.id], changed, now)];
      RequestsKeepTables(before, user, now, q);
      UpdatedHangs(before, user, now, q);
    }

    /** Where the node goes: absent keeps, null clears, and a nested node has no place. */
    method Placement(user: nat, q: Request) returns (ok: bool, parent: Option<nat>, place: Option<nat>)
      requires q.UpdateNode? && q.id in nodes
      ensures ok <==> MayUpdateNode(Tables(), user, q)
      ensures ok ==> parent == q.newParent.GetOr(nodes[q.id].cols.parent)
      ensures ok ==> place == if parent.Some? then None else q.newPlace.GetOr(nodes[q.id].cols.place)
    {
      ok, parent, place := false, nodes[q.id].cols.parent, nodes[q.id].cols.place;
      match q.newParent {
        case None =>
        case Some(None) => parent := None;
        case Some(Some(p)) =>
          if !LiveNode(nodes, user, p) { return; }
          var clear := VerifyNoCycle(q.id, p);
          if !clear { return; }
          parent := Some(p);
      }
      match q.newPlace {
        case None =>
        case Some(None) => place := None;
        case Some(Some(l)) =>
          if parent.Some? || !OwnPlace(Tables(), user, Some(l)) { return; }
          place := Some(l);
      }
      if parent.Some? { place := None; }
      ok := true;
    }

    method DeleteNode(user: nat, now: nat, id: nat) returns (ok: bool)
      requires Valid()
      modifies this
      ensures Valid() && Tables() == DeleteNodeIn(old(Tables()), user, now, id)
      ensures ok <==> LiveNode(old(nodes), user, id)
      ensures ok ==> SameAncestors(old(nodes), nodes, id)
      ensures ok ==> forall s :: s in stocks && stocks[s].Live() ==> stocks[s].cols.storage != Some(id)
    {
      ghost var before := Tables();
      if !LiveNode(nodes, user, id) { return false; }
      RequestsKeepTables(before, user, now, Request.DeleteNode(id));
      DeleteNodeKeepsAncestors(before, user, now, id);
      DeletedIsEmpty(before, user, now, id);
      var existing := nodes[id].cols;
      nodes := nodes[id := Tombstone(nodes[id], now)];
      nodes := UpdateWhere(nodes, (c: Node) => c.parent == Some(id), (c: Node) => c.(parent := existing.parent), now);
      stocks := UpdateWhere(stocks, (s: Stock) => s.storage == Some(id), (s: Stock) => s.(storage := None), now);
      return true;
    }

    // ------------------------------------------------------------------ places

    method DeletePlace(user: nat, id: nat) returns (ok: bool)
      requires Valid()
      modifies this
      ensures Valid() && Tables() == DeletePlaceIn(old(Tables()), user, id)
      ensures ok <==> Owns(old(Tables()), user, id)
      ensures ok ==> forall n :: n in nodes ==> nodes[n].cols.place != Some(id)
    {
      if !(id in places && places[id] == user) { return false; }
      RequestsKeepTables(Tables(), user, 0, Request.DeletePlace(id));
      nodes := Relocated(nodes, {id}, None);
      places := places - {id};
      return true;
    }

    /** One transaction: a duplicate that is not the user's undoes the merges before it. */
    method MergePlaces(user: nat, canonical: nat, duplicates: set<nat>) returns (ok: bool)
      requires Valid()
      modifies this
      ensures Valid() && Tables() == MergePlacesIn(old(Tables()), user, canonical, duplicates)
      ensures ok <==>
        && (exists d :: d in duplicates && d != canonical) && Owns(old(Tables()), user, canonical)
        && forall d :: d in duplicates ==> Owns(old(Tables()), user, d)
      ensures ok ==> forall n :: n in nodes ==>
                (nodes[n].cols.place == Redirected(old(nodes)[n].cols, duplicates, canonical))
    {
      OthersAmong(duplicates, canonical);
      var merged, txNodes, txPlaces := Merged(user, canonical, duplicates - {canonical});
      if !merged { return false; }
      RequestsKeepTables(Tables(), user, 0, Request.MergePlaces(canonical, duplicates));
      MergeRedirects(nodes, duplicates, canonical);
      nodes, places := txNodes, txPlaces;
      return true;
    }

    method Merged(user: nat, canonical: nat, dups: set<nat>)
      returns (ok: bool, txNodes: Table<Node>, txPlaces: map<nat, nat>)
      requires canonical !in dups
      ensures ok <==> dups != {} && Owns(Tables(), user, canonical) && forall d :: d in dups ==> Owns(Tables(), user, d)
      ensures ok ==> txNodes == Relocated(nodes, dups, Some(canonical)) && txPlaces == places - dups
    {
      ok, txNodes, txPlaces := false, nodes, places;
      if dups == {} || !(canonical in places && places[canonical] == user) { return; }
      var todo: set<nat> := dups;
      NothingRelocated(nodes, places, Some(canonical), dups - todo);
      while todo != {}
        invariant todo <= dups && forall d :: d in dups - todo ==> Owns(Tables(), user, d)
        invariant txNodes == Relocated(nodes, dups - todo, Some(canonical)) && txPlaces == places - (dups - todo)
      {
        var d: nat :| d in todo;
        if !(d in txPlaces && txPlaces[d] == user) { assert !Owns(Tables(), user, d); return; }
        RelocatedOneMore(nodes, places, dups - todo, d, Some(canonical));
        txNodes := Relocated(txNodes, {d}, Some(canonical));
        txPlaces := txPlaces - {d};
        assert dups - (todo - {d}) == dups - todo + {d};
        todo := todo - {d};
      }
      assert dups - todo == dups;
      ok := true;
    }

    // ---------------------------------------------------------- parts and stock

    method CreatePart(user: nat, now: nat, q: Request) returns (ok: bool)
      requires Valid() && q.CreatePart? && q.id !in parts
      modifies this
      ensures Valid() && Tables() == CreatePartIn(old(Tables()), user, now, q)
      ensures ok <==>
        && q.number != "" && q.name != ""
        && (|| SeenPart(old(Tables()), user, q.client)
            || (!TakenPart(old(Tables()), q.client) && !IdentityTaken(old(Tables()), user, q.number, q.name, None)))
      ensures ok ==> q.id in parts || SeenPart(Tables(), user, q.client)
      ensures q.id in parts ==> OnHand(Tables(), q.id) == 0
    {
      ghost var before := Tables();
      if q.number == "" || q.name == "" { return false; }
      if SeenPart(Tables(), user, q.client) { return true; }
      if Duplicate(Tables(), user, q.number, q.name, None) { return false; }
      if TakenPart(Tables(), q.client) { return false; }
      parts := parts[q.id := Inserted(Part(user, q.number, q.name, q.client), now)];
      RequestsKeepTables(before, user, now, q);
      NoneOfNewPart(before, Tables(), q.id);
      return true;
    }

    method UpdatePart(user: nat, now: nat, q: Request) returns (ok: bool)
      requires Valid() && q.UpdatePart?
      modifies this
      ensures Valid() && Tables() == UpdatePartIn(old(Tables()), user, now, q)
      ensures ok <==>
        && LivePart(old(Tables()), user, q.id)
        && var row := old(parts)[q.id].cols;
           !IdentityTaken(old(Tables()), user, q.newNumber.GetOr(row.number), q.newName.GetOr(row.name), Some(q.id))
      ensures forall p :: OnHand(Tables(), p) == OnHand(old(Tables()), p)
    {
      ghost var before := Tables();
      if !LivePart(Tables(), user, q.id) { return false; }
      var existing := parts[q.id].cols;
      var number, name := q.newNumber.GetOr(existing.number), q.newName.GetOr(existing.name);
      if Duplicate(Tables(), user, number, name, Some(q.id)) { return false; }
      parts := parts[q.id := Written(parts[q.id], existing.(number := number, name := name), now)];
      RequestsKeepTables(before, user, now, q);
      forall p { SameEntriesOnHand(before, Tables(), p); }
      return true;
    }

    /** The records are found before the cascade takes their consumptions away. */
    method DeletePart(user: nat, now: nat, id: nat) returns (ok: bool)
      requires Valid()
      modifies this
      ensures Valid() && Tables() == DeletePartIn(old(Tables()), user, now, id)
      ensures ok <==> LivePart(old(Tables()), user, id)
      ensures ok ==> forall p :: OnHand(Tables(), p) == if p == id then 0 else OnHand(old(Tables()), p)
    {
      ghost var before := Tables();
      if !LivePart(Tables(), user, id) { return false; }
      var affected := RecordsUsing(consumptions, id);
      ghost var gone := WithoutPart(Tables(), id, now);
      parts := parts[id := Tombstone(parts[id], now)];
      stocks := TombstoneWhere(stocks, (s: Stock) => s.part == id, now);
      consumptions := TombstoneWhere(consumptions, (c: Consumption) => c.part == id, now);
      RecostAll(affected, now, gone);
      RequestsKeepTables(before, user, now, Request.DeletePart(id));
      PartDeleted(before, user, now, id);
      return true;
    }

    method RecostAll(affected: set<nat>, now: nat, ghost gone: Db)
      requires Tables() == gone
      modifies this`records
      ensures Tables() == Recosted(gone, affected, now)
    {
      var todo := affected;
      RecostNone(gone, now);
      assert affected - todo == {};
      while todo != {}
        invariant todo <= affected && Tables() == Recosted(gone, affected - todo, now)
      {
        var r: nat :| r in todo;
        RecostMore(gone, affected - todo, r, now);
        RecalculatePartsCost(r, now);
        assert affected - (todo - {r}) == affected - todo + {r};
        todo := todo - {r};
      }
      assert affected - todo == affected;
    }

    method CreateStock(user: nat, now: nat, id: nat, s: Stock) returns (ok: bool)
      requires Valid() && id !in stocks
      modifies this
      ensures Valid() && Tables() == CreateStockIn(old(Tables()), user, now, id, s)
      ensures ok <==>
        && LivePart(old(Tables()), user, s.part) && s.quantity >= 1
        && (s.storage.Some? ==> LiveNode(old(nodes), user, s.storage.value))
        && (SeenStock(old(Tables()), user, s.client) || !TakenStock(old(Tables()), s.client))
      ensures forall p :: OnHand(Tables(), p)
                == OnHand(old(Tables()), p) + if id in stocks then If(s.part, p, s.quantity) else 0
    {
      ghost var before := Tables();
      var seen;
      ok, seen := CheckPurchase(user, s);
      if !ok || seen { return; }
      stocks := stocks[id := Inserted(s, now)];
      RequestsKeepTables(before, user, now, Request.CreateStock(id, s));
      StockCreated(before, user, now, id, s);
    }

    method CheckPurchase(user: nat, s: Stock) returns (ok: bool, seen: bool)
      ensures ok <==>
        && LivePart(Tables(), user, s.part) && s.quantity >= 1
        && (s.storage.Some? ==> LiveNode(nodes, user, s.storage.value))
        && (SeenStock(Tables(), user, s.client) || !TakenStock(Tables(), s.client))
      ensures MayStock(Tables(), user, s) <==> ok && !seen
    {
      ok, seen := false, false;
      if !LivePart(Tables(), user, s.part) || s.quantity < 1 { return; }
      if s.storage.Some? && !LiveNode(nodes, user, s.storage.value) { return; }
      seen := SeenStock(Tables(), user, s.client);
      ok := seen || !TakenStock(Tables(), s.client);
    }

    method UpdateStock(user: nat, now: nat, q: Request) returns (ok: bool)
      requires Valid() && q.UpdateStock?
      modifies this
      ensures Valid() && Tables() == UpdateStockIn(old(Tables()), user, now, q)
      ensures ok <==>
        && LiveStock(old(Tables()), user, q.id) && (q.newQuantity.Some? ==> q.newQuantity.value >= 1)
        && (q.storage.Some? ==> LiveNode(old(nodes), user, q.storage.value))
      ensures forall p :: OnHand(Tables(), p) == OnHand(old(Tables()), p)
                + if ok then If(stocks[q.id].cols.part, p, stocks[q.id].cols.quantity - old(stocks)[q.id].cols.quantity)
                  else 0
    {
      ghost var before := Tables();
      ok := CheckStock(user, q);
      if !ok { return; }
      var existing := stocks[q.id].cols;
      var changed := existing.(quantity := q.newQuantity.GetOr(existing.quantity), price := q.price.Or(existing.price),
                               currency := q.currency.Or(existing.currency),
                               normalized := q.normalized.Or(existing.normalized),
                               storage := q.storage.Or(existing.storage));
      stocks := stocks[q.id := Written(stocks[q.id], changed, now)];
      RequestsKeepTables(before, user, now, q);
      StockUpdated(before, user, now, q);
    }

    method CheckStock(user: nat, q: Request) returns (ok: bool)
      requires q.UpdateStock?
      ensures ok <==> MayRestock(Tables(), user, q)
    {
      if !LiveStock(Tables(), user, q.id) { return false; }
      var quantity := q.newQuantity.GetOr(stocks[q.id].cols.quantity);
      if quantity < 1 { return false; }
      ok := q.storage.Some? ==> LiveNode(nodes, user, q.storage.value);
    }

    /** Allowed to drive on-hand below zero: it corrects a purchase. */
    method DeleteStock(user: nat, now: nat, id: nat) returns (ok: bool)
      requires Valid()
      modifies this
      ensures Valid() && Tables() == DeleteStockIn(old(Tables()), user, now, id)
      ensures ok <==> LiveStock(old(Tables()), user, id)
      ensures forall p :: OnHand(Tables(), p)
                == OnHand(old(Tables()), p) - if ok then If(stocks[id].cols.part, p, stocks[id].cols.quantity) else 0
    {
      ghost var before := Tables();
      ok := LiveStock(Tables(), user, id);
      if ok {
        stocks := stocks[id := Tombstone(stocks[id], now)];
        RequestsKeepTables(before, user, now, Request.DeleteStock(id));
        StockDeleted(before, user, now, id);
      }
    }

    // -------------------------------------------------------------- consumption

    method OnHandNow(part: nat) returns (n: int)
      ensures n == OnHand(Tables(), part)
    {
      var stocked := SumQuantities(QuantitiesOf(StockEntries(stocks), part));
      var used := SumQuantities(QuantitiesOf(ConsumptionEntries(consumptions), part));
      n := stocked - used;
    }

    method AverageUnitPrice(part: nat) returns (unit: Option<real>)
      ensures unit == UnitPrice(stocks, factors, part)
    {
      var quantity := SumQuantities(QuantitiesOf(StockEntries(stocks), part));
      if quantity <= 0 { return None; }
      var value := SumWorth(WorthOf(stocks, factors, part));
      unit := Some(value / quantity as real);
    }

    method GroupCost(used: map<nat, Entry>, rows: map<nat, int>, among: set<nat>, p: nat, ghost costs: map<nat, real>)
      returns (cost: real)
      requires GroupedBy(rows, used, among) && p in among
      requires costs == GroupCosts(Prices(stocks, factors, among), used, among)
      ensures cost == costs[p]
    {
      var unit := AverageUnitPrice(p);
      cost := if unit.Some? then Times(unit.value, At(rows, p)) else 0.0;
    }

    method SumGroups(used: map<nat, Entry>, rows: map<nat, int>, among: set<nat>, ghost costs: map<nat, real>)
      returns (total: real)
      requires GroupedBy(rows, used, among) && costs == GroupCosts(Prices(stocks, factors, among), used, among)
      ensures total == RealSums.Sum(costs)
    {
      total := 0.0;
      var todo: set<nat> := among;
      ghost var rest: map<nat, real> := costs;
      while todo != {}
        invariant todo <= among && rest.Keys == todo && (forall p :: p in todo ==> rest[p] == costs[p])
        invariant RealSums.Sum(costs) == total + RealSums.Sum(rest)
      {
        var p: nat :| p in todo;
        var cost := GroupCost(used, rows, among, p, costs);
        RealSums.SumWithout(rest, p);
        total := total + cost;
        rest := rest - {p};
        todo := todo - {p};
      }
    }

    /** The rows come grouped by part; the total is the same as row by row. */
    method TotalCost(used: map<nat, Entry>, rows: map<nat, int>, among: set<nat>) returns (total: real)
      requires GroupedBy(rows, used, among) && forall e :: e in used ==> used[e].part in among
      ensures total == RealSums.Sum(Priced(Prices(stocks, factors, among), used))
    {
      ghost var prices: map<nat, real> := Prices(stocks, factors, among);
      AllByRow(prices, used, among);
      total := SumGroups(used, rows, among, GroupCosts(prices, used, among));
    }

    method RecalculatePartsCost(record: nat, now: nat)
      modifies this`records
      ensures Tables() == Recosted(old(Tables()), {record}, now)
    {
      var used := UsedEntries(consumptions, record);
      var rows := GroupByPart(used, PartsIn(used));
      var partsCost: Option<real> := None;
      if used != map[] {
        var total := TotalCost(used, rows, PartsIn(used));
        partsCost := Some(total);
      }
      RecostOne(Tables(), record, now);
      records := WithCost(records, record, partsCost, now);
    }

    method CreateConsumption(user: nat, now: nat, id: nat, c: Consumption) returns (ok: bool)
      requires Valid() && id !in consumptions
      modifies this
      ensures Valid() && Tables() == CreateConsumptionIn(old(Tables()), user, now, id, c)
      ensures ok <==>
        && LivePart(old(Tables()), user, c.part) && c.quantity >= 1
        && (c.record.Some? ==> LiveRecord(old(Tables()), user, c.record.value))
        && (|| SeenConsumption(old(Tables()), user, c.client)
            || (!TakenConsumption(old(Tables()), c.client) && OnHand(old(Tables()), c.part) - c.quantity >= 0))
      ensures forall p :: OnHand(Tables(), p)
                == OnHand(old(Tables()), p) - if id in consumptions then If(c.part, p, c.quantity) else 0
      ensures id in consumptions ==> Costed(Tables(), c.record)
    {
      ghost var before := Tables();
      var seen;
      ok, seen := CheckConsumption(user, c);
      if !ok || seen { return; }
      WriteConsumption(id, Inserted(c, now), now);
      RequestsKeepTables(before, user, now, Request.CreateConsumption(id, c));
      ConsumptionCreated(before, user, now, id, c);
    }

    /** A retried request is answered with the row it made; otherwise the stock must cover it. */
    method CheckConsumption(user: nat, c: Consumption) returns (ok: bool, seen: bool)
      ensures ok <==>
        && LivePart(Tables(), user, c.part) && c.quantity >= 1
        && (c.record.Some? ==> LiveRecord(Tables(), user, c.record.value))
        && (|| SeenConsumption(Tables(), user, c.client)
            || (!TakenConsumption(Tables(), c.client) && OnHand(Tables(), c.part) - c.quantity >= 0))
      ensures MayConsume(Tables(), user, c) <==> ok && !seen
    {
      ok, seen := false, false;
      if !LivePart(Tables(), user, c.part) || c.quantity < 1 { return; }
      if c.record.Some? && !LiveRecord(Tables(), user, c.record.value) { return; }
      seen := SeenConsumption(Tables(), user, c.client);
      if seen { return true, seen; }
      var available := OnHandNow(c.part);
      if c.quantity > available { return; }
      ok := !TakenConsumption(Tables(), c.client);
    }

    /** The write, and the recosting of the record it is booked on, if any. */
    method WriteConsumption(id: nat, row: Row<Consumption>, now: nat)
      modifies this
      ensures Tables()
           == Recosted(old(Tables()).(consumptions := old(consumptions)[id := row]), RecordIds(row.cols.record), now)
      ensures Costed(Tables(), row.cols.record)
    {
      consumptions := consumptions[id := row];
      RecostNone(Tables(), now);
      RecostedIsCosted(Tables(), row.cols.record, now);
      if row.cols.record.Some? { RecalculatePartsCost(row.cols.record.value, now); }
    }

    method UpdateConsumption(user: nat, now: nat, id: nat, newQuantity: Option<int>) returns (ok: bool)
      requires Valid()
      modifies this
      ensures Valid() && Tables() == UpdateConsumptionIn(old(Tables()), user, now, id, newQuantity)
      ensures ok <==>
        && LiveConsumption(old(Tables()), user, id)
        && var row := old(consumptions)[id].cols;
           var quantity := newQuantity.GetOr(row.quantity);
           quantity >= 1 && (quantity <= row.quantity || OnHand(old(Tables()), row.part) + row.quantity - quantity >= 0)
      ensures forall p :: OnHand(Tables(), p) == OnHand(old(Tables()), p)
                + if ok then If(consumptions[id].cols.part, p,
                                old(consumptions)[id].cols.quantity - consumptions[id].cols.quantity)
                  else 0
      ensures ok ==> Costed(Tables(), consumptions[id].cols.record)
    {
      ghost var before := Tables();
      ok := CheckQuantity(user, id, newQuantity);
      if !ok { return; }
      var existing := consumptions[id].cols;
      WriteConsumption(id, Written(consumptions[id], existing.(quantity := newQuantity.GetOr(existing.quantity)), now),
                       now);
      RequestsKeepTables(before, user, now, Request.UpdateConsumption(id, newQuantity));
      ConsumptionUpdated(before, user, now, id, newQuantity);
    }

    /** Only an increase must be covered: the present quantity is already counted. */
    method CheckQuantity(user: nat, id: nat, newQuantity: Option<int>) returns (ok: bool)
      ensures ok <==> MayReconsume(Tables(), user, id, newQuantity)
      ensures ok <==>
        && LiveConsumption(Tables(), user, id)
        && var row := consumptions[id].cols;
           var quantity := newQuantity.GetOr(row.quantity);
           quantity >= 1 && (quantity <= row.quantity || OnHand(Tables(), row.part) + row.quantity - quantity >= 0)
    {
      if !LiveConsumption(Tables(), user, id) { return false; }
      var existing := consumptions[id].cols;
      var quantity := newQuantity.GetOr(existing.quantity);
      if quantity < 1 { return false; }
      var delta := quantity - existing.quantity;
      if delta <= 0 { return true; }
      var available := OnHandNow(existing.part);
      ok := delta <= available;
    }

    method DeleteConsumption(user: nat, now: nat, id: nat) returns (ok: bool)
      requires Valid()
      modifies this
      ensures Valid() && Tables() == DeleteConsumptionIn(old(Tables()), user, now, id)
      ensures ok <==> LiveConsumption(old(Tables()), user, id)
      ensures forall p :: OnHand(Tables(), p)
                == OnHand(old(Tables()), p)
                   + if ok then If(consumptions[id].cols.part, p, consumptions[id].cols.quantity) else 0
      ensures ok ==> Costed(Tables(), consumptions[id].cols.record)
    {
      ghost var before := Tables();
      ok := LiveConsumption(Tables(), user, id);
      if ok {
        WriteConsumption(id, Tombstone(consumptions[id], now), now);
        RequestsKeepTables(before, user, now, Request.DeleteConsumption(id));
        ConsumptionDeleted(before, user, now, id);
      }
    }

    /** Deleting a repair gives back what it consumed. */
    method DeleteRecord(user: nat, now: nat, id: nat) returns (ok: bool)
      requires Valid()
      modifies this
      ensures Valid() && Tables() == DeleteRecordIn(old(Tables()), user, now, id)
      ensures ok <==> LiveRecord(old(Tables()), user, id)
      ensures forall p :: OnHand(Tables(), p)
                == OnHand(old(Tables()), p) + if ok then Quantity(UsedEntries(old(consumptions), id), p) else 0
      ensures ok ==> Unused(consumptions, id)
    {
      ghost var before := Tables();
      ok := LiveRecord(Tables(), user, id);
      if ok {
        records := records[id := Tombstone(records[id], now)];
        consumptions := TombstoneWhere(consumptions, (c: Consumption) => c.record == Some(id), now);
        RequestsKeepTables(before, user, now, Request.DeleteRecord(id));
        RecordDeleted(before, user, now, id);
        RecordDeletedUnused(before, user, now, id);
      }
    }
  }

  /** Where a merge leaves a node's place. */
  function Redirected(c: Node, duplicates: set<nat>, canonical: nat): Option<nat> {
    if PlacedIn(c, duplicates) then Some(canonical) else c.place
  }

  lemma {:induction false} OthersAmong(ids: set<nat>, x: nat)
    ensures ids - {x} != {} <==> exists d :: d in ids && d != x
  {
    if ids - {x} != {} {
      var d: nat :| d in ids - {x};
      assert d in ids && d != x;
    }
    if d :| d in ids && d != x { assert d in ids - {x}; }
  }

  lemma {:induction false} MergeRedirects(nodes: Table<Node>, duplicates: set<nat>, canonical: nat)
    ensures var after := Relocated(nodes, duplicates - {canonical}, Some(canonical));
            forall n :: n in after ==> after[n].cols.place == Redirected(nodes[n].cols, duplicates, canonical)
  {}

  lemma {:induction false} NothingRelocated(nodes: Table<Node>, places: map<nat, nat>, target: Option<nat>,
                                            none: set<nat>)
    requires none == {}
    ensures Relocated(nodes, none, target) == nodes && places - none == places
  {}

  lemma {:induction false} RelocatedOneMore(nodes: Table<Node>, places: map<nat, nat>, done: set<nat>, d: nat,
                                            target: Option<nat>)
    requires target.Some? ==> target.value != d
    ensures Relocated(Relocated(nodes, done, target), {d}, target) == Relocated(nodes, done + {d}, target)
    ensures places - done - {d} == places - (done + {d})
  {}

  lemma {:induction false} NoneOfNewPart(before: Db, after: Db, id: nat)
    requires Linked(before) && id !in before.parts && after.stocks == before.stocks
    requires after.consumptions == before.consumptions
    ensures OnHand(after, id) == 0
  {
    assert QuantitiesOf(StockEntries(after.stocks), id) == map[];
    assert QuantitiesOf(ConsumptionEntries(after.consumptions), id) == map[];
  }

  lemma {:induction false} RecostNone(db: Db, now: nat)
    ensures Recosted(db, {}, now) == db
  {
    assert Recosted(db, {}, now).records == db.records;
  }

  /** Recosting one more record: the others are not affected. */
  lemma {:induction false} RecostMore(db: Db, ids: set<nat>, r: nat, now: nat)
    requires r !in ids
    ensures Recosted(Recosted(db, ids, now), {r}, now) == Recosted(db, ids + {r}, now)
  {
    var a := Recosted(db, ids, now);
    assert forall x :: Cost(a, x) == Cost(db, x);
    assert Recosted(a, {r}, now).records == Recosted(db, ids + {r}, now).records;
  }
}
