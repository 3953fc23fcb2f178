/**
  Pulls over whole runs of the inventory handlers.  Every writer of these tables, cascades
  and the detaching of storage included, stamps each row it changes, but two columns have
  writers elsewhere that do not: the place of a storage location and the maintenance record
  of a consumption.
*/
module InventorySync {
  import opened Options
  import opened SyncTables
  import opened Inventory

  ghost predicate AllBumped(a: Db, b: Db, since: int) {
    && Bumped(a.parts, b.parts, since) && Bumped(a.stocks, b.stocks, since)
    && Bumped(a.consumptions, b.consumptions, since) && Bumped(a.nodes, b.nodes, since)
  }

  /** Foreign keys: stock and consumption name an existing part, consumption an existing record, nodes an own place. */
  ghost predicate Linked(db: Db) {
    && (forall s :: s in db.stocks ==> db.stocks[s].cols.part in db.parts)
    && (forall c :: c in db.consumptions ==> db.consumptions[c].cols.part in db.parts)
    && (forall c :: c in db.consumptions && db.consumptions[c].cols.record.Some?
          ==> db.consumptions[c].cols.record.value in db.records)
    && PlacesLinked(db)
  }

  /** A storage location's place exists and is its owner's. */
  ghost predicate PlacesLinked(db: Db) {
    forall n :: n in db.nodes ==> OwnPlace(db, db.nodes[n].cols.user, db.nodes[n].cols.place)
  }

  /** Rows keep their owner. */
  ghost predicate SameOwners(a: Db, b: Db) {
    && (forall p :: p in a.parts ==> p in b.parts && b.parts[p].cols.user == a.parts[p].cols.user)
    && (forall s :: s in a.stocks ==> s in b.stocks && b.stocks[s].cols.part == a.stocks[s].cols.part)
    && (forall c :: c in a.consumptions
          ==> c in b.consumptions && b.consumptions[c].cols.part == a.consumptions[c].cols.part)
    && (forall n :: n in a.nodes ==> n in b.nodes && b.nodes[n].cols.user == a.nodes[n].cols.user)
  }

  /** What every handler does: it stamps what it changes, and rows keep their owners and links. */
  ghost predicate Step(a: Db, b: Db, since: int) { AllBumped(a, b, since) && SameOwners(a, b) && Linked(b) }

  lemma {:induction false} NothingSteps(db: Db, since: int)
    requires Linked(db)
    ensures Step(db, db, since)
  {}

  lemma {:induction false} StepsCompose(a: Db, b: Db, c: Db, since: int)
    requires Step(a, b, since) && Step(b, c, since)
    ensures Step(a, c, since)
  {
    BumpedTransitive(a.parts, b.parts, c.parts, since);
    BumpedTransitive(a.stocks, b.stocks, c.stocks, since);
    BumpedTransitive(a.consumptions, b.consumptions, c.consumptions, since);
    BumpedTransitive(a.nodes, b.nodes, c.nodes, since);
  }

  lemma {:induction false} NodeRowSteps(db: Db, id: nat, r: Row<Node>, since: int)
    requires Linked(db) && since < r.updatedAt && (id in db.nodes ==> r.cols.user == db.nodes[id].cols.user)
    requires OwnPlace(db, r.cols.user, r.cols.place)
    ensures Step(db, db.(nodes := db.nodes[id := r]), since)
  {}

  lemma {:induction false} PartRowSteps(db: Db, id: nat, r: Row<Part>, since: int)
    requires Linked(db) && since < r.updatedAt && (id in db.parts ==> r.cols.user == db.parts[id].cols.user)
    ensures Step(db, db.(parts := db.parts[id := r]), since)
  {}

  lemma {:induction false} StockRowSteps(db: Db, id: nat, r: Row<Stock>, since: int)
    requires Linked(db) && since < r.updatedAt && r.cols.part in db.parts
    requires id in db.stocks ==> r.cols.part == db.stocks[id].cols.part
    ensures Step(db, db.(stocks := db.stocks[id := r]), since)
  {}

  lemma {:induction false} RecordRowSteps(db: Db, id: nat, r: Row<Record>, since: int)
    requires Linked(db)
    ensures Step(db, db.(records := db.records[id := r]), since)
  {}

  lemma {:induction false} StocksTombstonedStep(db: Db, which: Stock -> bool, now: nat, since: int)
    requires Linked(db) && since < now
    ensures Step(db, db.(stocks := TombstoneWhere(db.stocks, which, now)), since)
  {}

  lemma {:induction false} StocksUpdatedStep(db: Db, which: Stock -> bool, change: Stock -> Stock, now: nat, since: int)
    requires Linked(db) && since < now && forall s :: change(s).part == s.part
    ensures Step(db, db.(stocks := UpdateWhere(db.stocks, which, change, now)), since)
  {}

  lemma {:induction false} ConsumptionsTombstonedStep(db: Db, which: Consumption -> bool, now: nat, since: int)
    requires Linked(db) && since < now
    ensures Step(db, db.(consumptions := TombstoneWhere(db.consumptions, which, now)), since)
  {}

  lemma {:induction false} RecostSteps(a: Db, b: Db, ids: set<nat>, now: nat, since: int)
    requires Step(a, b, since)
    ensures Step(a, Recosted(b, ids, now), since)
  {}

  /** Writing one consumption row, then recosting. */
  lemma {:induction false} ConsumptionRowSteps(db: Db, id: nat, r: Row<Consumption>, ids: set<nat>, now: nat,
                                               since: int)
    requires Linked(db) && since < r.updatedAt && r.cols.part in db.parts
    requires r.cols.record.Some? ==> r.cols.record.value in db.records
    requires id in db.consumptions ==> r.cols.part == db.consumptions[id].cols.part
    ensures Step(db, Recosted(db.(consumptions := db.consumptions[id := r]), ids, now), since)
  {
    RecostSteps(db, db.(consumptions := db.consumptions[id := r]), ids, now, since);
  }

  lemma {:induction false} CreateNodeSteps(db: Db, user: nat, now: nat, q: Request, since: int)
    requires Linked(db) && since < now && q.CreateNode? && q.id !in db.nodes
    ensures Step(db, CreateNodeIn(db, user, now, q), since)
  {
    NothingSteps(db, since);
    if OwnPlace(db, user, q.place) {
      NodeRowSteps(db, q.id, Inserted(Node(user, q.name, q.parent, q.place, q.client), now), since);
    }
  }

  lemma {:induction false} UpdateNodeSteps(db: Db, user: nat, now: nat, q: Request, since: int)
    requires Linked(db) && since < now && q.UpdateNode?
    ensures Step(db, UpdateNodeIn(db, user, now, q), since)
  {
    NothingSteps(db, since);
    var after := UpdateNodeIn(db, user, now, q);
    if after != db { NodeRowSteps(db, q.id, after.nodes[q.id], since); }
  }

  lemma {:induction false} DeleteNodeSteps(db: Db, user: nat, now: nat, id: nat, since: int)
    requires Linked(db) && since < now
    ensures Step(db, DeleteNodeIn(db, user, now, id), since)
  {
    NothingSteps(db, since);
    if LiveNode(db.nodes, user, id) {
      var a := db.(nodes := NodesWithout(db.nodes, id, now));
      NodesWithoutBumps(db.nodes, id, now, since);
      NodesWithoutKeepsPlaces(db.nodes, id, now);
      assert Step(db, a, since);
      StocksUpdatedStep(a, (s: Stock) => s.storage == Some(id), (s: Stock) => s.(storage := None), now, since);
      StepsCompose(db, a, DeleteNodeIn(db, user, now, id), since);
    }
  }

  lemma {:induction false} NodesWithoutBumps(nodes: Table<Node>, id: nat, now: nat, since: int)
    requires id in nodes && since < now
    ensures Bumped(nodes, NodesWithout(nodes, id, now), since)
  {}

  lemma {:induction false} NodesWithoutKeepsPlaces(nodes: Table<Node>, id: nat, now: nat)
    requires id in nodes
    ensures NodesWithout(nodes, id, now).Keys == nodes.Keys
    ensures forall n :: n in nodes ==>
              var c := NodesWithout(nodes, id, now)[n].cols;
              c.user == nodes[n].cols.user && c.place == nodes[n].cols.place
  {}

  lemma {:induction false} CreatePartSteps(db: Db, user: nat, now: nat, q: Request, since: int)
    requires Linked(db) && since < now && q.CreatePart? && q.id !in db.parts
    ensures Step(db, CreatePartIn(db, user, now, q), since)
  {
    NothingSteps(db, since);
    PartRowSteps(db, q.id, Inserted(Part(user, q.number, q.name, q.client), now), since);
  }

  lemma {:induction false} UpdatePartSteps(db: Db, user: nat, now: nat, q: Request, since: int)
    requires Linked(db) && since < now && q.UpdatePart?
    ensures Step(db, UpdatePartIn(db, user, now, q), since)
  {
    NothingSteps(db, since);
    if LivePart(db, user, q.id) {
      var c := db.parts[q.id].cols;
      var changed := c.(number := q.newNumber.GetOr(c.number), name := q.newName.GetOr(c.name));
      PartRowSteps(db, q.id, Written(db.parts[q.id], changed, now), since);
    }
  }

  lemma {:induction false} PartGone(db: Db, id: nat, now: nat, since: int)
    requires Linked(db) && since < now && id in db.parts
    ensures Step(db, WithoutPart(db, id, now), since)
  {
    var a := db.(parts := db.parts[id := Tombstone(db.parts[id], now)]);
    PartRowSteps(db, id, Tombstone(db.parts[id], now), since);
    StocksTombstonedStep(a, (s: Stock) => s.part == id, now, since);
    var b := a.(stocks := TombstoneWhere(a.stocks, (s: Stock) => s.part == id, now));
    StepsCompose(db, a, b, since);
    ConsumptionsTombstonedStep(b, (c: Consumption) => c.part == id, now, since);
    StepsCompose(db, b, WithoutPart(db, id, now), since);
  }

  lemma {:induction false} DeletePartSteps(db: Db, user: nat, now: nat, id: nat, since: int)
    requires Linked(db) && since < now
    ensures Step(db, DeletePartIn(db, user, now, id), since)
  {
    NothingSteps(db, since);
    if LivePart(db, user, id) {
      PartGone(db, id, now, since);
      RecostSteps(db, WithoutPart(db, id, now), RecordsUsing(db.consumptions, id), now, since);
    }
  }

  lemma {:induction false} CreateStockSteps(db: Db, user: nat, now: nat, id: nat, s: Stock, since: int)
    requires Linked(db) && since < now && id !in db.stocks
    ensures Step(db, CreateStockIn(db, user, now, id, s), since)
  {
    NothingSteps(db, since);
    if LivePart(db, user, s.part) { StockRowSteps(db, id, Inserted(s, now), since); }
  }

  lemma {:induction false} UpdateStockSteps(db: Db, user: nat, now: nat, q: Request, since: int)
    requires Linked(db) && since < now && q.UpdateStock?
    ensures Step(db, UpdateStockIn(db, user, now, q), since)
  {
    NothingSteps(db, since);
    var after := UpdateStockIn(db, user, now, q);
    if after != db { StockRowSteps(db, q.id, after.stocks[q.id], since); }
  }

  lemma {:induction false} DeleteStockSteps(db: Db, user: nat, now: nat, id: nat, since: int)
    requires Linked(db) && since < now
    ensures Step(db, DeleteStockIn(db, user, now, id), since)
  {
    NothingSteps(db, since);
    if LiveStock(db, user, id) { StockRowSteps(db, id, Tombstone(db.stocks[id], now), since); }
  }

  lemma {:induction false} CreateConsumptionSteps(db: Db, user: nat, now: nat, id: nat, c: Consumption, since: int)
    requires Linked(db) && since < now && id !in db.consumptions
    ensures Step(db, CreateConsumptionIn(db, user, now, id, c), since)
  {
    NothingSteps(db, since);
    if LivePart(db, user, c.part) && (c.record.Some? ==> LiveRecord(db, user, c.record.value)) {
      ConsumptionRowSteps(db, id, Inserted(c, now), RecordIds(c.record), now, since);
    }
  }

  lemma {:induction false} UpdateConsumptionSteps(db: Db, user: nat, now: nat, id: nat, n: Option<int>, since: int)
    requires Linked(db) && since < now
    ensures Step(db, UpdateConsumptionIn(db, user, now, id, n), since)
  {
    NothingSteps(db, since);
    if id in db.consumptions {
      var r := db.consumptions[id];
      ConsumptionRowSteps(db, id, Written(r, r.cols.(quantity := n.GetOr(r.cols.quantity)), now),
                          RecordIds(r.cols.record), now, since);
    }
  }

  lemma {:induction false} DeleteConsumptionSteps(db: Db, user: nat, now: nat, id: nat, since: int)
    requires Linked(db) && since < now
    ensures Step(db, DeleteConsumptionIn(db, user, now, id), since)
  {
    NothingSteps(db, since);
    if id in db.consumptions {
      var r := db.consumptions[id];
      ConsumptionRowSteps(db, id, Tombstone(r, now), RecordIds(r.cols.record), now, since);
    }
  }

  lemma {:induction false} DeleteRecordSteps(db: Db, user: nat, now: nat, id: nat, since: int)
    requires Linked(db) && since < now
    ensures Step(db, DeleteRecordIn(db, user, now, id), since)
  {
    if LiveRecord(db, user, id) { RecordGone(db, id, now, since); } else { NothingSteps(db, since); }
  }

  lemma {:induction false} RecordGone(db: Db, id: nat, now: nat, since: int)
    requires Linked(db) && since < now && id in db.records
    ensures Step(db, WithoutRecord(db, id, now), since)
  {
    var a := db.(records := db.records[id := Tombstone(db.records[id], now)]);
    RecordRowSteps(db, id, Tombstone(db.records[id], now), since);
    ConsumptionsTombstonedStep(a, (c: Consumption) => c.record == Some(id), now, since);
    StepsCompose(db, a, WithoutRecord(db, id, now), since);
  }

  predicate Stamps(q: Request) { !q.EraseRecords? && !q.DeletePlace? && !q.MergePlaces? }

  lemma {:induction false} EveryStamperSteps(db: Db, user: nat, now: nat, q: Request, since: int)
    requires Linked(db) && NewId(db, q) && since < now && Stamps(q)
    ensures Step(db, Apply(db, user, now, q), since)
  {
    match q
    case CreateNode(_, _, _, _, _) => CreateNodeSteps(db, user, now, q, since);
    case UpdateNode(_, _, _, _) => UpdateNodeSteps(db, user, now, q, since);
    case DeleteNode(id) => DeleteNodeSteps(db, user, now, id, since);
    case CreatePart(_, _, _, _) => CreatePartSteps(db, user, now, q, since);
    case UpdatePart(_, _, _) => UpdatePartSteps(db, user, now, q, since);
    case DeletePart(id) => DeletePartSteps(db, user, now, id, since);
    case CreateStock(id, s) => CreateStockSteps(db, user, now, id, s, since);
    case UpdateStock(_, _, _, _, _, _) => UpdateStockSteps(db, user, now, q, since);
    case DeleteStock(id) => DeleteStockSteps(db, user, now, id, since);
    case CreateConsumption(id, c) => CreateConsumptionSteps(db, user, now, id, c, since);
    case UpdateConsumption(id, n) => UpdateConsumptionSteps(db, user, now, id, n, since);
    case DeleteConsumption(id) => DeleteConsumptionSteps(db, user, now, id, since);
    case CreateRecord(id) => RecordRowSteps(db, id, Inserted(Record(user, None), now), since);
    case DeleteRecord(id) => DeleteRecordSteps(db, user, now, id, since);
    case CreatePlace(id) => PlaceSteps(db, user, id, since);
  }

  lemma {:induction false} PlaceSteps(db: Db, user: nat, id: nat, since: int)
    requires Linked(db) && id !in db.places
    ensures Step(db, db.(places := db.places[id := user]), since)
  {
    NothingSteps(db, since);
  }

  // ------------------------------------------------------------ the columns not stamped

  function Unplaced(nodes: Table<Node>): Table<Node> {
    map n | n in nodes :: nodes[n].(cols := nodes[n].cols.(place := None))
  }

  function Unbooked(consumptions: Table<Consumption>): Table<Consumption> {
    map c | c in consumptions :: consumptions[c].(cols := consumptions[c].cols.(record := None))
  }

  /** The storage locations whose place a request changes without a stamp. */
  function SilentNodes(db: Db, user: nat, q: Request): set<nat> {
    var places := match q
      case DeletePlace(id) => if Owns(db, user, id) then {id} else {}
      case MergePlaces(canonical, duplicates) =>
        if MayMerge(db, user, canonical, duplicates) then duplicates - {canonical} else {}
      case _ => {};
    set n | n in db.nodes && PlacedIn(db.nodes[n].cols, places)
  }

  /** The consumptions whose record a request clears without a stamp. */
  function SilentUses(db: Db, q: Request): set<nat> {
    if q.EraseRecords?
    then set c | c in db.consumptions && BookedOn(db.consumptions[c].cols, q.gone)
    else {}
  }

  ghost predicate NodesStep(a: Table<Node>, b: Table<Node>, silent: set<nat>, since: int) {
    BumpedBut(a, b, silent, since) && Bumped(Unplaced(a), Unplaced(b), since)
  }

  ghost predicate UsesStep(a: Table<Consumption>, b: Table<Consumption>, silent: set<nat>, since: int) {
    BumpedBut(a, b, silent, since) && Bumped(Unbooked(a), Unbooked(b), since)
  }

  /** What every request does: it stamps what it changes, but for those two columns of those rows. */
  ghost predicate StepBut(a: Db, b: Db, nodes: set<nat>, uses: set<nat>, since: int) {
    && Bumped(a.parts, b.parts, since) && Bumped(a.stocks, b.stocks, since)
    && NodesStep(a.nodes, b.nodes, nodes, since) && UsesStep(a.consumptions, b.consumptions, uses, since)
    && SameOwners(a, b) && Linked(b)
  }

  lemma {:induction false} BumpedNodesStep(a: Table<Node>, b: Table<Node>, since: int)
    requires Bumped(a, b, since)
    ensures NodesStep(a, b, {}, since)
  {}

  lemma {:induction false} BumpedUsesStep(a: Table<Consumption>, b: Table<Consumption>, since: int)
    requires Bumped(a, b, since)
    ensures UsesStep(a, b, {}, since)
  {}

  lemma {:induction false} RelocatedStep(nodes: Table<Node>, places: set<nat>, target: Option<nat>, silent: set<nat>,
                                         since: int)
    requires forall n :: n in nodes && PlacedIn(nodes[n].cols, places) ==> n in silent
    ensures NodesStep(nodes, Relocated(nodes, places, target), silent, since)
  {}

  lemma {:induction false} UnboundStep(consumptions: Table<Consumption>, gone: set<nat>, silent: set<nat>, since: int)
    requires forall c :: c in consumptions && BookedOn(consumptions[c].cols, gone) ==> c in silent
    ensures UsesStep(consumptions, Unbound(consumptions, gone), silent, since)
  {}

  lemma {:induction false} BumpedSelf<T(!new)>(t: Table<T>, since: int)
    ensures Bumped(t, t, since)
  {}

  lemma {:induction false} RelocatedLinks(db: Db, user: nat, gone: set<nat>, target: Option<nat>)
    requires Linked(db) && (forall d :: d in gone ==> Owns(db, user, d))
    requires target.Some? ==> Owns(db, user, target.value) && target.value !in gone
    ensures var after := db.(nodes := Relocated(db.nodes, gone, target), places := db.places - gone);
            SameOwners(db, after) && Linked(after)
  {
    var after := db.(nodes := Relocated(db.nodes, gone, target), places := db.places - gone);
    forall n | n in after.nodes ensures OwnPlace(after, after.nodes[n].cols.user, after.nodes[n].cols.place) {
      assert OwnPlace(db, db.nodes[n].cols.user, db.nodes[n].cols.place);
    }
  }

  lemma {:induction false} PlacesGoneStep(db: Db, user: nat, gone: set<nat>, target: Option<nat>, silent: set<nat>,
                                          since: int)
    requires Linked(db) && (forall d :: d in gone ==> Owns(db, user, d))
    requires target.Some? ==> Owns(db, user, target.value) && target.value !in gone
    requires forall n :: n in db.nodes && PlacedIn(db.nodes[n].cols, gone) ==> n in silent
    ensures StepBut(db, db.(nodes := Relocated(db.nodes, gone, target), places := db.places - gone), silent, {}, since)
  {
    RelocatedLinks(db, user, gone, target);
    RelocatedStep(db.nodes, gone, target, silent, since);
    BumpedSelf(db.consumptions, since);
    BumpedUsesStep(db.consumptions, db.consumptions, since);
  }

  lemma {:induction false} ErasedLinks(db: Db, gone: set<nat>)
    requires Linked(db)
    ensures SameOwners(db, EraseRecordsIn(db, gone)) && Linked(EraseRecordsIn(db, gone))
  {}

  lemma {:induction false} ErasedStep(db: Db, gone: set<nat>, silent: set<nat>, since: int)
    requires Linked(db)
    requires forall c :: c in db.consumptions && BookedOn(db.consumptions[c].cols, gone) ==> c in silent
    ensures StepBut(db, EraseRecordsIn(db, gone), {}, silent, since)
  {
    ErasedLinks(db, gone);
    UnboundStep(db.consumptions, gone, silent, since);
    BumpedSelf(db.nodes, since);
    BumpedNodesStep(db.nodes, db.nodes, since);
  }

  lemma {:induction false} StampedStep(a: Db, b: Db, since: int)
    requires Step(a, b, since)
    ensures StepBut(a, b, {}, {}, since)
  {
    BumpedNodesStep(a.nodes, b.nodes, since);
    BumpedUsesStep(a.consumptions, b.consumptions, since);
  }

  lemma {:induction false} NothingStepsBut(db: Db, nodes: set<nat>, uses: set<nat>, since: int)
    requires Linked(db)
    ensures StepBut(db, db, nodes, uses, since)
  {
    BumpedSelf(db.parts, since);
    BumpedSelf(db.stocks, since);
    BumpedSelf(Unplaced(db.nodes), since);
    BumpedSelf(Unbooked(db.consumptions), since);
  }

  lemma {:induction false} EveryWriterSteps(db: Db, user: nat, now: nat, q: Request, since: int)
    requires Linked(db) && NewId(db, q) && since < now
    ensures StepBut(db, Apply(db, user, now, q), SilentNodes(db, user, q), SilentUses(db, q), since)
  {
    match q
    case EraseRecords(gone) => ErasedStep(db, gone, SilentUses(db, q), since); NobodySilent(db, user, q);
    case DeletePlace(id) => DeletePlaceSteps(db, user, id, since);
    case MergePlaces(canonical, duplicates) => MergePlacesSteps(db, user, canonical, duplicates, since);
    case _ =>
      EveryStamperSteps(db, user, now, q, since);
      StampedStep(db, Apply(db, user, now, q), since);
      NobodySilent(db, user, q);
  }

  lemma {:induction false} NobodySilent(db: Db, user: nat, q: Request)
    requires !q.DeletePlace? && !q.MergePlaces?
    ensures SilentNodes(db, user, q) == {}
  {}

  lemma {:induction false} DeletePlaceSteps(db: Db, user: nat, id: nat, since: int)
    requires Linked(db)
    ensures StepBut(db, DeletePlaceIn(db, user, id), SilentNodes(db, user, DeletePlace(id)), {}, since)
  {
    if Owns(db, user, id) {
      PlacesGoneStep(db, user, {id}, None, SilentNodes(db, user, DeletePlace(id)), since);
    } else {
      NothingStepsBut(db, SilentNodes(db, user, DeletePlace(id)), {}, since);
    }
  }

  lemma {:induction false} MergePlacesSteps(db: Db, user: nat, canonical: nat, duplicates: set<nat>, since: int)
    requires Linked(db)
    ensures StepBut(db, MergePlacesIn(db, user, canonical, duplicates),
                    SilentNodes(db, user, MergePlaces(canonical, duplicates)),
                    {}, since)
  {
    var silent := SilentNodes(db, user, MergePlaces(canonical, duplicates));
    if MayMerge(db, user, canonical, duplicates) {
      PlacesGoneStep(db, user, duplicates - {canonical}, Some(canonical), silent, since);
    } else {
      NothingStepsBut(db, silent, {}, since);
    }
  }

  lemma {:induction false} StepsButCompose(a: Db, b: Db, c: Db, n1: set<nat>, n2: set<nat>, u1: set<nat>, u2: set<nat>,
                                           since: int)
    requires StepBut(a, b, n1, u1, since) && StepBut(b, c, n2, u2, since)
    ensures StepBut(a, c, n1 + n2, u1 + u2, since)
  {
    BumpedTransitive(a.parts, b.parts, c.parts, since);
    BumpedTransitive(a.stocks, b.stocks, c.stocks, since);
    NodesCompose(a.nodes, b.nodes, c.nodes, n1, n2, since);
    UsesCompose(a.consumptions, b.consumptions, c.consumptions, u1, u2, since);
    SameOwnersTransitive(a, b, c);
  }

  lemma {:induction false} SameOwnersTransitive(a: Db, b: Db, c: Db)
    requires SameOwners(a, b) && SameOwners(b, c)
    ensures SameOwners(a, c)
  {}

  lemma {:induction false} NodesCompose(a: Table<Node>, b: Table<Node>, c: Table<Node>, x: set<nat>, y: set<nat>,
                                        since: int)
    requires NodesStep(a, b, x, since) && NodesStep(b, c, y, since)
    ensures NodesStep(a, c, x + y, since)
  {
    BumpedButTransitive(a, b, c, x, y, since);
    BumpedTransitive(Unplaced(a), Unplaced(b), Unplaced(c), since);
  }

  lemma {:induction false} UsesCompose(a: Table<Consumption>, b: Table<Consumption>, c: Table<Consumption>, x: set<nat>,
                                       y: set<nat>, since: int)
    requires UsesStep(a, b, x, since) && UsesStep(b, c, y, since)
    ensures UsesStep(a, c, x + y, since)
  {
    BumpedButTransitive(a, b, c, x, y, since);
    BumpedTransitive(Unbooked(a), Unbooked(b), Unbooked(c), since);
  }

  ghost predicate After(actions: seq<Action>, since: int) { forall i :: 0 <= i < |actions| ==> actions[i].now > since }

  /** The rows some request of the run changed without a stamp. */
  ghost function SilentNodesIn(db: Db, actions: seq<Action>): set<nat>
    decreases |actions|
  {
    if actions == [] then {}
    else
      var a := actions[0];
      SilentNodes(db, a.user, a.request) + SilentNodesIn(Apply(db, a.user, a.now, a.request), actions[1..])
  }

  ghost function SilentUsesIn(db: Db, actions: seq<Action>): set<nat>
    decreases |actions|
  {
    if actions == [] then {}
    else
      var a := actions[0];
      SilentUses(db, a.request) + SilentUsesIn(Apply(db, a.user, a.now, a.request), actions[1..])
  }

  lemma {:induction false} RunsStep(db: Db, actions: seq<Action>, since: int)
    requires Linked(db) && Legal(db, actions) && After(actions, since)
    ensures StepBut(db, Exec(db, actions), SilentNodesIn(db, actions), SilentUsesIn(db, actions), since)
    decreases |actions|
  {
    if actions != [] {
      var a := actions[0];
      EveryWriterSteps(db, a.user, a.now, a.request, since);
      RunsStep(Apply(db, a.user, a.now, a.request), actions[1..], since);
      FirstThenRest(db, actions, since);
    } else {
      NothingStepsBut(db, {}, {}, since);
    }
  }

  lemma {:induction false} FirstThenRest(db: Db, actions: seq<Action>, since: int)
    requires actions != []
    requires var a, rest := actions[0], actions[1..];
             var next := Apply(db, a.user, a.now, a.request);
             && StepBut(db, next, SilentNodes(db, a.user, a.request), SilentUses(db, a.request), since)
             && StepBut(next, Exec(next, rest), SilentNodesIn(next, rest), SilentUsesIn(next, rest), since)
    ensures StepBut(db, Exec(db, actions), SilentNodesIn(db, actions), SilentUsesIn(db, actions), since)
  {
    var a, rest := actions[0], actions[1..];
    var next := Apply(db, a.user, a.now, a.request);
    StepsButCompose(db, next, Exec(next, rest), SilentNodes(db, a.user, a.request), SilentNodesIn(next, rest),
                    SilentUses(db, a.request), SilentUsesIn(next, rest), since);
  }

  lemma {:induction false} UsesKeepStocks(db: Db, user: nat, now: nat, q: Request)
    requires q.CreateConsumption? || q.UpdateConsumption? || q.DeleteConsumption? || q.DeleteRecord?
    ensures Apply(db, user, now, q).stocks == db.stocks
  {}

  // ---------------------------------------------------------------- one user's rows

  function PartsOf(db: Db, user: nat): Table<Part> { map p | p in db.parts && OwnPart(db, user, p) :: db.parts[p] }

  function StocksOf(db: Db, user: nat): Table<Stock> {
    map s | s in db.stocks && OwnPart(db, user, db.stocks[s].cols.part) :: db.stocks[s]
  }

  function ConsumptionsOf(db: Db, user: nat): Table<Consumption> {
    map c | c in db.consumptions && OwnPart(db, user, db.consumptions[c].cols.part) :: db.consumptions[c]
  }

  function NodesOf(db: Db, user: nat): Table<Node> {
    map n | n in db.nodes && db.nodes[n].cols.user == user :: db.nodes[n]
  }

  lemma {:induction false} OwnPartsBump(a: Db, b: Db, user: nat, since: int)
    requires Bumped(a.parts, b.parts, since) && SameOwners(a, b)
    ensures Bumped(PartsOf(a, user), PartsOf(b, user), since)
  {}

  lemma {:induction false} OwnStocksBump(a: Db, b: Db, user: nat, since: int)
    requires Bumped(a.stocks, b.stocks, since) && SameOwners(a, b) && Linked(a)
    ensures Bumped(StocksOf(a, user), StocksOf(b, user), since)
  {}

  lemma {:induction false} OwnNodesStep(a: Db, b: Db, user: nat, nodes: set<nat>, uses: set<nat>, since: int)
    requires StepBut(a, b, nodes, uses, since)
    ensures BumpedBut(NodesOf(a, user), NodesOf(b, user), nodes, since)
    ensures Bumped(Unplaced(NodesOf(a, user)), Unplaced(NodesOf(b, user)), since)
  {
    OwnNodesUnplaced(a, b, user, nodes, since);
  }

  lemma {:induction false} OwnNodesUnplaced(a: Db, b: Db, user: nat, nodes: set<nat>, since: int)
    requires NodesStep(a.nodes, b.nodes, nodes, since) && SameOwners(a, b)
    ensures Bumped(Unplaced(NodesOf(a, user)), Unplaced(NodesOf(b, user)), since)
  {
    var before, after := Unplaced(NodesOf(a, user)), Unplaced(NodesOf(b, user));
    forall n | n in after ensures after[n].updatedAt > since || (n in before && after[n] == before[n]) {
      assert Unplaced(b.nodes)[n] == after[n];
    }
  }

  lemma {:induction false} OwnUsesStep(a: Db, b: Db, user: nat, nodes: set<nat>, uses: set<nat>, since: int)
    requires StepBut(a, b, nodes, uses, since) && Linked(a)
    ensures BumpedBut(ConsumptionsOf(a, user), ConsumptionsOf(b, user), uses, since)
    ensures Bumped(Unbooked(ConsumptionsOf(a, user)), Unbooked(ConsumptionsOf(b, user)), since)
  {
    OwnUsesBut(a, b, user, uses, since);
    OwnUsesUnbooked(a, b, user, uses, since);
  }

  lemma {:induction false} OwnUsesBut(a: Db, b: Db, user: nat, uses: set<nat>, since: int)
    requires UsesStep(a.consumptions, b.consumptions, uses, since) && SameOwners(a, b) && Linked(a)
    ensures BumpedBut(ConsumptionsOf(a, user), ConsumptionsOf(b, user), uses, since)
  {}

  lemma {:induction false} OwnUsesUnbooked(a: Db, b: Db, user: nat, uses: set<nat>, since: int)
    requires UsesStep(a.consumptions, b.consumptions, uses, since) && SameOwners(a, b) && Linked(a)
    ensures Bumped(Unbooked(ConsumptionsOf(a, user)), Unbooked(ConsumptionsOf(b, user)), since)
  {
    var before, after := Unbooked(ConsumptionsOf(a, user)), Unbooked(ConsumptionsOf(b, user));
    forall c | c in after ensures after[c].updatedAt > since || (c in before && after[c] == before[c]) {
      assert Unbooked(b.consumptions)[c] == after[c];
    }
  }

  /**
    A client that took the listings at time `since` and merges one pull of each, after any
    run of later requests by any users, holds the present parts and stock, and the present
    storage locations and consumptions but for two columns.
  */
  lemma {:induction false} PullsAreExact(db: Db, actions: seq<Action>, user: nat, since: int)
    requires Linked(db) && Legal(db, actions) && After(actions, since)
    ensures PullGives(PartsOf(db, user), PartsOf(Exec(db, actions), user), since)
    ensures PullGives(StocksOf(db, user), StocksOf(Exec(db, actions), user), since)
    ensures PullGives(Unplaced(NodesOf(db, user)), Unplaced(NodesOf(Exec(db, actions), user)), since)
    ensures PullGives(Unbooked(ConsumptionsOf(db, user)), Unbooked(ConsumptionsOf(Exec(db, actions), user)), since)
  {
    var after, nodes, uses := Exec(db, actions), SilentNodesIn(db, actions), SilentUsesIn(db, actions);
    RunsStep(db, actions, since);
    OwnPartsBump(db, after, user, since);
    OwnStocksBump(db, after, user, since);
    OwnNodesStep(db, after, user, nodes, uses, since);
    OwnUsesStep(db, after, user, nodes, uses, since);
    BumpedPull(PartsOf(db, user), PartsOf(after, user), since);
    BumpedPull(StocksOf(db, user), StocksOf(after, user), since);
    BumpedPull(Unplaced(NodesOf(db, user)), Unplaced(NodesOf(after, user)), since);
    BumpedPull(Unbooked(ConsumptionsOf(db, user)), Unbooked(ConsumptionsOf(after, user)), since);
  }

  /**
    With those columns the pull of storage locations is exact if and only if every location
    whose place was deleted or merged away in the run was stamped later than the cursor by
    some request, or is not listed, or is back where it was.
  */
  lemma {:induction false} NodePullIsExactWhen(db: Db, actions: seq<Action>, user: nat, since: int)
    requires Linked(db) && Legal(db, actions) && After(actions, since)
    ensures var before, after := NodesOf(db, user), NodesOf(Exec(db, actions), user);
            (PullGives(before, after, since)
        <==> forall n :: n in SilentNodesIn(db, actions) && n in after ==> Caught(before, after, since, n))
  {
    var after, nodes, uses := Exec(db, actions), SilentNodesIn(db, actions), SilentUsesIn(db, actions);
    RunsStep(db, actions, since);
    OwnNodesStep(db, after, user, nodes, uses, since);
    PullExactBut(NodesOf(db, user), NodesOf(after, user), nodes, since);
  }

  /** And the pull of consumptions, for those whose maintenance record was hard-deleted. */
  lemma {:induction false} ConsumptionPullIsExactWhen(db: Db, actions: seq<Action>, user: nat, since: int)
    requires Linked(db) && Legal(db, actions) && After(actions, since)
    ensures var before, after := ConsumptionsOf(db, user), ConsumptionsOf(Exec(db, actions), user);
            (PullGives(before, after, since)
        <==> forall c :: c in SilentUsesIn(db, actions) && c in after ==> Caught(before, after, since, c))
  {
    var after, nodes, uses := Exec(db, actions), SilentNodesIn(db, actions), SilentUsesIn(db, actions);
    RunsStep(db, actions, since);
    OwnUsesStep(db, after, user, nodes, uses, since);
    PullExactBut(ConsumptionsOf(db, user), ConsumptionsOf(after, user), uses, since);
  }

  // ------------------------------------------------------- one request that does not stamp

  /** What one deleted or merged place does to a client that was up to date: it misses the live locations there. */
  lemma {:induction false} RelocationIsNotPulled(nodes: Table<Node>, places: set<nat>, target: Option<nat>, since: int)
    requires target.Some? ==> target.value !in places
    ensures PullGives(nodes, Relocated(nodes, places, target), since)
       <==> forall n :: n in nodes && nodes[n].Live() && PlacedIn(nodes[n].cols, places) ==> nodes[n].updatedAt > since
  {
    var after := Relocated(nodes, places, target);
    PullIsExactWhenStamped(nodes, after, since);
    forall n | n in nodes
      ensures View(after, n) == View(nodes, n) <==> !(nodes[n].Live() && PlacedIn(nodes[n].cols, places))
    {
      if PlacedIn(nodes[n].cols, places) { assert after[n].cols.place == target; }
    }
  }

  /** And what a hard-deleted record does: the client keeps consumptions booked on it. */
  lemma {:induction false} ErasureIsNotPulled(consumptions: Table<Consumption>, gone: set<nat>, since: int)
    ensures PullGives(consumptions, Unbound(consumptions, gone), since)
       <==> forall c :: c in consumptions && consumptions[c].Live() && BookedOn(consumptions[c].cols, gone)
              ==> consumptions[c].updatedAt > since
  {
    var after := Unbound(consumptions, gone);
    PullIsExactWhenStamped(consumptions, after, since);
    forall c | c in consumptions
      ensures View(after, c) == View(consumptions, c)
         <==> !(consumptions[c].Live() && BookedOn(consumptions[c].cols, gone))
    {
      if BookedOn(consumptions[c].cols, gone) { assert after[c].cols.record == None; }
    }
  }

  /** The smallest case: the shelf in a garage that was deleted stays in the garage on the client. */
  lemma {:induction false} DeletedPlaceStays(name: string)
    ensures var nodes: Table<Node> := map[0 := Inserted(Node(1, name, None, Some(7), None), 0)];
            !PullGives(nodes, Relocated(nodes, {7}, None), 0)
  {
    var nodes: Table<Node> := map[0 := Inserted(Node(1, name, None, Some(7), None), 0)];
    RelocationIsNotPulled(nodes, {7}, None, 0);
    assert nodes[0].Live() && PlacedIn(nodes[0].cols, {7});
  }
}
