/**
  Parts, stock, consumption and storage: the tables, and what each handler makes of
  them.  A rejected request leaves every table as it was.
*/
module Inventory {
  import opened Options
  import opened Sums
  import opened SyncTables
  import opened ParentGraph
  import RealSums

  datatype Part = Part(user: nat, number: string, name: string, client: Option<string>)

  /** `price` is the price of the whole batch, in `currency`; `normalized` the same in the base currency. */
  datatype Stock = Stock(part: nat, quantity: int, price: Option<real>, currency: Option<string>,
                         normalized: Option<real>, storage: Option<nat>, client: Option<string>)

  datatype Consumption = Consumption(part: nat, record: Option<nat>, quantity: int, client: Option<string>)

  datatype Node = Node(user: nat, name: string, parent: Option<nat>, place: Option<nat>, client: Option<string>)

  /** A maintenance record, as far as the parts ledger is concerned. */
  datatype Record = Record(user: nat, partsCost: Option<real>)

  datatype Db = Db(parts: Table<Part>, stocks: Table<Stock>, consumptions: Table<Consumption>, nodes: Table<Node>,
                   records: Table<Record>, places: map<nat, nat>, factors: map<string, real>)

  datatype Request =
    | CreateNode(id: nat, name: string, parent: Option<nat>, place: Option<nat>, client: Option<string>)
    | UpdateNode(id: nat, newName: Option<string>, newParent: Option<Option<nat>>, newPlace: Option<Option<nat>>)
    | DeleteNode(id: nat)
    | CreatePart(id: nat, number: string, name: string, client: Option<string>)
    | UpdatePart(id: nat, newNumber: Option<string>, newName: Option<string>)
    | DeletePart(id: nat)
    | CreateStock(id: nat, stock: Stock)
    | UpdateStock(id: nat, newQuantity: Option<int>, price: Option<real>, currency: Option<string>,
                  normalized: Option<real>, storage: Option<nat>)
    | DeleteStock(id: nat)
    | CreateConsumption(id: nat, used: Consumption)
    | UpdateConsumption(id: nat, newQuantity: Option<int>)
    | DeleteConsumption(id: nat)
    | CreateRecord(id: nat)
    | DeleteRecord(id: nat)
    | EraseRecords(gone: set<nat>)
    | CreatePlace(id: nat)
    | DeletePlace(id: nat)
    | MergePlaces(canonical: nat, duplicates: set<nat>)

  // ------------------------------------------------------------ what is asked of the tables

  predicate OwnPart(db: Db, user: nat, id: nat) { id in db.parts && db.parts[id].cols.user == user }

  predicate LivePart(db: Db, user: nat, id: nat) { OwnPart(db, user, id) && db.parts[id].Live() }

  predicate LiveNode(nodes: Table<Node>, user: nat, id: nat) {
    id in nodes && nodes[id].cols.user == user && nodes[id].Live()
  }

  predicate LiveStock(db: Db, user: nat, id: nat) {
    id in db.stocks && db.stocks[id].Live() && OwnPart(db, user, db.stocks[id].cols.part)
  }

  predicate LiveConsumption(db: Db, user: nat, id: nat) {
    id in db.consumptions && db.consumptions[id].Live() && OwnPart(db, user, db.consumptions[id].cols.part)
  }

  predicate LiveRecord(db: Db, user: nat, id: nat) {
    id in db.records && db.records[id].Live() && db.records[id].cols.user == user
  }

  predicate Owns(db: Db, user: nat, place: nat) { place in db.places && db.places[place] == user }

  predicate OwnPlace(db: Db, user: nat, place: Option<nat>) { place.Some? ==> Owns(db, user, place.value) }

  /**
    Idempotency: the client's key is already on a row of this user, tombstones included, and
    that row is the answer.  The index on the keys spans all users, so a key on another
    user's row makes the insert fail.
  */
  predicate SeenNode(db: Db, user: nat, client: Option<string>) {
    client.Some? && exists n :: n in db.nodes && db.nodes[n].cols.client == client && db.nodes[n].cols.user == user
  }

  predicate TakenNode(db: Db, client: Option<string>) {
    client.Some? && exists n :: n in db.nodes && db.nodes[n].cols.client == client
  }

  predicate SeenPart(db: Db, user: nat, client: Option<string>) {
    client.Some? && exists p :: p in db.parts && db.parts[p].cols.client == client && db.parts[p].cols.user == user
  }

  predicate TakenPart(db: Db, client: Option<string>) {
    client.Some? && exists p :: p in db.parts && db.parts[p].cols.client == client
  }

  predicate SeenStock(db: Db, user: nat, client: Option<string>) {
    client.Some? && exists s :: s in db.stocks && db.stocks[s].cols.client == client
                                && OwnPart(db, user, db.stocks[s].cols.part)
  }

  predicate TakenStock(db: Db, client: Option<string>) {
    client.Some? && exists s :: s in db.stocks && db.stocks[s].cols.client == client
  }

  predicate SeenConsumption(db: Db, user: nat, client: Option<string>) {
    client.Some? && exists c :: c in db.consumptions && db.consumptions[c].cols.client == client
                                && OwnPart(db, user, db.consumptions[c].cols.part)
  }

  predicate TakenConsumption(db: Db, client: Option<string>) {
    client.Some? && exists c :: c in db.consumptions && db.consumptions[c].cols.client == client
  }

  predicate SameIdentity(part: Part, number: string, name: string) { part.number == number && part.name == name }

  /** Another live part of the user has this number and name. */
  predicate Duplicate(db: Db, user: nat, number: string, name: string, except: Option<nat>) {
    exists p :: p in db.parts && LivePart(db, user, p) && SameIdentity(db.parts[p].cols, number, name)
                && except != Some(p)
  }

  // ------------------------------------------------------------------------- on hand and cost

  datatype Entry = Entry(part: nat, quantity: int)

  function StockEntries(stocks: Table<Stock>): map<nat, Entry> {
    map s | s in stocks && stocks[s].Live() :: Entry(stocks[s].cols.part, stocks[s].cols.quantity)
  }

  function ConsumptionEntries(consumptions: Table<Consumption>): map<nat, Entry> {
    map c | c in consumptions && consumptions[c].Live()
      :: Entry(consumptions[c].cols.part, consumptions[c].cols.quantity)
  }

  function QuantitiesOf(entries: map<nat, Entry>, part: nat): map<nat, int> {
    map e | e in entries && entries[e].part == part :: entries[e].quantity
  }

  ghost function Quantity(entries: map<nat, Entry>, part: nat): int { MapSum(QuantitiesOf(entries, part)) }

  /** What the live rows of both tables leave of a part. */
  ghost function OnHand(db: Db, part: nat): int {
    Quantity(StockEntries(db.stocks), part) - Quantity(ConsumptionEntries(db.consumptions), part)
  }

  lemma {:induction false} QuantitiesOfUpdate(entries: map<nat, Entry>, id: nat, e: Entry, part: nat)
    ensures QuantitiesOf(entries[id := e], part)
         == if e.part == part then QuantitiesOf(entries, part)[id := e.quantity] else QuantitiesOf(entries - {id}, part)
  {}

  function Counted(entries: map<nat, Entry>, id: nat, part: nat): int {
    if id in entries && entries[id].part == part then entries[id].quantity else 0
  }

  /** Adding or changing one entry moves the quantity by that entry alone. */
  lemma {:induction false} QuantityOfUpdate(entries: map<nat, Entry>, id: nat, e: Entry, part: nat)
    ensures Quantity(entries[id := e], part)
         == Quantity(entries, part) - Counted(entries, id, part) + if e.part == part then e.quantity else 0
  {
    QuantitiesOfUpdate(entries, id, e, part);
    QuantityWithout(entries, id, part);
    SumOfUpdate(QuantitiesOf(entries, part), id, e.quantity);
  }

  lemma {:induction false} QuantitiesWithout(entries: map<nat, Entry>, id: nat, part: nat)
    ensures QuantitiesOf(entries - {id}, part) == QuantitiesOf(entries, part) - {id}
  {}

  lemma {:induction false} QuantityWithout(entries: map<nat, Entry>, id: nat, part: nat)
    ensures Quantity(entries - {id}, part) == Quantity(entries, part) - Counted(entries, id, part)
  {
    var q := QuantitiesOf(entries, part);
    QuantitiesWithout(entries, id, part);
    if id in q { SumWithout(q, id); } else { assert q - {id} == q; }
  }

  lemma {:induction false} StockEntriesOfWrite(stocks: Table<Stock>, id: nat, r: Row<Stock>)
    ensures StockEntries(stocks[id := r])
         == if r.Live() then StockEntries(stocks)[id := Entry(r.cols.part, r.cols.quantity)]
            else StockEntries(stocks) - {id}
  {}

  lemma {:induction false} ConsumptionEntriesOfWrite(consumptions: Table<Consumption>, id: nat, r: Row<Consumption>)
    ensures ConsumptionEntries(consumptions[id := r])
         == if r.Live() then ConsumptionEntries(consumptions)[id := Entry(r.cols.part, r.cols.quantity)]
            else ConsumptionEntries(consumptions) - {id}
  {}

  function Worth(s: Stock, factors: map<string, real>): real {
    if s.normalized.Some? then s.normalized.value
    else if s.price.None? then 0.0
    else s.price.value * (if s.currency.Some? && s.currency.value in factors then factors[s.currency.value] else 1.0)
  }

  function WorthOf(stocks: Table<Stock>, factors: map<string, real>, part: nat): map<nat, real> {
    map s | s in stocks && stocks[s].Live() && stocks[s].cols.part == part :: Worth(stocks[s].cols, factors)
  }

  /** What one piece cost on average; nothing to say without live stock. */
  ghost function UnitPrice(stocks: Table<Stock>, factors: map<string, real>, part: nat): Option<real> {
    var quantity := Quantity(StockEntries(stocks), part);
    if quantity <= 0 then None else Some(RealSums.Sum(WorthOf(stocks, factors, part)) / quantity as real)
  }

  /** The live consumptions booked on a record. */
  function UsedEntries(consumptions: Table<Consumption>, record: nat): map<nat, Entry> {
    map c | c in consumptions && consumptions[c].Live() && consumptions[c].cols.record == Some(record)
      :: Entry(consumptions[c].cols.part, consumptions[c].cols.quantity)
  }

  function PartsIn(entries: map<nat, Entry>): set<nat> { set e | e in entries :: entries[e].part }

  ghost function Prices(stocks: Table<Stock>, factors: map<string, real>, parts: set<nat>): map<nat, real> {
    map p | p in parts :: UnitPrice(stocks, factors, p).GetOr(0.0)
  }

  function Times(price: real, quantity: int): real { price * quantity as real }

  lemma {:induction false} TimesAdds(price: real, a: int, b: int)
    ensures Times(price, a + b) == Times(price, a) + Times(price, b)
  {}

  function Priced(prices: map<nat, real>, entries: map<nat, Entry>): map<nat, real> {
    map e | e in entries :: Times(RealSums.At(prices, entries[e].part), entries[e].quantity)
  }

  /** The cost of some consumptions, row by row; nothing, rather than zero, without any. */
  ghost function CostOf(stocks: Table<Stock>, factors: map<string, real>, used: map<nat, Entry>): Option<real> {
    if used == map[] then None else Some(RealSums.Sum(Priced(Prices(stocks, factors, PartsIn(used)), used)))
  }

  ghost function Cost(db: Db, record: nat): Option<real> {
    CostOf(db.stocks, db.factors, UsedEntries(db.consumptions, record))
  }

  ghost predicate Uses(consumptions: Table<Consumption>, record: nat, c: nat) {
    c in consumptions && consumptions[c].Live() && consumptions[c].cols.record == Some(record)
  }

  ghost predicate Unused(consumptions: Table<Consumption>, record: nat) {
    forall c :: c in consumptions ==> !Uses(consumptions, record, c)
  }

  lemma {:induction false} UnusedIsEmpty(consumptions: Table<Consumption>, record: nat)
    ensures Unused(consumptions, record) <==> UsedEntries(consumptions, record) == map[]
  {
    if !Unused(consumptions, record) {
      var c :| c in consumptions && Uses(consumptions, record, c);
      assert c in UsedEntries(consumptions, record);
    }
  }

  /** `recalculate_parts_cost` for each of the records; rows whose value stands are not touched. */
  ghost function Recosted(db: Db, ids: set<nat>, now: nat): Db {
    db.(records := map r | r in db.records ::
          if r in ids && db.records[r].cols.partsCost != Cost(db, r)
          then Written(db.records[r], db.records[r].cols.(partsCost := Cost(db, r)), now) else db.records[r])
  }

  // ----------------------------------------------------------------------------- storage nodes

  const MAX_HIERARCHY_DEPTH: nat := 50

  function ParentsOf(nodes: Table<Node>): Parents { map n | n in nodes :: nodes[n].cols.parent }

  /** The walk of `verify_no_cycle`: up from `current` without meeting `id`, within the cap. */
  function ChainClear(g: Parents, id: nat, current: Option<nat>, steps: nat): bool
    decreases steps
  {
    steps > 0 && (current.None? || (current.value != id && ChainClear(g, id, ParentOf(g, current.value), steps - 1)))
  }

  /** Under a live node of the user, or on top, where it may have a place of the user. */
  predicate MayHang(db: Db, user: nat, parent: Option<nat>, place: Option<nat>) {
    && (parent.Some? ==> LiveNode(db.nodes, user, parent.value) && place.None?)
    && OwnPlace(db, user, place)
  }

  function CreateNodeIn(db: Db, user: nat, now: nat, q: Request): Db
    requires q.CreateNode?
  {
    if q.name == "" || TakenNode(db, q.client) || !MayHang(db, user, q.parent, q.place) then db
    else db.(nodes := db.nodes[q.id := Inserted(Node(user, q.name, q.parent, q.place, q.client), now)])
  }

  /** The cap on the walk bounds how deep the new parent may lie. */
  predicate MayMove(db: Db, user: nat, id: nat, parent: nat) {
    LiveNode(db.nodes, user, parent) && ChainClear(ParentsOf(db.nodes), id, Some(parent), MAX_HIERARCHY_DEPTH)
  }

  predicate MayUpdateNode(db: Db, user: nat, q: Request)
    requires q.UpdateNode? && q.id in db.nodes
  {
    && (q.newParent.Some? && q.newParent.value.Some? ==> MayMove(db, user, q.id, q.newParent.value.value))
    && (q.newPlace.Some? && q.newPlace.value.Some? ==>
          q.newParent.GetOr(db.nodes[q.id].cols.parent).None? && OwnPlace(db, user, q.newPlace.value))
  }

  function UpdateNodeIn(db: Db, user: nat, now: nat, q: Request): Db
    requires q.UpdateNode?
  {
    if !LiveNode(db.nodes, user, q.id) || !MayUpdateNode(db, user, q) then db
    else
      var row := db.nodes[q.id].cols;
      var parent := q.newParent.GetOr(row.parent);
      var place := if parent.Some? then None else q.newPlace.GetOr(row.place);
      var changed := row.(name := q.newName.GetOr(row.name), parent := parent, place := place);
      db.(nodes := db.nodes[q.id := Written(db.nodes[q.id], changed, now)])
  }

  function NodesWithout(nodes: Table<Node>, id: nat, now: nat): Table<Node>
    requires id in nodes
  {
    var gone := nodes[id := Tombstone(nodes[id], now)];
    UpdateWhere(gone, (c: Node) => c.parent == Some(id), (c: Node) => c.(parent := nodes[id].cols.parent), now)
  }

  function DeleteNodeIn(db: Db, user: nat, now: nat, id: nat): Db {
    if !LiveNode(db.nodes, user, id) then db
    else db.(nodes := NodesWithout(db.nodes, id, now),
             stocks := UpdateWhere(db.stocks, (s: Stock) => s.storage == Some(id), (s: Stock) => s.(storage := None),
                                   now))
  }

  // ------------------------------------------------------------------------- parts and stock

  function CreatePartIn(db: Db, user: nat, now: nat, q: Request): Db
    requires q.CreatePart?
  {
    if q.number == "" || q.name == "" || TakenPart(db, q.client) || Duplicate(db, user, q.number, q.name, None) then db
    else db.(parts := db.parts[q.id := Inserted(Part(user, q.number, q.name, q.client), now)])
  }

  function UpdatePartIn(db: Db, user: nat, now: nat, q: Request): Db
    requires q.UpdatePart?
  {
    if !LivePart(db, user, q.id) then db
    else
      var row := db.parts[q.id].cols;
      var number, name := q.newNumber.GetOr(row.number), q.newName.GetOr(row.name);
      if Duplicate(db, user, number, name, Some(q.id)) then db
      else db.(parts := db.parts[q.id := Written(db.parts[q.id], row.(number := number, name := name), now)])
  }

  /** The records with live consumption of a part. */
  function RecordsUsing(consumptions: Table<Consumption>, part: nat): set<nat> {
    set c | c in consumptions && consumptions[c].Live() && consumptions[c].cols.part == part
            && consumptions[c].cols.record.Some?
      :: consumptions[c].cols.record.value
  }

  function WithoutPart(db: Db, id: nat, now: nat): Db
    requires id in db.parts
  {
    db.(parts := db.parts[id := Tombstone(db.parts[id], now)],
        stocks := TombstoneWhere(db.stocks, (s: Stock) => s.part == id, now),
        consumptions := TombstoneWhere(db.consumptions, (c: Consumption) => c.part == id, now))
  }

  ghost function DeletePartIn(db: Db, user: nat, now: nat, id: nat): Db {
    if !LivePart(db, user, id) then db else Recosted(WithoutPart(db, id, now), RecordsUsing(db.consumptions, id), now)
  }

  predicate MayStock(db: Db, user: nat, s: Stock) {
    && LivePart(db, user, s.part) && s.quantity >= 1
    && (s.storage.Some? ==> LiveNode(db.nodes, user, s.storage.value)) && !TakenStock(db, s.client)
  }

  function CreateStockIn(db: Db, user: nat, now: nat, id: nat, s: Stock): Db {
    if MayStock(db, user, s) then db.(stocks := db.stocks[id := Inserted(s, now)]) else db
  }

  predicate MayRestock(db: Db, user: nat, q: Request)
    requires q.UpdateStock?
  {
    && LiveStock(db, user, q.id) && q.newQuantity.GetOr(db.stocks[q.id].cols.quantity) >= 1
    && (q.storage.Some? ==> LiveNode(db.nodes, user, q.storage.value))
  }

  function UpdateStockIn(db: Db, user: nat, now: nat, q: Request): Db
    requires q.UpdateStock?
  {
    if !MayRestock(db, user, q) then db
    else
      var row := db.stocks[q.id].cols;
      var changed := row.(quantity := q.newQuantity.GetOr(row.quantity), price := q.price.Or(row.price),
                          currency := q.currency.Or(row.currency), normalized := q.normalized.Or(row.normalized),
                          storage := q.storage.Or(row.storage));
      db.(stocks := db.stocks[q.id := Written(db.stocks[q.id], changed, now)])
  }

  function DeleteStockIn(db: Db, user: nat, now: nat, id: nat): Db {
    if !LiveStock(db, user, id) then db else db.(stocks := db.stocks[id := Tombstone(db.stocks[id], now)])
  }

  // ------------------------------------------------------------------------------ consumption

  function RecordIds(record: Option<nat>): set<nat> { if record.Some? then {record.value} else {} }

  ghost predicate MayConsume(db: Db, user: nat, c: Consumption) {
    && LivePart(db, user, c.part) && c.quantity >= 1 && (c.record.Some? ==> LiveRecord(db, user, c.record.value))
    && !TakenConsumption(db, c.client) && c.quantity <= OnHand(db, c.part)
  }

  ghost function CreateConsumptionIn(db: Db, user: nat, now: nat, id: nat, c: Consumption): Db {
    if !MayConsume(db, user, c) then db
    else Recosted(db.(consumptions := db.consumptions[id := Inserted(c, now)]), RecordIds(c.record), now)
  }

  /** Only an increase must be covered: the present quantity is already counted. */
  ghost predicate MayReconsume(db: Db, user: nat, id: nat, newQuantity: Option<int>) {
    && LiveConsumption(db, user, id)
    && var row := db.consumptions[id].cols;
       var quantity := newQuantity.GetOr(row.quantity);
       quantity >= 1 && (quantity > row.quantity ==> quantity - row.quantity <= OnHand(db, row.part))
  }

  ghost function UpdateConsumptionIn(db: Db, user: nat, now: nat, id: nat, newQuantity: Option<int>): Db {
    if !MayReconsume(db, user, id, newQuantity) then db
    else
      var row := db.consumptions[id].cols;
      var changed := row.(quantity := newQuantity.GetOr(row.quantity));
      Recosted(db.(consumptions := db.consumptions[id := Written(db.consumptions[id], changed, now)]),
               RecordIds(row.record), now)
  }

  ghost function DeleteConsumptionIn(db: Db, user: nat, now: nat, id: nat): Db {
    if !LiveConsumption(db, user, id) then db
    else Recosted(db.(consumptions := db.consumptions[id := Tombstone(db.consumptions[id], now)]),
                  RecordIds(db.consumptions[id].cols.record), now)
  }

  // ------------------------------------------------------------------------------ the records

  function CreateRecordIn(db: Db, user: nat, now: nat, id: nat): Db {
    db.(records := db.records[id := Inserted(Record(user, None), now)])
  }

  function WithoutRecord(db: Db, id: nat, now: nat): Db
    requires id in db.records
  {
    db.(records := db.records[id := Tombstone(db.records[id], now)],
        consumptions := TombstoneWhere(db.consumptions, (c: Consumption) => c.record == Some(id), now))
  }

  function DeleteRecordIn(db: Db, user: nat, now: nat, id: nat): Db {
    if !LiveRecord(db, user, id) then db else WithoutRecord(db, id, now)
  }

  predicate BookedOn(c: Consumption, records: set<nat>) { c.record.Some? && c.record.value in records }

  /**
    Hard deletes, of bundled items or of a whole motorcycle: the foreign key clears the reference
    and stamps nothing.
  */
  function Unbound(consumptions: Table<Consumption>, gone: set<nat>): Table<Consumption> {
    map c | c in consumptions ::
      if BookedOn(consumptions[c].cols, gone) then consumptions[c].(cols := consumptions[c].cols.(record := None))
      else consumptions[c]
  }

  function EraseRecordsIn(db: Db, gone: set<nat>): Db {
    db.(records := db.records - gone, consumptions := Unbound(db.consumptions, gone))
  }

  // -------------------------------------------------------------------------------- the places

  predicate PlacedIn(c: Node, places: set<nat>) { c.place.Some? && c.place.value in places }

  /** Every node at one of some places, tombstones included, is pointed elsewhere or nowhere, and none is stamped. */
  function Relocated(nodes: Table<Node>, places: set<nat>, target: Option<nat>): Table<Node> {
    map n | n in nodes ::
      if PlacedIn(nodes[n].cols, places) then nodes[n].(cols := nodes[n].cols.(place := target)) else nodes[n]
  }

  function DeletePlaceIn(db: Db, user: nat, id: nat): Db {
    if !Owns(db, user, id) then db else db.(nodes := Relocated(db.nodes, {id}, None), places := db.places - {id})
  }

  predicate MayMerge(db: Db, user: nat, canonical: nat, duplicates: set<nat>) {
    duplicates - {canonical} != {} && Owns(db, user, canonical) && forall d :: d in duplicates ==> Owns(db, user, d)
  }

  function MergePlacesIn(db: Db, user: nat, canonical: nat, duplicates: set<nat>): Db {
    if !MayMerge(db, user, canonical, duplicates) then db
    else db.(nodes := Relocated(db.nodes, duplicates - {canonical}, Some(canonical)),
             places := db.places - (duplicates - {canonical}))
  }

  ghost function Apply(db: Db, user: nat, now: nat, q: Request): Db {
    match q
    case CreateNode(_, _, _, _, _) => CreateNodeIn(db, user, now, q)
    case UpdateNode(_, _, _, _) => UpdateNodeIn(db, user, now, q)
    case DeleteNode(id) => DeleteNodeIn(db, user, now, id)
    case CreatePart(_, _, _, _) => CreatePartIn(db, user, now, q)
    case UpdatePart(_, _, _) => UpdatePartIn(db, user, now, q)
    case DeletePart(id) => DeletePartIn(db, user, now, id)
    case CreateStock(id, s) => CreateStockIn(db, user, now, id, s)
    case UpdateStock(_, _, _, _, _, _) => UpdateStockIn(db, user, now, q)
    case DeleteStock(id) => DeleteStockIn(db, user, now, id)
    case CreateConsumption(id, c) => CreateConsumptionIn(db, user, now, id, c)
    case UpdateConsumption(id, n) => UpdateConsumptionIn(db, user, now, id, n)
    case DeleteConsumption(id) => DeleteConsumptionIn(db, user, now, id)
    case CreateRecord(id) => CreateRecordIn(db, user, now, id)
    case DeleteRecord(id) => DeleteRecordIn(db, user, now, id)
    case EraseRecords(gone) => EraseRecordsIn(db, gone)
    case CreatePlace(id) => db.(places := db.places[id := user])
    case DeletePlace(id) => DeletePlaceIn(db, user, id)
    case MergePlaces(canonical, duplicates) => MergePlacesIn(db, user, canonical, duplicates)
  }

  /** Ids of new rows are never reused. */
  ghost predicate NewId(db: Db, q: Request) {
    match q
    case CreateNode(id, _, _, _, _) => id !in db.nodes
    case CreatePart(id, _, _, _) => id !in db.parts
    case CreateStock(id, _) => id !in db.stocks
    case CreateConsumption(id, _) => id !in db.consumptions
    case CreateRecord(id) => id !in db.records
    case CreatePlace(id) => id !in db.places
    case _ => true
  }

  datatype Action = Action(user: nat, now: nat, request: Request)

  ghost predicate Legal(db: Db, actions: seq<Action>)
    decreases |actions|
  {
    actions != [] ==>
      && NewId(db, actions[0].request)
      && Legal(Apply(db, actions[0].user, actions[0].now, actions[0].request), actions[1..])
  }

  ghost function Exec(db: Db, actions: seq<Action>): Db
    decreases |actions|
  {
    if actions == [] then db
    else Exec(Apply(db, actions[0].user, actions[0].now, actions[0].request), actions[1..])
  }
}
