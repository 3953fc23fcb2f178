/** What holds of the inventory tables between any two requests, and what a request means for its caller. */
module InventoryRules {
  import opened Options
  import opened ParentGraph
  import opened SyncTables
  import opened Inventory
  import opened InventorySync
  import opened StorageTree
  import opened PartsLedger
  import opened PartsCost
  import opened Isolation

  /** No two live parts of a user have the same number and name. */
  ghost predicate PartsDistinct(db: Db) {
    forall p, q :: p in db.parts && q in db.parts && SamePart(db.parts[p], db.parts[q]) ==> p == q
  }

  predicate SamePart(a: Row<Part>, b: Row<Part>) {
    a.Live() && b.Live() && a.cols.user == b.cols.user && SameIdentity(a.cols, b.cols.number, b.cols.name)
  }

  /** Another live part of the user goes by this number and this name. */
  ghost predicate IdentityTaken(db: Db, user: nat, number: string, name: string, except: Option<nat>) {
    exists p :: p in db.parts && except != Some(p) && db.parts[p].Live() && db.parts[p].cols.user == user
                && db.parts[p].cols.number == number && db.parts[p].cols.name == name
  }

  ghost predicate TablesOk(db: Db) {
    TreeOk(db) && Linked(db) && Owned(db) && CostsOk(db) && Positive(db) && PartsDistinct(db)
  }

  lemma {:induction false} PartWriteKeepsDistinct(db: Db, user: nat, id: nat, r: Row<Part>)
    requires PartsDistinct(db) && r.cols.user == user && (id in db.parts ==> db.parts[id].cols.user == user)
    requires !Duplicate(db, user, r.cols.number, r.cols.name, Some(id))
    ensures PartsDistinct(db.(parts := db.parts[id := r]))
  {
    var after := db.parts[id := r];
    forall p | p in after && p != id ensures !SamePart(after[p], r) && !SamePart(r, after[p]) {
      assert p in db.parts && after[p] == db.parts[p];
    }
  }

  lemma {:induction false} CreatePartKeepsDistinct(db: Db, user: nat, now: nat, q: Request)
    requires PartsDistinct(db) && q.CreatePart? && q.id !in db.parts
    ensures PartsDistinct(CreatePartIn(db, user, now, q))
  {
    if !Duplicate(db, user, q.number, q.name, None) {
      assert !Duplicate(db, user, q.number, q.name, Some(q.id));
      PartWriteKeepsDistinct(db, user, q.id, Inserted(Part(user, q.number, q.name, q.client), now));
    }
  }

  lemma {:induction false} UpdatePartKeepsDistinct(db: Db, user: nat, now: nat, q: Request)
    requires PartsDistinct(db) && q.UpdatePart?
    ensures PartsDistinct(UpdatePartIn(db, user, now, q))
  {
    if LivePart(db, user, q.id) {
      var row := db.parts[q.id].cols;
      var changed := row.(number := q.newNumber.GetOr(row.number), name := q.newName.GetOr(row.name));
      if !Duplicate(db, user, changed.number, changed.name, Some(q.id)) {
        PartWriteKeepsDistinct(db, user, q.id, Written(db.parts[q.id], changed, now));
      }
    }
  }

  lemma {:induction false} RequestsKeepDistinct(db: Db, user: nat, now: nat, q: Request)
    requires PartsDistinct(db) && NewId(db, q)
    ensures PartsDistinct(Apply(db, user, now, q))
  {
    match q
    case CreatePart(_, _, _, _) => CreatePartKeepsDistinct(db, user, now, q);
    case UpdatePart(_, _, _) => UpdatePartKeepsDistinct(db, user, now, q);
    case DeletePart(id) =>
      if LivePart(db, user, id) {
        var after := DeletePartIn(db, user, now, id).parts;
        forall p | p in after && after[p].Live() ensures after[p] == db.parts[p] {}
      }
    case _ => OtherPartsStay(db, user, now, q);
  }

  lemma {:induction false} OtherPartsStay(db: Db, user: nat, now: nat, q: Request)
    requires !q.CreatePart? && !q.UpdatePart? && !q.DeletePart?
    ensures Apply(db, user, now, q).parts == db.parts
  {}

  // ------------------------------------------------------------------------ quantities

  lemma {:induction false} StockHandlersKeepPositive(db: Db, user: nat, now: nat, q: Request)
    requires Positive(db) && (q.CreateStock? || q.UpdateStock? || q.DeleteStock?)
    ensures Positive(Apply(db, user, now, q))
  {}

  lemma {:induction false} ConsumptionHandlersKeepPositive(db: Db, user: nat, now: nat, q: Request)
    requires Positive(db) && (q.CreateConsumption? || q.UpdateConsumption? || q.DeleteConsumption?)
    ensures Positive(Apply(db, user, now, q))
  {}

  lemma {:induction false} DeletionsKeepPositive(db: Db, user: nat, now: nat, q: Request)
    requires Positive(db) && (q.DeletePart? || q.DeleteRecord?)
    ensures Positive(Apply(db, user, now, q))
  {
    if q.DeletePart? && LivePart(db, user, q.id) { PartGonePositive(db, q.id, now); }
  }

  lemma {:induction false} RequestsKeepPositive(db: Db, user: nat, now: nat, q: Request)
    requires Positive(db)
    ensures Positive(Apply(db, user, now, q))
  {
    if q.CreateStock? || q.UpdateStock? || q.DeleteStock? {
      StockHandlersKeepPositive(db, user, now, q);
    } else if q.CreateConsumption? || q.UpdateConsumption? || q.DeleteConsumption? {
      ConsumptionHandlersKeepPositive(db, user, now, q);
    } else if q.DeletePart? || q.DeleteRecord? {
      DeletionsKeepPositive(db, user, now, q);
    } else {
      RestKeepsEntries(db, user, now, q);
      SameEntriesPositive(db, Apply(db, user, now, q));
    }
  }

  // ------------------------------------------------------------------------ all of it

  lemma {:induction false} RequestsKeepTables(db: Db, user: nat, now: nat, q: Request)
    requires TablesOk(db) && NewId(db, q)
    ensures TablesOk(Apply(db, user, now, q))
  {
    EveryRequestKeepsTheTree(db, user, now, q);
    StepKeepsLinks(db, Action(user, now, q));
    RequestsKeepOwned(db, user, now, q);
    RequestsKeepCosts(db, user, now, q);
    RequestsKeepPositive(db, user, now, q);
    RequestsKeepDistinct(db, user, now, q);
  }

  /** Whatever users request, in whatever order, the tables stay in order. */
  lemma {:induction false} RunsKeepTables(db: Db, actions: seq<Action>)
    requires TablesOk(db) && Legal(db, actions)
    ensures TablesOk(Exec(db, actions))
    decreases |actions|
  {
    if actions != [] {
      var a := actions[0];
      RequestsKeepTables(db, a.user, a.now, a.request);
      RunsKeepTables(Apply(db, a.user, a.now, a.request), actions[1..]);
    }
  }

  // ---------------------------------------------------------------- moving a storage node

  /** A move is accepted exactly when the new parent does not lie below the node, and lies less than the cap deep. */
  lemma {:induction false} MoveMeans(db: Db, user: nat, id: nat, parent: nat)
    ensures MayMove(db, user, id, parent)
       <==> LiveNode(db.nodes, user, parent) && !Above(ParentsOf(db.nodes), id, parent)
            && Up(ParentsOf(db.nodes), parent, 49) == None
  {
    var g, cap: nat := ParentsOf(db.nodes), MAX_HIERARCHY_DEPTH - 1;
    ChainClearMeans(g, id, parent, MAX_HIERARCHY_DEPTH);
    if k: nat :| k < MAX_HIERARCHY_DEPTH && EndsClear(g, id, parent, k) {
      UpStays(g, parent, k, cap);
      forall j: nat ensures Up(g, parent, j) != Some(id) { if j >= k { UpStays(g, parent, k, j); } }
    }
    if !Above(g, id, parent) && Up(g, parent, cap) == None { assert EndsClear(g, id, parent, cap); }
  }

  /**
    A change of a storage location is accepted when its new parent, if one is given, is a live own node that
    does not lie below it and lies less than the cap deep, and its new place, if one is given, is the user's
    and the node will not hang from another.
  */
  ghost predicate ChangeAllowed(db: Db, user: nat, q: Request)
    requires q.UpdateNode? && q.id in db.nodes
  {
    var parent := if q.newParent.Some? then q.newParent.value else db.nodes[q.id].cols.parent;
    && (q.newParent.Some? && parent.Some? ==>
          && LiveNode(db.nodes, user, parent.value) && !Above(ParentsOf(db.nodes), q.id, parent.value)
          && Up(ParentsOf(db.nodes), parent.value, 49) == None)
    && (q.newPlace.Some? && q.newPlace.value.Some? ==>
          parent.None? && q.newPlace.value.value in db.places && db.places[q.newPlace.value.value] == user)
  }

  lemma {:induction false} ChangeMeans(db: Db, user: nat, q: Request)
    requires q.UpdateNode? && q.id in db.nodes
    ensures MayUpdateNode(db, user, q) <==> ChangeAllowed(db, user, q)
  {
    if q.newParent.Some? && q.newParent.value.Some? { MoveMeans(db, user, q.id, q.newParent.value.value); }
  }

  /** Above the node lie its parent and what lay above that. */
  ghost predicate HangsFrom(before: Table<Node>, after: Table<Node>, id: nat, parent: Option<nat>) {
    forall a :: Above(ParentsOf(after), a, id)
           <==> a == id || (parent.Some? && Above(ParentsOf(before), a, parent.value))
  }

  lemma {:induction false} ClearOfStays(g: Parents, g': Parents, id: nat, p: nat, a: nat)
    requires forall y :: y != id ==> ParentOf(g', y) == ParentOf(g, y)
    requires forall j: nat :: Up(g, p, j) != Some(id)
    ensures Above(g', a, p) <==> Above(g, a, p)
  {
    forall k: nat ensures Up(g', p, k) == Up(g, p, k) { UpUnchanged(g, g', p, k, id); }
    if Above(g, a, p) {
      var k: nat :| Up(g, p, k) == Some(a);
      assert Up(g', p, k) == Some(a);
    }
    if Above(g', a, p) {
      var k: nat :| Up(g', p, k) == Some(a);
      assert Up(g, p, k) == Some(a);
    }
  }

  lemma {:induction false} WriteHangs(nodes: Table<Node>, id: nat, r: Row<Node>)
    requires r.cols.parent.Some? ==> forall j: nat :: Up(ParentsOf(nodes), r.cols.parent.value, j) != Some(id)
    ensures HangsFrom(nodes, nodes[id := r], id, r.cols.parent)
  {
    var g, g' := ParentsOf(nodes), ParentsOf(nodes[id := r]);
    forall a ensures Above(g', a, id) <==> a == id || (r.cols.parent.Some? && Above(g, a, r.cols.parent.value)) {
      AboveStep(g', a, id);
      if r.cols.parent.Some? { ClearOfStays(g, g', id, r.cols.parent.value, a); }
    }
  }

  lemma {:induction false} CreatedHangs(db: Db, user: nat, now: nat, q: Request)
    requires TreeOk(db) && q.CreateNode? && q.id !in db.nodes && q.id in CreateNodeIn(db, user, now, q).nodes
    ensures HangsFrom(db.nodes, CreateNodeIn(db, user, now, q).nodes, q.id, q.parent)
  {
    if q.parent.Some? {
      forall j: nat ensures Up(ParentsOf(db.nodes), q.parent.value, j) != Some(q.id) {
        ChainIsLive(db.nodes, q.parent.value, j);
      }
    }
    WriteHangs(db.nodes, q.id, Inserted(Node(user, q.name, q.parent, q.place, q.client), now));
  }

  lemma {:induction false} UpdatedHangs(db: Db, user: nat, now: nat, q: Request)
    requires TreeOk(db) && q.UpdateNode? && LiveNode(db.nodes, user, q.id) && MayUpdateNode(db, user, q)
    ensures HangsFrom(db.nodes, UpdateNodeIn(db, user, now, q).nodes, q.id,
                      q.newParent.GetOr(db.nodes[q.id].cols.parent))
  {
    var g, parent := ParentsOf(db.nodes), q.newParent.GetOr(db.nodes[q.id].cols.parent);
    if parent.Some? {
      var k := ClearAbove(db, user, q);
      forall j: nat ensures Up(g, parent.value, j) != Some(q.id) { if j >= k { UpStays(g, parent.value, k, j); } }
    }
    WriteHangs(db.nodes, q.id, UpdateNodeIn(db, user, now, q).nodes[q.id]);
  }

  lemma {:induction false} ClearAbove(db: Db, user: nat, q: Request) returns (k: nat)
    requires TreeOk(db) && q.UpdateNode? && LiveNode(db.nodes, user, q.id) && MayUpdateNode(db, user, q)
    requires q.newParent.GetOr(db.nodes[q.id].cols.parent).Some?
    ensures EndsClear(ParentsOf(db.nodes), q.id, q.newParent.GetOr(db.nodes[q.id].cols.parent).value, k)
  {
    MoveIsClear(db, user, q);
    k :| EndsClear(ParentsOf(db.nodes), q.id, q.newParent.GetOr(db.nodes[q.id].cols.parent).value, k);
  }

  /** Nothing live is left in a storage location that was deleted. */
  lemma {:induction false} DeletedIsEmpty(db: Db, user: nat, now: nat, id: nat)
    requires TreeOk(db) && LiveNode(db.nodes, user, id)
    ensures var after := DeleteNodeIn(db, user, now, id);
            && (forall s :: s in after.stocks && after.stocks[s].Live() ==> after.stocks[s].cols.storage != Some(id))
            && (forall n :: n in after.nodes && after.nodes[n].Live() ==> after.nodes[n].cols.parent != Some(id))
  {
    assert NodeOk(db.nodes, id);
    NoSelfParent(db.nodes, id);
    DeletionSplices(db.nodes, user, id, now);
  }

  // ------------------------------------------------------------ what accepted requests do

  /** One live row is new or changed, and stamped; the rest of the table is not. */
  ghost predicate OnlyRow<T(!new)>(a: Table<T>, b: Table<T>, id: nat, now: nat) {
    && id in b && b[id].Live() && b[id].updatedAt == now
    && forall k :: k != id ==> (k in b <==> k in a) && (k in a ==> b[k] == a[k])
  }

  /** One row is a tombstone now. */
  ghost predicate RowGone<T>(b: Table<T>, id: nat, now: nat) {
    id in b && b[id].deletedAt == Some(now) && b[id].updatedAt == now
  }

  ghost predicate NodeChanged(q: Request, was: Node, row: Node)
    requires q.UpdateNode?
  {
    && Takes(q.newName, was.name, row.name) && Takes(q.newParent, was.parent, row.parent)
    && (if row.parent.Some? then row.place.None? else Takes(q.newPlace, was.place, row.place))
    && row.user == was.user && row.client == was.client
  }

  lemma {:induction false} NodeRequestsDo(db: Db, user: nat, now: nat, q: Request)
    requires NewId(db, q) && (q.CreateNode? || q.UpdateNode?)
    ensures q.CreateNode? && q.id in CreateNodeIn(db, user, now, q).nodes ==>
              var after := CreateNodeIn(db, user, now, q).nodes;
              && OnlyRow(db.nodes, after, q.id, now) && after[q.id].cols.user == user
              && after[q.id].cols.name == q.name && after[q.id].cols.parent == q.parent
              && after[q.id].cols.place == q.place && after[q.id].cols.client == q.client
    ensures q.UpdateNode? && LiveNode(db.nodes, user, q.id) && MayUpdateNode(db, user, q) ==>
              var after := UpdateNodeIn(db, user, now, q).nodes;
              OnlyRow(db.nodes, after, q.id, now) && NodeChanged(q, db.nodes[q.id].cols, after[q.id].cols)
  {}

  lemma {:induction false} NodeDeletionDoes(db: Db, user: nat, now: nat, id: nat)
    requires LiveNode(db.nodes, user, id)
    ensures RowGone(DeleteNodeIn(db, user, now, id).nodes, id, now)
  {}

  ghost predicate PartChanged(q: Request, was: Part, row: Part)
    requires q.UpdatePart?
  {
    && Takes(q.newNumber, was.number, row.number) && Takes(q.newName, was.name, row.name)
    && row.user == was.user && row.client == was.client
  }

  lemma {:induction false} PartRequestsDo(db: Db, user: nat, now: nat, q: Request)
    requires NewId(db, q)
    ensures q.CreatePart? && q.id in CreatePartIn(db, user, now, q).parts ==>
              var after := CreatePartIn(db, user, now, q).parts;
              && OnlyRow(db.parts, after, q.id, now) && after[q.id].cols.user == user
              && after[q.id].cols.number == q.number && after[q.id].cols.name == q.name
              && after[q.id].cols.client == q.client
    ensures q.UpdatePart? && UpdatePartIn(db, user, now, q) != db ==>
              var after := UpdatePartIn(db, user, now, q).parts;
              OnlyRow(db.parts, after, q.id, now) && PartChanged(q, db.parts[q.id].cols, after[q.id].cols)
    ensures q.DeletePart? && LivePart(db, user, q.id) ==> RowGone(DeletePartIn(db, user, now, q.id).parts, q.id, now)
  {}

  ghost predicate StockChanged(q: Request, was: Stock, row: Stock)
    requires q.UpdateStock?
  {
    && Takes(q.newQuantity, was.quantity, row.quantity) && TakesOver(q.price, was.price, row.price)
    && TakesOver(q.currency, was.currency, row.currency) && TakesOver(q.normalized, was.normalized, row.normalized)
    && TakesOver(q.storage, was.storage, row.storage) && row.part == was.part && row.client == was.client
  }

  lemma {:induction false} StockRequestsDo(db: Db, user: nat, now: nat, q: Request)
    requires NewId(db, q)
    ensures q.CreateStock? && q.id in CreateStockIn(db, user, now, q.id, q.stock).stocks ==>
              var after := CreateStockIn(db, user, now, q.id, q.stock).stocks;
              OnlyRow(db.stocks, after, q.id, now) && after[q.id].cols == q.stock
    ensures q.UpdateStock? && UpdateStockIn(db, user, now, q) != db ==>
              var after := UpdateStockIn(db, user, now, q).stocks;
              OnlyRow(db.stocks, after, q.id, now) && StockChanged(q, db.stocks[q.id].cols, after[q.id].cols)
    ensures q.DeleteStock? && LiveStock(db, user, q.id) ==>
              RowGone(DeleteStockIn(db, user, now, q.id).stocks, q.id, now)
  {}

  ghost predicate UseChanged(q: Request, was: Consumption, row: Consumption)
    requires q.UpdateConsumption?
  {
    Takes(q.newQuantity, was.quantity, row.quantity) && row == was.(quantity := row.quantity)
  }

  lemma {:induction false} UseRequestsDo(db: Db, user: nat, now: nat, q: Request)
    requires NewId(db, q)
    ensures q.CreateConsumption? && q.id in CreateConsumptionIn(db, user, now, q.id, q.used).consumptions ==>
              var after := CreateConsumptionIn(db, user, now, q.id, q.used).consumptions;
              OnlyRow(db.consumptions, after, q.id, now) && after[q.id].cols == q.used
    ensures q.UpdateConsumption? && UpdateConsumptionIn(db, user, now, q.id, q.newQuantity) != db ==>
              var after := UpdateConsumptionIn(db, user, now, q.id, q.newQuantity).consumptions;
              && OnlyRow(db.consumptions, after, q.id, now)
              && UseChanged(q, db.consumptions[q.id].cols, after[q.id].cols)
    ensures q.DeleteConsumption? && LiveConsumption(db, user, q.id) ==>
              RowGone(DeleteConsumptionIn(db, user, now, q.id).consumptions, q.id, now)
    ensures q.DeleteRecord? && LiveRecord(db, user, q.id) ==>
              RowGone(DeleteRecordIn(db, user, now, q.id).records, q.id, now)
  {}
}
