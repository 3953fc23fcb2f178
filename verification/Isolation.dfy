/**
  Users do not meet in the inventory: whatever the others request, what a user sees is what the user's
  own requests make of it.
*/
module Isolation {
  import opened Options
  import opened SyncTables
  import opened ParentGraph
  import opened Inventory
  import opened StorageTree
  import opened InventorySync

  // -------------------------------------------------------------------- what belongs together

  /** Live stock is of a live part, and lies with the part's owner if anywhere. */
  ghost predicate StockOwned(db: Db) {
    forall s :: s in db.stocks && db.stocks[s].Live() ==>
      && db.stocks[s].cols.part in db.parts && db.parts[db.stocks[s].cols.part].Live()
      && LiesWith(db.nodes, db.stocks[s].cols.storage, db.parts[db.stocks[s].cols.part].cols.user)
  }

  predicate LiesWith(nodes: Table<Node>, storage: Option<nat>, user: nat) {
    storage.Some? ==> storage.value in nodes && nodes[storage.value].Live() && nodes[storage.value].cols.user == user
  }

  /** A live consumption is of a live part, and booked on a live record of the part's owner if on any. */
  ghost predicate UsesOwned(db: Db) {
    forall c :: c in db.consumptions && db.consumptions[c].Live() ==>
      && db.consumptions[c].cols.part in db.parts && db.parts[db.consumptions[c].cols.part].Live()
      && BookedWith(db.records, db.consumptions[c].cols.record, db.parts[db.consumptions[c].cols.part].cols.user)
  }

  predicate BookedWith(records: Table<Record>, record: Option<nat>, user: nat) {
    record.Some? ==> record.value in records && records[record.value].Live() && records[record.value].cols.user == user
  }

  /** A live storage location hangs from a live one of its owner; a place, if there is one, is the owner's. */
  ghost predicate NodesOwned(db: Db) {
    && (forall n :: n in db.nodes && db.nodes[n].Live() ==>
          LiesWith(db.nodes, db.nodes[n].cols.parent, db.nodes[n].cols.user))
    && (forall n :: n in db.nodes ==> PlacedWith(db.places, db.nodes[n].cols.place, db.nodes[n].cols.user))
  }

  predicate PlacedWith(places: map<nat, nat>, place: Option<nat>, user: nat) {
    place.Some? ==> place.value in places && places[place.value] == user
  }

  ghost predicate Owned(db: Db) { StockOwned(db) && UsesOwned(db) && NodesOwned(db) }

  /** Node rows change, but for a node that goes none its owner or its life. */
  ghost predicate SameNodesBut(a: Table<Node>, b: Table<Node>, gone: set<nat>) {
    forall n :: n in a && n !in gone ==> n in b && b[n].cols.user == a[n].cols.user && (a[n].Live() ==> b[n].Live())
  }

  lemma {:induction false} StillLiesWith(a: Table<Node>, b: Table<Node>, gone: set<nat>, storage: Option<nat>,
                                         user: nat)
    requires SameNodesBut(a, b, gone) && LiesWith(a, storage, user) && !(storage.Some? && storage.value in gone)
    ensures LiesWith(b, storage, user)
  {}

  lemma {:induction false} NodeWriteKeepsOwned(db: Db, id: nat, r: Row<Node>)
    requires Owned(db) && (id in db.nodes ==> r.cols.user == db.nodes[id].cols.user)
    requires id in db.nodes && db.nodes[id].Live() ==> r.Live()
    requires PlacedWith(db.places, r.cols.place, r.cols.user) && LiesWith(db.nodes, r.cols.parent, r.cols.user)
    ensures Owned(db.(nodes := db.nodes[id := r]))
  {
    var after := db.nodes[id := r];
    forall storage, user | LiesWith(db.nodes, storage, user) ensures LiesWith(after, storage, user) {
      StillLiesWith(db.nodes, after, {}, storage, user);
    }
  }

  lemma {:induction false} NodeRequestsKeepOwned(db: Db, user: nat, now: nat, q: Request)
    requires Owned(db) && NewId(db, q) && (q.CreateNode? || q.UpdateNode?)
    ensures Owned(Apply(db, user, now, q))
  {
    var after := Apply(db, user, now, q);
    if after != db {
      assert after == db.(nodes := db.nodes[q.id := after.nodes[q.id]]);
      NodeWriteKeepsOwned(db, q.id, after.nodes[q.id]);
    }
  }

  lemma {:induction false} DeleteNodeKeepsOwned(db: Db, user: nat, now: nat, id: nat)
    requires Owned(db) && NodesOk(db.nodes)
    ensures Owned(DeleteNodeIn(db, user, now, id))
  {
    if LiveNode(db.nodes, user, id) {
      NodeGoneNodes(db, now, id);
      NodeGoneStock(db, user, now, id);
    }
  }

  lemma {:induction false} NodeGoneNodes(db: Db, now: nat, id: nat)
    requires Owned(db) && NodesOk(db.nodes) && id in db.nodes && db.nodes[id].Live()
    ensures NodesOwned(db.(nodes := NodesWithout(db.nodes, id, now)))
    ensures SameNodesBut(db.nodes, NodesWithout(db.nodes, id, now), {id})
  {
    var after := NodesWithout(db.nodes, id, now);
    assert NodeOk(db.nodes, id);
    NoSelfParent(db.nodes, id);
    forall n | n in after && after[n].Live() ensures LiesWith(after, after[n].cols.parent, after[n].cols.user) {
      assert n != id && db.nodes[n].Live() && LiesWith(db.nodes, db.nodes[n].cols.parent, db.nodes[n].cols.user);
      StillLiesWith(db.nodes, after, {id}, after[n].cols.parent, after[n].cols.user);
    }
  }

  lemma {:induction false} NodeGoneStock(db: Db, user: nat, now: nat, id: nat)
    requires Owned(db) && LiveNode(db.nodes, user, id)
    requires SameNodesBut(db.nodes, NodesWithout(db.nodes, id, now), {id})
    ensures StockOwned(DeleteNodeIn(db, user, now, id))
  {
    var after := DeleteNodeIn(db, user, now, id);
    forall s | s in after.stocks && after.stocks[s].Live()
      ensures LiesWith(after.nodes, after.stocks[s].cols.storage, db.parts[db.stocks[s].cols.part].cols.user)
      ensures after.stocks[s].cols.part == db.stocks[s].cols.part
    {
      StillLiesWith(db.nodes, after.nodes, {id}, after.stocks[s].cols.storage,
                    db.parts[db.stocks[s].cols.part].cols.user);
    }
  }

  lemma {:induction false} PartWriteKeepsOwned(db: Db, id: nat, r: Row<Part>)
    requires Owned(db)
    requires id in db.parts ==> r.cols.user == db.parts[id].cols.user && (db.parts[id].Live() ==> r.Live())
    ensures Owned(db.(parts := db.parts[id := r]))
  {}

  lemma {:induction false} PartRequestsKeepOwned(db: Db, user: nat, now: nat, q: Request)
    requires Owned(db) && NewId(db, q) && (q.CreatePart? || q.UpdatePart?)
    ensures Owned(Apply(db, user, now, q))
  {
    var after := Apply(db, user, now, q);
    if after != db {
      assert after == db.(parts := db.parts[q.id := after.parts[q.id]]);
      PartWriteKeepsOwned(db, q.id, after.parts[q.id]);
    }
  }

  lemma {:induction false} DeletePartKeepsOwned(db: Db, user: nat, now: nat, id: nat)
    requires Owned(db)
    ensures Owned(DeletePartIn(db, user, now, id))
  {
    if LivePart(db, user, id) {
      PartGoneOwned(db, now, id);
      RecostedOwned(WithoutPart(db, id, now), RecordsUsing(db.consumptions, id), now);
    }
  }

  lemma {:induction false} PartGoneOwned(db: Db, now: nat, id: nat)
    requires Owned(db) && id in db.parts
    ensures Owned(WithoutPart(db, id, now))
  {}

  lemma {:induction false} RecostedOwned(db: Db, ids: set<nat>, now: nat)
    requires Owned(db)
    ensures Owned(Recosted(db, ids, now))
  {
    var after := Recosted(db, ids, now);
    forall r | r in db.records
      ensures after.records[r].cols.user == db.records[r].cols.user
      ensures after.records[r].Live() <==> db.records[r].Live()
    {}
  }

  lemma {:induction false} StockRequestsKeepOwned(db: Db, user: nat, now: nat, q: Request)
    requires Owned(db) && NewId(db, q) && (q.CreateStock? || q.UpdateStock? || q.DeleteStock?)
    ensures Owned(Apply(db, user, now, q))
  {}

  lemma {:induction false} UseWriteOwned(db: Db, id: nat, row: Row<Consumption>, now: nat)
    requires Owned(db)
    requires row.Live() ==> row.cols.part in db.parts && db.parts[row.cols.part].Live()
                            && BookedWith(db.records, row.cols.record, db.parts[row.cols.part].cols.user)
    ensures Owned(Recosted(db.(consumptions := db.consumptions[id := row]), RecordIds(row.cols.record), now))
  {
    var changed := db.(consumptions := db.consumptions[id := row]);
    assert Owned(changed);
    RecostedOwned(changed, RecordIds(row.cols.record), now);
  }

  lemma {:induction false} UseRequestsKeepOwned(db: Db, user: nat, now: nat, q: Request)
    requires Owned(db) && (q.CreateConsumption? || q.UpdateConsumption? || q.DeleteConsumption?)
    ensures Owned(Apply(db, user, now, q))
  {
    match q
    case CreateConsumption(id, c) => if MayConsume(db, user, c) { UseWriteOwned(db, id, Inserted(c, now), now); }
    case UpdateConsumption(id, n) =>
      if MayReconsume(db, user, id, n) {
        var row := db.consumptions[id];
        UseWriteOwned(db, id, Written(row, row.cols.(quantity := n.GetOr(row.cols.quantity)), now), now);
      }
    case DeleteConsumption(id) =>
      if LiveConsumption(db, user, id) { UseWriteOwned(db, id, Tombstone(db.consumptions[id], now), now); }
  }

  lemma {:induction false} RecordRequestsKeepOwned(db: Db, user: nat, now: nat, q: Request)
    requires Owned(db) && NewId(db, q) && (q.CreateRecord? || q.DeleteRecord?)
    ensures Owned(Apply(db, user, now, q))
  {}

  lemma {:induction false} ErasureKeepsOwned(db: Db, gone: set<nat>)
    requires Owned(db)
    ensures Owned(EraseRecordsIn(db, gone))
  {}

  lemma {:induction false} RelocatedOwned(db: Db, places: set<nat>, target: Option<nat>, left: map<nat, nat>)
    requires Owned(db) && left == db.places - places
    requires forall p :: p in places && p in db.places && target.Some? ==> PlacedWith(left, target, db.places[p])
    ensures Owned(db.(nodes := Relocated(db.nodes, places, target), places := left))
  {
    var after := Relocated(db.nodes, places, target);
    forall storage, user | LiesWith(db.nodes, storage, user) ensures LiesWith(after, storage, user) {
      StillLiesWith(db.nodes, after, {}, storage, user);
    }
    forall n | n in after ensures PlacedWith(left, after[n].cols.place, after[n].cols.user) {
      assert PlacedWith(db.places, db.nodes[n].cols.place, db.nodes[n].cols.user);
    }
  }

  lemma {:induction false} PlaceRequestsKeepOwned(db: Db, user: nat, now: nat, q: Request)
    requires Owned(db) && NewId(db, q) && (q.CreatePlace? || q.DeletePlace? || q.MergePlaces?)
    ensures Owned(Apply(db, user, now, q))
  {
    match q
    case CreatePlace(_) =>
    case DeletePlace(id) => if Owns(db, user, id) { RelocatedOwned(db, {id}, None, db.places - {id}); }
    case MergePlaces(canonical, duplicates) =>
      if MayMerge(db, user, canonical, duplicates) {
        var gone := duplicates - {canonical};
        RelocatedOwned(db, gone, Some(canonical), db.places - gone);
      }
  }

  /** Whatever is requested, live rows keep to live rows of their owner. */
  lemma {:induction false} RequestsKeepOwned(db: Db, user: nat, now: nat, q: Request)
    requires Owned(db) && NodesOk(db.nodes) && NewId(db, q)
    ensures Owned(Apply(db, user, now, q))
  {
    if q.CreateNode? || q.UpdateNode? {
      NodeRequestsKeepOwned(db, user, now, q);
    } else if q.DeleteNode? {
      DeleteNodeKeepsOwned(db, user, now, q.id);
    } else if q.CreatePart? || q.UpdatePart? {
      PartRequestsKeepOwned(db, user, now, q);
    } else if q.DeletePart? {
      DeletePartKeepsOwned(db, user, now, q.id);
    } else if q.CreateStock? || q.UpdateStock? || q.DeleteStock? {
      StockRequestsKeepOwned(db, user, now, q);
    } else if q.CreateConsumption? || q.UpdateConsumption? || q.DeleteConsumption? {
      UseRequestsKeepOwned(db, user, now, q);
    } else if q.CreateRecord? || q.DeleteRecord? {
      RecordRequestsKeepOwned(db, user, now, q);
    } else if q.EraseRecords? {
      ErasureKeepsOwned(db, q.gone);
    } else {
      PlaceRequestsKeepOwned(db, user, now, q);
    }
  }

  // ------------------------------------------------------------------------ what is a user's

  function Only<T>(t: Table<T>, own: T -> bool): Table<T> { map id | id in t && own(t[id].cols) :: t[id] }

  predicate IsPartOf(parts: Table<Part>, user: nat, part: nat) { part in parts && parts[part].cols.user == user }

  function OwnParts(user: nat): Part -> bool { (p: Part) => p.user == user }

  function OwnStock(parts: Table<Part>, user: nat): Stock -> bool { (s: Stock) => IsPartOf(parts, user, s.part) }

  function OwnUses(parts: Table<Part>, user: nat): Consumption -> bool {
    (c: Consumption) => IsPartOf(parts, user, c.part)
  }

  function OwnNodes(user: nat): Node -> bool { (n: Node) => n.user == user }

  function OwnRecords(user: nat): Record -> bool { (r: Record) => r.user == user }

  function OwnPlaces(places: map<nat, nat>, user: nat): map<nat, nat> {
    map p | p in places && places[p] == user :: places[p]
  }

  /** The tables with this user's rows alone; stock and consumptions belong to the owner of their part. */
  function Mine(db: Db, user: nat): Db {
    Db(Only(db.parts, OwnParts(user)), Only(db.stocks, OwnStock(db.parts, user)),
       Only(db.consumptions, OwnUses(db.parts, user)), Only(db.nodes, OwnNodes(user)),
       Only(db.records, OwnRecords(user)), OwnPlaces(db.places, user), db.factors)
  }

  lemma {:induction false} WriteForeign<T>(t: Table<T>, own: T -> bool, id: nat, r: Row<T>)
    requires !own(r.cols) && (id in t ==> !own(t[id].cols))
    ensures Only(t[id := r], own) == Only(t, own)
  {}

  lemma {:induction false} TombstoneForeign<T>(t: Table<T>, own: T -> bool, which: T -> bool, now: nat)
    requires forall id :: id in t && t[id].Live() && which(t[id].cols) ==> !own(t[id].cols)
    ensures Only(TombstoneWhere(t, which, now), own) == Only(t, own)
  {}

  lemma {:induction false} UpdateForeign<T>(t: Table<T>, own: T -> bool, which: T -> bool, change: T -> T, now: nat)
    requires forall id :: id in t && t[id].Live() && which(t[id].cols) ==>
               !own(t[id].cols) && !own(change(t[id].cols))
    ensures Only(UpdateWhere(t, which, change, now), own) == Only(t, own)
  {}

  /** Where the same parts are the user's, so are the same stock and consumptions. */
  lemma {:induction false} SamePartsSameRest(db: Db, parts: Table<Part>, user: nat)
    requires forall p :: IsPartOf(parts, user, p) <==> IsPartOf(db.parts, user, p)
    ensures Only(db.stocks, OwnStock(parts, user)) == Only(db.stocks, OwnStock(db.parts, user))
    ensures Only(db.consumptions, OwnUses(parts, user)) == Only(db.consumptions, OwnUses(db.parts, user))
  {}

  // -------------------------------------------------------------------------- the others

  lemma {:induction false} OthersRecost(db: Db, ids: set<nat>, now: nat, user: nat)
    requires forall r :: r in ids && r in db.records ==> db.records[r].cols.user != user
    ensures Mine(Recosted(db, ids, now), user) == Mine(db, user)
  {
    assert Only(Recosted(db, ids, now).records, OwnRecords(user)) == Only(db.records, OwnRecords(user));
  }

  lemma {:induction false} OthersNodes(db: Db, other: nat, now: nat, q: Request, user: nat)
    requires NewId(db, q) && other != user && (q.CreateNode? || q.UpdateNode?)
    ensures Mine(Apply(db, other, now, q), user) == Mine(db, user)
  {
    var after := Apply(db, other, now, q);
    if after != db {
      assert after == db.(nodes := db.nodes[q.id := after.nodes[q.id]]);
      WriteForeign(db.nodes, OwnNodes(user), q.id, after.nodes[q.id]);
    }
  }

  lemma {:induction false} OthersNodeGone(db: Db, other: nat, now: nat, id: nat, user: nat)
    requires Owned(db) && other != user
    ensures Mine(DeleteNodeIn(db, other, now, id), user) == Mine(db, user)
  {
    if LiveNode(db.nodes, other, id) {
      var gone := db.nodes[id := Tombstone(db.nodes[id], now)];
      WriteForeign(db.nodes, OwnNodes(user), id, Tombstone(db.nodes[id], now));
      UpdateForeign(gone, OwnNodes(user), (c: Node) => c.parent == Some(id),
                    (c: Node) => c.(parent := db.nodes[id].cols.parent), now);
      UpdateForeign(db.stocks, OwnStock(db.parts, user), (s: Stock) => s.storage == Some(id),
                    (s: Stock) => s.(storage := None), now);
    }
  }

  lemma {:induction false} OthersParts(db: Db, other: nat, now: nat, q: Request, user: nat)
    requires NewId(db, q) && other != user && (q.CreatePart? || q.UpdatePart?)
    ensures Mine(Apply(db, other, now, q), user) == Mine(db, user)
  {
    var after := Apply(db, other, now, q);
    if after != db {
      assert after == db.(parts := db.parts[q.id := after.parts[q.id]]);
      WriteForeign(db.parts, OwnParts(user), q.id, after.parts[q.id]);
      SamePartsSameRest(db, after.parts, user);
    }
  }

  lemma {:induction false} OthersPartGone(db: Db, other: nat, now: nat, id: nat, user: nat)
    requires Owned(db) && other != user
    ensures Mine(DeletePartIn(db, other, now, id), user) == Mine(db, user)
  {
    if LivePart(db, other, id) {
      var gone := WithoutPart(db, id, now);
      WriteForeign(db.parts, OwnParts(user), id, Tombstone(db.parts[id], now));
      TombstoneForeign(db.stocks, OwnStock(db.parts, user), (s: Stock) => s.part == id, now);
      TombstoneForeign(db.consumptions, OwnUses(db.parts, user), (c: Consumption) => c.part == id, now);
      SamePartsSameRest(db.(stocks := gone.stocks, consumptions := gone.consumptions), gone.parts, user);
      OthersRecost(gone, RecordsUsing(db.consumptions, id), now, user);
    }
  }

  lemma {:induction false} OthersStock(db: Db, other: nat, now: nat, q: Request, user: nat)
    requires NewId(db, q) && other != user && (q.CreateStock? || q.UpdateStock? || q.DeleteStock?)
    ensures Mine(Apply(db, other, now, q), user) == Mine(db, user)
  {
    var after := Apply(db, other, now, q);
    if after != db {
      assert after == db.(stocks := db.stocks[q.id := after.stocks[q.id]]);
      WriteForeign(db.stocks, OwnStock(db.parts, user), q.id, after.stocks[q.id]);
    }
  }

  lemma {:induction false} OthersUse(db: Db, id: nat, row: Row<Consumption>, now: nat, user: nat)
    requires !IsPartOf(db.parts, user, row.cols.part)
    requires id in db.consumptions ==> db.consumptions[id].cols.part == row.cols.part
    requires forall r :: r in RecordIds(row.cols.record) && r in db.records ==> db.records[r].cols.user != user
    ensures Mine(Recosted(db.(consumptions := db.consumptions[id := row]), RecordIds(row.cols.record), now), user)
         == Mine(db, user)
  {
    WriteForeign(db.consumptions, OwnUses(db.parts, user), id, row);
    OthersRecost(db.(consumptions := db.consumptions[id := row]), RecordIds(row.cols.record), now, user);
  }

  lemma {:induction false} OthersUses(db: Db, other: nat, now: nat, q: Request, user: nat)
    requires Owned(db) && NewId(db, q) && other != user
    requires q.CreateConsumption? || q.UpdateConsumption? || q.DeleteConsumption?
    ensures Mine(Apply(db, other, now, q), user) == Mine(db, user)
  {
    match q
    case CreateConsumption(id, c) => if MayConsume(db, other, c) { OthersUse(db, id, Inserted(c, now), now, user); }
    case UpdateConsumption(id, n) =>
      if MayReconsume(db, other, id, n) {
        var row := db.consumptions[id];
        OthersUse(db, id, Written(row, row.cols.(quantity := n.GetOr(row.cols.quantity)), now), now, user);
      }
    case DeleteConsumption(id) =>
      if LiveConsumption(db, other, id) { OthersUse(db, id, Tombstone(db.consumptions[id], now), now, user); }
  }

  lemma {:induction false} OthersRecords(db: Db, other: nat, now: nat, q: Request, user: nat)
    requires Owned(db) && NewId(db, q) && other != user && (q.CreateRecord? || q.DeleteRecord?)
    ensures Mine(Apply(db, other, now, q), user) == Mine(db, user)
  {
    if q.CreateRecord? {
      WriteForeign(db.records, OwnRecords(user), q.id, Inserted(Record(other, None), now));
    } else if LiveRecord(db, other, q.id) {
      WriteForeign(db.records, OwnRecords(user), q.id, Tombstone(db.records[q.id], now));
      TombstoneForeign(db.consumptions, OwnUses(db.parts, user), (c: Consumption) => c.record == Some(q.id), now);
    }
  }

  lemma {:induction false} OthersRelocate(db: Db, places: set<nat>, target: Option<nat>, user: nat)
    requires Owned(db) && forall p :: p in places && p in db.places ==> db.places[p] != user
    ensures Mine(db.(nodes := Relocated(db.nodes, places, target), places := db.places - places), user)
         == Mine(db, user)
  {
    RelocatedForeign(db, places, target, user);
    assert OwnPlaces(db.places - places, user) == OwnPlaces(db.places, user);
  }

  lemma {:induction false} RelocatedForeign(db: Db, places: set<nat>, target: Option<nat>, user: nat)
    requires NodesOwned(db) && forall p :: p in places && p in db.places ==> db.places[p] != user
    ensures Only(Relocated(db.nodes, places, target), OwnNodes(user)) == Only(db.nodes, OwnNodes(user))
  {
    forall n | n in db.nodes && db.nodes[n].cols.user == user ensures !PlacedIn(db.nodes[n].cols, places) {
      assert PlacedWith(db.places, db.nodes[n].cols.place, user);
    }
  }

  lemma {:induction false} OthersPlaces(db: Db, other: nat, now: nat, q: Request, user: nat)
    requires Owned(db) && NewId(db, q) && other != user && (q.CreatePlace? || q.DeletePlace? || q.MergePlaces?)
    ensures Mine(Apply(db, other, now, q), user) == Mine(db, user)
  {
    match q
    case CreatePlace(id) => assert OwnPlaces(db.places[id := other], user) == OwnPlaces(db.places, user);
    case DeletePlace(id) => if Owns(db, other, id) { OthersRelocate(db, {id}, None, user); }
    case MergePlaces(canonical, duplicates) =>
      if MayMerge(db, other, canonical, duplicates) {
        OthersRelocate(db, duplicates - {canonical}, Some(canonical), user);
      }
  }

  /** No request of one user changes a row of another. */
  lemma {:induction false} OthersLeaveMine(db: Db, other: nat, now: nat, q: Request, user: nat)
    requires Owned(db) && NewId(db, q) && other != user && !q.EraseRecords?
    ensures Mine(Apply(db, other, now, q), user) == Mine(db, user)
  {
    if q.CreateNode? || q.UpdateNode? {
      OthersNodes(db, other, now, q, user);
    } else if q.DeleteNode? {
      OthersNodeGone(db, other, now, q.id, user);
    } else if q.CreatePart? || q.UpdatePart? {
      OthersParts(db, other, now, q, user);
    } else if q.DeletePart? {
      OthersPartGone(db, other, now, q.id, user);
    } else if q.CreateStock? || q.UpdateStock? || q.DeleteStock? {
      OthersStock(db, other, now, q, user);
    } else if q.CreateConsumption? || q.UpdateConsumption? || q.DeleteConsumption? {
      OthersUses(db, other, now, q, user);
    } else if q.CreateRecord? || q.DeleteRecord? {
      OthersRecords(db, other, now, q, user);
    } else {
      OthersPlaces(db, other, now, q, user);
    }
  }

  // -------------------------------------------------------------------------- as if alone

  lemma {:induction false} WriteOwn<T>(t: Table<T>, own: T -> bool, id: nat, r: Row<T>)
    requires own(r.cols)
    ensures Only(t[id := r], own) == Only(t, own)[id := r]
  {}

  lemma {:induction false} TombstoneOwn<T>(t: Table<T>, own: T -> bool, which: T -> bool, now: nat)
    ensures Only(TombstoneWhere(t, which, now), own) == TombstoneWhere(Only(t, own), which, now)
  {}

  lemma {:induction false} UpdateOwn<T>(t: Table<T>, own: T -> bool, which: T -> bool, change: T -> T, now: nat)
    requires forall id :: id in t && which(t[id].cols) ==> (own(change(t[id].cols)) <==> own(t[id].cols))
    ensures Only(UpdateWhere(t, which, change, now), own) == UpdateWhere(Only(t, own), which, change, now)
  {
    var after := UpdateWhere(t, which, change, now);
    forall id | id in t ensures own(after[id].cols) <==> own(t[id].cols) {}
  }

  /** The one thing users share: a client key that another user's row carries. */
  ghost predicate KeyElsewhere(db: Db, user: nat, q: Request) {
    match q
    case CreateNode(_, _, _, _, client) =>
      client.Some? && exists n :: n in db.nodes && db.nodes[n].cols.client == client && db.nodes[n].cols.user != user
    case CreatePart(_, _, _, client) =>
      client.Some? && exists p :: p in db.parts && db.parts[p].cols.client == client && db.parts[p].cols.user != user
    case CreateStock(_, stock) =>
      stock.client.Some? && exists s :: s in db.stocks && db.stocks[s].cols.client == stock.client
                                        && !IsPartOf(db.parts, user, db.stocks[s].cols.part)
    case CreateConsumption(_, used) =>
      used.client.Some? && exists c :: c in db.consumptions && db.consumptions[c].cols.client == used.client
                                       && !IsPartOf(db.parts, user, db.consumptions[c].cols.part)
    case _ => false
  }

  lemma {:induction false} AloneRows(db: Db, user: nat, id: nat)
    ensures LivePart(Mine(db, user), user, id) == LivePart(db, user, id)
    ensures LiveNode(Mine(db, user).nodes, user, id) == LiveNode(db.nodes, user, id)
    ensures LiveStock(Mine(db, user), user, id) == LiveStock(db, user, id)
    ensures LiveConsumption(Mine(db, user), user, id) == LiveConsumption(db, user, id)
    ensures LiveRecord(Mine(db, user), user, id) == LiveRecord(db, user, id)
    ensures Owns(Mine(db, user), user, id) == Owns(db, user, id)
  {}

  // But for a key held elsewhere, a key is taken exactly when one of the user's rows has it.

  lemma {:induction false} NodeKeyAlone(db: Db, user: nat, q: Request)
    requires q.CreateNode? && !KeyElsewhere(db, user, q)
    ensures TakenNode(Mine(db, user), q.client) == TakenNode(db, q.client)
  {
    if n :| n in db.nodes && db.nodes[n].cols.client == q.client {
      assert q.client.Some? ==> n in Mine(db, user).nodes;
    }
  }

  lemma {:induction false} PartKeyAlone(db: Db, user: nat, q: Request)
    requires q.CreatePart? && !KeyElsewhere(db, user, q)
    ensures TakenPart(Mine(db, user), q.client) == TakenPart(db, q.client)
  {
    if p :| p in db.parts && db.parts[p].cols.client == q.client {
      assert q.client.Some? ==> p in Mine(db, user).parts;
    }
  }

  lemma {:induction false} StockKeyAlone(db: Db, user: nat, q: Request)
    requires q.CreateStock? && !KeyElsewhere(db, user, q)
    ensures TakenStock(Mine(db, user), q.stock.client) == TakenStock(db, q.stock.client)
  {
    if s :| s in db.stocks && db.stocks[s].cols.client == q.stock.client {
      assert q.stock.client.Some? ==> s in Mine(db, user).stocks;
    }
  }

  lemma {:induction false} ConsumptionKeyAlone(db: Db, user: nat, q: Request)
    requires q.CreateConsumption? && !KeyElsewhere(db, user, q)
    ensures TakenConsumption(Mine(db, user), q.used.client) == TakenConsumption(db, q.used.client)
  {
    if c :| c in db.consumptions && db.consumptions[c].cols.client == q.used.client {
      assert q.used.client.Some? ==> c in Mine(db, user).consumptions;
    }
  }

  lemma {:induction false} SeenNodeAlone(db: Db, user: nat, client: Option<string>)
    ensures SeenNode(db, user, client) <==> TakenNode(Mine(db, user), client)
  {
    if n :| n in db.nodes && db.nodes[n].cols.client == client && db.nodes[n].cols.user == user {
      assert n in Mine(db, user).nodes;
    }
  }

  lemma {:induction false} SeenPartAlone(db: Db, user: nat, client: Option<string>)
    ensures SeenPart(db, user, client) <==> TakenPart(Mine(db, user), client)
  {
    if p :| p in db.parts && db.parts[p].cols.client == client && db.parts[p].cols.user == user {
      assert p in Mine(db, user).parts;
    }
  }

  lemma {:induction false} SeenStockAlone(db: Db, user: nat, client: Option<string>)
    ensures SeenStock(db, user, client) <==> TakenStock(Mine(db, user), client)
  {
    if s :| s in db.stocks && db.stocks[s].cols.client == client && OwnPart(db, user, db.stocks[s].cols.part) {
      assert s in Mine(db, user).stocks;
    }
  }

  lemma {:induction false} SeenConsumptionAlone(db: Db, user: nat, client: Option<string>)
    ensures SeenConsumption(db, user, client) <==> TakenConsumption(Mine(db, user), client)
  {
    if c :| c in db.consumptions && db.consumptions[c].cols.client == client
            && OwnPart(db, user, db.consumptions[c].cols.part)
    {
      assert c in Mine(db, user).consumptions;
    }
  }

  /** A retried request is answered from the user's own rows. */
  lemma {:induction false} SeenIsTakenAlone(db: Db, user: nat, client: Option<string>)
    ensures SeenNode(db, user, client) <==> TakenNode(Mine(db, user), client)
    ensures SeenPart(db, user, client) <==> TakenPart(Mine(db, user), client)
    ensures SeenStock(db, user, client) <==> TakenStock(Mine(db, user), client)
    ensures SeenConsumption(db, user, client) <==> TakenConsumption(Mine(db, user), client)
  {
    SeenNodeAlone(db, user, client);
    SeenPartAlone(db, user, client);
    SeenStockAlone(db, user, client);
    SeenConsumptionAlone(db, user, client);
  }

  lemma {:induction false} AloneHangs(db: Db, user: nat, parent: Option<nat>, place: Option<nat>)
    ensures MayHang(Mine(db, user), user, parent, place) == MayHang(db, user, parent, place)
  {
    if parent.Some? { AloneRows(db, user, parent.value); }
    if place.Some? { AloneRows(db, user, place.value); }
  }

  lemma {:induction false} AloneChain(db: Db, user: nat, id: nat, p: Option<nat>, steps: nat)
    requires NodesOwned(db) && LiesWith(db.nodes, p, user)
    ensures ChainClear(ParentsOf(Mine(db, user).nodes), id, p, steps) == ChainClear(ParentsOf(db.nodes), id, p, steps)
    decreases steps
  {
    if steps > 0 && p.Some? {
      var up := ParentOf(ParentsOf(db.nodes), p.value);
      assert up == db.nodes[p.value].cols.parent && LiesWith(db.nodes, up, user);
      assert ParentOf(ParentsOf(Mine(db, user).nodes), p.value) == up;
      AloneChain(db, user, id, up, steps - 1);
    }
  }

  lemma {:induction false} AloneMoves(db: Db, user: nat, q: Request)
    requires Owned(db) && q.UpdateNode? && LiveNode(db.nodes, user, q.id)
    ensures q.id in Mine(db, user).nodes && MayUpdateNode(Mine(db, user), user, q) == MayUpdateNode(db, user, q)
  {
    if q.newParent.Some? && q.newParent.value.Some? {
      AloneRows(db, user, q.newParent.value.value);
      if LiveNode(db.nodes, user, q.newParent.value.value) {
        AloneChain(db, user, q.id, q.newParent.value, MAX_HIERARCHY_DEPTH);
      }
    }
    if q.newPlace.Some? && q.newPlace.value.Some? { AloneRows(db, user, q.newPlace.value.value); }
  }

  lemma {:induction false} AloneNodes(db: Db, user: nat, now: nat, q: Request)
    requires Owned(db) && !KeyElsewhere(db, user, q) && (q.CreateNode? || q.UpdateNode?)
    ensures Mine(Apply(db, user, now, q), user) == Apply(Mine(db, user), user, now, q)
  {
    var after := Apply(db, user, now, q);
    if q.CreateNode? {
      AloneHangs(db, user, q.parent, q.place);
      NodeKeyAlone(db, user, q);
      WriteOwn(db.nodes, OwnNodes(user), q.id, Inserted(Node(user, q.name, q.parent, q.place, q.client), now));
    } else {
      AloneRows(db, user, q.id);
      if LiveNode(db.nodes, user, q.id) {
        AloneMoves(db, user, q);
        if MayUpdateNode(db, user, q) { WriteOwn(db.nodes, OwnNodes(user), q.id, after.nodes[q.id]); }
      }
    }
  }

  lemma {:induction false} AloneNodeGone(db: Db, user: nat, now: nat, id: nat)
    ensures Mine(DeleteNodeIn(db, user, now, id), user) == DeleteNodeIn(Mine(db, user), user, now, id)
  {
    AloneRows(db, user, id);
    if LiveNode(db.nodes, user, id) {
      WriteOwn(db.nodes, OwnNodes(user), id, Tombstone(db.nodes[id], now));
      UpdateOwn(db.nodes[id := Tombstone(db.nodes[id], now)], OwnNodes(user), (c: Node) => c.parent == Some(id),
                (c: Node) => c.(parent := db.nodes[id].cols.parent), now);
      UpdateOwn(db.stocks, OwnStock(db.parts, user), (s: Stock) => s.storage == Some(id),
                (s: Stock) => s.(storage := None), now);
      assert Mine(db, user).nodes[id].cols.parent == db.nodes[id].cols.parent;
    }
  }

  lemma {:induction false} AloneDuplicate(db: Db, user: nat, number: string, name: string, except: Option<nat>)
    ensures Duplicate(Mine(db, user), user, number, name, except) == Duplicate(db, user, number, name, except)
  {
    forall p ensures LivePart(Mine(db, user), user, p) == LivePart(db, user, p) { AloneRows(db, user, p); }
    if Duplicate(db, user, number, name, except) {
      var p :| p in db.parts && LivePart(db, user, p) && SameIdentity(db.parts[p].cols, number, name)
               && except != Some(p);
      assert p in Mine(db, user).parts;
    }
  }

  lemma {:induction false} AlonePartWrite(db: Db, user: nat, id: nat, r: Row<Part>)
    requires Linked(db) && r.cols.user == user && (id in db.parts ==> db.parts[id].cols.user == user)
    ensures Mine(db.(parts := db.parts[id := r]), user)
         == Mine(db, user).(parts := Mine(db, user).parts[id := r])
  {
    WriteOwn(db.parts, OwnParts(user), id, r);
    LinkedRest(db, db.parts[id := r], user);
  }

  lemma {:induction false} LinkedRest(db: Db, parts: Table<Part>, user: nat)
    requires Linked(db) && forall p :: p in db.parts ==> (IsPartOf(parts, user, p) <==> IsPartOf(db.parts, user, p))
    ensures Only(db.stocks, OwnStock(parts, user)) == Only(db.stocks, OwnStock(db.parts, user))
    ensures Only(db.consumptions, OwnUses(parts, user)) == Only(db.consumptions, OwnUses(db.parts, user))
  {}

  lemma {:induction false} AloneParts(db: Db, user: nat, now: nat, q: Request)
    requires Linked(db) && NewId(db, q) && !KeyElsewhere(db, user, q) && (q.CreatePart? || q.UpdatePart?)
    ensures Mine(Apply(db, user, now, q), user) == Apply(Mine(db, user), user, now, q)
  {
    var after := Apply(db, user, now, q);
    if q.CreatePart? {
      AloneDuplicate(db, user, q.number, q.name, None);
      PartKeyAlone(db, user, q);
      AlonePartWrite(db, user, q.id, Inserted(Part(user, q.number, q.name, q.client), now));
    } else {
      AloneRows(db, user, q.id);
      if LivePart(db, user, q.id) {
        var row := db.parts[q.id].cols;
        AloneDuplicate(db, user, q.newNumber.GetOr(row.number), q.newName.GetOr(row.name), Some(q.id));
        AlonePartWrite(db, user, q.id, after.parts[q.id]);
      }
    }
  }

  lemma {:induction false} AloneStockWrite(db: Db, user: nat, id: nat, r: Row<Stock>)
    requires IsPartOf(db.parts, user, r.cols.part)
    ensures Mine(db.(stocks := db.stocks[id := r]), user)
         == Mine(db, user).(stocks := Mine(db, user).stocks[id := r])
  {
    WriteOwn(db.stocks, OwnStock(db.parts, user), id, r);
  }

  lemma {:induction false} AlonePurchase(db: Db, user: nat, now: nat, id: nat, s: Stock)
    requires !KeyElsewhere(db, user, CreateStock(id, s))
    ensures Mine(CreateStockIn(db, user, now, id, s), user) == CreateStockIn(Mine(db, user), user, now, id, s)
  {
    StockKeyAlone(db, user, CreateStock(id, s));
    AloneRows(db, user, s.part);
    if s.storage.Some? { AloneRows(db, user, s.storage.value); }
    if MayStock(db, user, s) { AloneStockWrite(db, user, id, Inserted(s, now)); }
  }

  lemma {:induction false} AloneRestock(db: Db, user: nat, now: nat, q: Request)
    requires q.UpdateStock?
    ensures Mine(UpdateStockIn(db, user, now, q), user) == UpdateStockIn(Mine(db, user), user, now, q)
  {
    AloneRows(db, user, q.id);
    if q.storage.Some? { AloneRows(db, user, q.storage.value); }
    if MayRestock(db, user, q) { AloneStockWrite(db, user, q.id, UpdateStockIn(db, user, now, q).stocks[q.id]); }
  }

  lemma {:induction false} AloneStock(db: Db, user: nat, now: nat, q: Request)
    requires !KeyElsewhere(db, user, q) && (q.CreateStock? || q.UpdateStock? || q.DeleteStock?)
    ensures Mine(Apply(db, user, now, q), user) == Apply(Mine(db, user), user, now, q)
  {
    match q
    case CreateStock(id, s) => AlonePurchase(db, user, now, id, s);
    case UpdateStock(_, _, _, _, _, _) => AloneRestock(db, user, now, q);
    case DeleteStock(id) =>
      AloneRows(db, user, id);
      if LiveStock(db, user, id) { AloneStockWrite(db, user, id, Tombstone(db.stocks[id], now)); }
  }

  /** Of an own part the user's rows are all the rows. */
  lemma {:induction false} AlonePart(db: Db, user: nat, p: nat)
    requires IsPartOf(db.parts, user, p)
    ensures OnHand(Mine(db, user), p) == OnHand(db, p)
    ensures UnitPrice(Mine(db, user).stocks, db.factors, p) == UnitPrice(db.stocks, db.factors, p)
  {
    AloneStocked(db.parts, db.stocks, user, p);
    AloneUsed(db.parts, db.consumptions, user, p);
    AloneWorth(db.parts, db.stocks, db.factors, user, p);
  }

  lemma {:induction false} AloneStocked(parts: Table<Part>, stocks: Table<Stock>, user: nat, p: nat)
    requires IsPartOf(parts, user, p)
    ensures QuantitiesOf(StockEntries(Only(stocks, OwnStock(parts, user))), p) == QuantitiesOf(StockEntries(stocks), p)
  {}

  lemma {:induction false} AloneUsed(parts: Table<Part>, consumptions: Table<Consumption>, user: nat, p: nat)
    requires IsPartOf(parts, user, p)
    ensures QuantitiesOf(ConsumptionEntries(Only(consumptions, OwnUses(parts, user))), p)
         == QuantitiesOf(ConsumptionEntries(consumptions), p)
  {}

  lemma {:induction false} AloneWorth(parts: Table<Part>, stocks: Table<Stock>, factors: map<string, real>, user: nat,
                                      p: nat)
    requires IsPartOf(parts, user, p)
    ensures WorthOf(Only(stocks, OwnStock(parts, user)), factors, p) == WorthOf(stocks, factors, p)
  {}

  lemma {:induction false} AloneUsing(db: Db, user: nat, p: nat)
    requires IsPartOf(db.parts, user, p)
    ensures RecordsUsing(Mine(db, user).consumptions, p) == RecordsUsing(db.consumptions, p)
  {
    var all, mine := db.consumptions, Mine(db, user).consumptions;
    forall r | r in RecordsUsing(all, p) ensures r in RecordsUsing(mine, p) {
      var c :| c in all && all[c].Live() && all[c].cols.part == p && all[c].cols.record == Some(r);
      assert c in mine && mine[c] == all[c];
    }
  }

  /** So an own record costs the same. */
  lemma {:induction false} AloneCost(db: Db, user: nat, r: nat)
    requires UsesOwned(db) && r in db.records && db.records[r].cols.user == user
    ensures Cost(Mine(db, user), r) == Cost(db, r)
  {
    var mine, used := Mine(db, user), UsedEntries(db.consumptions, r);
    assert UsedEntries(mine.consumptions, r) == used;
    forall p | p in PartsIn(used)
      ensures UnitPrice(mine.stocks, db.factors, p) == UnitPrice(db.stocks, db.factors, p)
    {
      AlonePart(db, user, p);
    }
    assert Prices(mine.stocks, db.factors, PartsIn(used)) == Prices(db.stocks, db.factors, PartsIn(used));
  }

  lemma {:induction false} AloneRecost(db: Db, ids: set<nat>, now: nat, user: nat)
    requires UsesOwned(db)
    ensures Mine(Recosted(db, ids, now), user) == Recosted(Mine(db, user), ids, now)
  {
    forall r | r in Mine(db, user).records ensures Cost(Mine(db, user), r) == Cost(db, r) { AloneCost(db, user, r); }
    SameCostsRecost(db, Mine(db, user), ids, now, user);
  }

  lemma {:induction false} SameCostsRecost(db: Db, mine: Db, ids: set<nat>, now: nat, user: nat)
    requires mine.records == Only(db.records, OwnRecords(user))
    requires forall r :: r in mine.records ==> Cost(mine, r) == Cost(db, r)
    ensures Only(Recosted(db, ids, now).records, OwnRecords(user)) == Recosted(mine, ids, now).records
  {
    var after, mineAfter := Recosted(db, ids, now).records, Recosted(mine, ids, now).records;
    forall r | r in db.records ensures after[r].cols.user == db.records[r].cols.user {
      RecostedRow(db, ids, now, r);
    }
    forall r | r in mine.records ensures after[r] == mineAfter[r] {
      RecostedRow(db, ids, now, r);
      RecostedRow(mine, ids, now, r);
    }
    SameOwnersSameRows(db.records, after, mine.records, mineAfter, OwnRecords(user));
  }

  function CostedRow(r: Row<Record>, cost: Option<real>, now: nat): Row<Record> {
    if r.cols.partsCost != cost then Written(r, r.cols.(partsCost := cost), now) else r
  }

  lemma {:induction false} RecostedRow(db: Db, ids: set<nat>, now: nat, r: nat)
    requires r in db.records
    ensures r in Recosted(db, ids, now).records
    ensures Recosted(db, ids, now).records[r]
         == if r in ids then CostedRow(db.records[r], Cost(db, r), now) else db.records[r]
  {}

  lemma {:induction false} SameOwnersSameRows<T>(t: Table<T>, after: Table<T>, mine: Table<T>, mineAfter: Table<T>,
                                                 own: T -> bool)
    requires mine == Only(t, own) && after.Keys == t.Keys && mineAfter.Keys == mine.Keys
    requires forall id :: id in t ==> (own(after[id].cols) <==> own(t[id].cols))
    requires forall id :: id in mine ==> after[id] == mineAfter[id]
    ensures Only(after, own) == mineAfter
  {}

  lemma {:induction false} AlonePartGone(db: Db, user: nat, now: nat, id: nat)
    requires Owned(db)
    ensures Mine(DeletePartIn(db, user, now, id), user) == DeletePartIn(Mine(db, user), user, now, id)
  {
    AloneRows(db, user, id);
    if LivePart(db, user, id) {
      var gone := WithoutPart(db, id, now);
      WriteOwn(db.parts, OwnParts(user), id, Tombstone(db.parts[id], now));
      TombstoneOwn(db.stocks, OwnStock(db.parts, user), (s: Stock) => s.part == id, now);
      TombstoneOwn(db.consumptions, OwnUses(db.parts, user), (c: Consumption) => c.part == id, now);
      SamePartsSameRest(db.(stocks := gone.stocks, consumptions := gone.consumptions), gone.parts, user);
      AloneUsing(db, user, id);
      PartGoneOwned(db, now, id);
      AloneRecost(gone, RecordsUsing(db.consumptions, id), now, user);
    }
  }

  lemma {:induction false} AloneUse(db: Db, user: nat, id: nat, row: Row<Consumption>, now: nat)
    requires Owned(db) && IsPartOf(db.parts, user, row.cols.part)
    requires row.Live() ==> db.parts[row.cols.part].Live() && BookedWith(db.records, row.cols.record, user)
    ensures Mine(Recosted(db.(consumptions := db.consumptions[id := row]), RecordIds(row.cols.record), now), user)
         == Recosted(Mine(db, user).(consumptions := Mine(db, user).consumptions[id := row]),
                     RecordIds(row.cols.record), now)
  {
    var changed := db.(consumptions := db.consumptions[id := row]);
    WriteOwn(db.consumptions, OwnUses(db.parts, user), id, row);
    assert UsesOwned(changed);
    AloneRecost(changed, RecordIds(row.cols.record), now, user);
  }

  lemma {:induction false} AloneCreateUse(db: Db, user: nat, now: nat, id: nat, c: Consumption)
    requires Owned(db) && !KeyElsewhere(db, user, CreateConsumption(id, c))
    ensures Mine(CreateConsumptionIn(db, user, now, id, c), user)
         == CreateConsumptionIn(Mine(db, user), user, now, id, c)
  {
    ConsumptionKeyAlone(db, user, CreateConsumption(id, c));
    AloneRows(db, user, c.part);
    if c.record.Some? { AloneRows(db, user, c.record.value); }
    if LivePart(db, user, c.part) { AlonePart(db, user, c.part); }
    if MayConsume(db, user, c) { AloneUse(db, user, id, Inserted(c, now), now); }
  }

  lemma {:induction false} AloneReconsume(db: Db, user: nat, id: nat, n: Option<int>)
    ensures MayReconsume(Mine(db, user), user, id, n) == MayReconsume(db, user, id, n)
  {
    AloneRows(db, user, id);
    if LiveConsumption(db, user, id) { AlonePart(db, user, db.consumptions[id].cols.part); }
  }

  lemma {:induction false} AloneUpdateUse(db: Db, user: nat, now: nat, id: nat, n: Option<int>)
    requires Owned(db)
    ensures Mine(UpdateConsumptionIn(db, user, now, id, n), user)
         == UpdateConsumptionIn(Mine(db, user), user, now, id, n)
  {
    AloneReconsume(db, user, id, n);
    if MayReconsume(db, user, id, n) {
      var row := db.consumptions[id];
      assert Mine(db, user).consumptions[id] == row;
      AloneUse(db, user, id, Written(row, row.cols.(quantity := n.GetOr(row.cols.quantity)), now), now);
    }
  }

  lemma {:induction false} AloneDeleteUse(db: Db, user: nat, now: nat, id: nat)
    requires Owned(db)
    ensures Mine(DeleteConsumptionIn(db, user, now, id), user) == DeleteConsumptionIn(Mine(db, user), user, now, id)
  {
    AloneRows(db, user, id);
    if LiveConsumption(db, user, id) { AloneUse(db, user, id, Tombstone(db.consumptions[id], now), now); }
  }

  lemma {:induction false} AloneRecords(db: Db, user: nat, now: nat, q: Request)
    requires Owned(db) && NewId(db, q) && (q.CreateRecord? || q.DeleteRecord?)
    ensures Mine(Apply(db, user, now, q), user) == Apply(Mine(db, user), user, now, q)
  {
    if q.CreateRecord? {
      WriteOwn(db.records, OwnRecords(user), q.id, Inserted(Record(user, None), now));
    } else {
      AloneRows(db, user, q.id);
      if LiveRecord(db, user, q.id) {
        WriteOwn(db.records, OwnRecords(user), q.id, Tombstone(db.records[q.id], now));
        TombstoneOwn(db.consumptions, OwnUses(db.parts, user), (c: Consumption) => c.record == Some(q.id), now);
      }
    }
  }

  lemma {:induction false} UnboundOwn(consumptions: Table<Consumption>, parts: Table<Part>, user: nat, gone: set<nat>)
    ensures Only(Unbound(consumptions, gone), OwnUses(parts, user))
         == Unbound(Only(consumptions, OwnUses(parts, user)), gone)
  {
    forall c | c in consumptions ensures Unbound(consumptions, gone)[c].cols.part == consumptions[c].cols.part {}
  }

  /** A hard delete takes what it takes, whoever asked for it. */
  lemma {:induction false} AloneErase(db: Db, user: nat, gone: set<nat>)
    ensures Mine(EraseRecordsIn(db, gone), user) == EraseRecordsIn(Mine(db, user), gone)
  {
    assert Only(db.records - gone, OwnRecords(user)) == Only(db.records, OwnRecords(user)) - gone;
    UnboundOwn(db.consumptions, db.parts, user, gone);
  }

  lemma {:induction false} AloneRelocate(db: Db, places: set<nat>, target: Option<nat>, user: nat)
    ensures Mine(db.(nodes := Relocated(db.nodes, places, target), places := db.places - places), user)
         == Mine(db, user).(nodes := Relocated(Mine(db, user).nodes, places, target),
                            places := Mine(db, user).places - places)
  {
    assert Only(Relocated(db.nodes, places, target), OwnNodes(user))
        == Relocated(Only(db.nodes, OwnNodes(user)), places, target);
    assert OwnPlaces(db.places - places, user) == OwnPlaces(db.places, user) - places;
  }

  lemma {:induction false} AlonePlaceNew(db: Db, user: nat, id: nat)
    ensures Mine(db.(places := db.places[id := user]), user)
         == Mine(db, user).(places := Mine(db, user).places[id := user])
  {
    assert OwnPlaces(db.places[id := user], user) == OwnPlaces(db.places, user)[id := user];
  }

  lemma {:induction false} AlonePlacesMerged(db: Db, user: nat, canonical: nat, duplicates: set<nat>)
    ensures Mine(MergePlacesIn(db, user, canonical, duplicates), user)
         == MergePlacesIn(Mine(db, user), user, canonical, duplicates)
  {
    AloneMerge(db, user, canonical, duplicates);
    AloneRelocate(db, duplicates - {canonical}, Some(canonical), user);
  }

  lemma {:induction false} AlonePlaceGone(db: Db, user: nat, id: nat)
    ensures Mine(DeletePlaceIn(db, user, id), user) == DeletePlaceIn(Mine(db, user), user, id)
  {
    AloneRows(db, user, id);
    AloneRelocate(db, {id}, None, user);
  }

  lemma {:induction false} AloneMerge(db: Db, user: nat, canonical: nat, duplicates: set<nat>)
    ensures MayMerge(Mine(db, user), user, canonical, duplicates) == MayMerge(db, user, canonical, duplicates)
  {
    forall p ensures Owns(Mine(db, user), user, p) == Owns(db, user, p) { AloneRows(db, user, p); }
  }

  lemma {:induction false} AlonePlaces(db: Db, user: nat, now: nat, q: Request)
    requires q.CreatePlace? || q.DeletePlace? || q.MergePlaces?
    ensures Mine(Apply(db, user, now, q), user) == Apply(Mine(db, user), user, now, q)
  {
    match q
    case CreatePlace(id) => AlonePlaceNew(db, user, id);
    case DeletePlace(id) => AlonePlaceGone(db, user, id);
    case MergePlaces(canonical, duplicates) => AlonePlacesMerged(db, user, canonical, duplicates);
  }

  lemma {:induction false} AloneUses(db: Db, user: nat, now: nat, q: Request)
    requires Owned(db) && !KeyElsewhere(db, user, q)
    requires q.CreateConsumption? || q.UpdateConsumption? || q.DeleteConsumption?
    ensures Mine(Apply(db, user, now, q), user) == Apply(Mine(db, user), user, now, q)
  {
    match q
    case CreateConsumption(id, c) => AloneCreateUse(db, user, now, id, c);
    case UpdateConsumption(id, n) => AloneUpdateUse(db, user, now, id, n);
    case DeleteConsumption(id) => AloneDeleteUse(db, user, now, id);
  }

  /** A request makes of a user's rows what it would make of them in tables that hold no others. */
  lemma {:induction false} AsIfAlone(db: Db, user: nat, now: nat, q: Request)
    requires Owned(db) && Linked(db) && NewId(db, q) && !KeyElsewhere(db, user, q)
    ensures Mine(Apply(db, user, now, q), user) == Apply(Mine(db, user), user, now, q)
  {
    if q.CreateNode? || q.UpdateNode? {
      AloneNodes(db, user, now, q);
    } else if q.DeleteNode? {
      AloneNodeGone(db, user, now, q.id);
    } else if q.CreatePart? || q.UpdatePart? {
      AloneParts(db, user, now, q);
    } else if q.DeletePart? {
      AlonePartGone(db, user, now, q.id);
    } else if q.CreateStock? || q.UpdateStock? || q.DeleteStock? {
      AloneStock(db, user, now, q);
    } else if q.CreateConsumption? || q.UpdateConsumption? || q.DeleteConsumption? {
      AloneUses(db, user, now, q);
    } else if q.CreateRecord? || q.DeleteRecord? {
      AloneRecords(db, user, now, q);
    } else if q.EraseRecords? {
      AloneErase(db, user, q.gone);
    } else {
      AlonePlaces(db, user, now, q);
    }
  }

  /** A key held elsewhere makes the difference exactly when the request would otherwise have done something. */
  lemma {:induction false} AloneExactlyUnless(db: Db, user: nat, now: nat, q: Request)
    requires Owned(db) && Linked(db) && NewId(db, q)
    ensures Mine(Apply(db, user, now, q), user) == Apply(Mine(db, user), user, now, q)
       <==> (KeyElsewhere(db, user, q) ==> Apply(Mine(db, user), user, now, q) == Mine(db, user))
  {
    if KeyElsewhere(db, user, q) {
      assert Apply(db, user, now, q) == db;
    } else {
      AsIfAlone(db, user, now, q);
    }
  }

  /** The smallest case: the second user's part is refused for a key on the first user's. */
  lemma {:induction false} SharedKeyIsRefused(key: string, now: nat)
    ensures var theirs: Table<Part> := map[1 := Inserted(Part(1, "11 42", "Filter", Some(key)), 0)];
            var db := Db(theirs, map[], map[], map[], map[], map[], map[]);
            var q := CreatePart(2, "11 42", "Filter", Some(key));
            && Owned(db) && Linked(db) && NewId(db, q)
            && Apply(db, 2, now, q) == db && 2 in Apply(Mine(db, 2), 2, now, q).parts
  {
    var theirs: Table<Part> := map[1 := Inserted(Part(1, "11 42", "Filter", Some(key)), 0)];
    var db := Db(theirs, map[], map[], map[], map[], map[], map[]);
    assert 1 in db.parts && TakenPart(db, Some(key));
    assert Mine(db, 2).parts == map[];
  }

  // -------------------------------------------------------------------------- over runs

  /** The user's own requests, and the hard deletes, in their order. */
  function OwnRequests(actions: seq<Action>, user: nat): seq<Action>
    decreases |actions|
  {
    if actions == [] then []
    else if actions[0].user == user || actions[0].request.EraseRecords?
    then [actions[0].(user := user)] + OwnRequests(actions[1..], user)
    else OwnRequests(actions[1..], user)
  }

  /** None of the user's requests brings a client key that is another user's by then. */
  ghost predicate KeysApart(db: Db, actions: seq<Action>, user: nat)
    decreases |actions|
  {
    actions != [] ==>
      && (actions[0].user == user ==> !KeyElsewhere(db, user, actions[0].request))
      && KeysApart(Apply(db, actions[0].user, actions[0].now, actions[0].request), actions[1..], user)
  }

  /** However the requests of all users interleave, a user's rows are what that user's requests alone make of them. */
  lemma {:induction false} RunsAreSeparate(db: Db, actions: seq<Action>, user: nat)
    requires Owned(db) && NodesOk(db.nodes) && StorageOk(db) && Linked(db) && Legal(db, actions)
    requires KeysApart(db, actions, user)
    ensures Mine(Exec(db, actions), user) == Exec(Mine(db, user), OwnRequests(actions, user))
    decreases |actions|
  {
    if actions != [] {
      var a, rest := actions[0], actions[1..];
      var next := Apply(db, a.user, a.now, a.request);
      RequestsKeepOwned(db, a.user, a.now, a.request);
      EveryRequestKeepsTheTree(db, a.user, a.now, a.request);
      EveryWriterSteps(db, a.user, a.now, a.request, a.now - 1);
      RunsAreSeparate(next, rest, user);
      if a.user == user || a.request.EraseRecords? {
        AsIfAlone(db, user, a.now, a.request);
        assert OwnRequests(actions, user)[1..] == OwnRequests(rest, user);
      } else {
        OthersLeaveMine(db, a.user, a.now, a.request, user);
      }
    }
  }
}
