/** The storage tree under create, move and delete: what stays true of it in every run. */
module StorageTree {
  import opened Options
  import opened ParentGraph
  import opened SyncTables
  import opened Inventory

  ghost predicate NodeOk(nodes: Table<Node>, n: nat)
    requires n in nodes
  {
    var c := nodes[n].cols;
    && (c.parent.Some? ==> LiveNode(nodes, c.user, c.parent.value) && c.place.None?)
    && Rooted(ParentsOf(nodes), n)
  }

  /** Every live node hangs from live nodes of its user up to a root; only roots carry a place. */
  ghost predicate NodesOk(nodes: Table<Node>) { forall n :: n in nodes && nodes[n].Live() ==> NodeOk(nodes, n) }

  /** Live stock lies nowhere or in a live node. */
  ghost predicate StorageOk(db: Db) {
    forall s :: s in db.stocks && db.stocks[s].Live() && db.stocks[s].cols.storage.Some?
      ==> db.stocks[s].cols.storage.value in db.nodes && db.nodes[db.stocks[s].cols.storage.value].Live()
  }

  ghost predicate TreeOk(db: Db) { NodesOk(db.nodes) && StorageOk(db) }

  // ------------------------------------------------------------------ the cycle check

  /** The chain up from `p` ends after `k` steps and does not meet `id`. */
  ghost predicate EndsClear(g: Parents, id: nat, p: nat, k: nat) {
    Up(g, p, k) == None && forall j: nat :: j < k ==> Up(g, p, j) != Some(id)
  }

  lemma {:induction false} EndsClearStep(g: Parents, id: nat, p: nat, k: nat)
    ensures !EndsClear(g, id, p, 0)
    ensures EndsClear(g, id, p, k + 1)
       <==> p != id && if ParentOf(g, p).None? then true else EndsClear(g, id, ParentOf(g, p).value, k)
  {
    assert Up(g, p, 0) == Some(p);
    var up := ParentOf(g, p);
    if up.Some? {
      forall j: nat ensures Up(g, p, j + 1) == Up(g, up.value, j) {}
      if p != id && EndsClear(g, id, up.value, k) {
        forall j: nat | j < k + 1 ensures Up(g, p, j) != Some(id) {
          if j > 0 { assert Up(g, p, j - 1 + 1) == Up(g, up.value, j - 1); }
        }
      }
      if EndsClear(g, id, p, k + 1) {
        forall j: nat | j < k ensures Up(g, up.value, j) != Some(id) { assert Up(g, p, j + 1) != Some(id); }
      }
    } else {
      forall j: nat | 0 < j <= k + 1 ensures Up(g, p, j) == None {}
    }
  }

  /** The capped walk accepts exactly the parents whose chain ends in time without meeting `id`. */
  lemma {:induction false} ChainClearMeans(g: Parents, id: nat, p: nat, steps: nat)
    ensures ChainClear(g, id, Some(p), steps) <==> exists k: nat :: k < steps && EndsClear(g, id, p, k)
    decreases steps
  {
    if steps > 0 {
      var up := ParentOf(g, p);
      assert !ChainClear(g, id, up, 0);
      if up.Some? { ChainClearMeans(g, id, up.value, steps - 1); }
      if ChainClear(g, id, Some(p), steps) {
        assert steps > 1;
        var k: nat := 0;
        if up.Some? { k :| k < steps - 1 && EndsClear(g, id, up.value, k); }
        EndsClearStep(g, id, p, k);
        assert EndsClear(g, id, p, k + 1);
      }
      if k: nat :| k < steps && EndsClear(g, id, p, k) {
        EndsClearStep(g, id, p, if k == 0 then 0 else k - 1);
      }
    }
  }

  /** Moving `id` under a parent whose chain does not meet it keeps every chain ending. */
  lemma {:induction false} MoveKeepsRooted(g: Parents, id: nat, parent: Option<nat>, x: nat)
    requires Rooted(g, x) && id in g
    requires parent.Some? ==> exists k: nat :: EndsClear(g, id, parent.value, k)
    ensures Rooted(g[id := parent], x)
  {
    var g' := g[id := parent];
    var m: nat :| Up(g, x, m) == None;
    if forall j: nat :: j < m ==> Up(g, x, j) != Some(id) {
      UpUnchanged(g, g', x, m, id);
    } else {
      var j := FirstMeeting(g, id, x, m);
      UpUnchanged(g, g', x, j, id);
      var k: nat := 0;
      if parent.Some? {
        k :| EndsClear(g, id, parent.value, k);
        UpUnchanged(g, g', parent.value, k, id);
      }
      assert Up(g', id, k + 1) == None;
      UpAdd(g', x, j, k + 1);
    }
  }

  lemma {:induction false} FirstMeeting(g: Parents, id: nat, x: nat, m: nat) returns (j: nat)
    requires exists j: nat :: j < m && Up(g, x, j) == Some(id)
    ensures j < m && Up(g, x, j) == Some(id) && forall i: nat :: i < j ==> Up(g, x, i) != Some(id)
  {
    j := 0;
    while Up(g, x, j) != Some(id)
      invariant j < m && (forall i: nat :: i < j ==> Up(g, x, i) != Some(id))
      decreases m - j
    {
      j := j + 1;
    }
  }

  // -------------------------------------------------------------------- deletion

  lemma {:induction false} AboveStep(g: Parents, a: nat, x: nat)
    ensures Above(g, a, x) <==> a == x || (ParentOf(g, x).Some? && Above(g, a, ParentOf(g, x).value))
  {
    assert Up(g, x, 0) == Some(x);
    var up := ParentOf(g, x);
    if Above(g, a, x) && a != x {
      var k: nat :| Up(g, x, k) == Some(a);
      assert up.Some? && Up(g, up.value, k - 1) == Some(a);
    }
    if up.Some? && Above(g, a, up.value) {
      var k: nat :| Up(g, up.value, k) == Some(a);
      assert Up(g, x, k + 1) == Some(a);
    }
  }

  /** The tree a deletion leaves: children of the deleted node move up to its parent. */
  ghost predicate Spliced(nodes: Table<Node>, after: Table<Node>, id: nat)
    requires id in nodes
  {
    && after.Keys == nodes.Keys
    && forall n :: n in nodes && n != id && nodes[n].Live() ==>
         && after[n].Live() && after[n].cols.user == nodes[n].cols.user && after[n].cols.place == nodes[n].cols.place
         && after[n].cols.parent
            == if nodes[n].cols.parent == Some(id) then nodes[id].cols.parent else nodes[n].cols.parent
  }

  lemma {:induction false} DeletionSplices(nodes: Table<Node>, user: nat, id: nat, now: nat)
    requires LiveNode(nodes, user, id)
    ensures Spliced(nodes, NodesWithout(nodes, id, now), id)
    ensures forall n :: n in nodes ==> (NodesWithout(nodes, id, now)[n].Live() <==> n != id && nodes[n].Live())
  {}

  /** Among the nodes that remain, deletion leaves the ancestor relation as it was, and every chain still ends. */
  lemma {:induction false} DeletionKeepsAncestors(nodes: Table<Node>, after: Table<Node>, id: nat, a: nat, x: nat,
                                                  k: nat)
    requires NodesOk(nodes) && id in nodes && nodes[id].Live() && Spliced(nodes, after, id)
    requires x in nodes && nodes[x].Live() && x != id && a != id && Up(ParentsOf(nodes), x, k) == None
    ensures Above(ParentsOf(after), a, x) <==> Above(ParentsOf(nodes), a, x)
    ensures Rooted(ParentsOf(after), x)
    decreases k
  {
    var g, g' := ParentsOf(nodes), ParentsOf(after);
    var up, up' := nodes[x].cols.parent, after[x].cols.parent;
    assert k > 0 && ParentOf(g, x) == up && ParentOf(g', x) == up';
    AboveStep(g, a, x);
    AboveStep(g', a, x);
    if up == Some(id) {
      AboveStep(g, a, id);
      assert Up(g, id, k - 1) == None && k > 1;
      if up'.Some? {
        assert up'.value != id by { NoSelfParent(nodes, id); }
        assert Up(g, up'.value, k - 2) == None;
        DeletionKeepsAncestors(nodes, after, id, a, up'.value, k - 2);
      }
    } else if up.Some? {
      assert Up(g, up.value, k - 1) == None;
      DeletionKeepsAncestors(nodes, after, id, a, up.value, k - 1);
    }
    RootedStep(g', x);
  }

  lemma {:induction false} RootedStep(g: Parents, x: nat)
    requires ParentOf(g, x).None? || Rooted(g, ParentOf(g, x).value)
    ensures Rooted(g, x)
  {
    var m: nat := 0;
    if ParentOf(g, x).Some? { m :| Up(g, ParentOf(g, x).value, m) == None; }
    assert Up(g, x, m + 1) == None;
  }

  lemma {:induction false} NoSelfParent(nodes: Table<Node>, id: nat)
    requires id in nodes && NodeOk(nodes, id)
    ensures nodes[id].cols.parent != Some(id)
  {
    var g := ParentsOf(nodes);
    if nodes[id].cols.parent == Some(id) {
      assert Up(g, id, 0) == Some(id) && Up(g, id, 1) == Some(id);
      NoCycle(g, id, 0, 1, id);
    }
  }

  /** Who lies above whom among the live nodes other than `id`. */
  ghost predicate SameAncestors(before: Table<Node>, after: Table<Node>, id: nat) {
    forall a, x :: Remains(before, a, id) && Remains(before, x, id) ==>
      (Above(ParentsOf(after), a, x) <==> Above(ParentsOf(before), a, x))
  }

  predicate Remains(nodes: Table<Node>, n: nat, id: nat) { n in nodes && nodes[n].Live() && n != id }

  /** The same statement about the request: for all live nodes other than the one deleted. */
  lemma {:induction false} DeleteNodeKeepsAncestors(db: Db, user: nat, now: nat, id: nat)
    requires TreeOk(db) && LiveNode(db.nodes, user, id)
    ensures SameAncestors(db.nodes, DeleteNodeIn(db, user, now, id).nodes, id)
  {
    var after := NodesWithout(db.nodes, id, now);
    DeletionSplices(db.nodes, user, id, now);
    forall a, x | Remains(db.nodes, a, id) && Remains(db.nodes, x, id)
      ensures Above(ParentsOf(after), a, x) <==> Above(ParentsOf(db.nodes), a, x)
    {
      assert NodeOk(db.nodes, x);
      var k: nat :| Up(ParentsOf(db.nodes), x, k) == None;
      DeletionKeepsAncestors(db.nodes, after, id, a, x, k);
    }
  }

  // ---------------------------------------------------------------- every request

  predicate Hangs(nodes: Table<Node>, c: Node) {
    c.parent.Some? ==> LiveNode(nodes, c.user, c.parent.value) && c.place.None?
  }

  lemma {:induction false} NewNodeKeeps(nodes: Table<Node>, id: nat, r: Row<Node>)
    requires NodesOk(nodes) && id !in nodes && r.Live() && Hangs(nodes, r.cols)
    ensures NodesOk(nodes[id := r])
  {
    var after := nodes[id := r];
    var g, g' := ParentsOf(nodes), ParentsOf(after);
    assert g' == g[id := r.cols.parent];
    forall n | n in after && after[n].Live() ensures NodeOk(after, n) {
      if n != id {
        assert NodeOk(nodes, n);
        NewLeafKeepsChain(nodes, g', id, n);
      } else {
        if r.cols.parent.Some? { NewLeafKeepsChain(nodes, g', id, r.cols.parent.value); }
        RootedStep(g', n);
      }
    }
  }

  lemma {:induction false} CreateNodeKeeps(db: Db, user: nat, now: nat, q: Request)
    requires TreeOk(db) && q.CreateNode? && q.id !in db.nodes
    ensures TreeOk(CreateNodeIn(db, user, now, q))
  {
    var after := CreateNodeIn(db, user, now, q);
    if after != db { NewNodeKeeps(db.nodes, q.id, after.nodes[q.id]); }
  }

  lemma {:induction false} NewLeafKeepsChain(nodes: Table<Node>, g': Parents, id: nat, n: nat)
    requires NodesOk(nodes) && n in nodes && nodes[n].Live() && id !in nodes
    requires forall y :: y != id ==> ParentOf(g', y) == ParentOf(ParentsOf(nodes), y)
    ensures Rooted(g', n)
  {
    assert NodeOk(nodes, n);
    var g := ParentsOf(nodes);
    var m: nat :| Up(g, n, m) == None;
    forall j: nat | j < m ensures Up(g, n, j) != Some(id) { ChainIsLive(nodes, n, j); }
    UpUnchanged(g, g', n, m, id);
  }

  lemma {:induction false} ChainIsLive(nodes: Table<Node>, n: nat, j: nat)
    requires NodesOk(nodes) && n in nodes && nodes[n].Live()
    ensures Up(ParentsOf(nodes), n, j).Some? ==> LiveNode(nodes, nodes[n].cols.user, Up(ParentsOf(nodes), n, j).value)
    decreases j
  {
    if j > 0 && nodes[n].cols.parent.Some? {
      assert NodeOk(nodes, n);
      ChainIsLive(nodes, nodes[n].cols.parent.value, j - 1);
    }
  }

  lemma {:induction false} MovedNodeKeeps(nodes: Table<Node>, id: nat, r: Row<Node>)
    requires NodesOk(nodes) && id in nodes && r.Live() && r.cols.user == nodes[id].cols.user && Hangs(nodes, r.cols)
    requires r.cols.parent.Some? ==> exists k: nat :: EndsClear(ParentsOf(nodes), id, r.cols.parent.value, k)
    requires nodes[id].Live()
    ensures NodesOk(nodes[id := r])
  {
    var after := nodes[id := r];
    var g := ParentsOf(nodes);
    assert ParentsOf(after) == g[id := r.cols.parent];
    forall n | n in after && after[n].Live() ensures NodeOk(after, n) {
      assert NodeOk(nodes, n);
      MoveKeepsRooted(g, id, r.cols.parent, n);
    }
  }

  lemma {:induction false} UpdateNodeKeeps(db: Db, user: nat, now: nat, q: Request)
    requires TreeOk(db) && q.UpdateNode?
    ensures TreeOk(UpdateNodeIn(db, user, now, q))
  {
    var after := UpdateNodeIn(db, user, now, q);
    if after.nodes != db.nodes {
      var r := after.nodes[q.id];
      assert NodeOk(db.nodes, q.id);
      assert after == db.(nodes := db.nodes[q.id := r]) && r.Live() && Hangs(db.nodes, r.cols);
      MoveIsClear(db, user, q);
      MovedNodeKeeps(db.nodes, q.id, r);
    }
  }

  /** Whether the request moves the node or leaves it where it is, the chain above it avoids it. */
  lemma {:induction false} MoveIsClear(db: Db, user: nat, q: Request)
    requires TreeOk(db) && q.UpdateNode? && LiveNode(db.nodes, user, q.id) && MayUpdateNode(db, user, q)
    ensures var parent := q.newParent.GetOr(db.nodes[q.id].cols.parent);
            parent.Some? ==> exists k: nat :: EndsClear(ParentsOf(db.nodes), q.id, parent.value, k)
  {
    var g, parent := ParentsOf(db.nodes), q.newParent.GetOr(db.nodes[q.id].cols.parent);
    if parent.Some? {
      if q.newParent.Some? {
        ChainClearMeans(g, q.id, parent.value, MAX_HIERARCHY_DEPTH);
      } else {
        assert NodeOk(db.nodes, q.id);
        ParentIsClear(g, q.id);
      }
    }
  }

  lemma {:induction false} ParentIsClear(g: Parents, id: nat)
    requires Rooted(g, id) && ParentOf(g, id).Some?
    ensures exists k: nat :: EndsClear(g, id, ParentOf(g, id).value, k)
  {
    var p := ParentOf(g, id).value;
    var m: nat :| Up(g, id, m) == None;
    assert m > 0 && Up(g, p, m - 1) == None;
    forall j: nat | j < m - 1 ensures Up(g, p, j) != Some(id) {
      if Up(g, p, j) == Some(id) {
        assert Up(g, id, j + 1) == Some(id) && Up(g, id, 0) == Some(id);
        NoCycle(g, id, 0, j + 1, id);
      }
    }
    assert EndsClear(g, id, p, m - 1);
  }

  lemma {:induction false} DeleteNodeKeeps(db: Db, user: nat, now: nat, id: nat)
    requires TreeOk(db)
    ensures TreeOk(DeleteNodeIn(db, user, now, id))
  {
    if LiveNode(db.nodes, user, id) {
      var after := NodesWithout(db.nodes, id, now);
      DeletionSplices(db.nodes, user, id, now);
      assert NodeOk(db.nodes, id);
      NoSelfParent(db.nodes, id);
      forall n | n in after && after[n].Live() ensures NodeOk(after, n) {
        assert NodeOk(db.nodes, n);
        var k: nat :| Up(ParentsOf(db.nodes), n, k) == None;
        DeletionKeepsAncestors(db.nodes, after, id, n, n, k);
      }
    }
  }

  lemma {:induction false} RelocationKeepsTree(db: Db, gone: set<nat>, target: Option<nat>)
    requires TreeOk(db)
    ensures TreeOk(db.(nodes := Relocated(db.nodes, gone, target), places := db.places - gone))
  {
    var after := Relocated(db.nodes, gone, target);
    assert ParentsOf(after) == ParentsOf(db.nodes);
    forall n | n in after && after[n].Live() ensures NodeOk(after, n) { assert NodeOk(db.nodes, n); }
  }

  /** Requests that leave the nodes alone and put live stock only where the rule allows. */
  lemma {:induction false} OthersKeep(db: Db, user: nat, now: nat, q: Request)
    requires TreeOk(db) && !q.CreateNode? && !q.UpdateNode? && !q.DeleteNode? && !q.DeletePlace? && !q.MergePlaces?
    ensures TreeOk(Apply(db, user, now, q))
  {}

  lemma {:induction false} EveryRequestKeepsTheTree(db: Db, user: nat, now: nat, q: Request)
    requires TreeOk(db) && NewId(db, q)
    ensures TreeOk(Apply(db, user, now, q))
  {
    match q
    case CreateNode(_, _, _, _, _) => CreateNodeKeeps(db, user, now, q);
    case UpdateNode(_, _, _, _) => UpdateNodeKeeps(db, user, now, q);
    case DeleteNode(id) => DeleteNodeKeeps(db, user, now, id);
    case DeletePlace(id) => RelocationKeepsTree(db, {id}, None);
    case MergePlaces(canonical, duplicates) => RelocationKeepsTree(db, duplicates - {canonical}, Some(canonical));
    case _ => OthersKeep(db, user, now, q);
  }

  /** In every run by any users: no cycle, no dangling parent, places on roots only, stock in live nodes. */
  lemma {:induction false} RunsKeepTheTree(db: Db, actions: seq<Action>)
    requires TreeOk(db) && Legal(db, actions)
    ensures TreeOk(Exec(db, actions))
    decreases |actions|
  {
    if actions != [] {
      var a := actions[0];
      EveryRequestKeepsTheTree(db, a.user, a.now, a.request);
      RunsKeepTheTree(Apply(db, a.user, a.now, a.request), actions[1..]);
    }
  }
}
