/**
  The model catalogue: a forest Familie > Serie > Modell of global nodes and users'
  own nodes.  A handler only sees one user's view of it and only walks six steps;
  the theorems say that this is exactly enough for the whole table.
*/
module ModelCatalogue {
  import opened Options
  import opened ParentGraph

  const MAX_DEPTH: nat := 3
  const WALK: nat := MAX_DEPTH * 2

  datatype Node = Node(manufacturer: string, name: string, parent: Option<nat>, owner: Option<nat>)
  type Rows = map<nat, Node>

  function ParentsOf(rows: Rows): Parents { map id | id in rows :: rows[id].parent }

  predicate Visible(node: Node, user: nat) { node.owner == None || node.owner == Some(user) }

  /** `accessible_tree` */
  function View(rows: Rows, user: nat): Parents {
    map id | id in rows && Visible(rows[id], user) :: rows[id].parent
  }

  /** Every parent exists, and is global or of the child's own owner. */
  ghost predicate ParentsOk(rows: Rows) {
    forall x :: x in rows && rows[x].parent.Some? ==>
      && rows[x].parent.value in rows
      && (rows[rows[x].parent.value].owner == None || rows[rows[x].parent.value].owner == rows[x].owner)
  }

  /** No node has three ancestors, so in particular there is no cycle. */
  ghost predicate Shallow(g: Parents) { forall x :: x in g ==> Up(g, x, MAX_DEPTH) == None }

  ghost predicate CatalogueOk(rows: Rows) { ParentsOk(rows) && Shallow(ParentsOf(rows)) }

  lemma {:induction false} NoNodeIsItsOwnAncestor(rows: Rows, x: nat, k: nat)
    requires CatalogueOk(rows) && x in rows && k > 0
    ensures Up(ParentsOf(rows), x, k) != Some(x)
  {
    if Up(ParentsOf(rows), x, k) == Some(x) {
      CycleNeverEnds(ParentsOf(rows), x, k, MAX_DEPTH);
    }
  }

  // ------------------------------------------------------- one user's view is enough

  lemma {:induction false} ViewUp(rows: Rows, user: nat, x: nat, k: nat)
    requires ParentsOk(rows) && x in rows && Visible(rows[x], user)
    ensures Up(View(rows, user), x, k) == Up(ParentsOf(rows), x, k)
    decreases k
  {
    if k > 0 && rows[x].parent.Some? { ViewUp(rows, user, rows[x].parent.value, k - 1); }
  }

  lemma {:induction false} ViewIsShallow(rows: Rows, user: nat)
    requires CatalogueOk(rows)
    ensures Shallow(View(rows, user))
  {
    forall x | x in View(rows, user) ensures Up(View(rows, user), x, MAX_DEPTH) == None {
      ViewUp(rows, user, x, MAX_DEPTH);
    }
  }

  /** Some node lies `k` levels below `x`. */
  ghost predicate HasBelow(g: Parents, x: nat, k: nat) { exists d :: d in g && Up(g, d, k) == Some(x) }

  /** Everything below a user's own node is the user's own, hence in the view. */
  lemma {:induction false} BelowOwnIsOwn(rows: Rows, user: nat, d: nat, x: nat, k: nat)
    requires ParentsOk(rows) && d in rows && Up(ParentsOf(rows), d, k) == Some(x)
    requires x in rows && rows[x].owner == Some(user)
    ensures rows[d].owner == Some(user)
    decreases k
  {
    if k > 0 { BelowOwnIsOwn(rows, user, rows[d].parent.value, x, k - 1); }
  }

  lemma {:induction false} ViewBelow(rows: Rows, user: nat, x: nat, k: nat)
    requires ParentsOk(rows) && x in rows && rows[x].owner == Some(user)
    ensures HasBelow(View(rows, user), x, k) <==> HasBelow(ParentsOf(rows), x, k)
  {
    var g, view := ParentsOf(rows), View(rows, user);
    if HasBelow(g, x, k) {
      var d :| d in g && Up(g, d, k) == Some(x);
      BelowOwnIsOwn(rows, user, d, x, k);
      ViewUp(rows, user, d, k);
      assert d in view && Up(view, d, k) == Some(x);
    }
    if HasBelow(view, x, k) {
      var d :| d in view && Up(view, d, k) == Some(x);
      ViewUp(rows, user, d, k);
      assert d in g && Up(g, d, k) == Some(x);
    }
  }

  // -------------------------------------------------------------- re-parenting is exact

  /** What `update_model_series` checks in the view before re-parenting `sid` under `p`. */
  ghost predicate FitsUnder(view: Parents, p: nat, sid: nat) {
    && (forall k :: 0 <= k < WALK ==> Up(view, p, k) != Some(sid))
    && !Up(view, p, 2).Some?
    && !(Up(view, p, 1).Some? && HasBelow(view, sid, 1))
    && !HasBelow(view, sid, 2)
  }

  function Reparented(rows: Rows, sid: nat, p: Option<nat>): Rows
    requires sid in rows
  {
    rows[sid := rows[sid].(parent := p)]
  }

  lemma {:induction false} UpdateIsExact(rows: Rows, user: nat, sid: nat, p: nat)
    requires CatalogueOk(rows) && sid in rows && rows[sid].owner == Some(user)
    requires p in rows && Visible(rows[p], user)
    ensures FitsUnder(View(rows, user), p, sid) <==> CatalogueOk(Reparented(rows, sid, Some(p)))
  {
    var g, g' := ParentsOf(rows), ParentsOf(Reparented(rows, sid, Some(p)));
    forall k: nat ensures Up(View(rows, user), p, k) == Up(g, p, k) { ViewUp(rows, user, p, k); }
    ViewBelow(rows, user, sid, 1);
    ViewBelow(rows, user, sid, 2);
    if FitsUnder(g, p, sid) {
      forall x | x in g' ensures Up(g', x, MAX_DEPTH) == None { StillShallow(g, g', sid, p, x); }
    }
    if Shallow(g') { OnlyIfItFits(g, g', sid, p); }
  }

  lemma {:induction false} StillShallow(g: Parents, g': Parents, sid: nat, p: nat, x: nat)
    requires Shallow(g) && sid in g && g' == g[sid := Some(p)] && x in g && FitsUnder(g, p, sid)
    ensures Up(g', x, MAX_DEPTH) == None
  {
    UpUnchanged(g, g', p, 2, sid);
    UpUnchanged(g, g', p, 1, sid);
    if Up(g, x, 1) == Some(sid) { assert HasBelow(g, sid, 1); }
  }

  lemma {:induction false} OnlyIfItFits(g: Parents, g': Parents, sid: nat, p: nat)
    requires Shallow(g) && sid in g && p in g && g' == g[sid := Some(p)] && Shallow(g')
    ensures FitsUnder(g, p, sid)
  {
    forall k | 0 <= k < WALK ensures Up(g, p, k) != Some(sid) {
      if Up(g, p, k) == Some(sid) { FirstMeeting(g, g', sid, p, k); }
    }
    UpUnchanged(g, g', p, 2, sid);
    UpUnchanged(g, g', p, 1, sid);
    assert Up(g', sid, 3) == Up(g', p, 2);
    if HasBelow(g, sid, 1) {
      var d :| d in g && Up(g, d, 1) == Some(sid);
      assert d != sid ==> Up(g', d, 3) == Up(g', p, 1);
    }
    if HasBelow(g, sid, 2) {
      var d :| d in g && Up(g, d, 2) == Some(sid);
      assert d in g' && Up(g', d, 3) == None;
    }
  }

  /** If `sid` is above `p`, hanging `sid` under `p` closes a cycle. */
  lemma {:induction false} FirstMeeting(g: Parents, g': Parents, sid: nat, p: nat, k: nat)
    requires sid in g && g' == g[sid := Some(p)] && Up(g, p, k) == Some(sid)
    ensures !Shallow(g')
    decreases k
  {
    if j: nat :| j < k && Up(g, p, j) == Some(sid) {
      FirstMeeting(g, g', sid, p, j);
    } else {
      UpUnchanged(g, g', p, k, sid);
      assert Up(g', sid, k + 1) == Up(g', p, k) == Some(sid);
      CycleNeverEnds(g', sid, k + 1, MAX_DEPTH);
    }
  }

  /** A new leaf under `p` keeps the catalogue in order exactly when `p` is not a Modell. */
  lemma {:induction false} CreateIsExact(rows: Rows, user: nat, id: nat, node: Node)
    requires CatalogueOk(rows) && id !in rows && node.owner == Some(user)
    requires node.parent.Some? ==> node.parent.value in rows && Visible(rows[node.parent.value], user)
    ensures CatalogueOk(rows[id := node])
            <==> (node.parent.None? || Up(View(rows, user), node.parent.value, 2) == None)
  {
    var g, g' := ParentsOf(rows), ParentsOf(rows[id := node]);
    forall x, k: nat | x in g ensures Up(g', x, k) == Up(g, x, k) { OldNodesKeepUp(rows, g', id, x, k); }
    if node.parent.Some? {
      ViewUp(rows, user, node.parent.value, 2);
      assert Up(g', id, 3) == Up(g', node.parent.value, 2);
    }
    forall x | x in rows ensures rows[id := node][x] == rows[x] {}
  }

  lemma {:induction false} OldNodesKeepUp(rows: Rows, g': Parents, id: nat, x: nat, k: nat)
    requires ParentsOk(rows) && x in rows && id !in rows
    requires forall y :: y != id ==> ParentOf(g', y) == ParentOf(ParentsOf(rows), y)
    ensures Up(g', x, k) == Up(ParentsOf(rows), x, k)
    decreases k
  {
    if k > 0 && rows[x].parent.Some? { OldNodesKeepUp(rows, g', id, rows[x].parent.value, k - 1); }
  }

  // ------------------------------------------------------------- the bounded walks

  /** `depth_of`: the number of rows on the walk up, cut off after WALK steps. */
  method DepthOf(node: nat, tree: Parents) returns (depth: nat)
    ensures 1 <= depth <= WALK + 1
    ensures forall k :: 1 <= k <= WALK ==> (k < depth <==> Up(tree, node, k).Some?)
  {
    depth := 1;
    var current := node;
    for i := 0 to WALK
      invariant depth == i + 1 && Up(tree, node, i) == Some(current)
      invariant forall k :: 1 <= k <= i ==> Up(tree, node, k).Some?
    {
      UpAdd(tree, node, i, 1);
      if current in tree && tree[current].Some? {
        depth := depth + 1;
        current := tree[current].value;
      } else {
        forall k: nat | i < k ensures Up(tree, node, k) == None { UpStays(tree, node, i + 1, k); }
        return;
      }
    }
  }

  function Children(tree: Parents, node: nat): set<nat> { set c | c in tree && tree[c] == Some(node) }

  lemma {:induction false} BelowThroughChild(tree: Parents, node: nat, k: nat)
    requires k > 0
    ensures HasBelow(tree, node, k) <==> SomeBelow(tree, Children(tree, node), k - 1)
  {
    if HasBelow(tree, node, k) {
      var d :| d in tree && Up(tree, d, k) == Some(node);
      UpAdd(tree, d, k - 1, 1);
      var c := Up(tree, d, k - 1).value;
      assert c in tree && tree[c] == Some(node) && HasBelow(tree, c, k - 1);
    }
    if SomeBelow(tree, Children(tree, node), k - 1) {
      var c :| c in tree && tree[c] == Some(node) && HasBelow(tree, c, k - 1);
      var d :| d in tree && Up(tree, d, k - 1) == Some(c);
      UpAdd(tree, d, k - 1, 1);
    }
  }

  /** `subtree_height`'s `walk`: one more than the deepest level below `node`, cut off after `budget`. */
  method Walk(node: nat, tree: Parents, budget: nat) returns (height: nat)
    ensures 1 <= height <= budget + 1
    ensures forall k :: 1 <= k <= budget ==> (k < height <==> HasBelow(tree, node, k))
    decreases budget
  {
    if budget == 0 { return 1; }
    var children := Children(tree, node);
    var tallest: nat, todo: set<nat> := 0, children;
    while todo != {}
      invariant todo <= children && tallest <= budget && (tallest == 0 ==> todo == children)
      invariant forall k: nat :: k < budget ==> (k < tallest <==> SomeBelow(tree, children - todo, k))
      decreases |todo|
    {
      var c :| c in todo;
      var h := Walk(c, tree, budget - 1);
      assert Up(tree, c, 0) == Some(c);
      forall k: nat | k < budget
        ensures SomeBelow(tree, children - (todo - {c}), k) <==> (SomeBelow(tree, children - todo, k) || k < h)
      {
        assert HasBelow(tree, c, k) <==> k < h;
        if HasBelow(tree, c, k) { assert c in children - (todo - {c}); }
      }
      if h > tallest { tallest := h; }
      todo := todo - {c};
    }
    height := 1 + tallest;
    assert children - todo == children;
    forall k | 1 <= k <= budget ensures k < height <==> HasBelow(tree, node, k) {
      BelowThroughChild(tree, node, k);
    }
  }

  ghost predicate SomeBelow(tree: Parents, nodes: set<nat>, k: nat) {
    exists c :: c in nodes && HasBelow(tree, c, k)
  }

  /** The cycle check: does walking up from `p` meet `sid` within WALK rows? */
  method Meets(p: nat, sid: nat, tree: Parents) returns (met: bool)
    ensures met <==> exists k :: 0 <= k < WALK && Up(tree, p, k) == Some(sid)
  {
    met := false;
    var current := Some(p);
    for i := 0 to WALK
      invariant current == Up(tree, p, i)
      invariant forall k :: 0 <= k < i ==> Up(tree, p, k) != Some(sid)
    {
      if current.None? {
        forall k: nat | i <= k ensures Up(tree, p, k) == None { UpStays(tree, p, i, k); }
        return;
      }
      if current.value == sid { return true; }
      UpAdd(tree, p, i, 1);
      current := ParentOf(tree, current.value);
    }
  }

  /** The checks of `update_model_series` on a new parent, as the handler computes them. */
  method Fits(view: Parents, p: nat, sid: nat) returns (fits: bool)
    ensures fits <==> FitsUnder(view, p, sid)
  {
    var met := Meets(p, sid, view);
    if met { return false; }
    var depth := DepthOf(p, view);
    var height := Walk(sid, view, WALK);
    fits := depth + height <= MAX_DEPTH;
    assert depth >= 2 <==> Up(view, p, 1).Some?;
    assert depth >= 3 <==> Up(view, p, 2).Some?;
    assert height >= 2 <==> HasBelow(view, sid, 1);
    assert height >= 3 <==> HasBelow(view, sid, 2);
    assert forall k :: 0 <= k < WALK ==> Up(view, p, k) != Some(sid);
  }

  // ------------------------------------------------------------------ fitment reach

  /** Ancestors, the node itself, and everything below it. */
  ghost predicate Related(tree: Parents, x: nat, y: nat) {
    Above(tree, x, y) || (x in tree && Above(tree, y, x))
  }

  /** The nodes `k` levels below `sid`. */
  function Level(tree: Parents, sid: nat, k: nat): set<nat> { set x | x in tree && Up(tree, x, k) == Some(sid) }

  lemma {:induction false} NextLevel(tree: Parents, sid: nat, k: nat)
    requires k > 0
    ensures forall x :: x in Level(tree, sid, k + 1)
                        <==> x in tree && tree[x].Some? && tree[x].value in Level(tree, sid, k)
  {
    forall x | x in Level(tree, sid, k + 1) ensures tree[x].Some? && tree[x].value in Level(tree, sid, k) {
      assert Up(tree, x, k + 1) == Up(tree, tree[x].value, k);
    }
  }

  /** A node below `sid` is neither above it nor on another level. */
  lemma {:induction false} LevelIsNew(tree: Parents, sid: nat, x: nat, k: nat, j: nat)
    requires Shallow(tree) && x in tree && k > 0 && Up(tree, x, k) == Some(sid)
    ensures Up(tree, sid, j) != Some(x)
    ensures Up(tree, x, j) == Some(sid) ==> j == k
  {
    assert Up(tree, x, MAX_DEPTH) == None;
    if Up(tree, sid, j) == Some(x) {
      UpAdd(tree, x, k, j);
      CycleNeverEnds(tree, x, k + j, MAX_DEPTH);
    }
    if Up(tree, x, j) == Some(sid) { NoCycle(tree, x, j, k, sid); }
  }

  /** One round of the breadth-first search: children of the frontier not seen before. */
  function NewChildren(tree: Parents, frontier: set<nat>, seen: set<nat>): set<nat> {
    set x | x in tree && tree[x].Some? && tree[x].value in frontier && x !in seen
  }

  method AncestorsOrSelf(sid: nat, tree: Parents) returns (matches: set<nat>)
    requires Up(tree, sid, WALK) == None
    ensures forall x :: x in matches <==> Above(tree, x, sid)
  {
    matches := {};
    var current := Some(sid);
    for i := 0 to WALK
      invariant current == Up(tree, sid, i)
      invariant forall x :: x in matches <==> exists k: nat :: k < i && Up(tree, sid, k) == Some(x)
    {
      if current.None? {
        forall k: nat | i <= k ensures Up(tree, sid, k) == None { UpStays(tree, sid, i, k); }
        return;
      }
      matches := matches + {current.value};
      UpAdd(tree, sid, i, 1);
      current := ParentOf(tree, current.value);
    }
    forall k: nat | WALK <= k ensures Up(tree, sid, k) == None { UpStays(tree, sid, WALK, k); }
  }

  ghost predicate BelowWithin(tree: Parents, sid: nat, x: nat, i: nat) {
    exists k: nat :: 0 < k <= i && x in Level(tree, sid, k)
  }

  /** Once a level is empty, or no level can follow, everything below has been seen. */
  lemma {:induction false} AllBelowSeen(tree: Parents, sid: nat, i: nat)
    requires Shallow(tree) && (Level(tree, sid, i + 1) == {} || i >= MAX_DEPTH)
    ensures forall x :: x in tree && x != sid && Above(tree, sid, x) ==> BelowWithin(tree, sid, x, i)
  {
    forall x | x in tree && x != sid && Above(tree, sid, x) ensures BelowWithin(tree, sid, x, i) {
      BelowWithinOrDeeper(tree, sid, x, i);
    }
  }

  lemma {:induction false} BelowWithinOrDeeper(tree: Parents, sid: nat, x: nat, i: nat)
    requires Shallow(tree) && x in tree && Above(tree, sid, x) && x != sid
    ensures BelowWithin(tree, sid, x, i) || (i < MAX_DEPTH && Level(tree, sid, i + 1) != {})
  {
    var k: nat :| Up(tree, x, k) == Some(sid);
    if k > i {
      if i >= MAX_DEPTH {
        UpStays(tree, x, MAX_DEPTH, k);
      } else {
        UpAdd(tree, x, k - i - 1, i + 1);
        var y := Up(tree, x, k - i - 1).value;
        assert Up(tree, y, i + 1) == Some(sid);
        assert y in Level(tree, sid, i + 1);
      }
    } else {
      assert x in Level(tree, sid, k);
    }
  }

  method CompatibleSeriesIds(sid: nat, tree: Parents) returns (matches: set<nat>)
    requires Shallow(tree)
    ensures forall x :: x in matches <==> Related(tree, x, sid)
  {
    if sid in tree { UpStays(tree, sid, MAX_DEPTH, WALK); }
    matches := AncestorsOrSelf(sid, tree);
    ghost var above := matches;
    assert Up(tree, sid, 0) == Some(sid);
    var frontier := {sid};
    ghost var last := 0;
    for i := 0 to WALK
      invariant last == i && sid in matches
      invariant forall x :: x in matches <==> x in above || BelowWithin(tree, sid, x, i)
      invariant i == 0 ==> frontier == {sid}
      invariant i > 0 ==> frontier == Level(tree, sid, i)
    {
      var next := NewChildren(tree, frontier, matches);
      NextFrontier(tree, sid, i, frontier, matches, above);
      if next == {} { break; }
      matches := matches + next;
      frontier := next;
      last := i + 1;
    }
    AllBelowSeen(tree, sid, last);
  }

  lemma {:induction false} NextFrontier(tree: Parents, sid: nat, i: nat, frontier: set<nat>, matches: set<nat>,
                                        above: set<nat>)
    requires Shallow(tree) && (i == 0 ==> frontier == {sid}) && (i > 0 ==> frontier == Level(tree, sid, i))
    requires forall x :: x in above <==> Above(tree, x, sid)
    requires forall x :: x in matches <==> x in above || BelowWithin(tree, sid, x, i)
    ensures NewChildren(tree, frontier, matches) == Level(tree, sid, i + 1)
  {
    if i > 0 { NextLevel(tree, sid, i); }
    forall x | x in Level(tree, sid, i + 1) ensures x !in matches {
      if x in above {
        var j: nat :| Up(tree, sid, j) == Some(x);
        LevelIsNew(tree, sid, x, i + 1, j);
      }
      if k: nat :| 0 < k <= i && x in Level(tree, sid, k) { LevelIsNew(tree, sid, x, i + 1, k); }
    }
  }

  // ---------------------------------------------------------------------- deletion

  /** Everything that goes when `sid` is deleted. */
  ghost predicate InSubtree(g: Parents, sid: nat, x: nat) { x in g && Above(g, sid, x) }

  /** The nodes of the first `i` levels below `sid`, each with its level. */
  ghost predicate SubtreeTo(g: Parents, sid: nat, subtree: map<nat, nat>, i: nat) {
    && (forall x :: x in subtree <==> x == sid || BelowWithin(g, sid, x, i))
    && (forall x :: x in subtree ==> x in g && Up(g, x, subtree[x]) == Some(sid))
  }

  method Subtree(sid: nat, g: Parents) returns (subtree: map<nat, nat>)
    requires Shallow(g) && sid in g
    ensures forall x :: x in subtree <==> InSubtree(g, sid, x)
    ensures forall x :: x in subtree ==> Up(g, x, subtree[x]) == Some(sid)
  {
    subtree := map[sid := 0];
    assert SubtreeTo(g, sid, subtree, 0) by { assert Up(g, sid, 0) == Some(sid); }
    var frontier := {sid};
    ghost var last := 0;
    for depth := 1 to WALK + 1
      invariant last == depth - 1 && SubtreeTo(g, sid, subtree, depth - 1)
      invariant frontier == if depth == 1 then {sid} else Level(g, sid, depth - 1)
    {
      var next := NewChildren(g, frontier, subtree.Keys);
      SubtreeStep(g, sid, subtree, depth, frontier, next);
      if next == {} { break; }
      subtree := AddLevel(subtree, next, depth);
      frontier := next;
      last := depth;
    }
    SubtreeComplete(g, sid, subtree, last);
  }

  function AddLevel(subtree: map<nat, nat>, next: set<nat>, depth: nat): map<nat, nat> {
    subtree + map x | x in next :: depth
  }

  lemma {:induction false} SubtreeComplete(g: Parents, sid: nat, subtree: map<nat, nat>, i: nat)
    requires Shallow(g) && sid in g && SubtreeTo(g, sid, subtree, i)
    requires Level(g, sid, i + 1) == {} || i >= MAX_DEPTH
    ensures forall x :: x in subtree <==> InSubtree(g, sid, x)
  {
    AllBelowSeen(g, sid, i);
    assert Up(g, sid, 0) == Some(sid);
  }

  lemma {:induction false} SubtreeStep(g: Parents, sid: nat, subtree: map<nat, nat>, depth: nat, frontier: set<nat>,
                                       next: set<nat>)
    requires Shallow(g) && depth > 0 && SubtreeTo(g, sid, subtree, depth - 1)
    requires frontier == if depth == 1 then {sid} else Level(g, sid, depth - 1)
    requires next == NewChildren(g, frontier, subtree.Keys)
    ensures next == Level(g, sid, depth)
    ensures SubtreeTo(g, sid, AddLevel(subtree, next, depth), depth)
  {
    if depth > 1 { NextLevel(g, sid, depth - 1); }
    forall x | x in Level(g, sid, depth) ensures x !in subtree { SubtreeLevelIsNew(g, sid, x, depth); }
    forall x ensures BelowWithin(g, sid, x, depth) <==> BelowWithin(g, sid, x, depth - 1) || x in next {
      if k: nat :| 0 < k <= depth && x in Level(g, sid, k) {}
    }
  }

  lemma {:induction false} SubtreeLevelIsNew(g: Parents, sid: nat, x: nat, depth: nat)
    requires Shallow(g) && depth > 0 && x in Level(g, sid, depth)
    ensures x != sid && !BelowWithin(g, sid, x, depth - 1)
  {
    LevelIsNew(g, sid, x, depth, 0);
    if k: nat :| 0 < k <= depth - 1 && x in Level(g, sid, k) { LevelIsNew(g, sid, x, depth, k); }
  }

  /** Removing a childless node leaves a catalogue in order. */
  lemma {:induction false} RemoveLeaf(rows: Rows, x: nat)
    requires CatalogueOk(rows) && forall y :: y in rows ==> rows[y].parent != Some(x)
    ensures CatalogueOk(rows - {x})
  {
    var g, g' := ParentsOf(rows), ParentsOf(rows - {x});
    forall y | y in g' ensures Up(g', y, MAX_DEPTH) == None { WalkAvoids(rows, x, y, MAX_DEPTH); }
  }

  lemma {:induction false} WalkAvoids(rows: Rows, x: nat, y: nat, k: nat)
    requires ParentsOk(rows) && (forall z :: z in rows ==> rows[z].parent != Some(x)) && y in rows && y != x
    ensures Up(ParentsOf(rows - {x}), y, k) == Up(ParentsOf(rows), y, k)
    decreases k
  {
    if k > 0 && rows[y].parent.Some? { WalkAvoids(rows, x, rows[y].parent.value, k - 1); }
  }

  method Deepest(todo: set<nat>, level: map<nat, nat>) returns (x: nat)
    requires todo != {} && todo <= level.Keys
    ensures x in todo && forall y :: y in todo ==> level[y] <= level[x]
  {
    x :| x in todo;
    var rest := todo - {x};
    while rest != {}
      invariant x in todo && rest <= todo && forall y :: y in todo && y !in rest ==> level[y] <= level[x]
      decreases |rest|
    {
      var y :| y in rest;
      if level[y] > level[x] { x := y; }
      rest := rest - {y};
    }
  }

  /** A child of a deleted node lies one level deeper, so it has gone before. */
  lemma {:induction false} NoChildLeft(all: Rows, rows: Rows, sid: nat, subtree: map<nat, nat>, todo: set<nat>, x: nat)
    requires CatalogueOk(all) && sid in all && todo <= subtree.Keys && rows == all - (subtree.Keys - todo)
    requires forall y :: y in subtree <==> InSubtree(ParentsOf(all), sid, y)
    requires forall y :: y in subtree ==> Up(ParentsOf(all), y, subtree[y]) == Some(sid)
    requires x in todo && forall y :: y in todo ==> subtree[y] <= subtree[x]
    ensures forall y :: y in rows ==> rows[y].parent != Some(x)
  {
    var g := ParentsOf(all);
    forall y | y in rows && rows[y].parent == Some(x) ensures false {
      assert Up(g, y, subtree[x] + 1) == Some(sid);
      assert InSubtree(g, sid, y);
      NoCycle(g, y, subtree[y], subtree[x] + 1, sid);
    }
  }

  // --------------------------------------------------------------------- handlers

  lemma {:induction false} OneLeafLess(all: Rows, subtree: set<nat>, todo: set<nat>, x: nat)
    requires x in todo && todo <= subtree
    ensures all - (subtree - todo) - {x} == all - (subtree - (todo - {x}))
  {}

  /** What the table is once all of `gone` but `todo` are deleted. */
  ghost predicate Removed(all: Rows, rows: Rows, gone: set<nat>, todo: set<nat>) {
    todo <= gone && CatalogueOk(rows) && rows == all - (gone - todo)
  }

  /** One DELETE statement: a row less, and the table still in order. */
  ghost predicate DropsOne(a: Rows, b: Rows) { CatalogueOk(b) && exists x :: x in a && b == a - {x} }

  ghost function After<T>(start: T, steps: seq<T>, k: nat): T
    requires k <= |steps|
  {
    if k == 0 then start else steps[k - 1]
  }

  /** From `start` to `end` through `steps`, each related to the one before. */
  ghost predicate StepByStep<T>(r: (T, T) -> bool, start: T, steps: seq<T>, end: T) {
    && end == After(start, steps, |steps|)
    && forall k :: 0 <= k < |steps| ==> r(After(start, steps, k), steps[k])
  }

  lemma {:induction false} OneMoreStep<T>(r: (T, T) -> bool, start: T, steps: seq<T>, end: T, next: T)
    requires StepByStep(r, start, steps, end) && r(end, next)
    ensures StepByStep(r, start, steps + [next], next)
  {
    var more := steps + [next];
    forall k | 0 <= k < |more| ensures r(After(start, more, k), more[k]) {
      assert After(start, more, k) == After(start, steps, k);
    }
  }

  /** Deleting the deepest remaining node keeps the catalogue in order. */
  lemma {:induction false} LeafStep(all: Rows, rows: Rows, sid: nat, subtree: map<nat, nat>, todo: set<nat>, x: nat)
    requires CatalogueOk(all) && sid in all && Removed(all, rows, subtree.Keys, todo)
    requires forall y :: y in subtree <==> InSubtree(ParentsOf(all), sid, y)
    requires forall y :: y in subtree ==> Up(ParentsOf(all), y, subtree[y]) == Some(sid)
    requires x in todo && forall y :: y in todo ==> subtree[y] <= subtree[x]
    ensures x in rows && Removed(all, rows - {x}, subtree.Keys, todo - {x})
  {
    NoChildLeft(all, rows, sid, subtree, todo, x);
    RemoveLeaf(rows, x);
    OneLeafLess(all, subtree.Keys, todo, x);
  }

  class Catalogue {
    var rows: Rows

    constructor (seed: Rows)
      requires CatalogueOk(seed)
      ensures rows == seed
    {
      rows := seed;
    }

    /** `id` is the row id the insert will be given; `refused` means an error was returned. */
    method Create(user: nat, manufacturer: string, name: string, parent: Option<nat>, id: nat) returns (refused: bool)
      requires CatalogueOk(rows) && id !in rows
      modifies this
      ensures CatalogueOk(rows)
      ensures refused
         <==> name == "" || (parent.Some? && !(parent.value in old(rows) && Visible(old(rows)[parent.value], user)
                                                            && Up(View(old(rows), user), parent.value, 2) == None))
      ensures rows == if refused || Known(old(rows), user, manufacturer, name, parent) then old(rows)
                      else old(rows)[id := Node(manufacturer, name, parent, Some(user))]
    {
      if name == "" { return true; }
      if parent.Some? {
        if !(parent.value in rows && Visible(rows[parent.value], user)) { return true; }
        var depth := DepthOf(parent.value, View(rows, user));
        if depth >= MAX_DEPTH { return true; }
      }
      refused := false;
      if x :| x in rows && SameEntry(rows[x], user, manufacturer, name, parent) { return; }
      CreateIsExact(rows, user, id, Node(manufacturer, name, parent, Some(user)));
      rows := rows[id := Node(manufacturer, name, parent, Some(user))];
    }

    /** `parent` is None when the request does not mention it. */
    method Update(user: nat, sid: nat, manufacturer: Option<string>, name: Option<string>, parent: Option<Option<nat>>)
      returns (refused: bool)
      requires CatalogueOk(rows)
      modifies this
      ensures CatalogueOk(rows)
      ensures refused <==> !Editable(old(rows), user, sid, parent)
      ensures rows == if refused then old(rows)
                      else old(rows)[sid := Node(manufacturer.GetOr(old(rows)[sid].manufacturer),
                                                 name.GetOr(old(rows)[sid].name),
                                                 parent.GetOr(old(rows)[sid].parent), Some(user))]
    {
      if !(sid in rows && rows[sid].owner == Some(user)) { return true; }
      var existing := rows[sid];
      var target := parent.GetOr(existing.parent);
      if parent.Some? && target.Some? && !(target.value in rows && Visible(rows[target.value], user)) { return true; }
      if target.Some? {
        UpdateIsExact(rows, user, sid, target.value);
        var fits := Fits(View(rows, user), target.value, sid);
        if !fits { return true; }
      } else {
        ToRoot(rows, sid);
      }
      refused := false;
      rows := rows[sid := Node(manufacturer.GetOr(existing.manufacturer), name.GetOr(existing.name), target,
                               existing.owner)];
      SameShape(Reparented(old(rows), sid, target), rows);
    }

    /**
      `referenced` are the nodes parts or motorcycles of any user point at.  `steps` are
      the tables after each DELETE statement: one row goes at a time, and every table
      is in order.
    */
    method Delete(user: nat, sid: nat, referenced: set<nat>) returns (refused: bool, ghost steps: seq<Rows>)
      requires CatalogueOk(rows)
      modifies this
      ensures CatalogueOk(rows) && StepByStep(DropsOne, old(rows), steps, rows)
      ensures var g := ParentsOf(old(rows));
              && (!refused <==> sid in old(rows) && Visible(old(rows)[sid], user)
                                && forall x :: InSubtree(g, sid, x) ==>
                                     x !in referenced && old(rows)[x].owner in [None, Some(user)])
              && (refused ==> rows == old(rows))
              && (!refused ==> forall x :: x in rows <==> x in old(rows) && !InSubtree(g, sid, x))
              && forall x :: x in rows ==> rows[x] == old(rows)[x]
    {
      refused, steps := true, [];
      if !(sid in rows && Visible(rows[sid], user)) { return; }
      var g := ParentsOf(rows);
      var subtree := Subtree(sid, g);
      if x :| x in subtree && !Deletable(rows[x], x, user, referenced) { return; }
      refused := false;
      steps := DeleteLeavesFirst(sid, subtree);
    }

    /** `compatible_series_ids`, in the user's view: in a catalogue in order its rounds never cut it short. */
    method Compatible(user: nat, sid: nat) returns (matches: set<nat>)
      requires CatalogueOk(rows)
      ensures forall x :: x in matches <==> Related(View(rows, user), x, sid)
    {
      ViewIsShallow(rows, user);
      matches := CompatibleSeriesIds(sid, View(rows, user));
    }

    /** Each DELETE meets the foreign key: the deepest node left has no child left. */
    method DeleteLeavesFirst(sid: nat, subtree: map<nat, nat>) returns (ghost steps: seq<Rows>)
      requires CatalogueOk(rows) && sid in rows
      requires forall y :: y in subtree <==> InSubtree(ParentsOf(rows), sid, y)
      requires forall y :: y in subtree ==> Up(ParentsOf(rows), y, subtree[y]) == Some(sid)
      modifies this
      ensures CatalogueOk(rows) && rows == old(rows) - subtree.Keys && StepByStep(DropsOne, old(rows), steps, rows)
    {
      steps := [];
      ghost var all: Rows := rows;
      var todo: set<nat> := subtree.Keys;
      while todo != {}
        invariant Removed(all, rows, subtree.Keys, todo) && StepByStep(DropsOne, all, steps, rows)
        decreases |todo|
      {
        var x := Deepest(todo, subtree);
        LeafStep(all, rows, sid, subtree, todo, x);
        OneMoreStep(DropsOne, all, steps, rows, rows - {x});
        rows := rows - {x};
        todo := todo - {x};
        steps := steps + [rows];
      }
    }
  }

  /** The nodes a delete of `sid` may take with it: not another user's, not referenced anywhere. */
  predicate Deletable(node: Node, x: nat, user: nat, referenced: set<nat>) { Visible(node, user) && x !in referenced }

  /** An own node, a parent the user can see if there is to be one, and a catalogue in order afterwards. */
  ghost predicate Editable(rows: Rows, user: nat, sid: nat, parent: Option<Option<nat>>) {
    && sid in rows && rows[sid].owner == Some(user)
    && var target := parent.GetOr(rows[sid].parent);
       && (target.Some? ==> target.value in rows && Visible(rows[target.value], user))
       && CatalogueOk(Reparented(rows, sid, target))
  }

  predicate SameEntry(node: Node, user: nat, manufacturer: string, name: string, parent: Option<nat>) {
    node.manufacturer == manufacturer && node.name == name && Visible(node, user) && node.parent == parent
  }

  /** The user, or everyone, has such a node under this parent already: it is the answer, and none is inserted. */
  ghost predicate Known(rows: Rows, user: nat, manufacturer: string, name: string, parent: Option<nat>) {
    exists x :: x in rows && rows[x].manufacturer == manufacturer && rows[x].name == name && rows[x].parent == parent
                && rows[x].owner in [None, Some(user)]
  }

  lemma {:induction false} SameShape(a: Rows, b: Rows)
    requires a.Keys == b.Keys && forall x :: x in a ==> a[x].parent == b[x].parent && a[x].owner == b[x].owner
    ensures CatalogueOk(a) <==> CatalogueOk(b)
  {
    assert ParentsOf(a) == ParentsOf(b);
  }

  lemma {:induction false} ToRoot(rows: Rows, sid: nat)
    requires CatalogueOk(rows) && sid in rows
    ensures CatalogueOk(Reparented(rows, sid, None))
  {
    var g, g' := ParentsOf(rows), ParentsOf(Reparented(rows, sid, None));
    forall x | x in g' ensures Up(g', x, MAX_DEPTH) == None {
      assert Up(g, x, MAX_DEPTH) == None;
      UpCut(g, g', sid, x, MAX_DEPTH);
    }
  }

  lemma {:induction false} UpCut(g: Parents, g': Parents, sid: nat, x: nat, k: nat)
    requires sid in g && g' == g[sid := None] && Up(g, x, k) == None
    ensures Up(g', x, k) == None
    decreases k
  {
    if k > 0 && x != sid && ParentOf(g, x).Some? { UpCut(g, g', sid, ParentOf(g, x).value, k - 1); }
  }
}
