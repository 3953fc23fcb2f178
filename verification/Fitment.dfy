/**
  BMWBike fitment: vehicle names become catalogue nodes, and a node all of whose
  children matched replaces them.  The source visits the parents in the order of a
  hash map, that is, in any order.
*/
module Fitment {
  import opened Options
  import opened ParentGraph
  import opened ModelCatalogue

  datatype Entry = Entry(name: string, parent: Option<nat>)

  function TreeOf(nodes: map<nat, Entry>): Parents { map id | id in nodes :: nodes[id].parent }

  predicate IsLeaf(tree: Parents, x: nat) { x in tree && Children(tree, x) == {} }

  /** The leaves a fitment list stands for. */
  ghost predicate Covers(tree: Parents, ids: set<nat>, leaf: nat) {
    IsLeaf(tree, leaf) && exists m :: m in ids && Above(tree, m, leaf)
  }

  predicate Complete(tree: Parents, matched: set<nat>, p: nat) {
    Children(tree, p) != {} && Children(tree, p) <= matched
  }

  /** One turn of the collapse loop. */
  function Collapse(tree: Parents, matched: set<nat>, p: nat): set<nat> {
    if Complete(tree, matched, p) then matched - Children(tree, p) + {p} else matched
  }

  lemma {:induction false} CollapseKeepsCoverage(tree: Parents, matched: set<nat>, p: nat, leaf: nat)
    ensures Covers(tree, Collapse(tree, matched, p), leaf) <==> Covers(tree, matched, leaf)
  {
    if Complete(tree, matched, p) && IsLeaf(tree, leaf) {
      var after := Collapse(tree, matched, p);
      if Covers(tree, matched, leaf) {
        var m :| m in matched && Above(tree, m, leaf);
        if m in Children(tree, p) {
          var k: nat :| Up(tree, leaf, k) == Some(m);
          UpAdd(tree, leaf, k, 1);
          assert p in after && Above(tree, p, leaf);
        } else {
          assert m in after;
        }
      }
      if Covers(tree, after, leaf) {
        var m :| m in after && Above(tree, m, leaf);
        if m == p {
          var k: nat :| Up(tree, leaf, k) == Some(p);
          assert leaf != p;
          UpAdd(tree, leaf, k - 1, 1);
          var c := Up(tree, leaf, k - 1).value;
          assert c in Children(tree, p) && Above(tree, c, leaf);
        }
      }
    }
  }

  lemma {:induction false} CollapseNeverGrows(tree: Parents, matched: set<nat>, p: nat)
    ensures |Collapse(tree, matched, p)| <= |matched|
  {
    if Complete(tree, matched, p) {
      var c :| c in Children(tree, p);
      var rest := matched - Children(tree, p);
      assert rest <= matched - {c};
      SubsetSize(rest, matched - {c});
    }
  }

  ghost predicate SameCoverage(tree: Parents, a: set<nat>, b: set<nat>) {
    forall leaf :: Covers(tree, a, leaf) <==> Covers(tree, b, leaf)
  }

  predicate ByName(nodes: map<nat, Entry>, name: string, id: nat) { id in nodes && nodes[id].name == name }

  // -------------------------------------------------------------- which order

  function ParentIds(tree: Parents): set<nat> { set c | c in tree && tree[c].Some? :: tree[c].value }

  /** The sequence names each member of the set once. */
  ghost predicate Lists(order: seq<nat>, s: set<nat>) {
    && (forall x: nat :: x in order <==> x in s)
    && (forall i, j :: 0 <= i < j < |order| ==> order[i] != order[j])
  }

  lemma {:induction false} ListsOneMore(order: seq<nat>, s: set<nat>, x: nat)
    requires Lists(order, s) && x !in s
    ensures Lists(order + [x], s + {x}) && Lists([x] + order, s + {x})
  {}

  lemma {:induction false} SomeOrder(s: set<nat>) returns (order: seq<nat>)
    ensures Lists(order, s)
    decreases |s|
  {
    order := [];
    if s != {} {
      var x: nat :| x in s;
      order := SomeOrder(s - {x});
      ListsOneMore(order, s - {x}, x);
      order := order + [x];
      assert s - {x} + {x} == s;
    }
  }

  /** The hash map yields every parent once. */
  ghost predicate Visits(tree: Parents, order: seq<nat>) { Lists(order, ParentIds(tree)) }

  function CollapseAll(tree: Parents, matched: set<nat>, order: seq<nat>): set<nat>
    decreases |order|
  {
    if order == [] then matched else CollapseAll(tree, Collapse(tree, matched, order[0]), order[1..])
  }

  lemma {:induction false} CollapseAppend(tree: Parents, matched: set<nat>, order: seq<nat>, p: nat)
    ensures CollapseAll(tree, matched, order + [p]) == Collapse(tree, CollapseAll(tree, matched, order), p)
    decreases |order|
  {
    if order == [] {
      assert (order + [p])[1..] == [];
    } else {
      assert (order + [p])[1..] == order[1..] + [p];
      CollapseAppend(tree, Collapse(tree, matched, order[0]), order[1..], p);
    }
  }

  /** The parents complete before the loop starts, and the nodes that hang from some of them. */
  function CompleteIds(tree: Parents, matched: set<nat>): set<nat> {
    set p | p in ParentIds(tree) && Complete(tree, matched, p)
  }

  function ChildrenOf(tree: Parents, parents: set<nat>): set<nat> {
    set c | c in tree && tree[c].Some? && tree[c].value in parents
  }

  function Replaced(tree: Parents, matched: set<nat>, parents: set<nat>): set<nat> {
    matched - ChildrenOf(tree, parents) + parents
  }

  /**
    No parent becomes complete only through others that collapse, and none that is complete
    hangs from another.
  */
  ghost predicate OrderFree(tree: Parents, matched: set<nat>) {
    var complete := CompleteIds(tree, matched);
    && CompleteIds(tree, matched + complete) <= complete
    && complete !! ChildrenOf(tree, complete)
  }

  ghost predicate NoSelfParent(tree: Parents) { forall x :: x in tree ==> tree[x] != Some(x) }

  lemma {:induction false} CollapsesComplete(tree: Parents, matched: set<nat>, done: set<nat>, p: nat)
    requires OrderFree(tree, matched) && done <= CompleteIds(tree, matched) && p in CompleteIds(tree, matched)
    requires p !in done
    ensures Collapse(tree, Replaced(tree, matched, done), p) == Replaced(tree, matched, done + {p})
  {
    assert ChildrenOf(tree, done + {p}) == ChildrenOf(tree, done) + Children(tree, p);
    assert Children(tree, p) <= ChildrenOf(tree, CompleteIds(tree, matched));
    assert Complete(tree, Replaced(tree, matched, done), p);
  }

  lemma {:induction false} PassesOver(tree: Parents, matched: set<nat>, done: set<nat>, p: nat)
    requires OrderFree(tree, matched) && done <= CompleteIds(tree, matched)
    requires p in ParentIds(tree) - CompleteIds(tree, matched)
    ensures Collapse(tree, Replaced(tree, matched, done), p) == Replaced(tree, matched, done)
  {
    assert Replaced(tree, matched, done) <= matched + CompleteIds(tree, matched);
    assert p !in CompleteIds(tree, matched + CompleteIds(tree, matched));
  }

  lemma {:induction false} FromHere(tree: Parents, matched: set<nat>, done: set<nat>, order: seq<nat>, left: set<nat>)
    requires OrderFree(tree, matched) && Lists(order, left) && left <= ParentIds(tree)
    requires done <= CompleteIds(tree, matched) && done !! left && CompleteIds(tree, matched) <= done + left
    ensures CollapseAll(tree, Replaced(tree, matched, done), order)
         == Replaced(tree, matched, CompleteIds(tree, matched))
    decreases |order|
  {
    if order == [] {
      assert done == CompleteIds(tree, matched);
    } else {
      var p, rest := order[0], order[1..];
      assert order == [p] + rest && p in order;
      assert Lists(rest, left - {p});
      if p in CompleteIds(tree, matched) {
        CollapsesComplete(tree, matched, done, p);
        FromHere(tree, matched, done + {p}, rest, left - {p});
      } else {
        PassesOver(tree, matched, done, p);
        FromHere(tree, matched, done, rest, left - {p});
      }
    }
  }

  /** Then, in every order, exactly the parents complete at the start replace their children. */
  lemma {:induction false} OrderFreeResult(tree: Parents, matched: set<nat>, order: seq<nat>)
    requires OrderFree(tree, matched) && Visits(tree, order)
    ensures CollapseAll(tree, matched, order) == Replaced(tree, matched, CompleteIds(tree, matched))
  {
    assert Replaced(tree, matched, {}) == matched;
    FromHere(tree, matched, {}, order, ParentIds(tree));
  }

  /** A node stays while its parent is not visited. */
  lemma {:induction false} Stays(tree: Parents, matched: set<nat>, order: seq<nat>, c: nat)
    requires c in matched && forall p :: p in order ==> c !in Children(tree, p)
    ensures c in CollapseAll(tree, matched, order)
    decreases |order|
  {
    if order != [] {
      assert order[0] in order;
      Stays(tree, Collapse(tree, matched, order[0]), order[1..], c);
    }
  }

  /** A complete parent that is visited, while its own parent is not, ends up in the list. */
  lemma {:induction false} Arrives(tree: Parents, matched: set<nat>, order: seq<nat>, p: nat)
    requires p in order && Complete(tree, matched, p) && forall q :: q in order ==> p !in Children(tree, q)
    ensures p in CollapseAll(tree, matched, order)
    decreases |order|
  {
    var next := Collapse(tree, matched, order[0]);
    if order[0] == p {
      Stays(tree, next, order[1..], p);
    } else {
      assert order == [order[0]] + order[1..];
      assert Complete(tree, next, p);
      Arrives(tree, next, order[1..], p);
    }
  }

  lemma {:induction false} LastOfAll(tree: Parents, matched: set<nat>, rest: seq<nat>, q: nat, c: nat)
    requires NoSelfParent(tree) && Lists(rest, ParentIds(tree) - {q}) && c in Children(tree, q)
    requires Children(tree, q) <= matched + CompleteIds(tree, matched)
    ensures c !in CollapseAll(tree, matched, rest + [q])
  {
    var now := CollapseAll(tree, matched, rest);
    forall d | d in Children(tree, q) ensures d in now {
      assert tree[d] == Some(q);
      if d in matched { Stays(tree, matched, rest, d); } else { Arrives(tree, matched, rest, d); }
    }
    CollapseAppend(tree, matched, rest, q);
  }

  lemma {:induction false} FirstOfAll(tree: Parents, matched: set<nat>, rest: seq<nat>, q: nat, c: nat)
    requires NoSelfParent(tree) && Lists(rest, ParentIds(tree) - {q}) && c in Children(tree, q)
    requires c in CompleteIds(tree, matched)
    ensures c in CollapseAll(tree, matched, [q] + rest)
  {
    assert tree[c] == Some(q) && ([q] + rest)[1..] == rest;
    assert Complete(tree, Collapse(tree, matched, q), c);
    Arrives(tree, Collapse(tree, matched, q), rest, c);
  }

  /** Otherwise some parent visited first gives another list than the same parent visited last. */
  lemma {:induction false} OrderMattersUnless(tree: Parents, matched: set<nat>) returns (a: seq<nat>, b: seq<nat>)
    requires NoSelfParent(tree) && !OrderFree(tree, matched)
    ensures Visits(tree, a) && Visits(tree, b) && CollapseAll(tree, matched, a) != CollapseAll(tree, matched, b)
  {
    var complete := CompleteIds(tree, matched);
    var q, c: nat;
    if CompleteIds(tree, matched + complete) <= complete {
      c :| c in complete && c in ChildrenOf(tree, complete);
      q := tree[c].value;
    } else {
      q :| q in CompleteIds(tree, matched + complete) && q !in complete;
      c :| c in Children(tree, q) && c !in matched;
    }
    var rest := SomeOrder(ParentIds(tree) - {q});
    ListsOneMore(rest, ParentIds(tree) - {q}, q);
    assert ParentIds(tree) - {q} + {q} == ParentIds(tree);
    a, b := [q] + rest, rest + [q];
    FirstOfAll(tree, matched, rest, q, c);
    LastOfAll(tree, matched, rest, q, c);
  }

  /** So the list is independent of the order exactly in that case. */
  lemma {:induction false} OrderFreeExactly(tree: Parents, matched: set<nat>)
    requires NoSelfParent(tree)
    ensures OrderFree(tree, matched)
       <==> forall a, b :: Visits(tree, a) && Visits(tree, b) ==>
              CollapseAll(tree, matched, a) == CollapseAll(tree, matched, b)
  {
    if OrderFree(tree, matched) {
      forall a, b | Visits(tree, a) && Visits(tree, b)
        ensures CollapseAll(tree, matched, a) == CollapseAll(tree, matched, b)
      {
        OrderFreeResult(tree, matched, a);
        OrderFreeResult(tree, matched, b);
      }
    } else {
      var a, b := OrderMattersUnless(tree, matched);
    }
  }

  /** The smallest case: an only child's only child collapses twice or once. */
  lemma {:induction false} OrderMatters()
    ensures var tree := map[1 := None, 2 := Some(1), 3 := Some(2)];
            CollapseAll(tree, {3}, [2, 1]) == {1} && CollapseAll(tree, {3}, [1, 2]) == {2}
  {
    var tree: Parents := map[1 := None, 2 := Some(1), 3 := Some(2)];
    assert Children(tree, 1) == {2} && Children(tree, 2) == {3};
    assert Collapse(tree, {3}, 2) == {2} && Collapse(tree, {2}, 1) == {1} && Collapse(tree, {3}, 1) == {3};
    assert [2, 1][1..] == [1] && [1, 2][1..] == [2];
  }

  // -------------------------------------------------------------- the handler's loops

  ghost predicate Collapsed(tree: Parents, exact: set<nat>, matched: set<nat>) {
    SameCoverage(tree, exact, matched) && |matched| <= |exact|
  }

  lemma {:induction false} CollapseStep(tree: Parents, exact: set<nat>, matched: set<nat>, p: nat)
    requires Collapsed(tree, exact, matched)
    ensures Collapsed(tree, exact, Collapse(tree, matched, p))
  {
    forall leaf { CollapseKeepsCoverage(tree, matched, p, leaf); }
    CollapseNeverGrows(tree, matched, p);
  }

  lemma {:induction false} VisitsOneMore(tree: Parents, exact: set<nat>, order: seq<nat>, pending: set<nat>, p: nat)
    requires p in pending && pending <= ParentIds(tree) && Lists(order, ParentIds(tree) - pending)
    ensures Lists(order + [p], ParentIds(tree) - (pending - {p}))
    ensures CollapseAll(tree, exact, order + [p]) == Collapse(tree, CollapseAll(tree, exact, order), p)
  {
    ListsOneMore(order, ParentIds(tree) - pending, p);
    assert ParentIds(tree) - (pending - {p}) == ParentIds(tree) - pending + {p};
    CollapseAppend(tree, exact, order, p);
  }

  /** The second loop of `map_compatibility`; `pending` is emptied in whatever order the hash map yields its keys. */
  method CollapseParents(tree: Parents, exact: set<nat>) returns (matched: set<nat>, ghost order: seq<nat>)
    ensures Collapsed(tree, exact, matched) && Visits(tree, order) && matched == CollapseAll(tree, exact, order)
  {
    matched, order := exact, [];
    var pending: set<nat> := ParentIds(tree);
    assert ParentIds(tree) - pending == {};
    while pending != {}
      invariant pending <= ParentIds(tree) && Lists(order, ParentIds(tree) - pending)
      invariant Collapsed(tree, exact, matched) && matched == CollapseAll(tree, exact, order)
      decreases |pending|
    {
      var p: nat :| p in pending;
      VisitsOneMore(tree, exact, order, pending, p);
      CollapseStep(tree, exact, matched, p);
      pending, order := pending - {p}, order + [p];
      if Children(tree, p) <= matched && Children(tree, p) != {} { matched := matched - Children(tree, p) + {p}; }
    }
    assert ParentIds(tree) - pending == ParentIds(tree);
  }

  /**
    `map_compatibility`.  `byName` is the name index, which keeps one node per name.
  */
  method MapCompatibility(names: seq<string>, nodes: map<nat, Entry>, byName: map<string, nat>)
    returns (ids: set<nat>, unmatched: seq<string>, ghost exact: set<nat>, ghost order: seq<nat>)
    requires forall name :: name in byName <==> exists id :: ByName(nodes, name, id)
    requires forall name :: name in byName ==> ByName(nodes, name, byName[name])
    ensures exact == set name | name in names && name in byName :: byName[name]
    ensures Collapsed(TreeOf(nodes), exact, ids)
    ensures Visits(TreeOf(nodes), order) && ids == CollapseAll(TreeOf(nodes), exact, order)
    ensures forall name :: name in unmatched <==> name in names && !exists id :: ByName(nodes, name, id)
    ensures forall i, j :: 0 <= i < j < |unmatched| ==> unmatched[i] != unmatched[j]
  {
    var matched, seen: set<string> := {}, {};
    unmatched := [];
    for n := 0 to |names|
      invariant seen == set name | name in names[..n]
      invariant matched == set name | name in names[..n] && name in byName :: byName[name]
      invariant forall name :: name in unmatched <==> name in names[..n] && name !in byName
      invariant forall i, j :: 0 <= i < j < |unmatched| ==> unmatched[i] != unmatched[j]
    {
      var name := names[n];
      assert names[..n + 1] == names[..n] + [name];
      if name !in seen {
        seen := seen + {name};
        if name in byName { matched := matched + {byName[name]}; } else { unmatched := unmatched + [name]; }
      }
    }
    assert names[..|names|] == names;
    exact := matched;
    ids, order := CollapseParents(TreeOf(nodes), matched);
  }
}
