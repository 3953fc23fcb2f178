/** `ON DELETE CASCADE` on a self-referencing key: what goes when some rows are deleted. */
module Cascade {
  import opened Options
  import opened ParentGraph

  ghost predicate BelowAny(g: Parents, roots: set<nat>, x: nat) { exists r :: r in roots && r in g && Above(g, r, x) }

  /** The rows deleted with `roots`: those among them that exist, and everything below. */
  ghost function CascadeOf(g: Parents, roots: set<nat>): set<nat> { set x | x in g && BelowAny(g, roots, x) }

  lemma {:induction false} RootGoes(g: Parents, roots: set<nat>, r: nat)
    requires r in roots && r in g
    ensures r in CascadeOf(g, roots)
  {
    assert Up(g, r, 0) == Some(r);
    assert Above(g, r, r);
  }

  /** A row goes with its parent. */
  lemma {:induction false} ChildGoes(g: Parents, roots: set<nat>, x: nat)
    requires x in g && g[x].Some? && g[x].value in CascadeOf(g, roots)
    ensures x in CascadeOf(g, roots)
  {
    var r :| r in roots && r in g && Above(g, r, g[x].value);
    var k: nat :| Up(g, g[x].value, k) == Some(r);
    assert Up(g, x, k + 1) == Some(r);
    assert Above(g, r, x);
  }

  lemma {:induction false} ClosedHoldsAll(g: Parents, gone: set<nat>, r: nat, x: nat, k: nat)
    requires r in gone && x in g && Up(g, x, k) == Some(r)
    requires forall y :: y in g && g[y].Some? && g[y].value in gone ==> y in gone
    ensures x in gone
    decreases k
  {
    if k > 0 {
      var p := g[x].value;
      if p in g { ClosedHoldsAll(g, gone, r, p, k - 1); }
    }
  }

  /** The rows still there that hang from a deleted one. */
  function Hanging(g: Parents, gone: set<nat>): set<nat> {
    set x | x in g && x !in gone && g[x].Some? && g[x].value in gone
  }

  ghost predicate Closed(g: Parents, start: set<nat>, s: set<nat>) { start <= s && Hanging(g, s) == {} }

  lemma {:induction false} ClosedTakes(g: Parents, start: set<nat>, s: set<nat>, gone: set<nat>, x: nat)
    requires Closed(g, start, s) && gone <= s && x in Hanging(g, gone)
    ensures x in s
  {
    assert x !in Hanging(g, s);
  }

  /** Whatever hangs from a deleted row is deleted too, until nothing does. */
  method Close(g: Parents, start: set<nat>) returns (gone: set<nat>)
    ensures Closed(g, start, gone) && forall s :: Closed(g, start, s) ==> gone <= s
  {
    gone := start;
    var left: set<nat> := g.Keys - start;
    while Hanging(g, gone) != {}
      invariant start <= gone && left == g.Keys - gone
      invariant forall s :: Closed(g, start, s) ==> gone <= s
      decreases |left|
    {
      var x: nat :| x in Hanging(g, gone);
      forall s | Closed(g, start, s) ensures x in s { ClosedTakes(g, start, s, gone, x); }
      assert x in left;
      gone, left := gone + {x}, left - {x};
    }
  }

  lemma {:induction false} CascadeIsClosed(g: Parents, roots: set<nat>)
    ensures Closed(g, roots * g.Keys, CascadeOf(g, roots))
  {
    forall x | x in roots * g.Keys ensures x in CascadeOf(g, roots) { RootGoes(g, roots, x); }
    forall x | x in Hanging(g, CascadeOf(g, roots)) ensures false { ChildGoes(g, roots, x); }
  }

  lemma {:induction false} ClosedHoldsCascade(g: Parents, roots: set<nat>, s: set<nat>)
    requires Closed(g, roots * g.Keys, s)
    ensures CascadeOf(g, roots) <= s
  {
    forall y | y in g && g[y].Some? && g[y].value in s ensures y in s { assert y !in Hanging(g, s); }
    forall x | x in CascadeOf(g, roots) ensures x in s {
      var r :| r in roots && r in g && Above(g, r, x);
      var k: nat :| Up(g, x, k) == Some(r);
      ClosedHoldsAll(g, s, r, x, k);
    }
  }

  method Delete(g: Parents, roots: set<nat>) returns (gone: set<nat>)
    ensures gone == CascadeOf(g, roots)
  {
    CascadeIsClosed(g, roots);
    gone := Close(g, roots * g.Keys);
    ClosedHoldsCascade(g, roots, gone);
  }

  /** From a row that stays, the walk up meets no row that went. */
  lemma {:induction false} WalkStays(g: Parents, roots: set<nat>, x: nat, k: nat)
    requires x in g && x !in CascadeOf(g, roots)
    ensures Up(g - CascadeOf(g, roots), x, k) == Up(g, x, k)
    decreases k
  {
    if k > 0 && g[x].Some? {
      var p := g[x].value;
      if p in CascadeOf(g, roots) { ChildGoes(g, roots, x); }
      if p in g { WalkStays(g, roots, p, k - 1); }
    }
  }

  lemma {:induction false} GoesLater(g: Parents, done: set<nat>, c: nat, x: nat)
    requires x in g && x !in CascadeOf(g, done)
    ensures x in CascadeOf(g - CascadeOf(g, done), {c}) <==> x in CascadeOf(g, {c})
  {
    var rest := g - CascadeOf(g, done);
    if Above(g, c, x) && c in g {
      var k: nat :| Up(g, x, k) == Some(c);
      WalkStays(g, done, x, k);
      if c in CascadeOf(g, done) {
        var r :| r in done && r in g && Above(g, r, c);
        var m: nat :| Up(g, c, m) == Some(r);
        UpAdd(g, x, k, m);
        assert Above(g, r, x);
      }
      assert Above(rest, c, x);
    }
    if Above(rest, c, x) {
      var k: nat :| Up(rest, x, k) == Some(c);
      WalkStays(g, done, x, k);
      assert Above(g, c, x);
    }
  }

  /** One statement after the other deletes what all of them delete together. */
  lemma {:induction false} DeletesAdd(g: Parents, done: set<nat>, c: nat)
    ensures CascadeOf(g, done) + CascadeOf(g - CascadeOf(g, done), {c}) == CascadeOf(g, done + {c})
  {
    forall x
      ensures x in CascadeOf(g, done) + CascadeOf(g - CascadeOf(g, done), {c}) <==> x in CascadeOf(g, done + {c})
    {
      if x in g && x !in CascadeOf(g, done) { GoesLater(g, done, c, x); }
      MoreRoots(g, done, c, x);
    }
  }

  lemma {:induction false} MoreRoots(g: Parents, done: set<nat>, c: nat, x: nat)
    ensures x in CascadeOf(g, done + {c}) <==> x in CascadeOf(g, done) || x in CascadeOf(g, {c})
  {
    if x in g && BelowAny(g, done, x) {
      var r :| r in done && r in g && Above(g, r, x);
      assert r in done + {c};
    }
    if x in g && BelowAny(g, {c}, x) { assert c in done + {c}; }
  }
}
