/** Tables whose rows name a parent row: walking up, and what it means to have no cycle. */
module ParentGraph {
  import opened Options

  type Parents = map<nat, Option<nat>>

  function ParentOf(g: Parents, x: nat): Option<nat> { if x in g then g[x] else None }

  /** The row `k` steps above `x`, if the chain is that long. */
  function Up(g: Parents, x: nat, k: nat): Option<nat>
    decreases k
  {
    if k == 0 then Some(x)
    else if ParentOf(g, x).None? then None
    else Up(g, ParentOf(g, x).value, k - 1)
  }

  ghost predicate Rooted(g: Parents, x: nat) { exists k: nat :: Up(g, x, k) == None }

  /** `a` is `x` or an ancestor of `x`. */
  ghost predicate Above(g: Parents, a: nat, x: nat) { exists k: nat :: Up(g, x, k) == Some(a) }

  lemma {:induction false} UpAdd(g: Parents, x: nat, j: nat, k: nat)
    ensures Up(g, x, j + k) == if Up(g, x, j).None? then None else Up(g, Up(g, x, j).value, k)
    decreases j
  {
    if j > 0 && ParentOf(g, x).Some? { UpAdd(g, ParentOf(g, x).value, j - 1, k); }
  }

  lemma {:induction false} UpStays(g: Parents, x: nat, j: nat, k: nat)
    requires j <= k && Up(g, x, j) == None
    ensures Up(g, x, k) == None
  {
    UpAdd(g, x, j, k - j);
  }

  /** On a cycle the walk never ends. */
  lemma {:induction false} CycleNeverEnds(g: Parents, x: nat, k: nat, m: nat)
    requires k > 0 && Up(g, x, k) == Some(x)
    ensures Up(g, x, m).Some?
    decreases m
  {
    if m < k {
      if Up(g, x, m).None? { UpStays(g, x, m, k); }
    } else {
      CycleNeverEnds(g, x, k, m - k);
      UpAdd(g, x, k, m - k);
    }
  }

  lemma {:induction false} NoCycle(g: Parents, x: nat, j: nat, k: nat, a: nat)
    requires Up(g, x, j) == Some(a) && Up(g, x, k) == Some(a) && Rooted(g, x)
    ensures j == k
  {
    var i, n := if j < k then j else k, if j < k then k - j else j - k;
    if n > 0 {
      var m: nat :| Up(g, x, m) == None;
      UpAdd(g, x, i, n);
      CycleNeverEnds(g, a, n, m);
      UpAdd(g, x, i, m);
      UpStays(g, x, m, i + m);
    }
  }

  /** A walk that never meets `s` does not notice that `s` was given another parent. */
  lemma {:induction false} UpUnchanged(g: Parents, g': Parents, x: nat, k: nat, s: nat)
    requires forall y :: y != s ==> ParentOf(g', y) == ParentOf(g, y)
    requires forall j :: 0 <= j < k ==> Up(g, x, j) != Some(s)
    ensures Up(g', x, k) == Up(g, x, k)
    decreases k
  {
    if k > 0 && ParentOf(g, x).Some? {
      assert Up(g, x, 0) == Some(x);
      forall j | 0 <= j < k - 1 ensures Up(g, ParentOf(g, x).value, j) != Some(s) {
        assert Up(g, x, j + 1) == Up(g, ParentOf(g, x).value, j);
      }
      UpUnchanged(g, g', ParentOf(g, x).value, k - 1, s);
    } else if k > 0 {
      assert Up(g, x, 0) == Some(x);
    }
  }
}
