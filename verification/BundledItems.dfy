/**
  The bundled items of a maintenance record: the children an update leaves under it, the listed
  items among them, and the one listed item that is lost.
*/
module BundledItems {
  import opened Options
  import opened ParentGraph
  import opened Cascade
  import opened FuelChain
  import opened FuelRecords

  /** What a child for an item looks like. */
  ghost predicate Stands(r: Record, mid: nat, item: string) {
    r.parent == Some(mid)
    && if item == "engineoil" || item == "gearboxoil" || item == "finaldriveoil" || item == "finaldrivegearboxoil"
          || item == "forkoil" || item == "brakefluid" || item == "coolant"
       then r.kind == "fluid" && r.fluid == Some(item)
       else r.kind == if item == "chain" then "chain" else "general"
  }

  /** It is booked where and when the record is. */
  ghost predicate Booked(r: Record, odo: int, date: string) { r.odo == odo && r.date == date }

  /** A child of a kind without fluids that carries one all the same is not brought along. */
  ghost predicate Plain(r: Record) { r.kind == "fluid" || r.fluid.None? }

  /** The item that is lost: an unnamed one, where there was a child for such and `general` is not listed. */
  ghost predicate Lost(written: Records, mid: nat, items: seq<string>, item: string) {
    && "general" !in items
    && (forall r :: Stands(r, mid, item) ==> r.kind == "general")
    && exists c :: c in written && Stands(written[c], mid, item)
  }

  lemma {:induction false} KindMeans(r: Record, mid: nat, item: string)
    ensures Stands(r, mid, item)
       <==> r.parent == Some(mid) && r.kind == ItemKind(item).0
            && (r.kind == "fluid" ==> r.fluid == ItemKind(item).1)
    ensures ItemKind(item).0 == "fluid" <==> ItemKind(item).1.Some?
    ensures ItemKind(item).0 != "general" && Stands(r, mid, item) ==> ItemKey(r) == item
    ensures ItemKind(item).0 == "general" && Stands(r, mid, item) ==> ItemKey(r) == "general"
  {}

  lemma {:induction false} HasItemMeans(written: Records, mid: nat, item: string)
    ensures HasItem(Children(written, mid), ItemKind(item).0, ItemKind(item).1)
       <==> exists c :: c in written && Stands(written[c], mid, item)
  {
    var children := Children(written, mid);
    forall c | c in written ensures Stands(written[c], mid, item) <==>
        (c in children && children[c].kind == ItemKind(item).0
         && (ItemKind(item).0 == "fluid" ==> children[c].fluid == ItemKind(item).1))
    {
      KindMeans(written[c], mid, item);
    }
  }

  // ---------------------------------------------------------------- what the loop keeps

  ghost predicate SameChild(a: Record, b: Record) {
    a.kind == b.kind && a.fluid == b.fluid && a.parent == b.parent
  }

  /** A row that came with the loop stands for an item no child stood for. */
  ghost predicate CameFor(r: Record, written: Records, mid: nat, item: string) {
    Stands(r, mid, item) && r.fluid == ItemKind(item).1 && forall c :: c in written ==> !Stands(written[c], mid, item)
  }

  ghost predicate RowOk(written: Records, r: Record, id: nat, mid: nat, items: seq<string>, odo: int, date: string) {
    if id in written then SameChild(r, written[id])
    else Booked(r, odo, date) && exists i :: 0 <= i < |items| && CameFor(r, written, mid, items[i])
  }

  ghost predicate RowsOk(written: Records, now: Records, mid: nat, items: seq<string>, odo: int, date: string) {
    forall id :: id in now ==> RowOk(written, now[id], id, mid, items, odo, date)
  }

  /** Rows stay, for what they stood, and those booked as the record is stay so. */
  ghost predicate Kept(a: Records, b: Records, odo: int, date: string) {
    forall id :: id in a ==>
      id in b && SameChild(a[id], b[id]) && (Booked(a[id], odo, date) ==> Booked(b[id], odo, date))
  }

  lemma {:induction false} ItemKeeps(written: Records, now: Records, bike: nat, mid: nat, items: seq<string>, n: nat,
                                     odo: int, date: string, id: nat, stamp: nat)
    requires RowsOk(written, now, mid, items, odo, date) && n < |items| && id !in now && id !in written
    ensures var next := WithItem(now, Children(written, mid), bike, mid, items[n], odo, date, id, stamp);
            && RowsOk(written, next, mid, items, odo, date) && Kept(now, next, odo, date)
            && next.Keys <= now.Keys + {id}
  {
    var next := WithItem(now, Children(written, mid), bike, mid, items[n], odo, date, id, stamp);
    HasItemMeans(written, mid, items[n]);
    forall k | k in next ensures RowOk(written, next[k], k, mid, items, odo, date) {
      if k in now {
        assert RowOk(written, now[k], k, mid, items, odo, date);
        if k !in written {
          var i :| 0 <= i < |items| && CameFor(now[k], written, mid, items[i]);
          assert CameFor(next[k], written, mid, items[i]);
        }
      } else {
        KindMeans(next[k], mid, items[n]);
        assert CameFor(next[k], written, mid, items[n]);
      }
    }
  }

  /** Every child that stands for the item is booked as the record is. */
  ghost predicate BroughtAlong(now: Records, mid: nat, item: string, odo: int, date: string) {
    forall c :: c in now && Stands(now[c], mid, item) && Plain(now[c]) ==> Booked(now[c], odo, date)
  }

  ghost predicate Standing(now: Records, mid: nat, item: string) { exists c :: c in now && Stands(now[c], mid, item) }

  lemma {:induction false} ItemDone(written: Records, now: Records, bike: nat, mid: nat, items: seq<string>, n: nat,
                                    odo: int, date: string, id: nat, stamp: nat)
    requires RowsOk(written, now, mid, items, odo, date) && n < |items| && id !in now && id !in written
    ensures var next := WithItem(now, Children(written, mid), bike, mid, items[n], odo, date, id, stamp);
            && BroughtAlong(next, mid, items[n], odo, date)
            && (Standing(next, mid, items[n]) <==> Standing(now, mid, items[n]) || !Standing(written, mid, items[n]))
  {
    var next := WithItem(now, Children(written, mid), bike, mid, items[n], odo, date, id, stamp);
    HasItemMeans(written, mid, items[n]);
    if Standing(written, mid, items[n]) {
      forall c | c in now ensures Stands(next[c], mid, items[n]) <==> Stands(now[c], mid, items[n]) {}
      forall c | c in next && Stands(next[c], mid, items[n]) && Plain(next[c]) ensures Booked(next[c], odo, date) {
        KindMeans(now[c], mid, items[n]);
      }
    } else {
      KindMeans(next[id], mid, items[n]);
      assert Stands(next[id], mid, items[n]);
      forall c | c in now && c in written ensures !Stands(now[c], mid, items[n]) {
        assert RowOk(written, now[c], c, mid, items, odo, date) && !Stands(written[c], mid, items[n]);
      }
      forall c | c in now && c !in written ensures Booked(now[c], odo, date) {
        assert RowOk(written, now[c], c, mid, items, odo, date);
      }
    }
  }

  lemma {:induction false} KeptAlong(a: Records, b: Records, written: Records, mid: nat, items: seq<string>,
                                     item: string, odo: int, date: string)
    requires Kept(a, b, odo, date) && RowsOk(written, b, mid, items, odo, date)
    requires b.Keys * written.Keys <= a.Keys
    ensures BroughtAlong(a, mid, item, odo, date) ==> BroughtAlong(b, mid, item, odo, date)
    ensures Standing(a, mid, item) ==> Standing(b, mid, item)
  {
    if c :| c in a && Stands(a[c], mid, item) { assert Stands(b[c], mid, item); }
    if BroughtAlong(a, mid, item, odo, date) {
      forall c | c in b && Stands(b[c], mid, item) && Plain(b[c]) ensures Booked(b[c], odo, date) {
        assert RowOk(written, b[c], c, mid, items, odo, date);
        assert c in written ==> c in b.Keys * written.Keys;
      }
    }
  }

  /** The items from `n` on: what they leave, and that nothing comes for an item a child stood for. */
  lemma {:induction false} ItemsKeep(written: Records, now: Records, bike: nat, mid: nat, items: seq<string>, n: nat,
                                     odo: int, date: string, ids: seq<nat>, stamp: nat)
    requires RowsOk(written, now, mid, items, odo, date) && n <= |items| == |ids|
    requires forall i :: n <= i < |ids| ==> ids[i] !in now && ids[i] !in written
    requires forall i, j :: n <= i < j < |ids| ==> ids[i] != ids[j]
    ensures var after := WithItems(now, Children(written, mid), bike, mid, items[n..], odo, date, ids[n..], stamp);
            && RowsOk(written, after, mid, items, odo, date) && Kept(now, after, odo, date)
            && after.Keys * written.Keys <= now.Keys
    decreases |items| - n
  {
    if n < |items| {
      var children := Children(written, mid);
      var next := WithItem(now, children, bike, mid, items[n], odo, date, ids[n], stamp);
      ItemKeeps(written, now, bike, mid, items, n, odo, date, ids[n], stamp);
      OneItemMore(now, children, bike, mid, items, n, odo, date, ids, stamp);
      ItemsKeep(written, next, bike, mid, items, n + 1, odo, date, ids, stamp);
    }
  }

  lemma {:induction false} OneItemMore(now: Records, children: Records, bike: nat, mid: nat, items: seq<string>, n: nat,
                                       odo: int, date: string, ids: seq<nat>, stamp: nat)
    requires n < |items| == |ids|
    ensures WithItems(now, children, bike, mid, items[n..], odo, date, ids[n..], stamp)
         == WithItems(WithItem(now, children, bike, mid, items[n], odo, date, ids[n], stamp), children, bike, mid,
                      items[n + 1..], odo, date, ids[n + 1..], stamp)
  {
    assert items[n..][1..] == items[n + 1..] && ids[n..][1..] == ids[n + 1..];
  }

  /** Item `i` after all of them: brought along, and standing unless its only children went before. */
  lemma {:induction false} ItemsDone(written: Records, now: Records, bike: nat, mid: nat, items: seq<string>, n: nat,
                                     i: nat, odo: int, date: string, ids: seq<nat>, stamp: nat)
    requires RowsOk(written, now, mid, items, odo, date) && n <= i < |items| == |ids|
    requires forall k :: n <= k < |ids| ==> ids[k] !in now && ids[k] !in written
    requires forall k, j :: n <= k < j < |ids| ==> ids[k] != ids[j]
    ensures var after := WithItems(now, Children(written, mid), bike, mid, items[n..], odo, date, ids[n..], stamp);
            && BroughtAlong(after, mid, items[i], odo, date)
            && (Standing(now, mid, items[i]) || !Standing(written, mid, items[i]) ==> Standing(after, mid, items[i]))
    decreases |items| - n
  {
    var children := Children(written, mid);
    var next := WithItem(now, children, bike, mid, items[n], odo, date, ids[n], stamp);
    ItemKeeps(written, now, bike, mid, items, n, odo, date, ids[n], stamp);
    OneItemMore(now, children, bike, mid, items, n, odo, date, ids, stamp);
    if i == n {
      var after := WithItems(now, children, bike, mid, items[n..], odo, date, ids[n..], stamp);
      ItemDone(written, now, bike, mid, items, n, odo, date, ids[n], stamp);
      ItemsKeep(written, next, bike, mid, items, n + 1, odo, date, ids, stamp);
      KeptAlong(next, after, written, mid, items, items[i], odo, date);
    } else {
      if c :| c in now && Stands(now[c], mid, items[i]) { assert Stands(next[c], mid, items[i]); }
      ItemsDone(written, next, bike, mid, items, n + 1, i, odo, date, ids, stamp);
    }
  }

  // ---------------------------------------------------------------- what an update leaves

  /** A child goes only for its own sake, unless the record itself goes. */
  lemma {:induction false} ChildDropped(written: Records, mid: nat, items: seq<string>, c: nat)
    requires c in Children(written, mid) && mid !in Dropped(written, mid, Some(items)) && mid in written
    ensures c in Dropped(written, mid, Some(items)) <==> ItemKey(written[c]) !in items
  {
    var g, roots := ParentsOf(written), Unlisted(written, mid, Some(items));
    if c in roots { RootGoes(g, roots, c); }
    assert !BelowAny(g, roots, mid);
    forall r | r in roots && r in g && r != c ensures !Above(g, r, c) {
      ThroughParent(g, r, c, mid);
    }
  }

  lemma {:induction false} ThroughParent(g: Parents, r: nat, c: nat, p: nat)
    requires c in g && g[c] == Some(p) && r != c
    ensures Above(g, r, c) ==> Above(g, r, p)
  {
    if k: nat :| Up(g, c, k) == Some(r) { assert k > 0 && Up(g, p, k - 1) == Some(r); }
  }

  lemma {:induction false} StandingStays(written: Records, mid: nat, items: seq<string>, i: nat, c: nat)
    requires i < |items| && c in written && Stands(written[c], mid, items[i]) && mid in written
    requires mid !in Dropped(written, mid, Some(items)) && !Lost(written, mid, items, items[i])
    ensures c !in Dropped(written, mid, Some(items))
  {
    KindMeans(written[c], mid, items[i]);
    if ItemKind(items[i]).0 == "general" {
      forall r | Stands(r, mid, items[i]) ensures r.kind == "general" { KindMeans(r, mid, items[i]); }
    }
    ChildDropped(written, mid, items, c);
  }

  lemma {:induction false} LostIsGone(written: Records, mid: nat, items: seq<string>, i: nat, r: Record, c: nat,
                                      odo: int, date: string)
    requires i < |items| && Lost(written, mid, items, items[i]) && mid in written
    requires mid !in Dropped(written, mid, Some(items))
    requires RowOk(written, r, c, mid, items, odo, date) && (c in written ==> c !in Dropped(written, mid, Some(items)))
    ensures !Stands(r, mid, items[i])
  {
    if Stands(r, mid, items[i]) {
      KindMeans(r, mid, items[i]);
      if c in written { ChildDropped(written, mid, items, c); }
    }
  }

  /** The children an update leaves under the record. */
  ghost predicate ItemsLeft(written: Records, after: Records, mid: nat, items: seq<string>, odo: int, date: string) {
    && (forall i :: 0 <= i < |items| ==>
          && (Standing(after, mid, items[i]) <==> !Lost(written, mid, items, items[i]))
          && BroughtAlong(after, mid, items[i], odo, date))
    && forall c :: c in after && after[c].parent == Some(mid) ==> Listed(after[c], mid, items)
  }

  /** A child is there for an item of the list, or by its kind. */
  ghost predicate Listed(r: Record, mid: nat, items: seq<string>) {
    || (exists i :: 0 <= i < |items| && Stands(r, mid, items[i]))
    || (r.kind == "fluid" && r.fluid.GetOr("") in items)
    || (r.kind != "fluid" && r.kind != "chain" && "general" in items)
  }

  lemma {:induction false} StillStands(written: Records, after: Records, mid: nat, items: seq<string>, i: nat)
    requires i < |items| && mid in written && mid !in Dropped(written, mid, Some(items))
    requires var left := written - Dropped(written, mid, Some(items));
             Standing(left, mid, items[i]) || !Standing(written, mid, items[i]) ==> Standing(after, mid, items[i])
    requires !Lost(written, mid, items, items[i])
    ensures Standing(after, mid, items[i])
  {
    if Standing(written, mid, items[i]) {
      var c :| c in written && Stands(written[c], mid, items[i]);
      StandingStays(written, mid, items, i, c);
      assert Stands((written - Dropped(written, mid, Some(items)))[c], mid, items[i]);
    }
  }

  lemma {:induction false} LostStaysLost(written: Records, after: Records, mid: nat, items: seq<string>, i: nat,
                                         odo: int, date: string)
    requires i < |items| && mid in written && mid !in Dropped(written, mid, Some(items))
    requires RowsOk(written, after, mid, items, odo, date)
    requires after.Keys * written.Keys <= (written - Dropped(written, mid, Some(items))).Keys
    requires Lost(written, mid, items, items[i])
    ensures !Standing(after, mid, items[i])
  {
    forall c | c in after ensures !Stands(after[c], mid, items[i]) {
      assert RowOk(written, after[c], c, mid, items, odo, date);
      assert c in written ==> c in after.Keys * written.Keys;
      LostIsGone(written, mid, items, i, after[c], c, odo, date);
    }
  }

  lemma {:induction false} ChildIsListed(written: Records, after: Records, mid: nat, items: seq<string>, c: nat,
                                         odo: int, date: string)
    requires mid in written && mid !in Dropped(written, mid, Some(items))
    requires RowsOk(written, after, mid, items, odo, date)
    requires after.Keys * written.Keys <= (written - Dropped(written, mid, Some(items))).Keys
    requires c in after && after[c].parent == Some(mid)
    ensures Listed(after[c], mid, items)
  {
    assert RowOk(written, after[c], c, mid, items, odo, date);
    if c in written {
      assert c in after.Keys * written.Keys;
      ChildDropped(written, mid, items, c);
      KindMeans(after[c], mid, "chain");
    } else {
      var i :| 0 <= i < |items| && CameFor(after[c], written, mid, items[i]);
      assert Stands(after[c], mid, items[i]);
    }
  }

  /**
    What an update leaves: each listed item has a child if and only if it is not lost, booked where and
    when the record is; and there is no child that is not listed.
  */
  lemma {:induction false} UpdateLeavesItems(written: Records, bike: nat, mid: nat, items: seq<string>, odo: int,
                                             date: string, ids: seq<nat>, stamp: nat)
    requires mid in written && |items| == |ids| && NewIds(written, ids)
    requires mid !in Dropped(written, mid, Some(items))
    ensures var left := written - Dropped(written, mid, Some(items));
            var after := WithItems(left, Children(written, mid), bike, mid, items, odo, date, ids, stamp);
            ItemsLeft(written, after, mid, items, odo, date)
  {
    var left := written - Dropped(written, mid, Some(items));
    var after := WithItems(left, Children(written, mid), bike, mid, items, odo, date, ids, stamp);
    assert items[0..] == items && ids[0..] == ids;
    ItemsKeep(written, left, bike, mid, items, 0, odo, date, ids, stamp);
    forall i | 0 <= i < |items|
      ensures Standing(after, mid, items[i]) <==> !Lost(written, mid, items, items[i])
      ensures BroughtAlong(after, mid, items[i], odo, date)
    {
      ItemsDone(written, left, bike, mid, items, 0, i, odo, date, ids, stamp);
      if Lost(written, mid, items, items[i]) {
        LostStaysLost(written, after, mid, items, i, odo, date);
      } else {
        StillStands(written, after, mid, items, i);
      }
    }
    forall c | c in after && after[c].parent == Some(mid) ensures Listed(after[c], mid, items) {
      ChildIsListed(written, after, mid, items, c, odo, date);
    }
  }

  // ---------------------------------------------------------------- what a create leaves

  /** Each item has a row of its own under the new record, in the order of the list, and no other row changes. */
  ghost predicate ItemsCreated(now: Records, after: Records, bike: nat, mid: nat, items: seq<string>, odo: int,
                               date: string, ids: seq<nat>)
    requires |items| == |ids|
  {
    && (forall i :: 0 <= i < |ids| ==> ItemCreated(after, bike, mid, items[i], odo, date, ids[i]))
    && (forall id :: id in now ==> id in after && after[id] == now[id])
    && (forall id :: id in after ==> id in now || id in ids)
  }

  ghost predicate ItemCreated(after: Records, bike: nat, mid: nat, item: string, odo: int, date: string, id: nat) {
    id in after && Stands(after[id], mid, item) && Booked(after[id], odo, date) && after[id].bike == bike
    && !after[id].deleted
  }

  lemma {:induction false} CreateLeavesItems(now: Records, bike: nat, mid: nat, items: seq<string>, odo: int,
                                             date: string, ids: seq<nat>, stamp: nat)
    requires |items| == |ids| && NewIds(now, ids)
    ensures ItemsCreated(now, WithItems(now, map[], bike, mid, items, odo, date, ids, stamp), bike, mid, items, odo,
                         date, ids)
    decreases |items|
  {
    if items != [] {
      var next: Records := WithItem(now, map[], bike, mid, items[0], odo, date, ids[0], stamp);
      KindMeans(next[ids[0]], mid, items[0]);
      forall i | 0 <= i < |ids[1..]| ensures ids[1..][i] !in next { assert ids[1..][i] == ids[i + 1]; }
      CreateLeavesItems(next, bike, mid, items[1..], odo, date, ids[1..], stamp);
      var after := WithItems(now, map[], bike, mid, items, odo, date, ids, stamp);
      forall i | 0 <= i < |ids| ensures ItemCreated(after, bike, mid, items[i], odo, date, ids[i]) {
        assert i > 0 ==> ItemCreated(after, bike, mid, items[1..][i - 1], odo, date, ids[1..][i - 1]);
      }
    }
  }

  // ---------------------------------------------------------------- after the recomputation

  ghost predicate SameButStats(a: Record, b: Record) {
    b == a.(trip := b.trip, consumption := b.consumption, updatedAt := b.updatedAt)
  }

  /** A recomputation of a chain changes nothing but trips, consumptions and their stamps. */
  lemma {:induction false} RewritingKeepsRest(records: Records, ids: seq<nat>, prev: Option<int>, now: nat)
    requires forall id :: id in ids ==> id in records
    ensures forall id :: id in records ==> SameButStats(records[id], Rewritten(records, ids, prev, now)[id])
    decreases |ids|
  {
    if ids != [] {
      var r := records[ids[0]];
      var next: Records := records[ids[0] := Settled(r, StatsForGap(prev, r.odo, r.amount), now)];
      RewritingKeepsRest(next, ids[1..], Some(r.odo), now);
    }
  }

  lemma {:induction false} SameItemsLeft(written: Records, a: Records, b: Records, mid: nat, items: seq<string>,
                                         odo: int, date: string)
    requires ItemsLeft(written, a, mid, items, odo, date) && a.Keys == b.Keys
    requires forall id :: id in a ==> SameButStats(a[id], b[id])
    ensures ItemsLeft(written, b, mid, items, odo, date)
  {
    forall i | 0 <= i < |items|
      ensures Standing(b, mid, items[i]) <==> Standing(a, mid, items[i])
      ensures BroughtAlong(b, mid, items[i], odo, date)
    {
      forall c | c in a ensures Stands(b[c], mid, items[i]) <==> Stands(a[c], mid, items[i]) {}
      assert BroughtAlong(a, mid, items[i], odo, date);
    }
    forall c | c in b && b[c].parent == Some(mid) ensures Listed(b[c], mid, items) {
      assert Listed(a[c], mid, items);
      if i :| 0 <= i < |items| && Stands(a[c], mid, items[i]) { assert Stands(b[c], mid, items[i]); }
    }
  }

  /** So it is in the tables an update ends with, whether it recomputes a chain or not. */
  lemma {:induction false} UpdatedItems(before: Records, after: Records, bike: nat, mid: nat, row: Record,
                                        items: seq<string>, ids: seq<nat>, stamp: nat, recomputed: bool,
                                        chain: seq<nat>, now: nat)
    requires mid in before && |items| == |ids| && NewIds(before, ids)
    requires mid !in Dropped(before[mid := row], mid, Some(items))
    requires var stored := Reconciled(before, bike, mid, row, Some(items), ids, stamp);
             if recomputed then IsRecomputed(stored, after, bike, chain, now) else after == stored
    ensures ItemsLeft(before[mid := row], after, mid, items, row.odo, row.date)
  {
    var stored := Reconciled(before, bike, mid, row, Some(items), ids, stamp);
    UpdateLeavesItems(before[mid := row], bike, mid, items, row.odo, row.date, ids, stamp);
    if recomputed { RewritingKeepsRest(stored, chain, None, now); }
    SameItemsLeft(before[mid := row], stored, after, mid, items, row.odo, row.date);
  }

  // ---------------------------------------------------------------- the smallest case

  /** Record 1 was created with the item `wash`, which made child 2; an update that lists it again deletes the child. */
  lemma {:induction false} ListedAgainIsLost(repair: Record, wash: Record, now: nat)
    requires repair.parent.None? && Stands(wash, 1, "wash")
    ensures var before: Records := map[1 := repair, 2 := wash];
            && Listed(wash, 1, ["wash"]) && Lost(before, 1, ["wash"], "wash")
            && 1 !in Dropped(before, 1, Some(["wash"]))
            && !Standing(Reconciled(before, repair.bike, 1, repair, Some(["wash"]), [3], now), 1, "wash")
  {
    var before: Records := map[1 := repair, 2 := wash];
    assert 2 in before && Stands(before[2], 1, "wash") && Stands(wash, 1, ["wash"][0]);
    assert before[1 := repair] == before;
    TopStays(before, repair, ["wash"]);
    UpdateLeavesItems(before, repair.bike, 1, ["wash"], repair.odo, repair.date, [3], now);
    assert ["wash"][0] == "wash";
  }

  lemma {:induction false} TopStays(records: Records, top: Record, items: seq<string>)
    requires 1 in records && records[1] == top && top.parent.None?
    ensures 1 !in Dropped(records, 1, Some(items))
  {
    TopIsBelowNone(ParentsOf(records), 1, 1);
    forall r | r in Unlisted(records, 1, Some(items)) ensures !Above(ParentsOf(records), r, 1) {
      TopIsBelowNone(ParentsOf(records), r, 1);
    }
  }
}
