/**
  Tables whose rows carry the two synchronisation columns `deletedAt` and `updatedAt`,
  and the incremental pull built on them: a client that merges a pull into an old
  listing holds the present listing exactly when every change was stamped later.
*/
module SyncTables {
  import opened Options

  datatype Row<+T> = Row(cols: T, deletedAt: Option<nat>, updatedAt: nat) {
    predicate Live() { deletedAt.None? }
  }

  type Table<T> = map<nat, Row<T>>

  function Inserted<T>(cols: T, now: nat): Row<T> { Row(cols, None, now) }

  function Written<T>(r: Row<T>, cols: T, now: nat): Row<T> { Row(cols, r.deletedAt, now) }

  function Tombstone<T>(r: Row<T>, now: nat): Row<T> { Row(r.cols, Some(now), now) }

  /** An UPDATE of the live rows that match, setting some columns. */
  function UpdateWhere<T>(t: Table<T>, which: T -> bool, change: T -> T, now: nat): Table<T> {
    map id | id in t :: if t[id].Live() && which(t[id].cols) then Written(t[id], change(t[id].cols), now) else t[id]
  }

  function TombstoneWhere<T>(t: Table<T>, which: T -> bool, now: nat): Table<T> {
    map id | id in t :: if t[id].Live() && which(t[id].cols) then Tombstone(t[id], now) else t[id]
  }

  // ------------------------------------------------------------------- pulls

  /** The full listing: the rows that are not tombstones. */
  function Listing<T>(t: Table<T>): Table<T> { map id | id in t && t[id].Live() :: t[id] }

  /** `?since`: everything stamped after the cursor, tombstones included. */
  function Pull<T>(t: Table<T>, since: int): Table<T> { map id | id in t && t[id].updatedAt > since :: t[id] }

  /** A client drops what the pull says is deleted and takes over the rest. */
  function Merge<T>(held: Table<T>, pull: Table<T>): Table<T> {
    map id | id in held.Keys + pull.Keys && (id in pull ==> pull[id].Live()) ::
      if id in pull then pull[id] else held[id]
  }

  function View<T>(t: Table<T>, id: nat): Option<Row<T>> {
    if id in t && t[id].Live() then Some(t[id]) else None
  }

  /** Exactly what a writer owes the client: a later stamp wherever the visible row changed. */
  ghost predicate Stamped<T>(before: Table<T>, after: Table<T>, since: int) {
    forall id :: id in after ==> after[id].updatedAt > since || View(after, id) == View(before, id)
  }

  lemma {:induction false} MergedView<T>(before: Table<T>, after: Table<T>, since: int, id: nat)
    requires before.Keys <= after.Keys
    ensures View(Merge(Listing(before), Pull(after, since)), id)
         == if id in after && after[id].updatedAt > since then View(after, id) else View(before, id)
  {}

  lemma {:induction false} SameViews<T>(a: Table<T>, b: Table<T>)
    requires forall id :: id in a ==> a[id].Live()
    requires forall id :: id in b ==> b[id].Live()
    requires forall id :: View(a, id) == View(b, id)
    ensures a == b
  {
    forall id ensures id in a <==> id in b { assert View(a, id) == View(b, id); }
    forall id | id in a ensures a[id] == b[id] { assert View(a, id) == View(b, id); }
  }

  /** No rows vanish; then merging the pull gives the present listing if and only if the changes were stamped. */
  lemma {:induction false} PullIsExactWhenStamped<T>(before: Table<T>, after: Table<T>, since: int)
    requires before.Keys <= after.Keys
    ensures Merge(Listing(before), Pull(after, since)) == Listing(after) <==> Stamped(before, after, since)
  {
    var merged := Merge(Listing(before), Pull(after, since));
    forall id
      ensures View(merged, id)
           == if id in after && after[id].updatedAt > since then View(after, id) else View(before, id)
    {
      MergedView(before, after, since, id);
    }
    forall id ensures View(Listing(after), id) == View(after, id) {}
    if Stamped(before, after, since) { SameViews(merged, Listing(after)); }
    if merged == Listing(after) {
      forall id | id in after ensures after[id].updatedAt > since || View(after, id) == View(before, id) {
        assert View(merged, id) == View(Listing(after), id);
      }
    }
  }

  // -------------------------------------------------------- what writers keep

  /** Rows stay or get a later stamp, and new rows have one. */
  ghost predicate Bumped<T(!new)>(before: Table<T>, after: Table<T>, since: int) {
    && before.Keys <= after.Keys
    && forall id :: id in after ==> after[id].updatedAt > since || (id in before && after[id] == before[id])
  }

  lemma {:induction false} BumpedIsStamped<T(!new)>(before: Table<T>, after: Table<T>, since: int)
    requires Bumped(before, after, since)
    ensures Stamped(before, after, since)
  {}

  lemma {:induction false} BumpedTransitive<T(!new)>(a: Table<T>, b: Table<T>, c: Table<T>, since: int)
    requires Bumped(a, b, since) && Bumped(b, c, since)
    ensures Bumped(a, c, since)
  {}

  ghost predicate PullGives<T>(before: Table<T>, after: Table<T>, since: int) {
    Merge(Listing(before), Pull(after, since)) == Listing(after)
  }

  lemma {:induction false} BumpedPull<T(!new)>(before: Table<T>, after: Table<T>, since: int)
    requires Bumped(before, after, since)
    ensures PullGives(before, after, since)
  {
    BumpedIsStamped(before, after, since);
    PullIsExactWhenStamped(before, after, since);
  }

  // ------------------------------------------------------------ writers that do not stamp

  /** As `Bumped`, but for some rows that were changed without a stamp. */
  ghost predicate BumpedBut<T(!new)>(before: Table<T>, after: Table<T>, silent: set<nat>, since: int) {
    && before.Keys <= after.Keys
    && forall id :: id in after && id !in silent ==>
         after[id].updatedAt > since || (id in before && after[id] == before[id])
  }

  lemma {:induction false} BumpedButTransitive<T(!new)>(a: Table<T>, b: Table<T>, c: Table<T>, x: set<nat>, y: set<nat>,
                                                        since: int)
    requires BumpedBut(a, b, x, since) && BumpedBut(b, c, y, since)
    ensures BumpedBut(a, c, x + y, since)
  {}

  /** The row carries a later stamp, for whatever reason, or looks as it did. */
  ghost predicate Caught<T>(before: Table<T>, after: Table<T>, since: int, id: nat)
    requires id in after
  {
    after[id].updatedAt > since || View(after, id) == View(before, id)
  }

  /** Then the pull is exact if and only if each of those rows is caught. */
  lemma {:induction false} PullExactBut<T(!new)>(before: Table<T>, after: Table<T>, silent: set<nat>, since: int)
    requires BumpedBut(before, after, silent, since)
    ensures PullGives(before, after, since)
       <==> forall id :: id in silent && id in after ==> Caught(before, after, since, id)
  {
    PullIsExactWhenStamped(before, after, since);
    if forall id :: id in silent && id in after ==> Caught(before, after, since, id) {
      forall id | id in after ensures after[id].updatedAt > since || View(after, id) == View(before, id) {
        if id in silent { assert Caught(before, after, since, id); }
      }
    }
  }

  /** A write stamped at the cursor itself is lost on the client. */
  lemma {:induction false} TiedStampIsMissed<T(!new)>(t: Table<T>, id: nat, cols: T, now: nat)
    requires id !in t
    ensures Merge(Listing(t), Pull(t[id := Inserted(cols, now)], now)) != Listing(t[id := Inserted(cols, now)])
  {
    var after := t[id := Inserted(cols, now)];
    PullIsExactWhenStamped(t, after, now);
    assert View(after, id) != View(t, id);
  }
}
