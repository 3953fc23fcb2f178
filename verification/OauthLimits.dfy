/**
  One live grant per user and client, and the cap on active tokens.  The source checks
  both in statements of their own before it inserts, so they are properties of how
  requests interleave: here is exactly which step breaks them, which runs keep them
  throughout, and which pairs of pending requests can break them.
*/
module OauthLimits {
  import opened Options
  import opened OauthProtocol
  import opened OauthInvariant

  predicate LiveGrant(row: TokenRow, user: nat, client: nat) {
    row.kind == Oauth && row.Live() && row.user == user && row.client == Some(client)
  }

  ghost predicate HasLive(tokens: Tokens, user: nat, client: nat) {
    exists t :: t in tokens && LiveGrant(tokens[t], user, client)
  }

  predicate SameConnection(a: TokenRow, b: TokenRow) {
    a.kind == Oauth && b.kind == Oauth && a.Live() && b.Live() && a.user == b.user && a.client == b.client
  }

  /** No two live OAuth rows agree on both. */
  ghost predicate OneLive(tokens: Tokens) {
    forall t, u :: t in tokens && u in tokens && SameConnection(tokens[t], tokens[u]) ==> t == u
  }

  ghost predicate Capped(tokens: Tokens) {
    forall user :: |ActiveTokens(tokens, user)| <= MAX_ACTIVE_TOKENS_PER_USER
  }

  predicate Full(tokens: Tokens, user: nat) { |ActiveTokens(tokens, user)| >= MAX_ACTIVE_TOKENS_PER_USER }

  // --------------------------------------------------------------------- one statement

  lemma {:induction false} InsertAndOneLive(tokens: Tokens, t: nat, row: TokenRow, client: nat)
    requires OneLive(tokens) && t !in tokens && LiveGrant(row, row.user, client)
    ensures OneLive(tokens[t := row]) <==> !HasLive(tokens, row.user, client)
  {
    var after := tokens[t := row];
    if u :| u in tokens && LiveGrant(tokens[u], row.user, client) {
      assert SameConnection(after[t], after[u]);
    }
  }

  lemma {:induction false} PersonalKeepsOneLive(tokens: Tokens, t: nat, row: TokenRow)
    requires OneLive(tokens) && row.kind == Personal
    ensures OneLive(tokens[t := row])
  {}

  lemma {:induction false} RevokeKeepsOneLive(tokens: Tokens, w: Which, now: nat)
    requires OneLive(tokens)
    ensures OneLive(Revoke(tokens, w, now))
  {}

  lemma {:induction false} RotateKeepsOneLive(tokens: Tokens, t: nat, row: TokenRow)
    requires OneLive(tokens) && t in tokens && tokens[t].Live() && Later(tokens[t], row)
    ensures OneLive(tokens[t := row])
  {}

  lemma {:induction false} ActiveAfterInsert(tokens: Tokens, t: nat, row: TokenRow, user: nat)
    requires t !in tokens && row.Live()
    ensures |ActiveTokens(tokens[t := row], user)| == |ActiveTokens(tokens, user)| + if user == row.user then 1 else 0
  {
    assert ActiveTokens(tokens[t := row], user) == ActiveTokens(tokens, user) + if user == row.user then {t} else {};
  }

  lemma {:induction false} FewerActive(before: Tokens, after: Tokens, user: nat)
    requires ActiveTokens(after, user) <= ActiveTokens(before, user)
    ensures |ActiveTokens(after, user)| <= |ActiveTokens(before, user)|
  {
    SubsetSize(ActiveTokens(after, user), ActiveTokens(before, user));
  }

  // ---------------------------------------------------------------------- one step

  predicate Inserts(q: Request) { q.ExchangeInsert? || q.PersonalInsert? }

  function OwnerOf(q: Request): nat
    requires Inserts(q)
  {
    if q.ExchangeInsert? then q.record.user else q.user
  }

  ghost predicate InsertsSecond(s: Sys, a: Action)
    requires Enabled(s, a)
  {
    a.Next? && s.requests[a.r].ExchangeInsert?
    && HasLive(s.db.tokens, s.requests[a.r].record.user, s.requests[a.r].record.client)
  }

  ghost predicate InsertsBeyondCap(s: Sys, a: Action)
    requires Enabled(s, a)
  {
    a.Next? && Inserts(s.requests[a.r]) && Full(s.db.tokens, OwnerOf(s.requests[a.r]))
  }

  /** What a step makes of the token table. */
  datatype Change =
    | Same
    | Revoked(which: Which, at: nat)
    | Added(token: nat, row: TokenRow)
    | Swapped(token: nat, row: TokenRow)

  function Changed(tokens: Tokens, c: Change): Tokens {
    match c
    case Same => tokens
    case Revoked(which, at) => Revoke(tokens, which, at)
    case Added(token, row) => tokens[token := row]
    case Swapped(token, row) => tokens[token := row]
  }

  predicate ChangeFits(tokens: Tokens, c: Change) {
    match c
    case Added(token, row) => token !in tokens && row.Live()
    case Swapped(token, row) => token in tokens && tokens[token].Live() && row.Live() && Later(tokens[token], row)
    case _ => true
  }

  ghost function ChangeBy(s: Sys, a: Action): Change
    requires Enabled(s, a)
  {
    match Written(s, a)
    case RevokeWhere(which, at) => Revoked(which, at)
    case InsertGrant(_, _, token, row) => Added(token, row)
    case InsertPersonal(token, row) => Added(token, row)
    case RotateToken(t, hash, _, access, refresh, at) =>
      if Rotatable(s.db.tokens, t, hash) then Swapped(t, Rotated(s.db.tokens[t], hash, access, refresh, at)) else Same
    case _ => Same
  }

  lemma {:induction false} StepChanges(s: Sys, a: Action)
    requires Enabled(s, a)
    ensures ChangeFits(s.db.tokens, ChangeBy(s, a))
    ensures Apply(s, a).db.tokens == Changed(s.db.tokens, ChangeBy(s, a))
  {}

  lemma {:induction false} StepAdds(s: Sys, a: Action)
    requires Enabled(s, a)
    ensures ChangeBy(s, a).Added? <==> a.Next? && Inserts(s.requests[a.r])
    ensures ChangeBy(s, a).Added? ==> ChangeBy(s, a).row.user == OwnerOf(s.requests[a.r])
    ensures ChangeBy(s, a).Added? && s.requests[a.r].PersonalInsert? ==> ChangeBy(s, a).row.kind == Personal
    ensures ChangeBy(s, a).Added? && s.requests[a.r].ExchangeInsert? ==>
              LiveGrant(ChangeBy(s, a).row, s.requests[a.r].record.user, s.requests[a.r].record.client)
  {}

  /** The one step that breaks it: inserting for a user and client that have a live grant by now. */
  lemma {:induction false} OneLiveBreaksWhen(s: Sys, a: Action)
    requires Enabled(s, a) && OneLive(s.db.tokens)
    ensures OneLive(Apply(s, a).db.tokens) <==> !InsertsSecond(s, a)
  {
    StepChanges(s, a);
    StepAdds(s, a);
    match ChangeBy(s, a)
    case Same =>
    case Revoked(which, at) => RevokeKeepsOneLive(s.db.tokens, which, at);
    case Swapped(t, row) => RotateKeepsOneLive(s.db.tokens, t, row);
    case Added(t, row) =>
      if s.requests[a.r].ExchangeInsert? {
        InsertAndOneLive(s.db.tokens, t, row, s.requests[a.r].record.client);
      } else {
        PersonalKeepsOneLive(s.db.tokens, t, row);
      }
  }

  lemma {:induction false} ActiveAfterChange(tokens: Tokens, c: Change, user: nat)
    requires ChangeFits(tokens, c)
    ensures if c.Added? && c.row.user == user
            then |ActiveTokens(Changed(tokens, c), user)| == |ActiveTokens(tokens, user)| + 1
            else |ActiveTokens(Changed(tokens, c), user)| <= |ActiveTokens(tokens, user)|
  {
    if c.Added? {
      ActiveAfterInsert(tokens, c.token, c.row, user);
    } else {
      FewerActive(tokens, Changed(tokens, c), user);
    }
  }

  /** The one step that breaks the cap: inserting for a user who is at it by now. */
  lemma {:induction false} CapBreaksWhen(s: Sys, a: Action)
    requires Enabled(s, a) && Capped(s.db.tokens)
    ensures Capped(Apply(s, a).db.tokens) <==> !InsertsBeyondCap(s, a)
  {
    var c, after := ChangeBy(s, a), Apply(s, a).db.tokens;
    StepChanges(s, a);
    StepAdds(s, a);
    forall user: nat
      ensures |ActiveTokens(after, user)| <= MAX_ACTIVE_TOKENS_PER_USER
           || (c.Added? && c.row.user == user && Full(s.db.tokens, user))
    {
      ActiveAfterChange(s.db.tokens, c, user);
      assert |ActiveTokens(s.db.tokens, user)| <= MAX_ACTIVE_TOKENS_PER_USER;
    }
    if c.Added? { ActiveAfterChange(s.db.tokens, c, c.row.user); }
  }

  // ------------------------------------------------------------------------- runs

  /** `p` holds in every state of the run. */
  ghost predicate Throughout(s: Sys, run: seq<Action>, p: Sys -> bool)
    requires Legal(s, run)
    decreases |run|
  {
    p(s) && (run != [] ==> Throughout(Apply(s, run[0]), run[1..], p))
  }

  lemma {:induction false} ThroughoutWeaker(s: Sys, run: seq<Action>, p: Sys -> bool, q: Sys -> bool)
    requires Legal(s, run) && Throughout(s, run, p) && forall s' :: p(s') ==> q(s')
    ensures Throughout(s, run, q)
    decreases |run|
  {
    if run != [] { ThroughoutWeaker(Apply(s, run[0]), run[1..], p, q); }
  }

  /** Past the revocation of the old grant and before the insert of the new one. */
  predicate Minting(q: Request) { q.ExchangeCount? || q.ExchangeInsert? }

  predicate RivalMints(p: Request, q: Request) {
    Minting(p) && Minting(q) && p.record.user == q.record.user && p.record.client == q.record.client
  }

  ghost predicate NoRivalMints(s: Sys) {
    forall r, q :: r in s.requests && q in s.requests && r != q ==> !RivalMints(s.requests[r], s.requests[q])
  }

  ghost predicate HoldsOneLive(s: Sys) { OneLive(s.db.tokens) }

  /** Whoever is about to insert has cleared the way. */
  ghost predicate Cleared(s: Sys) {
    && OneLive(s.db.tokens)
    && forall r :: r in s.requests && Minting(s.requests[r])
         ==> !HasLive(s.db.tokens, s.requests[r].record.user, s.requests[r].record.client)
  }

  lemma {:induction false} LiveAfterChange(tokens: Tokens, c: Change, user: nat, client: nat)
    requires ChangeFits(tokens, c) && HasLive(Changed(tokens, c), user, client)
    ensures HasLive(tokens, user, client) || (c.Added? && LiveGrant(c.row, user, client))
  {
    var after := Changed(tokens, c);
    var t :| t in after && LiveGrant(after[t], user, client);
    if !c.Added? || t != c.token { assert t in tokens && LiveGrant(tokens[t], user, client); }
  }

  lemma {:induction false} RevokeClears(tokens: Tokens, user: nat, client: nat, now: nat)
    ensures !HasLive(Revoke(tokens, ByUserAndClient(user, client), now), user, client)
  {}

  lemma {:induction false} MintsAfterRevoking(s: Sys, a: Action)
    requires Enabled(s, a) && a.Next? && Minting(Apply(s, a).requests[a.r])
    ensures var before, after := s.requests[a.r], Apply(s, a).requests[a.r];
            && (before.ExchangeRevokeOld? || before.ExchangeCount?) && after.record == before.record
            && (before.ExchangeRevokeOld? ==>
                  ChangeBy(s, a) == Revoked(ByUserAndClient(before.record.user, before.record.client), before.at))
            && (before.ExchangeCount? ==> ChangeBy(s, a) == Same)
  {}

  lemma {:induction false} BystanderStaysCleared(s: Sys, a: Action, r: nat)
    requires Cleared(s) && NoRivalMints(s) && Enabled(s, a)
    requires r in s.requests && Minting(s.requests[r]) && !(a.Next? && a.r == r)
    ensures !HasLive(Apply(s, a).db.tokens, s.requests[r].record.user, s.requests[r].record.client)
  {
    var user, client := s.requests[r].record.user, s.requests[r].record.client;
    StepChanges(s, a);
    StepAdds(s, a);
    if HasLive(Apply(s, a).db.tokens, user, client) {
      LiveAfterChange(s.db.tokens, ChangeBy(s, a), user, client);
    }
  }

  lemma {:induction false} StepStaysCleared(s: Sys, a: Action)
    requires Cleared(s) && NoRivalMints(s) && Enabled(s, a)
    ensures Cleared(Apply(s, a))
  {
    var s' := Apply(s, a);
    StepChanges(s, a);
    OneLiveBreaksWhen(s, a);
    forall r | r in s'.requests && Minting(s'.requests[r])
      ensures !HasLive(s'.db.tokens, s'.requests[r].record.user, s'.requests[r].record.client)
    {
      if a.Next? && a.r == r {
        MintsAfterRevoking(s, a);
        if s.requests[r].ExchangeRevokeOld? {
          RevokeClears(s.db.tokens, s'.requests[r].record.user, s'.requests[r].record.client, s.requests[r].at);
        }
      } else {
        BystanderStaysCleared(s, a, r);
      }
    }
  }

  /** While no two exchanges for the same user and client are between revoking and inserting, one grant is live. */
  lemma {:induction false} RunsKeepOneLive(s: Sys, run: seq<Action>)
    requires Legal(s, run) && Cleared(s) && Throughout(s, run, NoRivalMints)
    ensures Throughout(s, run, HoldsOneLive) && Cleared(Exec(s, run))
    decreases |run|
  {
    if run != [] {
      StepStaysCleared(s, run[0]);
      RunsKeepOneLive(Apply(s, run[0]), run[1..]);
    }
  }

  ghost predicate NoRivalInserts(s: Sys) {
    forall r, q :: r in s.requests && q in s.requests && r != q && Inserts(s.requests[r]) && Inserts(s.requests[q])
      ==> OwnerOf(s.requests[r]) != OwnerOf(s.requests[q])
  }

  ghost predicate HoldsCap(s: Sys) { Capped(s.db.tokens) }

  /** Whoever is about to insert has counted, and the count still stands. */
  ghost predicate Roomy(s: Sys) {
    && Capped(s.db.tokens)
    && forall r :: r in s.requests && Inserts(s.requests[r]) ==> !Full(s.db.tokens, OwnerOf(s.requests[r]))
  }

  lemma {:induction false} InsertsAfterCounting(s: Sys, a: Action)
    requires Enabled(s, a) && a.Next? && Inserts(Apply(s, a).requests[a.r])
    ensures ChangeBy(s, a) == Same && !Full(s.db.tokens, OwnerOf(Apply(s, a).requests[a.r]))
  {}

  lemma {:induction false} StepStaysRoomy(s: Sys, a: Action)
    requires Roomy(s) && NoRivalInserts(s) && Enabled(s, a)
    ensures Roomy(Apply(s, a))
  {
    var s' := Apply(s, a);
    StepChanges(s, a);
    StepAdds(s, a);
    CapBreaksWhen(s, a);
    forall r | r in s'.requests && Inserts(s'.requests[r]) ensures !Full(s'.db.tokens, OwnerOf(s'.requests[r])) {
      if a.Next? && a.r == r {
        InsertsAfterCounting(s, a);
      } else {
        assert s'.requests[r] == s.requests[r];
        ActiveAfterChange(s.db.tokens, ChangeBy(s, a), OwnerOf(s.requests[r]));
      }
    }
  }

  /** While no two requests of a user are between counting and inserting, the cap holds. */
  lemma {:induction false} RunsKeepCap(s: Sys, run: seq<Action>)
    requires Legal(s, run) && Roomy(s) && Throughout(s, run, NoRivalInserts)
    ensures Throughout(s, run, HoldsCap) && Roomy(Exec(s, run))
    decreases |run|
  {
    if run != [] {
      StepStaysRoomy(s, run[0]);
      RunsKeepCap(Apply(s, run[0]), run[1..]);
    }
  }

  ghost predicate OneAtATime(s: Sys) {
    forall r, q :: r in s.requests && q in s.requests && r != q ==> Finished(s.requests[r]) || Finished(s.requests[q])
  }

  ghost predicate HoldsLimits(s: Sys) { OneLive(s.db.tokens) && Capped(s.db.tokens) }

  lemma {:induction false} Both(s: Sys, run: seq<Action>)
    requires Legal(s, run) && Throughout(s, run, HoldsOneLive) && Throughout(s, run, HoldsCap)
    ensures Throughout(s, run, HoldsLimits)
    decreases |run|
  {
    if run != [] { Both(Apply(s, run[0]), run[1..]); }
  }

  /** Handlers that run one after the other keep both limits, in every state. */
  lemma {:induction false} SequentialRunsKeepLimits(run: seq<Action>)
    requires Legal(Empty, run) && Throughout(Empty, run, OneAtATime)
    ensures Throughout(Empty, run, HoldsLimits)
  {
    ThroughoutWeaker(Empty, run, OneAtATime, NoRivalMints);
    ThroughoutWeaker(Empty, run, OneAtATime, NoRivalInserts);
    forall user: nat ensures ActiveTokens(Empty.db.tokens, user) == {} {}
    RunsKeepOneLive(Empty, run);
    RunsKeepCap(Empty, run);
    Both(Empty, run);
  }

  // ----------------------------------------------------------------- pairs that break them

  lemma {:induction false} UpperBound(s: set<nat>) returns (n: nat)
    ensures forall m :: m in s ==> m < n
    decreases |s|
  {
    n := 0;
    if s != {} {
      var m: nat :| m in s;
      n := UpperBound(s - {m});
      if n <= m { n := m + 1; }
      forall k | k in s ensures k < n { assert k == m || k in s - {m}; }
    }
  }

  /** There are always unused secrets and row ids. */
  lemma {:induction false} FreshInput(db: Db) returns (i: Input)
    ensures Unused(db, i)
  {
    var t := UpperBound(db.tokens.Keys);
    var numbers: set<nat> := set x | x in db.issued :: x.n;
    var n := UpperBound(numbers);
    assert Access(n) in db.issued ==> Access(n).n in numbers;
    assert Refresh(n) in db.issued ==> Refresh(n).n in numbers;
    i := Input(None, 0, t, Access(n), Refresh(n));
  }

  lemma {:induction false} OneMore(s: Sys, run: seq<Action>, a: Action)
    requires Legal(s, run) && Enabled(Exec(s, run), a)
    ensures Legal(s, run + [a]) && Exec(s, run + [a]) == Apply(Exec(s, run), a)
    decreases |run|
  {
    if run == [] {
      assert run + [a] == [a] && [a][1..] == [] && Legal(Apply(s, a), []);
    } else {
      assert (run + [a])[1..] == run[1..] + [a];
      OneMore(Apply(s, run[0]), run[1..], a);
    }
  }

  ghost predicate StepsOf(run: seq<Action>, r: nat, q: nat) {
    forall k :: 0 <= k < |run| ==> run[k].Next? && (run[k].r == r || run[k].r == q)
  }

  /** A pending exchange that may count reaches its insert, and the token table stays as it is. */
  lemma {:induction false} Counts(s: Sys, run: seq<Action>, r: nat, other: nat) returns (longer: seq<Action>)
    requires Legal(s, run) && r in Exec(s, run).requests && Minting(Exec(s, run).requests[r]) && StepsOf(run, r, other)
    requires Exec(s, run).requests[r].ExchangeCount? ==>
               !Full(Exec(s, run).db.tokens, Exec(s, run).requests[r].record.user)
    ensures Legal(s, longer) && StepsOf(longer, r, other) && Exec(s, longer).db == Exec(s, run).db
    ensures var q := Exec(s, run).requests[r];
            Exec(s, longer).requests == Exec(s, run).requests[r := ExchangeInsert(q.p, q.code, q.record, q.at)]
  {
    var s1 := Exec(s, run);
    longer := run;
    if s1.requests[r].ExchangeCount? {
      var a := Next(r, Input(None, 0, 0, Access(0), Refresh(0)));
      OneMore(s, run, a);
      longer := run + [a];
    } else {
      assert s1.requests[r := s1.requests[r]] == s1.requests;
    }
  }

  ghost predicate AddsRow(before: Tokens, after: Tokens, user: nat) {
    exists t: nat, row: TokenRow :: t !in before && row.Live() && row.user == user && after == before[t := row]
  }

  ghost predicate AddsGrant(before: Tokens, after: Tokens, user: nat, client: nat) {
    exists t: nat, row: TokenRow :: t !in before && LiveGrant(row, user, client) && after == before[t := row]
  }

  lemma {:induction false} InsertsNow(s: Sys, run: seq<Action>, r: nat, q: nat) returns (longer: seq<Action>)
    requires Legal(s, run) && r in Exec(s, run).requests && Inserts(Exec(s, run).requests[r]) && StepsOf(run, r, q)
    ensures Legal(s, longer) && StepsOf(longer, r, q) && r in Exec(s, longer).requests
    ensures forall k :: k != r && k in Exec(s, run).requests ==>
              k in Exec(s, longer).requests && Exec(s, longer).requests[k] == Exec(s, run).requests[k]
    ensures var before, after := Exec(s, run), Exec(s, longer);
            && AddsRow(before.db.tokens, after.db.tokens, OwnerOf(before.requests[r]))
            && (before.requests[r].ExchangeInsert? ==>
                  AddsGrant(before.db.tokens, after.db.tokens, before.requests[r].record.user,
                            before.requests[r].record.client))
  {
    var i := FreshInput(Exec(s, run).db);
    OneMore(s, run, Next(r, i));
    longer := run + [Next(r, i)];
    StepChanges(Exec(s, run), Next(r, i));
    StepAdds(Exec(s, run), Next(r, i));
  }

  /**
    Two exchanges for the same user and client between revoking and inserting, below the
    cap or both past their count: their own next steps leave two live grants.
  */
  lemma {:induction false} RivalMintsBreakOneLive(s: Sys, r: nat, q: nat) returns (run: seq<Action>)
    requires r in s.requests && q in s.requests && r != q && RivalMints(s.requests[r], s.requests[q])
    requires Full(s.db.tokens, s.requests[r].record.user) ==>
               s.requests[r].ExchangeInsert? && s.requests[q].ExchangeInsert?
    ensures Legal(s, run) && StepsOf(run, r, q) && !OneLive(Exec(s, run).db.tokens)
  {
    var user, client := s.requests[r].record.user, s.requests[r].record.client;
    run := Counts(s, [], r, q);
    run := Counts(s, run, q, r);
    run := InsertsNow(s, run, r, q);
    var one := Exec(s, run).db.tokens;
    GrantIsLive(s.db.tokens, one, user, client);
    run := InsertsNow(s, run, q, r);
    TwoLive(one, Exec(s, run).db.tokens, user, client);
  }

  lemma {:induction false} GrantIsLive(before: Tokens, after: Tokens, user: nat, client: nat)
    requires AddsGrant(before, after, user, client)
    ensures HasLive(after, user, client)
  {
    var t: nat, row: TokenRow :| t !in before && LiveGrant(row, user, client) && after == before[t := row];
    assert after[t] == row;
  }

  lemma {:induction false} TwoLive(one: Tokens, two: Tokens, user: nat, client: nat)
    requires HasLive(one, user, client)
    requires AddsGrant(one, two, user, client)
    ensures !OneLive(two)
  {
    var t: nat, row: TokenRow :| t !in one && LiveGrant(row, user, client) && two == one[t := row];
    var u :| u in one && LiveGrant(one[u], user, client);
    assert SameConnection(two[t], two[u]);
  }

  /**
    Two counted requests of a user: when both have inserted, the cap is exceeded exactly if the
    user was within one of it.
  */
  lemma {:induction false} RivalInsertsBreakCap(s: Sys, r: nat, q: nat) returns (run: seq<Action>)
    requires r in s.requests && q in s.requests && r != q && Inserts(s.requests[r]) && Inserts(s.requests[q])
    requires OwnerOf(s.requests[r]) == OwnerOf(s.requests[q])
    ensures Legal(s, run) && StepsOf(run, r, q)
    ensures |ActiveTokens(s.db.tokens, OwnerOf(s.requests[r]))| >= MAX_ACTIVE_TOKENS_PER_USER - 1 ==>
              !Capped(Exec(s, run).db.tokens)
    ensures Capped(s.db.tokens) ==>
              (Capped(Exec(s, run).db.tokens)
          <==> |ActiveTokens(s.db.tokens, OwnerOf(s.requests[r]))| < MAX_ACTIVE_TOKENS_PER_USER - 1)
  {
    var user := OwnerOf(s.requests[r]);
    run := InsertsNow(s, [], r, q);
    var one := Exec(s, run).db.tokens;
    InsertCounts(s.db.tokens, one, user);
    run := InsertsNow(s, run, q, r);
    InsertCounts(one, Exec(s, run).db.tokens, user);
  }

  lemma {:induction false} InsertCounts(before: Tokens, after: Tokens, user: nat)
    requires AddsRow(before, after, user)
    ensures |ActiveTokens(after, user)| == |ActiveTokens(before, user)| + 1
    ensures forall other :: other != user ==> |ActiveTokens(after, other)| == |ActiveTokens(before, other)|
  {
    var t: nat, row: TokenRow :| t !in before && row.Live() && row.user == user && after == before[t := row];
    forall other: nat { ActiveAfterInsert(before, t, row, other); }
  }
}
