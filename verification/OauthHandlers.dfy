/**
  The handlers themselves, statement by statement on the two tables.  The ghost `sys` is
  a state of the interleaving system with these tables, so whatever is proved of every run
  holds of them.
*/
module OauthHandlers {
  import opened Options
  import opened OauthProtocol
  import opened OauthInvariant
  import opened OauthTheorems
  import opened OauthLimits

  // ------------------------------------------------------------ reachable states

  ghost predicate Reaches(s: Sys, s': Sys) {
    exists run :: Legal(s, run) && Exec(s, run) == s'
  }

  lemma {:induction false} Join(s: Sys, s1: Sys, s2: Sys)
    requires Reaches(s, s1) && Reaches(s1, s2)
    ensures Reaches(s, s2)
  {
    var run :| Legal(s, run) && Exec(s, run) == s1;
    var more :| Legal(s1, more) && Exec(s1, more) == s2;
    Append(s, run, more);
  }

  lemma {:induction false} Append(s: Sys, run: seq<Action>, more: seq<Action>)
    requires Legal(s, run) && Legal(Exec(s, run), more)
    ensures Legal(s, run + more) && Exec(s, run + more) == Exec(Exec(s, run), more)
    decreases |run|
  {
    if run == [] {
      assert run + more == more;
    } else {
      assert (run + more)[1..] == run[1..] + more;
      Append(Apply(s, run[0]), run[1..], more);
    }
  }

  lemma {:induction false} Extend(s: Sys, s1: Sys, a: Action)
    requires Reaches(s, s1) && Enabled(s1, a)
    ensures Reaches(s, Apply(s1, a))
  {
    var next := Apply(s1, a);
    var none: seq<Action> := [a][1..];
    assert none == [] && Legal(next, none) && Exec(next, none) == next;
    assert Legal(s1, [a]) && Exec(s1, [a]) == Exec(next, none);
    Join(s, s1, Apply(s1, a));
  }

  lemma {:induction false} Walk(s: Sys, s1: Sys, r: nat, q: Request, i: Input, st: Statement, next: Request)
    returns (s2: Sys)
    requires Reaches(s, s1) && r in s1.requests && s1.requests[r] == q && !Finished(q) && Possible(s1.db, q, i)
    requires Emit(s1.db, q, i) == (st, next)
    ensures Reaches(s, s2) && s2.db == Perform(s1.db, st) && s2.requests == s1.requests[r := next]
  {
    Extend(s, s1, Next(r, i));
    s2 := Apply(s1, Next(r, i));
  }

  // ---------------------------------------------------------- undisturbed exchange

  /** The token table once the user's previous grant for this client is revoked. */
  function Replaced(tokens: Tokens, record: CodeRow, now: nat): Tokens {
    Revoke(tokens, ByUserAndClient(record.user, record.client), now)
  }

  function TokensAfter(tokens: Tokens, record: CodeRow, i: Input): Tokens {
    var replaced := Replaced(tokens, record, i.now);
    if Full(replaced, record.user) then replaced
    else replaced[i.token := GrantRow(record, i.access, i.refresh, i.now)]
  }

  function CodesAfter(codes: Codes, tokens: Tokens, id: nat, record: CodeRow, i: Input): Codes {
    codes[id := record.(usedAt := Some(i.now),
                        issuedToken := if Full(Replaced(tokens, record, i.now), record.user) then record.issuedToken
                                       else Some(i.token))]
  }

  /** The claim is won and the user's previous grant for the client revoked. */
  lemma {:induction false} ClaimWalk(s: Sys, s0: Sys, r: nat, p: Presentation, id: nat, i: Input) returns (s': Sys)
    requires Reaches(s, s0) && id in s0.db.codes && s0.db.codes[id].usedAt.None?
    requires r in s0.requests && s0.requests[r] == ExchangeClaim(p, id, s0.db.codes[id])
    ensures var record := s0.db.codes[id];
            && Reaches(s, s')
            && s'.db.tokens == Replaced(s0.db.tokens, record, i.now) && s'.db.issued == s0.db.issued
            && s'.db.rotations == s0.db.rotations
            && s'.db.codes == s0.db.codes[id := record.(usedAt := Some(i.now))]
            && s'.requests == s0.requests[r := ExchangeCount(p, id, record, i.now)]
  {
    var record := s0.db.codes[id];
    var revoke, count := ExchangeRevokeOld(p, id, record, i.now), ExchangeCount(p, id, record, i.now);
    var s1 := Walk(s, s0, r, ExchangeClaim(p, id, record), i, ClaimCode(id, i.now), revoke);
    assert s1.db == s0.db.(codes := s0.db.codes[id := record.(usedAt := Some(i.now))], claimed := s1.db.claimed);
    s' := Walk(s, s1, r, revoke, i, RevokeWhere(ByUserAndClient(record.user, record.client), i.now), count);
    assert s'.db == s1.db.(tokens := Replaced(s0.db.tokens, record, i.now));
  }

  lemma {:induction false} ReplaceWalk(s: Sys, s0: Sys, r: nat, p: Presentation, id: nat, i: Input) returns (s': Sys)
    requires Reaches(s, s0) && id in s0.db.codes && s0.db.codes[id].usedAt.None?
    requires r in s0.requests && s0.requests[r] == ExchangeClaim(p, id, s0.db.codes[id])
    ensures var record := s0.db.codes[id];
            && Reaches(s, s')
            && s'.db.tokens == Replaced(s0.db.tokens, record, i.now) && s'.db.issued == s0.db.issued
            && s'.db.rotations == s0.db.rotations
            && s'.db.codes == s0.db.codes[id := record.(usedAt := Some(i.now))]
            && s'.requests == s0.requests[r := if Full(s'.db.tokens, record.user) then Refused
                                               else ExchangeInsert(p, id, record, i.now)]
  {
    var record := s0.db.codes[id];
    var s1 := ClaimWalk(s, s0, r, p, id, i);
    s' := Walk(s, s1, r, ExchangeCount(p, id, record, i.now), i, Nothing,
               if Full(s1.db.tokens, record.user) then Refused else ExchangeInsert(p, id, record, i.now));
  }

  lemma {:induction false} MintWalk(s: Sys, s0: Sys, r: nat, p: Presentation, id: nat, record: CodeRow, i: Input)
    returns (s': Sys)
    requires Reaches(s, s0) && r in s0.requests && s0.requests[r] == ExchangeInsert(p, id, record, i.now)
    requires Unused(s0.db, i) && id in s0.db.codes
    ensures Reaches(s, s') && s'.requests == s0.requests[r := Issued(i.token, i.access, record.scope)]
    ensures s'.db.tokens == s0.db.tokens[i.token := GrantRow(record, i.access, i.refresh, i.now)]
    ensures s'.db.issued == s0.db.issued + {i.access, i.refresh} && s'.db.rotations == s0.db.rotations
    ensures s'.db.codes == s0.db.codes[id := s0.db.codes[id].(issuedToken := Some(i.token))]
  {
    var insert, note := ExchangeInsert(p, id, record, i.now), ExchangeRecord(id, i.token, i.access, record.scope);
    var s1 := Walk(s, s0, r, insert, i, InsertGrant(id, p, i.token, GrantRow(record, i.access, i.refresh, i.now)),
                   note);
    s' := Walk(s, s1, r, note, i, RecordIssued(id, i.token), Issued(i.token, i.access, record.scope));
  }

  /** A request's first move: its SELECT and the checks on what it returned. */
  lemma {:induction false} Choose(s: Sys, s0: Sys, r: nat, q: Request, i: Input, next: Request) returns (s': Sys)
    requires Reaches(s, s0) && r !in s0.requests && Starting(q) && Possible(s0.db, q, i)
    requires Emit(s0.db, q, i) == (Nothing, next)
    ensures Reaches(s, s') && s'.db == s0.db && s'.requests == s0.requests[r := next]
  {
    Extend(s, s0, Start(r, q));
    s' := Walk(s, Apply(s0, Start(r, q)), r, q, i, Nothing, next);
  }

  // ------------------------------------------- what a handler makes of the tables

  datatype Outcome = Outcome(codes: Codes, tokens: Tokens, issued: Option<Scope>)

  predicate Selected(codes: Codes, secret: Secret, found: Option<nat>) {
    if found.Some? then CodeFound(codes, secret, found.value)
    else forall id :: id in codes ==> !CodeFound(codes, secret, id)
  }

  predicate SelectedGrant(tokens: Tokens, secret: Secret, found: Option<nat>) {
    if found.Some? then GrantFound(tokens, secret, found.value)
    else forall t :: t in tokens ==> !GrantFound(tokens, secret, t)
  }

  function Exchanged(codes: Codes, tokens: Tokens, p: Presentation, found: Option<nat>, i: Input): Outcome
    requires Selected(codes, p.secret, found)
  {
    match (if found.None? then Refused else CheckCode(found.value, codes[found.value], p))
    case ExchangeClaim(_, id, record) =>
      Outcome(CodesAfter(codes, tokens, id, record, i), TokensAfter(tokens, record, i),
              if Full(Replaced(tokens, record, i.now), record.user) then None else Some(record.scope))
    case ReplayRevoke(t) => Outcome(codes, Revoke(tokens, ById(t), i.now), None)
    case _ => Outcome(codes, tokens, None)
  }

  /** The statements of an exchange whose claim goes through. */
  /** One row revoked, if it is there and live, and nothing else. */
  predicate OnlyRevokes(before: Tokens, after: Tokens, t: Option<nat>, now: nat) {
    && after.Keys == before.Keys
    && forall u :: u in before ==>
         after[u] == if t == Some(u) && before[u].revokedAt.None? then before[u].(revokedAt := Some(now)) else before[u]
  }

  /** The user's live OAuth rows for the client, which a new grant replaces. */
  predicate OfConnection(row: TokenRow, user: nat, client: nat) {
    row.user == user && row.client == Some(client) && row.kind == Oauth && row.revokedAt.None?
  }

  /** The user's live rows that stay. */
  function Staying(tokens: Tokens, user: nat, client: nat): set<nat> {
    set t | t in tokens && tokens[t].user == user && tokens[t].revokedAt.None? && !OfConnection(tokens[t], user, client)
  }

  predicate ReplacesConnection(before: Tokens, after: Tokens, user: nat, client: nat, now: nat) {
    forall t :: t in before ==>
      && t in after
      && after[t] == if OfConnection(before[t], user, client) then before[t].(revokedAt := Some(now)) else before[t]
  }

  /** A grant with an hour for the access secret and ninety days for the refresh secret. */
  predicate HoldsGrant(tokens: Tokens, t: nat, record: CodeRow, i: Input) {
    && t in tokens
    && tokens[t] == TokenRow(record.user, Sha256(i.access), record.scope, Some(i.now + 3600), Oauth,
                             Some(record.client), Some(Sha256(i.refresh)), Some(i.now + 7776000), None, None)
  }

  /** What an exchange makes of the tables and answers, stated of the row found and not of the handler's checks. */
  ghost predicate ExchangeMeans(codes: Codes, tokens: Tokens, p: Presentation, found: Option<nat>, i: Input,
                                out: Outcome)
    requires Selected(codes, p.secret, found)
  {
    if found.None? || codes[found.value].client != p.client then out == Outcome(codes, tokens, None)
    else
      var record := codes[found.value];
      if record.usedAt.Some? then
        out.codes == codes && out.issued.None? && OnlyRevokes(tokens, out.tokens, record.issuedToken, i.now)
      else if !Authorised(p, record) then out == Outcome(codes, tokens, None)
      else
        && ReplacesConnection(tokens, out.tokens, record.user, record.client, i.now)
        && (out.issued.Some? <==> |Staying(tokens, record.user, record.client)| < 20)
        && (if out.issued.Some?
            then && out.issued == Some(record.scope) && HoldsGrant(out.tokens, i.token, record, i)
                 && out.tokens.Keys == tokens.Keys + {i.token}
                 && out.codes == codes[found.value := record.(usedAt := Some(i.now), issuedToken := Some(i.token))]
            else out.tokens.Keys == tokens.Keys && out.codes == codes[found.value := record.(usedAt := Some(i.now))])
  }

  lemma {:induction false} StayingAreActive(tokens: Tokens, record: CodeRow, now: nat)
    ensures ActiveTokens(Replaced(tokens, record, now), record.user) == Staying(tokens, record.user, record.client)
    ensures ReplacesConnection(tokens, Replaced(tokens, record, now), record.user, record.client, now)
  {}

  lemma {:induction false} ExchangedMeans(codes: Codes, tokens: Tokens, p: Presentation, found: Option<nat>, i: Input)
    requires Selected(codes, p.secret, found) && i.token !in tokens
    requires forall c :: c in codes && codes[c].usedAt.None? ==> codes[c].issuedToken.None?
    ensures ExchangeMeans(codes, tokens, p, found, i, Exchanged(codes, tokens, p, found, i))
  {
    if found.Some? {
      StayingAreActive(tokens, codes[found.value], i.now);
      var record := codes[found.value];
      if record.client == p.client && record.usedAt.None? { CheckMeans(found.value, record, p); }
    }
  }

  /** An unused code of the client passes the checks exactly when the client presents all it is bound to, in time. */
  lemma {:induction false} CheckMeans(id: nat, record: CodeRow, p: Presentation)
    requires record.client == p.client && record.usedAt.None? && record.codeHash == Sha256(p.secret)
    ensures CheckCode(id, record, p) == if Authorised(p, record) then ExchangeClaim(p, id, record) else Refused
  {
    if Authorised(p, record) {
      forall i | 0 <= i < |p.verifier| ensures Unreserved(p.verifier[i]) { assert p.verifier[i] in p.verifier; }
    }
  }

  lemma {:induction false} ClaimRun(s: Sys, s0: Sys, r: nat, p: Presentation, id: nat, record: CodeRow, i: Input)
    returns (s': Sys)
    requires Reaches(s, s0) && r in s0.requests && s0.requests[r] == ExchangeClaim(p, id, record)
    requires Unused(s0.db, i) && id in s0.db.codes && s0.db.codes[id] == record && record.usedAt.None?
    ensures Reaches(s, s')
    ensures s'.db.codes == CodesAfter(s0.db.codes, s0.db.tokens, id, record, i)
    ensures s'.db.tokens == TokensAfter(s0.db.tokens, record, i)
  {
    s' := ReplaceWalk(s, s0, r, p, id, i);
    if !Full(s'.db.tokens, record.user) { s' := MintWalk(s, s', r, p, id, record, i); }
  }

  lemma {:induction false} ExchangeRun(s: Sys, s0: Sys, r: nat, p: Presentation, found: Option<nat>, i: Input)
    returns (s': Sys)
    requires Reaches(s, s0) && r !in s0.requests && Unused(s0.db, i) && Selected(s0.db.codes, p.secret, found)
    ensures Reaches(s, s')
    ensures var out := Exchanged(s0.db.codes, s0.db.tokens, p, found, i);
            s'.db.codes == out.codes && s'.db.tokens == out.tokens
  {
    var next := if found.None? then Refused else CheckCode(found.value, s0.db.codes[found.value], p);
    s' := Choose(s, s0, r, ExchangeSelect(p), i.(found := found), next);
    if next.ReplayRevoke? {
      s' := Walk(s, s', r, next, i, RevokeWhere(ById(next.token), i.now), Refused);
    } else if next.ExchangeClaim? {
      s' := ClaimRun(s, s', r, p, next.code, next.record, i);
    }
  }

  function Refreshed(codes: Codes, tokens: Tokens, client: nat, secret: Secret, wanted: Option<Scope>,
                     found: Option<nat>, i: Input): Outcome
    requires SelectedGrant(tokens, secret, found)
  {
    var hash := Sha256(secret);
    match (if found.None? then RefreshReplay(hash)
           else CheckGrant(found.value, tokens[found.value], client, hash, wanted, i.now))
    case RefreshRotate(t, _, _, scope) =>
      Outcome(codes, tokens[found.value := Rotated(tokens[found.value], hash, i.access, i.refresh, i.now)], Some(scope))
    case RefreshReplay(_) => Outcome(codes, Revoke(tokens, ByPrevious(hash), i.now), None)
    case _ => Outcome(codes, tokens, None)
  }

  /** What a refresh is accepted for: a live, unexpired grant of the client, and no more than its scope. */
  predicate Refreshable(row: TokenRow, client: nat, wanted: Option<Scope>, now: nat) {
    && row.revokedAt.None? && row.client == Some(client)
    && row.refreshExpiresAt.Some? && now < row.refreshExpiresAt.value
    && !(wanted == Some(Write) && row.scope == Read)
  }

  predicate RevokesPredecessors(before: Tokens, after: Tokens, hash: Hash, now: nat) {
    && after.Keys == before.Keys
    && forall t :: t in before ==>
         after[t] == if before[t].previousHash == Some(hash) && before[t].revokedAt.None?
                     then before[t].(revokedAt := Some(now)) else before[t]
  }

  /** What a refresh makes of the tables and answers, stated of the row found. */
  ghost predicate RefreshMeans(codes: Codes, tokens: Tokens, client: nat, secret: Secret, wanted: Option<Scope>,
                               found: Option<nat>, i: Input, out: Outcome)
    requires SelectedGrant(tokens, secret, found)
  {
    && out.codes == codes
    && (out.issued.Some? <==> found.Some? && Refreshable(tokens[found.value], client, wanted, i.now))
    && (if found.None? then RevokesPredecessors(tokens, out.tokens, Sha256(secret), i.now)
        else if out.issued.None? then out.tokens == tokens
        else
          var row := tokens[found.value];
          && out.issued == Some(row.scope)
          && out.tokens == tokens[found.value :=
               row.(tokenHash := Sha256(i.access), expiresAt := Some(i.now + 3600),
                    refreshHash := Some(Sha256(i.refresh)), refreshExpiresAt := Some(i.now + 7776000),
                    previousHash := Some(Sha256(secret)))])
  }

  lemma {:induction false} RefreshedMeans(codes: Codes, tokens: Tokens, client: nat, secret: Secret,
                                          wanted: Option<Scope>, found: Option<nat>, i: Input)
    requires SelectedGrant(tokens, secret, found)
    ensures RefreshMeans(codes, tokens, client, secret, wanted, found, i,
                         Refreshed(codes, tokens, client, secret, wanted, found, i))
  {}

  lemma {:induction false} RefreshRun(s: Sys, s0: Sys, r: nat, client: nat, secret: Secret, wanted: Option<Scope>,
                   found: Option<nat>, i: Input) returns (s': Sys)
    requires Reaches(s, s0) && r !in s0.requests && Unused(s0.db, i) && SelectedGrant(s0.db.tokens, secret, found)
    ensures Reaches(s, s')
    ensures var out := Refreshed(s0.db.codes, s0.db.tokens, client, secret, wanted, found, i);
            s'.db.codes == out.codes && s'.db.tokens == out.tokens
  {
    var hash, q := Sha256(secret), RefreshSelect(client, secret, wanted);
    var next := if found.None? then RefreshReplay(hash)
                else CheckGrant(found.value, s0.db.tokens[found.value], client, hash, wanted, i.now);
    s' := Choose(s, s0, r, q, i.(found := found), next);
    if next.RefreshReplay? {
      s' := Walk(s, s', r, next, i, RevokeWhere(ByPrevious(hash), i.now), Refused);
    } else if next.RefreshRotate? {
      s' := RotateWalk(s, s', r, next.token, hash, next.client, next.scope, i);
    }
  }

  lemma {:induction false} RotateWalk(s: Sys, s0: Sys, r: nat, t: nat, hash: Hash, client: nat, scope: Scope, i: Input)
    returns (s': Sys)
    requires Reaches(s, s0) && r in s0.requests && s0.requests[r] == RefreshRotate(t, hash, client, scope)
    requires Unused(s0.db, i) && Rotatable(s0.db.tokens, t, hash)
    ensures Reaches(s, s') && s'.db.codes == s0.db.codes
    ensures s'.db.tokens == s0.db.tokens[t := Rotated(s0.db.tokens[t], hash, i.access, i.refresh, i.now)]
  {
    s' := Walk(s, s0, r, RefreshRotate(t, hash, client, scope), i,
               RotateToken(t, hash, client, i.access, i.refresh, i.now),
               Issued(t, i.access, scope));
  }

  lemma {:induction false} PersonalRun(s: Sys, s0: Sys, r: nat, user: nat, scope: Scope, lifetime: Option<nat>,
                                       i: Input) returns (s': Sys)
    requires Reaches(s, s0) && r !in s0.requests && Unused(s0.db, i)
    ensures Reaches(s, s') && s'.db.codes == s0.db.codes
    ensures s'.db.tokens == if Full(s0.db.tokens, user) then s0.db.tokens
                            else s0.db.tokens[i.token := PersonalRow(user, i.access, scope, lifetime, i.now)]
  {
    var q, insert := PersonalCount(user, scope, lifetime), PersonalInsert(user, scope, lifetime);
    s' := Choose(s, s0, r, q, i, if Full(s0.db.tokens, user) then Refused else insert);
    if !Full(s0.db.tokens, user) {
      s' := Walk(s, s', r, insert, i, InsertPersonal(i.token, PersonalRow(user, i.access, scope, lifetime, i.now)),
                 Issued(i.token, i.access, scope));
    }
  }

  ghost function Shown(n: nat): Presentation {
    Presentation(1, Code(n), seq(43, _ => 'a'), "app", true, 5)
  }

  ghost function Allowed(n: nat): CodeRow {
    CodeRow(Sha256(Code(n)), 1, 1, Read, "app", S256(seq(43, _ => 'a')), 600, None, None)
  }

  ghost function At5(n: nat): Input { Input(Some(n), 5, n, Access(n), Refresh(n)) }

  /** The user consented to the same client twice, and both codes are being exchanged. */
  lemma {:induction false} TwoSelected() returns (s: Sys)
    ensures Reaches(Empty, s) && s.db.tokens == map[] && s.db.issued == {Code(0), Code(1)}
    ensures s.db.codes == map[0 := Allowed(0), 1 := Allowed(1)]
    ensures s.requests == map[0 := ExchangeClaim(Shown(0), 0, Allowed(0)), 1 := ExchangeClaim(Shown(1), 1, Allowed(1))]
  {
    assert Legal(Empty, []) && Exec(Empty, []) == Empty;
    Extend(Empty, Empty, Consent(0, Allowed(0)));
    s := Apply(Empty, Consent(0, Allowed(0)));
    Extend(Empty, s, Consent(1, Allowed(1)));
    s := Apply(s, Consent(1, Allowed(1)));
    s := Choose(Empty, s, 0, ExchangeSelect(Shown(0)), At5(0), ExchangeClaim(Shown(0), 0, Allowed(0)));
    s := Choose(Empty, s, 1, ExchangeSelect(Shown(1)), At5(1), ExchangeClaim(Shown(1), 1, Allowed(1)));
  }

  lemma {:induction false} TwoReady() returns (s: Sys)
    ensures Reaches(Empty, s) && s.db.tokens == map[] && s.db.issued == {Code(0), Code(1)}
    ensures 0 in s.db.codes && 1 in s.db.codes && 0 in s.requests && 1 in s.requests
    ensures s.requests[0] == ExchangeInsert(Shown(0), 0, Allowed(0), 5)
    ensures s.requests[1] == ExchangeInsert(Shown(1), 1, Allowed(1), 5)
  {
    s := TwoSelected();
    assert ActiveTokens(map[], 1) == {};
    s := ReplaceWalk(Empty, s, 0, Shown(0), 0, At5(0));
    assert s.db.tokens == map[];
    s := ReplaceWalk(Empty, s, 1, Shown(1), 1, At5(1));
    assert s.db.tokens == map[];
  }

  /** A reachable state with two live grants of one user for one client. */
  lemma {:induction false} OverlapBreaksOneLive() returns (s: Sys)
    ensures Reaches(Empty, s) && !OneLive(s.db.tokens)
  {
    var ready := TwoReady();
    var run := RivalMintsBreakOneLive(ready, 0, 1);
    s := Exec(ready, run);
    Join(Empty, ready, s);
  }

  lemma {:induction false} PersonalTokens(k: nat) returns (s: Sys)
    requires k <= MAX_ACTIVE_TOKENS_PER_USER
    ensures Reaches(Empty, s) && |ActiveTokens(s.db.tokens, 1)| == k
  {
    if k == 0 {
      s := Empty;
      assert Legal(Empty, []) && Exec(Empty, []) == Empty && ActiveTokens(s.db.tokens, 1) == {};
    } else {
      var fewer := PersonalTokens(k - 1);
      var r := UpperBound(fewer.requests.Keys);
      var i := FreshInput(fewer.db);
      s := PersonalRun(Empty, fewer, r, 1, Read, None, i);
      ActiveAfterInsert(fewer.db.tokens, i.token, PersonalRow(1, i.access, Read, None, i.now), 1);
    }
  }

  lemma {:induction false} TwoCounted() returns (s: Sys, r: nat, q: nat)
    ensures Reaches(Empty, s) && r != q && r in s.requests && q in s.requests
    ensures |ActiveTokens(s.db.tokens, 1)| == MAX_ACTIVE_TOKENS_PER_USER - 1
    ensures s.requests[r] == PersonalInsert(1, Read, None) && s.requests[q] == PersonalInsert(1, Read, None)
  {
    var s0 := PersonalTokens(MAX_ACTIVE_TOKENS_PER_USER - 1);
    var i := FreshInput(s0.db);
    r := UpperBound(s0.requests.Keys);
    s := Choose(Empty, s0, r, PersonalCount(1, Read, None), i, PersonalInsert(1, Read, None));
    q := UpperBound(s.requests.Keys);
    s := Choose(Empty, s, q, PersonalCount(1, Read, None), i, PersonalInsert(1, Read, None));
  }

  /** A reachable state in which a user has more active tokens than the cap. */
  lemma {:induction false} OverlapBreaksCap() returns (s: Sys)
    ensures Reaches(Empty, s) && !Capped(s.db.tokens)
  {
    var ready, r, q := TwoCounted();
    var run := RivalInsertsBreakCap(ready, r, q);
    s := Exec(ready, run);
    Join(Empty, ready, s);
  }

  lemma {:induction false} PersonalKeepsCap(tokens: Tokens, t: nat, row: TokenRow)
    requires t !in tokens && row.Live() && !Full(tokens, row.user)
    ensures Capped(tokens) ==> Capped(tokens[t := row])
  {
    forall user: nat { ActiveAfterInsert(tokens, t, row, user); }
  }

  // ------------------------------------------------------------ replays that do not revoke

  lemma {:induction false} OneConsented() returns (s: Sys)
    ensures Reaches(Empty, s) && s.db == Perform(Empty.db, InsertCode(0, Allowed(0))) && s.requests == map[]
  {
    assert Legal(Empty, []) && Exec(Empty, []) == Empty;
    Extend(Empty, Empty, Consent(0, Allowed(0)));
    s := Apply(Empty, Consent(0, Allowed(0)));
  }

  lemma {:induction false} OneSelected() returns (s: Sys)
    ensures Reaches(Empty, s) && s.db.tokens == map[] && s.db.issued == {Code(0)} && s.db.rotations == []
    ensures s.db.codes == map[0 := Allowed(0)]
    ensures s.requests == map[0 := ExchangeClaim(Shown(0), 0, Allowed(0))]
  {
    s := OneConsented();
    s := Choose(Empty, s, 0, ExchangeSelect(Shown(0)), At5(0), ExchangeClaim(Shown(0), 0, Allowed(0)));
  }

  lemma {:induction false} OneClaimed() returns (s: Sys)
    ensures Reaches(Empty, s) && s.db.tokens == map[] && s.db.issued == {Code(0)} && s.db.rotations == []
    ensures s.db.codes == map[0 := Allowed(0).(usedAt := Some(5))]
    ensures s.requests == map[0 := ExchangeInsert(Shown(0), 0, Allowed(0), 5)]
  {
    s := OneSelected();
    assert ActiveTokens(map[], 1) == {};
    s := ReplaceWalk(Empty, s, 0, Shown(0), 0, At5(0));
    assert s.db.tokens == map[];
  }

  /**
    A code is presented again after its claim and before its row names the grant: the replay ends
    refused, the exchange goes on, and the grant lives.
  */
  lemma {:induction false} EarlyCodeReplay() returns (s: Sys, s': Sys)
    ensures Reaches(Empty, s) && s.db.codes.Keys == {0} && s.db.codes[0].usedAt.Some?
    ensures 1 in s.requests && s.requests[1] == ExchangeSelect(Shown(0)) && CodeFound(s.db.codes, Shown(0).secret, 0)
    ensures Reaches(s, s') && 1 in s'.requests && s'.requests[1] == Refused
    ensures 0 in s'.db.codes && s'.db.codes[0].issuedToken == Some(0) && 0 in s'.db.tokens && s'.db.tokens[0].Live()
  {
    var claimed := OneClaimed();
    Extend(Empty, claimed, Start(1, ExchangeSelect(Shown(0))));
    s := Apply(claimed, Start(1, ExchangeSelect(Shown(0))));
    assert Legal(s, []) && Exec(s, []) == s;
    s' := Walk(s, s, 1, ExchangeSelect(Shown(0)), At5(0), Nothing, Refused);
    s' := MintWalk(s, s', 0, Shown(0), 0, Allowed(0), At5(0));
  }

  /** Grant 0 is issued, with the first access and refresh secret. */
  lemma {:induction false} OneIssued() returns (s: Sys)
    ensures Holds(s, 0) && s.db.rotations == []
  {
    s := OneClaimed();
    s := MintWalk(Empty, s, 0, Shown(0), 0, Allowed(0), At5(0));
  }

  /** The n-th refresh is request n and draws the n-th pair of secrets. */
  ghost function Again(n: nat): Input { Input(Some(0), 5, n, Access(n), Refresh(n)) }

  /** Grant 0 is live and holds the refresh secret drawn last. */
  ghost predicate Holds(s: Sys, n: nat) {
    && Reaches(Empty, s) && s.db.tokens.Keys == {0} && s.db.tokens[0].Live() && s.db.tokens[0].kind == Oauth
    && s.db.tokens[0].client == Some(1) && s.db.tokens[0].refreshHash == Some(Sha256(Refresh(n)))
    && s.db.tokens[0].refreshExpiresAt.GetOr(0) > 5
    && (forall k :: k in s.requests ==> k <= n)
    && (forall x :: x in s.db.issued ==> x.n <= n)
  }

  lemma {:induction false} RefreshSelected(s: Sys, n: nat) returns (s': Sys)
    requires Holds(s, n)
    ensures Reaches(Empty, s') && s'.db == s.db
    ensures s'.requests == s.requests[n + 1 := RefreshRotate(0, Sha256(Refresh(n)), 1, s.db.tokens[0].scope)]
  {
    s' := Choose(Empty, s, n + 1, RefreshSelect(1, Refresh(n), None), Again(n + 1),
                 RefreshRotate(0, Sha256(Refresh(n)), 1, s.db.tokens[0].scope));
  }

  lemma {:induction false} RefreshOnce(s: Sys, n: nat) returns (s': Sys)
    requires Holds(s, n)
    ensures Holds(s', n + 1)
    ensures s'.db.rotations == s.db.rotations + [Rotation(0, Sha256(Refresh(n)), 1)]
    ensures s'.db.tokens[0].previousHash == Some(Sha256(Refresh(n)))
  {
    var hash, scope, i := Sha256(Refresh(n)), s.db.tokens[0].scope, Again(n + 1);
    var s0 := RefreshSelected(s, n);
    s' := Walk(Empty, s0, n + 1, RefreshRotate(0, hash, 1, scope), i, RotateToken(0, hash, 1, i.access, i.refresh, 5),
               Issued(0, i.access, scope));
    RotatedHolds(s, s', n);
  }

  lemma {:induction false} RotatedHolds(s: Sys, s': Sys, n: nat)
    requires Holds(s, n) && Reaches(Empty, s') && s'.requests.Keys == s.requests.Keys + {n + 1}
    requires s'.db == Perform(s.db, RotateToken(0, Sha256(Refresh(n)), 1, Access(n + 1), Refresh(n + 1), 5))
    ensures Holds(s', n + 1)
    ensures s'.db.rotations == s.db.rotations + [Rotation(0, Sha256(Refresh(n)), 1)]
    ensures s'.db.tokens[0].previousHash == Some(Sha256(Refresh(n)))
  {
    assert Rotatable(s.db.tokens, 0, Sha256(Refresh(n)));
  }

  lemma {:induction false} TwiceRefreshed() returns (s: Sys)
    ensures Holds(s, 2) && s.db.tokens[0].previousHash == Some(Sha256(Refresh(1)))
    ensures s.db.rotations == [Rotation(0, Sha256(Refresh(0)), 1), Rotation(0, Sha256(Refresh(1)), 1)]
  {
    s := OneIssued();
    s := RefreshOnce(s, 0);
    s := RefreshOnce(s, 1);
  }

  lemma {:induction false} StaleSelected(s: Sys, n: nat, secret: Secret) returns (s': Sys)
    requires Holds(s, n) && secret != Refresh(n)
    ensures Reaches(Empty, s') && s'.db == s.db && s'.requests == s.requests[n + 1 := RefreshReplay(Sha256(secret))]
  {
    s' := Choose(Empty, s, n + 1, RefreshSelect(1, secret, None), Again(n + 1).(found := None),
                 RefreshReplay(Sha256(secret)));
  }

  lemma {:induction false} StaleRefused(s: Sys, r: nat, hash: Hash) returns (s': Sys)
    requires r in s.requests && s.requests[r] == RefreshReplay(hash)
    requires 0 in s.db.tokens && s.db.tokens[0].Live() && s.db.tokens[0].previousHash != Some(hash)
    ensures Reaches(s, s') && r in s'.requests && s'.requests[r] == Refused
    ensures 0 in s'.db.tokens && s'.db.tokens[0].Live()
  {
    assert Legal(s, []) && Exec(s, []) == s;
    s' := Walk(s, s, r, RefreshReplay(hash), Again(0), RevokeWhere(ByPrevious(hash), 5), Refused);
  }

  /**
    A grant is refreshed twice, and then the first refresh secret, redeemed but not the latest, is
    presented again: the replay ends refused and the grant lives.
  */
  lemma {:induction false} OlderReplay() returns (s: Sys, s': Sys)
    ensures Reaches(Empty, s) && |s.db.rotations| == 2 && !IsLatest(s.db.rotations, 0)
    ensures 3 in s.requests && s.requests[3] == RefreshReplay(s.db.rotations[0].presented)
    ensures Reaches(s, s') && 3 in s'.requests && s'.requests[3] == Refused
    ensures s.db.rotations[0].token in s'.db.tokens && s'.db.tokens[s.db.rotations[0].token].Live()
  {
    var refreshed := TwiceRefreshed();
    s := StaleSelected(refreshed, 2, Refresh(0));
    assert s.db.rotations[1].token == s.db.rotations[0].token;
    s' := StaleRefused(s, 3, Sha256(Refresh(0)));
  }

  // --------------------------------------------------------------- the handlers

  class Server {
    var codes: Codes
    var tokens: Tokens
    ghost var sys: Sys

    /** The tables are those of some run of the interleaving system. */
    ghost predicate Valid()
      reads this
    {
      Reaches(Empty, sys) && sys.db.codes == codes && sys.db.tokens == tokens
    }

    constructor ()
      ensures Valid() && codes == map[] && tokens == map[]
    {
      codes, tokens, sys := map[], map[], Empty;
      new;
      assert Legal(Empty, []) && Exec(Empty, []) == Empty;
    }

    method ExchangeCode(p: Presentation, i: Input, ghost r: nat)
      returns (issued: Option<Scope>, ghost found: Option<nat>)
      requires Valid() && Unused(sys.db, i) && r !in sys.requests
      modifies this
      ensures Valid() && Selected(old(codes), p.secret, found)
      ensures Outcome(codes, tokens, issued) == Exchanged(old(codes), old(tokens), p, found, i)
      ensures ExchangeMeans(old(codes), old(tokens), p, found, i, Outcome(codes, tokens, issued))
    {
      issued := None;
      var row := FindCode(p.secret);
      found := row;
      ExchangeLeaves(sys, p, found, i);
      sys := ExchangeRun(Empty, sys, r, p, found, i);
      if row.None? { return; }
      var id, record := row.value, codes[row.value];
      if record.client != p.client { return; }
      if record.usedAt.Some? {
        if record.issuedToken.Some? { tokens := Revoke(tokens, ById(record.issuedToken.value), i.now); }
        return;
      }
      var refused := RefusesExchange(id, record, p);
      if refused { return; }
      issued := Mint(id, record, i);
    }

    /** The statements from the claim on. */
    method Mint(id: nat, record: CodeRow, i: Input) returns (issued: Option<Scope>)
      requires id in codes && codes[id] == record && record.usedAt.None?
      modifies this`codes, this`tokens
      ensures codes == CodesAfter(old(codes), old(tokens), id, record, i)
      ensures tokens == TokensAfter(old(tokens), record, i)
      ensures issued == if Full(Replaced(old(tokens), record, i.now), record.user) then None else Some(record.scope)
    {
      issued := None;
      codes := codes[id := record.(usedAt := Some(i.now))];
      tokens := Revoke(tokens, ByUserAndClient(record.user, record.client), i.now);
      if |ActiveTokens(tokens, record.user)| >= MAX_ACTIVE_TOKENS_PER_USER { return; }
      tokens := tokens[i.token := GrantRow(record, i.access, i.refresh, i.now)];
      codes := codes[id := codes[id].(issuedToken := Some(i.token))];
      issued := Some(record.scope);
    }

    method FindCode(secret: Secret) returns (found: Option<nat>)
      ensures Selected(codes, secret, found)
    {
      found := None;
      if c :| c in codes && codes[c].codeHash == Sha256(secret) { found := Some(c); }
    }

    /** The checks on an unused code of the client, in their order. */
    method RefusesExchange(id: nat, record: CodeRow, p: Presentation) returns (refused: bool)
      requires record.client == p.client && record.usedAt.None?
      ensures CheckCode(id, record, p) == if refused then Refused else ExchangeClaim(p, id, record)
    {
      if record.expiresAt <= p.seen { return true; }
      if record.redirect != p.redirect { return true; }
      if !VerifyPkce(p.verifier, record.challenge) { return true; }
      if !p.resourceOk { return true; }
      return false;
    }

    method RefreshGrant(client: nat, secret: Secret, wanted: Option<Scope>, i: Input, ghost r: nat)
      returns (issued: Option<Scope>, ghost found: Option<nat>)
      requires Valid() && Unused(sys.db, i) && r !in sys.requests
      modifies this
      ensures Valid() && SelectedGrant(old(tokens), secret, found)
      ensures Outcome(codes, tokens, issued) == Refreshed(old(codes), old(tokens), client, secret, wanted, found, i)
      ensures RefreshMeans(old(codes), old(tokens), client, secret, wanted, found, i, Outcome(codes, tokens, issued))
    {
      issued := None;
      var hash := Sha256(secret);
      var row := FindGrant(secret);
      found := row;
      RefreshedMeans(codes, tokens, client, secret, wanted, found, i);
      sys := RefreshRun(Empty, sys, r, client, secret, wanted, found, i);
      if row.None? {
        // No row has this secret; one that had it last is revoked.
        tokens := Revoke(tokens, ByPrevious(hash), i.now);
        return;
      }
      var refused := RefusesRefresh(row.value, tokens[row.value], client, hash, wanted, i.now);
      if refused { return; }
      issued := Some(tokens[row.value].scope);
      tokens := tokens[row.value := Rotated(tokens[row.value], hash, i.access, i.refresh, i.now)];
    }

    method FindGrant(secret: Secret) returns (found: Option<nat>)
      ensures SelectedGrant(tokens, secret, found)
    {
      found := None;
      if t :| t in tokens && tokens[t].refreshHash == Some(Sha256(secret)) && tokens[t].kind == Oauth {
        found := Some(t);
      }
    }

    /** The checks on the row found, in their order. */
    method RefusesRefresh(t: nat, row: TokenRow, client: nat, hash: Hash, wanted: Option<Scope>, now: nat)
      returns (refused: bool)
      ensures CheckGrant(t, row, client, hash, wanted, now)
           == if refused then Refused else RefreshRotate(t, hash, client, row.scope)
    {
      if !row.Live() { return true; }
      if row.client != Some(client) { return true; }
      if row.refreshExpiresAt.None? || row.refreshExpiresAt.value <= now { return true; }
      if wanted == Some(Write) && row.scope != Write { return true; }
      return false;
    }

    /** `authenticate_api_token`: a live row with the secret's hash that has not expired, or nothing. */
    method Authenticate(secret: Secret, now: nat) returns (row: Option<nat>)
      requires Valid()
      ensures forall t: nat :: row == Some(t) <==> t in tokens && secret.Access? && Opens(tokens[t], secret, now)
      ensures forall t: nat :: row == Some(t) <==> Authenticates(sys.db, secret, now, t)
    {
      row := None;
      OneRowPerSecret(sys, secret);
      if !secret.Access? { return; }
      if t :| t in tokens && tokens[t].tokenHash == Sha256(secret) && tokens[t].Live() {
        assert HasHash(tokens, t, secret);
        assert forall u: nat :: u in tokens && Opens(tokens[u], secret, now) ==> HasHash(tokens, u, secret);
        if tokens[t].expiresAt.Some? && tokens[t].expiresAt.value <= now { return; }
        row := Some(t);
      }
    }

    /** `POST /oauth/revoke`: no answer tells whether the secret existed. */
    method RevokeToken(client: nat, secret: Secret, now: nat)
      requires Valid()
      modifies this
      ensures Valid() && codes == old(codes)
      ensures tokens.Keys == old(tokens).Keys
      ensures forall t :: t in tokens ==>
                (tokens[t] == if EitherSecret(old(tokens)[t], client, secret)
                              then old(tokens)[t].(revokedAt := Some(now)) else old(tokens)[t])
    {
      Extend(Empty, sys, RevokeByClient(client, secret, now));
      sys := Apply(sys, RevokeByClient(client, secret, now));
      tokens := Revoke(tokens, BySecret(client, Sha256(secret)), now);
    }

    method RevokeApiToken(user: nat, t: nat, now: nat) returns (found: bool)
      requires Valid()
      modifies this
      ensures Valid() && codes == old(codes)
      ensures found <==> t in old(tokens) && old(tokens)[t].user == user && old(tokens)[t].Live()
      ensures tokens == if found then old(tokens)[t := old(tokens)[t].(revokedAt := Some(now))] else old(tokens)
    {
      Extend(Empty, sys, RevokeByUser(user, t, now));
      sys := Apply(sys, RevokeByUser(user, t, now));
      found := t in tokens && tokens[t].Live() && tokens[t].user == user;
      tokens := Revoke(tokens, ByOwner(t, user), now);
    }

    method CreateApiToken(user: nat, scope: Scope, lifetime: Option<nat>, i: Input, ghost r: nat)
      returns (created: bool)
      requires Valid() && Unused(sys.db, i) && r !in sys.requests
      modifies this
      ensures Valid() && codes == old(codes)
      ensures created <==> !Full(old(tokens), user)
      ensures tokens == if !created then old(tokens)
                        else old(tokens)[i.token := TokenRow(user, Sha256(i.access), scope, Deadline(lifetime, i.now),
                                                             Personal, None, None, None, None, None)]
      ensures Capped(old(tokens)) ==> Capped(tokens)
    {
      sys := PersonalRun(Empty, sys, r, user, scope, lifetime, i);
      created := |ActiveTokens(tokens, user)| < MAX_ACTIVE_TOKENS_PER_USER;
      if created {
        PersonalKeepsCap(tokens, i.token, PersonalRow(user, i.access, scope, lifetime, i.now));
        tokens := tokens[i.token := PersonalRow(user, i.access, scope, lifetime, i.now)];
      }
    }

    /** `issue_code`: drop expired codes, then insert the one the user consented to. */
    method IssueCode(code: nat, secret: Secret, client: nat, user: nat, scope: Scope, redirect: string,
                     challenge: Challenge, now: nat)
      requires Valid() && secret.Code? && secret !in sys.db.issued && code !in sys.db.consents
      modifies this
      ensures Valid() && tokens == old(tokens)
      ensures forall c :: c in codes <==> c == code || (c in old(codes) && now <= old(codes)[c].expiresAt)
      ensures forall c :: c in codes && c != code ==> codes[c] == old(codes)[c]
      ensures codes[code]
           == CodeRow(Sha256(secret), client, user, scope, redirect, challenge, now + 600, None, None)
    {
      var row := CodeRow(Sha256(secret), client, user, scope, redirect, challenge, now + AUTH_CODE_TTL, None, None);
      sys := IssueRun(Empty, sys, code, row, Expired(codes, now), now);
      codes := codes - Expired(codes, now);
      codes := codes[code := row];
    }
  }

  function Deadline(lifetime: Option<nat>, now: nat): Option<nat> {
    match lifetime
    case None => None
    case Some(n) => Some(now + n)
  }

  lemma {:induction false} ExchangeLeaves(s: Sys, p: Presentation, found: Option<nat>, i: Input)
    requires Reaches(Empty, s) && Selected(s.db.codes, p.secret, found) && Unused(s.db, i)
    ensures ExchangeMeans(s.db.codes, s.db.tokens, p, found, i, Exchanged(s.db.codes, s.db.tokens, p, found, i))
  {
    UnusedNameNothing(s);
    ExchangedMeans(s.db.codes, s.db.tokens, p, found, i);
  }

  /** A row that is not revoked opens to its secret until it expires, if it does. */
  predicate Opens(row: TokenRow, secret: Secret, now: nat) {
    row.tokenHash == Sha256(secret) && row.revokedAt.None? && now < row.expiresAt.GetOr(now + 1)
  }

  predicate HasHash(tokens: Tokens, t: nat, secret: Secret) { t in tokens && tokens[t].tokenHash == Sha256(secret) }

  lemma {:induction false} OneRowPerSecret(s: Sys, secret: Secret)
    requires Reaches(Empty, s)
    ensures forall t, u :: HasHash(s.db.tokens, t, secret) && HasHash(s.db.tokens, u, secret) ==> t == u
  {
    var run :| Legal(Empty, run) && Exec(Empty, run) == s;
    RunKeepsInv(Empty, run);
    forall t, u | HasHash(s.db.tokens, t, secret) && HasHash(s.db.tokens, u, secret) ensures t == u {
      assert t != u ==> RowsApart(s.db.tokens[t], s.db.tokens[u]);
    }
  }

  /** An unused code row names no token. */
  lemma {:induction false} UnusedNameNothing(s: Sys)
    requires Reaches(Empty, s)
    ensures forall c :: c in s.db.codes && s.db.codes[c].usedAt.None? ==> s.db.codes[c].issuedToken.None?
  {
    var run :| Legal(Empty, run) && Exec(Empty, run) == s;
    RunKeepsInv(Empty, run);
    forall c | c in s.db.codes && s.db.codes[c].issuedToken.Some? ensures s.db.codes[c].usedAt.Some? {
      var k :| 0 <= k < |s.db.grants| && s.db.grants[k].code == c;
      assert GrantOk(s.db, s.db.grants[k]);
    }
  }

  /** The client's live row that has the secret, as access or as refresh secret. */
  predicate EitherSecret(row: TokenRow, client: nat, secret: Secret) {
    && row.kind == Oauth && row.client == Some(client) && row.revokedAt.None?
    && (row.tokenHash == Sha256(secret) || row.refreshHash == Some(Sha256(secret)))
  }

  function Expired(codes: Codes, now: nat): set<nat> { set id | id in codes && codes[id].expiresAt < now }

  lemma {:induction false} IssueRun(s: Sys, s0: Sys, code: nat, row: CodeRow, gone: set<nat>, now: nat)
    returns (s': Sys)
    requires Reaches(s, s0) && Enabled(s0, Prune(now, gone)) && Enabled(s0, Consent(code, row))
    ensures Reaches(s, s') && s'.requests == s0.requests
    ensures s'.db.tokens == s0.db.tokens && s'.db.codes == (s0.db.codes - gone)[code := row]
  {
    Extend(s, s0, Prune(now, gone));
    var s1 := Apply(s0, Prune(now, gone));
    Extend(s, s1, Consent(code, row));
    s' := Apply(s1, Consent(code, row));
  }
}
