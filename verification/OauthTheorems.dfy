/** What the protocol promises over whole runs, and exactly where its promises stop. */
module OauthTheorems {
  import opened Options
  import opened OauthProtocol
  import opened OauthInvariant

  lemma {:induction false} RunKeepsInv(s: Sys, run: seq<Action>)
    requires Inv(s) && Legal(s, run)
    ensures Inv(Exec(s, run)) && Extends(s.db, Exec(s, run).db)
    decreases |run|
  {
    if run != [] {
      StepKeepsInv(s, run[0]);
      RunKeepsInv(Apply(s, run[0]), run[1..]);
      ExtendsTransitive(s.db, Apply(s, run[0]).db, Exec(s, run).db);
    }
  }

  lemma {:induction false} ExtendsTransitive(a: Db, b: Db, c: Db)
    requires Extends(a, b) && Extends(b, c)
    ensures Extends(a, c)
  {}

  // ----------------------------------------------------------- issued at most once

  /**
    However requests interleave, a code yields at most one grant, that grant is what
    the user consented to, and its request presented all the code was bound to.
  */
  lemma {:induction false} OneGrantPerCode(run: seq<Action>, j: nat, k: nat)
    requires Legal(Empty, run)
    requires var grants := Exec(Empty, run).db.grants;
             j < |grants| && k < |grants| && grants[j].code == grants[k].code
    ensures j == k
    ensures var db := Exec(Empty, run).db;
            var g := db.grants[k];
            && g.code in db.consents && g.token in db.tokens
            && GrantedAs(db.tokens[g.token], db.consents[g.code])
            && Authorised(g.presented, db.consents[g.code])
  {
    RunKeepsInv(Empty, run);
    assert GrantOk(Exec(Empty, run).db, Exec(Empty, run).db.grants[k]);
  }

  /** No OAuth row exists that some consent did not authorise, and responses name its scope. */
  lemma {:induction false} ResponsesCarryTheConsentedScope(run: seq<Action>, r: nat)
    requires Legal(Empty, run) && r in Exec(Empty, run).requests && Exec(Empty, run).requests[r].Issued?
    ensures var s := Exec(Empty, run);
            var Issued(t, _, scope) := s.requests[r];
            && t in s.db.tokens
            && (s.db.tokens[t].kind == Oauth ==>
                  exists k :: 0 <= k < |s.db.grants| && s.db.grants[k].token == t
                              && s.db.grants[k].code in s.db.consents
                              && s.db.consents[s.db.grants[k].code].scope == scope)
  {
    RunKeepsInv(Empty, run);
    var s := Exec(Empty, run);
    assert RequestOk(s.db, s.requests[r]);
    if s.db.tokens[s.requests[r].token].kind == Oauth { ScopeWasConsented(s.db, s.requests[r].token); }
  }

  lemma {:induction false} ScopeWasConsented(db: Db, t: nat)
    requires GrantsOk(db) && t in db.tokens && db.tokens[t].kind == Oauth
    ensures exists k :: 0 <= k < |db.grants| && db.grants[k].token == t
                        && db.grants[k].code in db.consents
                        && db.consents[db.grants[k].code].scope == db.tokens[t].scope
  {
    var k :| 0 <= k < |db.grants| && db.grants[k].token == t;
    assert GrantOk(db, db.grants[k]);
  }

  lemma {:induction false} RefreshSecretsRedeemedOnce(run: seq<Action>, j: nat, k: nat)
    requires Legal(Empty, run)
    requires var log := Exec(Empty, run).db.rotations;
             j < |log| && k < |log| && log[j].presented == log[k].presented
    ensures j == k
  {
    RunKeepsInv(Empty, run);
  }

  /** Every redemption is made by the client of the row it rotates. */
  lemma {:induction false} RedeemedByItsClient(run: seq<Action>, k: nat)
    requires Legal(Empty, run) && k < |Exec(Empty, run).db.rotations|
    ensures var db := Exec(Empty, run).db;
            && db.rotations[k].token in db.tokens
            && db.tokens[db.rotations[k].token].client == Some(db.rotations[k].client)
  {
    RunKeepsInv(Empty, run);
  }

  // ---------------------------------------------------------------- authentication

  /** `authenticate_api_token`: the row a bearer secret resolves to at a given time. */
  predicate Authenticates(db: Db, secret: Secret, now: nat, t: nat) {
    && secret.Access? && t in db.tokens && db.tokens[t].tokenHash == Sha256(secret) && db.tokens[t].Live()
    && (db.tokens[t].expiresAt.Some? ==> now < db.tokens[t].expiresAt.value)
  }

  /** A secret opens at most one row, and a row opens to at most one secret. */
  lemma {:induction false} OneSecretPerRow(run: seq<Action>, a: Secret, b: Secret, now: nat, t: nat, u: nat)
    requires Legal(Empty, run)
    requires Authenticates(Exec(Empty, run).db, a, now, t) && Authenticates(Exec(Empty, run).db, b, now, u)
    ensures a == b <==> t == u
  {
    RunKeepsInv(Empty, run);
    var db := Exec(Empty, run).db;
    if t != u { assert RowsApart(db.tokens[t], db.tokens[u]); }
  }

  predicate Retired(db: Db, secret: Secret) {
    secret in db.issued && forall t :: t in db.tokens ==> db.tokens[t].tokenHash != Sha256(secret)
  }

  /** A rotation retires the access secret it replaces, and a retired secret never works again. */
  lemma {:induction false} RotationRetires(s: Sys, a: Action)
    requires Inv(s) && Enabled(s, a) && a.Next? && s.requests[a.r].RefreshRotate?
    requires Apply(s, a).requests[a.r].Issued?
    ensures var t := s.requests[a.r].token;
            t in s.db.tokens && Retired(Apply(s, a).db, s.db.tokens[t].tokenHash.secret)
  {
    var t := s.requests[a.r].token;
    assert Rotatable(s.db.tokens, t, s.requests[a.r].hash);
    forall u | u in s.db.tokens && u != t ensures s.db.tokens[u].tokenHash != s.db.tokens[t].tokenHash {
      assert RowsApart(s.db.tokens[u], s.db.tokens[t]);
    }
  }

  lemma {:induction false} RetiredForever(s: Sys, run: seq<Action>, secret: Secret, now: nat, t: nat)
    requires Inv(s) && Legal(s, run) && Retired(s.db, secret)
    ensures Retired(Exec(s, run).db, secret) && !Authenticates(Exec(s, run).db, secret, now, t)
    decreases |run|
  {
    if run != [] {
      StepKeepsInv(s, run[0]);
      StaysRetired(s, run[0], secret);
      RetiredForever(Apply(s, run[0]), run[1..], secret, now, t);
    }
  }

  lemma {:induction false} StaysRetired(s: Sys, a: Action, secret: Secret)
    requires Inv(s) && Enabled(s, a) && Retired(s.db, secret)
    ensures Retired(Apply(s, a).db, secret)
  {
    StepKeepsDb(s, a);
    StatementKeepsRetired(s.db, Written(s, a), secret);
  }

  lemma {:induction false} StatementKeepsRetired(db: Db, st: Statement, secret: Secret)
    requires Sound(db, st) && Retired(db, secret)
    ensures Retired(Perform(db, st), secret)
  {}

  // --------------------------------------------------------------------- revocation

  /** Once revoked, a row never changes, authenticates or rotates, whatever was in flight. */
  lemma {:induction false} RevocationIsFinal(s: Sys, run: seq<Action>, t: nat)
    requires Inv(s) && Legal(s, run) && t in s.db.tokens && !s.db.tokens[t].Live()
    ensures var db := Exec(s, run).db;
            && t in db.tokens && db.tokens[t] == s.db.tokens[t]
            && (forall secret, now :: !Authenticates(db, secret, now, t))
            && (forall k :: |s.db.rotations| <= k < |db.rotations| ==> db.rotations[k].token != t)
    decreases |run|
  {
    if run != [] {
      StepKeepsInv(s, run[0]);
      assert Later(s.db.tokens[t], Apply(s, run[0]).db.tokens[t]);
      RevocationIsFinal(Apply(s, run[0]), run[1..], t);
      var db1, db2 := Apply(s, run[0]).db, Exec(s, run).db;
      RunKeepsInv(Apply(s, run[0]), run[1..]);
      forall k | |s.db.rotations| <= k < |db2.rotations| ensures db2.rotations[k].token != t {
        if k < |db1.rotations| {
          assert db2.rotations[k] == db1.rotations[k];
          RotatesOnlyLive(s, run[0], t);
        }
      }
    }
  }

  lemma {:induction false} RotatesOnlyLive(s: Sys, a: Action, t: nat)
    requires Enabled(s, a) && t in s.db.tokens && !s.db.tokens[t].Live()
    ensures var log := Apply(s, a).db.rotations;
            forall k :: |s.db.rotations| <= k < |log| ==> log[k].token != t
  {}

  predicate Revokes(a: Action, t: nat, row: TokenRow) {
    match a
    case RevokeByClient(client, secret, _) =>
      && row.kind == Oauth && row.client == Some(client)
      && (row.tokenHash == Sha256(secret) || row.refreshHash == Some(Sha256(secret)))
    case RevokeByUser(user, token, _) => token == t && row.user == user
    case _ => false
  }

  /** `/oauth/revoke` with either secret of a grant, or a user's revoke of an own row, ends it for good. */
  lemma {:induction false} RevokeEndsTheGrant(s: Sys, a: Action, t: nat, run: seq<Action>)
    requires Inv(s) && Enabled(s, a) && t in s.db.tokens && Revokes(a, t, s.db.tokens[t]) && Legal(Apply(s, a), run)
    ensures var db := Exec(Apply(s, a), run).db;
            && t in db.tokens && !db.tokens[t].Live()
            && (forall secret, now :: !Authenticates(db, secret, now, t))
            && (forall k :: |s.db.rotations| <= k < |db.rotations| ==> db.rotations[k].token != t)
  {
    StepKeepsInv(s, a);
    RevokeStep(s, a, t);
    RevocationIsFinal(Apply(s, a), run, t);
  }

  lemma {:induction false} RevokeStep(s: Sys, a: Action, t: nat)
    requires Enabled(s, a) && t in s.db.tokens && Revokes(a, t, s.db.tokens[t])
    ensures t in Apply(s, a).db.tokens && !Apply(s, a).db.tokens[t].Live() && Apply(s, a).db.rotations == s.db.rotations
  {}

  // -------------------------------------------------------------------- code replay

  /** Whatever runs in between, once the replaying request has finished its grant is revoked. */
  lemma {:induction false} ReplayRevokes(s: Sys, run: seq<Action>, r: nat, t: nat)
    requires Inv(s) && Legal(s, run) && r in s.requests && s.requests[r] == ReplayRevoke(t)
    ensures var s' := Exec(s, run);
            && r in s'.requests && t in s'.db.tokens
            && (s'.requests[r] == ReplayRevoke(t) || !s'.db.tokens[t].Live())
    decreases |run|
  {
    assert RequestOk(s.db, s.requests[r]);
    if run != [] {
      var s1 := Apply(s, run[0]);
      StepKeepsInv(s, run[0]);
      ReplayStep(s, run[0], r, t);
      if s1.requests[r] == ReplayRevoke(t) {
        ReplayRevokes(s1, run[1..], r, t);
      } else {
        RevocationIsFinal(s1, run[1..], t);
        RequestsStay(s1, run[1..], r);
      }
    }
  }

  /**
    Presenting a used code again.  Where the code row names a token, that is the grant this
    code produced, and in every continuation it is revoked by the time the request has
    finished; otherwise, between the insert and that write, the replay is only refused.
  */
  lemma {:induction false} CodeReplay(s: Sys, a: Action, run: seq<Action>)
    requires Inv(s) && Enabled(s, a) && a.Next? && s.requests[a.r].ExchangeSelect?
    requires a.i.found.Some? && s.db.codes[a.i.found.value].usedAt.Some?
    requires s.db.codes[a.i.found.value].client == s.requests[a.r].p.client && Legal(Apply(s, a), run)
    ensures var named, s1, s2 := s.db.codes[a.i.found.value].issuedToken, Apply(s, a), Exec(Apply(s, a), run);
            && s1.db == s.db && a.r in s2.requests
            && (named.None? ==> s1.requests[a.r] == Refused)
            && (named.Some? ==> Minted(s.db.grants, a.i.found.value, named.value) && named.value in s2.db.tokens
                                && (Finished(s2.requests[a.r]) ==> !s2.db.tokens[named.value].Live()))
  {
    StepKeepsInv(s, a);
    RequestsStay(Apply(s, a), run, a.r);
    if s.db.codes[a.i.found.value].issuedToken.Some? {
      ReplayRevokes(Apply(s, a), run, a.r, s.db.codes[a.i.found.value].issuedToken.value);
    }
  }

  lemma {:induction false} ReplayStep(s: Sys, a: Action, r: nat, t: nat)
    requires Enabled(s, a) && r in s.requests && s.requests[r] == ReplayRevoke(t) && t in s.db.tokens
    ensures r in Apply(s, a).requests && t in Apply(s, a).db.tokens
    ensures Apply(s, a).requests[r] == ReplayRevoke(t) || !Apply(s, a).db.tokens[t].Live()
  {}

  lemma {:induction false} RequestsStay(s: Sys, run: seq<Action>, r: nat)
    requires Legal(s, run) && r in s.requests
    ensures r in Exec(s, run).requests
    decreases |run|
  {
    if run != [] { RequestsStay(Apply(s, run[0]), run[1..], r); }
  }

  // ----------------------------------------------------------------- refresh replay

  /**
    Presenting an already redeemed refresh secret revokes the grant it was redeemed
    for exactly when it is that grant's latest redeemed secret: the row remembers one.
  */
  lemma {:induction false} RefreshReplayExact(s: Sys, a: Action, k: nat)
    requires Inv(s) && Enabled(s, a) && a.Next? && k < |s.db.rotations|
    requires s.requests[a.r] == RefreshReplay(s.db.rotations[k].presented)
    ensures var t := s.db.rotations[k].token;
            && t in s.db.tokens && t in Apply(s, a).db.tokens
            && (!Apply(s, a).db.tokens[t].Live() <==>
                (!s.db.tokens[t].Live() || IsLatest(s.db.rotations, k)))
  {
    var t := s.db.rotations[k].token;
    LatestIsRemembered(s.db.rotations, k);
  }

  predicate IsLatest(log: seq<Rotation>, k: nat)
    requires k < |log|
  {
    forall j :: k < j < |log| ==> log[j].token != log[k].token
  }

  lemma {:induction false} LatestIsRemembered(log: seq<Rotation>, k: nat)
    requires k < |log|
    requires forall i, j :: 0 <= i < j < |log| ==> log[i].presented != log[j].presented
    ensures LastRedeemed(log, log[k].token) == Some(log[k].presented) <==> IsLatest(log, k)
  {
    var last := |log| - 1;
    if log[last].token != log[k].token {
      LatestIsRemembered(log[..last], k);
    }
  }

  /** A redeemed refresh secret is never accepted again: its request can only end refused. */
  lemma {:induction false} RedeemedIsRefused(s: Sys, a: Action, k: nat)
    requires Inv(s) && Enabled(s, a) && a.Next? && k < |s.db.rotations|
    requires s.requests[a.r].RefreshSelect? && Sha256(s.requests[a.r].secret) == s.db.rotations[k].presented
    ensures Apply(s, a).requests[a.r] == RefreshReplay(s.db.rotations[k].presented)
  {}
}
