/** What every statement of every request keeps, whatever runs in between. */
module OauthInvariant {
  import opened Options
  import opened OauthProtocol

  // ------------------------------------------------------------------- tables

  predicate RowsApart(a: TokenRow, b: TokenRow) {
    a.tokenHash != b.tokenHash && (a.refreshHash.Some? ==> a.refreshHash != b.refreshHash)
  }

  /** Every stored hash is of a generated secret, and no two rows share one. */
  ghost predicate HashesOk(db: Db) { TokenHashesOk(db) && CodeHashesOk(db) }

  ghost predicate TokenHashesOk(db: Db) {
    && (forall t :: t in db.tokens ==>
          db.tokens[t].tokenHash.secret.Access? && RowSecrets(db.tokens[t]) <= db.issued)
    && (forall t, u :: t in db.tokens && u in db.tokens && t != u ==> RowsApart(db.tokens[t], db.tokens[u]))
  }

  ghost predicate CodeHashesOk(db: Db) {
    && (forall c :: c in db.codes ==> db.codes[c].codeHash.secret in db.issued)
    && (forall c, d :: c in db.codes && d in db.codes && c != d ==> db.codes[c].codeHash != db.codes[d].codeHash)
  }

  function LastRedeemed(rotations: seq<Rotation>, t: nat): Option<Hash> {
    if rotations == [] then None
    else if rotations[|rotations| - 1].token == t then Some(rotations[|rotations| - 1].presented)
    else LastRedeemed(rotations[..|rotations| - 1], t)
  }

  /** Redeemed refresh secrets are spent, each once; a row remembers its latest. */
  ghost predicate RotationsOk(db: Db) {
    && (forall k :: 0 <= k < |db.rotations| ==>
          && db.rotations[k].token in db.tokens && db.rotations[k].presented.secret in db.issued
          && db.tokens[db.rotations[k].token].client == Some(db.rotations[k].client))
    && (forall j, k :: 0 <= j < k < |db.rotations| ==> db.rotations[j].presented != db.rotations[k].presented)
    && (forall k, t :: 0 <= k < |db.rotations| && t in db.tokens ==>
          db.tokens[t].refreshHash != Some(db.rotations[k].presented))
    && (forall t :: t in db.tokens ==> db.tokens[t].previousHash == LastRedeemed(db.rotations, t))
  }

  /** A code row is its consent plus the two columns an exchange writes. */
  predicate SameConsent(row: CodeRow, consent: CodeRow) {
    row == consent.(usedAt := row.usedAt, issuedToken := row.issuedToken)
  }

  ghost predicate Minted(grants: seq<Grant>, code: nat, token: nat) {
    exists k :: 0 <= k < |grants| && grants[k].code == code && grants[k].token == token
  }

  ghost predicate CodesOk(db: Db) {
    && db.claimed <= db.consents.Keys
    && (forall c :: c in db.codes ==>
          && c in db.consents && SameConsent(db.codes[c], db.consents[c])
          && (db.codes[c].usedAt.Some? <==> c in db.claimed)
          && (db.codes[c].issuedToken.Some? ==> Minted(db.grants, c, db.codes[c].issuedToken.value)))
  }

  /** The client presented everything the user's consent bound the code to. */
  predicate Authorised(p: Presentation, consent: CodeRow) {
    && Sha256(p.secret) == consent.codeHash && p.client == consent.client && p.redirect == consent.redirect
    && p.seen < consent.expiresAt && p.resourceOk
    && consent.challenge == S256(p.verifier) && 43 <= |p.verifier| <= 128
    && forall c :: c in p.verifier ==>
         'a' <= c <= 'z' || 'A' <= c <= 'Z' || '0' <= c <= '9' || c == '-' || c == '.' || c == '_' || c == '~'
  }

  predicate GrantedAs(row: TokenRow, consent: CodeRow) {
    row.kind == Oauth && row.user == consent.user && row.client == Some(consent.client) && row.scope == consent.scope
  }

  predicate GrantOk(db: Db, g: Grant) {
    && g.code in db.claimed && g.code in db.consents && g.token in db.tokens
    && GrantedAs(db.tokens[g.token], db.consents[g.code]) && Authorised(g.presented, db.consents[g.code])
  }

  ghost predicate GrantsOk(db: Db) {
    && (forall k :: 0 <= k < |db.grants| ==> GrantOk(db, db.grants[k]))
    && (forall j, k :: 0 <= j < k < |db.grants| ==>
          db.grants[j].code != db.grants[k].code && db.grants[j].token != db.grants[k].token)
    && (forall t :: t in db.tokens && db.tokens[t].kind == Oauth ==> Granted(db.grants, t))
  }

  ghost predicate Granted(grants: seq<Grant>, token: nat) {
    exists k :: 0 <= k < |grants| && grants[k].token == token
  }

  ghost predicate DbInv(db: Db) { HashesOk(db) && RotationsOk(db) && CodesOk(db) && GrantsOk(db) }

  /** What a statement needs for the tables to stay in order. */
  ghost predicate Sound(db: Db, st: Statement) {
    match st
    case InsertCode(code, row) =>
      && code !in db.consents && row.codeHash.secret.Code? && row.codeHash.secret !in db.issued
      && row.usedAt.None? && row.issuedToken.None?
    case RecordIssued(code, token) => Minted(db.grants, code, token)
    case InsertGrant(code, p, token, row) =>
      && NewRow(db, token, row) && Ungranted(db.grants, code) && code in db.claimed && code in db.consents
      && GrantedAs(row, db.consents[code]) && Authorised(p, db.consents[code])
    case InsertPersonal(token, row) => NewRow(db, token, row) && row.kind == Personal
    case RotateToken(token, _, client, access, refresh, _) =>
      && (token in db.tokens ==> db.tokens[token].client == Some(client))
      &&       access.Access? && refresh.Refresh? && access !in db.issued && refresh !in db.issued
    case _ => true
  }

  predicate NewRow(db: Db, token: nat, row: TokenRow) {
    && token !in db.tokens && row.previousHash.None?
    && row.tokenHash.secret.Access? && RowSecrets(row) !! db.issued
  }

  ghost predicate Ungranted(grants: seq<Grant>, code: nat) {
    forall k :: 0 <= k < |grants| ==> grants[k].code != code
  }

  lemma {:induction false} KeepsTokenHashes(db: Db, st: Statement)
    requires TokenHashesOk(db) && Sound(db, st)
    ensures TokenHashesOk(Perform(db, st))
  {
    match st
    case InsertGrant(_, _, token, row) => NewRowKeepsHashes(db, token, row, Perform(db, st));
    case InsertPersonal(token, row) => NewRowKeepsHashes(db, token, row, Perform(db, st));
    case RotateToken(_, _, _, _, _, _) => RotationKeepsHashes(db, st);
    case RevokeWhere(_, _) => RevocationKeepsHashes(db, st);
    case _ =>
  }

  lemma {:induction false} NewRowKeepsHashes(db: Db, token: nat, row: TokenRow, db': Db)
    requires TokenHashesOk(db) && NewRow(db, token, row)
    requires db'.tokens == db.tokens[token := row] && db'.issued == db.issued + RowSecrets(row)
    ensures TokenHashesOk(db')
  {}

  lemma {:induction false} RotationKeepsHashes(db: Db, st: Statement)
    requires TokenHashesOk(db) && st.RotateToken? && Sound(db, st)
    ensures TokenHashesOk(Perform(db, st))
  {}

  lemma {:induction false} RevocationKeepsHashes(db: Db, st: Statement)
    requires TokenHashesOk(db) && st.RevokeWhere?
    ensures TokenHashesOk(Perform(db, st))
  {}

  lemma {:induction false} KeepsCodeHashes(db: Db, st: Statement)
    requires CodeHashesOk(db) && CodesOk(db) && Sound(db, st)
    ensures CodeHashesOk(Perform(db, st))
  {}

  lemma {:induction false} KeepsRotations(db: Db, st: Statement)
    requires HashesOk(db) && RotationsOk(db) && Sound(db, st)
    ensures RotationsOk(Perform(db, st))
  {
    var db' := Perform(db, st);
    match st
    case InsertGrant(_, _, token, row) => NewRowKeepsRotations(db, token, row, db');
    case InsertPersonal(token, row) => NewRowKeepsRotations(db, token, row, db');
    case RotateToken(_, _, _, _, _, _) => RotationKeepsRotations(db, st);
    case RevokeWhere(which, at) => RevocationKeepsRotations(db, which, at);
    case _ => SameRowsKeepRotations(db, db');
  }

  lemma {:induction false} NewRowKeepsRotations(db: Db, token: nat, row: TokenRow, db': Db)
    requires RotationsOk(db) && NewRow(db, token, row) && db'.rotations == db.rotations
    requires db'.tokens == db.tokens[token := row] && db.issued <= db'.issued
    ensures RotationsOk(db')
  {
    NeverRedeemed(db.rotations, token);
  }

  lemma {:induction false} RevocationKeepsRotations(db: Db, which: Which, at: nat)
    requires RotationsOk(db)
    ensures RotationsOk(db.(tokens := Revoke(db.tokens, which, at)))
  {}

  lemma {:induction false} SameRowsKeepRotations(db: Db, db': Db)
    requires RotationsOk(db) && db'.tokens == db.tokens && db'.rotations == db.rotations && db.issued <= db'.issued
    ensures RotationsOk(db')
  {}

  lemma {:induction false} RotationKeepsRotations(db: Db, st: Statement)
    requires HashesOk(db) && RotationsOk(db) && st.RotateToken? && Sound(db, st)
    ensures RotationsOk(Perform(db, st))
  {
    if Rotatable(db.tokens, st.token, st.hash) {
      var id, n, db' := st.token, |db.rotations|, Perform(db, st);
      var log := db'.rotations;
      assert log == db.rotations + [Rotation(id, st.hash, st.client)] && log[..n] == db.rotations;
      assert st.hash.secret in RowSecrets(db.tokens[id]);
      forall k, t | 0 <= k < |log| && t in db'.tokens ensures db'.tokens[t].refreshHash != Some(log[k].presented) {
        if t != id { assert RowsApart(db.tokens[id], db.tokens[t]); }
      }
      forall j, k | 0 <= j < k < |log| ensures log[j].presented != log[k].presented {
        assert log[j] == db.rotations[j];
      }
      forall t | t in db'.tokens ensures db'.tokens[t].previousHash == LastRedeemed(log, t) {}
    }
  }

  lemma {:induction false} NeverRedeemed(rotations: seq<Rotation>, t: nat)
    requires forall k :: 0 <= k < |rotations| ==> rotations[k].token != t
    ensures LastRedeemed(rotations, t) == None
  {
    if rotations != [] { NeverRedeemed(rotations[..|rotations| - 1], t); }
  }

  lemma {:induction false} KeepsCodes(db: Db, st: Statement)
    requires CodesOk(db) && Sound(db, st)
    ensures CodesOk(Perform(db, st))
  {
    MintedGrows(db, st);
  }

  lemma {:induction false} MintedGrows(db: Db, st: Statement)
    ensures forall c, t :: Minted(db.grants, c, t) ==> Minted(Perform(db, st).grants, c, t)
  {
    assert db.grants <= Perform(db, st).grants;
    forall c, t | Minted(db.grants, c, t) ensures Minted(Perform(db, st).grants, c, t) {
      var k :| 0 <= k < |db.grants| && db.grants[k].code == c && db.grants[k].token == t;
      assert Perform(db, st).grants[k] == db.grants[k];
    }
  }

  lemma {:induction false} KeepsGrantRows(db: Db, st: Statement)
    requires GrantsOk(db) && CodesOk(db) && Sound(db, st)
    ensures forall k :: 0 <= k < |Perform(db, st).grants| ==> GrantOk(Perform(db, st), Perform(db, st).grants[k])
  {
    var db' := Perform(db, st);
    PerformExtends(db, st);
    forall k | 0 <= k < |db'.grants| ensures GrantOk(db', db'.grants[k]) {
      if k < |db.grants| { assert GrantOk(db, db.grants[k]); }
    }
  }

  lemma {:induction false} KeepsGranted(db: Db, st: Statement, t: nat)
    requires GrantsOk(db) && Sound(db, st) && t in Perform(db, st).tokens && Perform(db, st).tokens[t].kind == Oauth
    ensures Granted(Perform(db, st).grants, t)
  {
    var db' := Perform(db, st);
    if t in db.tokens {
      KindStays(db, st, t);
      StaysGranted(db.grants, db'.grants, t);
    } else {
      assert db'.grants[|db.grants|].token == t;
    }
  }

  lemma {:induction false} KindStays(db: Db, st: Statement, t: nat)
    requires Sound(db, st) && t in db.tokens
    ensures t in Perform(db, st).tokens && Perform(db, st).tokens[t].kind == db.tokens[t].kind
    ensures db.grants <= Perform(db, st).grants
  {}

  lemma {:induction false} StaysGranted(a: seq<Grant>, b: seq<Grant>, t: nat)
    requires Granted(a, t) && a <= b
    ensures Granted(b, t)
  {
    var k :| 0 <= k < |a| && a[k].token == t;
    assert b[k].token == t;
  }

  lemma {:induction false} KeepsGrantsApart(db: Db, st: Statement)
    requires GrantsOk(db) && Sound(db, st)
    ensures var grants := Perform(db, st).grants;
            forall j, k :: 0 <= j < k < |grants| ==>
              grants[j].code != grants[k].code && grants[j].token != grants[k].token
  {
    if st.InsertGrant? {
      forall k | 0 <= k < |db.grants| ensures db.grants[k].token != st.token { assert GrantOk(db, db.grants[k]); }
    }
  }

  lemma {:induction false} KeepsGrants(db: Db, st: Statement)
    requires GrantsOk(db) && CodesOk(db) && Sound(db, st)
    ensures GrantsOk(Perform(db, st))
  {
    var db' := Perform(db, st);
    KeepsGrantRows(db, st);
    KeepsGrantsApart(db, st);
    forall t | t in db'.tokens && db'.tokens[t].kind == Oauth ensures Granted(db'.grants, t) {
      KeepsGranted(db, st, t);
    }
  }

  /** A row never changes owner, client, kind or scope, and once revoked not at all. */
  predicate Later(a: TokenRow, b: TokenRow) {
    && a.user == b.user && a.client == b.client && a.kind == b.kind && a.scope == b.scope
    && (!a.Live() ==> b == a)
  }

  ghost predicate Extends(a: Db, b: Db) {
    && a.issued <= b.issued && a.claimed <= b.claimed
    && a.grants <= b.grants && a.rotations <= b.rotations
    && (forall c :: c in a.consents ==> c in b.consents && b.consents[c] == a.consents[c])
    && (forall t :: t in a.tokens ==> t in b.tokens && Later(a.tokens[t], b.tokens[t]))
  }

  lemma {:induction false} PerformExtends(db: Db, st: Statement)
    requires Sound(db, st)
    ensures Extends(db, Perform(db, st))
  {}

  lemma {:induction false} PerformKeeps(db: Db, st: Statement)
    requires DbInv(db) && Sound(db, st)
    ensures DbInv(Perform(db, st)) && Extends(db, Perform(db, st))
  {
    KeepsTokenHashes(db, st);
    KeepsCodeHashes(db, st);
    KeepsRotations(db, st);
    KeepsCodes(db, st);
    KeepsGrants(db, st);
    PerformExtends(db, st);
  }

  // ----------------------------------------------------------------- requests

  ghost predicate RequestOk(db: Db, q: Request) {
    match q
    case ReplayRevoke(token) => token in db.tokens
    case ExchangeClaim(p, code, record) => RecordOk(db, p, code, record)
    case ExchangeRevokeOld(p, code, record, _) => HolderOk(db, p, code, record)
    case ExchangeCount(p, code, record, _) => HolderOk(db, p, code, record)
    case ExchangeInsert(p, code, record, _) => HolderOk(db, p, code, record)
    case ExchangeRecord(code, token, _, scope) =>
      Minted(db.grants, code, token) && token in db.tokens && scope == db.tokens[token].scope
    case RefreshRotate(token, _, client, scope) =>
      token in db.tokens && scope == db.tokens[token].scope && db.tokens[token].client == Some(client)
    case Issued(token, _, scope) => token in db.tokens && scope == db.tokens[token].scope
    case _ => true
  }

  predicate RecordOk(db: Db, p: Presentation, code: nat, record: CodeRow) {
    code in db.consents && SameConsent(record, db.consents[code]) && Authorised(p, db.consents[code])
  }

  ghost predicate HolderOk(db: Db, p: Presentation, code: nat, record: CodeRow) {
    RecordOk(db, p, code, record) && code in db.claimed && Ungranted(db.grants, code)
  }

  predicate Rivals(p: Request, q: Request) { Holding(p) && Holding(q) && p.code == q.code }

  ghost predicate Inv(s: Sys) {
    && DbInv(s.db)
    && (forall r :: r in s.requests ==> RequestOk(s.db, s.requests[r]))
    && (forall r, q :: r in s.requests && q in s.requests && r != q ==> !Rivals(s.requests[r], s.requests[q]))
  }

  lemma {:induction false} EmitSound(db: Db, q: Request, i: Input)
    requires DbInv(db) && RequestOk(db, q) && Possible(db, q, i)
    ensures Sound(db, Emit(db, q, i).0)
  {}

  lemma {:induction false} EmitOk(db: Db, q: Request, i: Input)
    requires DbInv(db) && RequestOk(db, q) && Possible(db, q, i)
    ensures var (st, next) := Emit(db, q, i); RequestOk(Perform(db, st), next)
  {
    if q.ExchangeInsert? {
      InsertOk(db, q, i);
    } else if q.ExchangeSelect? || q.RefreshSelect? {
      SelectOk(db, q, i);
    } else {
      AdvanceOk(db, q, i);
    }
  }

  lemma {:induction false} SelectOk(db: Db, q: Request, i: Input)
    requires DbInv(db) && Possible(db, q, i) && (q.ExchangeSelect? || q.RefreshSelect?)
    ensures var (st, next) := Emit(db, q, i); RequestOk(Perform(db, st), next)
  {
    if i.found.Some? {
      if q.ExchangeSelect? {
        CheckCodeOk(db, i.found.value, q.p);
      } else {
        CheckGrantOk(db, i.found.value, q.client, Sha256(q.secret), q.wanted, i.now);
      }
    }
  }

  lemma {:induction false} CheckCodeOk(db: Db, code: nat, p: Presentation)
    requires CodesOk(db) && GrantsOk(db) && CodeFound(db.codes, p.secret, code)
    ensures RequestOk(db, CheckCode(code, db.codes[code], p))
  {
    var row := db.codes[code];
    if row.issuedToken.Some? {
      var k :| 0 <= k < |db.grants| && db.grants[k].code == code && db.grants[k].token == row.issuedToken.value;
      assert GrantOk(db, db.grants[k]);
    }
  }

  lemma {:induction false} CheckGrantOk(db: Db, t: nat, client: nat, hash: Hash, wanted: Option<Scope>, now: nat)
    requires t in db.tokens
    ensures RequestOk(db, CheckGrant(t, db.tokens[t], client, hash, wanted, now))
  {}

  lemma {:induction false} AdvanceOk(db: Db, q: Request, i: Input)
    requires DbInv(db) && RequestOk(db, q) && Possible(db, q, i)
    requires !q.ExchangeInsert? && !q.ExchangeSelect? && !q.RefreshSelect?
    ensures var (st, next) := Emit(db, q, i); RequestOk(Perform(db, st), next)
  {
    EmitSound(db, q, i);
    PerformExtends(db, Emit(db, q, i).0);
    MintedGrows(db, Emit(db, q, i).0);
  }

  lemma {:induction false} InsertOk(db: Db, q: Request, i: Input)
    requires q.ExchangeInsert? && Possible(db, q, i)
    ensures var (st, next) := Emit(db, q, i); RequestOk(Perform(db, st), next)
  {
    var db' := Perform(db, Emit(db, q, i).0);
    assert db'.grants[|db.grants|] == Grant(q.code, i.token, q.p);
  }

  /** A request comes to hold a code only by claiming it, and mints only from the code it holds. */
  lemma {:induction false} HoldsByClaiming(db: Db, q: Request, i: Input)
    requires CodesOk(db) && Possible(db, q, i)
    ensures var next := Emit(db, q, i).1;
            Holding(next) ==> if Holding(q) then next.code == q.code else next.code !in db.claimed
    ensures var st := Emit(db, q, i).0; st.InsertGrant? ==> Holding(q) && st.code == q.code
  {}

  lemma {:induction false} StaysUngranted(db: Db, st: Statement, code: nat)
    requires Ungranted(db.grants, code) && !(st.InsertGrant? && st.code == code)
    ensures Ungranted(Perform(db, st).grants, code)
  {}

  lemma {:induction false} BystanderOk(db: Db, db': Db, q: Request)
    requires Extends(db, db') && RequestOk(db, q)
    requires Holding(q) ==> Ungranted(db'.grants, q.code)
    requires forall c, t :: Minted(db.grants, c, t) ==> Minted(db'.grants, c, t)
    ensures RequestOk(db', q)
  {}

  ghost function Written(s: Sys, a: Action): Statement
    requires Enabled(s, a)
  {
    match a
    case Consent(code, row) => InsertCode(code, row)
    case Prune(_, gone) => DeleteCodes(gone)
    case Start(_, _) => Nothing
    case Next(r, i) => Emit(s.db, s.requests[r], i).0
    case RevokeByClient(client, secret, now) => RevokeWhere(BySecret(client, Sha256(secret)), now)
    case RevokeByUser(user, token, now) => RevokeWhere(ByOwner(token, user), now)
  }

  lemma {:induction false} StepKeepsDb(s: Sys, a: Action)
    requires Inv(s) && Enabled(s, a)
    ensures Sound(s.db, Written(s, a)) && Apply(s, a).db == Perform(s.db, Written(s, a))
    ensures DbInv(Apply(s, a).db) && Extends(s.db, Apply(s, a).db)
  {
    if a.Next? { EmitSound(s.db, s.requests[a.r], a.i); }
    PerformKeeps(s.db, Written(s, a));
  }

  lemma {:induction false} BystanderUngranted(s: Sys, a: Action, r: nat)
    requires Inv(s) && Enabled(s, a) && r in s.requests && !(a.Next? && a.r == r)
    ensures Apply(s, a).requests[r] == s.requests[r]
    ensures Holding(s.requests[r]) ==> Ungranted(Apply(s, a).db.grants, s.requests[r].code)
  {
    if Holding(s.requests[r]) {
      assert RequestOk(s.db, s.requests[r]);
      if a.Next? {
        HoldsByClaiming(s.db, s.requests[a.r], a.i);
        assert !Rivals(s.requests[a.r], s.requests[r]);
      }
      StaysUngranted(s.db, Written(s, a), s.requests[r].code);
    }
  }

  lemma {:induction false} StepKeepsRequest(s: Sys, a: Action, r: nat)
    requires Inv(s) && Enabled(s, a) && r in Apply(s, a).requests
    ensures RequestOk(Apply(s, a).db, Apply(s, a).requests[r])
  {
    if a.Next? && a.r == r {
      EmitOk(s.db, s.requests[r], a.i);
    } else if r in s.requests {
      StepKeepsDb(s, a);
      BystanderUngranted(s, a, r);
      MintedGrows(s.db, Written(s, a));
      BystanderOk(s.db, Apply(s, a).db, s.requests[r]);
    }
  }

  lemma {:induction false} StepKeepsRivalry(s: Sys, a: Action, r: nat, q: nat)
    requires Inv(s) && Enabled(s, a) && r != q
    requires r in Apply(s, a).requests && q in Apply(s, a).requests
    ensures !Rivals(Apply(s, a).requests[r], Apply(s, a).requests[q])
  {
    if a.Next? { HoldsByClaiming(s.db, s.requests[a.r], a.i); }
    if r in s.requests && q in s.requests { assert !Rivals(s.requests[r], s.requests[q]); }
  }

  lemma {:induction false} StepKeepsInv(s: Sys, a: Action)
    requires Inv(s) && Enabled(s, a)
    ensures Inv(Apply(s, a)) && Extends(s.db, Apply(s, a).db)
  {
    var s' := Apply(s, a);
    StepKeepsDb(s, a);
    forall r | r in s'.requests ensures RequestOk(s'.db, s'.requests[r]) { StepKeepsRequest(s, a, r); }
    forall r, q | r in s'.requests && q in s'.requests && r != q
      ensures !Rivals(s'.requests[r], s'.requests[q])
    {
      StepKeepsRivalry(s, a, r, q);
    }
  }
}
