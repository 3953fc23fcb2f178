/**
  The OAuth grant protocol as an interleaving of SQL statements.

  Every request is a little program whose position and local variables live in
  `requests`; one `Next` action runs exactly one statement of one request.  Hashes
  are an injective constructor, generated secrets are fresh, row ids are never
  reused.  The fields of `Db` after `tokens` are history: the tables do not store
  them, no statement reads them, and the theorems are stated with them.
*/
module OauthProtocol {
  import opened Options

  datatype Scope = Read | Write
  datatype Secret = Access(n: nat) | Refresh(n: nat) | Code(n: nat)
  datatype Hash = Sha256(secret: Secret)
  datatype Challenge = S256(verifier: string) | Unmatchable
  datatype Kind = Personal | Oauth

  const MAX_ACTIVE_TOKENS_PER_USER: nat := 20
  const ACCESS_TOKEN_TTL: nat := 60 * 60
  const REFRESH_TOKEN_TTL: nat := 90 * 24 * 60 * 60
  const AUTH_CODE_TTL: nat := 10 * 60

  datatype CodeRow = CodeRow(
    codeHash: Hash, client: nat, user: nat, scope: Scope, redirect: string,
    challenge: Challenge, expiresAt: nat, usedAt: Option<nat>, issuedToken: Option<nat>)

  datatype TokenRow = TokenRow(
    user: nat, tokenHash: Hash, scope: Scope, expiresAt: Option<nat>, kind: Kind,
    client: Option<nat>, refreshHash: Option<Hash>, refreshExpiresAt: Option<nat>,
    previousHash: Option<Hash>, revokedAt: Option<nat>)
  {
    predicate Live() { revokedAt.None? }
  }

  type Codes = map<nat, CodeRow>
  type Tokens = map<nat, TokenRow>

  /**
    What a client sends to redeem a code; `resourceOk` is the outcome of the resource check and
    `seen` the clock when the code's row is checked.
  */
  datatype Presentation = Presentation(
    client: nat, secret: Secret, verifier: string, redirect: string, resourceOk: bool, seen: nat)

  datatype Grant = Grant(code: nat, token: nat, presented: Presentation)
  datatype Rotation = Rotation(token: nat, presented: Hash, client: nat)

  datatype Db = Db(
    codes: Codes,
    tokens: Tokens,
    consents: Codes,            // every code row ever inserted, as inserted
    claimed: set<nat>,          // codes whose claim succeeded
    issued: set<Secret>,        // every secret ever generated
    grants: seq<Grant>,         // grant rows inserted
    rotations: seq<Rotation>)   // refresh secrets redeemed, in order

  // ---------------------------------------------------------------- statements

  /** The WHERE clauses of the five `UPDATE apiTokens SET revokedAt` statements. */
  datatype Which =
    | ById(id: nat)
    | ByUserAndClient(user: nat, client: nat)
    | ByPrevious(hash: Hash)
    | BySecret(client: nat, hash: Hash)
    | ByOwner(id: nat, user: nat)

  predicate Matches(w: Which, id: nat, row: TokenRow) {
    match w
    case ById(i) => id == i
    case ByUserAndClient(u, c) => row.user == u && row.client == Some(c) && row.kind == Oauth
    case ByPrevious(h) => row.previousHash == Some(h)
    case BySecret(c, h) =>
      row.kind == Oauth && row.client == Some(c) && (row.tokenHash == h || row.refreshHash == Some(h))
    case ByOwner(i, u) => id == i && row.user == u
  }

  /** The writing statements, as data. */
  datatype Statement =
    | Nothing
    | InsertCode(code: nat, consent: CodeRow)
    | DeleteCodes(gone: set<nat>)
    | ClaimCode(code: nat, at: nat)
    | RecordIssued(code: nat, token: nat)
    | RevokeWhere(which: Which, at: nat)
    | InsertGrant(code: nat, presented: Presentation, token: nat, row: TokenRow)
    | InsertPersonal(token: nat, row: TokenRow)
    | RotateToken(token: nat, hash: Hash, client: nat, access: Secret, refresh: Secret, at: nat)

  function Revoke(tokens: Tokens, w: Which, now: nat): Tokens {
    map id | id in tokens ::
      if tokens[id].Live() && Matches(w, id, tokens[id]) then tokens[id].(revokedAt := Some(now))
      else tokens[id]
  }

  predicate Claimable(codes: Codes, code: nat) { code in codes && codes[code].usedAt.None? }

  predicate Rotatable(tokens: Tokens, id: nat, presented: Hash) {
    id in tokens && tokens[id].refreshHash == Some(presented) && tokens[id].Live()
  }

  function Rotated(row: TokenRow, presented: Hash, access: Secret, refresh: Secret, now: nat): TokenRow {
    row.(tokenHash := Sha256(access), expiresAt := Some(now + ACCESS_TOKEN_TTL),
         refreshHash := Some(Sha256(refresh)), refreshExpiresAt := Some(now + REFRESH_TOKEN_TTL),
         previousHash := Some(presented))
  }

  function Perform(db: Db, st: Statement): Db {
    match st
    case Nothing => db
    case InsertCode(code, row) =>
      db.(codes := db.codes[code := row], consents := db.consents[code := row],
          issued := db.issued + {row.codeHash.secret})
    case DeleteCodes(gone) => db.(codes := db.codes - gone)
    case ClaimCode(code, at) =>
      if Claimable(db.codes, code) then
        db.(codes := db.codes[code := db.codes[code].(usedAt := Some(at))], claimed := db.claimed + {code})
      else db
    case RecordIssued(code, token) =>
      if code in db.codes then
        db.(codes := db.codes[code := db.codes[code].(issuedToken := Some(token))])
      else db
    case RevokeWhere(which, at) => db.(tokens := Revoke(db.tokens, which, at))
    case InsertGrant(code, presented, token, row) =>
      db.(tokens := db.tokens[token := row], issued := db.issued + RowSecrets(row),
          grants := db.grants + [Grant(code, token, presented)])
    case InsertPersonal(token, row) =>
      db.(tokens := db.tokens[token := row], issued := db.issued + RowSecrets(row))
    case RotateToken(id, presented, client, access, refresh, at) =>
      if Rotatable(db.tokens, id, presented) then
        db.(tokens := db.tokens[id := Rotated(db.tokens[id], presented, access, refresh, at)],
            issued := db.issued + {access, refresh},
            rotations := db.rotations + [Rotation(id, presented, client)])
      else db
  }

  function RowSecrets(row: TokenRow): set<Secret> {
    {row.tokenHash.secret} + if row.refreshHash.Some? then {row.refreshHash.value.secret} else {}
  }

  function ActiveTokens(tokens: Tokens, user: nat): set<nat> {
    set id | id in tokens && tokens[id].user == user && tokens[id].Live()
  }

  function GrantRow(record: CodeRow, access: Secret, refresh: Secret, at: nat): TokenRow {
    TokenRow(record.user, Sha256(access), record.scope, Some(at + ACCESS_TOKEN_TTL), Oauth,
             Some(record.client), Some(Sha256(refresh)), Some(at + REFRESH_TOKEN_TTL), None, None)
  }

  function PersonalRow(user: nat, access: Secret, scope: Scope, lifetime: Option<nat>, now: nat): TokenRow {
    TokenRow(user, Sha256(access), scope, if lifetime.Some? then Some(now + lifetime.value) else None,
             Personal, None, None, None, None, None)
  }

  /** RFC 7636 section 4.6, with the verifier's shape of section 4.1. */
  predicate VerifyPkce(verifier: string, challenge: Challenge) {
    && 43 <= |verifier| <= 128
    && (forall i :: 0 <= i < |verifier| ==> Unreserved(verifier[i]))
    && challenge == S256(verifier)
  }

  predicate Unreserved(c: char) {
    'a' <= c <= 'z' || 'A' <= c <= 'Z' || '0' <= c <= '9' || c in {'-', '.', '_', '~'}
  }

  // ------------------------------------------------------------------ requests

  /** Where a request stands: the statement it runs next and what it remembers. */
  datatype Request =
    | ExchangeSelect(p: Presentation)
    | ReplayRevoke(token: nat)
    | ExchangeClaim(p: Presentation, code: nat, record: CodeRow)
    | ExchangeRevokeOld(p: Presentation, code: nat, record: CodeRow, at: nat)
    | ExchangeCount(p: Presentation, code: nat, record: CodeRow, at: nat)
    | ExchangeInsert(p: Presentation, code: nat, record: CodeRow, at: nat)
    | ExchangeRecord(code: nat, token: nat, access: Secret, scope: Scope)
    | RefreshSelect(client: nat, secret: Secret, wanted: Option<Scope>)
    | RefreshReplay(hash: Hash)
    | RefreshRotate(token: nat, hash: Hash, client: nat, scope: Scope)
    | PersonalCount(user: nat, scope: Scope, lifetime: Option<nat>)
    | PersonalInsert(user: nat, scope: Scope, lifetime: Option<nat>)
    | Issued(token: nat, access: Secret, scope: Scope)
    | Refused

  predicate Starting(q: Request) { q.ExchangeSelect? || q.RefreshSelect? || q.PersonalCount? }
  predicate Finished(q: Request) { q.Issued? || q.Refused? }

  /** Past the claim and before the insert: only such a request can mint from its code. */
  predicate Holding(q: Request) { q.ExchangeRevokeOld? || q.ExchangeCount? || q.ExchangeInsert? }

  /** What the environment supplies: a SELECT's result, a clock, a row id, two random secrets. */
  datatype Input = Input(found: Option<nat>, now: nat, token: nat, access: Secret, refresh: Secret)

  predicate CodeFound(codes: Codes, secret: Secret, id: nat) {
    id in codes && codes[id].codeHash == Sha256(secret)
  }

  predicate GrantFound(tokens: Tokens, secret: Secret, id: nat) {
    id in tokens && tokens[id].refreshHash == Some(Sha256(secret)) && tokens[id].kind == Oauth
  }

  /** The requests whose statement is preceded by drawing random secrets. */
  predicate Generates(q: Request) { q.ExchangeInsert? || q.RefreshRotate? || q.PersonalInsert? }

  /** Row ids are never reused and random secrets never repeat. */
  predicate Unused(db: Db, i: Input) {
    && i.token !in db.tokens
    && i.access.Access? && i.refresh.Refresh? && i.access !in db.issued && i.refresh !in db.issued
  }

  predicate Possible(db: Db, q: Request, i: Input) {
    && (Generates(q) ==> Unused(db, i))
    && (q.ExchangeSelect? ==>
          if i.found.Some? then CodeFound(db.codes, q.p.secret, i.found.value)
          else forall id :: id in db.codes ==> !CodeFound(db.codes, q.p.secret, id))
    && (q.RefreshSelect? ==>
          if i.found.Some? then GrantFound(db.tokens, q.secret, i.found.value)
          else forall id :: id in db.tokens ==> !GrantFound(db.tokens, q.secret, id))
  }

  /** The checks `exchange_code` makes on the row it selected, in its order. */
  function CheckCode(id: nat, row: CodeRow, p: Presentation): Request {
    if row.client != p.client then Refused
    else if row.usedAt.Some? then
      if row.issuedToken.Some? then ReplayRevoke(row.issuedToken.value) else Refused
    else if row.expiresAt <= p.seen then Refused
    else if row.redirect != p.redirect then Refused
    else if !VerifyPkce(p.verifier, row.challenge) then Refused
    else if !p.resourceOk then Refused
    else ExchangeClaim(p, id, row)
  }

  /** The checks `refresh` makes on the row it selected, in its order. */
  function CheckGrant(id: nat, row: TokenRow, client: nat, hash: Hash, wanted: Option<Scope>, now: nat): Request {
    if !row.Live() then Refused
    else if row.client != Some(client) then Refused
    else if row.refreshExpiresAt.None? || row.refreshExpiresAt.value <= now then Refused
    else if wanted == Some(Write) && row.scope != Write then Refused
    else RefreshRotate(id, hash, client, row.scope)
  }

  /** The statement a request runs, and where it stands afterwards. */
  function Emit(db: Db, q: Request, i: Input): (step: (Statement, Request))
    requires Possible(db, q, i)
  {
    match q
    case ExchangeSelect(p) =>
      (Nothing, if i.found.None? then Refused else CheckCode(i.found.value, db.codes[i.found.value], p))
    case ReplayRevoke(token) => (RevokeWhere(ById(token), i.now), Refused)
    case ExchangeClaim(p, code, record) =>
      (ClaimCode(code, i.now),
       if Claimable(db.codes, code) then ExchangeRevokeOld(p, code, record, i.now) else Refused)
    case ExchangeRevokeOld(p, code, record, at) =>
      (RevokeWhere(ByUserAndClient(record.user, record.client), at), ExchangeCount(p, code, record, at))
    case ExchangeCount(p, code, record, at) =>
      (Nothing, if |ActiveTokens(db.tokens, record.user)| >= MAX_ACTIVE_TOKENS_PER_USER then Refused
                else ExchangeInsert(p, code, record, at))
    case ExchangeInsert(p, code, record, at) =>
      (InsertGrant(code, p, i.token, GrantRow(record, i.access, i.refresh, at)),
       ExchangeRecord(code, i.token, i.access, record.scope))
    case ExchangeRecord(code, token, access, scope) =>
      (RecordIssued(code, token), Issued(token, access, scope))
    case RefreshSelect(client, secret, wanted) =>
      (Nothing, if i.found.None? then RefreshReplay(Sha256(secret))
                else CheckGrant(i.found.value, db.tokens[i.found.value], client, Sha256(secret), wanted, i.now))
    case RefreshReplay(hash) => (RevokeWhere(ByPrevious(hash), i.now), Refused)
    case RefreshRotate(token, hash, client, scope) =>
      (RotateToken(token, hash, client, i.access, i.refresh, i.now),
       if Rotatable(db.tokens, token, hash) then Issued(token, i.access, scope) else Refused)
    case PersonalCount(user, scope, lifetime) =>
      (Nothing, if |ActiveTokens(db.tokens, user)| >= MAX_ACTIVE_TOKENS_PER_USER then Refused
                else PersonalInsert(user, scope, lifetime))
    case PersonalInsert(user, scope, lifetime) =>
      (InsertPersonal(i.token, PersonalRow(user, i.access, scope, lifetime, i.now)), Issued(i.token, i.access, scope))
    case _ => (Nothing, q)
  }

  // ---------------------------------------------------------------------- runs

  datatype Sys = Sys(db: Db, requests: map<nat, Request>)

  const Empty: Sys := Sys(Db(map[], map[], map[], {}, {}, [], []), map[])

  datatype Action =
    | Consent(code: nat, row: CodeRow)
    | Prune(now: nat, gone: set<nat>)
    | Start(r: nat, request: Request)
    | Next(r: nat, i: Input)
    | RevokeByClient(client: nat, secret: Secret, now: nat)
    | RevokeByUser(user: nat, token: nat, now: nat)

  predicate Enabled(s: Sys, a: Action) {
    match a
    case Consent(code, row) =>
      && code !in s.db.consents && row.codeHash.secret.Code? && row.codeHash.secret !in s.db.issued
      && row.usedAt.None? && row.issuedToken.None?
    case Prune(now, gone) => forall id :: id in gone && id in s.db.codes ==> s.db.codes[id].expiresAt <= now
    case Start(r, request) => r !in s.requests && Starting(request)
    case Next(r, i) => r in s.requests && !Finished(s.requests[r]) && Possible(s.db, s.requests[r], i)
    case _ => true
  }

  function Apply(s: Sys, a: Action): Sys
    requires Enabled(s, a)
  {
    match a
    case Consent(code, row) => s.(db := Perform(s.db, InsertCode(code, row)))
    case Prune(_, gone) => s.(db := Perform(s.db, DeleteCodes(gone)))
    case Start(r, request) => s.(requests := s.requests[r := request])
    case Next(r, i) =>
      var (st, q) := Emit(s.db, s.requests[r], i);
      Sys(Perform(s.db, st), s.requests[r := q])
    case RevokeByClient(client, secret, now) =>
      s.(db := Perform(s.db, RevokeWhere(BySecret(client, Sha256(secret)), now)))
    case RevokeByUser(user, token, now) =>
      s.(db := Perform(s.db, RevokeWhere(ByOwner(token, user), now)))
  }

  predicate Legal(s: Sys, run: seq<Action>)
    decreases |run|
  {
    run == [] || (Enabled(s, run[0]) && Legal(Apply(s, run[0]), run[1..]))
  }

  function Exec(s: Sys, run: seq<Action>): Sys
    requires Legal(s, run)
    decreases |run|
  {
    if run == [] then s else Exec(Apply(s, run[0]), run[1..])
  }
}
