/** Access and refresh tokens: building the access-token claims, issuing,
    revoking and redeeming stored refresh tokens, and the login and refresh
    flows that sequence them. Each state-changing operation is a method on
    the store whose new state is given by a function of the old one; the
    lemmas state what the flows promise about those functions. */
module AuthService {
  import opened Common
  import opened Crypto
  import opened Store

  const ACCESS_TOKEN_EXPIRE_MINUTES: int := 30
  const REFRESH_TOKEN_EXPIRE_DAYS: int := 30
  /** Lifetime of a refresh token, and the extension each redemption grants. */
  const REFRESH_TOKEN_TTL: int := REFRESH_TOKEN_EXPIRE_DAYS * DAY

  /** A claim value of the access token: text, or an instant (the `exp` claim). */
  datatype ClaimValue = Text(text: string) | Instant(at: int)

  type Claims = map<string, ClaimValue>

  /** A signed access token; signing with the process-wide secret is a foreign call,
      so the token is represented by the claims it carries. */
  datatype AccessToken = Signed(claims: Claims)

  /** What a successful login or refresh hands back. */
  datatype TokenResponse = TokenResponse(accessToken: AccessToken, refreshToken: string, tokenType: string, user: User)

  /** The result of a login or refresh: tokens, the service's `None`, or a store
      error raised by the unique constraint on tokens. */
  datatype AuthOutcome = Granted(response: TokenResponse) | Denied | StoreFailure(error: StoreError)

  /** The result of issuing one refresh token, with the token table afterwards. */
  datatype Creation = Creation(result: Result<string, StoreError>, tokens: seq<RefreshToken>)

  /** The result of redeeming a refresh token, with the token table afterwards. */
  datatype Redemption = Redemption(user: Option<User>, tokens: seq<RefreshToken>)

  /** The result of a login or refresh, with the token table afterwards. */
  datatype Exchange = Exchange(outcome: AuthOutcome, tokens: seq<RefreshToken>)

  // ---------------------------------------------------------------- access tokens

  /** `str(n)`: the decimal text of an integer. */
  function Decimal(n: int): string
    decreases if n < 0 then 1 - n else n
  {
    if n < 0 then "-" + Decimal(-n)
    else if n < 10 then ["0123456789"[n]]
    else Decimal(n / 10) + ["0123456789"[n % 10]]
  }

  /** `create_access_token`: a copy of the caller's claims with `exp` set to the
      access-token lifetime after `now` and `type` set to "access". */
  function CreateAccessToken(data: Claims, now: int): (t: AccessToken)
    ensures t.claims.Keys == data.Keys + {"exp", "type"}
    ensures t.claims["exp"] == Instant(now + ACCESS_TOKEN_EXPIRE_MINUTES * MINUTE)
    ensures t.claims["type"] == Text("access")
    ensures forall k :: k in data && k != "exp" && k != "type" ==> t.claims[k] == data[k]
  {
    Signed(data["exp" := Instant(now + ACCESS_TOKEN_EXPIRE_MINUTES * MINUTE)]["type" := Text("access")])
  }

  /** The claims `generate_tokens_for_user` signs for a user. */
  function UserClaims(user: User): Claims
  {
    map["sub" := Text(Decimal(user.id)), "login" := Text(user.login), "tag" := Text(user.tag)]
  }

  // ---------------------------------------------------------------- refresh tokens, as functions

  /** A freshly issued record: valid for the refresh lifetime, not revoked, never used. */
  function NewRefreshToken(userId: int, token: string, now: int, ipAddress: Option<string>, userAgent: Option<string>): RefreshToken
  {
    RefreshToken(userId, token, now + REFRESH_TOKEN_TTL, false, now, None, ipAddress, userAgent)
  }

  /** Issuing `candidate` (the random string drawn for the new token): refused by the
      store when a record already carries it, appended otherwise. */
  function Issue(ts: seq<RefreshToken>, userId: int, candidate: string, now: int,
                 ipAddress: Option<string>, userAgent: Option<string>): Creation
  {
    if HasToken(ts, candidate) then Creation(Failure(DuplicateToken), ts)
    else Creation(Success(candidate), ts + [NewRefreshToken(userId, candidate, now, ipAddress, userAgent)])
  }

  /** The token to spare: an absent or empty `except_token` spares nothing, since the
      source tests it for truthiness. */
  function SparedToken(exceptToken: Option<string>): (r: Option<string>)
    ensures r.Some? <==> exceptToken.Some? && exceptToken.value != ""
    ensures r.Some? ==> r == exceptToken
  {
    if exceptToken.Some? && exceptToken.value != "" then exceptToken else None
  }

  /** The records the bulk update of `revoke_user_tokens` selects. */
  predicate RevocationTarget(t: RefreshToken, userId: int, spared: Option<string>)
  {
    t.userId == userId && !t.isRevoked && (spared.None? || t.token != spared.value)
  }

  /** Marking revoked every active record of `userId` except the spared token. */
  function RevokeAll(ts: seq<RefreshToken>, userId: int, spared: Option<string>): (r: seq<RefreshToken>)
    ensures |r| == |ts|
    ensures forall i :: 0 <= i < |ts| ==> r[i] == ts[i].(isRevoked := r[i].isRevoked)
    ensures forall i :: 0 <= i < |ts| ==>
      r[i].isRevoked == (ts[i].isRevoked || (ts[i].userId == userId && (spared.None? || ts[i].token != spared.value)))
  {
    seq(|ts|, i requires 0 <= i < |ts| =>
      if RevocationTarget(ts[i], userId, spared) then ts[i].(isRevoked := true) else ts[i])
  }

  /** The first record that carries `token` and is not revoked. */
  function ActiveIndex(ts: seq<RefreshToken>, token: string): Option<nat>
  {
    IndexOfFirst(ts, (t: RefreshToken) => t.token == token && !t.isRevoked)
  }

  /** `validate_refresh_token`: an unknown or revoked token yields nothing; an expired
      one is revoked and yields nothing; a valid one is marked used at `now`, has its
      expiry moved to the full lifetime after `now`, and yields its owner. */
  function Redeem(users: seq<User>, ts: seq<RefreshToken>, token: string, now: int): Redemption
  {
    match ActiveIndex(ts, token)
    case None => Redemption(None, ts)
    case Some(i) =>
      if ts[i].expiresAt < now then
        Redemption(None, ts[i := ts[i].(isRevoked := true)])
      else
        Redemption(UserById(users, ts[i].userId),
                   ts[i := ts[i].(lastUsedAt := Some(now), expiresAt := now + REFRESH_TOKEN_TTL)])
  }

  /** `authenticate_user`: the first account with this login, provided the password verifies. */
  function Authenticate(users: seq<User>, login: string, password: string): (r: Option<User>)
    ensures r.Some? ==> r.value in users && r.value.login == login && Verifies(password, r.value.password)
    ensures (forall j :: 0 <= j < |users| ==> users[j].login != login) ==> r.None?
    ensures r.None? && UserByLogin(users, login).Some? ==>
      !Verifies(password, users[UserByLogin(users, login).value].password)
  {
    match UserByLogin(users, login)
    case None => None
    case Some(i) => if Verifies(password, users[i].password) then Some(users[i]) else None
  }

  /** `generate_tokens_for_user`: an access token for the user's claims and a newly issued refresh token. */
  function GenerateTokens(ts: seq<RefreshToken>, user: User, candidate: string, now: int,
                          ipAddress: Option<string>, userAgent: Option<string>): Exchange
  {
    var access := CreateAccessToken(UserClaims(user), now);
    var c := Issue(ts, user.id, candidate, now, ipAddress, userAgent);
    match c.result
    case Success(token) => Exchange(Granted(TokenResponse(access, token, "bearer", user)), c.tokens)
    case Failure(e) => Exchange(StoreFailure(e), c.tokens)
  }

  /** `login_service`: authenticate, revoke every active token of the user, then issue tokens. */
  function Login(users: seq<User>, ts: seq<RefreshToken>, login: string, password: string, candidate: string,
                 now: int, ipAddress: Option<string>, userAgent: Option<string>): Exchange
  {
    match Authenticate(users, login, password)
    case None => Exchange(Denied, ts)
    case Some(user) => GenerateTokens(RevokeAll(ts, user.id, None), user, candidate, now, ipAddress, userAgent)
  }

  /** `refresh_access_token_service`: redeem the presented token, then issue tokens to its owner. */
  function Refresh(users: seq<User>, ts: seq<RefreshToken>, token: string, candidate: string,
                   now: int, ipAddress: Option<string>, userAgent: Option<string>): Exchange
  {
    var r := Redeem(users, ts, token, now);
    match r.user
    case None => Exchange(Denied, r.tokens)
    case Some(user) => GenerateTokens(r.tokens, user, candidate, now, ipAddress, userAgent)
  }

  // ---------------------------------------------------------------- properties

  /** Issuing adds exactly one record, with the given owner, a token no record carried,
      the full lifetime and no revocation, and keeps the tokens unique; a clash changes nothing. */
  lemma IssueAddsOneFreshRecord(ts: seq<RefreshToken>, userId: int, candidate: string, now: int,
                                ipAddress: Option<string>, userAgent: Option<string>)
    requires UniqueTokens(ts)
    ensures var c := Issue(ts, userId, candidate, now, ipAddress, userAgent);
      && UniqueTokens(c.tokens)
      && (c.result.Failure? <==> exists i :: 0 <= i < |ts| && ts[i].token == candidate)
      && (c.result.Failure? ==> c.tokens == ts)
      && (c.result.Success? ==>
            && c.result.value == candidate
            && |c.tokens| == |ts| + 1 && c.tokens[..|ts|] == ts
            && c.tokens[|ts|] == RefreshToken(userId, candidate, now + 30 * 24 * 3600, false, now, None, ipAddress, userAgent))
  {
    var c := Issue(ts, userId, candidate, now, ipAddress, userAgent);
    if c.result.Success? {
      assert c.tokens[..|ts|] == ts;
    }
  }

  /** Revocation leaves no active record of the user other than the spared token, touches
      no other user's record and no field but the revoked flag, and a second run changes nothing. */
  lemma RevokeAllEffect(ts: seq<RefreshToken>, userId: int, spared: Option<string>)
    ensures var r := RevokeAll(ts, userId, spared);
      && (forall i :: 0 <= i < |r| && r[i].userId == userId && !r[i].isRevoked ==>
            spared.Some? && r[i].token == spared.value)
      && (forall i :: 0 <= i < |r| && (ts[i].userId != userId || (spared.Some? && ts[i].token == spared.value)) ==>
            r[i] == ts[i])
      && (forall i :: 0 <= i < |r| ==> r[i].expiresAt == ts[i].expiresAt && r[i].token == ts[i].token)
      && RevokeAll(r, userId, spared) == r
  {
    var r := RevokeAll(ts, userId, spared);
    var rr := RevokeAll(r, userId, spared);
    assert forall i :: 0 <= i < |r| ==> rr[i] == r[i];
  }

  /** Revocation keeps the tokens unique. */
  lemma RevokeAllKeepsUnique(ts: seq<RefreshToken>, userId: int, spared: Option<string>)
    requires UniqueTokens(ts)
    ensures UniqueTokens(RevokeAll(ts, userId, spared))
  {
    var r := RevokeAll(ts, userId, spared);
    assert forall i :: 0 <= i < |ts| ==> r[i].token == ts[i].token;
  }

  /** A token that no active record carries yields nothing and changes nothing. */
  lemma RedeemInactive(users: seq<User>, ts: seq<RefreshToken>, token: string, now: int)
    requires forall i :: 0 <= i < |ts| && ts[i].token == token ==> ts[i].isRevoked
    ensures Redeem(users, ts, token, now) == Redemption(None, ts)
  {
  }

  /** An active record that expired strictly before `now` is revoked and yields nothing;
      no other record and no other field changes. */
  lemma RedeemExpired(users: seq<User>, ts: seq<RefreshToken>, token: string, now: int, i: nat)
    requires UniqueTokens(ts)
    requires i < |ts| && ts[i].token == token && !ts[i].isRevoked && ts[i].expiresAt < now
    ensures Redeem(users, ts, token, now) == Redemption(None, ts[i := ts[i].(isRevoked := true)])
  {
    assert ActiveIndex(ts, token) == Some(i);
  }

  /** An active record that has not expired (expiry at `now` included) yields its owner,
      stays active, is marked used at `now` and is valid for the full lifetime after `now`. */
  lemma RedeemRenews(users: seq<User>, ts: seq<RefreshToken>, token: string, now: int, i: nat)
    requires UniqueTokens(ts)
    requires i < |ts| && ts[i].token == token && !ts[i].isRevoked && ts[i].expiresAt >= now
    ensures var r := Redeem(users, ts, token, now);
      && r.user == UserById(users, ts[i].userId)
      && |r.tokens| == |ts|
      && r.tokens[i] == ts[i].(lastUsedAt := Some(now), expiresAt := now + REFRESH_TOKEN_TTL)
      && !r.tokens[i].isRevoked
      && (forall j :: 0 <= j < |ts| && j != i ==> r.tokens[j] == ts[j])
  {
    assert ActiveIndex(ts, token) == Some(i);
  }

  /** Every record was issued or renewed no later than `clock`. */
  ghost predicate RenewedBy(ts: seq<RefreshToken>, clock: int)
  {
    forall i :: 0 <= i < |ts| ==> ts[i].expiresAt <= clock + REFRESH_TOKEN_TTL
  }

  /** Redemption never shortens a token's validity when the clock has not gone back,
      and lengthens it strictly when `now` is later than the last issue or renewal. */
  lemma RedeemExtendsExpiry(users: seq<User>, ts: seq<RefreshToken>, token: string, clock: int, now: int, i: nat)
    requires UniqueTokens(ts) && RenewedBy(ts, clock) && clock <= now
    requires i < |ts| && ts[i].token == token && !ts[i].isRevoked && ts[i].expiresAt >= now
    ensures var r := Redeem(users, ts, token, now);
      && r.tokens[i].expiresAt >= ts[i].expiresAt
      && (clock < now ==> r.tokens[i].expiresAt > ts[i].expiresAt)
      && RenewedBy(r.tokens, now)
  {
    RedeemRenews(users, ts, token, now, i);
  }

  /** Redemption keeps the tokens unique and never adds or removes a record. */
  lemma RedeemKeepsUnique(users: seq<User>, ts: seq<RefreshToken>, token: string, now: int)
    requires UniqueTokens(ts)
    ensures var r := Redeem(users, ts, token, now);
      |r.tokens| == |ts| && UniqueTokens(r.tokens)
  {
    var r := Redeem(users, ts, token, now);
    assert forall j :: 0 <= j < |ts| ==> r.tokens[j].token == ts[j].token;
  }

  /** Issuing tokens keeps the tokens unique. */
  lemma GenerateTokensKeepsUnique(ts: seq<RefreshToken>, user: User, candidate: string, now: int,
                                  ipAddress: Option<string>, userAgent: Option<string>)
    requires UniqueTokens(ts)
    ensures UniqueTokens(GenerateTokens(ts, user, candidate, now, ipAddress, userAgent).tokens)
  {
    IssueAddsOneFreshRecord(ts, user.id, candidate, now, ipAddress, userAgent);
  }

  /** A login with an unknown login or a wrong password is denied and revokes and issues nothing. */
  lemma LoginDeniedChangesNothing(users: seq<User>, ts: seq<RefreshToken>, login: string, password: string,
                                  candidate: string, now: int, ipAddress: Option<string>, userAgent: Option<string>)
    requires Authenticate(users, login, password).None?
    ensures Login(users, ts, login, password, candidate, now, ipAddress, userAgent) == Exchange(Denied, ts)
  {
  }

  /** After a successful login the refresh token handed back is the user's only active
      record, and it carries the full lifetime; the access token carries the user's id,
      login and tag, expires thirty minutes after `now` and is typed "access". */
  lemma LoginLeavesOneActiveToken(users: seq<User>, ts: seq<RefreshToken>, login: string, password: string,
                                  candidate: string, now: int, ipAddress: Option<string>, userAgent: Option<string>)
    ensures var e := Login(users, ts, login, password, candidate, now, ipAddress, userAgent);
      e.outcome.Granted? ==>
        var resp := e.outcome.response;
        && resp.user == Authenticate(users, login, password).value
        && resp.tokenType == "bearer"
        && resp.accessToken.claims.Keys == {"sub", "login", "tag", "exp", "type"}
        && resp.accessToken.claims["sub"] == Text(Decimal(resp.user.id))
        && resp.accessToken.claims["login"] == Text(login)
        && resp.accessToken.claims["tag"] == Text(resp.user.tag)
        && resp.accessToken.claims["exp"] == Instant(now + 30 * 60)
        && resp.accessToken.claims["type"] == Text("access")
        && |e.tokens| == |ts| + 1
        && e.tokens[|ts|] == NewRefreshToken(resp.user.id, resp.refreshToken, now, ipAddress, userAgent)
        && (forall j :: 0 <= j < |e.tokens| && e.tokens[j].userId == resp.user.id && !e.tokens[j].isRevoked ==>
              j == |ts|)
  {
    var e := Login(users, ts, login, password, candidate, now, ipAddress, userAgent);
    if e.outcome.Granted? {
      var user := Authenticate(users, login, password).value;
      var rs := RevokeAll(ts, user.id, None);
      RevokeAllEffect(ts, user.id, None);
      assert forall j :: 0 <= j < |ts| ==> e.tokens[j] == rs[j];
    }
  }

  /** Logging in again revokes the token of the earlier login: redeeming it afterwards
      fails, although it has not expired. */
  lemma ReloginRevokesEarlierToken(users: seq<User>, ts: seq<RefreshToken>, login: string, password: string,
                                   c1: string, t1: int, c2: string, t2: int, now: int,
                                   ipAddress: Option<string>, userAgent: Option<string>)
    ensures var e1 := Login(users, ts, login, password, c1, t1, ipAddress, userAgent);
      var e2 := Login(users, e1.tokens, login, password, c2, t2, ipAddress, userAgent);
      e1.outcome.Granted? && e2.outcome.Granted? ==>
        Redeem(users, e2.tokens, e1.outcome.response.refreshToken, now).user.None?
  {
    var e1 := Login(users, ts, login, password, c1, t1, ipAddress, userAgent);
    var e2 := Login(users, e1.tokens, login, password, c2, t2, ipAddress, userAgent);
    if e1.outcome.Granted? && e2.outcome.Granted? {
      var user := Authenticate(users, login, password).value;
      var first := e1.outcome.response.refreshToken;
      assert first == c1;
      LoginLeavesOneActiveToken(users, ts, login, password, c1, t1, ipAddress, userAgent);
      LoginLeavesOneActiveToken(users, e1.tokens, login, password, c2, t2, ipAddress, userAgent);
      var rs := RevokeAll(e1.tokens, user.id, None);
      RevokeAllEffect(e1.tokens, user.id, None);
      assert e1.tokens[|ts|].token == c1;
      assert rs[|ts|].token == c1;
      assert HasToken(rs, c1);
      assert c2 != c1;
      forall j | 0 <= j < |e2.tokens| && e2.tokens[j].token == first
        ensures e2.tokens[j].isRevoked
      {
        assert j < |e1.tokens|;
        assert e2.tokens[j] == rs[j];
      }
      RedeemInactive(users, e2.tokens, first, now);
    }
  }

  /** A refresh with a token that does not redeem is denied and issues no token. The tokens
      afterwards are the old ones, or the old ones with the presented record revoked because it
      had expired, or with it renewed because its owner could not be found. */
  lemma RefreshDeniedIssuesNothing(users: seq<User>, ts: seq<RefreshToken>, token: string, candidate: string,
                                   now: int, ipAddress: Option<string>, userAgent: Option<string>)
    requires Redeem(users, ts, token, now).user.None?
    ensures Refresh(users, ts, token, candidate, now, ipAddress, userAgent)
         == Exchange(Denied, Redeem(users, ts, token, now).tokens)
    ensures var r := Redeem(users, ts, token, now).tokens;
      || r == ts
      || exists i :: 0 <= i < |ts| && ts[i].token == token && !ts[i].isRevoked &&
           ((ts[i].expiresAt < now && r == ts[i := ts[i].(isRevoked := true)])
            || (ts[i].expiresAt >= now && UserById(users, ts[i].userId).None? &&
                r == ts[i := ts[i].(lastUsedAt := Some(now), expiresAt := now + REFRESH_TOKEN_TTL)]))
  {
    match ActiveIndex(ts, token)
    case None =>
    case Some(i) =>
      assert ts[i].token == token && !ts[i].isRevoked;
  }

  /** When every record's owner exists, as the foreign key on the owner column guarantees, a
      denied refresh changes nothing but the revocation of the presented token if it had expired. */
  lemma RefreshDeniedOnlyRevokes(users: seq<User>, ts: seq<RefreshToken>, token: string, candidate: string,
                                 now: int, ipAddress: Option<string>, userAgent: Option<string>)
    requires OwnersExist(users, ts)
    requires Redeem(users, ts, token, now).user.None?
    ensures var r := Refresh(users, ts, token, candidate, now, ipAddress, userAgent).tokens;
      || r == ts
      || exists i :: 0 <= i < |ts| && ts[i].token == token && !ts[i].isRevoked && ts[i].expiresAt < now &&
           r == ts[i := ts[i].(isRevoked := true)]
  {
    RefreshDeniedIssuesNothing(users, ts, token, candidate, now, ipAddress, userAgent);
  }

  /** A successful refresh keeps the presented token active with its expiry renewed, leaves
      every other record as it was, and adds one more active token for the same user: the
      user's active tokens grow by one. The access token carries the owner's claims. */
  lemma RefreshAddsActiveToken(users: seq<User>, ts: seq<RefreshToken>, token: string, candidate: string,
                               now: int, ipAddress: Option<string>, userAgent: Option<string>, i: nat)
    requires UniqueTokens(ts)
    requires i < |ts| && ts[i].token == token && !ts[i].isRevoked && ts[i].expiresAt >= now
    ensures var e := Refresh(users, ts, token, candidate, now, ipAddress, userAgent);
      e.outcome.Granted? ==>
        && e.outcome.response.user.id == ts[i].userId
        && e.outcome.response.accessToken.claims.Keys == {"sub", "login", "tag", "exp", "type"}
        && e.outcome.response.accessToken.claims["sub"] == Text(Decimal(ts[i].userId))
        && e.outcome.response.accessToken.claims["login"] == Text(e.outcome.response.user.login)
        && e.outcome.response.accessToken.claims["tag"] == Text(e.outcome.response.user.tag)
        && e.outcome.response.accessToken.claims["exp"] == Instant(now + 30 * 60)
        && e.outcome.response.accessToken.claims["type"] == Text("access")
        && e.outcome.response.tokenType == "bearer"
        && |e.tokens| == |ts| + 1
        && (forall j :: 0 <= j < |ts| && j != i ==> e.tokens[j] == ts[j])
        && e.tokens[i].token == token && !e.tokens[i].isRevoked
        && e.tokens[i].expiresAt == now + REFRESH_TOKEN_TTL && e.tokens[i].lastUsedAt == Some(now)
        && e.tokens[|ts|] == NewRefreshToken(ts[i].userId, candidate, now, ipAddress, userAgent)
        && e.tokens[|ts|].token != token
        && e.outcome.response.refreshToken == candidate
  {
    var e := Refresh(users, ts, token, candidate, now, ipAddress, userAgent);
    RedeemRenews(users, ts, token, now, i);
    if e.outcome.Granted? {
      var r := Redeem(users, ts, token, now);
      assert r.tokens[i].token == token;
      assert !HasToken(r.tokens, candidate);
    }
  }

  // ---------------------------------------------------------------- the services, on the store

  /** `create_refresh_token`. */
  method CreateRefreshToken(db: Database, userId: int, candidate: string, now: int,
                            ipAddress: Option<string>, userAgent: Option<string>)
    returns (r: Result<string, StoreError>)
    requires db.Valid()
    modifies db
    ensures db.Valid() && db.users == old(db.users)
    ensures Creation(r, db.refreshTokens) == Issue(old(db.refreshTokens), userId, candidate, now, ipAddress, userAgent)
  {
    if exists i :: 0 <= i < |db.refreshTokens| && db.refreshTokens[i].token == candidate {
      return Failure(DuplicateToken);
    }
    IssueAddsOneFreshRecord(db.refreshTokens, userId, candidate, now, ipAddress, userAgent);
    var record := RefreshToken(userId, candidate, now + REFRESH_TOKEN_TTL, false, now, None, ipAddress, userAgent);
    db.refreshTokens := db.refreshTokens + [record];
    return Success(candidate);
  }

  /** `revoke_user_tokens`. */
  method RevokeUserTokens(db: Database, userId: int, exceptToken: Option<string>)
    requires db.Valid()
    modifies db
    ensures db.Valid() && db.users == old(db.users)
    ensures db.refreshTokens == RevokeAll(old(db.refreshTokens), userId, SparedToken(exceptToken))
  {
    var spared := SparedToken(exceptToken);
    RevokeAllKeepsUnique(db.refreshTokens, userId, spared);
    db.refreshTokens := seq(|db.refreshTokens|, i requires 0 <= i < |db.refreshTokens| reads db =>
      if RevocationTarget(db.refreshTokens[i], userId, spared)
      then db.refreshTokens[i].(isRevoked := true) else db.refreshTokens[i]);
  }

  /** `validate_refresh_token`. */
  method ValidateRefreshToken(db: Database, token: string, now: int) returns (user: Option<User>)
    requires db.Valid()
    modifies db
    ensures db.Valid() && db.users == old(db.users)
    ensures Redemption(user, db.refreshTokens) == Redeem(old(db.users), old(db.refreshTokens), token, now)
  {
    RedeemKeepsUnique(db.users, db.refreshTokens, token, now);
    var found := ActiveIndex(db.refreshTokens, token);
    if found.None? {
      return None;
    }
    var i := found.value;
    var record := db.refreshTokens[i];
    if record.expiresAt < now {
      db.refreshTokens := db.refreshTokens[i := record.(isRevoked := true)];
      return None;
    }
    db.refreshTokens := db.refreshTokens[i := record.(lastUsedAt := Some(now), expiresAt := now + REFRESH_TOKEN_TTL)];
    user := UserById(db.users, record.userId);
  }

  /** `generate_tokens_for_user`. */
  method GenerateTokensForUser(db: Database, user: User, candidate: string, now: int,
                               ipAddress: Option<string>, userAgent: Option<string>)
    returns (outcome: AuthOutcome)
    requires db.Valid()
    modifies db
    ensures db.Valid() && db.users == old(db.users)
    ensures Exchange(outcome, db.refreshTokens)
         == GenerateTokens(old(db.refreshTokens), user, candidate, now, ipAddress, userAgent)
  {
    var access := CreateAccessToken(UserClaims(user), now);
    var created := CreateRefreshToken(db, user.id, candidate, now, ipAddress, userAgent);
    match created
    case Success(token) =>
      outcome := Granted(TokenResponse(access, token, "bearer", user));
    case Failure(e) =>
      outcome := StoreFailure(e);
  }

  /** `login_service`. */
  method LoginService(db: Database, login: string, password: string, candidate: string, now: int,
                      ipAddress: Option<string>, userAgent: Option<string>)
    returns (outcome: AuthOutcome)
    requires db.Valid()
    modifies db
    ensures db.Valid() && db.users == old(db.users)
    ensures Exchange(outcome, db.refreshTokens)
         == Login(old(db.users), old(db.refreshTokens), login, password, candidate, now, ipAddress, userAgent)
  {
    var user := Authenticate(db.users, login, password);
    if user.None? {
      return Denied;
    }
    RevokeUserTokens(db, user.value.id, None);
    outcome := GenerateTokensForUser(db, user.value, candidate, now, ipAddress, userAgent);
  }

  /** `refresh_access_token_service`. */
  method RefreshAccessTokenService(db: Database, token: string, candidate: string, now: int,
                                   ipAddress: Option<string>, userAgent: Option<string>)
    returns (outcome: AuthOutcome)
    requires db.Valid()
    modifies db
    ensures db.Valid() && db.users == old(db.users)
    ensures Exchange(outcome, db.refreshTokens)
         == Refresh(old(db.users), old(db.refreshTokens), token, candidate, now, ipAddress, userAgent)
  {
    var user := ValidateRefreshToken(db, token, now);
    if user.None? {
      return Denied;
    }
    outcome := GenerateTokensForUser(db, user.value, candidate, now, ipAddress, userAgent);
  }
}
