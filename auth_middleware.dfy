/**
 * The two request guards: the refresh-token check (key store, then
 * signature, then the user's session epoch) and the access-token check
 * (signature and user existence only). Both are read-only; the clock,
 * the key store and the user rows are passed in.
 */
module AuthMiddleware {
  import opened Common
  import opened Jwt
  import opened UserService
  import opened TokenService

  /**
   * The `user_id` claim as a row id; `None` when the claim is absent or
   * cannot name a row. An id that names no row is rejected by the user
   * lookup with the same error as an absent claim.
   */
  function UserIdClaim(claims: Claims): (r: Option<UserId>)
    ensures r.Some? <==> "user_id" in claims && claims["user_id"].Number? && claims["user_id"].n >= 0
    ensures r.Some? ==> claims["user_id"] == Number(r.value)
  {
    if "user_id" in claims && claims["user_id"].Number? && claims["user_id"].n >= 0
    then Some(claims["user_id"].n) else None
  }

  /**
   * `verify_refresh_token`. A missing cookie or a key that is not live
   * fails before decoding; a decode failure, a missing `user_id` and an
   * unknown user are InvalidCredentials; a `created_at` that cannot be
   * read as a time escapes as a server error; a token created strictly
   * before the user's epoch is InvalidCredentials.
   */
  function VerifyRefreshToken(entries: Entries, rows: seq<User>, cookie: Option<Token>, now: int, cfg: Settings)
    : (r: Result<User>)
    ensures r.Err? ==> r.error == InvalidCredentials || r.error == ServerError
    ensures r.Ok? ==> r.value in rows
    ensures cookie.None? || !Live(entries, cookie.value, now) ==> r == Err(InvalidCredentials)
  {
    if cookie.None? || !Live(entries, cookie.value, now) then Err(InvalidCredentials)
    else
      match Decode(cookie.value, cfg.refreshSecret, cfg.algorithm, now)
      case None => Err(InvalidCredentials)
      case Some(claims) =>
        match UserIdClaim(claims)
        case None => Err(InvalidCredentials)
        case Some(id) =>
          match FindById(rows, id)
          case None => Err(InvalidCredentials)
          case Some(user) =>
            if "created_at" !in claims || !claims["created_at"].Number? then Err(ServerError)
            else if claims["created_at"].n < user.latestTime then Err(InvalidCredentials)
            else Ok(user)
  }

  /**
   * The acceptance rule of a refresh token, stated without the order of
   * the checks: the token is a live key, it carries the refresh secret's
   * signature, it has not expired, its `user_id` names the user, and it
   * was created no earlier than the user's epoch.
   */
  ghost predicate RefreshAdmits(entries: Entries, rows: seq<User>, token: Token, now: int, cfg: Settings, user: User)
  {
    && Live(entries, token, now)
    && token.Signed? && token.alg == cfg.algorithm && token.key == cfg.refreshSecret
    && NotExpired(token.claims, now)
    && "user_id" in token.claims && token.claims["user_id"] == Number(user.id)
    && FindById(rows, user.id) == Some(user)
    && "created_at" in token.claims && token.claims["created_at"].Number?
    && token.claims["created_at"].n >= user.latestTime
  }

  /** The check accepts exactly the tokens the rule admits, and then returns the token's user. */
  lemma RefreshAcceptance(entries: Entries, rows: seq<User>, token: Token, now: int, cfg: Settings, user: User)
    ensures VerifyRefreshToken(entries, rows, Some(token), now, cfg) == Ok(user)
        <==> RefreshAdmits(entries, rows, token, now, cfg, user)
  {
  }

  /**
   * Epoch revocation: once a user's epoch has moved to `t`, every refresh
   * token of that user created before `t` is rejected.
   */
  lemma EpochRevokes(entries: Entries, rows: seq<User>, id: UserId, t: int, token: Token, now: int, cfg: Settings)
    requires Positional(rows) && id < |rows|
    requires token.Signed? && "user_id" in token.claims && token.claims["user_id"] == Number(id)
    requires "created_at" in token.claims && token.claims["created_at"].Number?
    requires token.claims["created_at"].n < t
    ensures VerifyRefreshToken(entries, WithEpoch(rows, id, t), Some(token), now, cfg).Err?
  {
    FindByIdPositional(WithEpoch(rows, id, t), id);
  }

  /**
   * `verify_access_token`: a missing cookie or a decode failure is
   * TokenExpired; a missing `user_id` or an unknown user is
   * InvalidCredentials. Neither the key store nor the epoch is consulted.
   */
  function VerifyAccessToken(rows: seq<User>, cookie: Option<Token>, now: int, cfg: Settings): (r: Result<User>)
    ensures r.Err? ==> r.error == TokenExpired || r.error == InvalidCredentials
    ensures r.Ok? <==> cookie.Some? && Decode(cookie.value, cfg.accessSecret, cfg.algorithm, now).Some?
                        && UserIdClaim(cookie.value.claims).Some?
                        && FindById(rows, UserIdClaim(cookie.value.claims).value).Some?
    ensures r.Ok? ==> r.value in rows && cookie.value.claims["user_id"] == Number(r.value.id)
    ensures r == Err(TokenExpired) <==> cookie.None? || Decode(cookie.value, cfg.accessSecret, cfg.algorithm, now).None?
  {
    if cookie.None? then Err(TokenExpired)
    else
      match Decode(cookie.value, cfg.accessSecret, cfg.algorithm, now)
      case None => Err(TokenExpired)
      case Some(claims) =>
        match UserIdClaim(claims)
        case None => Err(InvalidCredentials)
        case Some(id) =>
          match FindById(rows, id)
          case None => Err(InvalidCredentials)
          case Some(user) => Ok(user)
  }

  /**
   * Moving an epoch does not change whether an access token is accepted,
   * nor whose it is.
   */
  lemma AccessIgnoresEpoch(rows: seq<User>, id: UserId, t: int, cookie: Option<Token>, now: int, cfg: Settings)
    requires Positional(rows) && id < |rows|
    ensures var before := VerifyAccessToken(rows, cookie, now, cfg);
            var after := VerifyAccessToken(WithEpoch(rows, id, t), cookie, now, cfg);
            && (before.Ok? <==> after.Ok?)
            && (before.Err? ==> after == before)
            && (before.Ok? ==> after.value.id == before.value.id)
  {
    if cookie.Some? && Decode(cookie.value, cfg.accessSecret, cfg.algorithm, now).Some?
       && UserIdClaim(cookie.value.claims).Some? {
      var uid := UserIdClaim(cookie.value.claims).value;
      FindByIdPositional(rows, uid);
      FindByIdPositional(WithEpoch(rows, id, t), uid);
    }
  }
}
