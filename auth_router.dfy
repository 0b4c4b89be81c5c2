/**
 * The authentication endpoints: login, register, refresh, logout and
 * logout-all. Each is a short sequence over the user rows and the key
 * store; the cookies it sets are returned as a `Session`.
 */
module AuthRouter {
  import opened Common
  import opened Jwt
  import opened UserService
  import opened TokenService
  import opened AuthMiddleware

  /** The cookies a successful login or registration sets. */
  datatype Session = Session(userId: UserId, access: Token, refresh: Token)

  /** The claims both tokens are built from: `{"username": ..., "user_id": ...}`. */
  function IdentityClaims(u: User): (c: Claims)
    ensures c.Keys == {"username", "user_id"}
    ensures UserIdClaim(c) == Some(u.id)
  {
    map["username" := Text(u.username), "user_id" := Number(u.id)]
  }

  /** The two tokens issued to `u` at time `now` (no explicit lifetime, so the configured ones). */
  function SessionFor(u: User, now: int, cfg: Settings): (s: Session)
    ensures s.userId == u.id
    ensures s.access.Signed? && s.access.key == cfg.accessSecret
    ensures s.refresh.Signed? && s.refresh.key == cfg.refreshSecret
    ensures "created_at" in s.refresh.claims && s.refresh.claims["created_at"] == Number(now)
    ensures "created_at" !in s.access.claims
  {
    Session(u.id, CreateAccessToken(IdentityClaims(u), None, now, cfg),
            CreateRefreshToken(IdentityClaims(u), None, now, cfg))
  }

  /**
   * A session issued to a stored user is accepted at once: the refresh
   * token passes the refresh check and the access token the access check,
   * as long as the tokens are still within their lifetimes, the refresh
   * key has a positive TTL, the configured algorithm is the signing one,
   * and the user's epoch is not later than the issue time.
   */
  lemma IssuedSessionAccepted(entries: Entries, rows: seq<User>, u: User, now: int, t: int, cfg: Settings)
    requires Positional(rows) && u.id < |rows| && rows[u.id] == u
    requires cfg.algorithm == SIGNING_ALGORITHM
    requires RefreshTtl(cfg) > 0 && u.latestTime <= now
    requires now <= t <= now + RefreshTtl(cfg)
    ensures var s := SessionFor(u, now, cfg);
            VerifyRefreshToken(Registered(entries, s.refresh, u.id, now, cfg), rows, Some(s.refresh), t, cfg) == Ok(u)
    ensures t <= now + cfg.accessExpireMinutes * 60 ==>
            VerifyAccessToken(rows, Some(SessionFor(u, now, cfg).access), t, cfg) == Ok(u)
  {
    var s := SessionFor(u, now, cfg);
    FindByIdPositional(rows, u.id);
    RegisteredSpec(entries, s.refresh, u.id, now, cfg);
    IssuedTokensDecode(IdentityClaims(u), None, now, cfg, t);
    var e := Registered(entries, s.refresh, u.id, now, cfg);
    assert Live(e, s.refresh, t);
  }

  /**
   * `login`: the password plays no part in the lookup. An unknown username
   * is InvalidCredentials and changes nothing; otherwise both tokens are
   * issued and the refresh token is registered for the user.
   */
  method Login(users: UserStore, keys: KeyStore, username: string, password: string, now: int, cfg: Settings)
    returns (r: Result<Session>)
    modifies keys
    ensures users.GetUserByUsername(username, password).None? ==>
              r == Err(InvalidCredentials) && keys.entries == old(keys.entries)
    ensures users.GetUserByUsername(username, password).Some? ==>
              var u := users.GetUserByUsername(username, password).value;
              && r == Ok(SessionFor(u, now, cfg))
              && keys.entries == Registered(old(keys.entries), r.value.refresh, u.id, now, cfg)
  {
    var found := users.GetUserByUsername(username, password);
    if found.None? {
      return Err(InvalidCredentials);
    }
    var s := SessionFor(found.value, now, cfg);
    keys.SetRefreshToken(found.value.id, s.refresh, now, cfg);
    r := Ok(s);
  }

  /**
   * `register`: a taken username is Forbidden and changes nothing;
   * otherwise a new user is appended with the password as given, and
   * tokens are issued and registered as on login.
   */
  method Register(users: UserStore, keys: KeyStore, username: string, password: string, now: int, cfg: Settings)
    returns (r: Result<Session>)
    requires users.Valid()
    modifies users, keys
    ensures users.Valid()
    ensures old(UniqueUsernames(users.rows)) ==> UniqueUsernames(users.rows)
    ensures old(users.GetUserByUsername(username, password)).Some? ==>
              r == Err(Forbidden) && users.rows == old(users.rows) && keys.entries == old(keys.entries)
    ensures old(users.GetUserByUsername(username, password)).None? ==>
              var u := User(|old(users.rows)|, username, password, now);
              && users.rows == old(users.rows) + [u]
              && r == Ok(SessionFor(u, now, cfg))
              && keys.entries == Registered(old(keys.entries), r.value.refresh, u.id, now, cfg)
  {
    var found := users.GetUserByUsername(username, password);
    if found.Some? {
      return Err(Forbidden);
    }
    var u := users.CreateUser(username, password, now);
    var s := SessionFor(u, now, cfg);
    keys.SetRefreshToken(u.id, s.refresh, now, cfg);
    r := Ok(s);
  }

  /**
   * `refresh`: after the refresh check, only a new access token is issued;
   * neither the rows nor the key store change.
   */
  method Refresh(users: UserStore, keys: KeyStore, cookie: Option<Token>, now: int, cfg: Settings)
    returns (r: Result<(UserId, Token)>)
    ensures var v := VerifyRefreshToken(keys.entries, users.rows, cookie, now, cfg);
            && (v.Err? ==> r == Err(v.error))
            && (v.Ok? ==> r == Ok((v.value.id, CreateAccessToken(IdentityClaims(v.value), None, now, cfg))))
  {
    var v := VerifyRefreshToken(keys.entries, users.rows, cookie, now, cfg);
    if v.Err? {
      return Err(v.error);
    }
    r := Ok((v.value.id, CreateAccessToken(IdentityClaims(v.value), None, now, cfg)));
  }

  /** `logout`: after the refresh check, exactly the presented key is deleted. */
  method Logout(users: UserStore, keys: KeyStore, cookie: Option<Token>, now: int, cfg: Settings)
    returns (r: Result<()>)
    modifies keys
    ensures var v := VerifyRefreshToken(old(keys.entries), users.rows, cookie, now, cfg);
            && (v.Err? ==> r == Err(v.error) && keys.entries == old(keys.entries))
            && (v.Ok? ==> r == Ok(()) && keys.entries == old(keys.entries) - {cookie.value})
  {
    var v := VerifyRefreshToken(keys.entries, users.rows, cookie, now, cfg);
    if v.Err? {
      return Err(v.error);
    }
    keys.RemoveRefreshToken(cookie.value);
    r := Ok(());
  }

  /** After logout the presented token is refused by the refresh check. */
  lemma LogoutRevokes(entries: Entries, rows: seq<User>, token: Token, now: int, cfg: Settings)
    ensures VerifyRefreshToken(entries - {token}, rows, Some(token), now, cfg) == Err(InvalidCredentials)
  {
    RemoveSpec(entries, token, now);
  }

  /**
   * `logout_all`: after the refresh check, the user's epoch moves to now;
   * the key store is not touched.
   */
  method LogoutAll(users: UserStore, keys: KeyStore, cookie: Option<Token>, now: int, cfg: Settings)
    returns (r: Result<User>)
    requires users.Valid()
    modifies users
    ensures users.Valid()
    ensures var v := VerifyRefreshToken(keys.entries, old(users.rows), cookie, now, cfg);
            && (v.Err? ==> r == Err(v.error) && users.rows == old(users.rows))
            && (v.Ok? ==> v.value.id < |old(users.rows)|
                          && users.rows == WithEpoch(old(users.rows), v.value.id, now)
                          && r == Ok(users.rows[v.value.id]))
  {
    var v := VerifyRefreshToken(keys.entries, users.rows, cookie, now, cfg);
    if v.Err? {
      return Err(v.error);
    }
    FindByIdPositional(users.rows, v.value.id);
    var u := users.LogoutAllUsers(v.value.id, now);
    r := Ok(u);
  }
}
