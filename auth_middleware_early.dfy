/**
 * The earlier request guards. The refresh check is the same sequence as
 * the current one (`AuthMiddleware.VerifyRefreshToken`); the access
 * check reports every failure, a missing cookie and a bad signature
 * included, as InvalidCredentials.
 */
module AuthMiddlewareEarly {
  import opened Common
  import opened Jwt
  import opened UserService
  import AuthMiddleware

  /** `verify_access_token` of the earlier server. */
  function VerifyAccessToken(rows: seq<User>, cookie: Option<Token>, now: int, cfg: Settings): (r: Result<User>)
    ensures r.Err? ==> r.error == InvalidCredentials
  {
    if cookie.None? then Err(InvalidCredentials)
    else
      match Decode(cookie.value, cfg.accessSecret, cfg.algorithm, now)
      case None => Err(InvalidCredentials)
      case Some(claims) =>
        match AuthMiddleware.UserIdClaim(claims)
        case None => Err(InvalidCredentials)
        case Some(id) =>
          match FindById(rows, id)
          case None => Err(InvalidCredentials)
          case Some(user) => Ok(user)
  }

  /**
   * The two access checks accept the same tokens with the same user; they
   * differ only in the error reported: the current one says TokenExpired
   * where the earlier one says InvalidCredentials.
   */
  lemma SameAcceptance(rows: seq<User>, cookie: Option<Token>, now: int, cfg: Settings)
    ensures var early := VerifyAccessToken(rows, cookie, now, cfg);
            var current := AuthMiddleware.VerifyAccessToken(rows, cookie, now, cfg);
            && (current.Ok? ==> early == current)
            && (current.Err? ==> early == Err(InvalidCredentials))
            && (current == Err(TokenExpired) ==> cookie.None? || Decode(cookie.value, cfg.accessSecret, cfg.algorithm, now).None?)
  {
  }
}
