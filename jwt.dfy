/**
 * Token construction and the signature check. Signing is abstract: a
 * signed token is the value `Signed(alg, key, claims)`, so encoding is
 * injective, and decoding fails on anything that was not produced by
 * encoding with the same key and an accepted algorithm, and on a token
 * whose `exp` claim lies in the past.
 */
module Jwt {
  import opened Common

  datatype ClaimValue = Text(text: string) | Number(n: int)

  type Claims = map<string, ClaimValue>

  /** A cookie's token: a signed claim set, or any other text. */
  datatype Token = Signed(alg: string, key: string, claims: Claims) | Forged(raw: string)

  /** The algorithm both token builders pass to `jwt.encode`. */
  const SIGNING_ALGORITHM: string := "HS256"

  /** `jwt.encode(claims, key, algorithm="HS256")`: only that key and HS256 verify the token. */
  function Encode(claims: Claims, key: string): (t: Token)
    ensures forall k, alg, now :: Decode(t, k, alg, now).Some? ==> k == key && alg == SIGNING_ALGORITHM
                                                                    && Decode(t, k, alg, now).value == claims
  {
    Signed(SIGNING_ALGORITHM, key, claims)
  }

  /** The `exp` check of `jwt.decode`: an integer that is not before `now`. */
  predicate NotExpired(claims: Claims, now: int)
  {
    "exp" in claims ==> claims["exp"].Number? && now <= claims["exp"].n
  }

  /** `jwt.decode(token, key, algorithms=[alg])`; `None` is a `JWTError`. */
  function Decode(token: Token, key: string, alg: string, now: int): (r: Option<Claims>)
    ensures r.Some? ==> token == Signed(alg, key, r.value) && NotExpired(r.value, now)
  {
    if token.Signed? && token.alg == alg && token.key == key && NotExpired(token.claims, now)
    then Some(token.claims) else None
  }

  /** A token decodes under the key that signed it while it has not expired. */
  lemma DecodeEncode(claims: Claims, key: string, now: int)
    requires NotExpired(claims, now)
    ensures Decode(Encode(claims, key), key, SIGNING_ALGORITHM, now) == Some(claims)
    ensures forall alg :: alg != SIGNING_ALGORITHM ==> Decode(Encode(claims, key), key, alg, now).None?
  {
  }

  /** `exp`: `now + expires_delta` when the delta is truthy (non-zero), else the configured lifetime. */
  function Expiry(delta: Option<int>, now: int, lifetimeMinutes: int): (exp: int)
    ensures delta.Some? && delta.value != 0 ==> exp == now + delta.value
    ensures delta.None? || delta == Some(0) ==> exp == now + lifetimeMinutes * 60
  {
    if delta.Some? && delta.value != 0 then now + delta.value else now + lifetimeMinutes * 60
  }

  /** The claims of `create_access_token`: a copy of `data` plus `exp`. */
  function AccessClaims(data: Claims, delta: Option<int>, now: int, cfg: Settings): (c: Claims)
    ensures c.Keys == data.Keys + {"exp"}
    ensures forall k :: k in data && k != "exp" ==> c[k] == data[k]
    ensures c["exp"] == Number(Expiry(delta, now, cfg.accessExpireMinutes))
  {
    data["exp" := Number(Expiry(delta, now, cfg.accessExpireMinutes))]
  }

  /** The claims of `create_refresh_token`: a copy of `data` plus `exp` and `created_at`. */
  function RefreshClaims(data: Claims, delta: Option<int>, now: int, cfg: Settings): (c: Claims)
    ensures c.Keys == data.Keys + {"exp", "created_at"}
    ensures forall k :: k in data && k != "exp" && k != "created_at" ==> c[k] == data[k]
    ensures c["exp"] == Number(Expiry(delta, now, cfg.refreshExpireMinutes))
    ensures c["created_at"] == Number(now)
  {
    data["exp" := Number(Expiry(delta, now, cfg.refreshExpireMinutes))]["created_at" := Number(now)]
  }

  /** `create_access_token`: verifiable only with the access secret, and then carrying the access claims. */
  function CreateAccessToken(data: Claims, delta: Option<int>, now: int, cfg: Settings): (t: Token)
    ensures forall k, alg, at :: Decode(t, k, alg, at).Some? ==>
              k == cfg.accessSecret && Decode(t, k, alg, at).value == AccessClaims(data, delta, now, cfg)
  {
    Encode(AccessClaims(data, delta, now, cfg), cfg.accessSecret)
  }

  /** `create_refresh_token`: verifiable only with the refresh secret, and then carrying the refresh claims. */
  function CreateRefreshToken(data: Claims, delta: Option<int>, now: int, cfg: Settings): (t: Token)
    ensures forall k, alg, at :: Decode(t, k, alg, at).Some? ==>
              k == cfg.refreshSecret && Decode(t, k, alg, at).value == RefreshClaims(data, delta, now, cfg)
  {
    Encode(RefreshClaims(data, delta, now, cfg), cfg.refreshSecret)
  }

  /**
   * The two kinds are signed with different secrets: with distinct secrets
   * neither kind decodes as the other. An access token has no
   * `created_at` unless the caller's data had one.
   */
  lemma TokenKindsSeparate(data: Claims, delta: Option<int>, now: int, cfg: Settings, alg: string, t: int)
    requires cfg.accessSecret != cfg.refreshSecret
    ensures Decode(CreateAccessToken(data, delta, now, cfg), cfg.refreshSecret, alg, t).None?
    ensures Decode(CreateRefreshToken(data, delta, now, cfg), cfg.accessSecret, alg, t).None?
    ensures "created_at" !in data ==> "created_at" !in AccessClaims(data, delta, now, cfg)
  {
  }

  /**
   * A freshly built token decodes, under its own secret and the configured
   * algorithm, to exactly its claims until its expiry, provided that the
   * configured algorithm is the one the builders sign with.
   */
  lemma IssuedTokensDecode(data: Claims, delta: Option<int>, now: int, cfg: Settings, t: int)
    requires cfg.algorithm == SIGNING_ALGORITHM
    ensures t <= Expiry(delta, now, cfg.accessExpireMinutes) ==>
      Decode(CreateAccessToken(data, delta, now, cfg), cfg.accessSecret, cfg.algorithm, t)
        == Some(AccessClaims(data, delta, now, cfg))
    ensures t <= Expiry(delta, now, cfg.refreshExpireMinutes) ==>
      Decode(CreateRefreshToken(data, delta, now, cfg), cfg.refreshSecret, cfg.algorithm, t)
        == Some(RefreshClaims(data, delta, now, cfg))
  {
    if t <= Expiry(delta, now, cfg.accessExpireMinutes) {
      DecodeEncode(AccessClaims(data, delta, now, cfg), cfg.accessSecret, t);
    }
    if t <= Expiry(delta, now, cfg.refreshExpireMinutes) {
      DecodeEncode(RefreshClaims(data, delta, now, cfg), cfg.refreshSecret, t);
    }
  }
}
