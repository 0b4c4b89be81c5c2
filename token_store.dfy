/**
 * The refresh-token key store (a Redis database) and the token service
 * over it: `set_refresh_token` (SET then EXPIRE), `remove_refresh_token`
 * (DEL) and `check_refresh_token` (EXISTS). A key with a deadline stays
 * visible while the clock has not passed the deadline; Redis deletes a
 * key whose EXPIRE is not positive.
 */
module TokenService {
  import opened Common
  import opened Jwt

  /** The user id stored under a key, with its expiry deadline if it has one. */
  datatype Entry = Entry(userId: UserId, deadline: Option<int>)

  type Entries = map<Token, Entry>

  /** `EXISTS key` at time `now`. */
  predicate Live(entries: Entries, key: Token, now: int)
  {
    key in entries && (entries[key].deadline.None? || now <= entries[key].deadline.value)
  }

  /** `SET key value`: stores the value and drops any earlier deadline; other keys are untouched. */
  function SetKey(entries: Entries, key: Token, user: UserId): (r: Entries)
    ensures forall now :: Live(r, key, now)
    ensures key in r && r[key].userId == user
    ensures forall k :: k != key ==> (k in r <==> k in entries) && (k in r ==> r[k] == entries[k])
  {
    entries[key := Entry(user, None)]
  }

  /**
   * `EXPIRE key seconds` at time `now`: nothing for a key that does not
   * exist, deletion for a non-positive TTL, otherwise a deadline `seconds`
   * from now on the same value; other keys are untouched.
   */
  function ExpireKey(entries: Entries, key: Token, seconds: int, now: int): (r: Entries)
    ensures !Live(entries, key, now) ==> r == entries
    ensures Live(entries, key, now) && seconds <= 0 ==> key !in r
    ensures Live(entries, key, now) && seconds > 0 ==>
              key in r && r[key] == Entry(entries[key].userId, Some(now + seconds))
              && (forall t :: Live(r, key, t) <==> t <= now + seconds)
    ensures forall k :: k != key ==> (k in r <==> k in entries) && (k in r ==> r[k] == entries[k])
  {
    if !Live(entries, key, now) then entries
    else if seconds <= 0 then entries - {key}
    else entries[key := entries[key].(deadline := Some(now + seconds))]
  }

  /** The TTL `set_refresh_token` gives a key: the refresh lifetime in seconds. */
  function RefreshTtl(cfg: Settings): int
  {
    cfg.refreshExpireMinutes * 60
  }

  /** The store after `set_refresh_token(user, token)` at time `now`: other keys are untouched. */
  function Registered(entries: Entries, token: Token, user: UserId, now: int, cfg: Settings): (r: Entries)
    ensures forall k :: k != token ==> (k in r <==> k in entries) && (k in r ==> r[k] == entries[k])
  {
    ExpireKey(SetKey(entries, token, user), token, RefreshTtl(cfg), now)
  }

  /**
   * After `set_refresh_token` the token is live, maps to the user and
   * expires after the refresh lifetime (a non-positive lifetime deletes
   * it at once); every other key is unchanged.
   */
  lemma RegisteredSpec(entries: Entries, token: Token, user: UserId, now: int, cfg: Settings)
    ensures var e := Registered(entries, token, user, now, cfg);
      && (RefreshTtl(cfg) > 0 ==> Live(e, token, now) && e[token] == Entry(user, Some(now + RefreshTtl(cfg))))
      && (RefreshTtl(cfg) <= 0 ==> token !in e)
      && (forall k :: k != token ==> (k in e <==> k in entries) && (k in e ==> e[k] == entries[k]))
  {
  }

  /** Remove, then check: the key is gone; removing again changes nothing; other keys stay. */
  lemma RemoveSpec(entries: Entries, token: Token, now: int)
    ensures !Live(entries - {token}, token, now)
    ensures (entries - {token}) - {token} == entries - {token}
    ensures forall k :: k != token ==> (Live(entries - {token}, k, now) <==> Live(entries, k, now))
  {
  }

  class KeyStore {
    var entries: Entries

    constructor ()
      ensures entries == map[]
    {
      entries := map[];
    }

    /** `set_refresh_token`: `SET token user_id`, then `EXPIRE token REFRESH_TOKEN_EXPIRE_MINUTES * 60`. */
    method SetRefreshToken(user: UserId, token: Token, now: int, cfg: Settings)
      modifies this
      ensures entries == Registered(old(entries), token, user, now, cfg)
    {
      entries := SetKey(entries, token, user);
      entries := ExpireKey(entries, token, RefreshTtl(cfg), now);
    }

    /** `remove_refresh_token`: `DEL token`, a no-op for an absent key. */
    method RemoveRefreshToken(token: Token)
      modifies this
      ensures entries == old(entries) - {token}
    {
      entries := entries - {token};
    }

    /** `check_refresh_token`: true exactly when the key exists. */
    method CheckRefreshToken(token: Token, now: int) returns (found: bool)
      ensures found <==> token in entries && (entries[token].deadline.None? || now <= entries[token].deadline.value)
    {
      found := Live(entries, token, now);
    }
  }
}
