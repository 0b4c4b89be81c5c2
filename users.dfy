/**
 * The `users` table and the user service: lookup by id, lookup by
 * username, creation, and the global logout that moves a user's
 * `latest_time` epoch forward. Rows are kept in insertion order, so a
 * query's `.first()` is the first matching row.
 */
module UserService {
  import opened Common

  /**
   * A user row. `hashedPassword` holds the password exactly as given
   * (the source's `fake_hashed_password`); `latestTime` is the session
   * epoch, a clock reading in seconds.
   */
  datatype User = User(id: UserId, username: string, hashedPassword: string, latestTime: int)

  /** The first row with that id: `query(UserModel).filter(id == ...).first()`. */
  function FindById(rows: seq<User>, id: UserId): (r: Option<User>)
    ensures r.Some? ==> r.value in rows && r.value.id == id
    ensures r.Some? ==> exists i :: 0 <= i < |rows| && rows[i] == r.value && forall k :: 0 <= k < i ==> rows[k].id != id
    ensures r.None? <==> forall i :: 0 <= i < |rows| ==> rows[i].id != id
  {
    if rows == [] then None
    else if rows[0].id == id then Some(rows[0])
    else FindById(rows[1..], id)
  }

  /** The first row with that username. */
  function FindByUsername(rows: seq<User>, username: string): (r: Option<User>)
    ensures r.Some? ==> r.value in rows && r.value.username == username
    ensures r.Some? ==> exists i :: 0 <= i < |rows| && rows[i] == r.value && forall k :: 0 <= k < i ==> rows[k].username != username
    ensures r.None? <==> forall i :: 0 <= i < |rows| ==> rows[i].username != username
  {
    if rows == [] then None
    else if rows[0].username == username then Some(rows[0])
    else FindByUsername(rows[1..], username)
  }

  /**
   * No two rows share a username. The column has no unique constraint;
   * registration keeps the property by refusing a taken name.
   */
  ghost predicate UniqueUsernames(rows: seq<User>)
  {
    forall i, j :: 0 <= i < j < |rows| ==> rows[i].username != rows[j].username
  }

  /** With unique usernames the lookup by a row's name finds exactly that row. */
  lemma UniqueLookup(rows: seq<User>, i: nat)
    requires UniqueUsernames(rows) && i < |rows|
    ensures FindByUsername(rows, rows[i].username) == Some(rows[i])
  {
    var r := FindByUsername(rows, rows[i].username);
    var j :| 0 <= j < |rows| && rows[j] == r.value;
    assert j == i;
  }

  /** Every row's id is its position: ids are handed out in insertion order and never reused. */
  ghost predicate Positional(rows: seq<User>)
  {
    forall i :: 0 <= i < |rows| ==> rows[i].id == i
  }

  /** On positional rows the first row with an id is the row at that position. */
  lemma {:induction false} FindByIdPositional(rows: seq<User>, id: UserId)
    requires Positional(rows)
    ensures FindById(rows, id) == if id < |rows| then Some(rows[id]) else None
  {
    var r := FindById(rows, id);
    if id < |rows| {
      assert rows[id].id == id;
      assert r.Some?;
      var j :| 0 <= j < |rows| && rows[j] == r.value;
      assert rows[j].id == j;
    } else {
      assert forall i :: 0 <= i < |rows| ==> rows[i].id != id;
    }
  }

  /** The rows after `logout_all_users(id)` at time `now`: only that user's epoch changes. */
  function WithEpoch(rows: seq<User>, id: UserId, now: int): (r: seq<User>)
    requires id < |rows|
    ensures |r| == |rows|
    ensures r[id] == rows[id].(latestTime := now)
    ensures forall i :: 0 <= i < |rows| && i != id ==> r[i] == rows[i]
  {
    rows[id := rows[id].(latestTime := now)]
  }

  class UserStore {
    var rows: seq<User>

    /** The uuid default of the `id` column is modelled by the row's position. */
    ghost predicate Valid()
      reads this
    {
      Positional(rows)
    }

    constructor ()
      ensures Valid() && rows == []
    {
      rows := [];
    }

    /** `get_user`: the record with that id, or `None`. */
    function GetUser(id: UserId): (r: Option<User>)
      reads this
      requires Valid()
      ensures r.Some? <==> id < |rows|
      ensures r.Some? ==> r.value == rows[id]
    {
      FindByIdPositional(rows, id);
      FindById(rows, id)
    }

    /**
     * `get_user_by_username`: the extra filter term `password == password`
     * compares the argument with itself, so only the username counts.
     */
    function GetUserByUsername(username: string, password: string): (r: Option<User>)
      reads this
      ensures r.Some? ==> r.value in rows && r.value.username == username
      ensures r.None? <==> forall i :: 0 <= i < |rows| ==> rows[i].username != username
    {
      FindByUsername(rows, username)
    }

    /** The lookup by username gives the same answer whatever password is passed. */
    lemma PasswordIgnored(username: string, p1: string, p2: string)
      ensures GetUserByUsername(username, p1) == GetUserByUsername(username, p2)
    {
    }

    /**
     * `create_user`: appends a row with a fresh id that stores the username
     * and the password as given; `latest_time` takes its column default,
     * the current time.
     */
    method CreateUser(username: string, password: string, now: int) returns (user: User)
      requires Valid()
      modifies this
      ensures Valid()
      ensures user == User(|old(rows)|, username, password, now)
      ensures rows == old(rows) + [user]
      ensures UniqueUsernames(old(rows)) && FindByUsername(old(rows), username).None? ==> UniqueUsernames(rows)
    {
      user := User(|rows|, username, password, now);
      rows := rows + [user];
    }

    /** `logout_all_users`: sets that user's `latest_time` to now and nothing else. */
    method LogoutAllUsers(id: UserId, now: int) returns (user: User)
      requires Valid() && id < |rows|
      modifies this
      ensures Valid()
      ensures rows == WithEpoch(old(rows), id, now)
      ensures user == rows[id]
    {
      rows := WithEpoch(rows, id, now);
      user := rows[id];
    }
  }
}
