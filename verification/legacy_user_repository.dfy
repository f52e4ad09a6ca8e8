/** The older knex user repository over `user_accounts`: lookup and insert
    only, with the same mapping and filter as the API's repository. */
module LegacyUserRepository {
  import opened Common
  import opened UserDomain
  import opened UserAccounts

  class LegacyUserRepository {
    var rows: seq<UserRow>
    /** The next value of the `id` sequence. */
    var nextId: int

    ghost predicate Valid()
      reads this
    {
      TableInvariant(rows, nextId)
    }

    constructor()
      ensures Valid() && rows == [] && nextId == 1
    {
      rows := [];
      nextId := 1;
    }

    /** `findByUsernameOrEmail(username, email)` at time `now`: some row
        matching either field without regard to letter case, as a user;
        `Ok(None)` for `null`; `Err` when `toDomain` throws. */
    method FindByUsernameOrEmail(username: string, email: string, now: Time)
      returns (r: Result<Option<UserProps>, string>)
      ensures r == Ok(None) <==> !AnyMatches(rows, username, email)
      ensures r != Ok(None) ==> exists i :: && 0 <= i < |rows| && Matches(rows[i], username, email)
                                            && r == (var u := ToDomain(Fetched(rows[i]), now);
                                                     if u.Ok? then Ok(Some(u.value)) else Err(u.error))
    {
      if !AnyMatches(rows, username, email) {
        return Ok(None);
      }
      var i :| 0 <= i < |rows| && Matches(rows[i], username, email);
      var u := ToDomain(Fetched(rows[i]), now);
      r := if u.Ok? then Ok(Some(u.value)) else Err(u.error);
    }

    /** `save(user)` at time `now`: inserts every field but the id and
        returns the generated id. Rows already stored are never touched:
        this repository has no update. */
    method Save(user: UserProps, now: Time) returns (r: Result<int, DbError>)
      requires Valid()
      modifies this
      ensures Valid()
      ensures |old(rows)| <= |rows| && rows[..|old(rows)|] == old(rows)
      ensures r.Err? <==> InsertCheck(old(rows), InsertedColumns(user)).Some?
      ensures r.Err? ==> r.error == InsertCheck(old(rows), InsertedColumns(user)).value
                         && rows == old(rows) && nextId >= old(nextId)
      ensures r.Ok? ==> && r.value == old(nextId) && nextId == old(nextId) + 1
                        && rows == old(rows) + [NewRow(r.value, InsertedColumns(user), now)]
    {
      var record := InsertedColumns(user);
      var check := InsertCheck(rows, record);
      if check.Some? {
        nextId := nextId + 1;
        return Err(check.value);
      }
      InsertKeepsInvariant(rows, nextId, record, now);
      rows := rows + [NewRow(nextId, record, now)];
      r := Ok(nextId);
      nextId := nextId + 1;
    }
  }

  /** Any sequence of saves keeps every earlier row as it was. */
  method SavesOnlyAppend(repo: LegacyUserRepository, users: seq<UserProps>, now: Time)
    returns (ids: seq<Result<int, DbError>>)
    requires repo.Valid()
    modifies repo
    ensures repo.Valid()
    ensures |ids| == |users|
    ensures |old(repo.rows)| <= |repo.rows| && repo.rows[..|old(repo.rows)|] == old(repo.rows)
  {
    ids := [];
    var k := 0;
    while k < |users|
      invariant 0 <= k <= |users| && |ids| == k
      invariant repo.Valid()
      invariant |old(repo.rows)| <= |repo.rows| && repo.rows[..|old(repo.rows)|] == old(repo.rows)
    {
      ghost var before := repo.rows;
      var id := repo.Save(users[k], now);
      assert repo.rows[..|before|] == before;
      assert repo.rows[..|old(repo.rows)|] == before[..|old(repo.rows)|];
      ids := ids + [id];
      k := k + 1;
    }
  }
}
