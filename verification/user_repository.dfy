/** The API's knex user repository over `user_accounts`. */
module UserRepository {
  import opened Common
  import opened UserDomain
  import opened UserAccounts

  class UserRepository {
    var rows: seq<UserRow>
    /** The next value of the `id` sequence. */
    var nextId: int

    ghost predicate Valid()
      reads this
    {
      TableInvariant(rows, nextId)
    }

    constructor()
      ensures Valid() && rows == [] && nextId == 1
    {
      rows := [];
      nextId := 1;
    }

    /** `findByUsernameOrEmail(username, email)` at time `now`: some row whose
        username or email equals the argument's, ignoring letter case, as a
        user; `Ok(None)` for `null`; `Err` when `toDomain` throws. Without an
        `ORDER BY`, which matching row comes back is left open. */
    method FindByUsernameOrEmail(username: string, email: string, now: Time)
      returns (r: Result<Option<UserProps>, string>)
      ensures r == Ok(None) <==> !AnyMatches(rows, username, email)
      ensures r != Ok(None) ==> exists i :: && 0 <= i < |rows| && Matches(rows[i], username, email)
                                            && r == (var u := ToDomain(Fetched(rows[i]), now);
                                                     if u.Ok? then Ok(Some(u.value)) else Err(u.error))
    {
      if !AnyMatches(rows, username, email) {
        return Ok(None);
      }
      var i :| 0 <= i < |rows| && Matches(rows[i], username, email);
      var u := ToDomain(Fetched(rows[i]), now);
      r := if u.Ok? then Ok(Some(u.value)) else Err(u.error);
    }

    /** `save(user)` at time `now`: inserts every field but the id and
        returns the id the table generated. */
    method Save(user: UserProps, now: Time) returns (r: Result<int, DbError>)
      requires Valid()
      modifies this
      ensures Valid()
      ensures r.Err? <==> InsertCheck(old(rows), InsertedColumns(user)).Some?
      ensures r.Err? ==> r.error == InsertCheck(old(rows), InsertedColumns(user)).value
                         && rows == old(rows) && nextId >= old(nextId)
      ensures r.Ok? ==> && r.value == old(nextId) && nextId == old(nextId) + 1
                        && rows == old(rows) + [NewRow(r.value, InsertedColumns(user), now)]
    {
      var record := InsertedColumns(user);
      var check := InsertCheck(rows, record);
      if check.Some? {
        nextId := nextId + 1;
        return Err(check.value);
      }
      InsertKeepsInvariant(rows, nextId, record, now);
      rows := rows + [NewRow(nextId, record, now)];
      r := Ok(nextId);
      nextId := nextId + 1;
    }

    /** `updatePassword(id, password)` at time `now`: the new hash and update
        time on the rows with that id; true exactly when a row changed. */
    method UpdatePassword(id: int, password: string, now: Time) returns (updated: bool)
      requires Valid()
      modifies this
      ensures Valid() && nextId == old(nextId)
      ensures rows == PasswordUpdated(old(rows), id, password, now)
      ensures updated <==> HasId(old(rows), id)
      ensures !updated ==> rows == old(rows)
    {
      var changed := PasswordUpdated(rows, id, password, now);
      UpdateKeepsInvariant(rows, changed, nextId);
      if !HasId(rows, id) {
        UpdateWithoutMatchIsNoOp(rows, id, password, now);
      }
      updated := HasId(rows, id);
      rows := changed;
    }

    /** `enableUser(id)` at time `now`: `is_active` true and a new update time
        on the rows with that id; true exactly when a row changed. */
    method EnableUser(id: int, now: Time) returns (updated: bool)
      requires Valid()
      modifies this
      ensures Valid() && nextId == old(nextId)
      ensures rows == Enabled(old(rows), id, now)
      ensures updated <==> HasId(old(rows), id)
      ensures !updated ==> rows == old(rows)
    {
      var changed := Enabled(rows, id, now);
      UpdateKeepsInvariant(rows, changed, nextId);
      if !HasId(rows, id) {
        UpdateWithoutMatchIsNoOp(rows, id, "", now);
      }
      updated := HasId(rows, id);
      rows := changed;
    }
  }

  /** A registered user can be found again by its username in another
      letter case, and is read back as the same user with its new id. */
  method SaveThenFind(user: UserProps, t: Time, now: Time, later: Time, lookup: string)
    returns (saved: Result<int, DbError>, found: Result<Option<UserProps>, string>)
    requires CreateUser(user, t).Ok?
    requires user.isActive.Some? && user.createdAt.Some? && user.updatedAt.Some?
    requires |user.username.value| <= UsernameWidth && |user.email.value| <= EmailWidth
    requires user.firstName.None? && user.lastName.None?
    requires Lower(lookup) == Lower(user.username.value)
    ensures saved.Ok? && found == Ok(Some(user.(id := Some(saved.value))))
  {
    var repo := new UserRepository();
    saved := repo.Save(user, now);
    assert repo.rows[0] == NewRow(saved.value, InsertedColumns(user), now);
    StoredUserReadsBack(user, t, saved.value, now, later);
    found := repo.FindByUsernameOrEmail(lookup, "", later);
  }
}
