/** The `user_accounts` table both knex user repositories use: its rows, the
    constraints an insert must meet, the row mapping to and from the user
    entity, and the case-insensitive username-or-email filter. */
module UserAccounts {
  import opened Common
  import opened UserDomain

  /** The object literal `toDatabase` builds and `toDomain` reads. */
  datatype UserRecord = UserRecord(
    id: Option<int>,
    username: Option<string>,
    email: Option<string>,
    password_hash: Option<string>,
    first_name: Option<string>,
    last_name: Option<string>,
    is_active: Option<bool>,
    created_at: Option<Time>,
    updated_at: Option<Time>)

  /** A stored row: the not-null columns are set and the defaulted columns
      hold their value or their default. */
  datatype UserRow = UserRow(
    id: int,
    username: string,
    email: string,
    password_hash: string,
    first_name: Option<string>,
    last_name: Option<string>,
    is_active: bool,
    created_at: Time,
    updated_at: Time)

  /** How an insert fails. */
  datatype DbError =
    | NotNullViolation(column: string)
    | ValueTooLong(column: string)
    | UniqueViolation(column: string)

  const UsernameWidth := 50
  const EmailWidth := 255
  const NameWidth := 50

  /** `toDatabase(user)`: each field under its snake_case column. */
  function ToDatabase(u: UserProps): (r: UserRecord)
    ensures r.id == u.id && r.username == u.username && r.email == u.email
    ensures r.password_hash == u.passwordHash && r.first_name == u.firstName && r.last_name == u.lastName
    ensures r.is_active == u.isActive && r.created_at == u.createdAt && r.updated_at == u.updatedAt
  {
    UserRecord(u.id, u.username, u.email, u.passwordHash, u.firstName, u.lastName,
               u.isActive, u.createdAt, u.updatedAt)
  }

  /** `toDomain(row)`: the columns back under their camelCase names, through
      `User.create` at time `now`, so a row `create` refuses throws. */
  function ToDomain(r: UserRecord, now: Time): (u: Result<UserProps, string>)
    // it throws exactly when username, email or password hash is blank
    ensures u.Ok? <==> !Blank(r.username) && !Blank(r.email) && !Blank(r.password_hash)
    // the user maps back to the same columns, but for the defaults
    // `create` fills in
    ensures u.Ok? ==> ToDatabase(u.value).(is_active := r.is_active, created_at := r.created_at,
                                           updated_at := r.updated_at) == r
    ensures u.Ok? ==> u.value.isActive.Some? && u.value.createdAt.Some? && u.value.updatedAt.Some?
  {
    CreateUser(UserProps(r.id, r.username, r.email, r.password_hash, r.first_name,
                         r.last_name, r.is_active, r.created_at, r.updated_at), now)
  }

  /** A user `create` accepts, with its flag and timestamps set, survives
      the trip to a row and back unchanged (a missing id stays missing). */
  lemma RoundTrip(u: UserProps, t: Time, now: Time)
    requires CreateUser(u, t).Ok?
    requires u.isActive.Some? && u.createdAt.Some? && u.updatedAt.Some?
    ensures ToDomain(ToDatabase(u), now) == Ok(u)
  {
  }

  /** The mapping loses nothing: distinct users give distinct rows. */
  lemma ToDatabaseInjective(a: UserProps, b: UserProps)
    requires ToDatabase(a) == ToDatabase(b)
    ensures a == b
  {
  }

  /** `toDomain` throws on a row whose username, email or password hash is
      missing or whitespace only, with `create`'s message. */
  lemma ToDomainRejectsBlank(r: UserRecord, now: Time)
    ensures r.username.None? || AllWhitespace(r.username.value) ==> ToDomain(r, now) == Err(UsernameEmpty)
    ensures ToDomain(r, now).Ok? ==> r.email.Some? && !AllWhitespace(r.email.value)
    ensures ToDomain(r, now).Ok? ==> r.password_hash.Some? && !AllWhitespace(r.password_hash.value)
  {
    BlankIffMissingOrWhitespace(r.username);
    BlankIffMissingOrWhitespace(r.email);
    BlankIffMissingOrWhitespace(r.password_hash);
  }

  /** A stored row, as the object the query returns. */
  function Fetched(row: UserRow): (r: UserRecord)
    ensures r.id == Some(row.id) && r.username == Some(row.username) && r.email == Some(row.email)
    ensures r.first_name == row.first_name && r.last_name == row.last_name
  {
    UserRecord(Some(row.id), Some(row.username), Some(row.email), Some(row.password_hash),
               row.first_name, row.last_name, Some(row.is_active), Some(row.created_at), Some(row.updated_at))
  }

  /** The object `save` inserts: every field of the user but the id. */
  function InsertedColumns(u: UserProps): (r: UserRecord)
    ensures r.id.None? && r == ToDatabase(u).(id := None)
  {
    UserRecord(None, u.username, u.email, u.passwordHash, u.firstName, u.lastName,
               u.isActive, u.createdAt, u.updatedAt)
  }

  /** The constraints of `user_accounts` an insert of `r` next to `rows`
      must meet: not-null, column widths, unique username and email. */
  function InsertCheck(rows: seq<UserRow>, r: UserRecord): (e: Option<DbError>)
    ensures e.None? <==>
      && r.username.Some? && r.email.Some? && r.password_hash.Some?
      && |r.username.value| <= UsernameWidth && |r.email.value| <= EmailWidth
      && (r.first_name.Some? ==> |r.first_name.value| <= NameWidth)
      && (r.last_name.Some? ==> |r.last_name.value| <= NameWidth)
      && (forall i :: 0 <= i < |rows| ==> rows[i].username != r.username.value && rows[i].email != r.email.value)
  {
    if r.username.None? then Some(NotNullViolation("username"))
    else if r.email.None? then Some(NotNullViolation("email"))
    else if r.password_hash.None? then Some(NotNullViolation("password_hash"))
    else if |r.username.value| > UsernameWidth then Some(ValueTooLong("username"))
    else if |r.email.value| > EmailWidth then Some(ValueTooLong("email"))
    else if r.first_name.Some? && |r.first_name.value| > NameWidth then Some(ValueTooLong("first_name"))
    else if r.last_name.Some? && |r.last_name.value| > NameWidth then Some(ValueTooLong("last_name"))
    else if exists i :: 0 <= i < |rows| && rows[i].username == r.username.value then Some(UniqueViolation("username"))
    else if exists i :: 0 <= i < |rows| && rows[i].email == r.email.value then Some(UniqueViolation("email"))
    else None
  }

  /** The row an insert of `r` that passed `InsertCheck` stores under `id`:
      `is_active` defaults to true and the timestamps to the insertion time. */
  function NewRow(id: int, r: UserRecord, now: Time): (row: UserRow)
    requires r.username.Some? && r.email.Some? && r.password_hash.Some?
    ensures row.id == id && Fetched(row).(id := None, is_active := r.is_active,
                                          created_at := r.created_at, updated_at := r.updated_at)
                            == r.(id := None)
    ensures row.is_active == r.is_active.GetOr(true)
    ensures row.created_at == r.created_at.GetOr(now) && row.updated_at == r.updated_at.GetOr(now)
  {
    UserRow(id, r.username.value, r.email.value, r.password_hash.value, r.first_name, r.last_name,
            r.is_active.GetOr(true), r.created_at.GetOr(now), r.updated_at.GetOr(now))
  }

  /** A user `create` accepted, stored under `id` and read back, is the same
      user with that id, whenever it is read. */
  lemma StoredUserReadsBack(u: UserProps, t: Time, id: int, now: Time, later: Time)
    requires CreateUser(u, t).Ok?
    requires u.isActive.Some? && u.createdAt.Some? && u.updatedAt.Some?
    ensures ToDomain(Fetched(NewRow(id, InsertedColumns(u), now)), later) == Ok(u.(id := Some(id)))
  {
  }

  /** The filter `LOWER(username) = LOWER(?) OR LOWER(email) = LOWER(?)`. */
  predicate Matches(row: UserRow, username: string, email: string)
    // an exact match on either column is a match
    ensures row.username == username || row.email == email ==> Matches(row, username, email)
    // a match agrees letter for letter, up to case, on one of the columns
    ensures Matches(row, username, email) ==> |row.username| == |username| || |row.email| == |email|
  {
    Lower(row.username) == Lower(username) || Lower(row.email) == Lower(email)
  }

  predicate AnyMatches(rows: seq<UserRow>, username: string, email: string) {
    exists i :: 0 <= i < |rows| && Matches(rows[i], username, email)
  }

  /** Letter case does not matter in the lookup, while the unique
      constraints are exact: `Alice` and `alice` can both be stored, and
      either of them matches a lookup of either. */
  lemma LookupIgnoresCase(rows: seq<UserRow>, a: string, b: string, email: string)
    requires Lower(a) == Lower(b)
    ensures AnyMatches(rows, a, email) <==> AnyMatches(rows, b, email)
    ensures forall i :: 0 <= i < |rows| ==> (Matches(rows[i], a, email) <==> Matches(rows[i], b, email))
  {
  }

  /** A case variant of a stored username is not stopped by the unique
      constraint. */
  lemma CaseVariantPassesUniqueCheck(row: UserRow, r: UserRecord)
    requires r.username == Some("alice") && r.email.Some? && r.password_hash.Some?
    requires r.first_name.None? && r.last_name.None? && |r.email.value| <= EmailWidth
    requires row.username == "Alice" && row.email != r.email.value
    ensures InsertCheck([row], r).None?
    ensures Matches(row, "alice", "")
  {
    assert row.username != "alice" by {
      assert row.username[0] != "alice"[0];
    }
    assert Lower("Alice") == "alice";
  }

  /** The row changes of `updatePassword(id, password)` at time `now`. */
  function PasswordUpdated(rows: seq<UserRow>, id: int, password: string, now: Time): (rs: seq<UserRow>)
    ensures |rs| == |rows|
    ensures forall i :: 0 <= i < |rows| && rows[i].id == id ==>
      rs[i] == rows[i].(password_hash := password, updated_at := now)
    ensures forall i :: 0 <= i < |rows| && rows[i].id != id ==> rs[i] == rows[i]
  {
    seq(|rows|, i requires 0 <= i < |rows| =>
      if rows[i].id == id then rows[i].(password_hash := password, updated_at := now) else rows[i])
  }

  /** The row changes of `enableUser(id)` at time `now`. */
  function Enabled(rows: seq<UserRow>, id: int, now: Time): (rs: seq<UserRow>)
    ensures |rs| == |rows|
    ensures forall i :: 0 <= i < |rows| && rows[i].id == id ==>
      rs[i] == rows[i].(is_active := true, updated_at := now)
    ensures forall i :: 0 <= i < |rows| && rows[i].id != id ==> rs[i] == rows[i]
  {
    seq(|rows|, i requires 0 <= i < |rows| =>
      if rows[i].id == id then rows[i].(is_active := true, updated_at := now) else rows[i])
  }

  predicate HasId(rows: seq<UserRow>, id: int) {
    exists i :: 0 <= i < |rows| && rows[i].id == id
  }

  /** An update that matches no row leaves the table as it was. */
  lemma UpdateWithoutMatchIsNoOp(rows: seq<UserRow>, id: int, password: string, now: Time)
    requires !HasId(rows, id)
    ensures PasswordUpdated(rows, id, password, now) == rows
    ensures Enabled(rows, id, now) == rows
  {
  }

  /** Enabling is idempotent up to the update time. */
  lemma EnableTwice(rows: seq<UserRow>, id: int, t1: Time, t2: Time)
    ensures Enabled(Enabled(rows, id, t1), id, t2) == Enabled(rows, id, t2)
  {
  }

  /** Ids come from the `bigIncrements` sequence and are unique; usernames
      and emails are unique, as written. */
  ghost predicate TableInvariant(rows: seq<UserRow>, nextId: int) {
    && (forall i :: 0 <= i < |rows| ==> rows[i].id < nextId)
    && (forall i, j :: 0 <= i < j < |rows| ==> rows[i].id != rows[j].id)
    && (forall i, j :: 0 <= i < j < |rows| ==> rows[i].username != rows[j].username)
    && (forall i, j :: 0 <= i < j < |rows| ==> rows[i].email != rows[j].email)
  }

  /** An insert that passed the check keeps the invariant. */
  lemma InsertKeepsInvariant(rows: seq<UserRow>, nextId: int, r: UserRecord, now: Time)
    requires TableInvariant(rows, nextId)
    requires InsertCheck(rows, r).None?
    ensures TableInvariant(rows + [NewRow(nextId, r, now)], nextId + 1)
  {
    var rs := rows + [NewRow(nextId, r, now)];
    assert forall i :: 0 <= i < |rows| ==> rs[i] == rows[i];
  }

  /** An update that keeps ids, usernames and emails keeps the invariant. */
  lemma UpdateKeepsInvariant(rows: seq<UserRow>, rs: seq<UserRow>, nextId: int)
    requires TableInvariant(rows, nextId)
    requires |rs| == |rows|
    requires forall i :: 0 <= i < |rows| ==>
      rs[i].id == rows[i].id && rs[i].username == rows[i].username && rs[i].email == rows[i].email
    ensures TableInvariant(rs, nextId)
  {
  }
}
