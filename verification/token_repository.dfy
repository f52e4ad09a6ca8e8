/** The `tokens` table behind the API's token repository. The table is held
    as a sequence of rows plus the `bigIncrements` sequence; `now` is a
    parameter. */
module TokenRepository {
  import opened Common
  import TokenTypes
  import opened TokenDomain

  /** The object literal `toDatabase` builds and `toDomain` reads. */
  datatype TokenRecord = TokenRecord(
    id: Option<int>,
    user_id: Option<string>,
    token: Option<string>,
    token_type: Option<string>,
    expires_at: Option<Time>,
    created_at: Option<Time>,
    updated_at: Option<Time>)

  /** A stored row: every not-null column is set, and the timestamp columns
      hold their value or the insertion time. */
  datatype TokenRow = TokenRow(
    id: int,
    user_id: string,
    token: string,
    token_type: string,
    expires_at: Time,
    created_at: Time,
    updated_at: Time)

  /** How an insert fails. */
  datatype DbError = NotNullViolation(column: string) | InvalidUuid(column: string) | ValueTooLong(column: string)

  /** A stored row, as the object the query returns. */
  function Fetched(row: TokenRow): (r: TokenRecord)
    ensures r.id == Some(row.id) && r.user_id == Some(row.user_id) && r.expires_at == Some(row.expires_at)
  {
    TokenRecord(Some(row.id), Some(row.user_id), Some(row.token), Some(row.token_type),
                Some(row.expires_at), Some(row.created_at), Some(row.updated_at))
  }

  /** `toDatabase(token)`: each field under its snake_case column. */
  function ToDatabase(t: Token): (r: TokenRecord)
    ensures r.id == t.id && r.user_id == t.userId && r.token == t.token && r.token_type == t.tokenType
    ensures r.expires_at == t.expiresAt && r.created_at == t.createdAt && r.updated_at == t.updatedAt
  {
    TokenRecord(t.id, t.userId, t.token, t.tokenType, t.expiresAt, t.createdAt, t.updatedAt)
  }

  /** `toDomain(row)`: the columns back under their camelCase names, through
      `Token.create` at time `now`. */
  function ToDomain(r: TokenRecord, now: Time): (t: Token)
    // the token maps back to the same columns, but for the timestamps
    // `create` fills in when they are missing
    ensures ToDatabase(t).(created_at := r.created_at, updated_at := r.updated_at) == r
    ensures r.created_at.Some? ==> t.createdAt == r.created_at
    ensures r.updated_at.Some? ==> t.updatedAt == r.updated_at
    ensures t.createdAt.Some? && t.updatedAt.Some?
  {
    Create(Token(r.id, r.user_id, r.token, r.token_type, r.expires_at, r.created_at, r.updated_at), now)
  }

  /** Mapping a token to a row and back gives the token again whenever its
      timestamps are set (a missing id stays missing). */
  lemma RoundTrip(t: Token, now: Time)
    requires t.createdAt.Some? && t.updatedAt.Some?
    ensures ToDomain(ToDatabase(t), now) == t
  {
  }

  /** The mapping loses nothing: distinct tokens give distinct rows. */
  lemma ToDatabaseInjective(a: Token, b: Token)
    requires ToDatabase(a) == ToDatabase(b)
    ensures a == b
  {
  }

  /** The `where`/`andWhere` filter of `findByUserId`: the user, the type,
      and an expiry strictly later than now. */
  predicate Qualifies(row: TokenRow, userId: string, tokenType: string, now: Time)
    // a token of another user or type never qualifies
    ensures Qualifies(row, userId, tokenType, now) ==> row.user_id == userId && row.token_type == tokenType
    // nor does one that expires at `now` or earlier
    ensures row.expires_at <= now ==> !Qualifies(row, userId, tokenType, now)
  {
    row.user_id == userId && row.token_type == tokenType && row.expires_at > now
  }

  /** Row `i` qualifies and no qualifying row expires later. */
  predicate IsLatest(rows: seq<TokenRow>, i: int, userId: string, tokenType: string, now: Time)
    // the latest row is a stored row that has not expired, so some row
    // qualifies
    ensures IsLatest(rows, i, userId, tokenType, now) ==>
      0 <= i < |rows| && rows[i].expires_at > now && AnyQualifies(rows, userId, tokenType, now)
  {
    && 0 <= i < |rows|
    && Qualifies(rows[i], userId, tokenType, now)
    && forall j :: 0 <= j < |rows| && Qualifies(rows[j], userId, tokenType, now) ==>
         rows[j].expires_at <= rows[i].expires_at
  }

  predicate AnyQualifies(rows: seq<TokenRow>, userId: string, tokenType: string, now: Time) {
    exists i :: 0 <= i < |rows| && Qualifies(rows[i], userId, tokenType, now)
  }

  /** When some row qualifies, `orderBy("expires_at", "desc").first()` has a
      row to return. */
  lemma {:induction false} LatestExists(rows: seq<TokenRow>, userId: string, tokenType: string, now: Time)
    requires AnyQualifies(rows, userId, tokenType, now)
    ensures exists i :: IsLatest(rows, i, userId, tokenType, now)
  {
    var n := |rows| - 1;
    var init := rows[..n];
    assert forall j :: 0 <= j < n ==> init[j] == rows[j];
    if AnyQualifies(init, userId, tokenType, now) {
      LatestExists(init, userId, tokenType, now);
      var m :| IsLatest(init, m, userId, tokenType, now);
      if Qualifies(rows[n], userId, tokenType, now) && rows[n].expires_at > rows[m].expires_at {
        assert IsLatest(rows, n, userId, tokenType, now);
      } else {
        assert IsLatest(rows, m, userId, tokenType, now);
      }
    } else {
      assert IsLatest(rows, n, userId, tokenType, now);
    }
  }

  /** Every token type fits the `token_type` column. */
  lemma TokenTypesFitColumn(t: string)
    requires t in TokenTypes.Values()
    ensures |t| <= TokenTypes.TokenTypeColumnWidth
  {
  }

  /** The check the `tokens` table applies to an insert; `isUuid` is the
      database's parsing of a `uuid` value, the type of `user_id`. */
  function InsertCheck(r: TokenRecord, isUuid: string -> bool): (e: Option<DbError>)
    ensures e.None? <==> && r.user_id.Some? && isUuid(r.user_id.value)
                         && r.token.Some? && r.token_type.Some? && r.expires_at.Some?
                         && |r.token_type.value| <= TokenTypes.TokenTypeColumnWidth
    ensures r.user_id.Some? && !isUuid(r.user_id.value) ==> e == Some(InvalidUuid("user_id"))
  {
    if r.user_id.None? then Some(NotNullViolation("user_id"))
    else if !isUuid(r.user_id.value) then Some(InvalidUuid("user_id"))
    else if r.token.None? then Some(NotNullViolation("token"))
    else if r.token_type.None? then Some(NotNullViolation("token_type"))
    else if r.expires_at.None? then Some(NotNullViolation("expires_at"))
    else if |r.token_type.value| > TokenTypes.TokenTypeColumnWidth then Some(ValueTooLong("token_type"))
    else None
  }

  class TokenTable {
    var rows: seq<TokenRow>
    /** The next value of the `id` sequence. */
    var nextId: int

    /** Ids come from the sequence: each is below the next value. */
    predicate Valid()
      reads this
    {
      forall i :: 0 <= i < |rows| ==> rows[i].id < nextId
    }

    constructor()
      ensures Valid() && rows == [] && nextId == 1
    {
      rows := [];
      nextId := 1;
    }

    /** `save(token)` at time `now`: inserts every field but the id and
        returns the id the table generated. A refused insert stores nothing,
        but may have used up a value of the id sequence. */
    method Save(t: Token, now: Time, isUuid: string -> bool) returns (r: Result<int, DbError>)
      requires Valid()
      modifies this
      ensures Valid()
      ensures r.Err? <==> InsertCheck(ToDatabase(t), isUuid).Some?
      ensures r.Err? ==> r.error == InsertCheck(ToDatabase(t), isUuid).value
                         && rows == old(rows) && nextId >= old(nextId)
      ensures r.Ok? ==> && r.value == old(nextId)
                        && nextId == old(nextId) + 1
                        && rows == old(rows) + [TokenRow(r.value, t.userId.value, t.token.value,
                             t.tokenType.value, t.expiresAt.value,
                             t.createdAt.GetOr(now), t.updatedAt.GetOr(now))]
      // the new id is fresh: no earlier row carries it
      ensures r.Ok? ==> forall i :: 0 <= i < |old(rows)| ==> old(rows)[i].id != r.value
    {
      var record := TokenRecord(None, t.userId, t.token, t.tokenType, t.expiresAt, t.createdAt, t.updatedAt);
      var check := InsertCheck(record, isUuid);
      if check.Some? {
        nextId := nextId + 1;
        return Err(check.value);
      }
      var row := TokenRow(nextId, t.userId.value, t.token.value, t.tokenType.value, t.expiresAt.value,
                          t.createdAt.GetOr(now), t.updatedAt.GetOr(now));
      rows := rows + [row];
      r := Ok(nextId);
      nextId := nextId + 1;
    }

    /** `findByUserId(userId, tokenType)` at time `now`: a qualifying row
        with the latest expiry, as a token, or `null`. Rows that expire at
        the same time are not ordered, so which of them comes back is left
        open. */
    method FindByUserId(userId: string, tokenType: string, now: Time) returns (r: Option<Token>)
      ensures r.None? <==> !AnyQualifies(rows, userId, tokenType, now)
      ensures r.Some? ==> exists i :: IsLatest(rows, i, userId, tokenType, now) && r.value == ToDomain(Fetched(rows[i]), now)
      // a returned token is of the requested user and type and has not expired
      ensures r.Some? ==> r.value.userId == Some(userId) && r.value.tokenType == Some(tokenType)
      ensures r.Some? ==> r.value.expiresAt.Some? && r.value.expiresAt.value > now
    {
      if !AnyQualifies(rows, userId, tokenType, now) {
        return None;
      }
      LatestExists(rows, userId, tokenType, now);
      var i :| IsLatest(rows, i, userId, tokenType, now);
      r := Some(ToDomain(Fetched(rows[i]), now));
    }
  }

  /** Every token type can be saved with a complete token of a user whose
      id is a valid uuid. */
  method SaveEveryTokenType(userId: string, now: Time, expiry: Time, isUuid: string -> bool) returns (ids: seq<int>)
    requires isUuid(userId)
    ensures |ids| == |TokenTypes.Values()|
    ensures forall i, j :: 0 <= i < j < |ids| ==> ids[i] < ids[j]
  {
    var table := new TokenTable();
    ids := [];
    var k := 0;
    while k < |TokenTypes.Values()|
      invariant 0 <= k <= |TokenTypes.Values()|
      invariant table.Valid() && |ids| == k
      invariant forall i, j :: 0 <= i < j < |ids| ==> ids[i] < ids[j]
      invariant forall i :: 0 <= i < |ids| ==> ids[i] < table.nextId
    {
      var kind := TokenTypes.Values()[k];
      var saved := table.Save(Token(None, Some(userId), Some("secret"), Some(kind), Some(expiry), None, None), now, isUuid);
      ids := ids + [saved.value];
      k := k + 1;
    }
  }
}
