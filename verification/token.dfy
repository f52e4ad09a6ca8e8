/** The closed set of token kinds. */
module TokenTypes {
  const Access := "access"
  const OneTimeToken := "ott"
  const RefreshToken := "refresh"

  /** Width of the `token_type` column of the `tokens` table. */
  const TokenTypeColumnWidth := 20

  /** `TokenType.values()`. */
  function Values(): (vs: seq<string>)
    ensures |vs| == 3 && vs[0] == Access && vs[1] == OneTimeToken && vs[2] == RefreshToken
    ensures forall i, j :: 0 <= i < j < |vs| ==> vs[i] != vs[j]
    ensures forall v :: v in vs ==> 0 < |v| <= TokenTypeColumnWidth
  {
    [Access, OneTimeToken, RefreshToken]
  }
}

/** The token entity: a record whose factory only fills defaults. */
module TokenDomain {
  import opened Common

  /** A token; an absent (or `null`) field is `None`. The user id is the
      string the `tokens.user_id` column holds. */
  datatype Token = Token(
    id: Option<int>,
    userId: Option<string>,
    token: Option<string>,
    tokenType: Option<string>,
    expiresAt: Option<Time>,
    createdAt: Option<Time>,
    updatedAt: Option<Time>)
  {
    /** `getToken()`. */
    function GetToken(): Option<string> { token }

    /** `getExpiresAt()`. */
    function GetExpiresAt(): Option<Time> { expiresAt }

    /** `getTokenType()`. */
    function GetTokenType(): Option<string> { tokenType }
  }

  /** `Token.create(props)` at time `now`. */
  function Create(p: Token, now: Time): (t: Token)
    // the payload is kept exactly, with no validation of any kind
    ensures t.userId == p.userId && t.token == p.token
    ensures t.tokenType == p.tokenType && t.expiresAt == p.expiresAt
    // a missing id stays missing (`null`), a present one is kept
    ensures t.id == p.id
    // the timestamps default to now only when they are missing
    ensures p.createdAt.Some? ==> t.createdAt == p.createdAt
    ensures p.updatedAt.Some? ==> t.updatedAt == p.updatedAt
    ensures p.createdAt.None? ==> t.createdAt == Some(now)
    ensures p.updatedAt.None? ==> t.updatedAt == Some(now)
  {
    p.(createdAt := Some(p.createdAt.GetOr(now)), updatedAt := Some(p.updatedAt.GetOr(now)))
  }

  /** A created token is a fixed point of `create`. */
  lemma CreateIsIdempotent(p: Token, now: Time, later: Time)
    ensures Create(Create(p, now), later) == Create(p, now)
  {
  }

  /** The getters read back what was given to `create`, an empty token and
      an unknown type included. */
  lemma GettersAfterCreate(p: Token, now: Time)
    ensures Create(p, now).GetToken() == p.token
    ensures Create(p, now).GetExpiresAt() == p.expiresAt
    ensures Create(p, now).GetTokenType() == p.tokenType
  {
  }
}
