/** The guards the API puts in front of bcrypt. Hashing and comparing
    themselves are the parameters `hash` and `verify`. */
module Passwords {
  import opened Common
  import opened Http

  const PasswordEmpty := "Password cannot be empty"
  const HashEmpty := "Hash password cannot be empty"

  /** `!v || v.length <= 0`: a falsy value, an array without elements, or
      an object whose `length` property is at most 0 as JavaScript compares
      it. A truthy string has a positive length, and a number, `true` or an
      object without `length` reads `undefined`, which is never at most 0. */
  predicate Empty(v: Option<Json>)
    ensures v.Some? && v.value.JStr? ==> (Empty(v) <==> v.value.s == "")
    ensures v.Some? && v.value.JNum? ==> (Empty(v) <==> v.value.n == 0)
    ensures v.Some? && v.value.JObj? ==>
      (Empty(v) <==> "length" in v.value.fields && AtMostZero(v.value.fields["length"]))
  {
    || !Truthy(v)
    || (v.value.JArr? && v.value.items == [])
    || (v.value.JObj? && "length" in v.value.fields && AtMostZero(v.value.fields["length"]))
  }

  /** An object standing in for a password is empty exactly when its
      `length` is at most 0. */
  lemma LengthObjectEmptyIff(len: Json)
    ensures Empty(Some(JObj(map["length" := len]))) <==> AtMostZero(len)
  {
    assert "length" in map["length" := len];
  }

  /** An object standing in for a password whose `length` is 0, `null`,
      `false` or `[]` is refused as empty. */
  lemma ZeroLengthObjectsAreEmpty()
    ensures Empty(Some(JObj(map["length" := JNum(0)])))
    ensures Empty(Some(JObj(map["length" := JNull])))
    ensures Empty(Some(JObj(map["length" := JBool(false)])))
    ensures Empty(Some(JObj(map["length" := JArr([])])))
  {
    TextOfTrimmed("");
    assert JoinedText(JArr([])) == "";
    LengthObjectEmptyIff(JArr([]));
  }

  /** A `length` written as digits is empty exactly when they are all
      zeros, and always when a minus sign comes before them. */
  lemma DigitTextLengthObjects(d: string)
    requires AllDigits(d)
    ensures Empty(Some(JObj(map["length" := JStr(d)]))) <==> AllZeros(d)
    ensures Empty(Some(JObj(map["length" := JStr("-" + d)])))
  {
    DigitTextAtMostZero(d);
    LengthObjectEmptyIff(JStr(d));
    LengthObjectEmptyIff(JStr("-" + d));
  }

  /** An object whose `length` is a positive number, or an array holding
      one, passes the guard and reaches bcrypt, which refuses it. */
  lemma PositiveLengthObjectsReachBcrypt(n: int, hash: string -> string)
    requires n > 0
    ensures HashPassword(Some(JObj(map["length" := JNum(n)])), hash) == Err(LibraryError)
    ensures HashPassword(Some(JObj(map["length" := JArr([JNum(n)])])), hash) == Err(LibraryError)
  {
    NumberTextAtMostZero(n);
    LengthObjectEmptyIff(JNum(n));
    LengthObjectEmptyIff(JArr([JNum(n)]));
  }

  /** So does an object whose `length` is text that is not a number. */
  lemma TextLengthObjectReachesBcrypt(hash: string -> string)
    ensures HashPassword(Some(JObj(map["length" := JStr("abc")])), hash) == Err(LibraryError)
  {
    TextOfTrimmed("abc");
    LengthObjectEmptyIff(JStr("abc"));
  }

  /** `Auth.hashPassword(password)`: the guard, then bcrypt, which refuses
      anything but a string. */
  function HashPassword(password: Option<Json>, hash: string -> string): (r: Result<string, Thrown>)
    ensures Empty(password) ==> r == Err(PlainError(PasswordEmpty, None))
    ensures r.Ok? <==> password.Some? && password.value.JStr? && password.value.s != ""
    ensures r.Ok? ==> r.value == hash(password.value.s)
    ensures !Empty(password) && r.Err? ==> r == Err(LibraryError)
  {
    if Empty(password) then Err(PlainError(PasswordEmpty, None))
    else if password.value.JStr? then Ok(hash(password.value.s))
    else Err(LibraryError)
  }

  /** `Auth.verifyPassword(password, hashPassword)`: the password is checked
      first, then the hash, then bcrypt compares two strings. */
  function VerifyPassword(password: Option<Json>, hashed: Option<Json>, verify: (string, string) -> bool)
    : (r: Result<bool, Thrown>)
    ensures Empty(password) ==> r == Err(PlainError(PasswordEmpty, None))
    ensures !Empty(password) && Empty(hashed) ==> r == Err(PlainError(HashEmpty, None))
    ensures r.Ok? <==> && password.Some? && password.value.JStr? && password.value.s != ""
                       && hashed.Some? && hashed.value.JStr? && hashed.value.s != ""
    ensures r.Ok? ==> r.value == verify(password.value.s, hashed.value.s)
  {
    if Empty(password) then Err(PlainError(PasswordEmpty, None))
    else if Empty(hashed) then Err(PlainError(HashEmpty, None))
    else if password.value.JStr? && hashed.value.JStr? then Ok(verify(password.value.s, hashed.value.s))
    else Err(LibraryError)
  }

  /** Whatever hash bcrypt produced for a password, that password verifies
      against it as long as bcrypt does. */
  lemma HashThenVerify(p: string, hash: string -> string, verify: (string, string) -> bool)
    requires p != "" && hash(p) != ""
    requires verify(p, hash(p))
    ensures VerifyPassword(Some(JStr(p)), Some(JStr(HashPassword(Some(JStr(p)), hash).value)), verify) == Ok(true)
  {
  }
}

/** The API's authentication service over an abstract user repository,
    bcrypt and a JWT signer. */
module AuthService {
  import opened Common
  import opened Http
  import opened Passwords

  const InvalidCredentials := "Invalid email or password"

  /** What `registerUser` answers: `{id, name, email}` of the new user. */
  datatype PublicUser = PublicUser(id: Option<Json>, name: Option<Json>, email: Option<Json>)

  /** What `registerUser` does: its answer and the objects it passed to the
      repository's `save`. */
  datatype RegisterOutcome = RegisterOutcome(result: Result<PublicUser, Thrown>, saved: seq<map<string, Json>>)

  /** `registerUser(userData)`: hashes the password, hands the user with
      the hash in place of the password to `save` without awaiting it, and
      answers with the fields of `userData` the client may see. The id the
      repository assigns is never read back. */
  function RegisterUser(userData: map<string, Json>, hash: string -> string): (o: RegisterOutcome)
    // a password hashing refuses stops everything before `save`
    ensures HashPassword(Get(userData, "password"), hash).Err? ==>
      o.saved == [] && o.result == Err(HashPassword(Get(userData, "password"), hash).error)
    ensures Empty(Get(userData, "password")) ==> o.result == Err(PlainError(PasswordEmpty, None)) && o.saved == []
    // otherwise exactly one save, of userData with the hash as its password
    ensures o.result.Ok? <==> |o.saved| == 1
    ensures o.result.Ok? ==> && "password" in o.saved[0]
                             && o.saved[0]["password"] == JStr(hash(Get(userData, "password").value.s))
                             && forall k :: k in userData && k != "password" ==> k in o.saved[0] && o.saved[0][k] == userData[k]
    ensures o.result.Ok? ==> o.saved[0].Keys == userData.Keys + {"password"}
    // the answer is id, name and email of userData, and never the password
    ensures o.result.Ok? ==>
      o.result.value == PublicUser(Get(userData, "id"), Get(userData, "name"), Get(userData, "email"))
  {
    var hashed := HashPassword(Get(userData, "password"), hash);
    if hashed.Err? then RegisterOutcome(Err(hashed.error), [])
    else
      var newUser := userData["password" := JStr(hashed.value)];
      RegisterOutcome(Ok(PublicUser(Get(newUser, "id"), Get(newUser, "name"), Get(newUser, "email"))), [newUser])
  }

  /** A registration body as the schema admits it has no id, so the
      answer's id is `undefined`. */
  lemma RegisteredIdIsUndefined(userData: map<string, Json>, hash: string -> string)
    requires "id" !in userData
    requires RegisterUser(userData, hash).result.Ok?
    ensures RegisterUser(userData, hash).result.value.id.None?
  {
  }

  /** What `loginUser` answers on success. */
  datatype LoginResult = LoginResult(user: PublicUser, token: string)

  /** What `loginUser` does: its answer and the payloads it asked the
      signer to sign. */
  datatype LoginOutcome = LoginOutcome(result: Result<LoginResult, Thrown>, signed: seq<Claims>)

  /** `loginUser(email, password)`, where `findByEmail` is the repository's
      lookup, `verify` bcrypt's compare and `sign` the JWT signer. */
  function LoginUser(email: Option<Json>, password: Option<Json>,
                     findByEmail: Option<Json> -> Option<map<string, Json>>,
                     verify: (string, string) -> bool, sign: Claims -> string): (o: LoginOutcome)
    // an unknown email: 401 with the shared message, and nothing signed
    ensures findByEmail(email).None? ==> o == LoginOutcome(Err(HttpError(InvalidCredentials, 401)), [])
    // nothing is signed unless the login succeeds
    ensures o.result.Err? ==> o.signed == []
    // a known email with a wrong password: the very same error
    ensures findByEmail(email).Some? &&
            VerifyPassword(password, Get(findByEmail(email).value, "password"), verify) == Ok(false) ==>
            o.result == Err(HttpError(InvalidCredentials, 401))
    // success: exactly one token, signed over id and email of the user found
    ensures o.result.Ok? <==>
      findByEmail(email).Some? && VerifyPassword(password, Get(findByEmail(email).value, "password"), verify) == Ok(true)
    ensures o.result.Ok? ==>
      var user := findByEmail(email).value;
      && o.signed == [Claims(Get(user, "id"), Get(user, "email"))]
      && o.result.value == LoginResult(PublicUser(Get(user, "id"), Get(user, "name"), Get(user, "email")),
                                       sign(Claims(Get(user, "id"), Get(user, "email"))))
  {
    var found := findByEmail(email);
    if found.None? then LoginOutcome(Err(HttpError(InvalidCredentials, 401)), [])
    else
      var user := found.value;
      var valid := VerifyPassword(password, Get(user, "password"), verify);
      if valid.Err? then LoginOutcome(Err(valid.error), [])
      else if !valid.value then LoginOutcome(Err(HttpError(InvalidCredentials, 401)), [])
      else
        var claims := Claims(Get(user, "id"), Get(user, "email"));
        LoginOutcome(Ok(LoginResult(PublicUser(Get(user, "id"), Get(user, "name"), Get(user, "email")), sign(claims))),
                     [claims])
  }

  /** An unknown email and a wrong password cannot be told apart by their
      errors. */
  lemma LoginFailuresIndistinguishable(
    email1: Option<Json>, password1: Option<Json>, email2: Option<Json>, password2: Option<Json>,
    findByEmail: Option<Json> -> Option<map<string, Json>>, verify: (string, string) -> bool, sign: Claims -> string)
    requires findByEmail(email1).None?
    requires findByEmail(email2).Some?
    requires VerifyPassword(password2, Get(findByEmail(email2).value, "password"), verify) == Ok(false)
    ensures LoginUser(email1, password1, findByEmail, verify, sign) ==
            LoginUser(email2, password2, findByEmail, verify, sign)
  {
  }

  /** A user registered with password `p` and later handed back by the
      repository logs in with `p`, as long as bcrypt verifies `p` against its
      own hash; the token is signed over the registered id and email. */
  lemma RegisterThenLogin(userData: map<string, Json>, p: string, hash: string -> string,
                          findByEmail: Option<Json> -> Option<map<string, Json>>,
                          verify: (string, string) -> bool, sign: Claims -> string)
    requires Get(userData, "password") == Some(JStr(p)) && p != "" && hash(p) != ""
    requires verify(p, hash(p))
    requires findByEmail(Get(userData, "email")) == Some(RegisterUser(userData, hash).saved[0])
    ensures var o := LoginUser(Get(userData, "email"), Some(JStr(p)), findByEmail, verify, sign);
            && o.result.Ok?
            && o.signed == [Claims(Get(userData, "id"), Get(userData, "email"))]
            && o.result.value.user == RegisterUser(userData, hash).result.value
  {
    var saved := RegisterUser(userData, hash).saved[0];
    assert saved == userData["password" := JStr(hash(p))];
    assert Get(saved, "password") == Some(JStr(hash(p)));
  }

  /** `loginUser` reads `password` from the user it finds, while the user
      entity keeps its hash under `passwordHash`: such a user never logs in,
      whatever the password, and nothing is signed. */
  lemma LoginReadsPasswordNotPasswordHash(
    email: Option<Json>, p: string, findByEmail: Option<Json> -> Option<map<string, Json>>,
    verify: (string, string) -> bool, sign: Claims -> string)
    requires p != ""
    requires findByEmail(email).Some? && "password" !in findByEmail(email).value
    ensures LoginUser(email, Some(JStr(p)), findByEmail, verify, sign) ==
            LoginOutcome(Err(PlainError(HashEmpty, None)), [])
  {
  }

  /** `forgotPassword(email)`: not written yet; it resolves to `undefined`. */
  function ForgotPassword(email: Option<Json>): (r: Result<Option<Json>, Thrown>)
    ensures r == Ok(None)
  {
    Ok(None)
  }

  /** `verifyEmail(email, otp)`: not written yet; it resolves to `undefined`. */
  function VerifyEmail(email: Option<Json>, otp: Option<Json>): (r: Result<Option<Json>, Thrown>)
    ensures r == Ok(None)
  {
    Ok(None)
  }
}
