/** The older authentication service over the in-memory user store: no
    guard in front of bcrypt, plain errors, and the full stored user in the
    login answer. */
module LegacyAuthService {
  import opened Common
  import opened Http
  import opened InMemoryUsers

  const InvalidCredentials := "Invalid email or password"

  /** `Auth.hashPassword(password)` of the older back end: bcrypt with no
      guard, so the empty string is hashed like any other; anything but a
      string is refused by bcrypt. */
  function HashPassword(password: Option<Json>, hash: string -> string): (r: Result<string, Thrown>)
    ensures r.Ok? <==> password.Some? && password.value.JStr?
    ensures r.Ok? ==> r.value == hash(password.value.s)
    ensures r.Err? ==> r.error == LibraryError
  {
    if password.Some? && password.value.JStr? then Ok(hash(password.value.s)) else Err(LibraryError)
  }

  /** `Auth.verifyPassword(password, hash)` of the older back end: bcrypt's
      compare, which refuses anything but two strings. */
  function VerifyPassword(password: Option<Json>, hashed: Option<Json>, verify: (string, string) -> bool)
    : (r: Result<bool, Thrown>)
    ensures r.Ok? <==> password.Some? && password.value.JStr? && hashed.Some? && hashed.value.JStr?
    ensures r.Ok? ==> r.value == verify(password.value.s, hashed.value.s)
    ensures r.Err? ==> r.error == LibraryError
  {
    if password.Some? && password.value.JStr? && hashed.Some? && hashed.value.JStr? then
      Ok(verify(password.value.s, hashed.value.s))
    else Err(LibraryError)
  }

  /** What `loginUser` answers on success: the stored user object itself
      and the token. */
  datatype LoginResult = LoginResult(user: JsObject, token: string)

  class LegacyAuthService {
    const userRepository: InMemoryUserRepository

    constructor(repository: InMemoryUserRepository)
      ensures userRepository == repository
    {
      userRepository := repository;
    }

    /** `registerUser(userData)`: a new object with every field of
        `userData` and the hash as its password, saved and returned. */
    method RegisterUser(userData: map<string, Json>, hash: string -> string) returns (r: Result<JsObject, Thrown>)
      requires userRepository.Valid()
      modifies userRepository
      ensures userRepository.Valid()
      ensures r.Err? <==> HashPassword(Get(userData, "password"), hash).Err?
      ensures r.Err? ==> r.error == LibraryError && unchanged(userRepository)
      ensures r.Ok? ==> && fresh(r.value)
                        && |userRepository.users| == |old(userRepository.users)| + 1
                        && userRepository.users[|userRepository.users| - 1] == r.value
      // without a truthy id: the counter's value as id, the counter moves
      // on, and the earlier users stay as they were
      ensures r.Ok? && !Truthy(Get(userData, "id")) ==>
        && userRepository.currentId == old(userRepository.currentId) + 1
        && userRepository.issued == old(userRepository.issued) + [old(userRepository.currentId)]
        && userRepository.users == old(userRepository.users) + [r.value]
      // with a truthy id: the counter stays, and the first user with that
      // id is replaced by the new one before it is appended
      ensures r.Ok? && Truthy(Get(userData, "id")) ==>
        && userRepository.currentId == old(userRepository.currentId)
        && userRepository.issued == old(userRepository.issued)
        && var k := old(FindIndex(userRepository.users, "id", Get(userData, "id")));
           userRepository.users == (if k >= 0 then old(userRepository.users)[k := r.value]
                                    else old(userRepository.users)) + [r.value]
      // the stored object: userData, the hash as password, and the id
      // the store assigns when userData brought no truthy id
      ensures r.Ok? ==>
        var stored := userData["password" := JStr(hash(Get(userData, "password").value.s))];
        r.value.props == (if Truthy(Get(userData, "id")) then stored
                          else stored["id" := JNum(old(userRepository.currentId))])
    {
      var hashed := HashPassword(Get(userData, "password"), hash);
      if hashed.Err? {
        return Err(hashed.error);
      }
      ghost var k := FindIndex(userRepository.users, "id", Get(userData, "id"));
      var newUser := new JsObject(userData["password" := JStr(hashed.value)]);
      assert Get(newUser.props, "id") == Get(userData, "id");
      assert FindIndex(userRepository.users, "id", Get(userData, "id")) == k;
      var saved := userRepository.Save(newUser);
      r := Ok(saved);
    }

    /** `loginUser(email, password)`, where `verify` is bcrypt's compare and
        `sign` the JWT signer; `signed` lists the payloads signed. */
    method LoginUser(email: Option<Json>, password: Option<Json>,
                     verify: (string, string) -> bool, sign: Claims -> string)
      returns (r: Result<LoginResult, Thrown>, signed: seq<Claims>)
      // an unknown email: a plain error with the shared message
      ensures userRepository.FindByEmail(email).None? ==> r == Err(PlainError(InvalidCredentials, None))
      ensures r.Err? ==> signed == []
      // a wrong password: the same plain error
      ensures userRepository.FindByEmail(email).Some? &&
              VerifyPassword(password, Field(userRepository.FindByEmail(email).value, "password"), verify) == Ok(false) ==>
              r == Err(PlainError(InvalidCredentials, None))
      // success: the stored object itself, hashed password included, and a
      // token signed over exactly its id and email
      ensures r.Ok? <==>
        && userRepository.FindByEmail(email).Some?
        && VerifyPassword(password, Field(userRepository.FindByEmail(email).value, "password"), verify) == Ok(true)
      ensures r.Ok? ==>
        var user := userRepository.FindByEmail(email).value;
        && r.value.user == user
        && signed == [Claims(Field(user, "id"), Field(user, "email"))]
        && r.value.token == sign(Claims(Field(user, "id"), Field(user, "email")))
    {
      signed := [];
      var found := userRepository.FindByEmail(email);
      if found.None? {
        return Err(PlainError(InvalidCredentials, None)), [];
      }
      var user := found.value;
      var valid := VerifyPassword(password, Field(user, "password"), verify);
      if valid.Err? {
        return Err(valid.error), [];
      }
      if !valid.value {
        return Err(PlainError(InvalidCredentials, None)), [];
      }
      var claims := Claims(Field(user, "id"), Field(user, "email"));
      var token := sign(claims);
      r := Ok(LoginResult(user, token));
      signed := [claims];
    }
  }

  /** Registering stores the request body as it came, so the re-typed
      password stays in the store in plain text next to the hash. */
  method RetypedPasswordStaysInPlainText(p: string, hash: string -> string) returns (stored: JsObject)
    ensures Field(stored, "retypePassword") == Some(JStr(p))
    ensures Field(stored, "password") == Some(JStr(hash(p)))
    ensures Field(stored, "id") == Some(JNum(1))
  {
    var repo := new InMemoryUserRepository();
    var service := new LegacyAuthService(repo);
    var body := map["name" := JStr("Ann"), "email" := JStr("ann@example.com"),
                    "password" := JStr(p), "retypePassword" := JStr(p)];
    var r := service.RegisterUser(body, hash);
    stored := r.value;
  }

  /** After registering, the same email and password log in, given that
      bcrypt verifies a password against its own hash; the answer is the
      stored object, and the token is signed over its id and email. */
  method RegisterThenLogin(p: string, hash: string -> string, verify: (string, string) -> bool, sign: Claims -> string)
    returns (registered: JsObject, result: Result<LoginResult, Thrown>, signed: seq<Claims>)
    requires verify(p, hash(p))
    ensures result.Ok? && result.value.user == registered
    ensures signed == [Claims(Some(JNum(1)), Some(JStr("ann@example.com")))]
  {
    var repo := new InMemoryUserRepository();
    var service := new LegacyAuthService(repo);
    var body := map["name" := JStr("Ann"), "email" := JStr("ann@example.com"),
                    "password" := JStr(p), "retypePassword" := JStr(p)];
    var r := service.RegisterUser(body, hash);
    registered := r.value;
    assert repo.users == [registered];
    assert FindIndex(repo.users, "email", Some(JStr("ann@example.com"))) == 0;
    result, signed := service.LoginUser(Some(JStr("ann@example.com")), Some(JStr(p)), verify, sign);
  }
}
