/** The subset of JSON Schema the request-body schemas use, and what it
    means for a body to satisfy such a schema. The `email` format check is
    ajv's and stays abstract: every check takes it as the parameter
    `isEmail`. */
module RequestSchemas {
  import opened Common

  /** A property of `type: "string"` with an optional `minLength` (0 when
      absent) and an optional `format: "email"`. */
  datatype StringRule = StringRule(minLength: nat, emailFormat: bool)

  /** The `if`/`then` pair that compares two properties:
      `if: {properties: {ref: {type: "string"}}}`,
      `then: {properties: {prop: {const: {$data: "1/ref"}}}}`. */
  datatype SameAs = SameAs(prop: string, ref: string)

  /** A `type: "object"` request schema. */
  datatype ObjectSchema = ObjectSchema(
    properties: map<string, StringRule>,
    required: seq<string>,
    additionalProperties: bool,
    ifThen: Option<SameAs>)

  predicate StringOk(rule: StringRule, v: Json, isEmail: string -> bool) {
    v.JStr? && |v.s| >= rule.minLength && (rule.emailFormat ==> isEmail(v.s))
  }

  /** The `if` part holds when `ref` is absent or a string; the `then` part
      holds when `prop` is absent, when the `$data` reference resolves to
      nothing, or when `prop` is deeply equal to `ref`. */
  predicate IfThenOk(c: SameAs, fields: map<string, Json>) {
    var ifHolds := c.ref !in fields || fields[c.ref].JStr?;
    var thenHolds := c.prop !in fields || c.ref !in fields || fields[c.prop] == fields[c.ref];
    ifHolds ==> thenHolds
  }

  /** Whether `body` validates against schema `s`. */
  predicate Accepts(s: ObjectSchema, body: Json, isEmail: string -> bool) {
    && body.JObj?
    && (forall k :: k in s.required ==> k in body.fields)
    && (s.additionalProperties || body.fields.Keys <= s.properties.Keys)
    && (forall k :: k in s.properties && k in body.fields ==> StringOk(s.properties[k], body.fields[k], isEmail))
    && (s.ifThen.Some? ==> IfThenOk(s.ifThen.value, body.fields))
  }

  /** Field `k` is a string of at least `n` characters. */
  predicate StringAtLeast(f: map<string, Json>, k: string, n: nat) {
    k in f && f[k].JStr? && |f[k].s| >= n
  }

  /** Field `k` is a non-empty string in email format. */
  predicate EmailField(f: map<string, Json>, k: string, isEmail: string -> bool) {
    StringAtLeast(f, k, 1) && isEmail(f[k].s)
  }

  /** Field `k` is a string in email format, possibly empty. */
  predicate EmailFormatField(f: map<string, Json>, k: string, isEmail: string -> bool) {
    StringAtLeast(f, k, 0) && isEmail(f[k].s)
  }

  /** An accepted body with no extra property has exactly the keys of
      `required`, when `required` lists every property. */
  lemma AcceptedKeys(s: ObjectSchema, body: Json, isEmail: string -> bool)
    requires Accepts(s, body, isEmail)
    requires !s.additionalProperties
    requires forall k :: k in s.properties ==> k in s.required
    ensures body.fields.Keys == s.properties.Keys
  {
  }
}

/** The request-body schemas of the API: register, reset password, login,
    forgot password, validate email and resend the confirmation email. */
module ApiRequestSchemas {
  import opened Common
  import opened RequestSchemas

  const RegisterRequest := ObjectSchema(
    map[
      "username" := StringRule(1, false),
      "email" := StringRule(1, true),
      "password" := StringRule(6, false),
      "retypePassword" := StringRule(1, false)],
    ["username", "email", "password", "retypePassword"],
    false,
    Some(SameAs("retypePassword", "password")))

  /** `registerRequestSchema`: exactly the four properties; a non-empty
      username; a non-empty email; a password of six or more characters; a
      non-empty re-typed password equal to the password. */
  lemma {:induction false} RegisterRequestAccepts(body: Json, isEmail: string -> bool)
    ensures Accepts(RegisterRequest, body, isEmail) <==>
      && body.JObj?
      && body.fields.Keys == {"username", "email", "password", "retypePassword"}
      && StringAtLeast(body.fields, "username", 1)
      && EmailField(body.fields, "email", isEmail)
      && StringAtLeast(body.fields, "password", 6)
      && StringAtLeast(body.fields, "retypePassword", 1)
      && body.fields["retypePassword"] == body.fields["password"]
  {
    var s := RegisterRequest;
    if body.JObj? {
      var f := body.fields;
      assert s.properties.Keys == {"username", "email", "password", "retypePassword"};
      assert forall k :: k in s.required <==> k in s.properties.Keys;
      if Accepts(s, body, isEmail) {
        AcceptedKeys(s, body, isEmail);
      }
    }
  }

  const ResetPasswordRequest := ObjectSchema(
    map[
      "email" := StringRule(1, true),
      "password" := StringRule(6, false),
      "retypePassword" := StringRule(1, false),
      "token" := StringRule(1, false)],
    ["email", "password", "retypePassword", "token"],
    false,
    Some(SameAs("retypePassword", "password")))

  /** `resetPasswordRequestSchema`: exactly the four properties; a non-empty
      email; a password of six or more characters; a re-typed password equal
      to it; a non-empty token. */
  lemma {:induction false} ResetPasswordRequestAccepts(body: Json, isEmail: string -> bool)
    ensures Accepts(ResetPasswordRequest, body, isEmail) <==>
      && body.JObj?
      && body.fields.Keys == {"email", "password", "retypePassword", "token"}
      && EmailField(body.fields, "email", isEmail)
      && StringAtLeast(body.fields, "password", 6)
      && StringAtLeast(body.fields, "retypePassword", 1)
      && body.fields["retypePassword"] == body.fields["password"]
      && StringAtLeast(body.fields, "token", 1)
  {
    var s := ResetPasswordRequest;
    if body.JObj? {
      assert s.properties.Keys == {"email", "password", "retypePassword", "token"};
      assert forall k :: k in s.required <==> k in s.properties.Keys;
      if Accepts(s, body, isEmail) {
        AcceptedKeys(s, body, isEmail);
      }
    }
  }

  const LoginRequest := ObjectSchema(
    map["email" := StringRule(1, true), "password" := StringRule(1, false)],
    ["email", "password"],
    false,
    None)

  /** `loginRequestSchema`: exactly email and password; a non-empty email;
      a password of one or more characters. */
  lemma {:induction false} LoginRequestAccepts(body: Json, isEmail: string -> bool)
    ensures Accepts(LoginRequest, body, isEmail) <==>
      && body.JObj?
      && body.fields.Keys == {"email", "password"}
      && EmailField(body.fields, "email", isEmail)
      && StringAtLeast(body.fields, "password", 1)
  {
    var s := LoginRequest;
    if body.JObj? {
      assert s.properties.Keys == {"email", "password"};
      assert forall k :: k in s.required <==> k in s.properties.Keys;
      if Accepts(s, body, isEmail) {
        AcceptedKeys(s, body, isEmail);
      }
    }
  }

  /** There is no six-character minimum at login: a one-character password
      is accepted. */
  lemma LoginAcceptsOneCharacterPassword(email: string, isEmail: string -> bool)
    requires email != "" && isEmail(email)
    ensures Accepts(LoginRequest, JObj(map["email" := JStr(email), "password" := JStr("x")]), isEmail)
  {
  }

  const ForgotPasswordRequest := ObjectSchema(
    map["email" := StringRule(1, true)],
    ["email"],
    false,
    None)

  /** `forgotPasswordRequestSchema`: the email alone, non-empty. */
  lemma {:induction false} ForgotPasswordRequestAccepts(body: Json, isEmail: string -> bool)
    ensures Accepts(ForgotPasswordRequest, body, isEmail) <==>
      && body.JObj?
      && body.fields.Keys == {"email"}
      && EmailField(body.fields, "email", isEmail)
  {
    var s := ForgotPasswordRequest;
    if body.JObj? {
      assert s.properties.Keys == {"email"};
      assert forall k :: k in s.required <==> k in s.properties.Keys;
      if Accepts(s, body, isEmail) {
        AcceptedKeys(s, body, isEmail);
      }
    }
  }

  const ValidateEmailRequest := ObjectSchema(
    map["email" := StringRule(1, true), "token" := StringRule(1, false)],
    ["email", "token"],
    false,
    None)

  /** `validateEmailRequestSchema`: exactly email and token, both non-empty. */
  lemma {:induction false} ValidateEmailRequestAccepts(body: Json, isEmail: string -> bool)
    ensures Accepts(ValidateEmailRequest, body, isEmail) <==>
      && body.JObj?
      && body.fields.Keys == {"email", "token"}
      && EmailField(body.fields, "email", isEmail)
      && StringAtLeast(body.fields, "token", 1)
  {
    var s := ValidateEmailRequest;
    if body.JObj? {
      assert s.properties.Keys == {"email", "token"};
      assert forall k :: k in s.required <==> k in s.properties.Keys;
      if Accepts(s, body, isEmail) {
        AcceptedKeys(s, body, isEmail);
      }
    }
  }

  const ResendEmailConfirmationRequest := ObjectSchema(
    map["email" := StringRule(1, true)],
    ["email"],
    false,
    None)

  /** `resendEmailConfirmationRequestSchema`: the email alone, a non-empty
      string; an empty object is refused. */
  lemma {:induction false} ResendEmailConfirmationRequestAccepts(body: Json, isEmail: string -> bool)
    ensures Accepts(ResendEmailConfirmationRequest, body, isEmail) <==>
      && body.JObj?
      && body.fields.Keys == {"email"}
      && EmailField(body.fields, "email", isEmail)
    ensures !Accepts(ResendEmailConfirmationRequest, JObj(map[]), isEmail)
  {
    var s := ResendEmailConfirmationRequest;
    assert "email" in s.required;
    if body.JObj? {
      assert s.properties.Keys == {"email"};
      assert forall k :: k in s.required <==> k in s.properties.Keys;
      if Accepts(s, body, isEmail) {
        AcceptedKeys(s, body, isEmail);
      }
    }
  }

  // The login and forgot-password schemas each write the key `errorMessage`
  // twice; the object literal keeps the later value.

  const LoginFirstErrorMessage := JObj(map[
    "required" := JObj(map[
      "email" := JStr("Email property is required"),
      "password" := JStr("Password property is required")])])

  const LoginLaterErrorMessage := JObj(map[
    "required" := JObj(map[
      "email" := JStr("Email cannot be empty"),
      "password" := JStr("Password cannot be empty")]),
    "properties" := JObj(map[
      "email" := JStr("Email format is invalid"),
      "password" := JStr("Password should be at least 6 characters long")])])

  const ForgotFirstErrorMessage := JObj(map[
    "required" := JObj(map["email" := JStr("Email property is required")])])

  const ForgotLaterErrorMessage := JObj(map[
    "required" := JObj(map[
      "email" := JStr("Email cannot be empty"),
      "password" := JStr("Password cannot be empty")]),
    "properties" := JObj(map["email" := JStr("Email format is invalid")])])

  /** The `errorMessage` the login schema ends up with is the later literal,
      with messages under `required` and `properties`. */
  lemma LoginErrorMessageIsLater()
    ensures var m := ObjectLiteral([("errorMessage", LoginFirstErrorMessage), ("errorMessage", LoginLaterErrorMessage)]);
            "errorMessage" in m && m["errorMessage"] == LoginLaterErrorMessage
    ensures LoginLaterErrorMessage.fields.Keys == {"required", "properties"}
  {
    ObjectLiteralLastWins([("errorMessage", LoginFirstErrorMessage), ("errorMessage", LoginLaterErrorMessage)], 1);
  }

  /** The `errorMessage` the forgot-password schema ends up with is the later
      literal, which also names a `password` property the schema lacks. */
  lemma ForgotErrorMessageIsLater()
    ensures var m := ObjectLiteral([("errorMessage", ForgotFirstErrorMessage), ("errorMessage", ForgotLaterErrorMessage)]);
            "errorMessage" in m && m["errorMessage"] == ForgotLaterErrorMessage
    ensures "password" in ForgotLaterErrorMessage.fields["required"].fields
    ensures "password" !in ForgotPasswordRequest.properties
  {
    ObjectLiteralLastWins([("errorMessage", ForgotFirstErrorMessage), ("errorMessage", ForgotLaterErrorMessage)], 1);
  }
}

/** The older back end's request-body schemas: register (with a `name`
    rather than a `username`) and login. */
module LegacyRequestSchemas {
  import opened Common
  import opened RequestSchemas

  const RegisterRequest := ObjectSchema(
    map[
      "name" := StringRule(0, false),
      "email" := StringRule(0, true),
      "password" := StringRule(6, false),
      "retypePassword" := StringRule(0, false)],
    ["name", "email", "password", "retypePassword"],
    false,
    Some(SameAs("retypePassword", "password")))

  /** The older `registerRequestSchema`: exactly name, email, password and
      retypePassword; any string as name, even empty; an email-format
      email; a password of six or more characters; a re-typed password
      equal to it. */
  lemma {:induction false} RegisterRequestAccepts(body: Json, isEmail: string -> bool)
    ensures Accepts(RegisterRequest, body, isEmail) <==>
      && body.JObj?
      && body.fields.Keys == {"name", "email", "password", "retypePassword"}
      && StringAtLeast(body.fields, "name", 0)
      && EmailFormatField(body.fields, "email", isEmail)
      && StringAtLeast(body.fields, "password", 6)
      && body.fields["retypePassword"] == body.fields["password"]
  {
    var s := RegisterRequest;
    if body.JObj? {
      assert s.properties.Keys == {"name", "email", "password", "retypePassword"};
      assert forall k :: k in s.required <==> k in s.properties.Keys;
      if Accepts(s, body, isEmail) {
        AcceptedKeys(s, body, isEmail);
      }
    }
  }

  /** A `username` field makes a registration body invalid. */
  lemma RegisterRejectsUsername(body: Json, isEmail: string -> bool)
    requires body.JObj? && "username" in body.fields
    ensures !Accepts(RegisterRequest, body, isEmail)
  {
    assert "username" !in RegisterRequest.properties;
  }

  const LoginRequest := ObjectSchema(
    map["email" := StringRule(0, true), "password" := StringRule(0, false)],
    ["email", "password"],
    false,
    None)

  /** The older `loginRequestSchema`: exactly email and password; an
      email-format email; any string as password, even empty. */
  lemma {:induction false} LoginRequestAccepts(body: Json, isEmail: string -> bool)
    ensures Accepts(LoginRequest, body, isEmail) <==>
      && body.JObj?
      && body.fields.Keys == {"email", "password"}
      && EmailFormatField(body.fields, "email", isEmail)
      && StringAtLeast(body.fields, "password", 0)
  {
    var s := LoginRequest;
    if body.JObj? {
      assert s.properties.Keys == {"email", "password"};
      assert forall k :: k in s.required <==> k in s.properties.Keys;
      if Accepts(s, body, isEmail) {
        AcceptedKeys(s, body, isEmail);
      }
    }
  }
}
