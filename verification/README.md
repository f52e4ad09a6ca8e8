# TamangGastos authentication back end, in Dafny

This project models the authentication core of the TamangGastos personal
finance application and proves properties of that model. The model covers
two back ends: the current API (`api/`) and the older one (`src/`).

- **Domain.** The `User` entity covers:
  - the validating factory `User.create`, with the class-wide
    `#allowConstructor` flag that guards `new User(...)`;
  - `activate`, `deactivate`, `updateProfile` and `getFullName`.

  The `Token` record has its factory and getters, and `TokenType` is the
  closed set of three token kinds.
- **Stores.**
  - The older back end's `InMemoryUserRepository` is a class holding an
    array of user objects, shared by reference, and an auto-increment
    counter.
  - The two knex user repositories and the token repository are classes
    holding the rows of `user_accounts` or `tokens` and the table's id
    sequence. The insert constraints come from the migrations (not-null,
    column widths, unique username and email).
  - The row mappings `toDatabase` / `toDomain` are pure functions with
    round-trip lemmas.
  - The selection rules are the case-insensitive username-or-email filter
    and "latest unexpired token of a type for a user".
- **Services.** Both `AuthService` versions are modelled, with their
  `registerUser` and `loginUser`. bcrypt (`hash`, `verify`) and the JWT
  signer (`sign`) are function parameters. The services' observable effects
  are recorded:
  - the objects the API service hands to `save`;
  - the claims it asks the signer to sign.
- **Validation.** The eight request-body JSON schemas are values of a small
  schema datatype, interpreted by `RequestSchemas.Accepts`. Each one has a
  lemma that says, in both directions, which bodies it accepts. The `email`
  format is the parameter `isEmail`.
- **Classification and gating.** These are pure functions:
  - the two Fastify error handlers, modelled as the `status` / `send` calls
    they make on the reply;
  - the `onRequest` hook, as a function of the URL and of the `jwtVerify`
    outcome;
  - the Next.js client middleware.

JavaScript values are the `Common.Json` datatype. An absent or `null`
property is `None`, and truthiness is `Common.Truthy`. Times are integers,
and every `new Date()` is the parameter `now`.

Where the system's written design and its code disagree, this model follows
the code:

- **Unique constraint.** The design calls usernames and emails unique
  regardless of letter case. The `user_accounts` unique constraints compare
  exactly, and only the lookup lower-cases: `UserAccounts.CaseVariantPassesUniqueCheck`.
- **Login failure status.** The design maps bad credentials to 401. The
  older back end throws a plain `Error` and its error handler answers 500:
  `Scenarios.LegacyLoginFailureIs500`.
- **No duplicate check.** The design has registration reject a duplicate
  username or email with a conflict. Neither service looks for duplicates:
  the API service hands the user to `save` without awaiting it, and the
  older one saves unconditionally.
- **Lookup arguments.** The design lets `findByUsernameOrEmail` take `null`
  for either argument. The model takes two strings: knex refuses
  `undefined` bindings, and that failure is not modelled.
- **Token owner column.** The design links every token to a user account.
  The `tokens` migration declares `user_id` as `uuid`
  (db/migrations/20241207094614_create_tokens_table.js:8), while
  `user_accounts.id` is a `bigIncrements` integer. The database is
  PostgreSQL: the foreign key of lines 16-20, from a `uuid` column to a
  `bigint` one, cannot be created. Even without it, a user's numeric id is
  not a valid `uuid`, so `TokenRepository.InsertCheck` refuses it with
  `InvalidUuid("user_id")`. The uuid syntax is the parameter `isUuid`.
- **Flows not written.** The design describes token reuse, soft expiry,
  reset, verify and resend flows. `forgotPassword` and `verifyEmail` are
  empty in the code, and the other flows do not exist.

## Model

| member | source | states |
|---|---|---|
| UserDomain.Blank | api/src/modules/user/domain/user.js:43-50 | `!v \|\| v.trim().length <= 0` holds for a missing or empty value and fails for one that starts with a visible character |
| UserDomain.BlankIffMissingOrWhitespace | api/src/modules/user/domain/user.js:43-50 | `!v \|\| v.trim().length <= 0` holds exactly for a missing value or one made only of ECMAScript whitespace |
| UserDomain.CreateUser | api/src/modules/user/domain/user.js:30-67 | the three checks in source order with their messages; success exactly when all three fields are non-blank; every supplied field kept; `??` defaults (id missing, isActive true, timestamps now) fill only what is missing |
| UserDomain.CreateIsIdempotent | api/src/modules/user/domain/user.js:52-62 | a user `create` built is rebuilt unchanged by another `create` at any time |
| UserDomain.CreateKeepsFalsyValues | api/src/modules/user/domain/user.js:57-61 | `??` keeps `isActive: false` and a zero `createdAt` |
| UserDomain.CreateRejectsWhitespaceUsername | api/src/modules/user/domain/user.js:43-44 | a whitespace-only username fails with "Username cannot be empty" whatever else is wrong |
| UserDomain.Activated | api/src/modules/user/domain/user.js:78-81 | isActive becomes true, updatedAt becomes now, and nothing else changes |
| UserDomain.Deactivated | api/src/modules/user/domain/user.js:73-76 | isActive becomes false, updatedAt becomes now, and nothing else changes |
| UserDomain.ToggleIdempotent | api/src/modules/user/domain/user.js:73-81 | toggling twice gives the isActive of toggling once; activating after deactivating is plain activation |
| UserDomain.ProfileUpdated | api/src/modules/user/domain/user.js:83-89 | firstName, lastName and email are overwritten only by truthy values; id, username, passwordHash, isActive and createdAt never change; updatedAt is now |
| UserDomain.ProfileUpdateWithBlankEmailBreaksCreate | api/src/modules/user/domain/user.js:46-89 | a truthy whitespace-only email such as " " is written by `updateProfile`, and `create` then refuses the user with "Email cannot be empty" |
| UserDomain.ProfileUpdateKeepsValid | api/src/modules/user/domain/user.js:83-89 | an update with an empty email leaves a valid user valid |
| UserDomain.FullName | api/src/modules/user/domain/user.js:91-93 | the full name never starts or ends with whitespace and is no longer than the two names and the joining space |
| UserDomain.FullNameWithoutNames | api/src/modules/user/domain/user.js:91-93 | a user without names has the full name "" |
| UserDomain.FullNameJoinsNames | api/src/modules/user/domain/user.js:91-93 | two names without outer whitespace are joined by exactly one space |
| UserDomain.FullNameFirstOnly | api/src/modules/user/domain/user.js:91-93 | a first name alone is the full name; the joining space is trimmed away |
| UserDomain.User.Init | api/src/modules/user/domain/user.js:18-27 | the constructor body stores every field given |
| UserDomain.User.GetId | api/src/modules/user/domain/user.js:69-71 | the stored id |
| UserDomain.User.Activate | api/src/modules/user/domain/user.js:78-81 | the object's new state is `Activated` of its old state |
| UserDomain.User.Deactivate | api/src/modules/user/domain/user.js:73-76 | the object's new state is `Deactivated` of its old state |
| UserDomain.User.UpdateProfile | api/src/modules/user/domain/user.js:83-89 | the object's new state is `ProfileUpdated` of its old state |
| UserDomain.User.GetFullName | api/src/modules/user/domain/user.js:91-93 | the full name of the object's current fields |
| UserDomain.UserClass.constructor | api/src/modules/user/domain/user.js:3 | the static flag starts false |
| UserDomain.UserClass.Construct | api/src/modules/user/domain/user.js:5-28 | `new User` fails with the lock message unless the flag is set; otherwise a fresh user with exactly the given fields |
| UserDomain.UserClass.Create | api/src/modules/user/domain/user.js:30-67 | succeeds or fails exactly as `CreateUser`, with a fresh user holding its result; afterwards the flag is set exactly when `create` threw |
| UserDomain.FailedCreateUnlocksConstructor | api/src/modules/user/domain/user.js:16-17 | the constructor refuses a user at first, and after a throwing `create` accepts even one with no username |
| TokenTypes.Values | api/src/modules/token/domain/tokenType.js:2-8 | exactly "access", "ott", "refresh" in that order, pairwise distinct, each fitting the 20-character column |
| TokenDomain.Create | api/src/modules/token/domain/token.js:20-38 | the payload kept with no validation; id kept (missing stays missing); timestamps default to now only when missing |
| TokenDomain.CreateIsIdempotent | api/src/modules/token/domain/token.js:35-36 | a created token is rebuilt unchanged by another `create` at any time |
| TokenDomain.GettersAfterCreate | api/src/modules/token/domain/token.js:40-50 | the getters return the token, expiry and type given to `create`, an empty token and an unknown type included |
| TokenRepository.ToDatabase | api/src/modules/token/infrastructure/tokenRepository.js:70-80 | each field under its snake_case column |
| TokenRepository.ToDomain | api/src/modules/token/infrastructure/tokenRepository.js:52-62 | the token maps back to the same columns; only missing timestamps are filled in, and both timestamps are then set |
| TokenRepository.RoundTrip | api/src/modules/token/infrastructure/tokenRepository.js:52-80 | `toDomain(toDatabase(t)) == t` for a token with both timestamps set |
| TokenRepository.ToDatabaseInjective | api/src/modules/token/infrastructure/tokenRepository.js:70-80 | distinct tokens give distinct rows |
| TokenRepository.Qualifies | api/src/modules/token/infrastructure/tokenRepository.js:18-19 | a qualifying row is of the requested user and type; a row expiring at `now` or earlier never qualifies |
| TokenRepository.IsLatest | api/src/modules/token/infrastructure/tokenRepository.js:18-21 | the latest row is a stored row that has not expired, so some row qualifies |
| TokenRepository.LatestExists | api/src/modules/token/infrastructure/tokenRepository.js:20-21 | when some row qualifies, one qualifying row expires no earlier than any other |
| TokenRepository.TokenTypesFitColumn | db/migrations/20241207094614_create_tokens_table.js:10 | every token type fits the `token_type` column |
| TokenRepository.InsertCheck | db/migrations/20241207094614_create_tokens_table.js:8-11 | an insert passes exactly when user, token, type and expiry are set, the user id is a valid uuid and the type fits its column; a present user id that is not a uuid is refused with `InvalidUuid("user_id")` |
| TokenRepository.TokenTable.constructor | api/src/modules/token/infrastructure/tokenRepository.js:5-7 | an empty table whose sequence starts at 1 |
| TokenRepository.TokenTable.Save | api/src/modules/token/infrastructure/tokenRepository.js:31-44 | fails exactly when the insert check fails, storing no row but possibly using up a sequence value; otherwise appends one row with every field but the id, timestamps defaulted, and returns the new id, which no earlier row carries |
| TokenRepository.TokenTable.FindByUserId | api/src/modules/token/infrastructure/tokenRepository.js:16-23 | `null` exactly when no row of that user and type expires after now; otherwise a row with the latest expiry among those, as a token of that user and type that has not expired |
| TokenRepository.SaveEveryTokenType | api/src/modules/token/infrastructure/tokenRepository.js:31-44 | for a user id that is a valid uuid, saving one complete token of each type yields three strictly increasing ids |
| InMemoryUsers.FindIndex | src/modules/user/infrastructure/userRepository.js:21-27 | the index of the first user whose field is strictly equal to the value, or -1 when none is |
| InMemoryUsers.InMemoryUserRepository.constructor | src/modules/user/infrastructure/userRepository.js:2-5 | no users, and the counter at 1 |
| InMemoryUsers.InMemoryUserRepository.Save | src/modules/user/infrastructure/userRepository.js:7-19 | returns the same object and always appends it. A falsy id takes the counter's value, and the counter moves on so issued ids stay strictly increasing. An existing id leaves the counter alone and first overwrites the first slot with that id |
| InMemoryUsers.InMemoryUserRepository.FindById | src/modules/user/infrastructure/userRepository.js:21-23 | the first user whose id is strictly equal, or `null` exactly when there is none |
| InMemoryUsers.InMemoryUserRepository.FindByEmail | src/modules/user/infrastructure/userRepository.js:25-27 | the first user whose email is strictly (case-sensitively) equal, or `null` exactly when there is none |
| InMemoryUsers.InMemoryUserRepository.FindAll | src/modules/user/infrastructure/userRepository.js:29-31 | the stored users, in order |
| InMemoryUsers.InMemoryUserRepository.DeleteById | src/modules/user/infrastructure/userRepository.js:33-40 | removes and returns only the first match; with no match returns `null` and changes nothing; never moves the counter |
| InMemoryUsers.InMemoryUserRepository.Clear | src/modules/user/infrastructure/userRepository.js:42-46 | no users, and the counter back at 1 |
| InMemoryUsers.SaveScenario | src/modules/user/infrastructure/userRepository.js:7-19 | two new users get ids 1 and 2; saving the first again leaves it stored twice |
| UserAccounts.ToDatabase | api/src/modules/user/infrastructure/userRepository.js:113-125 | each field under its snake_case column, one to one |
| UserAccounts.ToDomain | api/src/modules/user/infrastructure/userRepository.js:93-105 | throws exactly when username, email or password hash is blank; otherwise the user maps back to the same columns, but for the defaults `create` fills in, which are then all set |
| UserAccounts.RoundTrip | api/src/modules/user/infrastructure/userRepository.js:93-125 | `toDomain(toDatabase(u)) == u` for a user `create` accepts with isActive and timestamps set |
| UserAccounts.ToDatabaseInjective | api/src/modules/user/infrastructure/userRepository.js:113-125 | distinct users give distinct rows |
| UserAccounts.ToDomainRejectsBlank | api/src/modules/user/infrastructure/userRepository.js:93-105 | a row with a missing or whitespace username throws `create`'s message; a row that maps has non-blank email and password hash |
| UserAccounts.InsertedColumns | api/src/modules/user/infrastructure/userRepository.js:34-46 | the inserted object is `toDatabase` of the user without the id |
| UserAccounts.InsertCheck | db/migrations/20241207093601_create_user_accounts.js:8-15 | an insert passes exactly when the not-null columns are set, the widths are met, and username and email differ exactly from every stored row's |
| UserAccounts.NewRow | db/migrations/20241207093601_create_user_accounts.js:8-15 | the stored row holds the inserted fields, with is_active defaulting to true and the timestamps to the insertion time |
| UserAccounts.StoredUserReadsBack | api/src/modules/user/infrastructure/userRepository.js:32-58 | a valid user inserted under an id and read back is the same user with that id |
| UserAccounts.Matches | api/src/modules/user/infrastructure/userRepository.js:19-20 | an exact match on username or email is a match; a match agrees in length with the argument on one of the columns |
| UserAccounts.LookupIgnoresCase | api/src/modules/user/infrastructure/userRepository.js:17-24 | two usernames equal up to letter case match exactly the same rows |
| UserAccounts.CaseVariantPassesUniqueCheck | db/migrations/20241207093601_create_user_accounts.js:8-15 | "alice" passes the unique check next to a stored "Alice", which the lookup for "alice" matches |
| UserAccounts.PasswordUpdated | api/src/modules/user/infrastructure/userRepository.js:66-72 | rows with the id get the new hash and update time; all other rows are unchanged |
| UserAccounts.Enabled | api/src/modules/user/infrastructure/userRepository.js:79-85 | rows with the id become active with a new update time; all other rows are unchanged |
| UserAccounts.UpdateWithoutMatchIsNoOp | api/src/modules/user/infrastructure/userRepository.js:66-85 | an update that matches no row leaves the table as it was |
| UserAccounts.EnableTwice | api/src/modules/user/infrastructure/userRepository.js:79-85 | enabling twice is enabling once at the later time |
| UserAccounts.InsertKeepsInvariant | api/src/modules/user/infrastructure/userRepository.js:32-58 | an insert that passed the check keeps ids below the sequence and ids, usernames and emails unique |
| UserAccounts.UpdateKeepsInvariant | api/src/modules/user/infrastructure/userRepository.js:66-85 | an update that keeps ids, usernames and emails keeps the table invariant |
| UserRepository.UserRepository.constructor | api/src/modules/user/infrastructure/userRepository.js:3-8 | an empty table whose sequence starts at 1 |
| UserRepository.UserRepository.FindByUsernameOrEmail | api/src/modules/user/infrastructure/userRepository.js:17-24 | `null` exactly when no row matches either field ignoring case; otherwise `toDomain` of some matching row, or the error it throws |
| UserRepository.UserRepository.Save | api/src/modules/user/infrastructure/userRepository.js:32-58 | fails exactly when the insert check fails, storing no row but possibly using up a sequence value; otherwise appends the row of every field but the id and returns the new id; keeps the table invariant |
| UserRepository.UserRepository.UpdatePassword | api/src/modules/user/infrastructure/userRepository.js:66-72 | the table becomes `PasswordUpdated`; true exactly when a row has that id; false leaves the table unchanged |
| UserRepository.UserRepository.EnableUser | api/src/modules/user/infrastructure/userRepository.js:79-85 | the table becomes `Enabled`; true exactly when a row has that id; false leaves the table unchanged |
| UserRepository.SaveThenFind | api/src/modules/user/infrastructure/userRepository.js:17-58 | a saved user is found again by its username in another letter case, as the same user with its new id |
| LegacyUserRepository.LegacyUserRepository.constructor | api/src/modules/user/infrastructure/repositories/userRepository.js:4-7 | an empty table whose sequence starts at 1 |
| LegacyUserRepository.LegacyUserRepository.FindByUsernameOrEmail | api/src/modules/user/infrastructure/repositories/userRepository.js:16-23 | the same case-insensitive either-field rule: `null` exactly when nothing matches |
| LegacyUserRepository.LegacyUserRepository.Save | api/src/modules/user/infrastructure/repositories/userRepository.js:31-57 | as the API's `save`, and the rows stored before are kept as a prefix |
| LegacyUserRepository.SavesOnlyAppend | api/src/modules/user/infrastructure/repositories/userRepository.js:4-98 | any sequence of saves leaves every earlier row as it was, since the class has no update |
| Passwords.Empty | api/src/modules/auth/domain/auth.js:15-33 | a string is empty exactly when it is ""; a number exactly when it is 0; an object exactly when its `length` property is at most 0 as JavaScript compares it |
| Passwords.ZeroLengthObjectsAreEmpty | api/src/modules/auth/domain/auth.js:15-16 | objects whose `length` is 0, `null`, `false` or `[]` are refused as empty passwords |
| Passwords.DigitTextLengthObjects | api/src/modules/auth/domain/auth.js:15-16 | a `length` written as digits counts as empty exactly when they are all zeros, and always with a minus sign before them |
| Passwords.LengthObjectEmptyIff | api/src/modules/auth/domain/auth.js:15 | an object is an empty password exactly when its `length` is at most 0 |
| Passwords.PositiveLengthObjectsReachBcrypt | api/src/modules/auth/domain/auth.js:15-19 | objects whose `length` is a positive number, or an array holding one, pass the guard and are refused by bcrypt |
| Passwords.TextLengthObjectReachesBcrypt | api/src/modules/auth/domain/auth.js:15-19 | an object whose `length` is "abc" passes the guard and is refused by bcrypt |
| Passwords.HashPassword | api/src/modules/auth/domain/auth.js:14-20 | a falsy or empty password throws "Password cannot be empty"; success exactly for a non-empty string, with bcrypt's hash of it |
| Passwords.VerifyPassword | api/src/modules/auth/domain/auth.js:29-37 | the password is checked before the hash, each with its message; success exactly for two non-empty strings, with bcrypt's answer |
| Passwords.HashThenVerify | api/src/modules/auth/domain/auth.js:14-37 | a password verifies against its own hash whenever bcrypt does |
| AuthService.RegisterUser | api/src/modules/auth/application/authService.js:10-16 | an empty password throws before `save`. Otherwise exactly one object goes to `save`: userData with the hash as password. The answer is id, name and email of userData, without the password |
| AuthService.RegisteredIdIsUndefined | api/src/modules/auth/application/authService.js:13-15 | a body without id gets an answer whose id is `undefined` |
| AuthService.LoginUser | api/src/modules/auth/application/authService.js:18-34 | unknown email or wrong password give HttpError 401 "Invalid email or password" and nothing is signed; success exactly for a found user whose password verifies, with one token signed over its id and email and the answer `{user: {id, name, email}, token}` |
| AuthService.LoginFailuresIndistinguishable | api/src/modules/auth/application/authService.js:18-25 | an unknown email and a wrong password give the same outcome |
| AuthService.RegisterThenLogin | api/src/modules/auth/application/authService.js:10-34 | a registered user handed back by the store logs in with its password; the token is signed over its id and email |
| AuthService.LoginReadsPasswordNotPasswordHash | api/src/modules/auth/application/authService.js:24 | a found user without a `password` property (the entity keeps `passwordHash`) never logs in: "Hash password cannot be empty" |
| AuthService.ForgotPassword | api/src/modules/auth/application/authService.js:36-38 | resolves to `undefined` |
| AuthService.VerifyEmail | api/src/modules/auth/application/authService.js:40-42 | resolves to `undefined` |
| LegacyAuthService.HashPassword | src/modules/auth/domain/authEntity.js:4-7 | no guard: any string is hashed, the empty one included; anything else is refused by bcrypt |
| LegacyAuthService.VerifyPassword | src/modules/auth/domain/authEntity.js:9-11 | bcrypt's answer for two strings; anything else is refused by bcrypt |
| LegacyAuthService.LegacyAuthService.constructor | src/modules/auth/application/authService.js:4-7 | keeps the injected repository |
| LegacyAuthService.LegacyAuthService.RegisterUser | src/modules/auth/application/authService.js:9-13 | fails exactly when hashing fails, changing nothing. Otherwise it saves and returns a fresh object holding userData with the hash as password. Without a truthy id, the object gets the counter's value, the counter moves on and is recorded as issued, and the object is appended after the earlier users. With a truthy id, the counter stays and the first user with that id is replaced by the object before it is appended |
| LegacyAuthService.LegacyAuthService.LoginUser | src/modules/auth/application/authService.js:15-29 | unknown email or wrong password give a plain Error "Invalid email or password" and nothing is signed; success exactly for a found user whose password verifies, returning the stored object itself and one token signed over exactly its id and email |
| LegacyAuthService.RetypedPasswordStaysInPlainText | src/modules/auth/application/authService.js:10-12 | a registered body keeps `retypePassword` in plain text next to the hashed password |
| LegacyAuthService.RegisterThenLogin | src/modules/auth/application/authService.js:9-29 | after registering, the same email and password log in and the answer is the stored object |
| ErrorHandler.HandleError | api/src/common/middlewares/errorHandler.js:10-31 | sets the status once and sends once. Validation comes before HttpError. Validation errors get their code, "Invalid input" and details; an HttpError gets its own code and message; anything else gets 500 "Internal server error". The body always echoes the status |
| ErrorHandler.PlainErrorMessageHidden | api/src/common/middlewares/errorHandler.js:19-30 | a plain error's own message never reaches the client, and it gets 500 whatever status code it carries |
| ErrorHandler.ValidationExample | api/tests/common/middlewares/errorHandler.test.js:17-40 | the handler's own validation test: the `if` entry is dropped and the status is 400 |
| Http.Details | api/src/common/middlewares/errorHandler.js:16-17 | every message kept comes from an entry whose keyword is not "if", and every such entry's message is kept |
| Http.DetailsAppend | api/src/common/middlewares/errorHandler.js:16-17 | filtering keeps the order of the entries |
| LegacyErrorHandler.HandleError | src/common/errorHandler.js:1-16 | validation errors are always 400 with message and details only; otherwise code 401 passes its message through; everything else is 500 "Internal server error"; the body never carries a status code |
| LegacyErrorHandler.Any401PassesThrough | src/common/errorHandler.js:9-10 | any error carrying status 401, a plain one included, reaches the client with its own message |
| LegacyErrorHandler.OtherHttpErrorsBecome500 | src/common/errorHandler.js:11-15 | any status code but 401 becomes 500 when there is no validation |
| Scenarios.ApiLoginFailureIs401 | api/src/modules/auth/application/authService.js:18-25 | a failed API login reaches the client as 401 with "Invalid email or password" |
| Scenarios.ApiEmptyPasswordIs500 | api/src/modules/auth/domain/auth.js:15-16 | registering with an empty password saves nothing and reaches the client as 500 with the generic message |
| Scenarios.LegacyLoginFailureIs500 | src/modules/auth/application/authService.js:16-22 | the older login failure reaches the client as 500 with the generic message, not 401 |
| Scenarios.HandlersAgreeOnlyOn401 | src/common/errorHandler.js:9-15 | the two handlers give an HttpError the same status exactly when its code is 401 or 500 |
| Hooks.RegisterHooks | api/src/common/middlewares/hooks.js:1-12 | exactly one hook is added, named "onRequest" |
| Hooks.ExcludePatternIsPrefixTest | api/src/common/middlewares/hooks.js:4-5 | the pattern holds exactly for URLs that start with "/api/auth" or "/docs" |
| Hooks.OnRequest | api/src/common/middlewares/hooks.js:3-11 | excluded URLs are neither verified nor answered. Every other URL is verified exactly once. A reply is sent exactly when verification fails, and it is 401 `{error: "Unauthorized"}` |
| Hooks.ExclusionExamples | api/src/common/middlewares/hooks.js:4-5 | "/api/authx" and "/docsfoo" are excluded; "/x/docs" and "/api/users" are not |
| ClientMiddleware.HeaderToken | client/src/middleware.js:13 | no header or a header with no space gives no token; a token never holds a space |
| ClientMiddleware.HeaderTokenIsSecondField | client/src/middleware.js:13 | the token is the field after the first space, up to the next one |
| Common.JoinSplit | client/src/middleware.js:13 | `split` loses nothing: joining the parts gives the header back |
| ClientMiddleware.Middleware | client/src/middleware.js:5-20 | "/login" and "/register" pass unchecked; other paths pass exactly when a cookie or header token is found; the only redirect is to "/login" |
| ClientMiddleware.MiddlewareExamples | client/src/middleware.js:12-17 | "Bearer abc" passes; a header without a space, or none, redirects |
| ClientMiddleware.MatcherExcludesPublicPaths | client/src/middleware.js:22-24 | on the one matched path "/", the public branch is never taken and a request without a token is redirected |
| RequestSchemas.AcceptedKeys | api/src/modules/auth/infrastructure/schemas/registerSchemas.js:33-42 | a body accepted by a closed schema whose properties are all required has exactly those keys |
| ApiRequestSchemas.RegisterRequestAccepts | api/src/modules/auth/infrastructure/schemas/registerSchemas.js:3-56 | accepted exactly when the body has the four keys and no other: a non-empty username, an email-format email, a password of at least 6, and a non-empty retypePassword equal to the password |
| ApiRequestSchemas.ResetPasswordRequestAccepts | api/src/modules/auth/infrastructure/schemas/resetPasswordSchemas.js:3-56 | accepted exactly when the body has email, password, retypePassword and token and nothing else: an email-format email, a password of at least 6, a retypePassword equal to the password, and a non-empty token |
| ApiRequestSchemas.LoginRequestAccepts | api/src/modules/auth/infrastructure/schemas/loginSchemas.js:3-41 | accepted exactly when the body has email and password and nothing else: an email-format email and a non-empty password |
| ApiRequestSchemas.LoginAcceptsOneCharacterPassword | api/src/modules/auth/infrastructure/schemas/loginSchemas.js:15-19 | a one-character password is accepted; there is no 6-character minimum |
| ApiRequestSchemas.LoginErrorMessageIsLater | api/src/modules/auth/infrastructure/schemas/loginSchemas.js:22-40 | of the two `errorMessage` keys, the later literal is the one the schema holds |
| ApiRequestSchemas.ForgotPasswordRequestAccepts | api/src/modules/auth/infrastructure/schemas/forgotPasswordSchemas.js:3-34 | accepted exactly when the body has only a non-empty email in email format; a password is refused |
| ApiRequestSchemas.ForgotErrorMessageIsLater | api/src/modules/auth/infrastructure/schemas/forgotPasswordSchemas.js:17-33 | the later `errorMessage` literal wins, and it names a password the schema does not have |
| ApiRequestSchemas.ValidateEmailRequestAccepts | api/src/modules/auth/infrastructure/schemas/validateEmailSchemas.js:3-29 | accepted exactly when the body has only an email-format email and a non-empty token |
| ApiRequestSchemas.ResendEmailConfirmationRequestAccepts | api/src/modules/auth/infrastructure/schemas/resendEmailConfirmationSchemas.js:3-23 | accepted exactly when the body has only a non-empty email in email format; the empty object is refused |
| LegacyRequestSchemas.RegisterRequestAccepts | src/modules/auth/infrastructure/schemas/registerSchema.js:4-26 | accepted exactly when the body has name, email, password and retypePassword and nothing else: a name of any length, an email-format email, a password of at least 6, and a retypePassword equal to the password |
| LegacyRequestSchemas.RegisterRejectsUsername | src/modules/auth/infrastructure/schemas/registerSchema.js:13 | a body with a `username` property is refused |
| LegacyRequestSchemas.LoginRequestAccepts | src/modules/auth/infrastructure/schemas/loginSchema.js:4-11 | accepted exactly when the body has only an email-format email and a password of any length, the empty one included |
| Common.ObjectLiteralLastWins | api/src/modules/auth/infrastructure/schemas/loginSchemas.js:22-40 | in an object literal with a repeated key, the key's value is that of its last entry |
| Common.Trim | api/src/modules/user/domain/user.js:43-50 | the trimmed string is no longer than the string and neither starts nor ends with whitespace |
| Common.TrimRemovesOuterWhitespace | api/src/modules/user/domain/user.js:43-50 | the string is a run of whitespace, then its trim, then another run of whitespace |
| Common.Lower | api/src/modules/user/infrastructure/userRepository.js:19-20 | `LOWER` keeps the length, leaves no upper-case letter, and keeps every character that is not one |
| Common.Split | client/src/middleware.js:13 | `split(" ")` gives at least one part, and no part holds the separator |
| Common.NumberTextAtMostZero | api/src/modules/auth/domain/auth.js:15 | a number's text, and a one-element array of it, compare with 0 as the number does |
| Common.TrimEmptyIffAllWhitespace | api/src/modules/user/domain/user.js:43-50 | `trim()` gives "" exactly for a whitespace-only string |

## Left out

- bcrypt and the JWT signer are the parameters `hash`, `verify` and
  `sign`. Salting, cost, timing and asynchrony are not modelled. The only
  property of them ever assumed is `verify(p, hash(p))`, and only where a
  lemma says so.
- JWT verification in the `onRequest` hook is its outcome, the parameter
  `verifySucceeds`. `new URL` in the client middleware is the redirect
  location itself.
- The `email` format of ajv is the parameter `isEmail`. The messages of the
  `errorMessage` plugin are not modelled beyond which literal the schema
  object holds.
- Email sending (SMTP, templates), app, route and server wiring, Swagger,
  configuration and the client UI are not part of this model. Of the
  wiring, two facts are not modelled:
  - the API passes four arguments to the two-argument `AuthService`
    constructor;
  - the knex repositories have no `findByEmail`, so `loginUser`'s lookup is
    the parameter `findByEmail`.
- The class `HttpError` (api/src/common/errors/httpError.js) is not part of
  this model. It is taken to carry the message and status code it is built
  with.
- The SQL engine and knex are not modelled:
  - a table is its rows and its id sequence;
  - the shape `returning("id")` has across knex versions is not modelled;
  - the foreign key from `tokens.user_id` to `user_accounts.id` is not
    enforced;
  - `undefined` bindings, which knex refuses, are not modelled: the lookup
    takes two strings.
- UserRepository.UserRepository.FindByUsernameOrEmail: which of several
  matching rows `.first()` returns is left open, because the query has no
  `ORDER BY`.
- LegacyUserRepository.LegacyUserRepository.FindByUsernameOrEmail: the
  choice among matching rows is left open for the same reason.
- TokenRepository.TokenTable.FindByUserId: among rows with the same latest
  expiry, which one comes back is left open.
- UserRepository.UserRepository.Save: reports the first violated constraint
  in a fixed order; which error a real database reports when several apply
  is not modelled. A refused insert uses up a sequence value here. Whether
  PostgreSQL draws one before it finds the violation depends on the
  constraint, so the contract promises only that the sequence does not go
  back.
- LegacyUserRepository.LegacyUserRepository.Save: the same fixed order of
  constraint errors, and the same promise about the sequence on a refused
  insert.
- TokenRepository.TokenTable.Save: the same promise about the sequence on
  a refused insert. What counts as a valid `uuid` is the parameter `isUuid`.
- Common.Lower: lower-cases ASCII letters only. SQL `LOWER` on other
  letters depends on the database collation.
- UserAccounts.ToDomain: goes through the pure `CreateUser`. The
  `#allowConstructor` flag that a real `User.create` sets and clears is only
  modelled on `UserDomain.UserClass.Create`.
- The older repository's `toDomain` and `toDatabase` are the same code as
  the API repository's. Both repositories share `UserAccounts.ToDomain` and
  `UserAccounts.ToDatabase`, and the rows cite the API file.
- AuthService.RegisterUser: the unawaited `save` is recorded as the object
  handed to it. Its outcome and any rejection it raises later are not
  modelled.
- One `now` stands for each `new Date()` of an operation, so two calls
  within one `toDomain` or `create` see the same time.
- JavaScript values are compared as values. Only the in-memory store's
  users and the older service's saved object are references (`JsObject`).
  The array `findAll` returns is the same array the store keeps mutating;
  that aliasing is not modelled.
- ClientMiddleware.HeaderToken: reads the header as a plain optional
  string. How Next.js exposes `headers.authorization` is not modelled.
- Numbers are integers; floating point is not modelled.
- Passwords.Empty: text in a `length` property is read as a number only in
  the forms blank or an optionally signed run of decimal digits. Other
  numeric text (`"0x0"`, `"-1e3"`, `"-0.5"`, `"-Infinity"`) counts as not a
  number, so such an object is not treated as empty as JavaScript would.
- RequestSchemas.Accepts: a schema accepts or refuses a body exactly as
  written. Fastify's ajv defaults, under the apps' custom options
  (`removeAdditional`, `coerceTypes: "array"`, `useDefaults`), are not
  modelled. A running server strips undeclared keys instead of refusing
  the body, and coerces numbers, booleans and `null` to strings. So the
  "no other key" and "is a string" halves of the schema lemmas describe the
  schemas, not what a handler receives.
