/** The API's user entity: a validating factory guarded by a class-wide
    flag, activation toggles, profile update and the full name. */
module UserDomain {
  import opened Common

  /** The object literal handed to `User.create` or to the constructor; an
      absent field (or one that is `null`) is `None`. */
  datatype UserProps = UserProps(
    id: Option<int>,
    username: Option<string>,
    email: Option<string>,
    passwordHash: Option<string>,
    firstName: Option<string>,
    lastName: Option<string>,
    isActive: Option<bool>,
    createdAt: Option<Time>,
    updatedAt: Option<Time>)

  const UsernameEmpty := "Username cannot be empty"
  const EmailEmpty := "Email cannot be empty"
  const PasswordHashEmpty := "PasswordHash cannot be empty"
  const ConstructorLocked := "Use 'User.create()' to instantiate this class"

  /** `!v || v.trim().length <= 0`. */
  predicate Blank(v: Option<string>)
    // missing and empty values are blank
    ensures v.None? || v.value == "" ==> Blank(v)
    // a value that starts with a visible character is not
    ensures v.Some? && v.value != "" && !IsWhitespace(v.value[0]) ==> !Blank(v)
  {
    v.None? || Trim(v.value) == ""
  }

  /** A value is blank exactly when it is missing or made of whitespace only
      (the empty string included). */
  lemma BlankIffMissingOrWhitespace(v: Option<string>)
    ensures Blank(v) <==> v.None? || AllWhitespace(v.value)
  {
    if v.Some? {
      TrimEmptyIffAllWhitespace(v.value);
    }
  }

  /** The checks and defaults of `User.create`, as the user it builds or
      the message of the error it throws. */
  function CreateUser(p: UserProps, now: Time): (r: Result<UserProps, string>)
    // the checks, in source order: username, then email, then password hash
    ensures Blank(p.username) ==> r == Err(UsernameEmpty)
    ensures !Blank(p.username) && Blank(p.email) ==> r == Err(EmailEmpty)
    ensures !Blank(p.username) && !Blank(p.email) && Blank(p.passwordHash) ==> r == Err(PasswordHashEmpty)
    ensures r.Ok? <==> !Blank(p.username) && !Blank(p.email) && !Blank(p.passwordHash)
    // every supplied field is kept as given
    ensures r.Ok? ==> && r.value.id == p.id
                      && r.value.username == p.username
                      && r.value.email == p.email
                      && r.value.passwordHash == p.passwordHash
                      && r.value.firstName == p.firstName
                      && r.value.lastName == p.lastName
    ensures r.Ok? && p.isActive.Some? ==> r.value.isActive == p.isActive
    ensures r.Ok? && p.createdAt.Some? ==> r.value.createdAt == p.createdAt
    ensures r.Ok? && p.updatedAt.Some? ==> r.value.updatedAt == p.updatedAt
    // the defaults fill only what is missing
    ensures r.Ok? && p.isActive.None? ==> r.value.isActive == Some(true)
    ensures r.Ok? && p.createdAt.None? ==> r.value.createdAt == Some(now)
    ensures r.Ok? && p.updatedAt.None? ==> r.value.updatedAt == Some(now)
  {
    if Blank(p.username) then Err(UsernameEmpty)
    else if Blank(p.email) then Err(EmailEmpty)
    else if Blank(p.passwordHash) then Err(PasswordHashEmpty)
    else
      Ok(UserProps(
        p.id, p.username, p.email, p.passwordHash, p.firstName, p.lastName,
        Some(p.isActive.GetOr(true)),
        Some(p.createdAt.GetOr(now)),
        Some(p.updatedAt.GetOr(now))))
  }

  /** A user `create` built is a fixed point: building again from its fields,
      at any time, gives the same user. */
  lemma CreateIsIdempotent(p: UserProps, now: Time, later: Time)
    requires CreateUser(p, now).Ok?
    ensures CreateUser(CreateUser(p, now).value, later) == CreateUser(p, now)
  {
  }

  /** `??` keeps `false` and `0`: an explicitly inactive user stays inactive
      and a zero timestamp is kept. */
  lemma CreateKeepsFalsyValues(p: UserProps, now: Time)
    requires CreateUser(p, now).Ok?
    requires p.isActive == Some(false) && p.createdAt == Some(0)
    ensures CreateUser(p, now).value.isActive == Some(false)
    ensures CreateUser(p, now).value.createdAt == Some(0)
  {
  }

  /** Whitespace-only fields are refused: a username of spaces fails first,
      whatever else is wrong. */
  lemma CreateRejectsWhitespaceUsername(p: UserProps, now: Time)
    requires p.username.Some? && AllWhitespace(p.username.value)
    ensures CreateUser(p, now) == Err(UsernameEmpty)
  {
    BlankIffMissingOrWhitespace(p.username);
  }

  /** The state after `activate()` at time `now`. */
  function Activated(p: UserProps, now: Time): (q: UserProps)
    ensures q.isActive == Some(true) && q.updatedAt == Some(now)
    // nothing but isActive and updatedAt changes
    ensures q.(isActive := p.isActive, updatedAt := p.updatedAt) == p
  {
    p.(isActive := Some(true), updatedAt := Some(now))
  }

  /** The state after `deactivate()` at time `now`. */
  function Deactivated(p: UserProps, now: Time): (q: UserProps)
    ensures q.isActive == Some(false) && q.updatedAt == Some(now)
    ensures q.(isActive := p.isActive, updatedAt := p.updatedAt) == p
  {
    p.(isActive := Some(false), updatedAt := Some(now))
  }

  /** Activating or deactivating twice leaves isActive as once did. */
  lemma ToggleIdempotent(p: UserProps, t1: Time, t2: Time)
    ensures Activated(Activated(p, t1), t2).isActive == Activated(p, t1).isActive
    ensures Deactivated(Deactivated(p, t1), t2).isActive == Deactivated(p, t1).isActive
    ensures Activated(Deactivated(p, t1), t2) == Activated(p, t2)
  {
  }

  /** The state after `updateProfile({firstName, lastName, email})` at `now`. */
  function ProfileUpdated(p: UserProps, firstName: Option<string>, lastName: Option<string>,
                          email: Option<string>, now: Time): (q: UserProps)
    // a truthy value overwrites, anything else keeps the old one
    ensures q.firstName == (if TruthyString(firstName) then firstName else p.firstName)
    ensures q.lastName == (if TruthyString(lastName) then lastName else p.lastName)
    ensures q.email == (if TruthyString(email) then email else p.email)
    ensures q.updatedAt == Some(now)
    // username, passwordHash, isActive, id and createdAt never change
    ensures q.id == p.id && q.username == p.username && q.passwordHash == p.passwordHash
    ensures q.isActive == p.isActive && q.createdAt == p.createdAt
  {
    p.(firstName := if TruthyString(firstName) then firstName else p.firstName,
       lastName := if TruthyString(lastName) then lastName else p.lastName,
       email := if TruthyString(email) then email else p.email,
       updatedAt := Some(now))
  }

  /** An update with an empty email keeps a user `create` accepted valid. */
  lemma ProfileUpdateKeepsValid(p: UserProps, first: Option<string>, last: Option<string>, now: Time, t: Time)
    requires CreateUser(p, t).Ok?
    ensures CreateUser(ProfileUpdated(p, first, last, Some(""), now), t).Ok?
  {
  }

  /** A truthy email made of whitespace passes `updateProfile`, and the
      user it leaves is one `create` refuses with the email message. */
  lemma ProfileUpdateWithBlankEmailBreaksCreate(p: UserProps, first: Option<string>, last: Option<string>,
                                                email: string, now: Time, t: Time)
    requires CreateUser(p, t).Ok?
    requires email != "" && AllWhitespace(email)
    ensures ProfileUpdated(p, first, last, Some(email), now).email == Some(email)
    ensures CreateUser(ProfileUpdated(p, first, last, Some(email), now), t) == Err(EmailEmpty)
  {
    BlankIffMissingOrWhitespace(Some(email));
  }

  /** `getFullName()`: `${firstName || ""} ${lastName || ""}`, trimmed. */
  function FullName(p: UserProps): (r: string)
    // never longer than the two names and the joining space, and never
    // starting or ending with whitespace
    ensures |r| <= |p.firstName.GetOr("")| + 1 + |p.lastName.GetOr("")|
    ensures r == [] || (!IsWhitespace(r[0]) && !IsWhitespace(r[|r| - 1]))
  {
    Trim(p.firstName.GetOr("") + " " + p.lastName.GetOr(""))
  }

  /** A user with no names has the empty full name. */
  lemma FullNameWithoutNames(p: UserProps)
    requires p.firstName.None? && p.lastName.None?
    ensures FullName(p) == ""
  {
    assert p.firstName.GetOr("") + " " + p.lastName.GetOr("") == " ";
    assert AllWhitespace(" ");
    TrimEmptyIffAllWhitespace(" ");
  }

  /** Two names without surrounding whitespace are joined by one space. */
  lemma FullNameJoinsNames(p: UserProps, first: string, last: string)
    requires p.firstName == Some(first) && p.lastName == Some(last)
    requires first != [] && !IsWhitespace(first[0])
    requires last != [] && !IsWhitespace(last[|last| - 1])
    ensures FullName(p) == first + " " + last
  {
    var s := first + " " + last;
    assert s[0] == first[0] && s[|s| - 1] == last[|last| - 1];
    TrimOfTrimmed(s);
  }

  /** A first name alone gives just that name: the joining space is trimmed. */
  lemma FullNameFirstOnly(p: UserProps, first: string)
    requires p.firstName == Some(first) && p.lastName.None?
    requires first == [] || (!IsWhitespace(first[0]) && !IsWhitespace(first[|first| - 1]))
    ensures FullName(p) == first
  {
    assert first + " " + "" == first + " ";
    TrimTrailingSpace(first);
  }

  /** A user object; the source updates these fields in place. */
  class User {
    var id: Option<int>
    var username: Option<string>
    var email: Option<string>
    var passwordHash: Option<string>
    var firstName: Option<string>
    var lastName: Option<string>
    var isActive: Option<bool>
    var createdAt: Option<Time>
    var updatedAt: Option<Time>

    /** The fields, as one value. */
    function Props(): UserProps
      reads this
    {
      UserProps(id, username, email, passwordHash, firstName, lastName, isActive, createdAt, updatedAt)
    }

    /** The body of the constructor once its guard has passed. */
    constructor Init(p: UserProps)
      ensures Props() == p
    {
      id := p.id;
      username := p.username;
      email := p.email;
      passwordHash := p.passwordHash;
      firstName := p.firstName;
      lastName := p.lastName;
      isActive := p.isActive;
      createdAt := p.createdAt;
      updatedAt := p.updatedAt;
    }

    /** `getId()`. */
    function GetId(): (r: Option<int>)
      reads this
      ensures r == Props().id
    {
      id
    }

    method Activate(now: Time)
      modifies this
      ensures Props() == Activated(old(Props()), now)
    {
      isActive := Some(true);
      updatedAt := Some(now);
    }

    method Deactivate(now: Time)
      modifies this
      ensures Props() == Deactivated(old(Props()), now)
    {
      isActive := Some(false);
      updatedAt := Some(now);
    }

    method UpdateProfile(newFirstName: Option<string>, newLastName: Option<string>, newEmail: Option<string>, now: Time)
      modifies this
      ensures Props() == ProfileUpdated(old(Props()), newFirstName, newLastName, newEmail, now)
    {
      if TruthyString(newFirstName) {
        firstName := newFirstName;
      }
      if TruthyString(newLastName) {
        lastName := newLastName;
      }
      if TruthyString(newEmail) {
        email := newEmail;
      }
      updatedAt := Some(now);
    }

    /** `getFullName()`. */
    function GetFullName(): (r: string)
      reads this
      ensures r == FullName(Props())
    {
      FullName(Props())
    }
  }

  /** The class `User` itself, holding the private static `#allowConstructor`. */
  class UserClass {
    var allowConstructor: bool

    constructor()
      ensures !allowConstructor
    {
      allowConstructor := false;
    }

    /** `new User(props)`: refused unless the flag is set. */
    method Construct(p: UserProps) returns (r: Result<User, string>)
      ensures allowConstructor ==> r.Ok? && fresh(r.value) && r.value.Props() == p
      ensures !allowConstructor ==> r == Err(ConstructorLocked)
    {
      if !allowConstructor {
        return Err(ConstructorLocked);
      }
      var u := new User.Init(p);
      return Ok(u);
    }

    /** `User.create(props)`: sets the flag, validates, constructs, and
        clears the flag again only on success. */
    method Create(p: UserProps, now: Time) returns (r: Result<User, string>)
      modifies this
      ensures r.Ok? <==> CreateUser(p, now).Ok?
      ensures r.Err? ==> r.error == CreateUser(p, now).error
      ensures r.Ok? ==> fresh(r.value) && r.value.Props() == CreateUser(p, now).value
      // a create that throws leaves the constructor unlocked
      ensures allowConstructor <==> r.Err?
    {
      allowConstructor := true;
      if Blank(p.username) {
        return Err(UsernameEmpty);
      }
      if Blank(p.email) {
        return Err(EmailEmpty);
      }
      if Blank(p.passwordHash) {
        return Err(PasswordHashEmpty);
      }
      r := Construct(UserProps(
        p.id, p.username, p.email, p.passwordHash, p.firstName, p.lastName,
        Some(p.isActive.GetOr(true)),
        Some(p.createdAt.GetOr(now)),
        Some(p.updatedAt.GetOr(now))));
      allowConstructor := false;
    }
  }

  /** The constructor is refused at first, but after a `create` that throws
      it accepts anything, even a user with no username. */
  method FailedCreateUnlocksConstructor(bad: UserProps, now: Time) returns (refusedBefore: bool, acceptedAfter: bool)
    requires Blank(bad.username)
    ensures refusedBefore && acceptedAfter
  {
    var users := new UserClass();
    var before := users.Construct(bad);
    var created := users.Create(bad, now);
    var after := users.Construct(bad);
    refusedBefore := before == Err(ConstructorLocked);
    acceptedAfter := after.Ok? && after.value.username == bad.username;
  }
}
