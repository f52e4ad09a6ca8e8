/** The older back end's user store: an array of user objects plus an
    auto-increment counter, both changed in place. Users are plain objects
    shared by reference, so `save` hands back the very object it stored. */
module InMemoryUsers {
  import opened Common

  /** `u[key]`, for a stored user object. */
  function Field(u: JsObject, key: string): Option<Json>
    reads u
  {
    Get(u.props, key)
  }

  /** `users.findIndex((u) => u[key] === value)`, with -1 for no match. The
      strict equality is equality of values, `undefined` included. */
  function FindIndex(users: seq<JsObject>, key: string, value: Option<Json>): (k: int)
    reads users
    ensures -1 <= k < |users|
    ensures k >= 0 ==> Field(users[k], key) == value
    ensures forall j :: 0 <= j < |users| && (k < 0 || j < k) ==> Field(users[j], key) != value
    decreases |users|
  {
    if users == [] then -1
    else if Field(users[0], key) == value then 0
    else
      var k := FindIndex(users[1..], key, value);
      assert forall j :: 1 <= j < |users| ==> users[1..][j - 1] == users[j];
      if k < 0 then -1 else k + 1
  }

  class InMemoryUserRepository {
    var users: seq<JsObject>
    var currentId: int
    /** The ids handed out since the store was created or last cleared. */
    ghost var issued: seq<int>

    /** The counter starts at 1 and has handed out strictly increasing ids,
        each below it. */
    ghost predicate Valid()
      reads this
    {
      && currentId >= 1
      && (forall i, j :: 0 <= i < j < |issued| ==> issued[i] < issued[j])
      && (forall i :: 0 <= i < |issued| ==> issued[i] < currentId)
    }

    constructor()
      ensures Valid() && users == [] && currentId == 1 && issued == []
    {
      users := [];
      currentId := 1;
      issued := [];
    }

    /** `save(user)`. A user with a falsy id gets the counter's value as its
        id and the counter moves on; a user with an id replaces the first
        stored user with the same id. Either way the user is then appended. */
    method Save(user: JsObject) returns (saved: JsObject)
      requires Valid()
      modifies this, user
      ensures Valid()
      ensures saved == user
      // every call appends exactly once
      ensures |users| == |old(users)| + 1 && users[|users| - 1] == user
      // a new user: the next id, and the counter moves on by one
      ensures !Truthy(old(Field(user, "id"))) ==>
        && user.props == old(user.props)["id" := JNum(old(currentId))]
        && currentId == old(currentId) + 1
        && issued == old(issued) + [old(currentId)]
        && users == old(users) + [user]
      // a user with an id: the counter and the user stay as they were, and
      // the first slot with the same id is overwritten before the append
      ensures Truthy(old(Field(user, "id"))) ==>
        && user.props == old(user.props)
        && currentId == old(currentId) && issued == old(issued)
        && var k := old(FindIndex(users, "id", Field(user, "id")));
           users == (if k >= 0 then old(users)[k := user] else old(users)) + [user]
    {
      if !Truthy(Field(user, "id")) {
        user.props := user.props["id" := JNum(currentId)];
        issued := issued + [currentId];
        currentId := currentId + 1;
      } else {
        var index := FindIndex(users, "id", Field(user, "id"));
        if index >= 0 {
          users := users[index := user];
        }
      }
      users := users + [user];
      saved := user;
    }

    /** `findById(id)`: the first user whose id is strictly equal, or `null`. */
    function FindById(id: Option<Json>): (r: Option<JsObject>)
      reads this, users
      ensures r.None? <==> forall j :: 0 <= j < |users| ==> Field(users[j], "id") != id
      ensures r.Some? ==> exists k :: && 0 <= k < |users| && users[k] == r.value
                                      && Field(users[k], "id") == id
                                      && forall j :: 0 <= j < k ==> Field(users[j], "id") != id
    {
      var k := FindIndex(users, "id", id);
      if k >= 0 then Some(users[k]) else None
    }

    /** `findByEmail(email)`: the first user whose email is strictly equal
        (so letter case matters), or `null`. */
    function FindByEmail(email: Option<Json>): (r: Option<JsObject>)
      reads this, users
      ensures r.None? <==> forall j :: 0 <= j < |users| ==> Field(users[j], "email") != email
      ensures r.Some? ==> exists k :: && 0 <= k < |users| && users[k] == r.value
                                      && Field(users[k], "email") == email
                                      && forall j :: 0 <= j < k ==> Field(users[j], "email") != email
    {
      var k := FindIndex(users, "email", email);
      if k >= 0 then Some(users[k]) else None
    }

    /** `findAll()`: the stored array itself. */
    function FindAll(): (r: seq<JsObject>)
      reads this
      ensures |r| == |users| && forall i :: 0 <= i < |r| ==> r[i] == users[i]
    {
      users
    }

    /** `deleteById(id)`: removes and returns the first user with that id, or
        returns `null` and leaves the store alone. */
    method DeleteById(id: Option<Json>) returns (r: Option<JsObject>)
      modifies this
      ensures currentId == old(currentId) && issued == old(issued)
      ensures var k := old(FindIndex(users, "id", id));
        if k >= 0 then r == Some(old(users)[k]) && users == old(users)[..k] + old(users)[k + 1..]
        else r.None? && users == old(users)
    {
      var index := FindIndex(users, "id", id);
      if index >= 0 {
        r := Some(users[index]);
        users := users[..index] + users[index + 1..];
      } else {
        r := None;
      }
    }

    /** `clear()`: no users, and the counter back at 1. */
    method Clear()
      modifies this
      ensures Valid() && users == [] && currentId == 1 && issued == []
    {
      users := [];
      currentId := 1;
      issued := [];
    }
  }

  /** Two new users get ids 1 and 2 and are found by them; saving the first
      again, now with its id, overwrites its slot and appends it once more,
      so it is stored twice. */
  method SaveScenario() returns (firstId: Option<Json>, secondId: Option<Json>, stored: seq<JsObject>,
                                 foundFirst: bool, firstTwice: bool)
    ensures firstId == Some(JNum(1)) && secondId == Some(JNum(2))
    ensures foundFirst
    ensures |stored| == 3 && firstTwice
  {
    var repo := new InMemoryUserRepository();
    var alice := new JsObject(map["email" := JStr("alice@example.com")]);
    var bob := new JsObject(map["email" := JStr("bob@example.com")]);
    var a := repo.Save(alice);
    assert alice.props["id"] == JNum(1) && repo.users == [alice];
    var b := repo.Save(bob);
    assert bob.props["id"] == JNum(2) && repo.users == [alice, bob];
    firstId := Field(alice, "id");
    secondId := Field(bob, "id");
    assert repo.users[0] == alice;
    assert FindIndex(repo.users, "id", Some(JNum(1))) == 0;
    foundFirst := repo.FindById(Some(JNum(1))) == Some(alice);
    var again := repo.Save(alice);
    assert repo.users == [alice, bob, alice];
    stored := repo.FindAll();
    firstTwice := stored[0] == alice && stored[2] == alice && stored[1] == bob;
  }
}
