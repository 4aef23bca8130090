/** `POST /register` and `POST /login`. Username, password and gender
    arrive as strings ("" when missing); age arrives as a JSON value because
    its `typeof` is checked. bcrypt is opaque: registration receives the
    hash, login receives the comparison as a predicate. Tokens are not part
    of this model. */
module Auth {
  import opened Seqs
  import opened Store
  import opened Http

  const MissingFields: string := "All fields are required: username, password, age, gender"
  const BadAge: string := "Age must be a number between 1 and 150"
  const BadGender: string := "Gender must be Male, Female, or Other"
  const ShortPassword: string := "Password must be at least 4 characters"
  const UsernameTaken: string := "Username already taken"
  const MissingCredentials: string := "Username and password are required"
  const BadCredentials: string := "Invalid username or password"

  datatype Registration = Registration(username: string, password: string, age: Json, gender: string)

  /** The three names the `gender` column admits, and the inverse of
      `GenderName`. */
  function ParseGender(s: string): (g: Option<Gender>)
    ensures g.Some? <==> s in {"Male", "Female", "Other"}
    ensures g.Some? ==> GenderName(g.value) == s
  {
    if s == "Male" then Some(Male)
    else if s == "Female" then Some(Female)
    else if s == "Other" then Some(Other)
    else None
  }

  lemma ParseGenderName(g: Gender)
    ensures ParseGender(GenderName(g)) == Some(g)
  {
  }

  predicate AllPresent(r: Registration)
  {
    r.username != "" && r.password != "" && Truthy(r.age) && r.gender != ""
  }

  predicate AgeInRange(age: Json)
  {
    age.Number? && 1 <= age.n <= 150
  }

  /** Every check of the chain passes. */
  predicate Acceptable(r: Registration)
  {
    AllPresent(r) && AgeInRange(r.age) && ParseGender(r.gender).Some? && |r.password| >= 4
  }

  /** The message of the first check that fails, in the order the route
      makes them. */
  function RegistrationError(r: Registration): (e: Option<string>)
    ensures e.None? <==> Acceptable(r)
    ensures e == Some(MissingFields) <==> !AllPresent(r)
    ensures e == Some(BadAge) <==> AllPresent(r) && !AgeInRange(r.age)
    ensures e == Some(BadGender) <==> AllPresent(r) && AgeInRange(r.age) && ParseGender(r.gender).None?
    ensures e == Some(ShortPassword)
            <==> AllPresent(r) && AgeInRange(r.age) && ParseGender(r.gender).Some? && |r.password| < 4
  {
    if r.username == "" || r.password == "" || !Truthy(r.age) || r.gender == "" then Some(MissingFields)
    else if !r.age.Number? || r.age.n < 1 || r.age.n > 150 then Some(BadAge)
    else if ParseGender(r.gender).None? then Some(BadGender)
    else if |r.password| < 4 then Some(ShortPassword)
    else None
  }

  /** An age of 0 is falsy, so it is reported as a missing field rather
      than as out of range; a numeric string is out of range. */
  lemma ZeroAgeIsMissing(username: string, password: string, gender: string)
    ensures RegistrationError(Registration(username, password, Number(0), gender)) == Some(MissingFields)
    ensures username != "" && password != "" && gender != "" ==>
            RegistrationError(Registration(username, password, Text("30"), gender)) == Some(BadAge)
  {
  }

  /** The row of `users` whose `username` equals `name` (compared exactly). */
  function FindByName(users: seq<User>, name: string): (r: Option<User>)
    ensures r.Some? ==> r.value in users && r.value.username == name
    ensures r.None? <==> forall u :: u in users ==> u.username != name
  {
    if users == [] then None
    else if users[0].username == name then Some(users[0])
    else FindByName(users[1..], name)
  }

  /** Usernames are UNIQUE and ids are the primary key. */
  predicate UniqueUsers(users: seq<User>, nextId: int)
  {
    && (forall i :: 0 <= i < |users| ==> users[i].id < nextId)
    && (forall i, j :: 0 <= i < j < |users| ==> users[i].id != users[j].id && users[i].username != users[j].username)
  }

  lemma AppendUser(users: seq<User>, nextId: int, u: User)
    requires UniqueUsers(users, nextId)
    requires u.id == nextId && FindByName(users, u.username).None?
    ensures UniqueUsers(users + [u], nextId + 1)
  {
    assert forall i :: 0 <= i < |users| ==> users[i] in users;
  }

  /** The `users` table with its AUTOINCREMENT counter. */
  class UserTable {
    var users: seq<User>
    var nextId: int

    ghost predicate Valid()
      reads this
    {
      UniqueUsers(users, nextId)
    }

    constructor()
      ensures Valid() && users == [] && nextId == 1
    {
      users := [];
      nextId := 1;
    }

    /** `POST /register`: 400 with the first failed check's message, 409
        when the name is taken, otherwise the user is inserted with the
        next id and echoed with 201. `hash` is bcrypt's hash of the
        password. */
    method Register(r: Registration, hash: string) returns (reply: Reply)
      requires Valid()
      modifies this
      ensures Valid()
      ensures RegistrationError(r).Some? ==>
        reply == Reply(400, Error(RegistrationError(r).value))
        && users == old(users) && nextId == old(nextId)
      ensures Acceptable(r) && FindByName(old(users), r.username).Some? ==>
        reply == Reply(409, Error(UsernameTaken))
        && users == old(users) && nextId == old(nextId)
      ensures Acceptable(r) && FindByName(old(users), r.username).None? ==>
        var u := User(old(nextId), r.username, hash, r.age.n, ParseGender(r.gender).value);
        && users == old(users) + [u]
        && nextId == old(nextId) + 1
        && reply == Reply(201, UserInfo("User registered successfully", u.id, r.username, r.age.n, r.gender))
    {
      var e := RegistrationError(r);
      if e.Some? {
        return Reply(400, Error(e.value));
      }
      if FindByName(users, r.username).Some? {
        return Reply(409, Error(UsernameTaken));
      }
      var u := User(nextId, r.username, hash, r.age.n, ParseGender(r.gender).value);
      AppendUser(users, nextId, u);
      users := users + [u];
      nextId := nextId + 1;
      reply := Reply(201, UserInfo("User registered successfully", u.id, r.username, r.age.n, r.gender));
    }
  }

  /** `POST /login`. `matches(password, hash)` is bcrypt's comparison. */
  function Login(users: seq<User>, username: string, password: string, matches: (string, string) -> bool): (reply: Reply)
    ensures username == "" || password == "" ==> reply == Reply(400, Error(MissingCredentials))
    ensures reply.status == 200 ==>
      exists u :: (u in users && u.username == username && matches(password, u.passwordHash)
                   && reply.body == UserInfo("Login successful", u.id, u.username, u.age, GenderName(u.gender)))
    ensures reply.status != 200 && username != "" && password != "" ==>
      reply == Reply(401, Error(BadCredentials))
  {
    if username == "" || password == "" then Reply(400, Error(MissingCredentials))
    else
      match FindByName(users, username)
      case None => Reply(401, Error(BadCredentials))
      case Some(u) =>
        if !matches(password, u.passwordHash) then Reply(401, Error(BadCredentials))
        else Reply(200, UserInfo("Login successful", u.id, u.username, u.age, GenderName(u.gender)))
  }

  /** With unique usernames, login succeeds exactly when the named user
      exists and the password matches that user's hash. */
  lemma LoginSucceedsExactly(users: seq<User>, nextId: int, username: string, password: string,
                             matches: (string, string) -> bool)
    requires UniqueUsers(users, nextId)
    requires username != "" && password != ""
    ensures Login(users, username, password, matches).status == 200
            <==> exists u :: u in users && u.username == username && matches(password, u.passwordHash)
  {
    var found := FindByName(users, username);
    if u :| u in users && u.username == username && matches(password, u.passwordHash) {
      SameNameSameUser(users, nextId, u, found.value);
    }
  }

  lemma SameNameSameUser(users: seq<User>, nextId: int, u: User, v: User)
    requires UniqueUsers(users, nextId)
    requires u in users && v in users && u.username == v.username
    ensures u == v
  {
    var i :| 0 <= i < |users| && users[i] == u;
    var j :| 0 <= j < |users| && users[j] == v;
  }

  /** An unknown username and a wrong password get the same reply, so the
      reply does not reveal which usernames exist. */
  lemma LoginHidesUnknownUsers(users: seq<User>, nextId: int, username: string, password: string,
                               matches: (string, string) -> bool)
    requires UniqueUsers(users, nextId)
    requires username != "" && password != ""
    ensures (forall u :: u in users ==> u.username != username)
            ==> Login(users, username, password, matches) == Reply(401, Error(BadCredentials))
    ensures (exists u :: u in users && u.username == username && !matches(password, u.passwordHash))
            ==> Login(users, username, password, matches) == Reply(401, Error(BadCredentials))
  {
    var found := FindByName(users, username);
    if u :| u in users && u.username == username && !matches(password, u.passwordHash) {
      SameNameSameUser(users, nextId, u, found.value);
    }
  }
}
