/** The mock authentication store `authAPI` of ctr_web/src/api/users.js: a module-level
    list of users that `login` scans and `register` scans and pushes onto. The one-second
    delay and the Promise are left out; each call settles at once with a value or an error. */
module Auth {
  import opened Wrappers
  import opened Seqs

  datatype User = User(
    id: int,
    username: string,
    password: string,
    email: string,
    firstName: string,
    lastName: string)

  /** A user with the `password` field removed. */
  datatype PublicUser = PublicUser(
    id: int,
    username: string,
    email: string,
    firstName: string,
    lastName: string)

  /** The object handed to `register`; `lastName` may be missing. */
  datatype RegisterData = RegisterData(
    username: string,
    password: string,
    email: string,
    firstName: string,
    lastName: Option<string>)

  const InvalidCredentials := "Invalid username or password"
  const AlreadyExists := "User with this username or email already exists"

  function SeedUsers(): seq<User> {
    [ User(1, "alex", "alex123", "alex@company.com", "Alex", "Johnson"),
      User(2, "sarah", "sarah123", "sarah@company.com", "Sarah", "Miller"),
      User(3, "mike", "mike123", "mike@company.com", "Mike", "Davis") ]
  }

  /** `const { password: _, ...userWithoutPassword } = user` */
  function Sanitize(u: User): PublicUser {
    PublicUser(u.id, u.username, u.email, u.firstName, u.lastName)
  }

  predicate Matches(u: User, username: string, password: string) {
    u.username == username && u.password == password
  }

  /** `login`'s answer over a list of users: the first exact match, without its password. */
  function FindLogin(users: seq<User>, username: string, password: string): (r: Result<PublicUser>)
    ensures r.Ok? <==> exists i :: 0 <= i < |users| && Matches(users[i], username, password)
    ensures r.Ok? ==> exists i :: 0 <= i < |users| && Matches(users[i], username, password)
                        && (forall j :: 0 <= j < i ==> !Matches(users[j], username, password))
                        && r.value == Sanitize(users[i])
    ensures r.Err? ==> r.message == InvalidCredentials
  {
    if users == [] then Err(InvalidCredentials)
    else if Matches(users[0], username, password) then Ok(Sanitize(users[0]))
    else
      var r := FindLogin(users[1..], username, password);
      assert forall i :: 0 < i < |users| ==> users[i] == users[1..][i - 1];
      r
  }

  /** `u.username === userData.username || u.email === userData.email` */
  predicate Conflicts(u: User, data: RegisterData) {
    u.username == data.username || u.email == data.email
  }

  predicate AnyConflict(users: seq<User>, data: RegisterData) {
    exists i :: 0 <= i < |users| && Conflicts(users[i], data)
  }

  /** The ids of `users`, in order. */
  function UserIds(users: seq<User>): seq<int> {
    seq(|users|, i requires 0 <= i < |users| => users[i].id)
  }

  /** The user `register` builds: the next id, and an empty last name when none is given. */
  function NewUser(users: seq<User>, data: RegisterData): (u: User)
    requires |users| > 0
    ensures forall i :: 0 <= i < |users| ==> users[i].id < u.id
    ensures exists i :: 0 <= i < |users| && u.id == users[i].id + 1
  {
    var ids := UserIds(users);
    assert forall i :: 0 <= i < |users| ==> ids[i] == users[i].id;
    User(MaxOf(ids) + 1, data.username, data.password, data.email, data.firstName,
         data.lastName.GetOr(""))
  }

  /** No two users share an id, a username or an email. */
  predicate DistinctAccounts(users: seq<User>) {
    forall i, j :: 0 <= i < j < |users| ==>
      users[i].id != users[j].id && users[i].username != users[j].username
      && users[i].email != users[j].email
  }

  /** The user a successful `register` adds can log in at once with the password it gave,
      and gets back itself without the password. */
  lemma RegisterThenLogin(users: seq<User>, data: RegisterData)
    requires |users| > 0 && !AnyConflict(users, data)
    ensures FindLogin(users + [NewUser(users, data)], data.username, data.password)
            == Ok(Sanitize(NewUser(users, data)))
  {
    var all := users + [NewUser(users, data)];
    var r := FindLogin(all, data.username, data.password);
    assert Matches(all[|users|], data.username, data.password);
    var i :| 0 <= i < |all| && Matches(all[i], data.username, data.password)
             && (forall j :: 0 <= j < i ==> !Matches(all[j], data.username, data.password))
             && r.value == Sanitize(all[i]);
    forall j | 0 <= j < |users| ensures !Matches(all[j], data.username, data.password) {
      assert !Conflicts(users[j], data);
    }
    assert i == |users|;
  }

  class AuthApi {
    var users: seq<User>

    /** The list is never empty (so `Math.max` has an id to work on) and holds distinct accounts. */
    ghost predicate Valid()
      reads this
    {
      |users| > 0 && DistinctAccounts(users)
    }

    constructor ()
      ensures Valid() && users == SeedUsers()
    {
      users := SeedUsers();
    }

    /** `login(username, password)`: the first user with exactly that username and password,
        without the password; otherwise "Invalid username or password". Nothing changes. */
    method Login(username: string, password: string) returns (r: Result<PublicUser>)
      ensures r == FindLogin(users, username, password)
    {
      var i := 0;
      while i < |users| && !Matches(users[i], username, password)
        invariant 0 <= i <= |users|
        invariant FindLogin(users[i..], username, password) == FindLogin(users, username, password)
      {
        assert users[i..][1..] == users[i + 1..];
        i := i + 1;
      }
      if i == |users| {
        r := Err(InvalidCredentials);
      } else {
        r := Ok(Sanitize(users[i]));
      }
    }

    /** `register(userData)`: rejects a username or an email already in use and leaves the list
        alone; otherwise appends the new user and returns it without the password. */
    method Register(data: RegisterData) returns (r: Result<PublicUser>)
      requires Valid()
      modifies this
      ensures Valid()
      ensures AnyConflict(old(users), data) ==> r == Err(AlreadyExists) && users == old(users)
      ensures !AnyConflict(old(users), data) ==>
        users == old(users) + [NewUser(old(users), data)] && r == Ok(Sanitize(NewUser(old(users), data)))
    {
      var i := 0;
      while i < |users| && !Conflicts(users[i], data)
        invariant 0 <= i <= |users|
        invariant forall j :: 0 <= j < i ==> !Conflicts(users[j], data)
      {
        i := i + 1;
      }
      if i < |users| {
        r := Err(AlreadyExists);
        return;
      }
      var newUser := NewUser(users, data);
      users := users + [newUser];
      r := Ok(Sanitize(newUser));
    }

    /** `logout()` always resolves `true` and touches nothing. */
    method Logout() returns (r: bool)
      ensures r
    {
      r := true;
    }
  }
}
