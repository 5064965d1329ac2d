/** The two admin services that create accounts and the user listing. Both
    services hold the `Users` table; the newer one refuses names and emails
    already taken, the older one does not look. */
module UserServices {
  import opened Wrappers
  import opened Text
  import opened AccountRules

  /** A `Users` row with the columns the services write; `roles` holds the
      `RoleValue` of each linked role. */
  datatype User = User(
    id: int,
    username: string,
    email: string,
    passwordHash: string,
    salt: string,
    emailVerified: bool,
    isDeleted: bool,
    roles: seq<string>)

  /** What the password generator hands back. */
  datatype PasswordResponse = PasswordResponse(password: string, hash: string, salt: string)

  datatype AddUserResponse = AddUserResponse(isSuccess: bool, reason: string, password: Option<string>)

  datatype UserResponse = UserResponse(id: int, username: string, email: string, role: string)

  datatype GetUserResponse = GetUserResponse(isSuccess: bool, reason: string, userResponse: Option<seq<UserResponse>>)

  const AlreadyExists := "Username or email already exists"
  const NoUsers := "No users"

  /** Some row has the username or the email, compared case-insensitively. */
  predicate Taken(users: seq<User>, username: string, email: string) {
    exists i :: 0 <= i < |users| &&
      (EqualsIgnoreCase(users[i].username, username) || EqualsIgnoreCase(users[i].email, email))
  }

  /** The reason the validators give, username first; `None` when both
      accept. */
  function ValidationRejection(username: string, email: string): (r: Option<string>)
    ensures r.None? <==> CheckUsername(username).valid && CheckEmail(email).valid
    ensures !CheckUsername(username).valid ==> r == Some(CheckUsername(username).reason)
    ensures CheckUsername(username).valid && !CheckEmail(email).valid ==> r == Some(CheckEmail(email).reason)
  {
    var u := CheckUsername(username);
    if !u.valid then Some(u.reason)
    else
      var e := CheckEmail(email);
      if !e.valid then Some(e.reason) else None
  }

  /** Why `UserService.AddUser` refuses, in the order it checks: a taken name
      or email before any format check. */
  function AddUserRejection(users: seq<User>, username: string, email: string): (r: Option<string>)
    ensures Taken(users, username, email) ==> r == Some(AlreadyExists)
    ensures !Taken(users, username, email) ==> r == ValidationRejection(username, email)
  {
    if Taken(users, username, email) then Some(AlreadyExists) else ValidationRejection(username, email)
  }

  /** No two rows share a username or an email, ignoring case. */
  ghost predicate NoDuplicates(users: seq<User>) {
    forall i, j :: 0 <= i < j < |users| ==>
      !EqualsIgnoreCase(users[i].username, users[j].username) &&
      !EqualsIgnoreCase(users[i].email, users[j].email)
  }

  /** The row `UserService.AddUser` inserts: unverified, not deleted, linked
      to the User role. The id is the database's to assign. */
  function NewUser(username: string, email: string, generated: PasswordResponse): User {
    User(0, username, email, generated.hash, generated.salt, false, false, [UserRole])
  }

  /** The table after `UserService.AddUser`. */
  function AddUserTable(users: seq<User>, username: string, email: string, generated: PasswordResponse): seq<User> {
    if AddUserRejection(users, username, email).Some? then users else users + [NewUser(username, email, generated)]
  }

  /** `UserService.AddUser` never lets a duplicate name or email in. */
  lemma AddUserKeepsNoDuplicates(users: seq<User>, username: string, email: string, generated: PasswordResponse)
    requires NoDuplicates(users)
    ensures NoDuplicates(AddUserTable(users, username, email, generated))
  {
    if AddUserRejection(users, username, email).None? {
      var t := users + [NewUser(username, email, generated)];
      forall i, j | 0 <= i < j < |t|
        ensures !EqualsIgnoreCase(t[i].username, t[j].username) && !EqualsIgnoreCase(t[i].email, t[j].email)
      {
        if j == |users| {
          assert !(EqualsIgnoreCase(users[i].username, username) || EqualsIgnoreCase(users[i].email, email));
        }
      }
    }
  }

  /** The row `AddUserService.AddUser` inserts: unverified, no role link. */
  function NewUnlinkedUser(username: string, email: string, generated: PasswordResponse): User {
    User(0, username, email, generated.hash, generated.salt, false, false, [])
  }

  /** The table after `AddUserService.AddUser`. */
  function AddUnlinkedUserTable(users: seq<User>, username: string, email: string, generated: PasswordResponse): seq<User> {
    if ValidationRejection(username, email).Some? then users else users + [NewUnlinkedUser(username, email, generated)]
  }

  /** `AddUserService.AddUser` does not look for an existing account: adding
      the same valid account twice leaves two rows for it. */
  lemma AddUnlinkedUserAllowsDuplicates(username: string, email: string, generated: PasswordResponse)
    requires ValidationRejection(username, email).None?
    ensures var once := AddUnlinkedUserTable([], username, email, generated);
      var twice := AddUnlinkedUserTable(once, username, email, generated);
      |twice| == 2 && !NoDuplicates(twice)
  {
    var u := NewUnlinkedUser(username, email, generated);
    var once := AddUnlinkedUserTable([], username, email, generated);
    assert once == [u];
    var twice := AddUnlinkedUserTable(once, username, email, generated);
    assert twice == [u, u];
    assert EqualsIgnoreCase(twice[0].username, twice[1].username);
  }

  /** The listing: "No users" for an empty table, else one entry per user
      with the highest of its roles. */
  function UsersListing(users: seq<User>): (r: GetUserResponse)
    ensures r.isSuccess <==> users != []
    ensures !r.isSuccess ==> r.reason == NoUsers && r.userResponse.None?
    ensures r.isSuccess ==> r.userResponse.Some? && |r.userResponse.value| == |users|
  {
    if users == [] then GetUserResponse(false, NoUsers, None)
    else GetUserResponse(true, "", Some(UserEntries(users)))
  }

  function UserEntry(u: User): UserResponse {
    UserResponse(u.id, u.username, u.email, HighestRole(u.roles))
  }

  function UserEntries(users: seq<User>): (r: seq<UserResponse>)
    ensures |r| == |users|
  {
    if users == [] then [] else UserEntries(users[..|users| - 1]) + [UserEntry(users[|users| - 1])]
  }

  /** Every entry of the listing carries its user's id, name and email, and
      over the three known roles the highest of them. */
  lemma {:induction false} UserEntriesSpec(users: seq<User>)
    ensures forall k :: 0 <= k < |users| ==>
      UserEntries(users)[k].id == users[k].id &&
      UserEntries(users)[k].username == users[k].username &&
      UserEntries(users)[k].email == users[k].email &&
      UserEntries(users)[k].role == HighestRole(users[k].roles)
    ensures forall k :: 0 <= k < |users| && KnownRoles(users[k].roles) ==>
      UserEntries(users)[k].role == Ranked(users[k].roles)
  {
    if users != [] {
      UserEntriesSpec(users[..|users| - 1]);
    }
    forall k | 0 <= k < |users| && KnownRoles(users[k].roles)
      ensures HighestRole(users[k].roles) == Ranked(users[k].roles)
    {
      HighestRoleRanks(users[k].roles);
    }
  }

  /** `UserService` over the `Users` table. */
  class UserService {
    var users: seq<User>

    constructor(users0: seq<User>)
      ensures users == users0
    {
      users := users0;
    }

    /** `AddUser`: refuse a taken name or email, then an invalid name, then an
        invalid email; otherwise insert one row and return the password. */
    method AddUser(username: string, email: string, generated: PasswordResponse) returns (response: AddUserResponse)
      modifies this
      ensures users == AddUserTable(old(users), username, email, generated)
      ensures response.isSuccess <==> AddUserRejection(old(users), username, email).None?
      ensures !response.isSuccess ==>
        response.reason == AddUserRejection(old(users), username, email).value && response.password.None?
      ensures response.isSuccess ==> response.password == Some(generated.password)
    {
      if Taken(users, username, email) {
        return AddUserResponse(false, AlreadyExists, None);
      }
      var u := CheckUsername(username);
      if !u.valid {
        return AddUserResponse(false, u.reason, None);
      }
      var e := CheckEmail(email);
      if !e.valid {
        return AddUserResponse(false, e.reason, None);
      }
      users := users + [NewUser(username, email, generated)];
      response := AddUserResponse(true, "", Some(generated.password));
    }

    /** `GetUsers`: rank each user's roles with the ranking loop. */
    method GetUsers() returns (response: GetUserResponse)
      ensures response == UsersListing(users)
    {
      if |users| == 0 {
        return GetUserResponse(false, NoUsers, None);
      }
      var entries: seq<UserResponse> := [];
      var i := 0;
      while i < |users|
        invariant 0 <= i <= |users|
        invariant entries == UserEntries(users[..i])
      {
        var highestRole := GetHighestRole(users[i].roles);
        assert users[..i + 1][..i] == users[..i];
        entries := entries + [UserResponse(users[i].id, users[i].username, users[i].email, highestRole)];
        i := i + 1;
      }
      assert users[..i] == users;
      response := GetUserResponse(true, "", Some(entries));
    }
  }

  /** `AddUserService` over the `Users` table. */
  class AddUserService {
    var users: seq<User>

    constructor(users0: seq<User>)
      ensures users == users0
    {
      users := users0;
    }

    /** `AddUser`: refuse an invalid name, then an invalid email; otherwise
        insert one row. The password is written to the console only. */
    method AddUser(username: string, email: string, generated: PasswordResponse) returns (response: AddUserResponse)
      modifies this
      ensures users == AddUnlinkedUserTable(old(users), username, email, generated)
      ensures response.isSuccess <==> ValidationRejection(username, email).None?
      ensures !response.isSuccess ==> response.reason == ValidationRejection(username, email).value
      ensures response.password.None?
    {
      var u := CheckUsername(username);
      if !u.valid {
        return AddUserResponse(false, u.reason, None);
      }
      var e := CheckEmail(email);
      if !e.valid {
        return AddUserResponse(false, e.reason, None);
      }
      users := users + [NewUnlinkedUser(username, email, generated)];
      response := AddUserResponse(true, "", None);
    }
  }
}
