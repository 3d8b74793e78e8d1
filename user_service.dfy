/** The user service: a users table keyed by e-mail (a unique column), role
    changes, password resets, and the status-code decisions of login and
    registration. bcrypt is a comparison `matches(plain, hash)` and a hash
    value produced outside; the JWT is the claims record it signs. */
module UserService {
  import opened Wrappers
  import opened Enums
  import opened Entities

  function UserNotFound(email: string): string {
    "User with email " + email + " not found"
  }

  /** The repeated-role message; its middle is kept as a separate literal
      so that the phrase the controller looks for is visible. */
  function RoleAlreadyExists(role: UserRole): string {
    "Role '" + role.Name() + "' " + "already exists" + " for this user."
  }

  function NoUserWithEmail(email: string): string {
    "No user found with the email " + email
  }

  const SamePassword := "New password cannot be the same as the old password."
  const InvalidCredentials := "Invalid credentials"
  const InvalidFields := "Invalid fields."
  const InvalidContent := "Invalid content"
  const UserExists := "User already exists"
  const UserCreated := "User created with success"

  /** What the JWT access token carries. */
  datatype Claims = Claims(id: nat, email: string, role: Option<UserRole>)

  /** The JSON body of a login or registration answer. */
  datatype Body = Message(msg: string) | AccessToken(token: Claims)

  /** `{status, msg}` from login, `{status, content}` from createUser. */
  datatype Reply = Reply(status: int, body: Body)

  /** What a registration request carries. */
  datatype Registration = Registration(
    email: string,
    password: string,
    faculty: Option<Faculty>,
    specialization: Option<Specialization>,
    year: Option<int>)

  /** The answer login gives for a table of users; `validates` is the verdict
      of the request's validation rules. */
  function LoginReply(users: map<string, User>, email: string, password: string,
                      validates: bool, matches: (string, string) -> bool): (reply: Reply)
    ensures reply.status in {200, 400, 401}
    ensures reply.status == 200 <==> reply.body.AccessToken?
    ensures reply.body.AccessToken? ==> reply.body.token.email == email && email in users
  {
    if !validates then Reply(400, Message(InvalidFields))
    else if email !in users then Reply(401, Message(InvalidCredentials))
    else if !matches(password, users[email].password) then Reply(401, Message(InvalidCredentials))
    else Reply(200, AccessToken(Claims(users[email].id, email, users[email].role)))
  }

  /** Login is 200 with a token exactly for a valid request naming a known
      user whose stored hash matches the password; 400 for an invalid
      request; 401 otherwise. */
  lemma LoginOutcomes(users: map<string, User>, email: string, password: string,
                      validates: bool, matches: (string, string) -> bool)
    ensures var reply := LoginReply(users, email, password, validates, matches);
      && (reply.status == 200 <==> validates && email in users && matches(password, users[email].password))
      && (reply.status == 400 <==> !validates)
      && (reply.status == 401 <==> validates && (email !in users || !matches(password, users[email].password)))
      && (reply.status == 200 ==> reply.body == AccessToken(Claims(users[email].id, email, users[email].role)))
      && (reply.status != 200 ==> reply.body.Message?)
  {
  }

  class UserService {
    var users: map<string, User>
    var nextUserId: nat

    /** Each row is stored under its own e-mail and has an id below the
        generator. */
    ghost predicate Valid()
      reads this
    {
      forall e :: e in users ==> users[e].email == e && users[e].id < nextUserId
    }

    constructor (users: map<string, User>, nextUserId: nat)
      requires forall e :: e in users ==> users[e].email == e && users[e].id < nextUserId
      ensures Valid() && this.users == users && this.nextUserId == nextUserId
    {
      this.users := users;
      this.nextUserId := nextUserId;
    }

    /** `updateUserRole`: NotFound for an unknown e-mail; a plain "already
        exists" error, storing nothing, when the user already has the role;
        otherwise stores and returns the user with the new role. */
    method UpdateUserRole(email: string, newRole: UserRole) returns (r: Result<User, Failure>)
      requires Valid()
      modifies this`users
      ensures Valid()
      ensures email !in old(users) ==> r == Err(NotFound(UserNotFound(email)))
      ensures email in old(users) && old(users)[email].role == Some(newRole) ==>
        r == Err(Plain(RoleAlreadyExists(newRole)))
      ensures r.Err? ==> users == old(users)
      ensures r.Ok? <==> email in old(users) && old(users)[email].role != Some(newRole)
      ensures r.Ok? ==>
        && r.value == old(users)[email].(role := Some(newRole))
        && users == old(users)[email := r.value]
    {
      if email !in users {
        return Err(NotFound(UserNotFound(email)));
      }
      var user := users[email];
      if user.role != Some(newRole) {
        user := user.(role := Some(newRole));
        users := users[email := user];
      } else {
        return Err(Plain(RoleAlreadyExists(newRole)));
      }
      r := Ok(user);
    }

    /** `login`: the validation verdict is recorded in a flag, then the user
        is looked up and the password compared with the stored hash. */
    method Login(email: string, password: string, validates: bool, matches: (string, string) -> bool)
      returns (reply: Reply)
      ensures reply == LoginReply(users, email, password, validates, matches)
      ensures reply.status == 200 <==> validates && email in users && matches(password, users[email].password)
    {
      var isOk := false;
      if validates {
        isOk := true;
      }
      if isOk {
        if email !in users {
          return Reply(401, Message(InvalidCredentials));
        }
        var details := users[email];
        if matches(password, details.password) {
          reply := Reply(200, AccessToken(Claims(details.id, email, details.role)));
        } else {
          reply := Reply(401, Message(InvalidCredentials));
        }
      } else {
        reply := Reply(400, Message(InvalidFields));
      }
    }

    /** The save of a new user row: it fails on a duplicate e-mail. The new
        row carries the hashed password and no role. */
    method SaveNewUser(body: Registration, passwordHash: string) returns (saved: bool)
      requires Valid()
      modifies this
      ensures Valid()
      ensures saved <==> body.email !in old(users)
      ensures !saved ==> users == old(users) && nextUserId == old(nextUserId)
      ensures saved ==>
        && users == old(users)[body.email := User(old(nextUserId), body.email, passwordHash,
                                                  body.faculty, body.specialization, body.year, None)]
        && nextUserId == old(nextUserId) + 1
    {
      saved := body.email !in users;
      if saved {
        users := users[body.email := User(nextUserId, body.email, passwordHash,
                                          body.faculty, body.specialization, body.year, None)];
        nextUserId := nextUserId + 1;
      }
    }

    /** `createUser` as the source has it: the Student role is assigned even
        when the save failed, so an existing account's role is overwritten
        (or, for an existing Student, the "already exists" error escapes).
        `passwordHash` is what bcrypt's hashing gives for the submitted
        password, or the error it throws (a missing or non-string password);
        hashing runs before validation, so that error escapes first. */
    method CreateUserAsWritten(body: Registration, validates: bool, passwordHash: Result<string, string>)
      returns (r: Result<Reply, Failure>)
      requires Valid()
      modifies this
      ensures Valid()
      ensures passwordHash.Err? ==> r == Err(Plain(passwordHash.error)) && users == old(users)
      ensures passwordHash.Ok? && !validates ==> r == Ok(Reply(400, Message(InvalidContent))) && users == old(users)
      ensures passwordHash.Ok? && validates && body.email in old(users) && old(users)[body.email].role != Some(Student) ==>
        && r == Ok(Reply(400, Message(UserExists)))
        && users == old(users)[body.email := old(users)[body.email].(role := Some(Student))]
      ensures passwordHash.Ok? && validates && body.email in old(users) && old(users)[body.email].role == Some(Student) ==>
        r == Err(Plain(RoleAlreadyExists(Student))) && users == old(users)
      ensures passwordHash.Ok? && validates && body.email !in old(users) ==>
        && r == Ok(Reply(201, Message(UserCreated)))
        && users == old(users)[body.email := User(old(nextUserId), body.email, passwordHash.value,
                                                  body.faculty, body.specialization, body.year, Some(Student))]
    {
      if passwordHash.Err? {
        return Err(Plain(passwordHash.error));
      }
      if !validates {
        return Ok(Reply(400, Message(InvalidContent)));
      }
      var isOk := SaveNewUser(body, passwordHash.value);
      var roleChange := UpdateUserRole(body.email, Student);
      if roleChange.Err? {
        return Err(roleChange.error);
      }
      if isOk {
        r := Ok(Reply(201, Message(UserCreated)));
      } else {
        r := Ok(Reply(400, Message(UserExists)));
      }
    }

    /** `createUser` as evidently intended: the new account gets the Student
        role; a duplicate e-mail is answered 400 and leaves the existing
        account as it was. The stored password is always the hash. A hashing
        error still escapes first, as in the source. */
    method CreateUser(body: Registration, validates: bool, passwordHash: Result<string, string>)
      returns (r: Result<Reply, Failure>)
      requires Valid()
      modifies this
      ensures Valid()
      ensures passwordHash.Err? ==> r == Err(Plain(passwordHash.error)) && users == old(users)
      ensures passwordHash.Ok? ==> r.Ok?
      ensures passwordHash.Ok? && !validates ==> r == Ok(Reply(400, Message(InvalidContent))) && users == old(users)
      ensures passwordHash.Ok? && validates && body.email in old(users) ==>
        r == Ok(Reply(400, Message(UserExists))) && users == old(users)
      ensures passwordHash.Ok? && validates && body.email !in old(users) ==>
        && r == Ok(Reply(201, Message(UserCreated)))
        && users == old(users)[body.email := User(old(nextUserId), body.email, passwordHash.value,
                                                  body.faculty, body.specialization, body.year, Some(Student))]
      ensures r.Ok? && r.value.status == 201 ==> users[body.email].password == passwordHash.value
    {
      if passwordHash.Err? {
        return Err(Plain(passwordHash.error));
      }
      if !validates {
        return Ok(Reply(400, Message(InvalidContent)));
      }
      var isOk := SaveNewUser(body, passwordHash.value);
      if isOk {
        var _ := UpdateUserRole(body.email, Student);
        r := Ok(Reply(201, Message(UserCreated)));
      } else {
        r := Ok(Reply(400, Message(UserExists)));
      }
    }

    /** `resetPassword`: NotFound for an unknown e-mail; BadRequest, changing
        nothing, when the new password matches the stored hash; otherwise
        stores `newHash`, the hash of the new password. `compareError` is
        what bcrypt's comparison rejects with, if anything (a missing or
        non-string password); it escapes as a plain error, changing
        nothing. */
    method ResetPassword(email: string, newPassword: string, newHash: string,
                         compareError: Option<string>, matches: (string, string) -> bool)
      returns (r: Outcome<Failure>)
      requires Valid()
      modifies this`users
      ensures Valid()
      ensures email !in old(users) ==> r == Fail(NotFound(NoUserWithEmail(email)))
      ensures email in old(users) && compareError.Some? ==> r == Fail(Plain(compareError.value))
      ensures email in old(users) && compareError.None? && matches(newPassword, old(users)[email].password) ==>
        r == Fail(BadRequest(SamePassword))
      ensures r.Fail? ==> users == old(users)
      ensures r.Pass? <==>
        email in old(users) && compareError.None? && !matches(newPassword, old(users)[email].password)
      ensures r.Pass? ==> users == old(users)[email := old(users)[email].(password := newHash)]
    {
      if email !in users {
        return Fail(NotFound(NoUserWithEmail(email)));
      }
      var user := users[email];
      if compareError.Some? {
        return Fail(Plain(compareError.value));
      }
      if matches(newPassword, user.password) {
        return Fail(BadRequest(SamePassword));
      }
      users := users[email := user.(password := newHash)];
      r := Pass;
    }
  }

  /** After a reset, the new password logs in (given that the stored value
      is its hash) and the old one no longer does (unless it also matches). */
  lemma LoginAfterReset(users: map<string, User>, email: string, oldPassword: string, newPassword: string,
                        newHash: string, matches: (string, string) -> bool)
    requires email in users
    requires matches(newPassword, newHash)
    ensures var after := users[email := users[email].(password := newHash)];
      && LoginReply(after, email, newPassword, true, matches).status == 200
      && (!matches(oldPassword, newHash) ==> LoginReply(after, email, oldPassword, true, matches).status == 401)
  {
  }

  /** Registering the e-mail of an existing Admin with the code as written
      demotes that Admin to Student and still answers 400. */
  method RegisterDemotesAdmin() returns (before: Option<UserRole>, after: Option<UserRole>, r: Result<Reply, Failure>)
    ensures before == Some(Admin) && after == Some(Student)
    ensures r == Ok(Reply(400, Message(UserExists)))
  {
    var email := "admin@upt.ro";
    var admin := User(0, email, "stored-hash", None, None, None, Some(Admin));
    var svc := new UserService(map[email := admin], 1);
    before := svc.users[email].role;
    r := svc.CreateUserAsWritten(Registration(email, "new-password", None, None, None), true, Ok("new-hash"));
    after := svc.users[email].role;
  }

  /** Registering the e-mail of an existing Student with the code as written
      does not answer "User already exists": the role error escapes, which
      the web framework turns into a 500. */
  method RegisterExistingStudentThrows() returns (r: Result<Reply, Failure>)
    ensures r.Err? && r.error.Status() == 500
  {
    var email := "student@upt.ro";
    var student := User(0, email, "stored-hash", None, None, None, Some(Student));
    var svc := new UserService(map[email := student], 1);
    r := svc.CreateUserAsWritten(Registration(email, "new-password", None, None, None), true, Ok("new-hash"));
  }

  /** With the corrected registration, the same request leaves the Admin's
      role alone. */
  method RegisterKeepsAdmin() returns (after: Option<UserRole>, r: Result<Reply, Failure>)
    ensures after == Some(Admin) && r == Ok(Reply(400, Message(UserExists)))
  {
    var email := "admin@upt.ro";
    var admin := User(0, email, "stored-hash", None, None, None, Some(Admin));
    var svc := new UserService(map[email := admin], 1);
    r := svc.CreateUser(Registration(email, "new-password", None, None, None), true, Ok("new-hash"));
    after := svc.users[email].role;
  }
}
