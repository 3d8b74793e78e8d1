/** The user controller: it maps the user service's answers and failures
    to HTTP answers and exception kinds, and keeps no state of its own. */
module UserController {
  import opened Wrappers
  import opened Entities
  import Text
  import UserService

  const AlreadyExists := "already exists"
  const RoleUpdated := "User role updated successfully"
  const ProcessingError := "Error processing your request"

  /** An HTTP answer: status code and JSON body. */
  datatype HttpResponse = HttpResponse(statusCode: int, json: UserService.Body)

  /** login and register answer with the service's status and body as they
      are. */
  function Send(reply: UserService.Reply): (out: HttpResponse)
    ensures out.statusCode == reply.status && out.json == reply.body
  {
    HttpResponse(reply.status, reply.body)
  }

  /** The success body of change-role. */
  datatype RoleChanged = RoleChanged(status: string, message: string, data: User)

  /** `updateUserRoles`: the updated user wrapped in a success body; a
      failure whose message mentions "already exists" becomes a Conflict and
      every other failure a NotFound, both keeping the message. */
  function ChangeRoleResponse(r: Result<User, Failure>): (out: Result<RoleChanged, Failure>)
    ensures r.Ok? ==> out == Ok(RoleChanged("success", RoleUpdated, r.value))
    ensures r.Err? ==> out.Err? && out.error.message == r.error.message
    ensures r.Err? ==> (out.error.Conflict? <==> Text.Contains(r.error.message, AlreadyExists))
    ensures r.Err? ==> (out.error.NotFound? <==> !Text.Contains(r.error.message, AlreadyExists))
  {
    match r
    case Ok(user) => Ok(RoleChanged("success", RoleUpdated, user))
    case Err(e) =>
      if Text.Contains(e.message, AlreadyExists) then Err(Conflict(e.message))
      else Err(NotFound(e.message))
  }

  /** A failure mentioning "already exists" is answered with a Conflict. */
  lemma ConflictWhenMentioned(m: string)
    requires Text.Contains(m, AlreadyExists)
    ensures ChangeRoleResponse(Err(Plain(m))) == Err(Conflict(m))
  {
  }

  /** The repeated-role message has "already exists" in the middle. */
  lemma RoleMessageShape(role: Enums.UserRole)
    ensures UserService.RoleAlreadyExists(role)
         == ("Role '" + role.Name() + "' ") + AlreadyExists + " for this user."
  {
  }

  /** Asking for the role a user already has is answered with a Conflict. */
  lemma SameRoleIsConflict(role: Enums.UserRole)
    ensures ChangeRoleResponse(Err(Plain(UserService.RoleAlreadyExists(role))))
         == Err(Conflict(UserService.RoleAlreadyExists(role)))
  {
    RoleMessageShape(role);
    Text.ContainsInMiddle("Role '" + role.Name() + "' ", AlreadyExists, " for this user.");
    ConflictWhenMentioned(UserService.RoleAlreadyExists(role));
  }

  /** Helper for NoMatchAt: the only 'a' of the message head
      "User with email " is at position 12. */
  lemma OnlyAInHead(i: int)
    requires 0 <= i < 16 && "User with email "[i] == 'a'
    ensures i == 12
  {
  }

  /** Helper for NoMatchAt: the only space of "already exists" is at
      position 7. */
  lemma OnlySpaceInPattern(o: int)
    requires 0 <= o < 14 && AlreadyExists[o] == ' '
    ensures o == 7
  {
  }

  /** An unknown e-mail without a space is answered with a NotFound. */
  lemma UnknownEmailIsNotFound(email: string)
    requires ' ' !in email
    ensures ChangeRoleResponse(Err(NotFound(UserService.UserNotFound(email))))
         == Err(NotFound(UserService.UserNotFound(email)))
  {
    var m := UserService.UserNotFound(email);
    Text.ContainsAt(m, AlreadyExists);
    forall i | 0 <= i <= |m| - 14 ensures !Text.OccursAt(m, AlreadyExists, i) {
      NoMatchAt(email, i);
    }
  }

  /** "already exists" does not start at position `i` of the unknown-user
      message: within the head the only 'a' is followed by 'i', inside the
      e-mail the space it needs is missing, and across the tail its space
      would have to be followed by 'n'. */
  lemma NoMatchAt(email: string, i: int)
    requires ' ' !in email
    requires 0 <= i <= |UserService.UserNotFound(email)| - 14
    ensures !Text.OccursAt(UserService.UserNotFound(email), AlreadyExists, i)
  {
    var m := UserService.UserNotFound(email);
    var p := "User with email ";
    var s := " not found";
    var n := |p| + |email|;
    assert m == p + email + s;
    var w := m[i..i + 14];
    if i < |p| {
      assert m[i] == p[i];
      if m[i] == 'a' {
        OnlyAInHead(i);
        assert w[1] == m[13] == p[13] != AlreadyExists[1];
      } else {
        assert w[0] != AlreadyExists[0];
      }
    } else if i + 7 < n {
      assert w[7] == email[i + 7 - |p|] != AlreadyExists[7];
    } else {
      var o := n - i;
      assert w[o] == s[0] == ' ';
      if AlreadyExists[o] == ' ' {
        OnlySpaceInPattern(o);
        assert w[8] == s[1] != AlreadyExists[8];
      }
    }
  }

  /** `resetUserPassword`: NotFound and BadRequest pass through unchanged,
      every other failure becomes BadRequest "Error processing your
      request". */
  function ResetPasswordResponse(r: Outcome<Failure>): (out: Outcome<Failure>)
    ensures r.Pass? ==> out.Pass?
    ensures r.Fail? && (r.error.NotFound? || r.error.BadRequest?) ==> out == r
    ensures r.Fail? && !(r.error.NotFound? || r.error.BadRequest?) ==>
      out == Fail(BadRequest(ProcessingError))
  {
    match r
    case Pass => Pass
    case Fail(e) =>
      if e.NotFound? || e.BadRequest? then r else Fail(BadRequest(ProcessingError))
  }
}
