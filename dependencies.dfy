/**
 * The access-control guards: three stages that resolve a bearer token's
 * payload to a user, then require it to be active, then a superuser. Each
 * stage runs only when the previous one succeeded and passes on the same user.
 * Nothing here changes the table.
 */
module Dependencies {
  import opened Wrappers
  import opened Errors
  import opened UserModel
  import opened Security
  import UserService

  /**
   * get_current_user: the payload must exist and be access-typed, carry a
   * subject, and that subject must be a stored user.
   */
  function GetCurrentUser(payload: Option<Payload>, users: Store): (r: Result<User, Error>)
    requires KeyedById(users)
    ensures r.Ok? <==> && payload.Some? && payload.value.tokenType == Some(ACCESS)
                       && payload.value.sub.Some? && payload.value.sub.value in users
    ensures r.Ok? ==> r.value.id == payload.value.sub.value && r.value in users.Values
    ensures r.Err? ==> r.error == CredentialsInvalid && StatusCode(r.error) == 401
  {
    if payload.None? || payload.value.tokenType != Some(ACCESS) then
      Err(CredentialsInvalid)
    else if payload.value.sub.None? then
      Err(CredentialsInvalid)
    else
      match UserService.GetById(users, payload.value.sub.value)
      case None => Err(CredentialsInvalid)
      case Some(user) => Ok(user)
  }

  /** The active stage on its own. */
  function RequireActive(user: User): Result<User, Error>
  {
    if !user.isActive then Err(InactiveUser) else Ok(user)
  }

  /** The superuser stage on its own. */
  function RequireSuperuser(user: User): Result<User, Error>
  {
    if !user.isSuperuser then Err(InsufficientPrivileges) else Ok(user)
  }

  /** get_current_active_user: the resolved user, refused with 400 when inactive. */
  function GetCurrentActiveUser(payload: Option<Payload>, users: Store): (r: Result<User, Error>)
    requires KeyedById(users)
    ensures GetCurrentUser(payload, users).Err? ==> r == GetCurrentUser(payload, users)
    ensures GetCurrentUser(payload, users).Ok? ==>
              (r.Err? <==> !GetCurrentUser(payload, users).value.isActive)
    ensures GetCurrentUser(payload, users).Ok? && !GetCurrentUser(payload, users).value.isActive ==>
              r == Err(InactiveUser) && StatusCode(r.error) == 400
    ensures r.Err? ==> r.error in {CredentialsInvalid, InactiveUser}
    ensures r.Ok? ==> r == GetCurrentUser(payload, users) && r.value.isActive
  {
    match GetCurrentUser(payload, users)
    case Err(e) => Err(e)
    case Ok(user) => RequireActive(user)
  }

  /** get_current_superuser: the active user, refused with 403 when not a superuser. */
  function GetCurrentSuperuser(payload: Option<Payload>, users: Store): (r: Result<User, Error>)
    requires KeyedById(users)
    ensures GetCurrentActiveUser(payload, users).Err? ==> r == GetCurrentActiveUser(payload, users)
    ensures GetCurrentActiveUser(payload, users).Ok? ==>
              (r.Err? <==> !GetCurrentActiveUser(payload, users).value.isSuperuser)
    ensures GetCurrentActiveUser(payload, users).Ok? && !GetCurrentActiveUser(payload, users).value.isSuperuser ==>
              r == Err(InsufficientPrivileges) && StatusCode(r.error) == 403
    ensures r.Ok? ==> r == GetCurrentUser(payload, users) && r.value.isActive && r.value.isSuperuser
  {
    match GetCurrentActiveUser(payload, users)
    case Err(e) => Err(e)
    case Ok(user) => RequireSuperuser(user)
  }

  /**
   * The stages report the first failure in order: a token failure before
   * inactivity, inactivity before lack of privilege, whatever else holds.
   */
  lemma GuardOrder(payload: Option<Payload>, users: Store)
    requires KeyedById(users)
    ensures GetCurrentSuperuser(payload, users) ==
      if !(payload.Some? && payload.value.tokenType == Some(ACCESS)
           && payload.value.sub.Some? && payload.value.sub.value in users) then Err(CredentialsInvalid)
      else if !users[payload.value.sub.value].isActive then Err(InactiveUser)
      else if !users[payload.value.sub.value].isSuperuser then Err(InsufficientPrivileges)
      else Ok(users[payload.value.sub.value])
  {
    var cur := GetCurrentUser(payload, users);
    if cur.Ok? {
      assert cur.value == users[payload.value.sub.value];
    }
  }
}
