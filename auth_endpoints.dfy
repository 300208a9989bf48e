/**
 * The /auth routes: registration, login, token refresh and the caller's own
 * profile. Routes that write take the session; the others are functions of
 * the table. `caller` stands for the user get_current_active_user resolved.
 */
module AuthEndpoints {
  import opened Wrappers
  import opened Errors
  import opened UserModel
  import opened Schemas
  import opened Security
  import opened UserService
  import Dependencies

  /** What get_current_active_user guarantees about the user it hands on. */
  ghost predicate ResolvedActive(users: Store, caller: User)
  {
    caller.id in users && users[caller.id] == caller && caller.isActive
  }

  /** POST /register: validated body, email checked before username, then one new row. */
  method Register(db: Database, input: UserCreate, id: UserId, hasher: Hasher) returns (r: Result<User, Error>)
    requires Valid(db.users)
    requires id !in db.users
    modifies db
    ensures Valid(db.users)
    ensures !ValidUserCreate(input) ==> r == Err(ValidationFailed)
    ensures ValidUserCreate(input) && EmailInUse(old(db.users), input.email) ==> r == Err(EmailAlreadyUsed)
    ensures (ValidUserCreate(input) && !EmailInUse(old(db.users), input.email)
             && UsernameInUse(old(db.users), input.username)) ==> r == Err(UsernameAlreadyUsed)
    ensures r.Ok? <==> ValidUserCreate(input) && !EmailInUse(old(db.users), input.email)
                       && !UsernameInUse(old(db.users), input.username)
    ensures r.Err? ==> db.users == old(db.users)
    ensures r.Ok? ==> && r.value == CreatedUser(id, input, hasher)
                      && db.users == old(db.users)[id := r.value]
                      && |db.users| == |old(db.users)| + 1
  {
    if !ValidUserCreate(input) {
      return Err(ValidationFailed);
    }
    var existingUser := GetByEmail(db.users, input.email);
    if existingUser.Some? {
      return Err(EmailAlreadyUsed);
    }
    var existingUsername := GetByUsername(db.users, input.username);
    if existingUsername.Some? {
      return Err(UsernameAlreadyUsed);
    }
    InsertKeepsValid(db.users, CreatedUser(id, input, hasher));
    var user := Create(db, input, id, hasher);
    return Ok(user);
  }

  /**
   * POST /login: 401 unless the credentials authenticate, 400 when the
   * account is inactive, otherwise a token pair bound to the user's id.
   */
  function Login(users: Store, email: string, password: string, hasher: Hasher): (r: Result<Token, Error>)
    requires Valid(users)
    ensures r == Err(IncorrectLogin) <==>
              !exists id :: id in users && users[id].email == email
                            && hasher.verify(password, users[id].hashedPassword)
    ensures r == Err(InactiveUser) <==>
              exists id :: id in users && users[id].email == email
                           && hasher.verify(password, users[id].hashedPassword) && !users[id].isActive
    ensures r.Ok? ==> exists id :: && id in users && users[id].email == email && users[id].isActive
                                   && hasher.verify(password, users[id].hashedPassword)
                                   && r.value.accessToken == Claims(ACCESS, id)
                                   && r.value.refreshToken == Claims(REFRESH, id)
                                   && r.value.tokenType == BEARER
    ensures forall id | && id in users && users[id].email == email && users[id].isActive
                        && hasher.verify(password, users[id].hashedPassword) :: r == Ok(TokenPairFor(id))
    ensures r.Err? ==> StatusCode(r.error) in {400, 401}
  {
    var user := Authenticate(users, email, password, hasher);
    if user.None? then
      Err(IncorrectLogin)
    else if !user.value.isActive then
      Err(InactiveUser)
    else
      Ok(NewToken(CreateAccessToken(user.value.id), CreateRefreshToken(user.value.id)))
  }

  /**
   * POST /refresh: 401 unless the payload is refresh-typed, 401 unless its
   * subject is a stored, active user, otherwise a new pair for that user.
   */
  function RefreshToken(users: Store, payload: Option<Payload>): (r: Result<Token, Error>)
    requires KeyedById(users)
    ensures payload.None? || payload.value.tokenType != Some(REFRESH) ==> r == Err(InvalidRefreshToken)
    ensures payload.Some? && payload.value.tokenType == Some(ACCESS) ==> r == Err(InvalidRefreshToken)
    ensures payload.Some? && payload.value.tokenType == Some(REFRESH) ==>
              (r.Ok? <==> payload.value.sub.Some? && payload.value.sub.value in users
                          && users[payload.value.sub.value].isActive)
    ensures r.Err? ==> r.error in {InvalidRefreshToken, RefreshUserUnavailable}
    ensures r.Ok? ==> r.value == TokenPairFor(payload.value.sub.value)
    ensures r.Err? ==> StatusCode(r.error) == 401
  {
    if payload.None? || payload.value.tokenType != Some(REFRESH) then
      Err(InvalidRefreshToken)
    else
      // get_by_id with a missing subject matches no row
      var user := if payload.value.sub.None? then None else GetById(users, payload.value.sub.value);
      if user.None? || !user.value.isActive then
        Err(RefreshUserUnavailable)
      else
        Ok(NewToken(CreateAccessToken(user.value.id), CreateRefreshToken(user.value.id)))
  }

  /** GET /me: the caller's own record as a response, which carries no hash. */
  function GetCurrentUserInfo(users: Store, caller: User): (r: UserResponse)
    requires ResolvedActive(users, caller)
    ensures r.id == caller.id && r.email == caller.email && r.username == caller.username
    ensures r.fullName == caller.fullName
    ensures r.isActive && r.isSuperuser == users[caller.id].isSuperuser
  {
    ToResponse(caller)
  }

  /** The check update_current_user and update_user apply to a supplied email. */
  predicate Truthy(f: FieldUpdate<string>)
  {
    f.Set? && f.value != ""
  }

  ghost predicate EmailChangeTaken(users: Store, current: User, f: FieldUpdate<string>)
  {
    Truthy(f) && f.value != current.email && EmailInUse(users, f.value)
  }

  ghost predicate UsernameChangeTaken(users: Store, current: User, f: FieldUpdate<string>)
  {
    Truthy(f) && f.value != current.username && UsernameInUse(users, f.value)
  }

  /**
   * PATCH /me: a new email, then a new username, is refused when it differs
   * from the caller's own and is already taken; otherwise the partial update.
   */
  method UpdateCurrentUser(db: Database, p: UserUpdate, caller: User, hasher: Hasher)
    returns (r: Result<User, Error>)
    requires Valid(db.users)
    requires ResolvedActive(db.users, caller)
    modifies db
    ensures Valid(db.users)
    ensures !ValidUserUpdate(p) ==> r == Err(ValidationFailed)
    ensures ValidUserUpdate(p) && EmailChangeTaken(old(db.users), caller, p.email) ==> r == Err(EmailAlreadyUsed)
    ensures (ValidUserUpdate(p) && !EmailChangeTaken(old(db.users), caller, p.email)
             && UsernameChangeTaken(old(db.users), caller, p.username)) ==> r == Err(UsernameAlreadyUsed)
    ensures r.Ok? <==> ValidUserUpdate(p) && !EmailChangeTaken(old(db.users), caller, p.email)
                       && !UsernameChangeTaken(old(db.users), caller, p.username)
    ensures r.Err? ==> db.users == old(db.users)
    ensures r.Ok? ==> && r.value == Patched(caller, p, hasher.hash)
                      && r.value.isActive == caller.isActive && r.value.isSuperuser == caller.isSuperuser
                      && db.users == old(db.users)[caller.id := r.value]
  {
    if !ValidUserUpdate(p) {
      return Err(ValidationFailed);
    }
    if Truthy(p.email) && p.email.value != caller.email {
      var existing := GetByEmail(db.users, p.email.value);
      if existing.Some? {
        return Err(EmailAlreadyUsed);
      }
    }
    if Truthy(p.username) && p.username.value != caller.username {
      var existing := GetByUsername(db.users, p.username.value);
      if existing.Some? {
        return Err(UsernameAlreadyUsed);
      }
    }
    ReplaceKeepsValid(db.users, Patched(caller, p, hasher.hash));
    var user := Update(db, caller, p, hasher);
    return Ok(user);
  }

  /** DELETE /me: removes the caller's own record, unconditionally. */
  method DeleteCurrentUser(db: Database, caller: User)
    requires Valid(db.users)
    requires ResolvedActive(db.users, caller)
    modifies db
    ensures Valid(db.users)
    ensures db.users == old(db.users) - {caller.id}
    ensures GetById(db.users, caller.id).None?
  {
    RemoveKeepsValid(db.users, caller.id);
    Delete(db, caller);
  }

  /**
   * The access token a successful login issues resolves, through the guard
   * chain, to the user who logged in; the refresh token does not pass the guard.
   */
  lemma LoginTokensResolveToUser(users: Store, email: string, password: string, hasher: Hasher)
    requires Valid(users)
    requires Login(users, email, password, hasher).Ok?
    ensures var t := Login(users, email, password, hasher).value;
            && Dependencies.GetCurrentActiveUser(Some(DecodeIssued(t.accessToken)), users).Ok?
            && Dependencies.GetCurrentActiveUser(Some(DecodeIssued(t.accessToken)), users).value.email == email
            && Dependencies.GetCurrentUser(Some(DecodeIssued(t.refreshToken)), users) == Err(CredentialsInvalid)
  {
    var t := Login(users, email, password, hasher).value;
    var id :| && id in users && users[id].email == email && users[id].isActive
              && hasher.verify(password, users[id].hashedPassword)
              && t.accessToken == Claims(ACCESS, id);
    assert users[id].id == id;
  }

  /**
   * Feeding a login's tokens back to /refresh: the refresh token yields a
   * pair for the same user, the access token is refused.
   */
  lemma LoginTokensRefresh(users: Store, email: string, password: string, hasher: Hasher)
    requires Valid(users)
    requires Login(users, email, password, hasher).Ok?
    ensures var t := Login(users, email, password, hasher).value;
            && RefreshToken(users, Some(DecodeIssued(t.refreshToken))) == Ok(t)
            && RefreshToken(users, Some(DecodeIssued(t.accessToken))) == Err(InvalidRefreshToken)
  {
    var t := Login(users, email, password, hasher).value;
    var id :| && id in users && users[id].email == email && users[id].isActive
              && t.accessToken == Claims(ACCESS, id) && t.refreshToken == Claims(REFRESH, id)
              && t.tokenType == BEARER;
  }

  /**
   * A successful registration can log in at once with the same email and
   * password, provided the hasher verifies a password against its own hash.
   */
  lemma RegisteredUserCanLogIn(users: Store, input: UserCreate, id: UserId, hasher: Hasher)
    requires Valid(users) && id !in users && Sound(hasher)
    requires !EmailInUse(users, input.email) && !UsernameInUse(users, input.username)
    ensures var users' := users[id := CreatedUser(id, input, hasher)];
            Valid(users') && Login(users', input.email, input.password, hasher) == Ok(TokenPairFor(id))
  {
    var u := CreatedUser(id, input, hasher);
    var users' := users[id := u];
    InsertKeepsValid(users, u);
    assert hasher.verify(input.password, hasher.hash(input.password));
    assert users'[id].email == input.email;
    assert Authenticate(users', input.email, input.password, hasher) == Some(u);
  }
}
