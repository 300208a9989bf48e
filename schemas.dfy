/**
 * The request and response shapes of the API and the length constraints
 * the validation layer enforces on them before any endpoint body runs.
 */
module Schemas {
  import opened Wrappers
  import opened UserModel
  import opened Security

  const USERNAME_MIN_LENGTH := 3
  const USERNAME_MAX_LENGTH := 50
  const FULL_NAME_MAX_LENGTH := 100
  const PASSWORD_MIN_LENGTH := 8
  const PASSWORD_MAX_LENGTH := 100
  const BEARER := "bearer"

  /**
   * A field of a PATCH body: absent from the request (so excluded by
   * exclude_unset) or supplied with a value.
   */
  datatype FieldUpdate<T> = Unset | Set(value: T)

  /** EmailStr is a foreign validator; the model keeps only that it refuses the empty string. */
  predicate ValidEmail(email: string) { email != "" }

  predicate ValidUsername(username: string)
  {
    USERNAME_MIN_LENGTH <= |username| <= USERNAME_MAX_LENGTH
  }

  /** full_name is optional and has an upper bound but no lower one. */
  predicate ValidFullName(fullName: Option<string>): (b: bool)
    ensures fullName.None? ==> b
    ensures fullName == Some("") ==> b
    ensures fullName.Some? && |fullName.value| > FULL_NAME_MAX_LENGTH ==> !b
  {
    fullName.Some? ==> |fullName.value| <= FULL_NAME_MAX_LENGTH
  }

  predicate ValidPassword(password: string)
  {
    PASSWORD_MIN_LENGTH <= |password| <= PASSWORD_MAX_LENGTH
  }

  /** Body of registration (UserBase plus password). */
  datatype UserCreate = UserCreate(email: string, username: string, fullName: Option<string>, password: string)

  /**
   * UserCreate and UserUpdate declare the same bound on each field, so a
   * registration body is accepted exactly when the patch supplying all its
   * fields is.
   */
  predicate ValidUserCreate(c: UserCreate): (b: bool)
    ensures b <==> ValidUserUpdate(SupplyAll(c))
  {
    ValidEmail(c.email) && ValidUsername(c.username) && ValidFullName(c.fullName) && ValidPassword(c.password)
  }

  /** Body of a self-update; it has no role flags, so it cannot carry any. */
  datatype UserUpdate = UserUpdate(
    email: FieldUpdate<string>,
    username: FieldUpdate<string>,
    fullName: FieldUpdate<Option<string>>,
    password: FieldUpdate<string>)

  /** Every field of UserUpdate defaults to absent. */
  const EMPTY_UPDATE := UserUpdate(Unset, Unset, Unset, Unset)

  /** The patch that supplies every field of a registration body. */
  function SupplyAll(c: UserCreate): UserUpdate
  {
    UserUpdate(Set(c.email), Set(c.username), Set(c.fullName), Set(c.password))
  }

  /**
   * Each field is optional, and a supplied one obeys its bound. So the
   * empty patch is accepted, and a supplied email or username is never
   * the empty string.
   */
  predicate ValidUserUpdate(p: UserUpdate): (b: bool)
    ensures p == EMPTY_UPDATE ==> b
    ensures b ==> (p.email.Set? ==> p.email.value != "") && (p.username.Set? ==> p.username.value != "")
  {
    && (p.email.Set? ==> ValidEmail(p.email.value))
    && (p.username.Set? ==> ValidUsername(p.username.value))
    && (p.fullName.Set? ==> ValidFullName(p.fullName.value))
    && (p.password.Set? ==> ValidPassword(p.password.value))
  }

  /**
   * Body of an admin creation. The admin routes import AdminUserCreate,
   * which this module of the program does not define; the stand-in is the
   * registration fields plus both role flags.
   */
  datatype AdminUserCreate = AdminUserCreate(user: UserCreate, isActive: bool, isSuperuser: bool)

  predicate ValidAdminUserCreate(c: AdminUserCreate) { ValidUserCreate(c.user) }

  /**
   * Body of an admin update. AdminUserUpdate is likewise imported but not
   * defined; the stand-in is the self-update fields plus both role flags.
   */
  datatype AdminUserUpdate = AdminUserUpdate(user: UserUpdate, isActive: FieldUpdate<bool>, isSuperuser: FieldUpdate<bool>)

  predicate ValidAdminUserUpdate(p: AdminUserUpdate) { ValidUserUpdate(p.user) }

  /** What the API returns for a user; there is no password or hash field. */
  datatype UserResponse = UserResponse(
    id: UserId,
    email: string,
    username: string,
    fullName: Option<string>,
    isActive: bool,
    isSuperuser: bool)

  /** The response of a row: it loses the hash and nothing else. */
  function ToResponse(u: User): (r: UserResponse)
    ensures FromResponse(r, u.hashedPassword) == u
  {
    UserResponse(u.id, u.email, u.username, u.fullName, u.isActive, u.isSuperuser)
  }

  /** The row a response describes, once its hash is supplied again. */
  function FromResponse(r: UserResponse, hashedPassword: string): User
  {
    User(r.id, r.email, r.username, hashedPassword, r.fullName, r.isActive, r.isSuperuser)
  }

  /** Two rows give the same response exactly when they differ at most in their hash. */
  lemma ResponseHidesOnlyHash(u: User, v: User)
    ensures ToResponse(u) == ToResponse(v) <==> u.(hashedPassword := v.hashedPassword) == v
  {
  }

  /** The login / refresh answer; token_type defaults to "bearer". */
  datatype Token = Token(accessToken: Claims, refreshToken: Claims, tokenType: string)

  /** Token(access_token=..., refresh_token=...) with the default token_type. */
  function NewToken(accessToken: Claims, refreshToken: Claims): (t: Token)
    ensures t.tokenType == BEARER
    ensures t.accessToken == accessToken && t.refreshToken == refreshToken
  {
    Token(accessToken, refreshToken, BEARER)
  }

  /** The pair issued for one user id: an access and a refresh token bound to it. */
  function TokenPairFor(id: UserId): (t: Token)
    ensures t.accessToken.sub == id && t.refreshToken.sub == id
    ensures t.accessToken.tokenType == ACCESS && t.refreshToken.tokenType == REFRESH
    ensures t.accessToken != t.refreshToken && t.tokenType == BEARER
  {
    NewToken(CreateAccessToken(id), CreateRefreshToken(id))
  }
}
