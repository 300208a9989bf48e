/**
 * UserService: the queries and writes on the users table. The database
 * session is the object `Database`, whose one field is the table; the
 * lookups are functions of the table, the writes are methods on the session.
 */
module UserService {
  import opened Wrappers
  import opened UserModel
  import opened Schemas
  import opened Security

  /** The session's view of the users table. */
  class Database {
    var users: Store

    constructor ()
      ensures users == map[]
    {
      users := map[];
    }
  }

  /** get_by_email: the row whose email matches, or none. */
  function GetByEmail(users: Store, email: string): (r: Option<User>)
    requires Valid(users)
    ensures r.None? <==> !EmailInUse(users, email)
    ensures forall id | id in users && users[id].email == email :: r == Some(users[id])
    ensures r.Some? ==> r.value.email == email && r.value.id in users && users[r.value.id] == r.value
  {
    if exists id :: id in users && users[id].email == email then
      var id :| id in users && users[id].email == email;
      Some(users[id])
    else
      None
  }

  /** get_by_username: the row whose username matches, or none. */
  function GetByUsername(users: Store, username: string): (r: Option<User>)
    requires Valid(users)
    ensures r.None? <==> !UsernameInUse(users, username)
    ensures forall id | id in users && users[id].username == username :: r == Some(users[id])
    ensures r.Some? ==> r.value.username == username && r.value.id in users && users[r.value.id] == r.value
  {
    if exists id :: id in users && users[id].username == username then
      var id :| id in users && users[id].username == username;
      Some(users[id])
    else
      None
  }

  /** get_by_id: the row whose id column equals the given id, or none. */
  function GetById(users: Store, id: UserId): (r: Option<User>)
    requires KeyedById(users)
    ensures r.None? <==> (forall k | k in users :: users[k].id != id)
    ensures r.Some? ==> r.value.id == id && r.value in users.Values
  {
    if id in users then Some(users[id]) else None
  }

  /**
   * authenticate: the row owning the email, provided the password verifies
   * against its hash. Whether the account is active plays no part.
   */
  function Authenticate(users: Store, email: string, password: string, hasher: Hasher): (r: Option<User>)
    requires Valid(users)
    ensures r.Some? <==> exists id :: id in users && users[id].email == email
                                      && hasher.verify(password, users[id].hashedPassword)
    ensures r.Some? ==> r.value.email == email && r.value.id in users && users[r.value.id] == r.value
                        && hasher.verify(password, r.value.hashedPassword)
  {
    match GetByEmail(users, email)
    case None => None
    case Some(user) => if hasher.verify(password, user.hashedPassword) then Some(user) else None
  }

  /** The record `create` builds: the request's fields, the password hashed, the column defaults. */
  function CreatedUser(id: UserId, input: UserCreate, hasher: Hasher): User
  {
    NewUser(id, input.email, input.username, hasher.hash(input.password), input.fullName)
  }

  /** create: adds one row under a freshly generated id. */
  method Create(db: Database, input: UserCreate, id: UserId, hasher: Hasher) returns (user: User)
    requires id !in db.users
    modifies db
    ensures user == CreatedUser(id, input, hasher)
    ensures user.id == id && user.email == input.email && user.username == input.username
    ensures user.fullName == input.fullName && user.hashedPassword == hasher.hash(input.password)
    ensures user.isActive && !user.isSuperuser
    ensures db.users == old(db.users)[id := user]
  {
    user := CreatedUser(id, input, hasher);
    db.users := db.users[id := user];
  }

  /**
   * A stand-in for create_admin, which the admin routes call but the
   * service does not define: create's record with the two role flags from
   * the request.
   */
  function AdminCreatedUser(id: UserId, input: AdminUserCreate, hasher: Hasher): User
  {
    CreatedUser(id, input.user, hasher).(isActive := input.isActive, isSuperuser := input.isSuperuser)
  }

  method CreateAdmin(db: Database, input: AdminUserCreate, id: UserId, hasher: Hasher) returns (user: User)
    requires id !in db.users
    modifies db
    ensures user == AdminCreatedUser(id, input, hasher)
    ensures user.id == id && user.email == input.user.email && user.username == input.user.username
    ensures user.isActive == input.isActive && user.isSuperuser == input.isSuperuser
    ensures db.users == old(db.users)[id := user]
  {
    user := AdminCreatedUser(id, input, hasher);
    db.users := db.users[id := user];
  }

  /** One `setattr(user, field, value)`: the attribute names a record can be assigned. */
  datatype Attribute =
    | EmailAttr(email: string)
    | UsernameAttr(username: string)
    | FullNameAttr(fullName: Option<string>)
    | HashedPasswordAttr(hashedPassword: string)

  function SetAttr(u: User, a: Attribute): User
  {
    match a
    case EmailAttr(e) => u.(email := e)
    case UsernameAttr(n) => u.(username := n)
    case FullNameAttr(f) => u.(fullName := f)
    case HashedPasswordAttr(h) => u.(hashedPassword := h)
  }

  /** The effect of assigning the attributes one after another, in order. */
  function SetAttrs(u: User, attrs: seq<Attribute>): User
    decreases |attrs|
  {
    if attrs == [] then u else SetAttr(SetAttrs(u, attrs[..|attrs| - 1]), attrs[|attrs| - 1])
  }

  /**
   * model_dump(exclude_unset=True) of the patch, after "password" has been
   * popped and its hash added under "hashed_password".
   */
  function UpdateData(p: UserUpdate, hash: string -> string): seq<Attribute>
  {
    (if p.email.Set? then [EmailAttr(p.email.value)] else [])
    + (if p.username.Set? then [UsernameAttr(p.username.value)] else [])
    + (if p.fullName.Set? then [FullNameAttr(p.fullName.value)] else [])
    + (if p.password.Set? then [HashedPasswordAttr(hash(p.password.value))] else [])
  }

  /** Partial-update semantics, field by field: a supplied field replaces, an absent one stays. */
  function Patched(u: User, p: UserUpdate, hash: string -> string): User
  {
    User(
      u.id,
      if p.email.Set? then p.email.value else u.email,
      if p.username.Set? then p.username.value else u.username,
      if p.password.Set? then hash(p.password.value) else u.hashedPassword,
      if p.fullName.Set? then p.fullName.value else u.fullName,
      u.isActive,
      u.isSuperuser)
  }

  lemma {:induction false} SetAttrsAppend(u: User, a: seq<Attribute>, b: seq<Attribute>)
    ensures SetAttrs(u, a + b) == SetAttrs(SetAttrs(u, a), b)
    decreases |b|
  {
    if b == [] {
      assert a + b == a;
    } else {
      var b' := b[..|b| - 1];
      assert (a + b)[..|a + b| - 1] == a + b';
      SetAttrsAppend(u, a, b');
    }
  }

  /** Assigning the dumped fields one by one is exactly the partial update. */
  lemma UpdateDataMeansPatched(u: User, p: UserUpdate, hash: string -> string)
    ensures SetAttrs(u, UpdateData(p, hash)) == Patched(u, p, hash)
  {
    var e := if p.email.Set? then [EmailAttr(p.email.value)] else [];
    var n := if p.username.Set? then [UsernameAttr(p.username.value)] else [];
    var f := if p.fullName.Set? then [FullNameAttr(p.fullName.value)] else [];
    var h := if p.password.Set? then [HashedPasswordAttr(hash(p.password.value))] else [];
    assert UpdateData(p, hash) == e + n + f + h;
    SetAttrsAppend(u, e + n + f, h);
    SetAttrsAppend(u, e + n, f);
    SetAttrsAppend(u, e, n);
    SetAttrsAppend(u, [], e);
    assert [] + e == e;
  }

  /**
   * update: assigns every supplied field of the patch to the stored record,
   * hashing a new password first.
   */
  method Update(db: Database, user: User, p: UserUpdate, hasher: Hasher) returns (updated: User)
    requires user.id in db.users && db.users[user.id] == user
    modifies db
    ensures updated == Patched(user, p, hasher.hash)
    ensures updated.id == user.id && updated.isActive == user.isActive && updated.isSuperuser == user.isSuperuser
    ensures p.password.Set? ==> updated.hashedPassword == hasher.hash(p.password.value)
    ensures db.users == old(db.users)[user.id := updated]
  {
    var updateData := UpdateData(p, hasher.hash);
    updated := user;
    var i := 0;
    while i < |updateData|
      invariant 0 <= i <= |updateData|
      invariant updated == SetAttrs(user, updateData[..i])
    {
      assert updateData[..i + 1][..i] == updateData[..i];
      updated := SetAttr(updated, updateData[i]);
      i := i + 1;
    }
    assert updateData[..i] == updateData;
    UpdateDataMeansPatched(user, p, hasher.hash);
    db.users := db.users[user.id := updated];
  }

  /**
   * A stand-in for update_admin, which the admin routes call but the
   * service does not define: update's result with any supplied role flag
   * assigned too.
   */
  function AdminPatched(u: User, p: AdminUserUpdate, hash: string -> string): User
  {
    Patched(u, p.user, hash).(
      isActive := if p.isActive.Set? then p.isActive.value else u.isActive,
      isSuperuser := if p.isSuperuser.Set? then p.isSuperuser.value else u.isSuperuser)
  }

  method UpdateAdmin(db: Database, user: User, p: AdminUserUpdate, hasher: Hasher) returns (updated: User)
    requires user.id in db.users && db.users[user.id] == user
    modifies db
    ensures updated == AdminPatched(user, p, hasher.hash)
    ensures db.users == old(db.users)[user.id := updated]
  {
    updated := AdminPatched(user, p, hasher.hash);
    db.users := db.users[user.id := updated];
  }

  /** delete: removes exactly the given row. */
  method Delete(db: Database, user: User)
    requires user.id in db.users
    modifies db
    ensures db.users == old(db.users) - {user.id}
    ensures |db.users| == |old(db.users)| - 1
  {
    db.users := db.users - {user.id};
  }

  /** A patch carrying only full_name leaves email, username and the hash as they were. */
  lemma FullNameOnlyUpdateKeepsCredentials(u: User, fullName: Option<string>, hash: string -> string)
    ensures var r := SetAttrs(u, UpdateData(EMPTY_UPDATE.(fullName := Set(fullName)), hash));
            r.email == u.email && r.username == u.username && r.hashedPassword == u.hashedPassword
            && r.fullName == fullName
  {
    UpdateDataMeansPatched(u, EMPTY_UPDATE.(fullName := Set(fullName)), hash);
  }
}
