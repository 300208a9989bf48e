/**
 * The /admin routes. Every one of them sits behind get_current_superuser;
 * `caller` stands for the user that guard resolved. The routes call
 * UserService.get_all, count_all, create_admin and update_admin and use
 * AdminUserCreate and AdminUserUpdate, none of which the program defines;
 * the model puts stand-ins in their place. The listing's row order is a
 * parameter, `order`, an enumeration of the stored ids without repetition.
 */
module AdminEndpoints {
  import opened Wrappers
  import opened Errors
  import opened UserModel
  import opened Schemas
  import opened Security
  import opened UserService
  import AuthEndpoints

  const MAX_LIMIT := 1000
  const DEFAULT_LIMIT := 100

  /** What get_current_superuser guarantees about the user it hands on. */
  ghost predicate ResolvedSuperuser(users: Store, caller: User)
  {
    AuthEndpoints.ResolvedActive(users, caller) && caller.isSuperuser
  }

  /** `order` lists as many ids as are stored, each of them a stored id. */
  ghost predicate ListsStored(users: Store, order: seq<UserId>)
  {
    |order| == |users| && forall i | 0 <= i < |order| :: order[i] in users
  }

  /** `order` lists every stored id exactly once. */
  ghost predicate IsListing(users: Store, order: seq<UserId>)
  {
    ListsStored(users, order) && forall i, j | 0 <= i < j < |order| :: order[i] != order[j]
  }

  /** The stored rows for a run of ids, in that order. */
  function Rows(users: Store, ids: seq<UserId>): (rows: seq<User>)
    requires forall i | 0 <= i < |ids| :: ids[i] in users
    ensures |rows| == |ids|
    ensures forall i | 0 <= i < |ids| :: rows[i] == users[ids[i]]
  {
    if ids == [] then [] else [users[ids[0]]] + Rows(users, ids[1..])
  }

  /** k cut to the range [0, n]. */
  function Clamp(k: int, n: nat): (c: nat)
    ensures c <= n && (0 <= k <= n ==> c == k) && (n < k ==> c == n)
  {
    if k < 0 then 0 else if k < n then k else n
  }

  /**
   * GET /users: skip (default 0) must be at least 0 and limit (default 100)
   * within [1, 1000]; the page is the run of the listing that starts at
   * skip, at most limit long.
   */
  function GetAllUsers(users: Store, order: seq<UserId>, skip: int := 0, limit: int := DEFAULT_LIMIT): (r: Result<seq<User>, Error>)
    requires ListsStored(users, order)
    ensures r.Err? <==> skip < 0 || limit < 1 || limit > MAX_LIMIT
    ensures r.Err? ==> r.error == ValidationFailed
    ensures r.Ok? ==> |r.value| == (if |users| <= skip then 0 else if |users| - skip < limit then |users| - skip else limit)
    ensures r.Ok? ==> forall i | 0 <= i < |r.value| :: skip + i < |order| && r.value[i] == users[order[skip + i]]
  {
    if skip < 0 || limit < 1 || limit > MAX_LIMIT then
      Err(ValidationFailed)
    else
      Ok(Rows(users, order[Clamp(skip, |order|)..Clamp(skip + limit, |order|)]))
  }

  /**
   * A request with no query string is valid and gets the first 100 rows of
   * the listing, or all of them when there are fewer.
   */
  lemma DefaultPage(users: Store, order: seq<UserId>)
    requires ListsStored(users, order)
    ensures GetAllUsers(users, order).Ok?
    ensures |GetAllUsers(users, order).value| == if |users| < DEFAULT_LIMIT then |users| else DEFAULT_LIMIT
    ensures GetAllUsers(users, order).value == Rows(users, order[..|GetAllUsers(users, order).value|])
  {
  }

  /**
   * Two consecutive pages hold no user in common, and together they are
   * the page twice as long that starts where the first one does.
   */
  lemma ConsecutivePages(users: Store, order: seq<UserId>, skip: int, limit: int)
    requires Valid(users) && IsListing(users, order)
    requires 0 <= skip && 1 <= limit && 2 * limit <= MAX_LIMIT
    ensures var p1 := GetAllUsers(users, order, skip, limit).value;
            var p2 := GetAllUsers(users, order, skip + limit, limit).value;
            && p1 + p2 == GetAllUsers(users, order, skip, 2 * limit).value
            && forall i, j | 0 <= i < |p1| && 0 <= j < |p2| :: p1[i].id != p2[j].id
  {
    var p1 := GetAllUsers(users, order, skip, limit).value;
    var p2 := GetAllUsers(users, order, skip + limit, limit).value;
    PagesConcatenate(users, order, skip, limit);
    forall i, j | 0 <= i < |p1| && 0 <= j < |p2| ensures p1[i].id != p2[j].id {
      assert p1[i] == users[order[skip + i]];
      assert p2[j] == users[order[skip + limit + j]];
    }
  }

  /** Rows distributes over concatenation of id runs. */
  lemma {:induction false} RowsAppend(users: Store, a: seq<UserId>, b: seq<UserId>)
    requires forall i | 0 <= i < |a| :: a[i] in users
    requires forall i | 0 <= i < |b| :: b[i] in users
    ensures Rows(users, a + b) == Rows(users, a) + Rows(users, b)
    decreases |a|
  {
    if a == [] {
      assert a + b == b;
    } else {
      assert (a + b)[1..] == a[1..] + b;
      RowsAppend(users, a[1..], b);
    }
  }

  /** The query of two consecutive pages of one size, both within the bounds on limit. */
  ghost predicate ConsecutiveQuery(users: Store, order: seq<UserId>, skip: int, limit: int)
  {
    ListsStored(users, order) && 0 <= skip && 1 <= limit && 2 * limit <= MAX_LIMIT
  }

  /** The page at skip followed by the page at skip + limit is the page of size 2 * limit at skip. */
  lemma PagesConcatenate(users: Store, order: seq<UserId>, skip: int, limit: int)
    requires ConsecutiveQuery(users, order, skip, limit)
    ensures GetAllUsers(users, order, skip, limit).value + GetAllUsers(users, order, skip + limit, limit).value
            == GetAllUsers(users, order, skip, 2 * limit).value
  {
    RowsOfSlices(users, order, Clamp(skip, |order|), Clamp(skip + limit, |order|), Clamp(skip + 2 * limit, |order|));
  }

  /** The rows of two adjacent runs of the listing are the rows of their union. */
  lemma RowsOfSlices(users: Store, order: seq<UserId>, from: nat, mid: nat, to: nat)
    requires ListsStored(users, order)
    requires from <= mid <= to <= |order|
    ensures Rows(users, order[from..mid]) + Rows(users, order[mid..to]) == Rows(users, order[from..to])
  {
    assert order[from..mid] + order[mid..to] == order[from..to];
    RowsAppend(users, order[from..mid], order[mid..to]);
  }

  /** The ids of a duplicate-free sequence are as many as its elements. */
  lemma {:induction false} DistinctIdsCount(ids: seq<UserId>)
    requires forall i, j | 0 <= i < j < |ids| :: ids[i] != ids[j]
    ensures |set i | 0 <= i < |ids| :: ids[i]| == |ids|
  {
    if ids != [] {
      var rest := ids[1..];
      DistinctIdsCount(rest);
      var s := set i | 0 <= i < |ids| :: ids[i];
      var t := set i | 0 <= i < |rest| :: rest[i];
      assert s == t + {ids[0]} by {
        forall x | x in s ensures x in t + {ids[0]} {
          var i :| 0 <= i < |ids| && ids[i] == x;
          if i > 0 { assert rest[i - 1] == x; }
        }
      }
      assert ids[0] !in t;
    }
  }

  /**
   * GET /users/count: the number of stored users, which is what the
   * count_all stand-in is taken to return. On a valid table it is also the number of emails and of
   * usernames in use.
   */
  function CountUsers(users: Store): (c: nat)
    ensures Valid(users) ==> c == |Emails(users)| && c == |Usernames(users)|
  {
    ValidCounts(users);
    |users|
  }

  /**
   * A first page with a limit no smaller than the count holds exactly
   * count rows, and every stored user is among them.
   */
  lemma FirstPageListsEveryone(users: Store, order: seq<UserId>, limit: int)
    requires Valid(users) && IsListing(users, order)
    requires CountUsers(users) <= limit <= MAX_LIMIT && 1 <= limit
    ensures var page := GetAllUsers(users, order, 0, limit).value;
            && |page| == CountUsers(users)
            && forall id | id in users :: users[id] in page
  {
    var page := GetAllUsers(users, order, 0, limit).value;
    var listed := set i | 0 <= i < |order| :: order[i];
    DistinctIdsCount(order);
    assert listed <= users.Keys;
    assert |listed| == |users.Keys|;
    assert listed == users.Keys by {
      var missing := users.Keys - listed;
      assert users.Keys == listed + missing && listed !! missing;
      assert |missing| == 0;
    }
    forall id | id in users ensures users[id] in page {
      var i :| 0 <= i < |order| && order[i] == id;
      assert page[i] == users[id];
    }
  }

  /** GET /users/{id}: 404 exactly when no stored user has that id. */
  function GetUserById(users: Store, userId: UserId): (r: Result<User, Error>)
    requires KeyedById(users)
    ensures r.Err? <==> forall k | k in users :: users[k].id != userId
    ensures r.Err? ==> r.error == UserNotFound
    ensures r.Ok? ==> r.value.id == userId && r.value in users.Values
  {
    match GetById(users, userId)
    case None => Err(UserNotFound)
    case Some(user) => Ok(user)
  }

  /** POST /users: like registration, email checked before username, with the role flags from the request. */
  method CreateUser(db: Database, input: AdminUserCreate, id: UserId, caller: User, hasher: Hasher)
    returns (r: Result<User, Error>)
    requires Valid(db.users) && ResolvedSuperuser(db.users, caller)
    requires id !in db.users
    modifies db
    ensures Valid(db.users)
    ensures !ValidAdminUserCreate(input) ==> r == Err(ValidationFailed)
    ensures ValidAdminUserCreate(input) && EmailInUse(old(db.users), input.user.email) ==> r == Err(EmailAlreadyUsed)
    ensures (ValidAdminUserCreate(input) && !EmailInUse(old(db.users), input.user.email)
             && UsernameInUse(old(db.users), input.user.username)) ==> r == Err(UsernameAlreadyUsed)
    ensures r.Ok? <==> ValidAdminUserCreate(input) && !EmailInUse(old(db.users), input.user.email)
                       && !UsernameInUse(old(db.users), input.user.username)
    ensures r.Err? ==> db.users == old(db.users)
    ensures r.Ok? ==> r.value == AdminCreatedUser(id, input, hasher) && db.users == old(db.users)[id := r.value]
  {
    if !ValidAdminUserCreate(input) {
      return Err(ValidationFailed);
    }
    var existingUser := GetByEmail(db.users, input.user.email);
    if existingUser.Some? {
      return Err(EmailAlreadyUsed);
    }
    var existingUsername := GetByUsername(db.users, input.user.username);
    if existingUsername.Some? {
      return Err(UsernameAlreadyUsed);
    }
    InsertKeepsValid(db.users, AdminCreatedUser(id, input, hasher));
    var user := CreateAdmin(db, input, id, hasher);
    return Ok(user);
  }

  /** The self-demotion guard: the target is the caller and the patch sets is_superuser to false. */
  predicate DemotesSelf(userId: UserId, p: AdminUserUpdate, caller: User)
  {
    userId == caller.id && p.isSuperuser == Set(false)
  }

  /**
   * PATCH /users/{id}: 404 first, then the email and username collisions
   * (only for a supplied value that differs from the target's), then the
   * self-demotion guard; otherwise the partial update including role flags.
   */
  method UpdateUser(db: Database, userId: UserId, p: AdminUserUpdate, caller: User, hasher: Hasher)
    returns (r: Result<User, Error>)
    requires Valid(db.users) && ResolvedSuperuser(db.users, caller)
    modifies db
    ensures Valid(db.users)
    ensures !ValidAdminUserUpdate(p) ==> r == Err(ValidationFailed)
    ensures ValidAdminUserUpdate(p) && userId !in old(db.users) ==> r == Err(UserNotFound)
    ensures (ValidAdminUserUpdate(p) && userId in old(db.users)
             && AuthEndpoints.EmailChangeTaken(old(db.users), old(db.users)[userId], p.user.email))
            ==> r == Err(EmailAlreadyUsed)
    ensures (ValidAdminUserUpdate(p) && userId in old(db.users)
             && !AuthEndpoints.EmailChangeTaken(old(db.users), old(db.users)[userId], p.user.email)
             && AuthEndpoints.UsernameChangeTaken(old(db.users), old(db.users)[userId], p.user.username))
            ==> r == Err(UsernameAlreadyUsed)
    ensures (ValidAdminUserUpdate(p) && userId in old(db.users)
             && !AuthEndpoints.EmailChangeTaken(old(db.users), old(db.users)[userId], p.user.email)
             && !AuthEndpoints.UsernameChangeTaken(old(db.users), old(db.users)[userId], p.user.username)
             && DemotesSelf(userId, p, caller)) ==> r == Err(SelfDemotion)
    ensures r.Ok? <==> && ValidAdminUserUpdate(p) && userId in old(db.users)
                       && !AuthEndpoints.EmailChangeTaken(old(db.users), old(db.users)[userId], p.user.email)
                       && !AuthEndpoints.UsernameChangeTaken(old(db.users), old(db.users)[userId], p.user.username)
                       && !DemotesSelf(userId, p, caller)
    ensures r.Err? ==> db.users == old(db.users)
    ensures r.Ok? ==> && r.value == AdminPatched(old(db.users)[userId], p, hasher.hash)
                      && db.users == old(db.users)[userId := r.value]
    ensures caller.id in db.users && db.users[caller.id].isSuperuser
  {
    if !ValidAdminUserUpdate(p) {
      return Err(ValidationFailed);
    }
    var user := GetById(db.users, userId);
    if user.None? {
      return Err(UserNotFound);
    }
    var target := user.value;
    if AuthEndpoints.Truthy(p.user.email) && p.user.email.value != target.email {
      var existing := GetByEmail(db.users, p.user.email.value);
      if existing.Some? {
        return Err(EmailAlreadyUsed);
      }
    }
    if AuthEndpoints.Truthy(p.user.username) && p.user.username.value != target.username {
      var existing := GetByUsername(db.users, p.user.username.value);
      if existing.Some? {
        return Err(UsernameAlreadyUsed);
      }
    }
    if userId == caller.id && p.isSuperuser == Set(false) {
      return Err(SelfDemotion);
    }
    ReplaceKeepsValid(db.users, AdminPatched(target, p, hasher.hash));
    var updated := UpdateAdmin(db, target, p, hasher);
    return Ok(updated);
  }

  /**
   * DELETE /users/{id}: self-deletion is refused before the lookup, an
   * unknown id is 404, otherwise exactly that record is removed.
   */
  method DeleteUser(db: Database, userId: UserId, caller: User) returns (r: Result<(), Error>)
    requires Valid(db.users) && ResolvedSuperuser(db.users, caller)
    modifies db
    ensures Valid(db.users)
    ensures userId == caller.id ==> r == Err(SelfDeletion)
    ensures userId != caller.id && userId !in old(db.users) ==> r == Err(UserNotFound)
    ensures r.Ok? <==> userId != caller.id && userId in old(db.users)
    ensures r.Err? ==> db.users == old(db.users)
    ensures r.Ok? ==> db.users == old(db.users) - {userId} && GetById(db.users, userId).None?
    ensures caller.id in db.users && db.users[caller.id] == caller
  {
    if userId == caller.id {
      return Err(SelfDeletion);
    }
    var user := GetById(db.users, userId);
    if user.None? {
      return Err(UserNotFound);
    }
    RemoveKeepsValid(db.users, userId);
    Delete(db, user.value);
    return Ok(());
  }
}
