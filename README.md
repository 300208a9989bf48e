# auth-service, modelled in Dafny

A model of the user-account and authentication backend: the sliding-window
rate limiter, the three-stage access-control guard, the user table with its
uniqueness constraints, the UserService queries and writes, and the `/auth`
and `/admin` routes that check and then change the table. The web framework,
the ORM session, password hashing and JWT signing are abstracted away.

One module per source file:

| file | module | models |
|---|---|---|
| `rate_limit.dfy` | `RateLimit` | `app/middleware/auth_middleware.py` |
| `dependencies.dfy` | `Dependencies` | `app/dependencies.py` |
| `user_model.dfy` | `UserModel` | `app/models/user.py` |
| `schemas.dfy` | `Schemas` | `app/schemas/user.py` |
| `user_service.dfy` | `UserService` | `app/services/user_service.py` |
| `auth_endpoints.dfy` | `AuthEndpoints` | `app/api/v1/endpoints/auth.py` |
| `admin_endpoints.dfy` | `AdminEndpoints` | `app/api/v1/endpoints/admin.py` |
| `security.dfy` | `Security` | the calls into `app.core.security`, which is not part of this model |
| `errors.dfy`, `wrappers.dfy` | `Errors`, `Wrappers` | HTTP errors with their status codes; `Option` / `Result` |

How the pieces are represented:

- The users table is a `map<UserId, User>`. `UserModel.Valid` states its
  declared constraints: each row sits under its own primary key, and email
  and username are unique. The session is the class `UserService.Database`,
  whose field `users` the write methods reassign. Every route that writes
  requires `Valid` of the table and ensures it again. So the uniqueness of
  email and username holds across every operation that passes its checks.
- Read-only logic is made of functions of the table. This covers the
  lookups, `authenticate`, the guards, login, refresh and the admin reads.
  Routes that write are methods with `modifies db`.
- `UserService.update` assigns the dumped patch fields one `setattr` at a
  time. It is a method with that loop. Its invariant ties the record to
  `SetAttrs` over the fields done so far. `UpdateDataMeansPatched` proves
  that the finished loop equals `Patched`, the field-by-field definition of
  a partial update.
- A PATCH field is `Unset` or `Set(v)`. This mirrors `exclude_unset=True`.
  Both update routes gate their uniqueness check on the truthiness of the
  field (`if user_update.email and ...`). That test is `Truthy`: the field is
  set and is not the empty string.
- Hashing and verification are the two functions of a `Hasher` value, which
  the caller supplies. A signed token is represented by the claims it
  carries: its type and its subject. `decode_token` is an input of type
  `Option<Payload>`. `Security.DecodeIssued` is what decoding an unexpired
  token of this service yields.
- Three inputs are parameters: the clock, the generated id and the
  listing order the admin listing is taken to have. A create method requires that the
  id it is given is not yet stored, which is what `uuid4` provides.
- Each route's caller is a parameter. The guard that runs before the body
  (`get_current_active_user` or `get_current_superuser`) guarantees that
  this user is stored, active and, for `/admin`, a superuser. The route
  requires exactly that.
- Body and query validation runs before a route's body and answers 422.
  Each route therefore checks validity first and returns
  `ValidationFailed` when it fails.

Status codes and order, as the code has them:

- A duplicate email or username is answered 400.
- An inactive account at login or at the guard is answered 400.
- The admin listing's order is a parameter, since `UserService.get_all`
  does not exist (see below).

The admin routes rest on names the program does not define.
`app/api/v1/endpoints/admin.py:9` imports `AdminUserCreate` and
`AdminUserUpdate` from `app/schemas/user.py`, which defines neither. Lines
28, 38, 85 and 133 call `UserService.get_all`, `count_all`, `create_admin` and
`update_admin`, which `app/services/user_service.py` does not define. As
written, importing `admin.py` fails, and since `app/api/v1/router.py:3`
imports it, so does loading the API router, `/auth` included. The model
supplies stand-ins for these: the `AdminUserCreate` and `AdminUserUpdate`
datatypes, `UserService.AdminCreatedUser` and `CreateAdmin`,
`UserService.AdminPatched` and `UpdateAdmin`, the `order` parameter of
`AdminEndpoints.GetAllUsers`, and `AdminEndpoints.CountUsers`.

Two behaviours of the code are visible in the model. First, the admin update
guard only blocks clearing one's own `is_superuser`. An admin may still set
their own `is_active` to false. Second, the rate limiter never evicts a key
(`Dispatch` ensures the key set only grows).

## Model

| member | source | states |
|---|---|---|
| `RateLimit.Purge` | app/middleware/auth_middleware.py:24-27 | the purged list holds exactly the old timestamps `t` with `now - t < period`, and is no longer than the old list |
| `RateLimit.PurgeAppend` | app/middleware/auth_middleware.py:24-27 | purging distributes over concatenation, so the survivors keep their relative order |
| `RateLimit.PurgeKeepsRecent` | app/middleware/auth_middleware.py:24-27 | a list wholly inside the window is kept unchanged |
| `RateLimit.PurgeDropsStale` | app/middleware/auth_middleware.py:24-27 | a list wholly outside the window is emptied |
| `RateLimit.AdmitWithinCapacity` | app/middleware/auth_middleware.py:30-36 | one request never grows a list past `calls` entries (none when `calls` is not positive) |
| `RateLimit.BurstRecorded` | app/middleware/auth_middleware.py:24-36 | from a fresh client, up to `calls` requests within one period are all let through and all recorded, in order |
| `RateLimit.ExtraRequestRefused` | app/middleware/auth_middleware.py:24-34 | with `calls = N`, a fresh client's first N requests within one period pass and the (N+1)-th is refused |
| `RateLimit.QuietPeriodAdmits` | app/middleware/auth_middleware.py:24-36 | once every recorded timestamp is at least `period` old, a request passes and the list becomes just `[now]` |
| `RateLimit.RateLimitMiddleware.constructor` | app/middleware/auth_middleware.py:13-17 | stores `calls` and `period` (default 60) and starts with no client recorded |
| `RateLimit.RateLimitMiddleware.Dispatch` | app/middleware/auth_middleware.py:19-37 | refused with 429 exactly when the purged list has `calls` or more entries. A refusal stores the purged list without `now`; a pass stores it with `now` appended. All kept entries lie inside the window (for `period > 0`). No list exceeds `calls` entries. Every other client's list is unchanged. |
| `Dependencies.GetCurrentUser` | app/dependencies.py:15-40 | 401, and only 401, unless the payload exists, has type `"access"`, has a `sub` and names a stored user; on success that user, with id `sub` |
| `Dependencies.GetCurrentActiveUser` | app/dependencies.py:43-48 | a token failure is passed on unchanged. Otherwise the result is `InactiveUser` (400) exactly when the resolved user is inactive, and on success the same user. |
| `Dependencies.GetCurrentSuperuser` | app/dependencies.py:50-58 | an earlier failure is passed on unchanged. Otherwise the result is `InsufficientPrivileges` (403) exactly when the user is not a superuser. Success implies stored, active and superuser. |
| `Dependencies.GuardOrder` | app/dependencies.py:15-58 | the chain reports the first failing stage in order: the token, then inactivity, then lack of privilege |
| `UserModel.NewUser` | app/models/user.py:13-24 | a new row carries the given columns, is active and is not a superuser |
| `UserModel.ValidCounts` | app/models/user.py:13-20 | under `Valid` (the primary key and the two unique constraints), a table holds as many distinct emails, and as many distinct usernames, as rows |
| `UserModel.EmailsCount` | app/models/user.py:19 | with unique emails, the set of emails in use is as large as the table |
| `UserModel.UsernamesCount` | app/models/user.py:20 | with unique usernames, the set of usernames in use is as large as the table |
| `Schemas.ValidFullName` | app/schemas/user.py:8 | a missing full name and an empty one are accepted; one longer than 100 characters is refused |
| `Schemas.ValidUserCreate` | app/schemas/user.py:5-12 | a registration body is accepted exactly when the patch supplying all its fields is accepted, since both schemas bound each field alike |
| `Schemas.ValidUserUpdate` | app/schemas/user.py:15-19 | the empty patch is accepted, and an accepted patch never supplies an empty email or username |
| `Schemas.ToResponse` | app/schemas/user.py:22-29 | the response keeps every column but the hash: the row is recovered from it once the hash is supplied |
| `Schemas.ResponseHidesOnlyHash` | app/schemas/user.py:22-29 | two rows give the same response exactly when they differ at most in their hash |
| `Schemas.NewToken` | app/schemas/user.py:32-35 | the token type defaults to `"bearer"`, and both tokens are carried as given |
| `Schemas.TokenPairFor` | app/api/v1/endpoints/auth.py:66-69 | the pair issued for an id holds an access-typed and a refresh-typed token, both for that id, and they differ |
| `UserModel.InsertKeepsValid` | app/models/user.py:13-20 | a row under a fresh id, with a free email and a free username, keeps ids, emails and usernames unique |
| `UserModel.ReplaceKeepsValid` | app/models/user.py:19-20 | rewriting a row keeps the table unique when its email or username is kept or is not used elsewhere |
| `UserModel.RemoveKeepsValid` | app/models/user.py:13-20 | deleting a row keeps the table valid and removes exactly one row |
| `UserService.GetByEmail` | app/services/user_service.py:10-13 | none exactly when no row has the email; otherwise the unique stored row that has it |
| `UserService.GetByUsername` | app/services/user_service.py:15-18 | none exactly when no row has the username; otherwise the unique stored row that has it |
| `UserService.GetById` | app/services/user_service.py:20-23 | none exactly when no row has that id; otherwise a stored row with that id |
| `UserService.Authenticate` | app/services/user_service.py:57-62 | some exactly when a stored row has the email and the password verifies against its hash; `is_active` plays no part |
| `UserService.Create` | app/services/user_service.py:25-36 | adds one row under the fresh id. The row holds the request's email, username and full name, and `hash(password)` as its hash. It is active and not a superuser. |
| `UserService.CreateAdmin` | app/api/v1/endpoints/admin.py:85 | adds one row like `Create`, with both role flags taken from the request |
| `UserService.SetAttrsAppend` | app/services/user_service.py:45-46 | assigning `a + b` attribute by attribute equals assigning `a`, then `b` |
| `UserService.UpdateDataMeansPatched` | app/services/user_service.py:39-46 | the `setattr` loop over the dumped fields equals the partial update. Supplied fields are replaced, a password becomes `hash(password)`, and every other field stays. |
| `UserService.Update` | app/services/user_service.py:38-50 | the stored row becomes the partial update of the record. Its id and role flags are kept. A supplied password is stored only as its hash. |
| `UserService.UpdateAdmin` | app/api/v1/endpoints/admin.py:133 | the stored row becomes the partial update, with any supplied role flag as well |
| `UserService.Delete` | app/services/user_service.py:52-55 | removes exactly that row; every other row is untouched |
| `UserService.FullNameOnlyUpdateKeepsCredentials` | app/services/user_service.py:40-46 | a patch with only `full_name` changes the name and leaves email, username and hash as they were |
| `AuthEndpoints.Register` | app/api/v1/endpoints/auth.py:17-40 | 400 if the email is taken (checked first), then 400 if the username is taken. On failure the table is unchanged. Otherwise exactly one new row is added, and the table stays unique. |
| `AuthEndpoints.Login` | app/api/v1/endpoints/auth.py:43-69 | 401 exactly when authentication fails, and 400 exactly when the authenticated user is inactive. When the email's row is active and the password verifies, the result is the pair for that row's id, typed `"bearer"`. |
| `AuthEndpoints.RefreshToken` | app/api/v1/endpoints/auth.py:72-96 | Every failure is 401. It fails unless the payload is refresh-typed, so an access token always fails. 401 unless the subject is stored and active. Otherwise a new pair for that subject. |
| `AuthEndpoints.GetCurrentUserInfo` | app/api/v1/endpoints/auth.py:99-104 | returns the caller's own record, which is active, as a response without a hash: id, email, username, full name and both flags are the caller's |
| `AuthEndpoints.UpdateCurrentUser` | app/api/v1/endpoints/auth.py:107-132 | 400 for a supplied email, then a supplied username, that differs from the caller's and is already taken. Otherwise the partial update. The role flags never change, and the table stays unique. |
| `AuthEndpoints.DeleteCurrentUser` | app/api/v1/endpoints/auth.py:135-141 | removes the caller's own row unconditionally, and it can no longer be found |
| `AuthEndpoints.LoginTokensResolveToUser` | app/api/v1/endpoints/auth.py:66-69 | a login's access token passes the guard chain and resolves to the user who logged in; its refresh token is refused by the guard |
| `AuthEndpoints.LoginTokensRefresh` | app/api/v1/endpoints/auth.py:66-96 | a login's refresh token gets a pair for the same user from `/refresh`; its access token is refused there |
| `AuthEndpoints.RegisteredUserCanLogIn` | app/api/v1/endpoints/auth.py:17-69 | after a successful registration, login with the same email and password yields the pair for the new id. This assumes the hasher verifies a password against its own hash. |
| `AdminEndpoints.GetAllUsers` | app/api/v1/endpoints/admin.py:15-29 | `skip` defaults to 0 and `limit` to 100. 422 exactly when `skip < 0` or `limit` is outside [1, 1000]. Otherwise the listing run starting at `skip`, `min(limit, count - skip)` rows long. |
| `AdminEndpoints.DefaultPage` | app/api/v1/endpoints/admin.py:15-29 | a request with no query string (`skip = 0`, `limit = 100`) succeeds and gets the first 100 rows of the listing, or all of them when there are fewer |
| `AdminEndpoints.ConsecutivePages` | app/api/v1/endpoints/admin.py:15-29 | the pages at `skip` and at `skip + limit` share no user, and together they form the page of length `2 * limit` |
| `AdminEndpoints.FirstPageListsEveryone` | app/api/v1/endpoints/admin.py:15-39 | a first page whose limit is at least the count has exactly count rows, and every stored user is among them |
| `AdminEndpoints.CountUsers` | app/api/v1/endpoints/admin.py:32-39 | the total is the number of stored users, which on a valid table is the number of emails, and of usernames, in use |
| `AdminEndpoints.GetUserById` | app/api/v1/endpoints/admin.py:42-55 | 404 exactly when no stored row has the id; otherwise that row |
| `AdminEndpoints.CreateUser` | app/api/v1/endpoints/admin.py:58-86 | 400 on a taken email (checked first), then on a taken username. On failure the table is unchanged. Otherwise one new row with the requested role flags, and the table stays unique. |
| `AdminEndpoints.UpdateUser` | app/api/v1/endpoints/admin.py:89-134 | 404 first. Then 400 for an email, then a username, that is supplied, differs from the target's and is taken. Then 400 when the target is the caller and the patch sets `is_superuser` to false. Otherwise the partial update. Failures change nothing. The acting admin stays a superuser. |
| `AdminEndpoints.DeleteUser` | app/api/v1/endpoints/admin.py:137-162 | 400 on self-deletion, before the lookup; then 404 on an unknown id. Otherwise exactly that row is removed. The acting admin is never removed. |

## Left out

- Concurrency: parallel requests, the per-key atomicity of the rate limiter, and registration races. Operations run one at a time.
- Database mechanics (`flush`, `refresh`, `execute`), and the unique-constraint errors the database raises at commit. Only the service-level pre-checks are modelled.
- `created_at` / `updated_at`. The column widths of the table (`String(36)`, `String(255)`, `String(50)`, `String(100)`) are also left out; only the schema bounds are modelled.
- `app/core/security.py` is not part of this model. Hashing, verification, signing and token expiry are abstract. `Security.DecodeIssued` assumes that an unexpired token of this service decodes to its own claims.
- `AdminUserCreate` and `AdminUserUpdate` are imported by `admin.py` but defined nowhere in the program. Their stand-ins are the base schemas plus `is_active` and `is_superuser`, with the same field bounds.
- `UserService.create_admin`, `update_admin`, `get_all` and `count_all` are called by `admin.py` but defined nowhere in the program. Their stand-ins (`AdminCreatedUser` / `CreateAdmin`, `AdminPatched` / `UpdateAdmin`, the `order` parameter of `GetAllUsers`, `CountUsers`) behave like `create` and `update` plus the role flags, return a page of a listing order passed as a parameter, and return the table size.
- The import failure itself: the model treats the admin routes as if the missing names existed, so it does not capture that `admin.py`, and with it the whole API router, cannot be loaded as written.
- An explicit JSON `null` for `email`, `username`, `password` or a role flag. `exclude_unset` keeps such a field, so the code writes `None` and then fails at hashing or at a NOT NULL column. A null `full_name`, which clears the name, is modelled.
- Email syntax (`EmailStr`). The model keeps only that an email is not empty.
- The order in which the framework runs body validation and the guard dependencies. The routes take the guard's result as a parameter and validate first.
- Error message texts, the `WWW-Authenticate` header, the `print` calls in `get_current_user`, and route wiring (`app/api/v1/router.py`).
- `time.time()` returns a float; timestamps here are integers.
- The default of `calls` comes from process settings, which are not part of this model. It is a constructor parameter.
- In-place mutation of the ORM object. The model computes the updated record and stores it under the same id; the identity map and aliasing are not modelled.
