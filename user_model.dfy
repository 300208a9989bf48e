/**
 * The persisted User record (the `users` table) and the table-level
 * constraints: the primary key, and the unique email and username columns.
 */
module UserModel {
  import opened Wrappers

  type UserId = string

  /**
   * One row. email, username and hashedPassword are non-nullable columns, so
   * they are plain strings here; full_name is the one nullable column.
   * created_at / updated_at are not modelled.
   */
  datatype User = User(
    id: UserId,
    email: string,
    username: string,
    hashedPassword: string,
    fullName: Option<string>,
    isActive: bool,
    isSuperuser: bool)

  /** A fresh row with the column defaults: active, not a superuser. */
  function NewUser(id: UserId, email: string, username: string, hashedPassword: string,
                   fullName: Option<string>): (u: User)
    ensures u.isActive && !u.isSuperuser
    ensures u.id == id && u.email == email && u.username == username
    ensures u.hashedPassword == hashedPassword && u.fullName == fullName
  {
    User(id, email, username, hashedPassword, fullName, true, false)
  }

  /** The table, keyed by primary key. */
  type Store = map<UserId, User>

  /** Each row sits under its own id. */
  ghost predicate KeyedById(users: Store)
  {
    forall id | id in users :: users[id].id == id
  }

  /** The unique=True constraint on email. */
  ghost predicate EmailsUnique(users: Store)
  {
    forall a, b | a in users && b in users && users[a].email == users[b].email :: a == b
  }

  /** The unique=True constraint on username. */
  ghost predicate UsernamesUnique(users: Store)
  {
    forall a, b | a in users && b in users && users[a].username == users[b].username :: a == b
  }

  /** Every constraint the table declares. */
  ghost predicate Valid(users: Store)
  {
    KeyedById(users) && EmailsUnique(users) && UsernamesUnique(users)
  }

  /** A valid table holds as many distinct emails, and as many distinct usernames, as rows. */
  lemma ValidCounts(users: Store)
    ensures Valid(users) ==> |Emails(users)| == |users| && |Usernames(users)| == |users|
  {
    if Valid(users) {
      EmailsCount(users);
      UsernamesCount(users);
    }
  }

  /** The emails in use. */
  ghost function Emails(users: Store): set<string>
  {
    set id | id in users :: users[id].email
  }

  /** The usernames in use. */
  ghost function Usernames(users: Store): set<string>
  {
    set id | id in users :: users[id].username
  }

  /** With unique emails, each row contributes its own email. */
  lemma {:induction false} EmailsCount(users: Store)
    requires EmailsUnique(users)
    ensures |Emails(users)| == |users|
    decreases |users|
  {
    if users != map[] {
      var k :| k in users;
      var rest := users - {k};
      EmailsCount(rest);
      forall e ensures e in Emails(users) <==> e in Emails(rest) + {users[k].email} {
        if e in Emails(users) {
          var id :| id in users && users[id].email == e;
          if id != k { assert id in rest; }
        }
        if e in Emails(rest) {
          var id :| id in rest && rest[id].email == e;
          assert id in users;
        }
      }
      assert Emails(users) == Emails(rest) + {users[k].email};
      assert users[k].email !in Emails(rest);
      assert |users| == |rest| + 1;
    }
  }

  /** With unique usernames, each row contributes its own username. */
  lemma {:induction false} UsernamesCount(users: Store)
    requires UsernamesUnique(users)
    ensures |Usernames(users)| == |users|
    decreases |users|
  {
    if users != map[] {
      var k :| k in users;
      var rest := users - {k};
      UsernamesCount(rest);
      forall e ensures e in Usernames(users) <==> e in Usernames(rest) + {users[k].username} {
        if e in Usernames(users) {
          var id :| id in users && users[id].username == e;
          if id != k { assert id in rest; }
        }
        if e in Usernames(rest) {
          var id :| id in rest && rest[id].username == e;
          assert id in users;
        }
      }
      assert Usernames(users) == Usernames(rest) + {users[k].username};
      assert users[k].username !in Usernames(rest);
      assert |users| == |rest| + 1;
    }
  }

  ghost predicate EmailInUse(users: Store, email: string)
  {
    exists id :: id in users && users[id].email == email
  }

  ghost predicate UsernameInUse(users: Store, username: string)
  {
    exists id :: id in users && users[id].username == username
  }

  /** Adding a row under a fresh id whose email and username are free keeps the table valid. */
  lemma InsertKeepsValid(users: Store, u: User)
    requires Valid(users)
    requires u.id !in users
    requires !EmailInUse(users, u.email) && !UsernameInUse(users, u.username)
    ensures Valid(users[u.id := u])
    ensures |users[u.id := u]| == |users| + 1
  {
  }

  /**
   * Rewriting a row in place keeps the table valid when its id is kept and
   * any changed email or username is not used by another row.
   */
  lemma ReplaceKeepsValid(users: Store, u: User)
    requires Valid(users)
    requires u.id in users
    requires u.email == users[u.id].email || !EmailInUse(users, u.email)
    requires u.username == users[u.id].username || !UsernameInUse(users, u.username)
    ensures Valid(users[u.id := u])
    ensures users[u.id := u].Keys == users.Keys
  {
  }

  /** Removing a row keeps the table valid and shrinks it by one. */
  lemma RemoveKeepsValid(users: Store, id: UserId)
    requires Valid(users)
    requires id in users
    ensures Valid(users - {id})
    ensures |users - {id}| == |users| - 1
  {
  }
}
