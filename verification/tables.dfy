/**
 * The `roles` and `users` tables of hello.py:27-44 and the ORM operations the
 * registration step performs on them: `filter_by(...).first()` and inserting
 * one row. Rows are kept in insertion order; ids are assigned the way SQLite
 * assigns an INTEGER PRIMARY KEY that is not AUTOINCREMENT.
 */
module Tables {
  import opened Wrappers

  /** A row of `roles`: the primary key and the unique role name. */
  datatype Role = Role(id: nat, name: string)

  /** A row of `users`: the primary key, the unique username and the `role_id` foreign key. */
  datatype User = User(id: nat, username: string, roleId: nat)

  datatype Db = Db(roles: seq<Role>, users: seq<User>)

  const EmptyDb := Db([], [])

  // Columns of the two tables, in row order.

  function RoleIds(roles: seq<Role>): seq<nat> {
    seq(|roles|, i requires 0 <= i < |roles| => roles[i].id)
  }

  function RoleNames(roles: seq<Role>): seq<string> {
    seq(|roles|, i requires 0 <= i < |roles| => roles[i].name)
  }

  function UserIds(users: seq<User>): seq<nat> {
    seq(|users|, i requires 0 <= i < |users| => users[i].id)
  }

  function Usernames(users: seq<User>): seq<string> {
    seq(|users|, i requires 0 <= i < |users| => users[i].username)
  }

  /** No value occurs twice in a column. */
  predicate Distinct<K(==)>(s: seq<K>) {
    forall i, j :: 0 <= i < j < |s| ==> s[i] != s[j]
  }

  /**
   * The constraints the schema declares: both primary keys, `roles.name`
   * and `users.username` unique, and every `users.role_id` naming a role.
   */
  predicate Valid(db: Db) {
    && Distinct(RoleIds(db.roles))
    && Distinct(RoleNames(db.roles))
    && Distinct(UserIds(db.users))
    && Distinct(Usernames(db.users))
    && forall u :: u in db.users ==> u.roleId in RoleIds(db.roles)
  }

  predicate HasUser(db: Db, username: string) {
    username in Usernames(db.users)
  }

  predicate HasRole(db: Db, name: string) {
    name in RoleNames(db.roles)
  }

  /** The position of the first row whose column value is `k`, as `first()` returns it. */
  function IndexOf<K(==)>(keys: seq<K>, k: K): (r: Option<nat>)
    ensures r.Some? ==> r.value < |keys| && keys[r.value] == k && k !in keys[..r.value]
    ensures r.None? <==> k !in keys
  {
    if |keys| == 0 then None
    else if keys[0] == k then Some(0)
    else match IndexOf(keys[1..], k)
      case None => None
      case Some(i) =>
        assert keys[..i + 1] == [keys[0]] + keys[1..][..i];
        Some(i + 1)
  }

  /** In a column without repeats, the first occurrence of a value is its only one. */
  lemma IndexOfDistinct<K>(keys: seq<K>, i: nat)
    requires Distinct(keys) && i < |keys|
    ensures IndexOf(keys, keys[i]) == Some(i)
  {
  }

  /** Rows appended after the first match do not move it. */
  lemma IndexOfAppend<K>(keys: seq<K>, more: seq<K>, k: K)
    requires k in keys
    ensures IndexOf(keys + more, k) == IndexOf(keys, k)
  {
    var i := IndexOf(keys, k).value;
    assert (keys + more)[..i] == keys[..i];
    assert (keys + more)[i] == k;
  }

  /** `User.query.filter_by(username=...).first()` (hello.py:81). */
  function FindUser(db: Db, username: string): (r: Option<User>)
    ensures r.None? <==> !HasUser(db, username)
    ensures r.Some? ==> r.value in db.users && r.value.username == username
  {
    match IndexOf(Usernames(db.users), username)
    case None => None
    case Some(i) => Some(db.users[i])
  }

  /** `Role.query.filter_by(name=...).first()` (hello.py:85). */
  function FindRole(db: Db, name: string): (r: Option<Role>)
    ensures r.None? <==> !HasRole(db, name)
    ensures r.Some? ==> r.value in db.roles && r.value.name == name
  {
    match IndexOf(RoleNames(db.roles), name)
    case None => None
    case Some(i) => Some(db.roles[i])
  }

  /** The role a `role_id` refers to: the join behind the `User.role` backref (hello.py:31). */
  function RoleById(roles: seq<Role>, id: nat): (r: Option<Role>)
    ensures r.None? <==> id !in RoleIds(roles)
    ensures r.Some? ==> r.value in roles && r.value.id == id
  {
    match IndexOf(RoleIds(roles), id)
    case None => None
    case Some(i) => Some(roles[i])
  }

  /**
   * The id SQLite gives a new row of a table whose INTEGER PRIMARY KEY is not
   * AUTOINCREMENT: one more than the largest id present, or 1 in an empty table.
   */
  function NextId(ids: seq<nat>): (r: nat)
    ensures |ids| == 0 ==> r == 1
    ensures r >= 1
    ensures forall i :: 0 <= i < |ids| ==> ids[i] < r
    ensures |ids| > 0 ==> r - 1 in ids
  {
    if |ids| == 0 then 1
    else
      var rest := NextId(ids[1..]);
      assert |ids| > 1 ==> ids[1..][0] == ids[1];
      if ids[0] + 1 > rest then ids[0] + 1 else rest
  }

  /** `db.session.add(Role(name=...))` followed by a commit (hello.py:88-90); also returns the new id. */
  function InsertRole(db: Db, name: string): (r: (Db, nat))
    ensures r.0.users == db.users
    ensures r.0.roles == db.roles + [Role(r.1, name)]
    ensures r.1 !in RoleIds(db.roles)
  {
    var id := NextId(RoleIds(db.roles));
    (Db(db.roles + [Role(id, name)], db.users), id)
  }

  /** `db.session.add(User(username=..., role=...))` followed by a commit (hello.py:92-94). */
  function InsertUser(db: Db, username: string, roleId: nat): (r: Db)
    ensures r.roles == db.roles
    ensures |r.users| == |db.users| + 1 && r.users[..|db.users|] == db.users
    ensures r.users[|db.users|].username == username && r.users[|db.users|].roleId == roleId
    ensures r.users[|db.users|].id !in UserIds(db.users)
  {
    var id := NextId(UserIds(db.users));
    Db(db.roles, db.users + [User(id, username, roleId)])
  }

  /** Appending a value that is not yet in a column keeps it free of repeats. */
  lemma DistinctAppend<K>(s: seq<K>, k: K)
    requires Distinct(s) && k !in s
    ensures Distinct(s + [k])
  {
  }

  /**
   * Inserting a role whose name no row has yet (the lookup of hello.py:85
   * found nothing) keeps every constraint of the schema.
   */
  lemma InsertRolePreservesValid(db: Db, name: string)
    requires Valid(db) && !HasRole(db, name)
    ensures Valid(InsertRole(db, name).0)
  {
    var (db', id) := InsertRole(db, name);
    assert RoleIds(db'.roles) == RoleIds(db.roles) + [id];
    assert RoleNames(db'.roles) == RoleNames(db.roles) + [name];
    DistinctAppend(RoleIds(db.roles), id);
    DistinctAppend(RoleNames(db.roles), name);
  }

  /**
   * Inserting a user whose username no row has yet (the lookup of hello.py:81
   * found nothing), referencing an existing role, keeps every constraint.
   */
  lemma InsertUserPreservesValid(db: Db, username: string, roleId: nat)
    requires Valid(db) && !HasUser(db, username) && roleId in RoleIds(db.roles)
    ensures Valid(InsertUser(db, username, roleId))
  {
    var db' := InsertUser(db, username, roleId);
    var n := |db.users|;
    assert db'.users == db.users + [db'.users[n]];
    assert UserIds(db'.users) == UserIds(db.users) + [db'.users[n].id];
    assert Usernames(db'.users) == Usernames(db.users) + [username];
    DistinctAppend(UserIds(db.users), db'.users[n].id);
    DistinctAppend(Usernames(db.users), username);
  }

  /** A column without repeats has as many distinct values as rows. */
  lemma {:induction false} DistinctCard<K>(s: seq<K>)
    requires Distinct(s)
    ensures |set x | x in s| == |s|
  {
    if |s| > 0 {
      var t := s[..|s| - 1];
      DistinctCard(t);
      assert s == t + [s[|s| - 1]];
      assert (set x | x in s) == (set x | x in t) + {s[|s| - 1]};
    }
  }

  /** A subset has no more elements than its superset. */
  lemma {:induction false} SubsetCard<K>(a: set<K>, b: set<K>)
    requires a <= b
    ensures |a| <= |b|
    decreases |a|
  {
    if a != {} {
      var x :| x in a;
      SubsetCard(a - {x}, b - {x});
    }
  }

  /** A username is stored exactly when some row carries it. */
  lemma HasUserIff(db: Db, username: string)
    ensures HasUser(db, username) <==> exists u :: u in db.users && u.username == username
  {
    if HasUser(db, username) {
      var i :| 0 <= i < |db.users| && Usernames(db.users)[i] == username;
      assert db.users[i] in db.users;
    }
    if exists u :: u in db.users && u.username == username {
      var u :| u in db.users && u.username == username;
      var i :| 0 <= i < |db.users| && db.users[i] == u;
      assert Usernames(db.users)[i] == username;
    }
  }

  /** The set of role names stored in `roles`. */
  function RoleNameSet(db: Db): set<string> {
    set r | r in db.roles :: r.name
  }

  /**
   * The store seen as a map from each username to the name of its role: the
   * join of `users` with `roles` on `role_id`. A user whose `role_id` names no
   * role has no entry; a later row for a username overrides an earlier one.
   */
  function Directory(db: Db): map<string, string>
    decreases |db.users|
  {
    if |db.users| == 0 then map[]
    else
      var n := |db.users| - 1;
      var rest := Directory(Db(db.roles, db.users[..n]));
      match RoleById(db.roles, db.users[n].roleId)
      case None => rest
      case Some(role) => rest[db.users[n].username := role.name]
  }

  /** When every `role_id` resolves, the directory has exactly the stored usernames as keys. */
  lemma {:induction false} DirectoryKeys(db: Db)
    requires forall u :: u in db.users ==> u.roleId in RoleIds(db.roles)
    ensures Directory(db).Keys == set u | u in db.users :: u.username
    decreases |db.users|
  {
    if |db.users| > 0 {
      var n := |db.users| - 1;
      var prefix := Db(db.roles, db.users[..n]);
      assert forall u :: u in prefix.users ==> u in db.users;
      DirectoryKeys(prefix);
      assert db.users == prefix.users + [db.users[n]];
    }
  }

  /** A role appended to `roles` does not change what an id that already resolved resolves to. */
  lemma RoleByIdAppend(roles: seq<Role>, role: Role, id: nat)
    requires id in RoleIds(roles)
    ensures RoleById(roles + [role], id) == RoleById(roles, id)
  {
    assert RoleIds(roles + [role]) == RoleIds(roles) + [role.id];
    IndexOfAppend(RoleIds(roles), [role.id], id);
  }

  /**
   * Appending a role does not change the role any existing user resolves to,
   * as long as every `role_id` already resolved.
   */
  lemma {:induction false} DirectoryIgnoresNewRole(db: Db, role: Role)
    requires forall u :: u in db.users ==> u.roleId in RoleIds(db.roles)
    ensures Directory(Db(db.roles + [role], db.users)) == Directory(db)
    decreases |db.users|
  {
    if |db.users| > 0 {
      var n := |db.users| - 1;
      var prefix := Db(db.roles, db.users[..n]);
      forall u | u in prefix.users
        ensures u.roleId in RoleIds(db.roles)
      {
        assert u in db.users;
      }
      DirectoryIgnoresNewRole(prefix, role);
      assert db.users[n] in db.users;
      RoleByIdAppend(db.roles, role, db.users[n].roleId);
    }
  }
}
