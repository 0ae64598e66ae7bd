/**
 * The POST branch of the `index` view (hello.py:76-100): validate the form,
 * then find the user by name or create it together with its role, and record
 * the outcome in the client's session.
 */
module Registration {
  import opened Wrappers
  import opened Ascii
  import opened Tables
  import opened Forms

  /**
   * The two session keys the view writes. A key never written is None; the
   * page reads an absent `known` as False (hello.py:107-108).
   */
  datatype Session = Session(name: Option<string>, known: Option<bool>)

  const NewSession := Session(None, None)

  datatype State = State(db: Db, session: Session)

  const Initial := State(EmptyDb, NewSession)

  datatype Request = Get | Post(form: NameForm)

  /** Rendering `index.html`, or `redirect(url_for('index'))`. */
  datatype Reply = ShowPage | RedirectToIndex

  datatype Step = Step(state: State, reply: Reply)

  /**
   * Lines 84-90: look the role up by name and insert it when absent. Returns
   * the store afterwards and the id of the role the new user will reference.
   */
  function FindOrCreateRole(db: Db, name: string): (r: (Db, nat))
    ensures r.0.users == db.users
    ensures HasRole(db, name) ==> r.0.roles == db.roles
    ensures !HasRole(db, name) ==> r.0.roles == db.roles + [Role(r.1, name)] && r.1 !in RoleIds(db.roles)
    ensures FindRole(r.0, name) == Some(Role(r.1, name))
  {
    match FindRole(db, name)
    case Some(role) => (db, role.id)
    case None =>
      var (db', id) := InsertRole(db, name);
      assert RoleNames(db'.roles) == RoleNames(db.roles) + [name];
      (db', id)
  }

  /**
   * Lines 81-99: the find-or-create step on an already validated name and role key.
   * A known username leaves the store alone; a new one adds exactly one user,
   * referencing the role named `Capitalize(roleKey)`, and adds that role only
   * when no role of that name exists. The session records the name and whether
   * the user was already known.
   */
  function Register(st: State, name: string, roleKey: string): (r: State)
    ensures r.session == Session(Some(name), Some(HasUser(st.db, name)))
    ensures HasUser(st.db, name) ==> r.db == st.db
    ensures !HasUser(st.db, name) ==>
      var n := |st.db.users|;
      && |r.db.users| == n + 1
      && r.db.users[..n] == st.db.users
      && r.db.users[n].username == name
      && r.db.users[n].id !in UserIds(st.db.users)
      && FindRole(r.db, Capitalize(roleKey)) == Some(Role(r.db.users[n].roleId, Capitalize(roleKey)))
    ensures HasUser(st.db, name) || HasRole(st.db, Capitalize(roleKey)) ==> r.db.roles == st.db.roles
    ensures !HasUser(st.db, name) && !HasRole(st.db, Capitalize(roleKey)) ==>
      var m := |st.db.roles|;
      && |r.db.roles| == m + 1
      && r.db.roles[..m] == st.db.roles
      && r.db.roles[m].name == Capitalize(roleKey)
      && r.db.roles[m].id !in RoleIds(st.db.roles)
  {
    match FindUser(st.db, name)
    case Some(_) => State(st.db, Session(Some(name), Some(true)))
    case None =>
      var (db1, roleId) := FindOrCreateRole(st.db, Capitalize(roleKey));
      var db2 := InsertUser(db1, name, roleId);
      assert db2.roles == db1.roles;
      assert db2.users == db1.users + [db2.users[|db1.users|]];
      assert RoleNames(db2.roles) == RoleNames(db1.roles);
      State(db2, Session(Some(name), Some(false)))
  }

  /**
   * Lines 76-100: a GET, or a POST whose form fails validation, renders the
   * page and changes nothing; a valid POST registers and redirects.
   */
  function Index(st: State, req: Request): (r: Step)
    ensures r.reply == RedirectToIndex <==> req.Post? && Validates(req.form)
    ensures r.reply == ShowPage ==> r.state == st
    ensures r.reply == RedirectToIndex ==> r.state.session.name == Some(req.form.name)
  {
    if req.Post? && Validates(req.form) then
      Step(Register(st, req.form.name, req.form.role), RedirectToIndex)
    else
      Step(st, ShowPage)
  }

  /** The state after a sequence of requests from one client, one at a time. */
  function Run(st: State, reqs: seq<Request>): State
    decreases |reqs|
  {
    if |reqs| == 0 then st else Run(Index(st, reqs[0]).state, reqs[1..])
  }

  /** Every role name in the store is the capitalised key of a form choice. */
  predicate RolesFromChoices(db: Db) {
    forall r :: r in db.roles ==> r.name in ChoiceRoleNames
  }

  /** The lookup-before-insert keeps both primary keys, both unique columns and the foreign key intact. */
  lemma RegisterPreservesValid(st: State, name: string, roleKey: string)
    requires Valid(st.db)
    ensures Valid(Register(st, name, roleKey).db)
  {
    if !HasUser(st.db, name) {
      var cap := Capitalize(roleKey);
      var (db1, roleId) := FindOrCreateRole(st.db, cap);
      if !HasRole(st.db, cap) {
        InsertRolePreservesValid(st.db, cap);
      }
      var role := FindRole(db1, cap).value;
      var k :| 0 <= k < |db1.roles| && db1.roles[k] == role;
      assert RoleIds(db1.roles)[k] == roleId;
      InsertUserPreservesValid(db1, name, roleId);
    }
  }

  /**
   * Submitting the same name again, with any role key, changes no row and
   * marks the session as known.
   */
  lemma RegisterIdempotent(st: State, name: string, roleKey: string, roleKey': string)
    ensures Register(Register(st, name, roleKey), name, roleKey').db == Register(st, name, roleKey).db
    ensures Register(Register(st, name, roleKey), name, roleKey').session == Session(Some(name), Some(true))
  {
    var once := Register(st, name, roleKey);
    if !HasUser(st.db, name) {
      var n := |st.db.users|;
      assert Usernames(once.db.users)[n] == name;
    }
  }

  /**
   * On the username-to-role-name view of the store, the step is exactly
   * find-or-create: a known name leaves the map alone, a new name is added
   * with the capitalised role, no other entry changes, and the set of role
   * names grows by that role at most.
   */
  lemma RegisterActsOnDirectory(st: State, name: string, roleKey: string)
    requires Valid(st.db)
    ensures var r := Register(st, name, roleKey);
      var cap := Capitalize(roleKey);
      && (name in Directory(st.db) <==> HasUser(st.db, name))
      && Directory(r.db) == (if name in Directory(st.db) then Directory(st.db) else Directory(st.db)[name := cap])
      && RoleNameSet(r.db) == (if name in Directory(st.db) then RoleNameSet(st.db) else RoleNameSet(st.db) + {cap})
  {
    var r := Register(st, name, roleKey);
    var cap := Capitalize(roleKey);
    DirectoryKeys(st.db);
    HasUserIff(st.db, name);
    if !HasUser(st.db, name) {
      var (db1, roleId) := FindOrCreateRole(st.db, cap);
      if !HasRole(st.db, cap) {
        DirectoryIgnoresNewRole(st.db, Role(roleId, cap));
        assert RoleNameSet(db1) == RoleNameSet(st.db) + {cap};
      } else {
        var i := IndexOf(RoleNames(st.db.roles), cap).value;
        assert st.db.roles[i].name == cap;
        assert RoleNameSet(db1) == RoleNameSet(st.db) + {cap};
      }
      assert Directory(db1) == Directory(st.db);
      RegisterPreservesValid(st, name, roleKey);
      var n := |st.db.users|;
      var role := FindRole(r.db, cap).value;
      assert role == Role(roleId, cap) == Role(r.db.users[n].roleId, cap);
      var k :| 0 <= k < |r.db.roles| && r.db.roles[k] == role;
      assert RoleIds(r.db.roles)[k] == roleId;
      IndexOfDistinct(RoleIds(r.db.roles), k);
      assert RoleById(r.db.roles, roleId) == Some(role);
      assert r.db.users[..n] == db1.users;
      assert Db(r.db.roles, r.db.users[..n]) == db1;
    }
  }

  /** Validation admits only choice keys, so every reachable role is User, Mod or Admin. */
  lemma IndexKeepsRolesFromChoices(st: State, req: Request)
    requires RolesFromChoices(st.db)
    ensures RolesFromChoices(Index(st, req).state.db)
  {
    if req.Post? && Validates(req.form) {
      var cap := Capitalize(req.form.role);
      CapitalizedChoiceKeys(req.form.role);
      var r := Register(st, req.form.name, req.form.role);
      if !HasUser(st.db, req.form.name) && !HasRole(st.db, cap) {
        var m := |st.db.roles|;
        assert r.db.roles == st.db.roles + [r.db.roles[m]];
      }
    }
  }

  /**
   * Whatever one client submits to a store that meets the schema and holds
   * only choice roles, the store keeps the schema's constraints, holds only
   * the roles User, Mod and Admin, and so never more than three roles.
   */
  lemma {:induction false} RunInvariant(st: State, reqs: seq<Request>)
    requires Valid(st.db) && RolesFromChoices(st.db)
    ensures var s := Run(st, reqs);
      Valid(s.db) && RolesFromChoices(s.db) && |s.db.roles| <= 3
    decreases |reqs|
  {
    if |reqs| == 0 {
      DistinctCard(RoleNames(st.db.roles));
      SubsetCard((set x | x in RoleNames(st.db.roles)), ChoiceRoleNames);
    } else {
      var next := Index(st, reqs[0]).state;
      if reqs[0].Post? && Validates(reqs[0].form) {
        RegisterPreservesValid(st, reqs[0].form.name, reqs[0].form.role);
      }
      IndexKeepsRolesFromChoices(st, reqs[0]);
      RunInvariant(next, reqs[1..]);
    }
  }

  /** Every store reachable from empty tables meets the schema and has at most three roles, all from the choices. */
  lemma RunFromInitial(reqs: seq<Request>)
    ensures var s := Run(Initial, reqs);
      Valid(s.db) && RolesFromChoices(s.db) && |s.db.roles| <= 3
  {
    RunInvariant(Initial, reqs);
  }

  /**
   * The session does not stay known: a client whose last name was known and
   * who then submits a new name is marked unknown again.
   */
  lemma KnownIsNotSticky(st: State, form: NameForm)
    requires st.session.known == Some(true)
    requires Validates(form) && !HasUser(st.db, form.name)
    ensures Index(st, Post(form)).state.session.known == Some(false)
  {
  }

  /** A name made only of a no-break space (U+00A0) fails `DataRequired`: the page is shown again and nothing changes. */
  lemma WhitespaceNameRejected(st: State)
    ensures var r := Index(st, Post(NameForm([0xA0 as char], "user")));
      r.reply == ShowPage && r.state == st
  {
  }

  /** Alice registers as "user" twice: the first time creates User and Alice, the second changes nothing. */
  lemma AliceRegistersTwice()
    ensures var s1 := Index(Initial, Post(NameForm("Alice", "user"))).state;
      var s2 := Index(s1, Post(NameForm("Alice", "user"))).state;
      && s1.db == Db([Role(1, "User")], [User(1, "Alice", 1)])
      && s1.session == Session(Some("Alice"), Some(false))
      && s2.db == s1.db
      && s2.session == Session(Some("Alice"), Some(true))
  {
    var form := NameForm("Alice", "user");
    assert !IsWhitespace(form.name[0]);
    assert Validates(form);
    assert Capitalize("user") == "User";
    var s1 := Index(Initial, Post(form)).state;
    assert Usernames(s1.db.users) == ["Alice"];
  }
}
