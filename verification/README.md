# Find-or-create registration of the Flask `index` view

This project models the registration step of `hello.py`, a small Flask
application that stores users and roles in SQLite. A POST to `/` with a valid
`NameForm` looks the submitted username up. A known username leaves the
database alone and marks the session `known`. A new username gets a user row
that references the role named by the capitalised role key. That role is
created first when no role of that name exists. In both cases the session
records the submitted name, and the view redirects to `/`.

The model is functional:

- `Wrappers` holds `Option`.
- `Ascii` models `str.capitalize` on ASCII.
- `Tables` models the `roles` and `users` tables as sequences of rows with
  ids and a `role_id` foreign key. It provides the `filter_by(...).first()`
  lookups, the inserts with SQLite's id assignment, the schema's constraints
  (`Valid`), and a username-to-role-name view of the store (`Directory`).
- `Forms` models the fields and validators of `NameForm`, including the
  `str.strip()` that `DataRequired` applies, with Python's whitespace.
- `Registration` models the session, the find-or-create transition
  `Register`, the view `Index`, and runs of requests.

Usernames and role names are unique by schema declaration. In the model they
are a real invariant that every step preserves: each insert happens only after
a lookup found no match. The properties are proved both on the rows and on the
abstract map/set view. On that view, `Register` is exactly find-or-create on a
map from usernames to role names.

The `known` flag is not sticky. A client marked known who then submits a new
name gets `known = False` (hello.py:95); see `Registration.KnownIsNotSticky`.

## Model

| member | source | states |
|---|---|---|
| Ascii.Capitalize | hello.py:85 | `str.capitalize` on ASCII keeps the length, upper-cases the first character and lower-cases every other one |
| Ascii.CapitalizeFixesExactlyCapitalized | hello.py:85 | the result of capitalising is in capitalised form, and a string is left unchanged exactly when it is already capitalised |
| Ascii.CapitalizeIdempotent | hello.py:85 | capitalising an already capitalised name changes nothing: a stored role name is its own normal form |
| Ascii.CapitalizeIgnoresCase | hello.py:85 | two role keys normalise to the same role name if and only if they differ only in ASCII letter case ("admin" reuses "Admin") |
| Forms.Strip | hello.py:48 | `str.strip()` returns the slice between the leading and the trailing whitespace, which neither starts nor ends with whitespace; everything cut off is whitespace, Unicode separators included |
| Forms.StripEmptiesOnlyWhitespace | hello.py:48 | stripping empties a name exactly when every character of it is whitespace |
| Forms.IsChoiceKey | hello.py:49 | the role field accepts exactly the keys "user", "mod" and "admin" |
| Forms.Validates | hello.py:48-49 | a form validates exactly when the name has a character other than whitespace and the role is "user", "mod" or "admin" |
| Forms.CapitalizedChoiceKeys | hello.py:49 | every choice key of the role field capitalises to one of User, Mod, Admin, and each of the three is produced by some key |
| Tables.IndexOf | hello.py:81 | `first()` returns the position of the first row whose column holds the key, or nothing exactly when no row does |
| Tables.FindUser | hello.py:81 | the username lookup finds nothing exactly when the username is not stored, and otherwise returns a stored row with that username |
| Tables.FindRole | hello.py:85 | the role lookup finds nothing exactly when the name is not stored, and otherwise returns a stored role with that name |
| Tables.RoleById | hello.py:41 | resolving a `role_id` fails exactly when no role has that id, and otherwise returns a stored role with that id |
| Tables.NextId | hello.py:29 | a new primary key is greater than every id in the table and is one more than the largest, or 1 in an empty table |
| Tables.InsertRole | hello.py:88-90 | inserting a role appends exactly one row with the given name and an id no existing role has, and leaves users alone |
| Tables.InsertUser | hello.py:92-94 | inserting a user appends exactly one row with the given username and role, under an id no existing user has, keeps every earlier row, and leaves roles alone |
| Tables.InsertRolePreservesValid | hello.py:27-31 | inserting a role whose name is not yet stored keeps both primary keys, both unique columns and the foreign key intact |
| Tables.InsertUserPreservesValid | hello.py:37-41 | inserting a user whose username is not yet stored, referencing an existing role, keeps every schema constraint intact |
| Tables.DirectoryKeys | hello.py:37-41 | when every `role_id` resolves, the username-to-role view has exactly the stored usernames as keys |
| Tables.DirectoryIgnoresNewRole | hello.py:41 | appending a role changes no existing user's role in the view, when all `role_id`s already resolved |
| Registration.FindOrCreateRole | hello.py:84-90 | an existing role is reused with the store unchanged; a missing one is appended once with a fresh id; afterwards the name resolves to the returned id |
| Registration.Register | hello.py:81-99 | a known username leaves the store unchanged; a new one adds exactly one user, keeps earlier users, and references the role named `capitalize(key)`; a role is added only when that name was missing; the session records the name and whether it was known |
| Registration.Index | hello.py:76-100 | the view redirects exactly when a POST passes validation; otherwise it renders and changes neither store nor session; a redirect records the submitted name |
| Registration.RegisterPreservesValid | hello.py:81-94 | on a store that meets the schema, the step keeps ids, usernames and role names unique and every `role_id` resolving |
| Registration.RegisterIdempotent | hello.py:81-97 | submitting the same name again, with any role key, leaves the store as after the first submission and marks the session known |
| Registration.RegisterActsOnDirectory | hello.py:81-99 | on the map view the step is find-or-create: a known name leaves the map unchanged; a new name is added with `capitalize(key)`, no other entry changes, and the role-name set grows by that name at most |
| Registration.IndexKeepsRolesFromChoices | hello.py:80-90 | because validation admits only choice keys, every role name stays one of User, Mod, Admin after any request |
| Registration.RunInvariant | hello.py:76-100 | after any sequence of requests from one client, starting from a store that meets the schema and holds only choice roles, the store meets the schema, holds only User, Mod and Admin, and so at most three roles |
| Registration.RunFromInitial | hello.py:76-100 | every store reachable from empty tables meets the schema and holds at most three roles, all of them User, Mod or Admin |
| Registration.WhitespaceNameRejected | hello.py:48 | a POST whose name is only a no-break space (U+00A0) is not valid: the page is shown again and neither store nor session changes |
| Registration.KnownIsNotSticky | hello.py:95-97 | a session marked known that submits a valid new name is marked not known again |
| Registration.AliceRegistersTwice | hello.py:80-100 | on empty tables, "Alice" with role "user" creates Role(1, "User") and User(1, "Alice", 1) with known false; the same submission again creates nothing and sets known true |

## Left out

- Application set-up, configuration and the Bootstrap, Moment and Migrate extensions (hello.py:13-24): framework wiring with no logic.
- The 404 and 500 handlers and all template rendering (hello.py:58-65): the model only says whether the view renders or redirects.
- The `/user/<name>/<prontuario>/<institution>` route (hello.py:67-73) only renders a template. It passes `current_time=now`, and `now` is never defined, so every request to it would fail with a NameError. It is not modelled.
- The GET branch's lists and counts (hello.py:102-111): a read-only projection of both tables with no logic. The model keeps only its reading of an absent `known` as False, in the `Session` comment.
- CSRF protection and the remaining internals of `validate_on_submit`: only the two field validators are modelled.
- SQLAlchemy sessions, flushes and commits: each insert-and-commit is one atomic append, and no commit fails. The inserts are guarded by lookups.
- `String(64)` column lengths: SQLite ignores the declared length, so the model stores names of any length.
- SQLite's fallback to random row ids once the largest id reaches 2^63-1: `Tables.NextId` always returns the largest id plus one.
- The nullable `users.role_id`: this code always sets it, so the model's `roleId` is never empty.
- Concurrency: two clients registering the same new username at once can both pass the lookup. The model is one sequential step, and `Registration.Run` models the requests of a single client.
- Discipline registration has no code in `hello.py`, so there is nothing to model.
- Ascii.Capitalize: case-maps ASCII letters only. Python's `str.capitalize` also case-maps non-ASCII letters and uses title case for the first character. The difference does not matter for validated role keys, which are ASCII.
