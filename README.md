# TaskMgt: a verified model of the to-do application's state

TaskMgt is a small Flask to-do application. Users register with a username,
an e-mail address and a password. They log in, add tasks, list them, mark
them completed, delete them, and upload a profile picture. This project
models what the route handlers of `app.py` do to the stored data and the
login session, and proves properties of that model in Dafny.

The files:

- `wrappers.dfy`: `Option`, used for lookups and for the session.
- `upload.dfy` (module `Upload`): `allowed_file` as the predicate
  `AllowedFile`. It is proved equal to a direct characterisation ("some dot
  is followed by a dot-free tail whose lower-cased text is one of png, jpg,
  jpeg, gif"). It is also proved equal to the extension test that
  Flask-WTF's `FileAllowed` validator applies on the profile form, so the
  two upload routes accept the same names.
- `credentials.dfy` (module `Credentials`): werkzeug's
  `generate_password_hash` / `check_password_hash`, as a salted digest. The
  key-derivation function `kdf` is a parameter, so nothing is claimed about
  it except that re-deriving with the stored salt reproduces the digest.
- `models.dfy` (module `Models`): the `User` and `Task` rows as datatypes.
  It holds the ORM queries the handlers run (`filter_by(email=…).first()`,
  `query.get(id)`, `filter_by(user_id=…).all()`) and the row updates they
  commit (complete, delete, set picture), all as pure functions over the
  tables, with lemmas relating them.
- `taskmgt.dfy` (module `TaskMgt`): class `App`. Its fields are the two
  tables, the session (`None` = anonymous, `Some(id)` = logged in) and the
  id counters that stand in for the database's primary keys. There is one
  method per route. Each method says exactly what it changes: its
  `modifies` clause names only the fields the route touches, and its
  `ensures` tie the new state to the old one through the `Models`
  functions. Every method keeps `App.Valid()`. That invariant says primary
  keys and the unique `email` / `username` columns hold, every task's owner
  exists, and a logged-in session names an existing user.
- `scenarios.dfy` (module `Scenarios`): request sequences against a fresh
  `App`, proved from the route contracts alone.

Behaviour of the code that the model keeps as written:

- `complete_task` and `delete_task` look a task up by id only. They never
  compare its owner with the caller. `delete_task` does not even require a
  login. `Scenarios.OtherUserCompletesTask` shows that bob cannot see
  alice's task in his listing, yet he can complete it by its id.
  `Scenarios.AnonymousDeletesTask` shows an anonymous client deleting it.
  An ownership-checked contract (refuse when the owner is not the caller)
  would be the safer design. The code does not have one, and the model
  follows the code.
- `register` checks only for a duplicate e-mail. The `username` column is
  declared unique, so a duplicate username makes the commit fail and the
  request ends in a server error with nothing stored. The model gives this
  outcome as `UsernameTaken` and leaves the state unchanged.
- `upload_profile_pic` redirects silently, without changing anything, when
  the file name fails `allowed_file`.

## Model

| member | source | states |
|---|---|---|
| `Upload.Lower` | app.py:94 | `str.lower()` character by character, folding ASCII capitals; `LowerKeepsDots` and `LowerSuffix` state that it keeps the length and the dots and commutes with suffixes |
| `Upload.LastDot` | app.py:94 | the index found holds a `.` and no `.` follows it; there is no index exactly when the name has no `.` |
| `Upload.Extension` | app.py:94 | `rsplit('.', 1)[1]` is the dot-free suffix of the name that directly follows a `.` |
| `Upload.ExtensionIsDotFreeSuffix` | app.py:94 | any dot-free tail that follows a `.` is exactly the text after the last dot |
| `Upload.AllowedFile` | app.py:93-94 | `allowed_file`: the name has a `.` and the lower-cased text after its last `.` is png, jpg, jpeg or gif; `AllowedFileIff` characterises it without `rsplit` |
| `Upload.AllowedFileIff` | app.py:89-94 | `allowed_file(f)` holds iff some `.` in `f` is followed by a dot-free tail whose lower-cased text is in {png, jpg, jpeg, gif} |
| `Upload.AllowedFileOfSplit` | app.py:93-94 | for a dot-free `ext`, `stem + "." + ext` is allowed iff `ext` lower-cased is an allowed extension, whatever the stem |
| `Upload.AllowedFileIgnoresCase` | app.py:94 | "a.PNG" is allowed, because the extension is compared lower-cased |
| `Upload.AllowedFileUsesLastDot` | app.py:94 | "a.tar.gz" is refused, because only the text after the last dot counts |
| `Upload.AllowedFileNeedsDot` | app.py:94 | "png" is refused, because a name with no dot fails the check |
| `Upload.FileAllowedAccepts` | app.py:82 | the `FileAllowed(['jpg', 'png', 'jpeg', 'gif'])` test: the lower-cased name ends with `.` and a listed extension; `FileAllowedAgreesWithAllowedFile` proves it equal to `AllowedFile` |
| `Upload.FileAllowedAgreesWithAllowedFile` | app.py:82 | the profile form's `FileAllowed(['jpg', 'png', 'jpeg', 'gif'])` test (lower-cased name ends with "." plus a listed extension) accepts exactly the names `allowed_file` accepts |
| `Credentials.GeneratePasswordHash` | app.py:46 | the stored hash records the salt drawn and checks successfully against the password it was made from |
| `Credentials.CheckPasswordHash` | app.py:49 | `check_password_hash` re-derives with the stored salt and compares with the stored digest; `GeneratePasswordHash` ensures it accepts the hashed password, `CheckRejectsOtherPassword` says when it rejects another |
| `Credentials.CheckRejectsOtherPassword` | app.py:48-49 | a hash rejects another password exactly when the key derivation separates the two under that salt; no collision resistance is assumed |
| `Models.SetPassword` | app.py:45-46 | afterwards `check_password` accepts the new password, the hash uses the given salt, and every other column of the user is unchanged |
| `Models.CheckPassword` | app.py:48-49 | `check_password` is `check_password_hash` on the user's stored hash; `SetPassword` ensures it accepts the password just set |
| `Models.FindFirst` | app.py:187 | the row `get()` or `first()` returns (here `Task.query.get`; also app.py:61 and app.py:136): the index returned satisfies the condition and no earlier row does; no index is returned exactly when no row satisfies it |
| `Models.FindUserByEmail` | app.py:136 | `filter_by(email=…).first()` is `FindFirst` on the e-mail: the first row with that e-mail, or no row when none has it |
| `Models.FindUserById` | app.py:59-61 | `User.query.get(id)` is `FindFirst` on the id: the first row with that id, or no row when none has it |
| `Models.FindTask` | app.py:187 | `Task.query.get(task_id)` is `FindFirst` on the id: the first row with that id, or no row when none has it |
| `Models.UsernameInUse` | app.py:40 | some stored user already has the username, which the unique `username` column would reject a second time; `Register` answers a new e-mail with `UsernameTaken` exactly then |
| `Models.Authenticate` | app.py:152-153 | a successful login names a user with that e-mail whose password checks; with unique e-mails, it fails iff no user with that e-mail accepts the password |
| `Models.RegisteredUserCanLogIn` | app.py:140-143 | a user appended under a fresh e-mail is afterwards logged in by that e-mail and password, as that user's id |
| `Models.TasksOf` | app.py:168 | the listing holds exactly the stored tasks whose `user_id` is the given user, and no more than the table |
| `Models.TasksOfAppend` | app.py:210 | the listing of two tables one after the other is the two listings one after the other, so stored order is kept |
| `Models.TasksOfAppendOne` | app.py:177-178 | a task added for user A appears at the end of A's listing and leaves every other user's listing unchanged |
| `Models.CompleteIn` | app.py:200-203 | only the `completed` flag can change, only on rows with that id, and it is set on the row with that id; a missing id leaves the table unchanged |
| `Models.CompleteIdempotent` | app.py:197-204 | completing the same id twice leaves the same table as completing it once |
| `Models.CompleteKeepsOwners` | app.py:202 | every user's listing after completing a task holds the same tasks in the same order as before, apart from the `completed` flag |
| `Models.CompleteKeepsOwnersFrom` | app.py:202 | two tables that agree row by row except for `completed` give every user listings that agree row by row except for `completed` |
| `Models.SameUpToCompletionAppend` | app.py:210 | agreement up to the `completed` flag is kept when tables are joined |
| `Models.RemoveTask` | app.py:187-190 | deleting removes one row when the id exists and none when it does not; with unique ids, the rows left are exactly those whose id differs |
| `Models.WithoutAbsentTask` | app.py:187-188 | filtering out an id that no row has leaves the table as it is |
| `Models.WithoutTaskAppend` | app.py:187-190 | filtering out one id distributes over joining two tables |
| `Models.RemoveTaskIsFilter` | app.py:185-194 | with unique ids, deleting the found row equals filtering out that id, so the other tasks keep their order |
| `Models.AfterFirstIsAbsent` | app.py:187 | with unique ids, no row after the one with the id has that id |
| `Models.SetProfilePic` | app.py:114 | only `profile_pic` can change, only on rows with the current user's id, and it is set there; an unknown id leaves the table unchanged |
| `TaskMgt.NotBlank` | app.py:65-73 | `DataRequired()`: the field holds a character that is not white space |
| `TaskMgt.RegisterFormValid` | app.py:64-68 | the `RegisterForm` validators: every field not blank, a username of 3 to 20 characters, a password of at least 6, the confirmation equal to the password (`Email()` not modelled) |
| `TaskMgt.LoginFormValid` | app.py:71-73 | the `LoginForm` validators: e-mail and password not blank (`Email()` not modelled) |
| `TaskMgt.App.Valid` | app.py:39-56 | the primary keys and the unique `email` and `username` columns hold, every key is below the next one to be handed out, every task's `user_id` names a stored user, and a session names a stored user; every route method keeps it |
| `TaskMgt.App.constructor` | app.py:38-57 | a fresh database has empty tables, no session, and keys starting at 1 |
| `TaskMgt.App.Register` | app.py:132-146 | a known e-mail leaves the tables unchanged (EmailTaken); a taken username does too (UsernameTaken); otherwise exactly one user is appended with the next id, the given username and e-mail, a hash of the password, and `default.jpg`, and existing users are untouched; tasks and session never change |
| `TaskMgt.App.Login` | app.py:148-157 | the session is bound to the user `Authenticate` finds when it finds one, otherwise the session is unchanged; the tables never change |
| `TaskMgt.App.Logout` | app.py:159-163 | from a logged-in session, the session becomes anonymous; no table changes |
| `TaskMgt.App.ListTasks` | app.py:165-169 | the dashboard (and `/tasks`, app.py:207-211) lists exactly the current user's tasks in stored order; nothing changes |
| `TaskMgt.App.AddTask` | app.py:172-182 | exactly one task is appended, with an id no existing task has, the given title and description, `completed = false`, and owned by the current user; users and session are unchanged |
| `TaskMgt.App.DeleteTask` | app.py:185-194 | needs no login; reports whether the id was found and removes exactly that row; a missing id changes nothing |
| `TaskMgt.App.CompleteTask` | app.py:197-204 | sets `completed` on the task with that id whoever owns it, and changes nothing else; a missing id changes nothing |
| `TaskMgt.App.UploadProfilePic` | app.py:96-118 | no file part, an empty file name, or a name failing `allowed_file` leave all state unchanged with the matching outcome; otherwise the current user's `profile_pic` becomes the sanitised name and nothing else changes |
| `TaskMgt.App.Profile` | app.py:215-230 | the picture is updated to the sanitised name iff a file with a non-empty name passes `FileAllowed`; otherwise nothing changes |
| `TaskMgt.App.StoreProfilePic` | app.py:114-115 | setting the current user's picture keeps all keys and unique columns, so the invariant still holds |
| `TaskMgt.FindUserByIdAppend` | app.py:142-143 | adding a user keeps every existing user findable by id (owners of tasks, the logged-in user) |
| `TaskMgt.UniqueTaskIdsRemoveAt` | app.py:189 | dropping one row keeps the task ids unique |
| `TaskMgt.RemoveTaskKeepsUnique` | app.py:189-190 | deleting a task keeps the task ids unique |
| `Scenarios.AliceLoggedIn` | app.py:132-157 | after alice registers and logs in, the user table is her one row and the session is hers |
| `Scenarios.AliceCompletesHerTask` | app.py:172-204 | alice's listing shows "Buy milk" open after adding it and completed after completing it |
| `Scenarios.WrongPasswordIsRejected` | app.py:152-156 | a wrong password leaves the client anonymous, provided the hash separates the two passwords |
| `Scenarios.DuplicateEmailIsRefused` | app.py:136-139 | registering a known e-mail again is refused and the user table keeps one row |
| `Scenarios.BobLoggedInBesideAlice` | app.py:132-182 | after alice adds a task and logs out and bob registers and logs in, the tables hold both users and alice's task, and the session is bob's |
| `Scenarios.OtherUserCompletesTask` | app.py:197-204 | bob's listing does not show alice's task, yet bob completes it by its id |
| `Scenarios.AnonymousDeletesTask` | app.py:185-194 | an anonymous client deletes alice's task by its id |
| `Scenarios.AliceUploadsPicture` | app.py:96-118 | "a.PNG" is stored under its sanitised name; a later "a.tar.gz" is refused and the picture stays as it was |

## Left out

- Flask routing, `render_template`, `flash` and `redirect` / `url_for` are presentation and are not modelled. A GET request to `/register`, `/login`, `/add-task` or `/profile` only renders the form and is not modelled. The other routes act on GET too: `/logout`, `/dashboard` and `/tasks` accept only GET and are modelled as `Logout` and `ListTasks`. `/delete_task/<id>` and `/complete_task/<id>` accept GET and POST, and `DeleteTask` and `CompleteTask` model the request whatever its method, so a plain GET link to `/delete_task/<id>` deletes any task without a login. A route's visible result appears as an outcome value (`RegisterOutcome`, `UploadOutcome`, a found flag) at most.
- Form validation: the WTForms validators run before a handler body. `DataRequired`, `Length` and `EqualTo` appear as preconditions (`RegisterFormValid`, `LoginFormValid`, `NotBlank`). The `Email()` syntax check and CSRF protection are not modelled.
- `NotBlank` treats only ASCII white space and the characters U+001C to U+001F as blank. Python's `str.strip()` also strips other Unicode white space.
- `Lower` folds only ASCII letters, whereas Python's `str.lower()` folds all of Unicode. For `allowed_file` and for the `FileAllowed` test this changes nothing. A non-ASCII character whose lower-case form is an ASCII letter of png, jpg, jpeg or gif does not exist, and U+0130 lower-cases to two characters.
- werkzeug's key derivation is the parameter `kdf`, and the random salt is an argument of `Register`. Salting strength, collision resistance and constant-time comparison are not modelled.
- `secure_filename` is the parameter `secureFilename`. `file.save`, `os.makedirs` and `os.path.join` are file-system input/output and are not modelled.
- SQLAlchemy sessions, commits, Flask-Migrate, the `Task.user` relationship and its `tasks` backref are replaced by the two sequences. Each request commits atomically.
- Primary keys come from counters starting at 1 that are never reused. SQLite without AUTOINCREMENT can hand out a deleted largest id again; the model does not.
- The column length limits `String(150)`, `String(200)` and `String(255)` are not enforced (SQLite ignores them).
- Flask-Login: `login_required` routes get the precondition `session.Some?`. The redirect it performs for an anonymous client, which changes nothing, is not modelled. For that reason a second `logout` in a row is outside `TaskMgt.App.Logout`. `load_user` appears as `FindUserById`. One client session is modelled.
- `User.set_password` is modelled on values: `SetPassword` returns the updated row. User rows live in the `users` sequence rather than as separately mutable objects, so aliasing of user objects is not captured.
- `.env` configuration, `app.run`, the `/` home page and the commented-out blocks of app.py are not modelled.
