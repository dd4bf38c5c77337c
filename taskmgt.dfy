/**
 * The state the route handlers of app.py change: the two tables, the
 * logged-in session, and the primary keys the database hands out. One
 * method per route, each saying exactly what it changes.
 */
module TaskMgt {
  import opened Wrappers
  import opened Credentials
  import opened Upload
  import opened Models

  // ---------------------------------------------------------------------
  // What the form validators guarantee before a handler body runs.

  /** `str.isspace()` on one character (ASCII and C0 separators only). */
  predicate IsSpace(c: char)
  {
    c == ' ' || 9 <= c as int <= 13 || 28 <= c as int <= 31
  }

  /** `DataRequired()`: something other than white space was entered. */
  predicate NotBlank(s: string)
  {
    exists i :: 0 <= i < |s| && !IsSpace(s[i])
  }

  /** The `RegisterForm` validators, except the e-mail syntax check. */
  predicate RegisterFormValid(username: string, email: string, password: string, confirm: string)
  {
    && NotBlank(username) && 3 <= |username| <= 20
    && NotBlank(email)
    && NotBlank(password) && 6 <= |password|
    && NotBlank(confirm) && confirm == password
  }

  /** The `LoginForm` validators, except the e-mail syntax check. */
  predicate LoginFormValid(email: string, password: string)
  {
    NotBlank(email) && NotBlank(password)
  }

  // ---------------------------------------------------------------------
  // Route outcomes (what the handler flashes or where it redirects).

  datatype RegisterOutcome =
    | Registered(id: UserId)   // 'Account created! Please log in.'
    | EmailTaken               // 'Email already registered. Please log in.'
    | UsernameTaken            // the unique username column rejects the commit

  datatype UploadOutcome =
    | NoFilePart               // 'No file part'
    | NoSelectedFile           // 'No selected file'
    | NotAllowed               // silent redirect, nothing stored
    | PictureUpdated(filename: string)

  /** The application state: tables, session and id counters. */
  class App {
    var users: seq<User>
    var tasks: seq<Task>
    var session: Option<UserId>
    var nextUserId: UserId
    var nextTaskId: TaskId
    /** The key derivation inside werkzeug's password hashing. */
    const kdf: Kdf
    /** werkzeug's `secure_filename`. */
    const secureFilename: string -> string

    /** Primary keys and unique columns hold, every task has an existing owner, the session names an existing user. */
    predicate Valid()
      reads this
    {
      && UniqueUserIds(users) && UniqueEmails(users) && UniqueUsernames(users)
      && UniqueTaskIds(tasks)
      && (forall i :: 0 <= i < |users| ==> users[i].id < nextUserId)
      && (forall i :: 0 <= i < |tasks| ==> tasks[i].id < nextTaskId)
      && (forall i :: 0 <= i < |tasks| ==> FindUserById(users, tasks[i].userId).Some?)
      && (session.Some? ==> FindUserById(users, session.value).Some?)
    }

    /** A fresh database with nobody logged in. */
    constructor (kdf: Kdf, secureFilename: string -> string)
      ensures Valid()
      ensures users == [] && tasks == [] && session == None
      ensures nextUserId == 1 && nextTaskId == 1
      ensures this.kdf == kdf && this.secureFilename == secureFilename
    {
      users, tasks, session := [], [], None;
      nextUserId, nextTaskId := 1, 1;
      this.kdf, this.secureFilename := kdf, secureFilename;
    }

    /** POST /register with a validated form; `salt` is the salt werkzeug draws. */
    method Register(username: string, email: string, password: string, confirm: string, salt: string)
      returns (outcome: RegisterOutcome)
      requires Valid()
      requires RegisterFormValid(username, email, password, confirm)
      modifies this`users, this`nextUserId
      ensures Valid()
      ensures FindUserByEmail(old(users), email).Some? ==>
        outcome == EmailTaken && users == old(users) && nextUserId == old(nextUserId)
      ensures FindUserByEmail(old(users), email).None? && UsernameInUse(old(users), username) ==>
        outcome == UsernameTaken && users == old(users) && nextUserId == old(nextUserId)
      ensures FindUserByEmail(old(users), email).None? && !UsernameInUse(old(users), username) ==>
        && outcome == Registered(old(nextUserId))
        && |users| == |old(users)| + 1 && users[..|old(users)|] == old(users)
        && users[|old(users)|] == User(old(nextUserId), username, email, GeneratePasswordHash(kdf, salt, password), DefaultProfilePic)
        && nextUserId == old(nextUserId) + 1
    {
      if FindUserByEmail(users, email).Some? {
        return EmailTaken;
      }
      if UsernameInUse(users, username) {
        return UsernameTaken;
      }
      var blank := User(nextUserId, username, email, PasswordHash("", ""), DefaultProfilePic);
      var u := SetPassword(blank, kdf, salt, password);
      ghost var before := users;
      users := users + [u];
      outcome := Registered(nextUserId);
      nextUserId := nextUserId + 1;
      assert users[..|before|] == before;
      forall i | 0 <= i < |tasks| ensures FindUserById(users, tasks[i].userId).Some? {
        FindUserByIdAppend(before, u, tasks[i].userId);
      }
      if session.Some? {
        FindUserByIdAppend(before, u, session.value);
      }
    }

    /** POST /login with a validated form. */
    method Login(email: string, password: string) returns (ok: bool)
      requires Valid()
      requires LoginFormValid(email, password)
      modifies this`session
      ensures Valid()
      ensures ok == Authenticate(users, kdf, email, password).Some?
      ensures session == if ok then Authenticate(users, kdf, email, password) else old(session)
    {
      var found := Authenticate(users, kdf, email, password);
      ok := found.Some?;
      if ok {
        session := found;
        assert FindUserById(users, found.value).Some?;
      }
    }

    /** GET /logout (login required). */
    method Logout()
      requires Valid() && session.Some?
      modifies this`session
      ensures Valid()
      ensures session == None
    {
      session := None;
    }

    /**
     * GET /dashboard and GET /tasks (login required): the current user's
     * tasks, in stored order.
     */
    method ListTasks() returns (ts: seq<Task>)
      requires Valid() && session.Some?
      ensures ts == TasksOf(tasks, session.value)
      ensures forall t :: t in ts <==> t in tasks && t.userId == session.value
    {
      ts := TasksOf(tasks, session.value);
    }

    /** POST /add-task with a validated form (login required). */
    method AddTask(title: string, description: string) returns (id: TaskId)
      requires Valid() && session.Some?
      requires NotBlank(title)
      modifies this`tasks, this`nextTaskId
      ensures Valid()
      ensures id == old(nextTaskId) && nextTaskId == old(nextTaskId) + 1
      ensures forall j :: 0 <= j < |old(tasks)| ==> old(tasks)[j].id != id
      ensures tasks == old(tasks) + [Task(id, title, description, false, session.value)]
    {
      id := nextTaskId;
      tasks := tasks + [Task(id, title, description, false, session.value)];
      nextTaskId := nextTaskId + 1;
    }

    /** GET or POST /delete_task/<task_id>: no login is required. Reports whether a task was found. */
    method DeleteTask(id: TaskId) returns (found: bool)
      requires Valid()
      modifies this`tasks
      ensures Valid()
      ensures found == FindTask(old(tasks), id).Some?
      ensures tasks == RemoveTask(old(tasks), id)
    {
      found := FindTask(tasks, id).Some?;
      RemoveTaskKeepsUnique(tasks, id);
      tasks := RemoveTask(tasks, id);
    }

    /** GET or POST /complete_task/<task_id> (login required; the owner is not checked). */
    method CompleteTask(id: TaskId)
      requires Valid() && session.Some?
      modifies this`tasks
      ensures Valid()
      ensures tasks == CompleteIn(old(tasks), id)
    {
      ghost var before := tasks;
      tasks := CompleteIn(tasks, id);
      forall j | 0 <= j < |tasks| ensures tasks[j].id == before[j].id && tasks[j].userId == before[j].userId {
        assert tasks[j].(completed := before[j].completed) == before[j];
      }
    }

    /** POST /upload_profile_pic (login required); `file` is `request.files['profile_pic']`'s name, if sent. */
    method UploadProfilePic(file: Option<string>) returns (outcome: UploadOutcome)
      requires Valid() && session.Some?
      modifies this`users
      ensures Valid()
      ensures file.None? ==> outcome == NoFilePart && users == old(users)
      ensures file == Some("") ==> outcome == NoSelectedFile && users == old(users)
      ensures file.Some? && file.value != "" && !AllowedFile(file.value) ==>
        outcome == NotAllowed && users == old(users)
      ensures file.Some? && file.value != "" && AllowedFile(file.value) ==>
        && outcome == PictureUpdated(secureFilename(file.value))
        && users == SetProfilePic(old(users), session.value, secureFilename(file.value))
    {
      if file.None? {
        return NoFilePart;
      }
      if file.value == "" {
        return NoSelectedFile;
      }
      if !AllowedFile(file.value) {
        return NotAllowed;
      }
      var filename := secureFilename(file.value);
      StoreProfilePic(filename);
      outcome := PictureUpdated(filename);
    }

    /** POST /profile (login required); the form's `FileAllowed` validator runs first. */
    method Profile(file: Option<string>) returns (updated: bool)
      requires Valid() && session.Some?
      modifies this`users
      ensures Valid()
      ensures updated == (file.Some? && file.value != "" && FileAllowedAccepts(file.value))
      ensures users == if updated then SetProfilePic(old(users), session.value, secureFilename(file.value)) else old(users)
    {
      updated := file.Some? && file.value != "" && FileAllowedAccepts(file.value);
      if updated {
        StoreProfilePic(secureFilename(file.value));
      }
    }

    /** `current_user.profile_pic = filename` followed by the commit. */
    method StoreProfilePic(filename: string)
      requires Valid() && session.Some?
      modifies this`users
      ensures Valid()
      ensures users == SetProfilePic(old(users), session.value, filename)
    {
      ghost var before := users;
      users := SetProfilePic(users, session.value, filename);
      forall j | 0 <= j < |users|
        ensures users[j].id == before[j].id && users[j].email == before[j].email && users[j].username == before[j].username
      {
        assert users[j].(profilePic := before[j].profilePic) == before[j];
      }
      forall x | FindUserById(before, x).Some? ensures FindUserById(users, x).Some? {
        assert users[FindUserById(before, x).value].id == x;
      }
    }
  }

  /** Appending a user keeps every id that was found findable. */
  lemma FindUserByIdAppend(us: seq<User>, u: User, id: UserId)
    requires FindUserById(us, id).Some?
    ensures FindUserById(us + [u], id).Some?
  {
    var i := FindUserById(us, id).value;
    assert (us + [u])[i] == us[i];
  }

  /** Dropping one row keeps the table's keys unique. */
  lemma UniqueTaskIdsRemoveAt(ts: seq<Task>, i: nat)
    requires UniqueTaskIds(ts) && i < |ts|
    ensures UniqueTaskIds(ts[..i] + ts[i + 1..])
  {
    var r := ts[..i] + ts[i + 1..];
    forall p, q | 0 <= p < q < |r| ensures r[p].id != r[q].id {
      assert r[p] == ts[if p < i then p else p + 1];
      assert r[q] == ts[if q < i then q else q + 1];
    }
  }

  /** Deleting a task keeps the table's keys unique. */
  lemma RemoveTaskKeepsUnique(ts: seq<Task>, id: TaskId)
    requires UniqueTaskIds(ts)
    ensures UniqueTaskIds(RemoveTask(ts, id))
  {
    var f := FindTask(ts, id);
    if f.Some? {
      UniqueTaskIdsRemoveAt(ts, f.value);
    }
  }
}
