/**
 * Request sequences against a fresh application, proved from the route
 * contracts alone.
 */
module Scenarios {
  import opened Wrappers
  import opened Credentials
  import opened Models
  import opened TaskMgt

  /** alice's row after registering "alice", "a@x.com", "secret1". */
  function Alice(kdf: Kdf, salt: string): User
  {
    User(1, "alice", "a@x.com", GeneratePasswordHash(kdf, salt, "secret1"), DefaultProfilePic)
  }

  /** A fresh application in which alice has registered and logged in. */
  method AliceLoggedIn(kdf: Kdf, secureFilename: string -> string, salt: string) returns (app: App)
    ensures fresh(app) && app.Valid() && app.kdf == kdf && app.secureFilename == secureFilename
    ensures app.users == [Alice(kdf, salt)] && app.tasks == [] && app.session == Some(1)
    ensures app.nextUserId == 2 && app.nextTaskId == 1
  {
    app := new App(kdf, secureFilename);
    assert !IsSpace("alice"[0]) && !IsSpace("a@x.com"[0]) && !IsSpace("secret1"[0]);
    var r := app.Register("alice", "a@x.com", "secret1", "secret1", salt);
    assert app.users == [Alice(kdf, salt)];
    var ok := app.Login("a@x.com", "secret1");
  }

  /**
   * alice registers, logs in, adds "Buy milk", sees it open on her
   * dashboard, completes it and sees it completed.
   */
  method AliceCompletesHerTask(kdf: Kdf, secureFilename: string -> string, salt: string)
    returns (before: seq<Task>, after: seq<Task>)
    ensures before == [Task(1, "Buy milk", "", false, 1)]
    ensures after == [Task(1, "Buy milk", "", true, 1)]
  {
    var app := AliceLoggedIn(kdf, secureFilename, salt);
    assert !IsSpace("Buy milk"[0]);
    var id := app.AddTask("Buy milk", "");
    before := app.ListTasks();
    assert app.tasks == [Task(1, "Buy milk", "", false, 1)];
    assert before == [Task(1, "Buy milk", "", false, 1)];
    app.CompleteTask(id);
    assert app.tasks == [Task(1, "Buy milk", "", true, 1)];
    after := app.ListTasks();
  }

  /** A wrong password leaves the client anonymous, as long as the hash tells the two passwords apart. */
  method WrongPasswordIsRejected(kdf: Kdf, secureFilename: string -> string, salt: string)
    returns (ok: bool, identity: Option<UserId>)
    requires kdf(salt, "wrongpass") != kdf(salt, "secret1")
    ensures !ok && identity == None
  {
    var app := new App(kdf, secureFilename);
    assert !IsSpace("alice"[0]) && !IsSpace("a@x.com"[0]) && !IsSpace("secret1"[0]) && !IsSpace("wrongpass"[0]);
    var r := app.Register("alice", "a@x.com", "secret1", "secret1", salt);
    assert app.users[0].email == "a@x.com";
    ok := app.Login("a@x.com", "wrongpass");
    identity := app.session;
  }

  /**
   * The same e-mail cannot be registered twice: the second attempt is
   * refused and the user table keeps one row.
   */
  method DuplicateEmailIsRefused(kdf: Kdf, secureFilename: string -> string, salt: string)
    returns (second: RegisterOutcome, userCount: nat)
    ensures second == EmailTaken && userCount == 1
  {
    var app := AliceLoggedIn(kdf, secureFilename, salt);
    assert !IsSpace("alice2"[0]) && !IsSpace("a@x.com"[0]) && !IsSpace("secret1"[0]);
    second := app.Register("alice2", "a@x.com", "secret1", "secret1", salt);
    userCount := |app.users|;
  }

  /** bob's row after registering "bob", "b@x.com", "secret2". */
  function Bob(kdf: Kdf, salt: string): User
  {
    User(2, "bob", "b@x.com", GeneratePasswordHash(kdf, salt, "secret2"), DefaultProfilePic)
  }

  /** alice adds "Buy milk" and logs out; bob registers and logs in. */
  method BobLoggedInBesideAlice(kdf: Kdf, secureFilename: string -> string, saltA: string, saltB: string)
    returns (app: App, id: TaskId)
    ensures fresh(app) && app.Valid()
    ensures app.users == [Alice(kdf, saltA), Bob(kdf, saltB)] && app.session == Some(2)
    ensures app.tasks == [Task(1, "Buy milk", "", false, 1)] && id == 1
  {
    app := AliceLoggedIn(kdf, secureFilename, saltA);
    assert !IsSpace("Buy milk"[0]) && !IsSpace("bob"[0]) && !IsSpace("b@x.com"[0]) && !IsSpace("secret2"[0]);
    id := app.AddTask("Buy milk", "");
    app.Logout();
    assert !UsernameInUse(app.users, "bob") by {
      assert app.users[0].username == "alice";
    }
    var r := app.Register("bob", "b@x.com", "secret2", "secret2", saltB);
    assert app.users == [Alice(kdf, saltA), Bob(kdf, saltB)];
    assert FindUserByEmail(app.users, "b@x.com") == Some(1);
    var ok := app.Login("b@x.com", "secret2");
  }

  /**
   * bob never sees alice's task in his listing, yet completing it by its
   * id succeeds: complete_task does not check the owner.
   */
  method OtherUserCompletesTask(kdf: Kdf, secureFilename: string -> string, saltA: string, saltB: string)
    returns (bobSees: seq<Task>, aliceTask: Task, caller: UserId)
    ensures bobSees == []
    ensures aliceTask.completed && aliceTask.userId != caller
  {
    var app, id := BobLoggedInBesideAlice(kdf, secureFilename, saltA, saltB);
    bobSees := app.ListTasks();
    app.CompleteTask(id);
    aliceTask := app.tasks[0];
    caller := app.session.value;
  }

  /** An anonymous client can delete alice's task by its id. */
  method AnonymousDeletesTask(kdf: Kdf, secureFilename: string -> string, salt: string)
    returns (found: bool, identity: Option<UserId>, remaining: seq<Task>)
    ensures found && identity == None && remaining == []
  {
    var app := AliceLoggedIn(kdf, secureFilename, salt);
    assert !IsSpace("Buy milk"[0]);
    var id := app.AddTask("Buy milk", "");
    app.Logout();
    found := app.DeleteTask(id);
    identity := app.session;
    remaining := app.tasks;
  }

  /**
   * alice uploads "a.PNG", which is stored under its sanitised name; a
   * later "a.tar.gz" is refused and leaves her picture as it was.
   */
  method AliceUploadsPicture(kdf: Kdf, secureFilename: string -> string, salt: string)
    returns (first: UploadOutcome, second: UploadOutcome, picture: string)
    ensures first == PictureUpdated(secureFilename("a.PNG"))
    ensures second == NotAllowed
    ensures picture == secureFilename("a.PNG")
  {
    var app := AliceLoggedIn(kdf, secureFilename, salt);
    Upload.AllowedFileIgnoresCase();
    Upload.AllowedFileUsesLastDot();
    first := app.UploadProfilePic(Some("a.PNG"));
    assert app.users[0].profilePic == secureFilename("a.PNG");
    second := app.UploadProfilePic(Some("a.tar.gz"));
    picture := app.users[0].profilePic;
  }
}
