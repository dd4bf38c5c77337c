/**
 * The `User` and `Task` tables of app.py as values, and the queries and
 * row updates the route handlers perform on them through the ORM.
 */
module Models {
  import opened Wrappers
  import opened Credentials

  type UserId = nat
  type TaskId = nat

  /** The column default of `User.profile_pic`. */
  const DefaultProfilePic: string := "default.jpg"

  /** A row of the `user` table. */
  datatype User = User(id: UserId, username: string, email: string, password: PasswordHash, profilePic: string)

  /** A row of the `task` table; `userId` is the owner. */
  datatype Task = Task(id: TaskId, title: string, description: string, completed: bool, userId: UserId)

  /** `User.set_password`: store a fresh hash of `password`, touch nothing else. */
  function SetPassword(u: User, kdf: Kdf, salt: string, password: string): (r: User)
    ensures CheckPassword(r, kdf, password)
    ensures r.password.salt == salt
    ensures r.(password := u.password) == u
  {
    u.(password := GeneratePasswordHash(kdf, salt, password))
  }

  /** `User.check_password`. */
  predicate CheckPassword(u: User, kdf: Kdf, password: string)
  {
    CheckPasswordHash(kdf, u.password, password)
  }

  // ---------------------------------------------------------------------
  // Table constraints: primary keys and the columns declared unique.

  predicate UniqueUserIds(us: seq<User>)
  {
    forall i, j :: 0 <= i < j < |us| ==> us[i].id != us[j].id
  }

  predicate UniqueEmails(us: seq<User>)
  {
    forall i, j :: 0 <= i < j < |us| ==> us[i].email != us[j].email
  }

  predicate UniqueUsernames(us: seq<User>)
  {
    forall i, j :: 0 <= i < j < |us| ==> us[i].username != us[j].username
  }

  predicate UniqueTaskIds(ts: seq<Task>)
  {
    forall i, j :: 0 <= i < j < |ts| ==> ts[i].id != ts[j].id
  }

  // ---------------------------------------------------------------------
  // Queries.

  /** The index of the first row satisfying `p`, as the ORM's `first()` and `get()` return it. */
  function FindFirst<T>(s: seq<T>, p: T -> bool): (r: Option<nat>)
    ensures r.Some? ==> r.value < |s| && p(s[r.value])
    ensures r.Some? ==> forall j :: 0 <= j < r.value ==> !p(s[j])
    ensures r.None? ==> forall j :: 0 <= j < |s| ==> !p(s[j])
  {
    if s == [] then None
    else if p(s[0]) then Some(0)
    else
      match FindFirst(s[1..], p)
      case None => None
      case Some(i) => Some(i + 1)
  }

  /** `User.query.filter_by(email=email).first()`, as a row index. */
  function FindUserByEmail(us: seq<User>, email: string): Option<nat>
  {
    FindFirst(us, (u: User) => u.email == email)
  }

  /** `User.query.get(id)` (how `current_user` is loaded), as a row index. */
  function FindUserById(us: seq<User>, id: UserId): Option<nat>
  {
    FindFirst(us, (u: User) => u.id == id)
  }

  /** `Task.query.get(task_id)`, as a row index. */
  function FindTask(ts: seq<Task>, id: TaskId): Option<nat>
  {
    FindFirst(ts, (t: Task) => t.id == id)
  }

  /** Some user already has this username (the unique constraint would reject a second). */
  predicate UsernameInUse(us: seq<User>, username: string)
  {
    exists i :: 0 <= i < |us| && us[i].username == username
  }

  /**
   * What `login` does with the submitted credentials: the id of the user
   * found by e-mail when its password checks, otherwise nothing.
   */
  function Authenticate(us: seq<User>, kdf: Kdf, email: string, password: string): (r: Option<UserId>)
    ensures r.Some? ==> exists i :: 0 <= i < |us| && us[i].id == r.value && us[i].email == email && CheckPassword(us[i], kdf, password)
    ensures UniqueEmails(us) ==>
      (r.None? <==> forall i :: 0 <= i < |us| && us[i].email == email ==> !CheckPassword(us[i], kdf, password))
  {
    match FindUserByEmail(us, email)
    case None => None
    case Some(i) => if CheckPassword(us[i], kdf, password) then Some(us[i].id) else None
  }

  /**
   * `Task.query.filter_by(user_id=uid).all()`: the tasks owned by `uid`,
   * in stored order.
   */
  function TasksOf(ts: seq<Task>, uid: UserId): (r: seq<Task>)
    ensures forall t :: t in r <==> t in ts && t.userId == uid
    ensures |r| <= |ts|
  {
    if ts == [] then []
    else (if ts[0].userId == uid then [ts[0]] else []) + TasksOf(ts[1..], uid)
  }

  /** `task.completed = True` on the row `Task.query.get(id)` finds, if any. */
  function CompleteIn(ts: seq<Task>, id: TaskId): (r: seq<Task>)
    ensures |r| == |ts|
    ensures forall j :: 0 <= j < |ts| ==> r[j].(completed := ts[j].completed) == ts[j]
    ensures forall j :: 0 <= j < |ts| && ts[j].id != id ==> r[j] == ts[j]
    ensures UniqueTaskIds(ts) ==> forall j :: 0 <= j < |ts| && ts[j].id == id ==> r[j].completed
    ensures FindTask(ts, id).None? ==> r == ts
  {
    match FindTask(ts, id)
    case None => ts
    case Some(i) => ts[i := ts[i].(completed := true)]
  }

  /** `db.session.delete` of the row `Task.query.get(id)` finds, if any. */
  function RemoveTask(ts: seq<Task>, id: TaskId): (r: seq<Task>)
    ensures FindTask(ts, id).Some? ==> |r| == |ts| - 1
    ensures FindTask(ts, id).None? ==> r == ts
    ensures forall t :: t in r ==> t in ts
    ensures UniqueTaskIds(ts) ==> forall t :: t in r <==> t in ts && t.id != id
  {
    match FindTask(ts, id)
    case None => ts
    case Some(i) =>
      var r := ts[..i] + ts[i + 1..];
      assert forall t :: t in r <==> exists j :: 0 <= j < |ts| && j != i && ts[j] == t by {
        forall t ensures t in r <==> exists j :: 0 <= j < |ts| && j != i && ts[j] == t {
          if t in r {
            var k :| 0 <= k < |r| && r[k] == t;
            assert ts[if k < i then k else k + 1] == t;
          }
          if exists j :: 0 <= j < |ts| && j != i && ts[j] == t {
            var j :| 0 <= j < |ts| && j != i && ts[j] == t;
            assert r[if j < i then j else j - 1] == t;
          }
        }
      }
      r
  }

  /** `current_user.profile_pic = pic` on the row `User.query.get(uid)` finds, if any. */
  function SetProfilePic(us: seq<User>, uid: UserId, pic: string): (r: seq<User>)
    ensures |r| == |us|
    ensures forall j :: 0 <= j < |us| ==> r[j].(profilePic := us[j].profilePic) == us[j]
    ensures forall j :: 0 <= j < |us| && us[j].id != uid ==> r[j] == us[j]
    ensures UniqueUserIds(us) ==> forall j :: 0 <= j < |us| && us[j].id == uid ==> r[j].profilePic == pic
    ensures FindUserById(us, uid).None? ==> r == us
  {
    match FindUserById(us, uid)
    case None => us
    case Some(i) => us[i := us[i].(profilePic := pic)]
  }

  // ---------------------------------------------------------------------
  // Reference definitions and lemmas.

  /** Every task whose id is not `id`, in order: a plain filter. */
  function WithoutTask(ts: seq<Task>, id: TaskId): (r: seq<Task>)
  {
    if ts == [] then []
    else (if ts[0].id == id then [] else [ts[0]]) + WithoutTask(ts[1..], id)
  }

  lemma {:induction false} WithoutAbsentTask(ts: seq<Task>, id: TaskId)
    requires forall j :: 0 <= j < |ts| ==> ts[j].id != id
    ensures WithoutTask(ts, id) == ts
  {
    if ts != [] {
      WithoutAbsentTask(ts[1..], id);
    }
  }

  /** Filtering distributes over concatenation of tables. */
  lemma {:induction false} WithoutTaskAppend(a: seq<Task>, b: seq<Task>, id: TaskId)
    ensures WithoutTask(a + b, id) == WithoutTask(a, id) + WithoutTask(b, id)
  {
    if a == [] {
      assert a + b == b;
    } else {
      assert (a + b)[1..] == a[1..] + b;
      WithoutTaskAppend(a[1..], b, id);
    }
  }

  /**
   * With unique ids, deleting the row `Task.query.get(id)` finds is the
   * same as filtering out id `id`: exactly that task goes, the rest keep
   * their order.
   */
  lemma RemoveTaskIsFilter(ts: seq<Task>, id: TaskId)
    requires UniqueTaskIds(ts)
    ensures RemoveTask(ts, id) == WithoutTask(ts, id)
  {
    match FindTask(ts, id)
    case None =>
      WithoutAbsentTask(ts, id);
    case Some(i) =>
      var before, after := ts[..i], ts[i + 1..];
      assert ts == (before + [ts[i]]) + after;
      assert WithoutTask([ts[i]], id) == [] by {
        assert WithoutTask([ts[i]], id) == [] + WithoutTask([ts[i]][1..], id);
      }
      WithoutAbsentTask(before, id);
      AfterFirstIsAbsent(ts, i, id, after);
      WithoutAbsentTask(after, id);
      calc {
        WithoutTask(ts, id);
        WithoutTask((before + [ts[i]]) + after, id);
        { WithoutTaskAppend(before + [ts[i]], after, id); }
        WithoutTask(before + [ts[i]], id) + WithoutTask(after, id);
        { WithoutTaskAppend(before, [ts[i]], id); }
        before + after;
      }
  }

  /** With unique ids, no task after the one with `id` has that id. */
  lemma AfterFirstIsAbsent(ts: seq<Task>, i: nat, id: TaskId, after: seq<Task>)
    requires UniqueTaskIds(ts) && i < |ts| && ts[i].id == id && after == ts[i + 1..]
    ensures forall j :: 0 <= j < |after| ==> after[j].id != id
  {
    forall j | 0 <= j < |after| ensures after[j].id != id {
      assert after[j] == ts[i + 1 + j];
    }
  }

  /** Listing distributes over concatenation of tables. */
  lemma {:induction false} TasksOfAppend(a: seq<Task>, b: seq<Task>, uid: UserId)
    ensures TasksOf(a + b, uid) == TasksOf(a, uid) + TasksOf(b, uid)
  {
    if a == [] {
      assert a + b == b;
    } else {
      assert (a + b)[1..] == a[1..] + b;
      TasksOfAppend(a[1..], b, uid);
    }
  }

  /**
   * Appending a task shows it in its owner's listing, at the end, and in
   * nobody else's.
   */
  lemma TasksOfAppendOne(ts: seq<Task>, t: Task, uid: UserId)
    ensures TasksOf(ts + [t], uid) == TasksOf(ts, uid) + (if t.userId == uid then [t] else [])
  {
    TasksOfAppend(ts, [t], uid);
    assert TasksOf([t], uid) == (if t.userId == uid then [t] else []) + TasksOf([], uid);
  }

  /** Completing a task twice is the same as completing it once. */
  lemma CompleteIdempotent(ts: seq<Task>, id: TaskId)
    ensures CompleteIn(CompleteIn(ts, id), id) == CompleteIn(ts, id)
  {
    var once := CompleteIn(ts, id);
    match FindTask(ts, id)
    case None =>
    case Some(i) =>
      assert FindTask(once, id) == Some(i) by {
        assert once[i].id == id;
      }
  }

  /** `a` and `b` hold the same rows, position by position, apart from the completion flag. */
  predicate SameUpToCompletion(a: seq<Task>, b: seq<Task>)
  {
    |a| == |b| && forall j :: 0 <= j < |a| ==> b[j].(completed := a[j].completed) == a[j]
  }

  /**
   * Completing a task does not change who owns which task, so every
   * user's listing holds the same tasks, in the same order, apart from
   * the completion flag.
   */
  lemma CompleteKeepsOwners(ts: seq<Task>, id: TaskId, uid: UserId)
    ensures SameUpToCompletion(TasksOf(ts, uid), TasksOf(CompleteIn(ts, id), uid))
  {
    CompleteKeepsOwnersFrom(ts, CompleteIn(ts, id), uid);
  }

  lemma {:induction false} CompleteKeepsOwnersFrom(a: seq<Task>, b: seq<Task>, uid: UserId)
    requires SameUpToCompletion(a, b)
    ensures SameUpToCompletion(TasksOf(a, uid), TasksOf(b, uid))
  {
    if a != [] {
      assert SameUpToCompletion(a[1..], b[1..]) by {
        forall j | 0 <= j < |a[1..]| ensures b[1..][j].(completed := a[1..][j].completed) == a[1..][j] {
          assert a[1..][j] == a[j + 1] && b[1..][j] == b[j + 1];
        }
      }
      CompleteKeepsOwnersFrom(a[1..], b[1..], uid);
      assert b[0].userId == a[0].userId by {
        assert b[0].(completed := a[0].completed) == a[0];
      }
      var ha := if a[0].userId == uid then [a[0]] else [];
      var hb := if b[0].userId == uid then [b[0]] else [];
      assert SameUpToCompletion(ha, hb);
      SameUpToCompletionAppend(ha, hb, TasksOf(a[1..], uid), TasksOf(b[1..], uid));
    }
  }

  lemma SameUpToCompletionAppend(a1: seq<Task>, b1: seq<Task>, a2: seq<Task>, b2: seq<Task>)
    requires SameUpToCompletion(a1, b1) && SameUpToCompletion(a2, b2)
    ensures SameUpToCompletion(a1 + a2, b1 + b2)
  {
    forall j | 0 <= j < |a1 + a2| ensures (b1 + b2)[j].(completed := (a1 + a2)[j].completed) == (a1 + a2)[j] {
      if j < |a1| {
        assert (a1 + a2)[j] == a1[j] && (b1 + b2)[j] == b1[j];
      } else {
        assert (a1 + a2)[j] == a2[j - |a1|] && (b1 + b2)[j] == b2[j - |a1|];
      }
    }
  }

  /** A user appended to a table that lacks its e-mail is the one `login` then finds. */
  lemma {:induction false} RegisteredUserCanLogIn(us: seq<User>, u: User, kdf: Kdf, password: string)
    requires FindUserByEmail(us, u.email).None?
    requires CheckPassword(u, kdf, password)
    ensures Authenticate(us + [u], kdf, u.email, password) == Some(u.id)
  {
    var all := us + [u];
    assert all[|us|] == u;
    assert FindUserByEmail(all, u.email) == Some(|us|);
  }
}
