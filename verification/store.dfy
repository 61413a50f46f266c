/**
 * The persistent state of the task service: the `users` and `tasks` tables,
 * held in row order, with the queries and the owner-scoped operations of the
 * data-access layer.
 *
 * Row ids follow SQLite's rule for an integer primary key: a new row gets one
 * more than the largest id in the table, or 1 in an empty table. The unique
 * constraints on `users.username` and `users.email` are enforced at commit.
 */
module Store {
  import opened Wrappers
  import opened Schemas
  import opened Passwords

  /** A row of `users`. */
  datatype User = User(id: int, username: string, email: string, hashedPassword: PasswordHash)

  /** A row of `tasks`; `userId` is the owner. It is also the task's public view (`schemas.Task`). */
  datatype Task = Task(id: int, title: string, description: Option<string>, status: Status,
                       dueDate: DateTime, userId: int)

  /** `Task(**task.model_dump(), user_id=...)`: a row built from the submitted fields. */
  function NewTask(id: int, task: TaskCreate, userId: int): Task
  {
    Task(id, task.title, task.description, task.status, task.dueDate, userId)
  }

  /** The public view of a user row: everything except the password hash. */
  function PublicUser(u: User): (v: UserView)
    ensures v.id == u.id && v.username == u.username && v.email == u.email
  {
    UserView(u.id, u.username, u.email)
  }

  // ---------------------------------------------------------------------------
  // Row ids

  ghost predicate Ascending(ids: seq<int>)
  {
    forall i, j :: 0 <= i < j < |ids| ==> ids[i] < ids[j]
  }

  /** The id column of a table, in row order. */
  function RowIds<R>(rows: seq<R>, id: R -> int): (ids: seq<int>)
    ensures |ids| == |rows| && forall i :: 0 <= i < |rows| ==> ids[i] == id(rows[i])
  {
    seq(|rows|, i requires 0 <= i < |rows| => id(rows[i]))
  }

  function UserIds(users: seq<User>): seq<int>
  {
    RowIds(users, (u: User) => u.id)
  }

  function TaskIds(tasks: seq<Task>): seq<int>
  {
    RowIds(tasks, (t: Task) => t.id)
  }

  /** The largest id in use. */
  function MaxId(ids: seq<int>): (m: int)
    requires ids != []
    ensures m in ids
    ensures forall i :: 0 <= i < |ids| ==> ids[i] <= m
  {
    if |ids| == 1 then ids[0]
    else
      var rest := MaxId(ids[1..]);
      if ids[0] >= rest then ids[0] else rest
  }

  /** The id SQLite gives the next row. */
  function NextRowId(ids: seq<int>): (id: int)
    ensures forall i :: 0 <= i < |ids| ==> ids[i] < id
    ensures ids == [] ==> id == 1
    ensures ids != [] ==> id - 1 in ids
  {
    if ids == [] then 1 else MaxId(ids) + 1
  }

  /** In a table whose ids ascend, the next id is one past the last row's. */
  lemma NextRowIdAfterLast(ids: seq<int>)
    requires Ascending(ids) && ids != []
    ensures NextRowId(ids) == ids[|ids| - 1] + 1
  {
    var k :| 0 <= k < |ids| && ids[k] == NextRowId(ids) - 1;
    assert k == |ids| - 1 || ids[k] < ids[|ids| - 1];
  }

  /** Taking one id out of an ascending column leaves it ascending. */
  lemma AscendingRemove(ids: seq<int>, i: nat)
    requires Ascending(ids) && i < |ids|
    ensures Ascending(ids[..i] + ids[i + 1..])
  {
    var rest := ids[..i] + ids[i + 1..];
    forall a, b | 0 <= a < b < |rest|
      ensures rest[a] < rest[b]
    {
      var a', b' := if a < i then a else a + 1, if b < i then b else b + 1;
      assert rest[a] == ids[a'] && rest[b] == ids[b'];
    }
  }

  lemma TaskIdsAppend(tasks: seq<Task>, t: Task)
    ensures TaskIds(tasks + [t]) == TaskIds(tasks) + [t.id]
  {
  }

  lemma TaskIdsRemove(tasks: seq<Task>, i: nat)
    requires i < |tasks|
    ensures TaskIds(tasks[..i] + tasks[i + 1..]) == TaskIds(tasks)[..i] + TaskIds(tasks)[i + 1..]
  {
  }

  // ---------------------------------------------------------------------------
  // User queries

  ghost predicate UniqueUsernames(users: seq<User>)
  {
    forall i, j :: 0 <= i < j < |users| ==> users[i].username != users[j].username
  }

  ghost predicate UniqueEmails(users: seq<User>)
  {
    forall i, j :: 0 <= i < j < |users| ==> users[i].email != users[j].email
  }

  /** `get_user_by_username`: the first user with that username, if any. */
  function UserByUsername(users: seq<User>, username: string): (r: Option<User>)
    ensures r.Some? ==> r.value in users && r.value.username == username
    ensures r.None? <==> forall u | u in users :: u.username != username
  {
    if users == [] then None
    else if users[0].username == username then Some(users[0])
    else UserByUsername(users[1..], username)
  }

  /** `get_user_by_email`: the first user with that email, if any. */
  function UserByEmail(users: seq<User>, email: string): (r: Option<User>)
    ensures r.Some? ==> r.value in users && r.value.email == email
    ensures r.None? <==> forall u | u in users :: u.email != email
  {
    if users == [] then None
    else if users[0].email == email then Some(users[0])
    else UserByEmail(users[1..], email)
  }

  /** With unique usernames the lookup finds the one user holding the name. */
  lemma UserByUsernameUnique(users: seq<User>, i: nat)
    requires UniqueUsernames(users) && i < |users|
    ensures UserByUsername(users, users[i].username) == Some(users[i])
  {
    var r := UserByUsername(users, users[i].username);
    var k :| 0 <= k < |users| && users[k] == r.value;
    assert k == i;
  }

  // ---------------------------------------------------------------------------
  // Task queries

  /** The filter of every owner-scoped task query: this id, and this owner. */
  predicate Matches(t: Task, taskId: int, userId: int)
  {
    t.id == taskId && t.userId == userId
  }

  /** Position of the first row matching the id and the owner. */
  function Locate(tasks: seq<Task>, taskId: int, userId: int): (r: Option<nat>)
    ensures r.Some? ==> r.value < |tasks| && Matches(tasks[r.value], taskId, userId)
    ensures r.Some? ==> forall j :: 0 <= j < r.value ==> !Matches(tasks[j], taskId, userId)
    ensures r.None? <==> forall j :: 0 <= j < |tasks| ==> !Matches(tasks[j], taskId, userId)
  {
    if tasks == [] then None
    else if Matches(tasks[0], taskId, userId) then Some(0)
    else
      match Locate(tasks[1..], taskId, userId)
      case None => None
      case Some(k) => Some(k + 1)
  }

  /** `get_task`: the task with this id when it belongs to this user, else None. */
  function GetTask(tasks: seq<Task>, taskId: int, userId: int): (r: Option<Task>)
    ensures r.Some? ==> r.value in tasks && r.value.id == taskId && r.value.userId == userId
    ensures r.None? <==> forall t | t in tasks :: !(t.id == taskId && t.userId == userId)
  {
    match Locate(tasks, taskId, userId)
    case None => None
    case Some(i) => Some(tasks[i])
  }

  /** `get_tasks`: the tasks of this user, in row order. */
  function GetTasks(tasks: seq<Task>, userId: int): (r: seq<Task>)
    ensures forall t :: t in r <==> t in tasks && t.userId == userId
    ensures |r| <= |tasks|
  {
    if tasks == [] then []
    else (if tasks[0].userId == userId then [tasks[0]] else []) + GetTasks(tasks[1..], userId)
  }

  /** A lookup looks at the first row, then at the rest. */
  lemma GetTaskCons(t: Task, rest: seq<Task>, taskId: int, userId: int)
    ensures GetTask([t] + rest, taskId, userId) ==
      if Matches(t, taskId, userId) then Some(t) else GetTask(rest, taskId, userId)
  {
    assert ([t] + rest)[1..] == rest;
  }

  /** A listing looks at the first row, then at the rest. */
  lemma GetTasksCons(t: Task, rest: seq<Task>, userId: int)
    ensures GetTasks([t] + rest, userId) == (if t.userId == userId then [t] else []) + GetTasks(rest, userId)
  {
    assert ([t] + rest)[1..] == rest;
  }

  /** Listing distributes over the row order. */
  lemma {:induction false} GetTasksAppend(a: seq<Task>, b: seq<Task>, userId: int)
    ensures GetTasks(a + b, userId) == GetTasks(a, userId) + GetTasks(b, userId)
  {
    if a == [] {
      assert a + b == b;
    } else {
      assert (a + b)[1..] == a[1..] + b;
      GetTasksAppend(a[1..], b, userId);
    }
  }

  /**
   * A user's lookups see only that user's tasks: the answer is the same when
   * everyone else's tasks are taken out of the table.
   */
  lemma {:induction false} GetTaskSeesOnlyOwnTasks(tasks: seq<Task>, taskId: int, userId: int)
    ensures GetTask(tasks, taskId, userId) == GetTask(GetTasks(tasks, userId), taskId, userId)
  {
    if tasks != [] {
      var rest := tasks[1..];
      assert tasks == [tasks[0]] + rest;
      GetTaskSeesOnlyOwnTasks(rest, taskId, userId);
      GetTaskCons(tasks[0], rest, taskId, userId);
      GetTasksCons(tasks[0], rest, userId);
      if tasks[0].userId == userId {
        GetTaskCons(tasks[0], GetTasks(rest, userId), taskId, userId);
      } else {
        assert [] + GetTasks(rest, userId) == GetTasks(rest, userId);
      }
    }
  }

  /**
   * Someone else's task is indistinguishable from a missing one: whenever two
   * tables hold the same tasks for a user, every lookup by that user agrees.
   */
  lemma ForeignTasksInvisible(tasks: seq<Task>, other: seq<Task>, taskId: int, userId: int)
    requires GetTasks(tasks, userId) == GetTasks(other, userId)
    ensures GetTask(tasks, taskId, userId) == GetTask(other, taskId, userId)
  {
    GetTaskSeesOnlyOwnTasks(tasks, taskId, userId);
    GetTaskSeesOnlyOwnTasks(other, taskId, userId);
  }

  /** In a table with unique ids, the task with a given id is found by its owner. */
  lemma GetTaskFindsRow(tasks: seq<Task>, i: nat)
    requires Ascending(TaskIds(tasks)) && i < |tasks|
    ensures GetTask(tasks, tasks[i].id, tasks[i].userId) == Some(tasks[i])
  {
    var k := Locate(tasks, tasks[i].id, tasks[i].userId).value;
    assert TaskIds(tasks)[k] == TaskIds(tasks)[i];
  }

  /** A new row shows up at the end of its owner's list and nowhere else. */
  lemma AppendTaskEffect(tasks: seq<Task>, t: Task, userId: int)
    ensures GetTasks(tasks + [t], userId) == GetTasks(tasks, userId) + (if t.userId == userId then [t] else [])
  {
    GetTasksAppend(tasks, [t], userId);
    GetTasksCons(t, [], userId);
    assert [t] + [] == [t];
  }

  /**
   * Changing the status of row `i` changes that one entry of its owner's list
   * and leaves every other user's list as it was.
   */
  lemma SetStatusEffect(tasks: seq<Task>, i: nat, status: Status, userId: int)
    requires i < |tasks|
    ensures var updated := tasks[i := tasks[i].(status := status)];
      GetTasks(updated, userId) ==
        if userId == tasks[i].userId
        then GetTasks(tasks[..i], userId) + [updated[i]] + GetTasks(tasks[i + 1..], userId)
        else GetTasks(tasks, userId)
  {
    var updated := tasks[i := tasks[i].(status := status)];
    assert tasks == tasks[..i] + ([tasks[i]] + tasks[i + 1..]);
    assert updated == tasks[..i] + ([updated[i]] + tasks[i + 1..]);
    GetTasksAppend(tasks[..i], [tasks[i]] + tasks[i + 1..], userId);
    GetTasksAppend(tasks[..i], [updated[i]] + tasks[i + 1..], userId);
    GetTasksAppend([tasks[i]], tasks[i + 1..], userId);
    GetTasksAppend([updated[i]], tasks[i + 1..], userId);
    assert GetTasks([updated[i]], userId) == (if updated[i].userId == userId then [updated[i]] else []) + GetTasks([], userId);
    assert GetTasks([tasks[i]], userId) == (if tasks[i].userId == userId then [tasks[i]] else []) + GetTasks([], userId);
  }

  /** After a status change, the owner's lookup of that id returns the updated row. */
  lemma SetStatusSeen(tasks: seq<Task>, i: nat, status: Status)
    requires Ascending(TaskIds(tasks)) && i < |tasks|
    ensures var updated := tasks[i := tasks[i].(status := status)];
      GetTask(updated, tasks[i].id, tasks[i].userId) == Some(updated[i])
  {
    var updated := tasks[i := tasks[i].(status := status)];
    assert TaskIds(updated) == TaskIds(tasks);
    GetTaskFindsRow(updated, i);
  }

  /** Removing row `i` takes it out of its owner's list and leaves every other list as it was. */
  lemma RemoveEffect(tasks: seq<Task>, i: nat, userId: int)
    requires i < |tasks|
    ensures GetTasks(tasks[..i] + tasks[i + 1..], userId) ==
      if userId == tasks[i].userId
      then GetTasks(tasks[..i], userId) + GetTasks(tasks[i + 1..], userId)
      else GetTasks(tasks, userId)
  {
    var before, after := tasks[..i], tasks[i + 1..];
    assert tasks == before + ([tasks[i]] + after);
    GetTasksAppend(before, after, userId);
    GetTasksAppend(before, [tasks[i]] + after, userId);
    GetTasksCons(tasks[i], after, userId);
    if userId != tasks[i].userId {
      assert [] + GetTasks(after, userId) == GetTasks(after, userId);
    }
  }

  /** Taking a row out of a table leaves only rows that were there. */
  lemma RemovedRowsWereThere<T>(rows: seq<T>, i: nat)
    requires i < |rows|
    ensures forall x :: x in rows[..i] + rows[i + 1..] ==> x in rows
  {
    forall x | x in rows[..i] + rows[i + 1..]
      ensures x in rows
    {
      if x in rows[..i] {
        var k :| 0 <= k < i && rows[..i][k] == x;
        assert rows[k] == x;
      } else {
        var k :| 0 <= k < |rows| - i - 1 && rows[i + 1..][k] == x;
        assert rows[i + 1 + k] == x;
      }
    }
  }

  /** Once row `i` is removed from a table with unique ids, nobody finds its id any more. */
  lemma RemovedTaskIsGone(tasks: seq<Task>, i: nat, userId: int)
    requires Ascending(TaskIds(tasks)) && i < |tasks|
    ensures GetTask(tasks[..i] + tasks[i + 1..], tasks[i].id, userId) == None
  {
    var rest := tasks[..i] + tasks[i + 1..];
    forall t | t in rest
      ensures t.id != tasks[i].id
    {
      var k :| 0 <= k < |rest| && rest[k] == t;
      if k < i {
        assert TaskIds(tasks)[k] < TaskIds(tasks)[i];
      } else {
        assert rest[k] == tasks[k + 1];
        assert TaskIds(tasks)[i] < TaskIds(tasks)[k + 1];
      }
    }
  }

  // ---------------------------------------------------------------------------
  // The tables

  /** A failed commit: a unique constraint of `users` was violated. */
  datatype DbError = IntegrityError

  class Database {
    var users: seq<User>
    var tasks: seq<Task>

    /** Ids ascend in row order (so they are unique); usernames and emails are unique. */
    ghost predicate Valid()
      reads this
    {
      && Ascending(UserIds(users))
      && Ascending(TaskIds(tasks))
      && UniqueUsernames(users)
      && UniqueEmails(users)
    }

    constructor ()
      ensures Valid() && users == [] && tasks == []
    {
      users := [];
      tasks := [];
    }

    /**
     * `create_user`: insert a user with the hash of the password. The commit
     * fails, leaving the table as it was, when the username or the email is
     * already taken.
     */
    method CreateUser(user: UserCreate, salt: Salt) returns (r: Result<User, DbError>)
      requires Valid()
      modifies this
      ensures Valid() && tasks == old(tasks)
      ensures r.Success? <==>
        UserByUsername(old(users), user.username).None? && UserByEmail(old(users), user.email).None?
      ensures r.Success? ==>
        && r.value == User(NextRowId(UserIds(old(users))), user.username, user.email,
                           GetPasswordHash(user.password, salt))
        && users == old(users) + [r.value]
      ensures r.Failure? ==> users == old(users)
    {
      if UserByUsername(users, user.username).Some? || UserByEmail(users, user.email).Some? {
        return Failure(IntegrityError);
      }
      var row := User(NextRowId(UserIds(users)), user.username, user.email, GetPasswordHash(user.password, salt));
      assert UserIds(users + [row]) == UserIds(users) + [row.id];
      users := users + [row];
      r := Success(row);
    }

    /** `create_task`: insert a task for the given owner under a fresh id. */
    method CreateTask(task: TaskCreate, userId: int) returns (t: Task)
      requires Valid()
      modifies this
      ensures Valid() && users == old(users)
      ensures t == NewTask(NextRowId(TaskIds(old(tasks))), task, userId)
      ensures t.id !in TaskIds(old(tasks))
      ensures tasks == old(tasks) + [t]
    {
      t := NewTask(NextRowId(TaskIds(tasks)), task, userId);
      TaskIdsAppend(tasks, t);
      tasks := tasks + [t];
    }

    /**
     * `update_task_status`: set the status of the user's task with that id and
     * return the updated row; None, with nothing changed, when the user has no
     * such task.
     */
    method UpdateTaskStatus(taskId: int, status: Status, userId: int) returns (r: Option<Task>)
      requires Valid()
      modifies this
      ensures Valid() && users == old(users)
      ensures r.None? <==> GetTask(old(tasks), taskId, userId).None?
      ensures r.None? ==> tasks == old(tasks)
      ensures r.Some? ==>
        var i := Locate(old(tasks), taskId, userId).value;
        && r.value == old(tasks)[i].(status := status)
        && tasks == old(tasks)[i := r.value]
    {
      match Locate(tasks, taskId, userId)
      case None =>
        r := None;
      case Some(i) =>
        var updated := tasks[i].(status := status);
        assert TaskIds(tasks[i := updated]) == TaskIds(tasks);
        tasks := tasks[i := updated];
        r := Some(updated);
    }

    /**
     * `delete_task`: remove the user's task with that id and return it as it
     * was; None, with nothing changed, when the user has no such task.
     */
    method DeleteTask(taskId: int, userId: int) returns (r: Option<Task>)
      requires Valid()
      modifies this
      ensures Valid() && users == old(users)
      ensures r == GetTask(old(tasks), taskId, userId)
      ensures r.None? ==> tasks == old(tasks)
      ensures r.Some? ==>
        var i := Locate(old(tasks), taskId, userId).value;
        tasks == old(tasks)[..i] + old(tasks)[i + 1..]
      ensures forall t :: t in tasks ==> t in old(tasks)
    {
      match Locate(tasks, taskId, userId)
      case None =>
        r := None;
      case Some(i) =>
        r := Some(tasks[i]);
        TaskIdsRemove(tasks, i);
        AscendingRemove(TaskIds(tasks), i);
        RemovedRowsWereThere(tasks, i);
        tasks := tasks[..i] + tasks[i + 1..];
    }
  }
}
