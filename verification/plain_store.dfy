/**
 * The earlier, single-user version of the task store: the same operations on
 * a `tasks` table whose rows have no owner, so every task is visible to every
 * caller. Row ids follow the same SQLite rule as the owner-scoped store.
 */
module PlainStore {
  import opened Wrappers
  import opened Schemas
  import Store

  /** A row of the owner-less `tasks` table; also its public view. */
  datatype PlainTask = PlainTask(id: int, title: string, description: Option<string>,
                                 status: Status, dueDate: DateTime)

  function Ids(tasks: seq<PlainTask>): seq<int>
  {
    Store.RowIds(tasks, (t: PlainTask) => t.id)
  }

  /** Position of the first row with this id. */
  function Locate(tasks: seq<PlainTask>, taskId: int): (r: Option<nat>)
    ensures r.Some? ==> r.value < |tasks| && tasks[r.value].id == taskId
    ensures r.Some? ==> forall j :: 0 <= j < r.value ==> tasks[j].id != taskId
    ensures r.None? <==> forall j :: 0 <= j < |tasks| ==> tasks[j].id != taskId
  {
    if tasks == [] then None
    else if tasks[0].id == taskId then Some(0)
    else
      match Locate(tasks[1..], taskId)
      case None => None
      case Some(k) => Some(k + 1)
  }

  /** `get_task`: the task with this id, or None. */
  function GetTask(tasks: seq<PlainTask>, taskId: int): (r: Option<PlainTask>)
    ensures r.Some? ==> r.value in tasks && r.value.id == taskId
    ensures r.None? <==> forall t | t in tasks :: t.id != taskId
  {
    match Locate(tasks, taskId)
    case None => None
    case Some(i) => Some(tasks[i])
  }

  /** In a table with unique ids, each row is what a lookup of its id returns. */
  lemma GetTaskFindsRow(tasks: seq<PlainTask>, i: nat)
    requires Store.Ascending(Ids(tasks)) && i < |tasks|
    ensures GetTask(tasks, tasks[i].id) == Some(tasks[i])
  {
    var k := Locate(tasks, tasks[i].id).value;
    assert Ids(tasks)[k] == Ids(tasks)[i];
  }

  /** A lookup looks at the first row, then at the rest. */
  lemma GetTaskCons(t: PlainTask, tasks: seq<PlainTask>, taskId: int)
    ensures GetTask([t] + tasks, taskId) == if t.id == taskId then Some(t) else GetTask(tasks, taskId)
  {
    assert ([t] + tasks)[1..] == tasks;
  }

  /** A status change is seen by the next lookup of that id and by no lookup of another id. */
  lemma {:induction false} SetStatusEffect(tasks: seq<PlainTask>, i: nat, status: Status, taskId: int)
    requires Store.Ascending(Ids(tasks)) && i < |tasks|
    ensures var updated := tasks[i := tasks[i].(status := status)];
      GetTask(updated, taskId) ==
        if taskId == tasks[i].id then Some(updated[i]) else GetTask(tasks, taskId)
  {
    var updated := tasks[i := tasks[i].(status := status)];
    if taskId == tasks[i].id {
      assert Ids(updated) == Ids(tasks);
      GetTaskFindsRow(updated, i);
    } else {
      assert updated == tasks[..i] + [updated[i]] + tasks[i + 1..];
      RemoveOtherRow(tasks, i, taskId);
      RemoveOtherRow(updated, i, taskId);
      assert updated[..i] + updated[i + 1..] == tasks[..i] + tasks[i + 1..];
    }
  }

  /** Taking out a row other than the first keeps the first row in front. */
  lemma RemoveAfterHead<T>(rows: seq<T>, i: nat)
    requires 0 < i < |rows|
    ensures rows[..i] + rows[i + 1..] == [rows[0]] + (rows[1..][..i - 1] + rows[1..][i..])
  {
    assert rows[1..][..i - 1] == rows[1..i];
    assert rows[1..][i..] == rows[i + 1..];
    assert rows[..i] == [rows[0]] + rows[1..i];
  }

  /** Taking out a row with a different id does not change a lookup. */
  lemma {:induction false} RemoveOtherRow(tasks: seq<PlainTask>, i: nat, taskId: int)
    requires i < |tasks| && tasks[i].id != taskId
    ensures GetTask(tasks[..i] + tasks[i + 1..], taskId) == GetTask(tasks, taskId)
  {
    var tail := tasks[1..];
    assert tasks == [tasks[0]] + tail;
    GetTaskCons(tasks[0], tail, taskId);
    if i == 0 {
      assert tasks[..i] + tasks[i + 1..] == tail;
    } else {
      RemoveAfterHead(tasks, i);
      RemoveOtherRow(tail, i - 1, taskId);
      GetTaskCons(tasks[0], tail[..i - 1] + tail[i..], taskId);
    }
  }

  /** Once row `i` is removed, a lookup of its id gives None and every other lookup is unchanged. */
  lemma RemoveEffect(tasks: seq<PlainTask>, i: nat, taskId: int)
    requires Store.Ascending(Ids(tasks)) && i < |tasks|
    ensures GetTask(tasks[..i] + tasks[i + 1..], taskId) ==
      if taskId == tasks[i].id then None else GetTask(tasks, taskId)
  {
    var rest := tasks[..i] + tasks[i + 1..];
    if taskId == tasks[i].id {
      forall t | t in rest
        ensures t.id != taskId
      {
        var k :| 0 <= k < |rest| && rest[k] == t;
        if k < i {
          assert Ids(tasks)[k] < Ids(tasks)[i];
        } else {
          assert rest[k] == tasks[k + 1];
          assert Ids(tasks)[i] < Ids(tasks)[k + 1];
        }
      }
    } else {
      RemoveOtherRow(tasks, i, taskId);
    }
  }

  class PlainDatabase {
    var tasks: seq<PlainTask>

    /** Ids ascend in row order, so they are unique. */
    ghost predicate Valid()
      reads this
    {
      Store.Ascending(Ids(tasks))
    }

    constructor ()
      ensures Valid() && tasks == []
    {
      tasks := [];
    }

    /** `get_tasks`: every task in the table, in row order. */
    function GetTasks(): (r: seq<PlainTask>)
      reads this
      ensures |r| == |tasks| && forall i :: 0 <= i < |r| ==> r[i] == tasks[i]
    {
      tasks
    }

    /** `create_task`: insert the submitted fields under a fresh id. */
    method CreateTask(task: TaskCreate) returns (t: PlainTask)
      requires Valid()
      modifies this
      ensures Valid()
      ensures t == PlainTask(Store.NextRowId(Ids(old(tasks))), task.title, task.description, task.status, task.dueDate)
      ensures t.id !in Ids(old(tasks))
      ensures tasks == old(tasks) + [t]
    {
      t := PlainTask(Store.NextRowId(Ids(tasks)), task.title, task.description, task.status, task.dueDate);
      assert Ids(tasks + [t]) == Ids(tasks) + [t.id];
      tasks := tasks + [t];
    }

    /**
     * `update_task_status`: set the status of the task with that id and return
     * it; None, with nothing changed, when there is no such task.
     */
    method UpdateTaskStatus(taskId: int, status: Status) returns (r: Option<PlainTask>)
      requires Valid()
      modifies this
      ensures Valid()
      ensures r.None? <==> GetTask(old(tasks), taskId).None?
      ensures r.None? ==> tasks == old(tasks)
      ensures r.Some? ==>
        var i := Locate(old(tasks), taskId).value;
        && r.value == old(tasks)[i].(status := status)
        && tasks == old(tasks)[i := r.value]
    {
      match Locate(tasks, taskId)
      case None =>
        r := None;
      case Some(i) =>
        var updated := tasks[i].(status := status);
        assert Ids(tasks[i := updated]) == Ids(tasks);
        tasks := tasks[i := updated];
        r := Some(updated);
    }

    /**
     * `delete_task`: remove the task with that id and return it as it was;
     * None, with nothing changed, when there is no such task.
     */
    method DeleteTask(taskId: int) returns (r: Option<PlainTask>)
      requires Valid()
      modifies this
      ensures Valid()
      ensures r == GetTask(old(tasks), taskId)
      ensures r.None? ==> tasks == old(tasks)
      ensures r.Some? ==>
        var i := Locate(old(tasks), taskId).value;
        tasks == old(tasks)[..i] + old(tasks)[i + 1..]
    {
      match Locate(tasks, taskId)
      case None =>
        r := None;
      case Some(i) =>
        r := Some(tasks[i]);
        assert Ids(tasks[..i] + tasks[i + 1..]) == Ids(tasks)[..i] + Ids(tasks)[i + 1..];
        Store.AscendingRemove(Ids(tasks), i);
        tasks := tasks[..i] + tasks[i + 1..];
    }
  }
}
