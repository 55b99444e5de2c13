/**
 * The tasks MCP service (app/mcp/tasks_mcp.py): an in-memory table of
 * tasks keyed by id, seeded from a file, with list, add and complete.
 */
module Tasks {
  import opened Wrappers
  import opened Text
  import opened Collections
  import opened Http

  datatype Task = Task(id: string, title: string, due: string, status: string)

  const OpenStatus: string := "open"
  const DoneStatus: string := "done"

  function TaskId(t: Task): string {
    t.id
  }

  function TaskSelf(t: Task): Task {
    t
  }

  /** `f"T-{n:04d}"`: "T-" and n in decimal, zero-padded to at least 4 digits. */
  function NewId(n: nat): string {
    "T-" + ZeroPad4(n)
  }

  /** A generated id is "T-" followed by the decimal digits of n, exactly 6 characters while n < 10000. */
  lemma NewIdShape(n: nat)
    ensures |NewId(n)| >= 6 && NewId(n)[..2] == "T-"
    ensures AllDigits(NewId(n)[2..]) && DigitsValue(NewId(n)[2..]) == n
    ensures n < 10000 ==> |NewId(n)| == 6
  {
    assert NewId(n)[2..] == ZeroPad4(n);
    if n < 10000 {
      ZeroPad4Width(n);
    }
  }

  /** Different table sizes give different ids. */
  lemma NewIdInjective(a: nat, b: nat)
    requires NewId(a) == NewId(b)
    ensures a == b
  {
    NewIdShape(a);
    NewIdShape(b);
  }

  /** The table after add_task(title, due) on a table of the given contents, and the task it returns. */
  function AddSpec(tasks: map<string, Task>, title: string, due: string): (map<string, Task>, Task) {
    var t := Task(NewId(|tasks| + 1), title, due, OpenStatus);
    (tasks[t.id := t], t)
  }

  /** add_task stores the new "open" task under its id; the table grows by one exactly when that id was free. */
  lemma AddGrowsIffNew(tasks: map<string, Task>, title: string, due: string)
    ensures var (after, t) := AddSpec(tasks, title, due);
            && t.id in after && after[t.id] == t && t.status == OpenStatus && t.title == title && t.due == due
            && (forall k :: k != t.id ==> (k in after <==> k in tasks) && (k in tasks ==> after[k] == tasks[k]))
            && (|after| == |tasks| + 1 <==> t.id !in tasks)
            && (t.id in tasks ==> |after| == |tasks|)
  {
    var (after, t) := AddSpec(tasks, title, due);
    if t.id in tasks {
      assert after.Keys == tasks.Keys;
    } else {
      assert after.Keys == tasks.Keys + {t.id};
    }
  }

  /**
   * The id comes from the table's size, not from the ids in use: with one
   * seeded task whose id is "T-0002", add_task overwrites it and the table
   * does not grow, and it does so again on every later add.
   */
  lemma AddOverwritesSeededId(seed: Task, title: string, due: string)
    requires seed.id == "T-0002"
    ensures var (after, t) := AddSpec(map[seed.id := seed], title, due);
            && t.id == "T-0002" && |after| == 1 && after[t.id] == t
            && AddSpec(after, title, due).1.id == "T-0002"
  {
    assert ZeroPad4(2) == "0002" by {
      assert NatToString(2) == "2";
      assert Repeat('0', 3) == "000";
    }
    var before := map[seed.id := seed];
    assert |before| == 1;
    var (after, t) := AddSpec(before, title, due);
    assert t.id == NewId(2) == "T-0002";
    assert after.Keys == {"T-0002"};
  }

  /** complete_task(id) on a table: 404 for an unknown id, otherwise that task with status "done". */
  function CompleteSpec(tasks: map<string, Task>, id: string): Result<map<string, Task>, HttpError> {
    if id !in tasks then Err(HttpError(404, "Task not found"))
    else Ok(tasks[id := tasks[id].(status := DoneStatus)])
  }

  /** Completing changes that task's status and nothing else; an unknown id is a 404. */
  lemma CompleteChangesOnlyThatTask(tasks: map<string, Task>, id: string)
    ensures CompleteSpec(tasks, id).Err? <==> id !in tasks
    ensures CompleteSpec(tasks, id).Err? ==> CompleteSpec(tasks, id).error.status == 404
    ensures CompleteSpec(tasks, id).Ok? ==>
              var after := CompleteSpec(tasks, id).value;
              && after.Keys == tasks.Keys
              && after[id] == tasks[id].(status := DoneStatus)
              && (forall k :: k in tasks && k != id ==> after[k] == tasks[k])
  {
  }

  /** Completing twice is completing once. */
  lemma CompleteIdempotent(tasks: map<string, Task>, id: string)
    requires CompleteSpec(tasks, id).Ok?
    ensures CompleteSpec(CompleteSpec(tasks, id).value, id) == CompleteSpec(tasks, id)
  {
    var after := CompleteSpec(tasks, id).value;
    assert after[id := after[id].(status := DoneStatus)] == after;
  }

  /** How FastAPI routes a request to the tasks service: the handler, 405 for a known path with the wrong method, or 404. */
  datatype Handler = ListTasks | AddTask | CompleteTask(taskId: string)
  datatype Routed = Handled(handler: Handler) | MethodNotAllowed | NoRoute

  /** A path segment FastAPI binds to `{task_id}`: non-empty and without '/'. */
  predicate IsSegment(s: string) {
    s != [] && forall i :: 0 <= i < |s| ==> s[i] != '/'
  }

  /** The routes of the tasks service: GET /list, POST /add, POST /complete/{task_id}. */
  function RouteTasks(m: Method, path: string): Routed {
    if path == "list" then (if m == Get then Handled(ListTasks) else MethodNotAllowed)
    else if path == "add" then (if m == Post then Handled(AddTask) else MethodNotAllowed)
    else if StartsWith(path, "complete/") && IsSegment(path[9..]) then
      (if m == Post then Handled(CompleteTask(path[9..])) else MethodNotAllowed)
    else NoRoute
  }

  /** The tasks table, in insertion order, as the service's module-level dict. */
  class TaskStore {
    var tasks: map<string, Task>
    /** The keys of `tasks` in the order they were first inserted. */
    var order: seq<string>

    ghost predicate Valid()
      reads this
    {
      && (forall k :: k in tasks <==> k in order)
      && (forall i, j :: 0 <= i < j < |order| ==> order[i] != order[j])
    }

    /** `{t["id"]: t for t in seed}`: keyed by id, the later task winning on a repeated id. */
    constructor(seed: seq<Task>)
      ensures Valid()
      ensures tasks == IndexBy(seed, TaskId, TaskSelf)
    {
      tasks := map[];
      order := [];
      new;
      for i := 0 to |seed|
        invariant Valid()
        invariant tasks == IndexBy(seed[..i], TaskId, TaskSelf)
      {
        IndexBySnoc(seed, i, TaskId, TaskSelf);
        Put(seed[i]);
      }
      assert seed[..|seed|] == seed;
    }

    /** `tasks[t["id"]] = t`: store t under its id, a new id going to the end of the order. */
    method Put(t: Task)
      requires Valid()
      modifies this
      ensures Valid()
      ensures tasks == old(tasks)[t.id := t]
      ensures order == if t.id in old(tasks) then old(order) else old(order) + [t.id]
    {
      if t.id !in tasks {
        order := order + [t.id];
      }
      tasks := tasks[t.id := t];
    }

    /** list_tasks: the table's values, one per key, in insertion order. */
    function ListTasks(): (r: seq<Task>)
      reads this
      requires Valid()
      ensures |r| == |order|
      ensures forall k :: k in tasks ==> exists i :: 0 <= i < |r| && order[i] == k && r[i] == tasks[k]
      ensures forall i :: 0 <= i < |r| ==> order[i] in tasks && r[i] == tasks[order[i]]
    {
      seq(|order|, i requires 0 <= i < |order| && order[i] in tasks reads this => tasks[order[i]])
    }

    /** add_task: store and return an "open" task under `T-{len+1:04d}`. */
    method AddTask(title: string, due: string) returns (t: Task)
      requires Valid()
      modifies this
      ensures Valid()
      ensures (tasks, t) == AddSpec(old(tasks), title, due)
      ensures order == if t.id in old(tasks) then old(order) else old(order) + [t.id]
    {
      var taskId := NewId(|tasks| + 1);
      t := Task(taskId, title, due, OpenStatus);
      Put(t);
    }

    /** complete_task: 404 for an unknown id, otherwise set that task's status to "done" and return it. */
    method CompleteTask(id: string) returns (r: Result<Task, HttpError>)
      requires Valid()
      modifies this
      ensures Valid() && order == old(order)
      ensures CompleteSpec(old(tasks), id).Err? ==> r == Err(CompleteSpec(old(tasks), id).error) && tasks == old(tasks)
      ensures CompleteSpec(old(tasks), id).Ok? ==> tasks == CompleteSpec(old(tasks), id).value && r == Ok(tasks[id])
    {
      if id !in tasks {
        return Err(HttpError(404, "Task not found"));
      }
      tasks := tasks[id := tasks[id].(status := DoneStatus)];
      r := Ok(tasks[id]);
    }
  }
}
