/** `MemoryTaskRepository`: tasks and task runs kept in two dictionaries,
    each with its own id counter, plus the redundancy recomputation that
    sets `n_answers` on every task of a project and derives its `state`
    from the number of stored task runs. */
module TaskRepository {
  import opened Common
  import opened Store

  const Name := "MemoryTaskRepository"

  /** `_validate_can_be`: only a Task or a TaskRun may be saved, updated or deleted. */
  function ValidateCanBe(action: string, e: Entity): (r: Option<Error>)
    ensures r.None? <==> e.kind == Task || e.kind == TaskRun
    ensures r.Some? ==> r.value == WrongObjectError(WrongObjectMessage(ClassName(e.kind), action, Name))
  {
    if e.kind != Task && e.kind != TaskRun then
      Some(WrongObjectError(WrongObjectMessage(ClassName(e.kind), action, Name)))
    else None
  }

  /** The filter `app_id=project.id`. */
  function ProjectFilter(project: Entity): Filter
  {
    map["app_id" := IdValue(project.id)]
  }

  /** The filter `task_id=task.id`. */
  function RunsFilter(task: Entity): Filter
  {
    map["task_id" := IdValue(task.id)]
  }

  /** The keys of the stored task runs whose `task_id` equals the task's id. */
  function RunsOf(runs: Table, task: Entity): set<Key>
  {
    MatchingKeys(runs, RunsFilter(task))
  }

  /** The task after `task.n_answers = n_answers` and the state assignment
      that compares its run count with `n_answers`. */
  function WithRedundancy(task: Entity, nAnswers: int, nRuns: nat): (r: Entity)
    ensures r.kind == task.kind && r.id == task.id
    ensures Attribute(r, "n_answers") == Some(VInt(nAnswers))
    ensures Attribute(r, "state") == Some(VStr("completed")) <==> nRuns >= nAnswers
    ensures Attribute(r, "state") == Some(VStr("ongoing")) <==> nRuns < nAnswers
  {
    var state := if nRuns < nAnswers then "ongoing" else "completed";
    task.(attrs := task.attrs["n_answers" := VInt(nAnswers)]["state" := VStr(state)])
  }

  /** Only `n_answers` and `state` change. */
  lemma WithRedundancyKeepsOthers(task: Entity, nAnswers: int, nRuns: nat, a: string)
    requires a != "n_answers" && a != "state"
    ensures Attribute(WithRedundancy(task, nAnswers, nRuns), a) == Attribute(task, a)
  {
  }

  /** The task store after `update_tasks_redundancy(project, n_answers)`. */
  function Redistributed(tasks: Table, runs: Table, project: Entity, nAnswers: int): Table
  {
    map k | k in tasks ::
      if Matches(tasks[k], ProjectFilter(project))
      then WithRedundancy(tasks[k], nAnswers, CountWith(runs, RunsFilter(tasks[k])))
      else tasks[k]
  }

  /** After the recomputation every task of the project has the new
      `n_answers` and the state its run count derives; every other task,
      every key and every other attribute stay as they were. */
  lemma RedistributedDerivesState(tasks: Table, runs: Table, project: Entity, nAnswers: int)
    ensures var r := Redistributed(tasks, runs, project, nAnswers);
      && r.Keys == tasks.Keys
      && (forall k :: k in tasks && Matches(tasks[k], ProjectFilter(project)) ==>
            && r[k].kind == tasks[k].kind && r[k].id == tasks[k].id
            && Attribute(r[k], "n_answers") == Some(VInt(nAnswers))
            && (Attribute(r[k], "state") == Some(VStr("completed")) <==> |RunsOf(runs, tasks[k])| >= nAnswers)
            && (Attribute(r[k], "state") == Some(VStr("ongoing")) <==> |RunsOf(runs, tasks[k])| < nAnswers))
      && (forall k, a :: k in tasks && a != "n_answers" && a != "state" ==>
            Attribute(r[k], a) == Attribute(tasks[k], a))
      && (forall k :: k in tasks && !Matches(tasks[k], ProjectFilter(project)) ==> r[k] == tasks[k])
  {
    var r := Redistributed(tasks, runs, project, nAnswers);
    forall k, a | k in tasks && a != "n_answers" && a != "state"
      ensures Attribute(r[k], a) == Attribute(tasks[k], a)
    {
      if Matches(tasks[k], ProjectFilter(project)) {
        WithRedundancyKeepsOthers(tasks[k], nAnswers, CountWith(runs, RunsFilter(tasks[k])), a);
      }
    }
  }

  /** The recomputation keeps every task under its own id and of its own class. */
  lemma RedistributedKeepsIdentity(tasks: Table, runs: Table, project: Entity, nAnswers: int)
    ensures var r := Redistributed(tasks, runs, project, nAnswers);
      && r.Keys == tasks.Keys
      && forall k :: k in r ==> r[k].id == tasks[k].id && r[k].kind == tasks[k].kind
  {
  }

  lemma WithRedundancyIdempotent(task: Entity, nAnswers: int, nRuns: nat)
    ensures WithRedundancy(WithRedundancy(task, nAnswers, nRuns), nAnswers, nRuns) == WithRedundancy(task, nAnswers, nRuns)
  {
    var once := WithRedundancy(task, nAnswers, nRuns);
    assert WithRedundancy(once, nAnswers, nRuns).attrs == once.attrs;
  }

  /** The recomputation leaves `app_id` and the id alone, so a task of the
      project stays one and its runs stay the same. */
  lemma WithRedundancyStaysInProject(task: Entity, project: Entity, nAnswers: int, nRuns: nat)
    requires Matches(task, ProjectFilter(project))
    ensures Matches(WithRedundancy(task, nAnswers, nRuns), ProjectFilter(project))
    ensures RunsFilter(WithRedundancy(task, nAnswers, nRuns)) == RunsFilter(task)
  {
    WithRedundancyKeepsOthers(task, nAnswers, nRuns, "app_id");
  }

  /** A second recomputation with the same project and redundancy changes nothing. */
  lemma RedistributedIdempotent(tasks: Table, runs: Table, project: Entity, nAnswers: int)
    ensures Redistributed(Redistributed(tasks, runs, project, nAnswers), runs, project, nAnswers)
         == Redistributed(tasks, runs, project, nAnswers)
  {
    var once := Redistributed(tasks, runs, project, nAnswers);
    var twice := Redistributed(once, runs, project, nAnswers);
    forall k | k in tasks
      ensures twice[k] == once[k]
    {
      var t := tasks[k];
      if Matches(t, ProjectFilter(project)) {
        var n := CountWith(runs, RunsFilter(t));
        WithRedundancyStaysInProject(t, project, nAnswers, n);
        WithRedundancyIdempotent(t, nAnswers, n);
      }
    }
  }

  /** The task store part way through `update_tasks_redundancy`: the tasks
      whose ids are in `done` already carry their new values. */
  ghost predicate PartlyRedistributed(current: Table, before: Table, runs: Table, project: Entity, nAnswers: int, done: set<Key>)
  {
    var after := Redistributed(before, runs, project, nAnswers);
    && current.Keys == before.Keys
    && forall k :: k in current ==> current[k] == if k in done then after[k] else before[k]
  }

  lemma RedistributeStep(current: Table, before: Table, runs: Table, project: Entity, nAnswers: int, done: set<Key>, task: Entity)
    requires PartlyRedistributed(current, before, runs, project, nAnswers, done)
    requires task.id in before && before[task.id] == task && Matches(task, ProjectFilter(project))
    ensures var updated := WithRedundancy(task, nAnswers, CountWith(runs, RunsFilter(task)));
            PartlyRedistributed(current[task.id := updated], before, runs, project, nAnswers, done + {task.id})
  {
    var after := Redistributed(before, runs, project, nAnswers);
    var updated := WithRedundancy(task, nAnswers, CountWith(runs, RunsFilter(task)));
    var next := current[task.id := updated];
    assert after[task.id] == updated;
    forall k | k in next
      ensures next[k] == if k in done + {task.id} then after[k] else before[k]
    {
      if k != task.id {
        assert next[k] == current[k];
      }
    }
    assert next.Keys == before.Keys;
  }

  /** The i-th filtered task is stored under its id and belongs to the project. */
  lemma ProjectTaskAt(before: Table, project: Entity, tasks: seq<Entity>, i: nat)
    requires KeyedById(before)
    requires tasks == FilterBy(before, ProjectFilter(project))
    requires i < |tasks|
    ensures tasks[i].id in before && before[tasks[i].id] == tasks[i]
    ensures Matches(tasks[i], ProjectFilter(project))
  {
    assert tasks[i] in tasks;
  }

  /** The ids of the first n tasks, the ones the loop has updated. */
  ghost function IdsUpTo(tasks: seq<Entity>, n: nat): set<Key>
    requires n <= |tasks|
  {
    if n == 0 then {} else IdsUpTo(tasks, n - 1) + {tasks[n - 1].id}
  }

  lemma {:induction false} IdsUpToHas(tasks: seq<Entity>, n: nat, j: nat)
    requires j < n <= |tasks|
    ensures tasks[j].id in IdsUpTo(tasks, n)
    decreases n
  {
    if j < n - 1 {
      IdsUpToHas(tasks, n - 1, j);
    }
  }

  /** One turn of the loop of `update_tasks_redundancy`: updating the i-th
      filtered task extends the updated prefix by one. */
  lemma RedistributeAt(current: Table, before: Table, runs: Table, project: Entity, nAnswers: int, tasks: seq<Entity>, i: nat)
    requires KeyedById(before)
    requires tasks == FilterBy(before, ProjectFilter(project))
    requires i < |tasks|
    requires PartlyRedistributed(current, before, runs, project, nAnswers, IdsUpTo(tasks, i))
    ensures var updated := WithRedundancy(tasks[i], nAnswers, CountWith(runs, RunsFilter(tasks[i])));
            PartlyRedistributed(current[tasks[i].id := updated], before, runs, project, nAnswers, IdsUpTo(tasks, i + 1))
  {
    ProjectTaskAt(before, project, tasks, i);
    RedistributeStep(current, before, runs, project, nAnswers, IdsUpTo(tasks, i), tasks[i]);
  }

  /** Once the loop has run through the filtered tasks, every task of the
      project has been updated. */
  lemma ProjectTasksCovered(before: Table, project: Entity, tasks: seq<Entity>)
    requires KeyedById(before)
    requires tasks == FilterBy(before, ProjectFilter(project))
    ensures forall k :: k in before && Matches(before[k], ProjectFilter(project)) ==> k in IdsUpTo(tasks, |tasks|)
  {
    forall k | k in before && Matches(before[k], ProjectFilter(project))
      ensures k in IdsUpTo(tasks, |tasks|)
    {
      assert before[k] in tasks;
      var j :| 0 <= j < |tasks| && tasks[j] == before[k];
      IdsUpToHas(tasks, |tasks|, j);
    }
  }

  lemma RedistributeDone(current: Table, before: Table, runs: Table, project: Entity, nAnswers: int, done: set<Key>)
    requires PartlyRedistributed(current, before, runs, project, nAnswers, done)
    requires forall k :: k in before && Matches(before[k], ProjectFilter(project)) ==> k in done
    ensures current == Redistributed(before, runs, project, nAnswers)
  {
  }

  lemma RedistributedValid(before: Table, runs: Table, project: Entity, nAnswers: int)
    requires WellKeyed(before, Task)
    ensures var r := Redistributed(before, runs, project, nAnswers);
            WellKeyed(r, Task)
  {
    RedistributedKeepsIdentity(before, runs, project, nAnswers);
  }

  /** After the loop of `update_tasks_redundancy` every task of the project is
      updated, so the store is the redistributed one and still well formed. */
  lemma RedistributeFinished(current: Table, before: Table, runs: Table, project: Entity, nAnswers: int, tasks: seq<Entity>)
    requires WellKeyed(before, Task)
    requires tasks == FilterBy(before, ProjectFilter(project))
    requires PartlyRedistributed(current, before, runs, project, nAnswers, IdsUpTo(tasks, |tasks|))
    ensures current == Redistributed(before, runs, project, nAnswers)
    ensures WellKeyed(current, Task)
  {
    ProjectTasksCovered(before, project, tasks);
    RedistributeDone(current, before, runs, project, nAnswers, IdsUpTo(tasks, |tasks|));
    RedistributedValid(before, runs, project, nAnswers);
  }

  /** The two stores together, as `delete` and `delete_all` change them. */
  datatype Stores = Stores(tasks: Table, runs: Table)

  /** `delete(e)`: validation, then `del` from the store of the element's class. */
  function DeleteFrom(s: Stores, e: Entity): (r: Result<Stores>)
    ensures e.kind != Task && e.kind != TaskRun ==>
              r == Err(WrongObjectError(WrongObjectMessage(ClassName(e.kind), "deleted", Name)))
    ensures e.kind == Task ==>
              r == (if e.id in s.tasks then Ok(Stores(s.tasks - {e.id}, s.runs)) else Err(KeyError(e.id)))
    ensures e.kind == TaskRun ==>
              r == (if e.id in s.runs then Ok(Stores(s.tasks, s.runs - {e.id})) else Err(KeyError(e.id)))
  {
    match ValidateCanBe("deleted", e)
    case Some(err) => Err(err)
    case None =>
      if e.kind == Task then
        match Remove(s.tasks, e.id)
        case Ok(t) => Ok(Stores(t, s.runs))
        case Err(err) => Err(err)
      else
        match Remove(s.runs, e.id)
        case Ok(t) => Ok(Stores(s.tasks, t))
        case Err(err) => Err(err)
  }

  /** The stores a run of `delete` calls leaves, and the error that stopped it. */
  datatype Outcome = Outcome(stores: Stores, error: Option<Error>)

  /** `for element in elements: self.delete(element)`: deletions before a
      raising element stay done. */
  function DeleteEach(s: Stores, es: seq<Entity>): Outcome
    decreases |es|
  {
    if es == [] then Outcome(s, None)
    else
      match DeleteFrom(s, es[0])
      case Err(err) => Outcome(s, Some(err))
      case Ok(next) => DeleteEach(next, es[1..])
  }

  /** Deleting `a + b` is deleting `a`, then, if nothing raised, `b`. */
  lemma {:induction false} DeleteEachAppend(s: Stores, a: seq<Entity>, b: seq<Entity>)
    ensures DeleteEach(s, a + b)
         == (var o := DeleteEach(s, a); if o.error.Some? then o else DeleteEach(o.stores, b))
    decreases |a|
  {
    if a == [] {
      assert a + b == b;
    } else {
      assert (a + b)[0] == a[0];
      assert (a + b)[1..] == a[1..] + b;
      match DeleteFrom(s, a[0])
      case Err(_) =>
      case Ok(next) => DeleteEachAppend(next, a[1..], b);
    }
  }

  function IdsOfKind(es: seq<Entity>, k: Kind): set<Key>
  {
    set e | e in es && e.kind == k :: e.id
  }

  /** The ids of the elements of class `k` in a non-empty list: those of its
      head and those of its tail. */
  lemma IdsOfKindCons(es: seq<Entity>, k: Kind)
    requires es != []
    ensures IdsOfKind(es, k) == IdsOfKind([es[0]], k) + IdsOfKind(es[1..], k)
  {
    assert forall e :: e in es <==> e == es[0] || e in es[1..];
  }

  lemma IdsOfOne(e: Entity, k: Kind)
    ensures IdsOfKind([e], k) == if e.kind == k then {e.id} else {}
  {
    if e.kind == k {
      assert e.id in IdsOfKind([e], k);
    }
  }

  /** One deletion that raises nothing removes the element's id from its own store. */
  lemma DeleteFromRemoves(s: Stores, e: Entity)
    requires DeleteFrom(s, e).Ok?
    ensures e.kind == Task || e.kind == TaskRun
    ensures DeleteFrom(s, e).value.tasks.Keys == s.tasks.Keys - IdsOfKind([e], Task)
    ensures DeleteFrom(s, e).value.runs.Keys == s.runs.Keys - IdsOfKind([e], TaskRun)
  {
    IdsOfOne(e, Task);
    IdsOfOne(e, TaskRun);
  }

  /** The first element of a non-empty list is one of its elements, and every
      other element is in its tail. */
  lemma ElementsOfCons(es: seq<Entity>)
    requires es != []
    ensures forall x :: x in es <==> x == es[0] || x in es[1..]
  {
    assert es == [es[0]] + es[1..];
  }

  /** A `delete_all` that raises nothing was given only tasks and task runs. */
  lemma {:induction false} DeleteEachOnlyTasksAndRuns(s: Stores, es: seq<Entity>)
    requires DeleteEach(s, es).error.None?
    ensures forall e :: e in es ==> e.kind == Task || e.kind == TaskRun
    decreases |es|
  {
    if es != [] {
      var next := DeleteFrom(s, es[0]).value;
      DeleteFromRemoves(s, es[0]);
      DeleteEachOnlyTasksAndRuns(next, es[1..]);
      ElementsOfCons(es);
    }
  }

  /** A `delete_all` that raises nothing removes exactly the ids of the
      tasks it was given from the task store, and those of the task runs
      from the run store. */
  lemma {:induction false} DeleteEachRemovesExactly(s: Stores, es: seq<Entity>)
    requires DeleteEach(s, es).error.None?
    ensures DeleteEach(s, es).stores.tasks.Keys == s.tasks.Keys - IdsOfKind(es, Task)
    ensures DeleteEach(s, es).stores.runs.Keys == s.runs.Keys - IdsOfKind(es, TaskRun)
    decreases |es|
  {
    if es != [] {
      var next := DeleteFrom(s, es[0]).value;
      var last := DeleteEach(next, es[1..]).stores;
      assert DeleteEach(s, es).stores == last;
      DeleteFromRemoves(s, es[0]);
      DeleteEachRemovesExactly(next, es[1..]);
      IdsOfKindCons(es, Task);
      IdsOfKindCons(es, TaskRun);
      assert last.tasks.Keys == (s.tasks.Keys - IdsOfKind([es[0]], Task)) - IdsOfKind(es[1..], Task);
      assert last.runs.Keys == (s.runs.Keys - IdsOfKind([es[0]], TaskRun)) - IdsOfKind(es[1..], TaskRun);
    }
  }

  /** The counter attributes as `__init__` and `clean` create them. */
  function CountersAsWritten(): map<string, int>
  {
    map["task_coun" := 0, "taskrun_coun" := 0]
  }

  /** `self.<name> += 1; return self.<name>` on an object whose integer
      attributes are `attrs`. */
  function IncrementAsWritten(attrs: map<string, int>, name: string): (r: Result<int>)
    ensures r.Err? <==> name !in attrs
    ensures r.Err? ==> r.error == AttributeError(name)
    ensures r.Ok? ==> r.value == attrs[name] + 1
  {
    if name in attrs then Ok(attrs[name] + 1) else Err(AttributeError(name))
  }

  /** As written, the first save of a Task or TaskRun without an id raises:
      `_next_task_id` and `_next_taskrun_id` read counters that were never set. */
  lemma FreshIdAsWrittenRaises()
    ensures IncrementAsWritten(CountersAsWritten(), "task_count") == Err(AttributeError("task_count"))
    ensures IncrementAsWritten(CountersAsWritten(), "taskrun_count") == Err(AttributeError("taskrun_count"))
  {
    assert "task_count" != "task_coun" && "task_count" != "taskrun_coun";
    assert "taskrun_count" != "task_coun" && "taskrun_count" != "taskrun_coun";
  }

  class MemoryTaskRepository {
    var taskStore: Table
    var taskrunStore: Table
    // The source initialises attributes named `task_coun` and `taskrun_coun`
    // while the id generators increment `task_count` and `taskrun_count`
    // (see FreshIdAsWrittenRaises); these are the intended counters.
    var taskCount: nat
    var taskrunCount: nat

    ghost predicate Valid()
      reads this
    {
      WellKeyed(taskStore, Task) && WellKeyed(taskrunStore, TaskRun)
    }

    constructor ()
      ensures Valid()
      ensures taskStore == map[] && taskrunStore == map[]
      ensures taskCount == 0 && taskrunCount == 0
    {
      taskStore, taskrunStore := map[], map[];
      taskCount, taskrunCount := 0, 0;
    }

    method Clean()
      modifies this
      ensures Valid()
      ensures taskStore == map[] && taskrunStore == map[]
      ensures taskCount == 0 && taskrunCount == 0
    {
      taskStore, taskrunStore := map[], map[];
      taskCount, taskrunCount := 0, 0;
    }

    method NextTaskId() returns (id: nat)
      modifies this`taskCount
      ensures taskCount == old(taskCount) + 1 && id == taskCount
    {
      taskCount := taskCount + 1;
      id := taskCount;
    }

    method NextTaskrunId() returns (id: nat)
      modifies this`taskrunCount
      ensures taskrunCount == old(taskrunCount) + 1 && id == taskrunCount
    {
      taskrunCount := taskrunCount + 1;
      id := taskrunCount;
    }

    function GetTask(id: Key): (r: Option<Entity>)
      reads this
      ensures r.Some? <==> id in taskStore
      ensures r.Some? ==> r.value == taskStore[id]
    {
      Lookup(taskStore, id)
    }

    function GetTaskBy(f: Filter): (r: Option<Entity>)
      reads this
      ensures r.None? <==> forall k :: k in taskStore ==> !Matches(taskStore[k], f)
      ensures r.Some? ==> r.value in taskStore.Values && Matches(r.value, f)
    {
      var r := GetBy(taskStore, f);
      assert r.None? ==> forall k :: k in taskStore ==> k !in MatchingKeys(taskStore, f);
      r
    }

    /** `yielded` selects a generator in the source; both produce the same elements. */
    function FilterTasksBy(yielded: bool, f: Filter): (r: seq<Entity>)
      reads this
      ensures |r| == |MatchingKeys(taskStore, f)|
      ensures forall e :: e in r <==> e in taskStore.Values && Matches(e, f)
      ensures f == map[] ==> |r| == |taskStore|
    {
      FilterBy(taskStore, f)
    }

    function CountTasksWith(f: Filter): (n: nat)
      reads this
      ensures n == |MatchingKeys(taskStore, f)|
    {
      |FilterTasksBy(false, f)|
    }

    function GetTaskRun(id: Key): (r: Option<Entity>)
      reads this
      ensures r.Some? <==> id in taskrunStore
      ensures r.Some? ==> r.value == taskrunStore[id]
    {
      Lookup(taskrunStore, id)
    }

    function GetTaskRunBy(f: Filter): (r: Option<Entity>)
      reads this
      ensures r.None? <==> forall k :: k in taskrunStore ==> !Matches(taskrunStore[k], f)
      ensures r.Some? ==> r.value in taskrunStore.Values && Matches(r.value, f)
    {
      var r := GetBy(taskrunStore, f);
      assert r.None? ==> forall k :: k in taskrunStore ==> k !in MatchingKeys(taskrunStore, f);
      r
    }

    function FilterTaskRunsBy(yielded: bool, f: Filter): (r: seq<Entity>)
      reads this
      ensures |r| == |MatchingKeys(taskrunStore, f)|
      ensures forall e :: e in r <==> e in taskrunStore.Values && Matches(e, f)
      ensures f == map[] ==> |r| == |taskrunStore|
    {
      FilterBy(taskrunStore, f)
    }

    function CountTaskRunsWith(f: Filter): (n: nat)
      reads this
      ensures n == |MatchingKeys(taskrunStore, f)|
    {
      |FilterTaskRunsBy(false, f)|
    }

    method Save(e: Entity) returns (r: Result<Entity>)
      requires Valid()
      modifies this
      ensures Valid()
      ensures r.Err? <==> e.kind != Task && e.kind != TaskRun
      ensures r.Err? ==> r.error == WrongObjectError(WrongObjectMessage(ClassName(e.kind), "saved", Name))
      ensures r.Err? ==> unchanged(this)
      ensures e.kind == Task ==>
                && r.Ok? && Saved(taskStore, taskCount, r.value) == Put(old(taskStore), old(taskCount), e)
                && taskrunStore == old(taskrunStore) && taskrunCount == old(taskrunCount)
      ensures e.kind == TaskRun ==>
                && r.Ok? && Saved(taskrunStore, taskrunCount, r.value) == Put(old(taskrunStore), old(taskrunCount), e)
                && taskStore == old(taskStore) && taskCount == old(taskCount)
    {
      var invalid := ValidateCanBe("saved", e);
      if invalid.Some? {
        return Err(invalid.value);
      }
      var saved := e;
      if e.kind == Task {
        ghost var put := Put(taskStore, taskCount, e);
        if Falsy(e.id) {
          var id := NextTaskId();
          saved := e.(id := Some(id));
        }
        assert saved == put.entity;
        taskStore := taskStore[saved.id := saved];
        assert taskStore == put.table;
      } else {
        ghost var put := Put(taskrunStore, taskrunCount, e);
        if Falsy(e.id) {
          var id := NextTaskrunId();
          saved := e.(id := Some(id));
        }
        assert saved == put.entity;
        taskrunStore := taskrunStore[saved.id := saved];
        assert taskrunStore == put.table;
      }
      r := Ok(saved);
    }

    /** `update` validates, then saves: an element without an id gets a fresh one. */
    method Update(e: Entity) returns (r: Result<Entity>)
      requires Valid()
      modifies this
      ensures Valid()
      ensures r.Err? <==> e.kind != Task && e.kind != TaskRun
      ensures r.Err? ==> r.error == WrongObjectError(WrongObjectMessage(ClassName(e.kind), "updated", Name))
      ensures r.Err? ==> unchanged(this)
      ensures e.kind == Task ==>
                && r.Ok? && Saved(taskStore, taskCount, r.value) == Put(old(taskStore), old(taskCount), e)
                && taskrunStore == old(taskrunStore) && taskrunCount == old(taskrunCount)
      ensures e.kind == TaskRun ==>
                && r.Ok? && Saved(taskrunStore, taskrunCount, r.value) == Put(old(taskrunStore), old(taskrunCount), e)
                && taskStore == old(taskStore) && taskCount == old(taskCount)
    {
      var invalid := ValidateCanBe("updated", e);
      if invalid.Some? {
        return Err(invalid.value);
      }
      r := Save(e);
    }

    method Delete(e: Entity) returns (r: Result<()>)
      requires Valid()
      modifies this`taskStore, this`taskrunStore
      ensures Valid()
      ensures var d := DeleteFrom(old(Stores(taskStore, taskrunStore)), e);
              && (r.Err? <==> d.Err?)
              && (d.Err? ==> r.error == d.error && unchanged(this))
              && (d.Ok? ==> Stores(taskStore, taskrunStore) == d.value)
      ensures r.Ok? && e.kind == Task ==> GetTask(e.id) == None
      ensures r.Ok? && e.kind == TaskRun ==> GetTaskRun(e.id) == None
    {
      var invalid := ValidateCanBe("deleted", e);
      if invalid.Some? {
        return Err(invalid.value);
      }
      if e.kind == Task {
        if e.id !in taskStore {
          return Err(KeyError(e.id));
        }
        taskStore := taskStore - {e.id};
      } else {
        if e.id !in taskrunStore {
          return Err(KeyError(e.id));
        }
        taskrunStore := taskrunStore - {e.id};
      }
      r := Ok(());
    }

    method DeleteAll(es: seq<Entity>) returns (r: Result<()>)
      requires Valid()
      modifies this`taskStore, this`taskrunStore
      ensures Valid()
      ensures var o := DeleteEach(old(Stores(taskStore, taskrunStore)), es);
              && Stores(taskStore, taskrunStore) == o.stores
              && (r.Err? <==> o.error.Some?)
              && (r.Err? ==> r.error == o.error.value)
    {
      var i := 0;
      while i < |es|
        invariant 0 <= i <= |es|
        invariant Valid()
        invariant DeleteEach(old(Stores(taskStore, taskrunStore)), es)
               == DeleteEach(Stores(taskStore, taskrunStore), es[i..])
      {
        assert es[i..][0] == es[i] && es[i..][1..] == es[i + 1..];
        var d := Delete(es[i]);
        if d.Err? {
          return Err(d.error);
        }
        i := i + 1;
      }
      r := Ok(());
    }

    /** The loop of `update_tasks_redundancy`: every task of the project, in
        filter order, gets `n_answers` and the state its run count derives. */
    method RedistributedTasks(project: Entity, nAnswers: int) returns (store: Table)
      requires Valid()
      ensures store == Redistributed(taskStore, taskrunStore, project, nAnswers)
      ensures WellKeyed(store, Task)
    {
      var tasks := FilterTasksBy(false, ProjectFilter(project));
      store := taskStore;
      var i := 0;
      while i < |tasks|
        invariant 0 <= i <= |tasks|
        invariant PartlyRedistributed(store, taskStore, taskrunStore, project, nAnswers, IdsUpTo(tasks, i))
      {
        var task := tasks[i];
        var taskruns := CountTaskRunsWith(RunsFilter(task));
        RedistributeAt(store, taskStore, taskrunStore, project, nAnswers, tasks, i);
        store := store[task.id := WithRedundancy(task, nAnswers, taskruns)];
        i := i + 1;
      }
      RedistributeFinished(store, taskStore, taskrunStore, project, nAnswers, tasks);
    }

    /** Sets `n_answers` on every task of the project and derives its state
        from the number of stored runs of that task. */
    method UpdateTasksRedundancy(project: Entity, nAnswers: int)
      requires Valid()
      modifies this`taskStore
      ensures Valid()
      ensures taskStore == Redistributed(old(taskStore), taskrunStore, project, nAnswers)
    {
      taskStore := RedistributedTasks(project, nAnswers);
    }
  }
}
