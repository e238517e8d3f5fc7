/**
 * What each of the store's four mutations does to the collection, as
 * functions from the old collection to the new one, and the properties the
 * store relies on: unknown ids change nothing, `id` and `createdAt` survive
 * updates, only the target task changes, ids stay unique.
 */
module TaskMutations {
  import opened TaskTypes
  import opened TaskSeq
  import opened TaskSort
  import opened TaskViews

  /** The payload of `addTask`: a task without id, status and creation instant. */
  datatype NewTaskData = NewTaskData(title: string, description: string, dueDate: string)

  /**
   * The payload of `updateTask`: the id of the task and any subset of the
   * other fields (`None` for a field the payload does not carry). A payload
   * may also carry a `createdAt`, which the update ignores.
   */
  datatype TaskPatch = TaskPatch(
    id: string,
    title: Option<string>,
    description: Option<string>,
    dueDate: Option<string>,
    status: Option<TaskStatus>,
    createdAt: Option<int>)

  /** The task `addTask` builds: pending, with the fresh id and the current instant. */
  function NewTask(data: NewTaskData, freshId: string, now: int): Task {
    Task(freshId, data.title, data.description, data.dueDate, Pending, now)
  }

  /** The collection after `addTask`: the new task appended last. */
  function Added(ts: seq<Task>, data: NewTaskData, freshId: string, now: int): seq<Task> {
    ts + [NewTask(data, freshId, now)]
  }

  /** With a fresh id, adding keeps ids unique and the new task is found by its id and listed as pending. */
  lemma AddedTaskIsVisible(ts: seq<Task>, data: NewTaskData, freshId: string, now: int)
    requires freshId !in Ids(ts)
    ensures UniqueIds(ts) ==> UniqueIds(Added(ts, data, freshId, now))
    ensures GetTaskById(Added(ts, data, freshId, now), freshId) == Some(NewTask(data, freshId, now))
    ensures NewTask(data, freshId, now) in PendingTasks(Added(ts, data, freshId, now))
  {
  }

  /** A task added at an instant later than every existing task heads the newest-first view. */
  lemma AddedTaskSortsFirst(ts: seq<Task>, data: NewTaskData, freshId: string, now: int)
    requires forall u :: u in ts ==> u.createdAt < now
    ensures SortByCreatedAtDesc(Added(ts, data, freshId, now))[0] == NewTask(data, freshId, now)
  {
    NewestTaskSortsFirst(ts, NewTask(data, freshId, now));
  }

  /**
   * The task spread with the patch spread over it: the fields the patch
   * carries replace the task's, the others are kept, and the creation
   * instant is set back to the task's own. The patch's id is the task's,
   * since the task was found by it.
   */
  function Merge(t: Task, p: TaskPatch): (m: Task)
    requires p.id == t.id
    ensures m.id == t.id && m.createdAt == t.createdAt
    ensures p.title.Some? ==> m.title == p.title.value
    ensures p.title.None? ==> m.title == t.title
    ensures p.description.Some? ==> m.description == p.description.value
    ensures p.description.None? ==> m.description == t.description
    ensures p.dueDate.Some? ==> m.dueDate == p.dueDate.value
    ensures p.dueDate.None? ==> m.dueDate == t.dueDate
    ensures p.status.Some? ==> m.status == p.status.value
    ensures p.status.None? ==> m.status == t.status
  {
    Task(
      p.id,
      if p.title.Some? then p.title.value else t.title,
      if p.description.Some? then p.description.value else t.description,
      if p.dueDate.Some? then p.dueDate.value else t.dueDate,
      if p.status.Some? then p.status.value else t.status,
      t.createdAt)
  }

  /**
   * The collection after `updateTask(p)`: the first task with `p.id` is
   * replaced by its merge with `p`; nothing else changes, and an unknown id
   * changes nothing at all.
   */
  function Updated(ts: seq<Task>, p: TaskPatch): (r: seq<Task>)
    ensures |r| == |ts|
    ensures forall i :: 0 <= i < |ts| ==> r[i].id == ts[i].id && r[i].createdAt == ts[i].createdAt
    ensures p.id !in Ids(ts) ==> r == ts
    ensures p.id in Ids(ts) ==>
              var k := FindIndex(ts, p.id).value;
              r[k] == Merge(ts[k], p) && forall j :: 0 <= j < |ts| && j != k ==> r[j] == ts[j]
  {
    match FindIndex(ts, p.id)
    case None => ts
    case Some(k) => ts[k := Merge(ts[k], p)]
  }

  /** Updating keeps the ids, so it keeps them unique and leaves every `findIndex` answer as it was. */
  lemma UpdateKeepsIds(ts: seq<Task>, p: TaskPatch, id: string)
    ensures Ids(Updated(ts, p)) == Ids(ts)
    ensures UniqueIds(ts) ==> UniqueIds(Updated(ts, p))
    ensures FindIndex(Updated(ts, p), id) == FindIndex(ts, id)
  {
    var r := Updated(ts, p);
    forall x
      ensures x in Ids(r) <==> x in Ids(ts)
    {
      if x in Ids(r) {
        var t :| t in r && t.id == x;
        var i :| 0 <= i < |r| && r[i] == t;
        assert ts[i] in ts;
      }
      if x in Ids(ts) {
        var t :| t in ts && t.id == x;
        var i :| 0 <= i < |ts| && ts[i] == t;
        assert r[i] in r;
      }
    }
    FindIndexOnlyReadsIds(r, ts, id);
  }

  /** Applying the same update twice is applying it once. */
  lemma UpdateIsIdempotent(ts: seq<Task>, p: TaskPatch)
    ensures Updated(Updated(ts, p), p) == Updated(ts, p)
  {
  }

  /** After an update, `getTaskById` of the patched id gives the merged task. */
  lemma UpdateThenGet(ts: seq<Task>, p: TaskPatch)
    ensures p.id !in Ids(ts) ==> GetTaskById(Updated(ts, p), p.id) == None
    ensures p.id in Ids(ts) ==>
              GetTaskById(Updated(ts, p), p.id) == Some(Merge(GetTaskById(ts, p.id).value, p))
  {
  }

  /** The tasks whose id is not `id`. */
  function IdIsNot(id: string): Task -> bool {
    (t: Task) => t.id != id
  }

  /**
   * The collection after `deleteTask(id)`: every task with that id is gone,
   * every other task is kept, in its original order.
   */
  function Deleted(ts: seq<Task>, id: string): (r: seq<Task>)
    ensures forall t :: t in r <==> t in ts && t.id != id
    ensures forall t :: multiset(r)[t] == if t.id != id then multiset(ts)[t] else 0
    ensures id !in Ids(r)
    ensures GetTaskById(r, id) == None
  {
    FilterCounts(IdIsNot(id), ts);
    Filter(IdIsNot(id), ts)
  }

  /** Deleting from a concatenation deletes from each part, so the kept tasks stay in their order. */
  lemma DeleteKeepsOrder(a: seq<Task>, b: seq<Task>, id: string)
    ensures Deleted(a + b, id) == Deleted(a, id) + Deleted(b, id)
  {
    FilterAppend(IdIsNot(id), a, b);
  }

  /** Deleting an id that is not there changes nothing. */
  lemma DeleteAbsentIsNoop(ts: seq<Task>, id: string)
    requires id !in Ids(ts)
    ensures Deleted(ts, id) == ts
  {
    FilterKeepsAll(IdIsNot(id), ts);
  }

  /** Deleting twice is deleting once. */
  lemma DeleteIsIdempotent(ts: seq<Task>, id: string)
    ensures Deleted(Deleted(ts, id), id) == Deleted(ts, id)
  {
    DeleteAbsentIsNoop(Deleted(ts, id), id);
  }

  /** Deleting keeps ids unique; with unique ids it removes exactly the one position holding the id. */
  lemma DeleteRemovesOnePosition(ts: seq<Task>, id: string, k: nat)
    requires UniqueIds(ts)
    requires k < |ts| && ts[k].id == id
    ensures UniqueIds(Deleted(ts, id))
    ensures Deleted(ts, id) == ts[..k] + ts[k + 1..]
  {
    FilterKeepsIdsUnique(IdIsNot(id), ts);
    var before, after := ts[..k], ts[k + 1..];
    assert ts == before + ([ts[k]] + after);
    forall i | 0 <= i < |before|
      ensures IdIsNot(id)(before[i])
    {
      assert before[i] == ts[i];
    }
    forall i | 0 <= i < |after|
      ensures IdIsNot(id)(after[i])
    {
      assert after[i] == ts[k + 1 + i];
    }
    FilterKeepsAll(IdIsNot(id), before);
    FilterKeepsAll(IdIsNot(id), after);
    FilterCons(IdIsNot(id), ts[k], after);
    assert Filter(IdIsNot(id), [ts[k]] + after) == after;
    FilterAppend(IdIsNot(id), before, [ts[k]] + after);
  }

  /**
   * The collection after `updateTaskStatus(id, s)`: the first task with that
   * id gets status `s`; its other fields and every other task are unchanged,
   * and an unknown id changes nothing.
   */
  function StatusUpdated(ts: seq<Task>, id: string, s: TaskStatus): (r: seq<Task>)
    ensures |r| == |ts|
    ensures forall i :: 0 <= i < |ts| ==> r[i].(status := ts[i].status) == ts[i]
    ensures id !in Ids(ts) ==> r == ts
    ensures id in Ids(ts) ==>
              var k := FindIndex(ts, id).value;
              r[k].status == s && forall j :: 0 <= j < |ts| && j != k ==> r[j] == ts[j]
  {
    match FindIndex(ts, id)
    case None => ts
    case Some(k) => ts[k := ts[k].(status := s)]
  }

  /** Setting a status is the update whose payload carries only that status. */
  lemma StatusUpdateIsNarrowUpdate(ts: seq<Task>, id: string, s: TaskStatus)
    ensures StatusUpdated(ts, id, s) == Updated(ts, TaskPatch(id, None, None, None, Some(s), None))
  {
  }

  /**
   * With unique ids, setting the status of a present task moves it into the
   * list of its new status and out of every other list.
   */
  lemma StatusUpdateMovesTask(ts: seq<Task>, id: string, s: TaskStatus, other: TaskStatus)
    requires UniqueIds(ts) && id in Ids(ts)
    requires other != s
    ensures GetTaskById(StatusUpdated(ts, id, s), id) == Some(GetTaskById(ts, id).value.(status := s))
    ensures GetTaskById(ts, id).value.(status := s) in Filter(StatusIs(s), StatusUpdated(ts, id, s))
    ensures id !in Ids(Filter(StatusIs(other), StatusUpdated(ts, id, s)))
  {
  }
}
