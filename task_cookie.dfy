/**
 * The decision the store makes when it reads its cookie at start-up, and the
 * shape it writes back: the stored value is either missing (or falsy), some
 * value that is not an array, or an array of stored task records whose
 * `createdAt` is serialised and is turned back into an instant on load.
 */
module TaskCookie {
  import opened TaskTypes

  /**
   * A task as the cookie holds it: the same fields, with the creation
   * instant in its serialised form (its millisecond time value).
   */
  datatype StoredTask = StoredTask(
    id: string,
    title: string,
    description: string,
    dueDate: string,
    status: TaskStatus,
    createdAt: int)

  /** What reading the cookie can give. */
  datatype CookieValue = Missing | NotAnArray | TaskArray(entries: seq<StoredTask>)

  /** A stored entry with its serialised creation instant turned back into an instant. */
  function Rehydrate(e: StoredTask): Task {
    Task(e.id, e.title, e.description, e.dueDate, e.status, e.createdAt)
  }

  /** The stored form of a task, as the cookie writer serialises it. */
  function Serialise(t: Task): StoredTask {
    StoredTask(t.id, t.title, t.description, t.dueDate, t.status, t.createdAt)
  }

  /** One task per stored entry, in order. */
  function RehydrateAll(es: seq<StoredTask>): (r: seq<Task>)
    ensures |r| == |es|
    ensures forall i :: 0 <= i < |es| ==> r[i] == Rehydrate(es[i])
  {
    if es == [] then [] else [Rehydrate(es[0])] + RehydrateAll(es[1..])
  }

  /** The stored form of a whole collection, in order. */
  function SerialiseAll(ts: seq<Task>): (r: seq<StoredTask>)
    ensures |r| == |ts|
    ensures forall i :: 0 <= i < |ts| ==> r[i] == Serialise(ts[i])
  {
    if ts == [] then [] else [Serialise(ts[0])] + SerialiseAll(ts[1..])
  }

  /**
   * `getTasksFromCookie`: the empty collection unless the cookie holds an
   * array, and then one task per stored entry.
   */
  function LoadTasks(c: CookieValue): (r: seq<Task>)
    ensures !c.TaskArray? ==> r == []
    ensures c.TaskArray? ==> |r| == |c.entries|
    ensures c.TaskArray? ==> forall i :: 0 <= i < |r| ==> r[i] == Rehydrate(c.entries[i])
  {
    match c
    case TaskArray(es) => RehydrateAll(es)
    case _ => []
  }

  /** What the store writes to the cookie after a mutation: the whole collection. */
  function SaveTasks(ts: seq<Task>): CookieValue {
    TaskArray(SerialiseAll(ts))
  }

  /**
   * Reading back what was written gives the same collection, field for field.
   * With the creation instant stored as its millisecond value (the ISO text
   * form is not modelled), this holds by construction of the two field copies.
   */
  lemma LoadAfterSave(ts: seq<Task>)
    ensures LoadTasks(SaveTasks(ts)) == ts
  {
  }

  /**
   * Writing back what was read from an array gives the same stored value; as
   * above, this holds by construction under the millisecond-value abstraction.
   */
  lemma SaveAfterLoad(es: seq<StoredTask>)
    ensures SaveTasks(LoadTasks(TaskArray(es))) == TaskArray(es)
  {
  }
}
