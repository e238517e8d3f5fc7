/**
 * The task store itself: the collection of tasks and the two UI flags, the
 * four mutations that change the collection in place, and the two flag
 * setters. Each mutation is specified by the function of TaskMutations that
 * gives the new collection from the old one. Writing the collection to the
 * cookie is the separate step Persist: in the store it is a reaction that runs
 * after the collection has changed, not part of any mutation.
 */
module TaskStore {
  import opened TaskTypes
  import opened TaskSeq
  import opened TaskMutations
  import opened TaskCookie

  class TaskStore {
    var tasks: seq<Task>
    var isLoading: bool
    var error: Option<string>
    /** The cookie slot the store mirrors its collection into. */
    var persisted: CookieValue

    /** The store starts from what its cookie holds, not loading and with no error. */
    constructor (stored: CookieValue)
      ensures tasks == LoadTasks(stored) && persisted == stored
      ensures !isLoading && error == None
    {
      tasks := LoadTasks(stored);
      isLoading := false;
      error := None;
      persisted := stored;
    }

    /**
     * The reaction that follows every change of the collection: the whole
     * collection is written to the cookie, so that a store started from it
     * later holds the same tasks.
     */
    method Persist()
      modifies this`persisted
      ensures persisted == SaveTasks(tasks)
      ensures LoadTasks(persisted) == tasks
    {
      LoadAfterSave(tasks);
      persisted := SaveTasks(tasks);
    }

    /**
     * `addTask`: appends a pending task with a fresh id (the caller's stand-in
     * for a random UUID) created at `now` (the caller's clock reading).
     */
    method AddTask(data: NewTaskData, freshId: string, now: int)
      requires freshId !in Ids(tasks)
      modifies this`tasks
      ensures tasks == Added(old(tasks), data, freshId, now)
      ensures UniqueIds(old(tasks)) ==> UniqueIds(tasks)
    {
      AddedTaskIsVisible(tasks, data, freshId, now);
      tasks := tasks + [NewTask(data, freshId, now)];
    }

    /** `updateTask`: merges the patch into the first task with its id, keeping that task's `createdAt`. */
    method UpdateTask(patch: TaskPatch)
      modifies this`tasks
      ensures tasks == Updated(old(tasks), patch)
      ensures patch.id !in Ids(old(tasks)) ==> tasks == old(tasks)
      ensures UniqueIds(old(tasks)) ==> UniqueIds(tasks)
    {
      UpdateKeepsIds(tasks, patch, patch.id);
      var index := FindIndex(tasks, patch.id);
      if index.Some? {
        var existing := tasks[index.value];
        tasks := tasks[index.value := Merge(existing, patch)];
      }
    }

    /** `deleteTask`: keeps every task whose id is not `taskId`. */
    method DeleteTask(taskId: string)
      modifies this`tasks
      ensures tasks == Deleted(old(tasks), taskId)
      ensures taskId !in Ids(old(tasks)) ==> tasks == old(tasks)
      ensures UniqueIds(old(tasks)) ==> UniqueIds(tasks)
    {
      if taskId !in Ids(tasks) {
        DeleteAbsentIsNoop(tasks, taskId);
      }
      if UniqueIds(tasks) {
        FilterKeepsIdsUnique(IdIsNot(taskId), tasks);
      }
      tasks := Filter(IdIsNot(taskId), tasks);
    }

    /** `updateTaskStatus`: overwrites the status of the first task with id `taskId`. */
    method UpdateTaskStatus(taskId: string, newStatus: TaskStatus)
      modifies this`tasks
      ensures tasks == StatusUpdated(old(tasks), taskId, newStatus)
      ensures taskId !in Ids(old(tasks)) ==> tasks == old(tasks)
      ensures UniqueIds(old(tasks)) ==> UniqueIds(tasks)
    {
      var patch := TaskPatch(taskId, None, None, None, Some(newStatus), None);
      StatusUpdateIsNarrowUpdate(tasks, taskId, newStatus);
      UpdateKeepsIds(tasks, patch, taskId);
      var index := FindIndex(tasks, taskId);
      if index.Some? {
        var task := tasks[index.value];
        tasks := tasks[index.value := task.(status := newStatus)];
      }
    }

    /** `setLoading`: sets the loading flag and nothing else. */
    method SetLoading(loadingState: bool)
      modifies this`isLoading
      ensures isLoading == loadingState
      ensures tasks == old(tasks) && error == old(error) && persisted == old(persisted)
    {
      isLoading := loadingState;
    }

    /** `setError`: sets the error message (`None` for `null`) and nothing else. */
    method SetError(errorMessage: Option<string>)
      modifies this`error
      ensures error == errorMessage
      ensures tasks == old(tasks) && isLoading == old(isLoading) && persisted == old(persisted)
    {
      error := errorMessage;
    }
  }
}
