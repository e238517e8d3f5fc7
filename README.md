# Taskmaster task store, modelled in Dafny

Taskmaster is a browser task tracker. Its one piece of real logic is the task
store (`src/stores/task.store.ts`). The store holds the list of tasks, a loading
flag and an error message. It offers four mutations: add, update, delete and set
status. It also offers computed views of the list: all tasks newest first, one
status newest first, the three fixed status lists, and lookup by id. At start-up
it reads the list from a cookie, and after each change it writes the list back.
A task (`src/types/Task.ts`) has an id, a title, a description, a due date (a
plain string), one of three statuses, and a creation instant.

The model is organised by the program's own structure:

- `task_types.dfy` (`TaskTypes`): the `Task` record and the three-valued
  `TaskStatus`. The status literals are modelled with their parser.
- `task_seq.dfy` (`TaskSeq`): the array operations the store uses. These are
  filter, findIndex and find by id, plus the id set of a collection and id uniqueness.
- `task_sort.dfy` (`TaskSort`): the store's sort. It sorts a copy, newest
  first, and is stable because JavaScript's sort is stable. It is proved to be a
  permutation, newest first, stable, and to commute with filtering.
- `task_views.dfy` (`TaskViews`): the computed views and the partition of the
  collection by the three fixed status lists.
- `task_mutations.dfy` (`TaskMutations`): each mutation as a function from the
  old collection to the new one, with its frame properties and lemmas.
- `task_cookie.dfy` (`TaskCookie`): the start-up decision
  (missing / not an array / array), the rehydration of each entry, the stored
  form written back, and both round trips.
- `task_store.dfy` (`TaskStore`): the store as a class. It has the fields
  `tasks`, `isLoading`, `error` and `persisted`. Its methods change those fields
  in place, and each is proved to produce the collection its `TaskMutations`
  function gives.

The random id and the clock reading of `addTask` are parameters of `AddTask`.
The id must not already be in the collection, which is how the store treats a
random UUID.

Points where the code's behaviour is easy to misread, and which the model follows:

- The newest-first view uses JavaScript's sort, which is stable, so tasks
  created at the same instant keep their collection order. The model's sort is
  stable and `SortIsStable` proves it.
- Entries read from the cookie are not validated. The code only checks that the
  value is present and is an array, then maps every entry. The model does the same.
- A new task is first in the newest-first view only when its instant is strictly
  later than every other task's (`AddedTaskSortsFirst`). With a tie, the stable
  sort keeps the older entry first.
- Ids stay unique only if the cookie's ids were unique. Every mutation preserves
  uniqueness (the `UniqueIds` postconditions), given a fresh id for `addTask`.

## Model

| member | source | states |
|---|---|---|
| `TaskTypes.ParseStatus` | src/types/Task.ts:2 | a text is a status only if it is one of the literals "pending", "in-progress", "completed", and the status read gives that literal back |
| `TaskTypes.StatusLiterals` | src/types/Task.ts:2 | for every status and text, reading the text gives that status exactly when the text is that status's literal (the union has exactly three distinct values) |
| `TaskSeq.Filter` | src/stores/task.store.ts:43-44 | the filtered collection holds exactly the tasks of the input that pass the predicate, and is no longer than the input |
| `TaskSeq.FilterCounts` | src/stores/task.store.ts:43-44 | every task that passes occurs in the filtered collection as often as in the input, and every task that fails occurs zero times |
| `TaskSeq.FilterAppend` | src/stores/task.store.ts:43-44 | filtering a concatenation is the concatenation of the filtered parts, so filtering keeps the input's order |
| `TaskSeq.FilterKeepsIdsUnique` | src/stores/task.store.ts:89 | filtering a collection with unique ids leaves the ids unique |
| `TaskSeq.FindIndex` | src/stores/task.store.ts:77 | not found exactly when no task has the id; otherwise the index is in range, holds the id, and no earlier index does |
| `TaskSeq.FindIndexOnlyReadsIds` | src/stores/task.store.ts:77 | two collections with the same id at every position give the same findIndex answer |
| `TaskSeq.GetTaskById` | src/stores/task.store.ts:60-62 | not found exactly when no task has the id; otherwise the result is a task of the collection with that id |
| `TaskSeq.GetTaskByIdIsFirstMatch` | src/stores/task.store.ts:93 | find by id returns the task at the first index findIndex reports, and not found when findIndex finds nothing |
| `TaskSort.InsertNewestFirst` | src/stores/task.store.ts:39 | inserting adds exactly one occurrence of the task and keeps a newest-first collection newest first |
| `TaskSort.SortByCreatedAtDesc` | src/stores/task.store.ts:38-40 | the sorted copy is a permutation of the collection (same multiset) with non-increasing `createdAt` |
| `TaskSort.SortIsStable` | src/stores/task.store.ts:39 | for every instant, the tasks created at it appear in the sorted copy in their original order |
| `TaskSort.SortKeepsNewestFirst` | src/stores/task.store.ts:39 | a collection already newest first is sorted to itself |
| `TaskSort.FilterInsert` | src/stores/task.store.ts:43-45 | filtering after inserting into a newest-first collection equals inserting into the filtered collection (or just filtering, when the task is filtered out) |
| `TaskSort.SortCommutesWithFilter` | src/stores/task.store.ts:43-45 | sorting the filtered collection gives the same sequence as filtering the sorted collection |
| `TaskSort.NewestTaskSortsFirst` | src/stores/task.store.ts:38-40 | a task strictly newer than all others heads the sorted copy |
| `TaskViews.TasksByStatus` | src/stores/task.store.ts:42-46 | the view holds exactly the tasks of that status, as often as the collection does, newest first |
| `TaskViews.TasksByStatusFiltersSortedView` | src/stores/task.store.ts:42-46 | the status view equals the all-tasks newest-first view with the other statuses removed |
| `TaskViews.PendingTasks` | src/stores/task.store.ts:48-50 | the list holds exactly the pending tasks of the collection |
| `TaskViews.InProgressTasks` | src/stores/task.store.ts:52-54 | the list holds exactly the in-progress tasks of the collection |
| `TaskViews.CompletedTasks` | src/stores/task.store.ts:56-58 | the list holds exactly the completed tasks of the collection |
| `TaskViews.StatusListKeepsInsertionOrder` | src/stores/task.store.ts:48-58 | a status list of a collection extended at the end is the old list followed by the new tasks of that status (insertion order, unsorted) |
| `TaskViews.StatusListsCoverCollection` | src/stores/task.store.ts:48-58 | the multisets of the three fixed lists add up to the multiset of the collection |
| `TaskViews.StatusListsPartitionIds` | src/stores/task.store.ts:48-58 | the ids of the three lists together are the collection's ids, and with unique ids the three id sets are pairwise disjoint |
| `TaskMutations.AddedTaskIsVisible` | src/stores/task.store.ts:64-74 | adding with a fresh id keeps ids unique; lookup by the new id returns the new pending task, which is in the pending list |
| `TaskMutations.AddedTaskSortsFirst` | src/stores/task.store.ts:64-74 | a task added at an instant later than every existing task is first in the newest-first view |
| `TaskMutations.Merge` | src/stores/task.store.ts:79-84 | the merged task keeps the task's id and `createdAt` whatever the payload carries; each other field is the payload's when present and the task's when absent |
| `TaskMutations.Updated` | src/stores/task.store.ts:76-86 | length kept; every index keeps its id and `createdAt`; an unknown id leaves the collection unchanged; otherwise only the first index with the id changes, to the merged task |
| `TaskMutations.UpdateKeepsIds` | src/stores/task.store.ts:76-86 | an update leaves the id set and every findIndex answer unchanged and keeps unique ids unique |
| `TaskMutations.UpdateIsIdempotent` | src/stores/task.store.ts:76-86 | applying the same update twice equals applying it once |
| `TaskMutations.UpdateThenGet` | src/stores/task.store.ts:76-86 | after an update, lookup by the payload's id gives the old task merged with the payload, or not found if the id was absent |
| `TaskMutations.Deleted` | src/stores/task.store.ts:88-90 | the result holds exactly the tasks whose id differs, each as often as in the collection; the id is gone, and lookup by it is not found |
| `TaskMutations.DeleteKeepsOrder` | src/stores/task.store.ts:88-90 | deleting from a concatenation is the concatenation of the deletions from each part, so the kept tasks stay in their order |
| `TaskMutations.DeleteAbsentIsNoop` | src/stores/task.store.ts:88-90 | deleting an absent id leaves the collection unchanged |
| `TaskMutations.DeleteIsIdempotent` | src/stores/task.store.ts:88-90 | deleting twice equals deleting once |
| `TaskMutations.DeleteRemovesOnePosition` | src/stores/task.store.ts:88-90 | with unique ids, deleting the id at index k gives the collection without index k, others in their original order, ids still unique |
| `TaskMutations.StatusUpdated` | src/stores/task.store.ts:92-97 | length kept; every task is unchanged except possibly its status; an unknown id changes nothing; otherwise the first task with the id gets the new status and every other index is untouched |
| `TaskMutations.StatusUpdateIsNarrowUpdate` | src/stores/task.store.ts:92-97 | setting a status equals the update whose payload carries only that status |
| `TaskMutations.StatusUpdateMovesTask` | src/stores/task.store.ts:92-97 | with unique ids, after setting status s the task is found with status s, is in the list of s, and its id is in no other status list |
| `TaskCookie.RehydrateAll` | src/stores/task.store.ts:15-18 | one task per stored entry, entry i rehydrated to task i |
| `TaskCookie.LoadTasks` | src/stores/task.store.ts:12-21 | a missing or non-array value gives the empty collection; an array gives one task per entry, task i being entry i rehydrated |
| `TaskCookie.SerialiseAll` | src/stores/task.store.ts:30 | the stored form has one entry per task, entry i being task i serialised |
| `TaskCookie.LoadAfterSave` | src/stores/task.store.ts:27-36 | loading what was saved gives back the same collection, field for field |
| `TaskCookie.SaveAfterLoad` | src/stores/task.store.ts:12-21 | saving what was loaded from an array gives back the same stored array |
| `TaskStore.TaskStore.constructor` | src/stores/task.store.ts:23-25 | the collection is what the cookie loads to; not loading; no error |
| `TaskStore.TaskStore.Persist` | src/stores/task.store.ts:27-36 | the cookie holds the stored form of the collection, and loading it gives the collection back |
| `TaskStore.TaskStore.AddTask` | src/stores/task.store.ts:64-74 | the collection becomes `Added(old, data, freshId, now)`, the old one plus the new pending task with the fresh id and current instant; unique ids stay unique |
| `TaskStore.TaskStore.UpdateTask` | src/stores/task.store.ts:76-86 | the collection becomes `Updated(old, patch)`; unknown id: unchanged; unique ids stay unique |
| `TaskStore.TaskStore.DeleteTask` | src/stores/task.store.ts:88-90 | the collection becomes `Deleted(old, id)`; unknown id: unchanged; unique ids stay unique |
| `TaskStore.TaskStore.UpdateTaskStatus` | src/stores/task.store.ts:92-97 | the collection becomes `StatusUpdated(old, id, s)`; unknown id: unchanged; unique ids stay unique |
| `TaskStore.TaskStore.SetLoading` | src/stores/task.store.ts:99-101 | the loading flag becomes the argument; collection, error and cookie unchanged |
| `TaskStore.TaskStore.SetError` | src/stores/task.store.ts:103-105 | the error becomes the argument (`None` for null); collection, flag and cookie unchanged |

## Left out

- TaskSeq.Filter: its own contract gives membership and a length bound only. The count of each kept task is `FilterCounts` and the order is `FilterAppend`, as separate lemmas, because the counting fact in the function's own contract makes the solver too slow on the other proofs about filtering.
- Cookie input and output are not modelled. This covers the cookie library, the slot name `taskmaster-tasks`, and the path and same-site options. Only the shape of the value read and written is modelled.
- The deep watch that persists the collection is a reactive, asynchronous callback. It is modelled as the separate `Persist` step. The model does not schedule it after each mutation.
- The random UUID and the clock reading are foreign calls. They become the `freshId` and `now` parameters of `AddTask`, with freshness as its precondition.
- Entries of the stored array are not validated by the store. The model gives each entry the task shape. An entry with an unknown status or an unreadable creation date (an Invalid Date) is not modelled.
- Dates are converted to and from ISO text when stored. That conversion is not modelled: a stored creation date is its millisecond value.
- The comparator with a non-numeric time (an Invalid Date) is not modelled. All instants are integers.
- Object identity is not modelled. `getTaskById` returns a reference that callers could mutate. `updateTaskStatus` writes the found object in place, while `updateTask` replaces the array slot. Tasks are values in the model, so aliasing between these is not captured.
- A payload property set explicitly to `undefined` is not modelled. In the source it overwrites the field with `undefined`. A payload field is modelled as present (`Some`) or absent (`None`).
- Pinia, Vue refs and computed properties are framework plumbing. The store is a plain class and the views are functions of its collection.
- The status filter and title sort of the task list component are not modelled. That component is not part of this model, and neither are the Storybook stories or the form's required-field validation.
