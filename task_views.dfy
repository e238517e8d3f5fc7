/**
 * The store's computed views over its collection: the whole collection
 * newest first, one status newest first, and the three fixed status lists,
 * which keep insertion order.
 */
module TaskViews {
  import opened TaskTypes
  import opened TaskSeq
  import opened TaskSort

  /** The tasks whose status is `s`. */
  function StatusIs(s: TaskStatus): Task -> bool {
    (t: Task) => t.status == s
  }

  /** `tasksByStatus(s)`: the tasks of status `s`, newest first. */
  function TasksByStatus(ts: seq<Task>, s: TaskStatus): (r: seq<Task>)
    ensures forall t :: t in r <==> t in ts && t.status == s
    ensures multiset(r) == multiset(Filter(StatusIs(s), ts))
    ensures NewestFirst(r)
  {
    var f := Filter(StatusIs(s), ts);
    var r := SortByCreatedAtDesc(f);
    assert forall t :: t in r <==> t in multiset(r);
    assert forall t :: t in f <==> t in multiset(f);
    r
  }

  /** The status view is the newest-first view with the other statuses taken out. */
  lemma TasksByStatusFiltersSortedView(ts: seq<Task>, s: TaskStatus)
    ensures TasksByStatus(ts, s) == Filter(StatusIs(s), SortByCreatedAtDesc(ts))
  {
    SortCommutesWithFilter(StatusIs(s), ts);
  }

  /** `pendingTasks`: the pending tasks, in insertion order. */
  function PendingTasks(ts: seq<Task>): (r: seq<Task>)
    ensures forall t :: t in r <==> t in ts && t.status == Pending
  {
    Filter(StatusIs(Pending), ts)
  }

  /** `inProgressTasks`: the in-progress tasks, in insertion order. */
  function InProgressTasks(ts: seq<Task>): (r: seq<Task>)
    ensures forall t :: t in r <==> t in ts && t.status == InProgress
  {
    Filter(StatusIs(InProgress), ts)
  }

  /** `completedTasks`: the completed tasks, in insertion order. */
  function CompletedTasks(ts: seq<Task>): (r: seq<Task>)
    ensures forall t :: t in r <==> t in ts && t.status == Completed
  {
    Filter(StatusIs(Completed), ts)
  }

  /** A status list of a longer collection is the old list followed by the new tasks of that status. */
  lemma StatusListKeepsInsertionOrder(ts: seq<Task>, more: seq<Task>, s: TaskStatus)
    ensures Filter(StatusIs(s), ts + more) == Filter(StatusIs(s), ts) + Filter(StatusIs(s), more)
  {
    FilterAppend(StatusIs(s), ts, more);
  }

  /** Every task of the collection is in exactly one of the three fixed lists, as often as in the collection. */
  lemma {:induction false} StatusListsCoverCollection(ts: seq<Task>)
    ensures multiset(ts) ==
            multiset(PendingTasks(ts)) + multiset(InProgressTasks(ts)) + multiset(CompletedTasks(ts))
  {
    if ts != [] {
      var head, tail := ts[0], ts[1..];
      assert ts == [head] + tail;
      StatusListsCoverCollection(tail);
      FilterCons(StatusIs(Pending), head, tail);
      FilterCons(StatusIs(InProgress), head, tail);
      FilterCons(StatusIs(Completed), head, tail);
      assert multiset(ts) == multiset{head} + multiset(tail);
      match head.status
      case Pending =>
        assert PendingTasks(ts) == [head] + PendingTasks(tail);
        assert InProgressTasks(ts) == InProgressTasks(tail);
        assert CompletedTasks(ts) == CompletedTasks(tail);
      case InProgress =>
        assert PendingTasks(ts) == PendingTasks(tail);
        assert InProgressTasks(ts) == [head] + InProgressTasks(tail);
        assert CompletedTasks(ts) == CompletedTasks(tail);
      case Completed =>
        assert PendingTasks(ts) == PendingTasks(tail);
        assert InProgressTasks(ts) == InProgressTasks(tail);
        assert CompletedTasks(ts) == [head] + CompletedTasks(tail);
    }
  }

  /**
   * The three fixed lists partition the collection's ids: together they hold
   * every id, and when ids are unique no id is in two of them.
   */
  lemma StatusListsPartitionIds(ts: seq<Task>)
    ensures Ids(ts) == Ids(PendingTasks(ts)) + Ids(InProgressTasks(ts)) + Ids(CompletedTasks(ts))
    ensures UniqueIds(ts) ==> Ids(PendingTasks(ts)) !! Ids(InProgressTasks(ts))
    ensures UniqueIds(ts) ==> Ids(PendingTasks(ts)) !! Ids(CompletedTasks(ts))
    ensures UniqueIds(ts) ==> Ids(InProgressTasks(ts)) !! Ids(CompletedTasks(ts))
  {
  }
}
