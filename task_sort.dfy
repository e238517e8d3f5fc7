/**
 * The store sorts a copy of its collection with a comparator that subtracts
 * creation instants, newest first. JavaScript's sort is stable, so tasks
 * created at the same instant keep the order they had in the collection.
 */
module TaskSort {
  import opened TaskTypes
  import opened TaskSeq

  /** No task is followed by a newer one. */
  predicate NewestFirst(ts: seq<Task>) {
    forall i, j :: 0 <= i < j < |ts| ==> ts[i].createdAt >= ts[j].createdAt
  }

  /** The tasks created at instant `c`. */
  function CreatedAtIs(c: int): Task -> bool {
    (t: Task) => t.createdAt == c
  }

  /** A task no older than any of `ts` may head it. */
  lemma PrependNewestFirst(t: Task, ts: seq<Task>)
    requires NewestFirst(ts)
    requires forall u :: u in ts ==> u.createdAt <= t.createdAt
    ensures NewestFirst([t] + ts)
  {
  }

  /** A task no older than the head of a newest-first collection may go before it. */
  lemma PrependBeforeOlder(t: Task, ts: seq<Task>)
    requires NewestFirst(ts)
    requires ts == [] || t.createdAt >= ts[0].createdAt
    ensures NewestFirst([t] + ts)
  {
    forall u | u in ts
      ensures u.createdAt <= t.createdAt
    {
      var k :| 0 <= k < |ts| && ts[k] == u;
    }
    PrependNewestFirst(t, ts);
  }

  /** The head of a newest-first collection may go before the rest with an older task inserted. */
  lemma PrependAfterInsert(t: Task, ts: seq<Task>, rest: seq<Task>)
    requires NewestFirst(ts) && ts != [] && t.createdAt < ts[0].createdAt
    requires NewestFirst(rest) && multiset(rest) == multiset(ts[1..]) + multiset{t}
    ensures NewestFirst([ts[0]] + rest)
  {
    forall u | u in rest
      ensures u.createdAt <= ts[0].createdAt
    {
      assert u in multiset(rest);
      if u != t {
        var k :| 0 <= k < |ts[1..]| && ts[1..][k] == u;
        assert ts[k + 1] == u;
      }
    }
    PrependNewestFirst(ts[0], rest);
  }

  /** Puts `t` before the first task that is not newer than it. */
  function InsertNewestFirst(t: Task, ts: seq<Task>): (r: seq<Task>)
    ensures multiset(r) == multiset(ts) + multiset{t}
    ensures NewestFirst(ts) ==> NewestFirst(r)
  {
    if ts == [] || t.createdAt >= ts[0].createdAt then
      if NewestFirst(ts) then PrependBeforeOlder(t, ts); [t] + ts else [t] + ts
    else
      var rest := InsertNewestFirst(t, ts[1..]);
      assert ts == [ts[0]] + ts[1..];
      if NewestFirst(ts) then
        assert NewestFirst(ts[1..]);
        PrependAfterInsert(t, ts, rest);
        [ts[0]] + rest
      else
        [ts[0]] + rest
  }

  /** The tasks of `ts`, newest first, equal instants in their original order. */
  function SortByCreatedAtDesc(ts: seq<Task>): (r: seq<Task>)
    ensures multiset(r) == multiset(ts)
    ensures NewestFirst(r)
  {
    if ts == [] then []
    else
      assert ts == [ts[0]] + ts[1..];
      InsertNewestFirst(ts[0], SortByCreatedAtDesc(ts[1..]))
  }

  /** A task no older than every other goes to the front. */
  lemma InsertNewestAtFront(t: Task, ts: seq<Task>)
    requires forall u :: u in ts ==> u.createdAt <= t.createdAt
    ensures InsertNewestFirst(t, ts) == [t] + ts
  {
  }

  /** Inserting and then filtering is filtering and then inserting (when `t` passes). */
  lemma {:induction false} FilterInsert(p: Task -> bool, t: Task, ts: seq<Task>)
    requires NewestFirst(ts)
    ensures Filter(p, InsertNewestFirst(t, ts)) ==
            if p(t) then InsertNewestFirst(t, Filter(p, ts)) else Filter(p, ts)
  {
    if ts == [] || t.createdAt >= ts[0].createdAt {
      FilterCons(p, t, ts);
      if p(t) {
        forall u | u in Filter(p, ts)
          ensures u.createdAt <= t.createdAt
        {
          var k :| 0 <= k < |ts| && ts[k] == u;
        }
        InsertNewestAtFront(t, Filter(p, ts));
      }
    } else {
      var head, tail := ts[0], ts[1..];
      assert ts == [head] + tail;
      var rest := InsertNewestFirst(t, tail);
      assert InsertNewestFirst(t, ts) == [head] + rest;
      assert NewestFirst(tail);
      FilterInsert(p, t, tail);
      FilterCons(p, head, rest);
      FilterCons(p, head, tail);
      var f := Filter(p, tail);
      if p(head) {
        assert Filter(p, ts) == [head] + f;
        if p(t) {
          assert ([head] + f)[0] == head && ([head] + f)[1..] == f;
          assert InsertNewestFirst(t, [head] + f) == [head] + InsertNewestFirst(t, f);
        }
      } else {
        assert Filter(p, ts) == f;
      }
    }
  }

  /** Sorting a filtered collection is filtering the sorted collection. */
  lemma {:induction false} SortCommutesWithFilter(p: Task -> bool, ts: seq<Task>)
    ensures SortByCreatedAtDesc(Filter(p, ts)) == Filter(p, SortByCreatedAtDesc(ts))
  {
    if ts != [] {
      var head, tail := ts[0], ts[1..];
      assert ts == [head] + tail;
      var sortedTail := SortByCreatedAtDesc(tail);
      assert SortByCreatedAtDesc(ts) == InsertNewestFirst(head, sortedTail);
      SortCommutesWithFilter(p, tail);
      FilterInsert(p, head, sortedTail);
      FilterCons(p, head, tail);
      if p(head) {
        var f := [head] + Filter(p, tail);
        assert Filter(p, ts) == f;
        assert f[0] == head && f[1..] == Filter(p, tail);
        assert SortByCreatedAtDesc(f) == InsertNewestFirst(head, SortByCreatedAtDesc(Filter(p, tail)));
      } else {
        assert Filter(p, ts) == Filter(p, tail);
      }
    }
  }

  /** A collection that is already newest first is left as it is. */
  lemma {:induction false} SortKeepsNewestFirst(ts: seq<Task>)
    requires NewestFirst(ts)
    ensures SortByCreatedAtDesc(ts) == ts
  {
    if ts != [] {
      assert NewestFirst(ts[1..]);
      SortKeepsNewestFirst(ts[1..]);
      assert ts == [ts[0]] + ts[1..];
    }
  }

  /** Stability: the tasks of any one instant appear in the sorted copy in their original order. */
  lemma SortIsStable(ts: seq<Task>, c: int)
    ensures Filter(CreatedAtIs(c), SortByCreatedAtDesc(ts)) == Filter(CreatedAtIs(c), ts)
  {
    var same := Filter(CreatedAtIs(c), ts);
    SortCommutesWithFilter(CreatedAtIs(c), ts);
    forall i, j | 0 <= i < j < |same|
      ensures same[i].createdAt >= same[j].createdAt
    {
      assert same[i] in same && same[j] in same;
    }
    SortKeepsNewestFirst(same);
  }

  /** A task strictly newer than all others comes first in the sorted copy. */
  lemma NewestTaskSortsFirst(ts: seq<Task>, t: Task)
    requires forall u :: u in ts ==> u.createdAt < t.createdAt
    ensures SortByCreatedAtDesc(ts + [t])[0] == t
  {
    var r := SortByCreatedAtDesc(ts + [t]);
    assert t in multiset(ts + [t]);
    assert t in r;
    var k :| 0 <= k < |r| && r[k] == t;
    assert r[0] in multiset(ts + [t]);
  }
}
