/**
 * The sequence operations the store builds on: the ids of a collection,
 * `filter`, `findIndex` and `find` by id.
 */
module TaskSeq {
  import opened TaskTypes

  /** The ids that occur in `ts`. */
  function Ids(ts: seq<Task>): set<string> {
    set t | t in ts :: t.id
  }

  /** No two positions of `ts` hold the same id. */
  predicate UniqueIds(ts: seq<Task>) {
    forall i, j :: 0 <= i < j < |ts| ==> ts[i].id != ts[j].id
  }

  /** `Array.prototype.filter`: the tasks satisfying `p`, in their original order. */
  function Filter(p: Task -> bool, ts: seq<Task>): (r: seq<Task>)
    ensures |r| <= |ts|
    ensures forall t :: t in r <==> t in ts && p(t)
  {
    if ts == [] then []
    else (if p(ts[0]) then [ts[0]] else []) + Filter(p, ts[1..])
  }

  /** Filtering a sequence with a first task decides that task and filters the rest. */
  lemma FilterCons(p: Task -> bool, t: Task, ts: seq<Task>)
    ensures Filter(p, [t] + ts) == (if p(t) then [t] else []) + Filter(p, ts)
  {
  }

  /** A task that passes is kept as often as it occurs; one that fails is dropped every time. */
  lemma {:induction false} FilterCounts(p: Task -> bool, ts: seq<Task>)
    ensures forall t :: multiset(Filter(p, ts))[t] == if p(t) then multiset(ts)[t] else 0
  {
    if ts != [] {
      assert ts == [ts[0]] + ts[1..];
      FilterCons(p, ts[0], ts[1..]);
      FilterCounts(p, ts[1..]);
    }
  }

  /** Filtering a concatenation filters each part. */
  lemma {:induction false} FilterAppend(p: Task -> bool, a: seq<Task>, b: seq<Task>)
    ensures Filter(p, a + b) == Filter(p, a) + Filter(p, b)
  {
    if a == [] {
      assert a + b == b;
    } else {
      assert (a + b)[1..] == a[1..] + b;
      FilterAppend(p, a[1..], b);
    }
  }

  /** A filter that every task passes keeps the whole sequence. */
  lemma {:induction false} FilterKeepsAll(p: Task -> bool, ts: seq<Task>)
    requires forall t :: t in ts ==> p(t)
    ensures Filter(p, ts) == ts
  {
    if ts != [] {
      assert forall t :: t in ts[1..] ==> t in ts;
      FilterKeepsAll(p, ts[1..]);
    }
  }

  /** A filter never introduces a repeated id. */
  lemma {:induction false} FilterKeepsIdsUnique(p: Task -> bool, ts: seq<Task>)
    requires UniqueIds(ts)
    ensures UniqueIds(Filter(p, ts))
  {
    if ts != [] {
      var rest := Filter(p, ts[1..]);
      FilterKeepsIdsUnique(p, ts[1..]);
      forall t | t in rest
        ensures t.id != ts[0].id
      {
        var k :| 0 <= k < |ts[1..]| && ts[1..][k] == t;
        assert ts[k + 1] == t;
      }
      if p(ts[0]) {
        var r := [ts[0]] + rest;
        forall i, j | 0 <= i < j < |r|
          ensures r[i].id != r[j].id
        {
          assert r[j] == rest[j - 1];
          if i > 0 {
            assert r[i] == rest[i - 1];
          }
        }
      }
    }
  }

  /** `Array.prototype.findIndex` by id: the first position holding `id`. */
  function FindIndex(ts: seq<Task>, id: string): (r: Option<nat>)
    ensures r.None? <==> id !in Ids(ts)
    ensures r.Some? ==> r.value < |ts| && ts[r.value].id == id
    ensures r.Some? ==> forall j :: 0 <= j < r.value ==> ts[j].id != id
  {
    if ts == [] then None
    else if ts[0].id == id then Some(0)
    else
      assert Ids(ts) == {ts[0].id} + Ids(ts[1..]) by {
        assert ts == [ts[0]] + ts[1..];
      }
      match FindIndex(ts[1..], id)
      case None => None
      case Some(k) => Some(k + 1)
  }

  /** Positions with the same ids give the same `findIndex` answer. */
  lemma {:induction false} FindIndexOnlyReadsIds(a: seq<Task>, b: seq<Task>, id: string)
    requires |a| == |b|
    requires forall i :: 0 <= i < |a| ==> a[i].id == b[i].id
    ensures FindIndex(a, id) == FindIndex(b, id)
  {
    if a != [] && a[0].id != id {
      FindIndexOnlyReadsIds(a[1..], b[1..], id);
    }
  }

  /** `Array.prototype.find` by id, as `getTaskById` uses it: a task with `id`, or not found. */
  function GetTaskById(ts: seq<Task>, id: string): (r: Option<Task>)
    ensures r.None? <==> id !in Ids(ts)
    ensures r.Some? ==> r.value in ts && r.value.id == id
  {
    if ts == [] then None
    else if ts[0].id == id then Some(ts[0])
    else
      assert Ids(ts) == {ts[0].id} + Ids(ts[1..]) by {
        assert ts == [ts[0]] + ts[1..];
      }
      GetTaskById(ts[1..], id)
  }

  /** The task `find` returns is the one at the position `findIndex` returns. */
  lemma {:induction false} GetTaskByIdIsFirstMatch(ts: seq<Task>, id: string)
    ensures FindIndex(ts, id).None? ==> GetTaskById(ts, id) == None
    ensures FindIndex(ts, id).Some? ==> GetTaskById(ts, id) == Some(ts[FindIndex(ts, id).value])
  {
    if ts != [] && ts[0].id != id {
      GetTaskByIdIsFirstMatch(ts[1..], id);
    }
  }
}
