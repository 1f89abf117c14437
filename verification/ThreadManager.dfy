/** Main's table of worker threads and the routing of tasks to them. */
module ThreadManager {
  import opened Tasks
  import opened Protocol

  datatype Option<+T> = None | Some(value: T)

  /** Every thread of the table has a pressure. */
  ghost predicate Known(ids: seq<WorkerId>, pressure: map<WorkerId, int>) {
    forall k | 0 <= k < |ids| :: ids[k] in pressure
  }

  /** The routing decision: thread id 0 asks for the first thread, in the table's
      order, of least pressure; any other id asks for that thread. */
  ghost predicate IsRoute(ids: seq<WorkerId>, pressure: map<WorkerId, int>, threadId: WorkerId, r: Option<WorkerId>)
    requires Known(ids, pressure)
  {
    if threadId != 0 then
      r == if threadId in ids then Some(threadId) else None
    else if ids == [] then r.None?
    else
      && r.Some?
      && exists i :: 0 <= i < |ids| && ids[i] == r.value && LeastAt(ids, pressure, i)
  }

  ghost predicate LeastAt(ids: seq<WorkerId>, pressure: map<WorkerId, int>, i: nat)
    requires i < |ids| && Known(ids, pressure)
  {
    && (forall k | 0 <= k < |ids| :: pressure[ids[i]] <= pressure[ids[k]])
    && (forall k | 0 <= k < i :: pressure[ids[i]] < pressure[ids[k]])
  }

  /** A route is determined by the table and the pressures. */
  lemma RouteIsUnique(ids: seq<WorkerId>, pressure: map<WorkerId, int>, threadId: WorkerId,
      a: Option<WorkerId>, b: Option<WorkerId>)
    requires Known(ids, pressure)
    requires IsRoute(ids, pressure, threadId, a) && IsRoute(ids, pressure, threadId, b)
    ensures a == b
  {
    if threadId == 0 && ids != [] {
      var i :| 0 <= i < |ids| && ids[i] == a.value && LeastAt(ids, pressure, i);
      var j :| 0 <= j < |ids| && ids[j] == b.value && LeastAt(ids, pressure, j);
      assert i == j;
    }
  }

  class ThreadManager {
    /** The iteration order of the thread table. */
    var ids: seq<WorkerId>
    /** `m_pressure` of each worker, as main reads it. */
    var pressure: map<WorkerId, int>
    /** `m_queue_thread` of each worker, from the producer's end. */
    var queues: map<WorkerId, seq<Task>>
    /** Every push so far, over all workers. */
    ghost var posted: seq<Post>

    ghost predicate Valid()
      reads this
    {
      && (forall i, j | 0 <= i < j < |ids| :: ids[i] != ids[j])
      && (forall id | id in ids :: id > 0 && id in queues)
      && Known(ids, pressure)
    }

    constructor ()
      ensures Valid() && ids == [] && posted == []
    {
      ids, pressure, queues, posted := [], map[], map[], [];
    }

    method AddThread(id: WorkerId) returns (ok: bool)
      requires Valid() && id > 0
      modifies this`ids, this`queues, this`pressure
      ensures Valid()
      ensures ok <==> id !in old(ids)
      ensures if ok then ids == old(ids) + [id] && queues == old(queues)[id := []]
              else ids == old(ids) && queues == old(queues)
      ensures ok ==> id in pressure && pressure == old(pressure)[id := pressure[id]]
      ensures !ok ==> pressure == old(pressure)
    {
      if id in ids {
        return false;
      }
      ids := ids + [id];
      queues := queues[id := []];
      var unset: int := *;
      pressure := pressure[id := unset];
      ok := true;
    }

    method GetLessPressureThread(threadId: WorkerId) returns (r: Option<WorkerId>)
      requires Valid()
      ensures IsRoute(ids, pressure, threadId, r)
      ensures r.Some? ==> r.value in ids
      ensures threadId == 0 && r.Some? ==> forall k | 0 <= k < |ids| ::
        && pressure[r.value] <= pressure[ids[k]]
        && (pressure[r.value] == pressure[ids[k]] && ids[k] != r.value ==> r.value in ids[..k])
    {
      r := None;
      if threadId != 0 {
        if threadId in ids {
          r := Some(threadId);
        }
        return;
      }
      ghost var best := 0;
      for i := 0 to |ids|
        invariant r.None? <==> i == 0
        invariant i > 0 ==> best < i && r.value == ids[best]
        invariant i > 0 ==> forall k | 0 <= k < i :: pressure[ids[best]] <= pressure[ids[k]]
        invariant i > 0 ==> forall k | 0 <= k < best :: pressure[ids[best]] < pressure[ids[k]]
      {
        if r.None? {
          r, best := Some(ids[i]), i;
        } else if pressure[r.value] > pressure[ids[i]] {
          r, best := Some(ids[i]), i;
        }
      }
      assert ids != [] ==> LeastAt(ids, pressure, best);
    }

    /** Returns the id of the chosen worker, or -1. */
    method PushTask(threadId: WorkerId, task: Task) returns (id: WorkerId)
      requires Valid()
      modifies this`queues, this`posted
      ensures Valid()
      ensures IsRoute(ids, pressure, threadId, if id == -1 then None else Some(id))
      ensures id == -1 ==> queues == old(queues) && posted == old(posted)
      ensures id != -1 ==> id in ids && id in old(queues)
      ensures threadId == 0 ==> (id == -1 <==> ids == [])
      ensures threadId == 0 && id != -1 ==> forall k | 0 <= k < |ids| :: pressure[id] <= pressure[ids[k]]
      ensures id != -1 ==>
        queues == old(queues)[id := old(queues)[id] + [task]] && posted == old(posted) + [Post(id, task)]
    {
      var r := GetLessPressureThread(threadId);
      if r.None? {
        return -1;
      }
      id := r.value;
      queues := queues[id := queues[id] + [task]];
      posted := posted + [Post(id, task)];
    }
  }
}
