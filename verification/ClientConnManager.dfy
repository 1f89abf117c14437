/** Main's session table, and the task bodies that main executes. Every method is
    proved to be a run of main's steps of `Protocol`. */
module ClientConnManager {
  import opened Bytes
  import opened Device
  import opened Framing
  import opened Tasks
  import opened Protocol
  import opened SessionIds
  import opened ThreadManager

  /** The steps of `trace` lead main from `m` to `m'` and push `posts`. */
  ghost predicate MainRuns(m: Main, trace: seq<MainStep>, m': Main, posts: seq<Post>)
    decreases |trace|
  {
    if trace == [] then m == m' && posts == []
    else
      MainEnabled(m, trace[0]) &&
      var (next, post) := MainApply(m, trace[0]);
      if post.Post? then posts != [] && posts[0] == post && MainRuns(next, trace[1..], m', posts[1..])
      else MainRuns(next, trace[1..], m', posts)
  }

  lemma OneMainStep(m: Main, step: MainStep)
    requires MainEnabled(m, step)
    ensures var (m', post) := MainApply(m, step); MainRuns(m, [step], m', if post.Post? then [post] else [])
  {
    assert [step][1..] == [];
  }

  lemma TwoMainSteps(m: Main, a: MainStep, b: MainStep)
    requires MainEnabled(m, a) && MainApply(m, a).1.Post?
    requires MainEnabled(MainApply(m, a).0, b) && MainApply(MainApply(m, a).0, b).1.Nothing?
    ensures MainRuns(m, [a, b], MainApply(MainApply(m, a).0, b).0, [MainApply(m, a).1])
  {
    assert [a, b][1..] == [b];
    OneMainStep(MainApply(m, a).0, b);
    assert [MainApply(m, a).1][1..] == [];
  }

  /** One search for a new id, in terms of the clock readings and of the candidates
      returned: it returns the last one drawn, which, if the clock does not go back and
      the rate is respected, was never returned before. */
  ghost predicate Drawn(times: seq<int>, returned: seq<nat>, times': seq<int>, returned': seq<nat>, sid: Sid) {
    && |times| < |times'| && times == times'[..|times|] && returned' == returned + [|times'| - 1]
    && sid == Candidate(times', |times'| - 1)
    && (times'[|times'| - 1] >= 0 ==> sid > LISTENER_SID)
    && (forall k | 0 <= k < |returned| :: returned[k] < |times|)
    && (NonDecreasing(times') && RateRespected(times') ==>
          forall k | 0 <= k < |returned| :: Candidate(times', returned[k]) != sid)
  }

  class ClientConnManager {
    var sessions: map<Sid, Session>
    var autoId: int
    const threads: ThreadManager
    /** All clock readings of `GetRandNewSession`, one per candidate. */
    ghost var times: seq<int>
    /** The candidates that were returned, by number. */
    ghost var returned: seq<nat>

    ghost predicate Valid()
      reads this, threads
    {
      && threads.Valid()
      && (forall sid | sid in sessions :: sessions[sid].thread in threads.ids)
      && autoId == Counter(|times|)
      && (forall k | 0 <= k < |returned| :: returned[k] < |times|)
    }

    function AsMain(): Main
      reads this
    {
      Main(sessions, Free)
    }

    constructor (threads: ThreadManager)
      requires threads.Valid()
      ensures Valid() && this.threads == threads
      ensures sessions == map[] && times == [] && returned == []
    {
      this.threads := threads;
      sessions, autoId, times, returned := map[], 1, [], [];
    }

    method AddNewConn(thread: WorkerId, sid: Sid, dtype: DeviceType) returns (ok: bool)
      requires Valid() && thread in threads.ids
      modifies this`sessions
      ensures Valid()
      ensures ok <==> sid !in old(sessions)
      ensures sessions == if ok then old(sessions)[sid := Session(thread, dtype)] else old(sessions)
    {
      if sid in sessions {
        return false;
      }
      sessions := sessions[sid := Session(thread, dtype)];
      ok := true;
    }

    method RemoveSessionConn(sid: Sid)
      requires Valid()
      modifies this`sessions
      ensures Valid() && sessions == old(sessions) - {sid}
    {
      if sid in sessions {
        sessions := sessions - {sid};
      }
    }

    /** Pushes the Delete first and removes the session second. */
    method CloseConn(sid: Sid) returns (ghost trace: seq<MainStep>)
      requires Valid()
      modifies this`sessions, threads`queues, threads`posted
      ensures Valid()
      ensures sessions == old(sessions) - {sid}
      ensures sid !in old(sessions) ==> threads.queues == old(threads.queues)
      ensures sid in old(sessions) ==>
        var w := old(sessions)[sid].thread;
        w in old(threads.queues) && threads.queues == old(threads.queues)[w := old(threads.queues)[w] + [Delete(sid)]]
      ensures old(threads.posted) <= threads.posted
      ensures MainRuns(old(AsMain()), trace, AsMain(), threads.posted[|old(threads.posted)|..])
      ensures trace == if sid in old(sessions)
        then [Protocol.CloseConn(sid), RemoveSession] else [Protocol.CloseConn(sid)]
    {
      ghost var m := AsMain();
      if sid !in sessions {
        OneMainStep(m, Protocol.CloseConn(sid));
        trace := [Protocol.CloseConn(sid)];
        return;
      }
      assert sessions[sid].thread in threads.ids;
      var id := threads.PushTask(sessions[sid].thread, Delete(sid));
      RemoveSessionConn(sid);
      TwoMainSteps(m, Protocol.CloseConn(sid), RemoveSession);
      trace := [Protocol.CloseConn(sid), RemoveSession];
      assert threads.posted[|old(threads.posted)|..] == [Post(id, Delete(sid))];
    }

    method SendMsgToConn(sid: Sid, data: Payload) returns (ok: bool)
      requires Valid()
      modifies threads`queues, threads`posted
      ensures Valid()
      ensures ok <==> sid in sessions && 1 <= |data| <= 4096
      ensures !ok ==> threads.queues == old(threads.queues)
      ensures ok ==>
        var w := sessions[sid].thread;
        w in old(threads.queues) &&
          threads.queues == old(threads.queues)[w := old(threads.queues)[w] + [Send(sid, data)]]
      ensures old(threads.posted) <= threads.posted
      ensures MainRuns(AsMain(), [SendMsg(sid, data)], AsMain(), threads.posted[|old(threads.posted)|..])
    {
      OneMainStep(AsMain(), SendMsg(sid, data));
      if |data| <= 0 {
        return false;
      }
      if sid !in sessions {
        return false;
      }
      if |data| > MAX_SEND_BUFFER_LEN {
        return false;
      }
      assert sessions[sid].thread in threads.ids;
      var id := threads.PushTask(sessions[sid].thread, Send(sid, data));
      assert threads.posted[|old(threads.posted)|..] == [Post(id, Send(sid, data))];
      ok := true;
    }

    /** Draws candidates until one is not in the table. It requires exactly what makes
        the search end for every clock (`SessionIds.SearchEndsIff`); fewer than 100000
        live sessions are enough, and then it ends within one draw more than there are
        sessions, since the candidates tried are as many different live ids. */
    method GetRandNewSession() returns (sid: Sid)
      requires Valid() && SomeFree(sessions.Keys)
      modifies this`autoId, this`times, this`returned
      ensures Valid()
      ensures sid !in sessions
      ensures |old(times)| < |times| <= |old(times)| + SPAN && old(times) == times[..|old(times)|]
      ensures |times| <= |old(times)| + |sessions| + 1
      ensures sid == Candidate(times, |times| - 1)
      ensures sid == times[|times| - 1] * 100000 + (|times| - 1) % 100000 + 1
      ensures times[|times| - 1] >= 0 ==> sid > LISTENER_SID
      ensures forall i | |old(times)| <= i < |times| - 1 :: Candidate(times, i) in sessions
      ensures returned == old(returned) + [|times| - 1]
      ensures NonDecreasing(times) && RateRespected(times) ==>
        forall k | 0 <= k < |old(returned)| :: Candidate(times, old(returned)[k]) != sid
    {
      hide Candidate, Counter, Distance, Unused;
      ghost var start, before := |times|, times;
      ghost var c :| 1 <= c <= SPAN && Unused(sessions.Keys, c);
      DistanceReaches(start, c);
      while true
        invariant start <= |before| && before == times && times[..start] == old(times) && returned == old(returned)
        invariant autoId == Counter(|times|)
        invariant AllTaken(times, start, sessions.Keys) && |times| - start <= Distance(start, c) < SPAN
        decreases Distance(start, c) - (|times| - start)
      {
        sid := DrawCandidate();
        TakenMore(before, times, start, sessions.Keys);
        if sid !in sessions {
          break;
        }
        if |before| == start + Distance(start, c) {
          FreeCandidate(times, |before|, sessions.Keys, c);
        }
        before := times;
      }
      TakenFits(before, start, sessions);
      CounterStep(|before|);
      IdPositive(times, |before|);
      if NonDecreasing(times) && RateRespected(times) {
        DistinctIffRate(times);
      }
      returned := returned + [|times| - 1];
    }

    /** One candidate and one step of the counter. */
    method DrawCandidate() returns (sid: Sid)
      requires autoId == Counter(|times|)
      modifies this`autoId, this`times
      ensures |times| == |old(times)| + 1 && times == old(times) + [times[|old(times)|]]
      ensures autoId == Counter(|times|)
      ensures sid == Candidate(times, |times| - 1)
      ensures sid == times[|times| - 1] * 100000 + (|times| - 1) % 100000 + 1
    {
      CounterStep(|times|);
      var now := Now();
      sid := now * SPAN + autoId;
      autoId := autoId % SPAN + 1;
    }

    /** `time(NULL)`, with a record of what it returned. */
    method Now() returns (t: int)
      modifies this`times
      ensures times == old(times) + [t]
    {
      t := *;
      times := times + [t];
    }

    /** `task_clientConn::on_thread_call`: push the Insert first, add the session second. */
    method ExecuteConn(fd: Fd, dtype: DeviceType) returns (ghost trace: seq<MainStep>, sid: Sid, worker: WorkerId)
      requires Valid() && SomeFree(sessions.Keys)
      modifies this`sessions, this`autoId, this`times, this`returned, threads`queues, threads`posted
      ensures Valid() && sid !in old(sessions) && old(threads.posted) <= threads.posted
      ensures Drawn(old(times), old(returned), times, returned, sid)
      ensures threads.ids == [] ==>
        && worker == -1 && sessions == old(sessions)
        && threads.queues == old(threads.queues) && threads.posted == old(threads.posted)
      ensures threads.ids != [] ==>
        && sessions == old(sessions)[sid := Session(worker, dtype)]
        && worker in old(threads.queues) && worker in threads.ids && worker in threads.pressure
        && (forall k | 0 <= k < |threads.ids| :: threads.pressure[worker] <= threads.pressure[threads.ids[k]])
        && threads.queues == old(threads.queues)[worker := old(threads.queues)[worker] + [Insert(fd, dtype, sid)]]
        && MainRuns(old(AsMain()), trace, AsMain(), threads.posted[|old(threads.posted)|..])
        && trace == [Execute(Conn(fd, dtype)), Route(sid, worker), AddSession]
    {
      ghost var m := AsMain();
      trace := [];
      sid := GetRandNewSession();
      worker := threads.PushTask(0, Insert(fd, dtype, sid));
      if worker > 0 {
        var ok := AddNewConn(worker, sid, dtype);
      }
      if worker == -1 {
        return;
      }
      trace := [Execute(Conn(fd, dtype)), Route(sid, worker), AddSession];
      assert threads.posted[|old(threads.posted)|..] == [Post(worker, Insert(fd, dtype, sid))];
      TwoMainSteps(Main(m.sessions, Routing(fd, dtype)), Route(sid, worker), AddSession);
      assert trace[1..] == [Route(sid, worker), AddSession];
    }

    /** `Thread::dotask` on main for a task a worker submitted. What the handler of a
        packet does is not part of this model. */
    method ExecuteTask(t: Task) returns (ghost trace: seq<MainStep>)
      requires Valid() && (t.Conn? ==> SomeFree(sessions.Keys))
      modifies this`sessions, this`autoId, this`times, this`returned, threads`queues, threads`posted
      ensures Valid()
      ensures old(threads.posted) <= threads.posted
      ensures !t.Conn? || threads.ids != [] ==>
        && MainRuns(old(AsMain()), trace, AsMain(), threads.posted[|old(threads.posted)|..])
        && trace != [] && trace[0] == Execute(t)
      ensures t.Packet? ==> sessions == old(sessions) && threads.queues == old(threads.queues)
      ensures !t.Conn? ==> trace == [Execute(t)] && times == old(times) && returned == old(returned)
      ensures t.Conn? && threads.ids != [] ==>
        && |trace| == 3 && trace[1].Route? && trace[1].worker in threads.ids && trace[2].AddSession?
        && Drawn(old(times), old(returned), times, returned, trace[1].sid)
    {
      ghost var m := AsMain();
      if t.Conn? {
        var sid, worker;
        trace, sid, worker := ExecuteConn(t.fd, t.dtype);
        return;
      }
      if t.OnClose? {
        RemoveSessionConn(t.sid);
      }
      OneMainStep(m, Execute(t));
      trace := [Execute(t)];
    }
  }

  /** Drawing one more candidate changes no earlier one. */
  lemma TakenMore(before: seq<int>, times: seq<int>, from: nat, live: set<int>)
    requires from <= |before| && |times| == |before| + 1 && times[..|before|] == before
    requires AllTaken(before, from, live)
    ensures forall i | from <= i < |before| :: Candidate(times, i) in live
    ensures Candidate(times, |before|) in live ==> AllTaken(times, from, live)
  {
    forall i | from <= i < |before| ensures Candidate(times, i) in live {
      assert Candidate(times, i) == Candidate(before, i);
    }
  }

  /** The candidates tried in vain are as many different live ids. */
  lemma TakenFits(times: seq<int>, from: nat, sessions: map<Sid, Session>)
    requires from <= |times| <= from + SPAN && AllTaken(times, from, sessions.Keys)
    ensures |times| - from <= |sessions|
  {
    TriedSize(times, from);
    SubsetSize(Tried(times, from), sessions.Keys);
  }

  lemma IdPositive(times: seq<int>, i: nat)
    requires i < |times| && 1 <= Counter(i) <= SPAN
    ensures times[i] >= 0 ==> Candidate(times, i) > LISTENER_SID
  {}
}
