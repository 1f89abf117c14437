/** Main's code running among the workers: every call of it is a run of the protocol, as
    long as the clock lets the session ids be new. */
module RunningMain {
  import opened Bytes
  import opened Device
  import opened Framing
  import opened Tasks
  import opened Protocol
  import opened ProtocolInvariant
  import opened ProtocolPreserved
  import opened ProtocolTheorems
  import opened SessionIds
  import opened ThreadManager
  import opened ClientConnManager

  // ---------- Runs of the whole system ----------

  ghost function Lift(trace: seq<MainStep>): seq<Step> {
    seq(|trace|, i requires 0 <= i < |trace| => ByMain(trace[i]))
  }

  ghost function DeliverAll(workers: map<WorkerId, Worker>, posts: seq<Post>): map<WorkerId, Worker>
    decreases |posts|
  {
    if posts == [] then workers else DeliverAll(Deliver(workers, posts[0]), posts[1..])
  }

  ghost function RoutedIds(trace: seq<MainStep>): set<Sid> {
    set i | 0 <= i < |trace| && trace[i].Route? :: trace[i].sid
  }

  /** Main takes no task on the way, and every connection is routed to a worker that
      exists, under an id never issued before. */
  ghost predicate Routable(s: State, trace: seq<MainStep>) {
    && (forall i | 0 <= i < |trace| :: !trace[i].Execute?)
    && (forall i | 0 <= i < |trace| && trace[i].Route? ::
          trace[i].worker in s.workers && trace[i].sid != LISTENER_SID && trace[i].sid !in s.issued)
    && (forall i, j | 0 <= i < j < |trace| && trace[i].Route? && trace[j].Route? :: trace[i].sid != trace[j].sid)
  }

  /** Main's own steps and posts are a run of the whole system, which delivers exactly
      these posts. */
  lemma {:induction false} MainRunsLift(s: State, trace: seq<MainStep>, m: Main, posts: seq<Post>) returns (s': State)
    requires MainRuns(s.main, trace, m, posts) && Routable(s, trace)
    ensures Runs(s, Lift(trace), s') && s'.main == m && s'.workers == DeliverAll(s.workers, posts)
    ensures s'.issued.Keys == s.issued.Keys + RoutedIds(trace) && s'.workers.Keys == s.workers.Keys
    decreases |trace|
  {
    if trace == [] {
      s' := s;
      assert Lift(trace) == [] && RoutedIds(trace) == {};
    } else {
      var (next, post) := MainApply(s.main, trace[0]);
      var s1 := Apply(s, ByMain(trace[0]));
      FirstRouted(s, s1, trace);
      s' := MainRunsLift(s1, trace[1..], m, if post.Post? then posts[1..] else posts);
      assert Lift(trace) == [ByMain(trace[0])] + Lift(trace[1..]);
      RunsStep(s, ByMain(trace[0]), Lift(trace[1..]), s');
    }
  }

  lemma FirstRouted(s: State, s1: State, trace: seq<MainStep>)
    requires trace != [] && Routable(s, trace) && MainEnabled(s.main, trace[0])
    requires Enabled(s, ByMain(trace[0])) && s1 == Apply(s, ByMain(trace[0]))
    ensures Routable(s1, trace[1..])
    ensures s1.workers == Deliver(s.workers, MainApply(s.main, trace[0]).1)
    ensures s1.main == MainApply(s.main, trace[0]).0
    ensures s1.issued.Keys + RoutedIds(trace[1..]) == s.issued.Keys + RoutedIds(trace)
  {
    MainStepIs(s, trace[0]);
    hide Enabled, Apply, MainApply;
    var first: set<Sid> := if trace[0].Route? then {trace[0].sid} else {};
    FirstId(trace, first);
    forall i | 0 <= i < |trace[1..]| ensures trace[1..][i] == trace[i + 1] {}
    hide RoutedIds, Deliver;
  }

  lemma MainStepIs(s: State, step: MainStep)
    requires Enabled(s, ByMain(step)) && MainEnabled(s.main, step)
    ensures var s1 := Apply(s, ByMain(step));
      && s1.workers == Deliver(s.workers, MainApply(s.main, step).1) && s1.workers.Keys == s.workers.Keys
      && s1.main == MainApply(s.main, step).0
      && s1.issued.Keys == s.issued.Keys + if step.Route? then {step.sid} else {}
  {
    assert Apply(s, ByMain(step)).workers == Deliver(s.workers, MainApply(s.main, step).1);
  }

  lemma FirstId(trace: seq<MainStep>, first: set<Sid>)
    requires trace != [] && first == if trace[0].Route? then {trace[0].sid} else {}
    ensures RoutedIds(trace) == first + RoutedIds(trace[1..])
  {
    forall sid | sid in RoutedIds(trace) ensures sid in first + RoutedIds(trace[1..]) {
      var i :| 0 <= i < |trace| && trace[i].Route? && trace[i].sid == sid;
      if i > 0 {
        assert trace[1..][i - 1] == trace[i];
      }
    }
  }

  /** The same for a trace that begins with executing the oldest task of worker `w`. */
  lemma ExecuteRunsLift(s: State, w: WorkerId, trace: seq<MainStep>, m: Main, posts: seq<Post>) returns (s': State)
    requires Inv(s) && s.main.pc.Free? && w in s.workers && s.workers[w].outbox != []
    requires trace != [] && trace[0] == Execute(s.workers[w].outbox[0])
    requires MainRuns(s.main, trace, m, posts) && Routable(s, trace[1..])
    ensures Runs(s, [TakeAtMain(w)] + Lift(trace[1..]), s') && s'.main == m
    ensures s'.workers == DeliverAll(s.workers[w := s.workers[w].(outbox := s.workers[w].outbox[1..])], posts)
    ensures s'.issued.Keys == s.issued.Keys + RoutedIds(trace[1..]) && s'.workers.Keys == s.workers.Keys
  {
    assert LocalInv(s.issued, ViewOf(s, w));
    LocalTaken(s.issued, ViewOf(s, w));
    hide Inv, LocalInv;
    var s1 := Apply(s, TakeAtMain(w));
    s' := MainRunsLift(s1, trace[1..], m, posts);
    RunsStep(s, TakeAtMain(w), Lift(trace[1..]), s');
  }

  // ---------- The clock ----------

  /** The clock has not gone back or before 0, and no second saw more than 100000 draws. */
  ghost predicate ClockOk(times: seq<int>) {
    && NonDecreasing(times) && RateRespected(times)
    && forall i | 0 <= i < |times| :: times[i] >= 0
  }

  lemma ClockInNumbers(times: seq<int>)
    ensures ClockOk(times) <==>
      && (forall i, j | 0 <= i <= j < |times| :: 0 <= times[i] <= times[j])
      && (forall i | 0 <= i && i + 100000 < |times| :: times[i] < times[i + 100000])
  {
    if NonDecreasing(times) {
      RateInNumbers(times);
    }
    hide RateRespected;
  }

  lemma ClockPrefix(times: seq<int>, more: seq<int>)
    requires |times| <= |more| && times == more[..|times|] && ClockOk(more)
    ensures ClockOk(times)
  {
    forall t ensures |DrawsIn(times, t)| <= SPAN {
      SubsetSize(DrawsIn(times, t), DrawsIn(more, t));
    }
  }

  /** The ids that were returned. */
  ghost function Ids(times: seq<int>, returned: seq<nat>): set<Sid> {
    set k | 0 <= k < |returned| && returned[k] < |times| :: Candidate(times, returned[k])
  }

  lemma IdsGrow(times: seq<int>, returned: seq<nat>, times': seq<int>, returned': seq<nat>, sid: Sid)
    requires Drawn(times, returned, times', returned', sid)
    ensures Ids(times', returned') == Ids(times, returned) + {sid}
    ensures ClockOk(times') ==> ClockOk(times) && sid !in Ids(times, returned) && sid > LISTENER_SID
  {
    hide Candidate;
    forall k | 0 <= k < |returned| ensures Candidate(times', returned[k]) == Candidate(times, returned[k]) {
      SameCandidate(times, times', returned[k]);
    }
    var last := |returned|;
    assert returned'[last] == |times'| - 1;
    forall k | 0 <= k < |returned| ensures returned'[k] == returned[k] {}
    forall x | x in Ids(times, returned) + {sid} ensures x in Ids(times', returned') {
      if x != sid {
        var k :| 0 <= k < |returned| && returned[k] < |times| && Candidate(times, returned[k]) == x;
        assert returned'[k] == returned[k];
      }
    }
    if ClockOk(times') {
      ClockPrefix(times, times');
    }
  }

  lemma SameCandidate(times: seq<int>, more: seq<int>, i: nat)
    requires i < |times| <= |more| && times == more[..|times|]
    ensures Candidate(more, i) == Candidate(times, i)
  {}

  // ---------- Main ----------

  /** Main of the protocol is this object, and the ids issued are those it has drawn. */
  ghost predicate Coupled(c: ClientConnManager, s: State)
    reads c, c.threads
  {
    && c.Valid() && s.main == c.AsMain()
    && (forall id | id in c.threads.ids :: id in s.workers)
    && s.issued.Keys == Ids(c.times, c.returned)
  }

  class RunningMain {
    const code: ClientConnManager
    /** Where the system started, all its steps since, and where it is. */
    ghost var start: State
    ghost var run: seq<Step>
    ghost var now: State

    ghost predicate Valid()
      reads `start, `run, `now, code, code.threads
    {
      && code.Valid()
      && (ClockOk(code.times) ==> Init(start) && Runs(start, run, now) && Inv(now) && Coupled(code, now))
    }

    constructor (threads: ThreadManager, ghost s: State)
      requires threads.Valid() && Init(s) && forall id | id in threads.ids :: id in s.workers
      ensures Valid() && fresh(code) && code.threads == threads && start == s && run == [] && now == s
      ensures code.sessions == map[] && ClockOk(code.times)
    {
      code := new ClientConnManager(threads);
      start, run, now := s, [], s;
      new;
      InitInv(s);
      assert Ids([], []) == {};
      assert forall t :: DrawsIn([], t) == {};
      hide Inv;
    }

    /** At quiescence the sessions in main's table are those of the workers' tables. */
    lemma SessionsAgree(id: WorkerId, sid: Sid)
      requires Valid() && ClockOk(code.times) && id in now.workers
      requires now.main.pc.Free? && forall w | w in now.workers ::
        now.workers[w].pc.Idle? && now.workers[w].inbox == [] && now.workers[w].outbox == []
      ensures sid in code.sessions && code.sessions[sid].thread == id
              <==> sid in now.workers[id].tables.bySid && sid != LISTENER_SID
    {
      TablesAgreeAtQuiescence(start, run, now, id, sid);
    }

    /** Any step of a worker, or a listener that is started. */
    ghost method Others(step: Step)
      requires Valid() && ClockOk(code.times) && Enabled(now, step) && (step.ByWorker? || step.StartListener?)
      modifies this`run, this`now
      ensures Valid() && run == old(run) + [step] && now == Apply(old(now), step)
    {
      hide Inv, Runs, Init, Enabled, ClockOk, Ids;
      OthersKeepMain(now, step);
      OneStepRun(now, step);
      RunsAppend(start, run, now, [step], Apply(now, step));
      StepInv(now, step);
      run, now := run + [step], Apply(now, step);
    }

    /** Takes the oldest task of a worker and executes it. */
    method Execute(w: WorkerId, t: Task)
      requires Valid() && (t.Conn? ==> SomeFree(code.sessions.Keys) && code.threads.ids != [])
      requires ClockOk(code.times) ==> w in now.workers && now.workers[w].outbox != [] && now.workers[w].outbox[0] == t
      modifies this`run, this`now
      modifies code`sessions, code`autoId, code`times, code`returned, code.threads`queues, code.threads`posted
      ensures Valid()
      ensures ClockOk(code.times) ==>
        && old(run) + [TakeAtMain(w)] <= run && Runs(old(now), run[|old(run)|..], now)
    {
      hide *;
      Parts();
      ghost var times, returned, posted := code.times, code.returned, code.threads.posted;
      ghost var trace := code.ExecuteTask(t);
      ExecuteTrace(t, trace, times, returned);
      if ClockOk(code.times) {
        ExecuteRoutable(t, trace, times, returned);
        ghost var s' := ExecuteRunsLift(now, w, trace, code.AsMain(), code.threads.posted[|posted|..]);
        Extend([TakeAtMain(w)] + Lift(trace[1..]), s');
        run, now := run + ([TakeAtMain(w)] + Lift(trace[1..])), s';
      }
      Whole();
    }

    /** A task from a worker draws a new id exactly if it is a connection. */
    lemma ExecuteTrace(t: Task, trace: seq<MainStep>, times: seq<int>, returned: seq<nat>)
      requires if t.Conn?
        then |trace| == 3 && trace[1].Route? && Drawn(times, returned, code.times, code.returned, trace[1].sid)
        else trace == [Protocol.Execute(t)] && code.times == times && code.returned == returned
      ensures ClockOk(code.times) ==> ClockOk(times)
    {
      if t.Conn? && ClockOk(code.times) {
        ClockPrefix(times, code.times);
      }
    }

    lemma ExecuteRoutable(t: Task, trace: seq<MainStep>, times: seq<int>, returned: seq<nat>)
      requires ClockOk(code.times) && now.issued.Keys == Ids(times, returned)
      requires forall id | id in code.threads.ids :: id in now.workers
      requires if t.Conn?
        then |trace| == 3 && trace[1].Route? && trace[1].worker in code.threads.ids && trace[2].AddSession?
          && Drawn(times, returned, code.times, code.returned, trace[1].sid)
        else trace == [Protocol.Execute(t)] && code.times == times && code.returned == returned
      ensures Routable(now, trace[1..])
      ensures now.issued.Keys + RoutedIds(trace[1..]) == Ids(code.times, code.returned)
    {
      hide ClockOk, Ids, Drawn;
      var rest := trace[1..];
      if t.Conn? {
        var sid := trace[1].sid;
        IdsGrow(times, returned, code.times, code.returned, sid);
        assert |rest| == 2 && rest[0] == trace[1] && rest[1] == trace[2];
        assert RoutedIds(rest) == {sid};
      } else {
        assert rest == [] && RoutedIds(rest) == {};
      }
    }

    method Close(sid: Sid)
      requires Valid()
      modifies this`run, this`now, code`sessions, code.threads`queues, code.threads`posted
      ensures Valid() && code.sessions == old(code.sessions) - {sid}
      ensures ClockOk(code.times) ==>
        old(run) + [ByMain(CloseConn(sid))] <= run && Runs(old(now), run[|old(run)|..], now)
    {
      hide *;
      Parts();
      ghost var trace := code.CloseConn(sid);
      if ClockOk(code.times) {
        Unrouted(now, trace);
        ghost var s' := MainRunsLift(now, trace, code.AsMain(), code.threads.posted[|old(code.threads.posted)|..]);
        Extend(Lift(trace), s');
        run, now := run + Lift(trace), s';
      }
      Whole();
    }

    /** Pushes the message to the worker of the session, if it can be sent. */
    method SendMsg(sid: Sid, data: Payload) returns (ok: bool)
      requires Valid()
      modifies this`run, this`now, code.threads`queues, code.threads`posted
      ensures Valid() && (ok <==> sid in code.sessions && 1 <= |data| <= 4096)
      ensures ClockOk(code.times) ==>
        run == old(run) + [ByMain(Protocol.SendMsg(sid, data))] && Runs(old(now), run[|old(run)|..], now)
    {
      hide *;
      Parts();
      ok := code.SendMsgToConn(sid, data);
      if ClockOk(code.times) {
        ghost var trace := [Protocol.SendMsg(sid, data)];
        Unrouted(now, trace);
        ghost var s' := MainRunsLift(now, trace, code.AsMain(), code.threads.posted[|old(code.threads.posted)|..]);
        Extend(Lift(trace), s');
        run, now := run + Lift(trace), s';
      }
      Whole();
    }

    lemma Parts()
      requires Valid()
      ensures code.Valid()
      ensures ClockOk(code.times) ==>
        && Init(start) && Runs(start, run, now) && Inv(now)
        && now.main == code.AsMain() && now.main.pc.Free?
        && (forall id | id in code.threads.ids :: id in now.workers)
        && now.issued.Keys == Ids(code.times, code.returned)
    {}

    lemma Whole()
      requires code.Valid()
      requires ClockOk(code.times) ==>
        && Init(start) && Runs(start, run, now) && Inv(now)
        && now.main == code.AsMain()
        && (forall id | id in code.threads.ids :: id in now.workers)
        && now.issued.Keys == Ids(code.times, code.returned)
      ensures Valid()
    {}

    lemma Extend(more: seq<Step>, s': State)
      requires Init(start) && Runs(start, run, now) && Inv(now) && Runs(now, more, s')
      ensures Runs(start, run + more, s') && Inv(s')
    {
      hide Inv, Runs, Init;
      RunsAppend(start, run, now, more, s');
      RunInv(now, more, s');
    }
  }

  /** A trace without a Route issues no id. */
  lemma Unrouted(s: State, trace: seq<MainStep>)
    requires forall i | 0 <= i < |trace| :: !trace[i].Execute? && !trace[i].Route?
    ensures Routable(s, trace) && RoutedIds(trace) == {}
    ensures |Lift(trace)| == |trace| && forall i | 0 <= i < |trace| :: Lift(trace)[i] == ByMain(trace[i])
  {}

  /** Steps of the workers and listeners that are started leave main alone. */
  lemma OthersKeepMain(s: State, step: Step)
    requires Inv(s) && Enabled(s, step) && (step.ByWorker? || step.StartListener?)
    ensures var s' := Apply(s, step);
      s'.main == s.main && s'.issued == s.issued && s'.workers.Keys == s.workers.Keys
  {
    hide Inv;
  }
}
