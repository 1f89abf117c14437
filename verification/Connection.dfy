/** One worker's code running in the whole system: every call of it is a run of the
    protocol, between arbitrary steps of the other threads, and what main executes for a
    session comes from the bytes of its connection. */
module Connection {
  import opened Bytes
  import opened Framing
  import opened Device
  import opened Tasks
  import opened Protocol
  import opened ProtocolInvariant
  import opened ProtocolTheorems
  import EpollHandler

  // ---------- Runs of the whole system ----------

  function Lift(id: WorkerId, trace: seq<WorkerStep>): seq<Step> {
    seq(|trace|, i requires 0 <= i < |trace| => ByWorker(id, trace[i]))
  }

  lemma LiftCons(id: WorkerId, step: WorkerStep, trace: seq<WorkerStep>)
    ensures Lift(id, [step] + trace) == [ByWorker(id, step)] + Lift(id, trace)
  {}

  /** The steps of an event: the frames read and, if it failed, report and removal. */
  ghost function TraceOf(fd: Fd, frames: seq<seq<Byte>>, healthy: bool): seq<WorkerStep> {
    EpollHandler.Receives(fd, frames) + if healthy then [] else [Fail(fd), Close]
  }

  lemma TraceCons(fd: Fd, frames: seq<seq<Byte>>, healthy: bool)
    requires frames != []
    ensures TraceOf(fd, frames, healthy) == [Receive(fd, frames[0])] + TraceOf(fd, frames[1..], healthy)
  {
    assert EpollHandler.Receives(fd, frames) == [Receive(fd, frames[0])] + EpollHandler.Receives(fd, frames[1..]);
  }

  lemma Prepend(s: State, id: WorkerId, step: WorkerStep, s1: State, trace: seq<WorkerStep>, s': State)
    requires Enabled(s, ByWorker(id, step)) && s1 == Apply(s, ByWorker(id, step))
    requires id in s1.workers && s1.workers[id] == WorkerApply(s.workers[id], step)
    requires id in s'.workers && Runs(s1, Lift(id, trace), s') && WorkerRuns(s1.workers[id], trace, s'.workers[id])
    ensures Runs(s, Lift(id, [step] + trace), s') && WorkerRuns(s.workers[id], [step] + trace, s'.workers[id])
  {
    LiftCons(id, step, trace);
    RunsStep(s, ByWorker(id, step), Lift(id, trace), s');
    assert ([step] + trace)[1..] == trace;
  }

  lemma {:induction false} EventRuns(s: State, id: WorkerId, fd: Fd, frames: seq<seq<Byte>>,
      healthy: bool) returns (s': State)
    requires id in s.workers && s.workers[id].pc.Idle?
    requires fd in s.workers[id].tables.byFd && s.workers[id].tables.byFd[fd].dtype.IsClient()
    requires s.workers[id].tables.byFd[fd].sid in s.frames
    ensures Runs(s, Lift(id, TraceOf(fd, frames, healthy)), s')
    ensures id in s'.workers && WorkerRuns(s.workers[id], TraceOf(fd, frames, healthy), s'.workers[id])
    ensures var sid := s.workers[id].tables.byFd[fd].sid;
      s'.frames == s.frames[sid := s.frames[sid] + frames]
    ensures s'.workers[id].inbox == s.workers[id].inbox && s'.issued == s.issued
    decreases |frames|
  {
    var sid := s.workers[id].tables.byFd[fd].sid;
    if frames == [] {
      assert EpollHandler.Receives(fd, frames) == [];
      assert s.frames[sid] + frames == s.frames[sid];
      if healthy {
        s' := s;
        assert Lift(id, TraceOf(fd, frames, healthy)) == [];
      } else {
        s' := FailRuns(s, id, fd);
        assert TraceOf(fd, frames, healthy) == [Fail(fd), Close];
      }
    } else {
      hide Apply, Enabled, WorkerApply, WorkerEnabled, Runs, WorkerRuns, TraceOf, Lift;
      var s1 := ReceiveStep(s, id, fd, frames[0]);
      s' := EventRuns(s1, id, fd, frames[1..], healthy);
      TraceCons(fd, frames, healthy);
      Prepend(s, id, Receive(fd, frames[0]), s1, TraceOf(fd, frames[1..], healthy), s');
      Regroup(s.frames[sid], [frames[0]], frames[1..]);
      assert [frames[0]] + frames[1..] == frames;
    }
  }

  lemma ReceiveStep(s: State, id: WorkerId, fd: Fd, data: seq<Byte>) returns (s1: State)
    requires id in s.workers && s.workers[id].pc.Idle?
    requires fd in s.workers[id].tables.byFd && s.workers[id].tables.byFd[fd].dtype.IsClient()
    requires s.workers[id].tables.byFd[fd].sid in s.frames
    ensures Enabled(s, ByWorker(id, Receive(fd, data))) && s1 == Apply(s, ByWorker(id, Receive(fd, data)))
    ensures WorkerEnabled(s.workers[id], Receive(fd, data)) && id in s1.workers
    ensures s1.workers[id] == WorkerApply(s.workers[id], Receive(fd, data))
    ensures s1.workers[id].pc.Idle? && s1.workers[id].tables == s.workers[id].tables
    ensures var sid := s.workers[id].tables.byFd[fd].sid; s1.frames == s.frames[sid := s.frames[sid] + [data]]
    ensures s1.workers[id].inbox == s.workers[id].inbox && s1.issued == s.issued
  {
    s1 := Apply(s, ByWorker(id, Receive(fd, data)));
  }

  lemma FailRuns(s: State, id: WorkerId, fd: Fd) returns (s': State)
    requires id in s.workers && WorkerEnabled(s.workers[id], Fail(fd))
    ensures Runs(s, Lift(id, [Fail(fd), Close]), s')
    ensures id in s'.workers && WorkerRuns(s.workers[id], [Fail(fd), Close], s'.workers[id])
    ensures s'.workers[id].inbox == s.workers[id].inbox && s'.frames == s.frames && s'.issued == s.issued
  {
    var s1 := Apply(s, ByWorker(id, Fail(fd)));
    s' := Apply(s1, ByWorker(id, Close));
    LiftCons(id, Fail(fd), [Close]);
    LiftCons(id, Close, []);
    assert [Fail(fd)] + [Close] == [Fail(fd), Close] && [Close] + [] == [Close];
    RunsStep(s1, ByWorker(id, Close), [], s');
    RunsStep(s, ByWorker(id, Fail(fd)), [ByWorker(id, Close)], s');
    assert [Fail(fd), Close][1..] == [Close] && [Close][1..] == [];
  }

  /** Taking a task, with the removal it may ask for. */
  lemma TakeRuns(s: State, id: WorkerId, trace: seq<WorkerStep>, w: Worker) returns (s': State)
    requires id in s.workers && WorkerRuns(s.workers[id], trace, w)
    requires trace != [] && trace[0].Take? && (|trace| == 1 || trace == [trace[0], Close])
    ensures Runs(s, Lift(id, trace), s') && s'.workers == s.workers[id := w]
    ensures w.inbox == s.workers[id].inbox[1..] && s'.frames == s.frames && s'.issued == s.issued
  {
    var s1 := Apply(s, ByWorker(id, trace[0]));
    if |trace| == 1 {
      s' := s1;
      assert trace[1..] == [];
      LiftCons(id, trace[0], []);
      assert [trace[0]] + [] == trace;
      RunsStep(s, ByWorker(id, trace[0]), [], s');
    } else {
      s' := Apply(s1, ByWorker(id, Close));
      assert trace[1..] == [Close] && [Close][1..] == [];
      LiftCons(id, Close, []);
      LiftCons(id, trace[0], [Close]);
      assert [Close] + [] == [Close] && [trace[0]] + [Close] == trace;
      RunsStep(s1, ByWorker(id, Close), [], s');
      RunsStep(s, ByWorker(id, trace[0]), [ByWorker(id, Close)], s');
    }
  }

  /** The connections that `accept` returns are not open, and different. */
  ghost predicate NewFds(ready: seq<Fd>, place: map<Fd, Place>) {
    && (forall fd | fd in ready :: fd !in place)
    && (forall i, j | 0 <= i < j < |ready| :: ready[i] != ready[j])
  }

  lemma {:induction false} AcceptRuns(s: State, id: WorkerId, fd: Fd, ready: seq<Fd>, w: Worker) returns (s': State)
    requires id in s.workers && WorkerRuns(s.workers[id], EpollHandler.Accepting(fd, ready), w)
    requires NewFds(ready, s.place)
    ensures Runs(s, Lift(id, EpollHandler.Accepting(fd, ready)), s') && s'.workers == s.workers[id := w]
    ensures w.inbox == s.workers[id].inbox && s'.frames == s.frames && s'.issued == s.issued
    decreases |ready|
  {
    if ready == [] {
      assert EpollHandler.Accepting(fd, ready) == [];
      s' := s;
    } else {
      var step := Accept(fd, ready[0]);
      assert EpollHandler.Accepting(fd, ready) == [step] + EpollHandler.Accepting(fd, ready[1..]);
      assert EpollHandler.Accepting(fd, ready)[1..] == EpollHandler.Accepting(fd, ready[1..]);
      var s1 := Apply(s, ByWorker(id, step));
      s' := AcceptRuns(s1, id, fd, ready[1..], w);
      LiftCons(id, step, EpollHandler.Accepting(fd, ready[1..]));
      RunsStep(s, ByWorker(id, step), Lift(id, EpollHandler.Accepting(fd, ready[1..])), s');
    }
  }

  lemma {:induction false} WorkerRunsOneWay(w: Worker, trace: seq<WorkerStep>, a: Worker, b: Worker)
    requires WorkerRuns(w, trace, a) && WorkerRuns(w, trace, b)
    ensures a == b
    decreases |trace|
  {
    if trace != [] {
      WorkerRunsOneWay(WorkerApply(w, trace[0]), trace[1..], a, b);
    }
  }


  lemma TraceIs(e: EpollHandler.Event, stream: seq<Byte>, healthy: bool)
    ensures EpollHandler.ClientTrace(e, stream, healthy) == TraceOf(e.fd, Parse(stream).frames, healthy)
  {}
}
