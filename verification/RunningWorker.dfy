/** One worker's code running among all the other threads. Its calls and arbitrary steps
    of the others make up one run of the protocol, in which the frames recorded for each
    of the worker's sessions are the parse of all bytes its connection has received. */
module RunningWorker {
  import opened Bytes
  import opened Framing
  import opened Device
  import opened Tasks
  import opened Protocol
  import opened ProtocolInvariant
  import opened ProtocolPreserved
  import opened ProtocolDescriptors
  import opened ProtocolTheorems
  import opened Connection
  import EpollHandler

  /** The bytes received so far, by session. */
  type Log = map<Sid, seq<Byte>>

  ghost function BytesOf(bytes: Log, sid: Sid): seq<Byte> {
    if sid in bytes then bytes[sid] else []
  }

  /** The protocol has recorded what the connection has delivered, and the log what it
      has received. */
  ghost predicate Recorded(sid: Sid, arrived: seq<Byte>, delivered: seq<seq<Byte>>, s: State, bytes: Log) {
    sid in s.frames && s.frames[sid] == delivered && BytesOf(bytes, sid) == arrived
  }

  /** Worker `id` of the protocol is this object. */
  ghost predicate Coupled(h: EpollHandler.EpollHandler, s: State, id: WorkerId, bytes: Log)
    reads h, h.Repr
  {
    && h.Valid() && id in s.workers && s.workers[id] == h.AsWorker()
    && forall fd | fd in h.byFd && h.byFd[fd].sessionId != LISTENER_SID ::
         Recorded(h.byFd[fd].sessionId, h.byFd[fd].arrived, h.byFd[fd].delivered, s, bytes)
  }

  /** Of all sessions of the worker, also those that are not connected yet or any more,
      the frames recorded are the parse of the bytes received. */
  ghost predicate Logged(s: State, id: WorkerId, bytes: Log) {
    && id in s.workers
    && bytes.Keys <= s.issued.Keys == s.frames.Keys
    && (forall t | t in s.workers[id].inbox && t.Insert? :: t.sid !in bytes)
    && (forall sid | sid in s.issued && s.issued[sid].worker == id ::
          s.frames[sid] == Parse(BytesOf(bytes, sid)).frames)
  }

  class RunningWorker {
    const id: WorkerId
    const code: EpollHandler.EpollHandler
    /** Where the system started, all its steps since, and where it is. */
    ghost var start: State
    ghost var run: seq<Step>
    ghost var now: State
    ghost var bytes: Log

    ghost predicate Valid()
      reads `start, `run, `now, `bytes, code, code.Repr
    {
      && this !in code.Repr
      && Init(start) && Runs(start, run, now) && Inv(now)
      && Coupled(code, now, id, bytes) && Logged(now, id, bytes)
    }

    constructor (id: WorkerId, pressure: int, ghost s: State)
      requires Init(s) && id in s.workers && s.workers[id].tables.pressure == pressure
      ensures Valid() && fresh(code) && fresh(code.Repr)
      ensures this.id == id && start == s && run == [] && now == s && bytes == map[]
    {
      this.id := id;
      code := new EpollHandler.EpollHandler(pressure);
      start, run, now, bytes := s, [], s, map[];
      new;
      InitInv(s);
      assert code.AsWorker().tables.byFd == map[] && code.AsWorker().tables.bySid == map[];
      assert s.workers[id] == code.AsWorker();
      hide Inv, Init;
    }

    /** Over every run made of this worker's calls and the others' steps: what main has
        executed for a session are, in order, the first frames of all bytes that its
        connection has received; all of them once main has executed the OnClose. */
    lemma PacketsComeFromBytes(sid: Sid)
      requires Valid() && sid in now.issued && now.issued[sid].worker == id
      ensures id in now.executed
      ensures PacketsOf(now.executed[id], sid) <= Parse(BytesOf(bytes, sid)).frames
      ensures OnClose(sid) in now.executed[id] ==> PacketsOf(now.executed[id], sid) == Parse(BytesOf(bytes, sid)).frames
    {
      PacketsThenOneClose(start, run, now, sid);
      hide Parse;
    }

    /** Any step of another thread. It may leave tasks for this worker and take what
        this worker has submitted; it changes nothing else of it. */
    method Others(ghost step: Step, inbox: seq<Task>, outbox: seq<Task>)
      requires Valid() && Enabled(now, step) && (step.ByWorker? ==> step.w != id)
      requires id in Apply(now, step).workers
      requires inbox == Apply(now, step).workers[id].inbox && outbox == Apply(now, step).workers[id].outbox
      modifies this`run, this`now, code`inbox, code`outbox
      ensures Valid() && run == old(run) + [step] && now == Apply(old(now), step)
    {
      hide *;
      OthersReady(step);
      ghost var s' := Apply(now, step);
      code.Exchange(inbox, outbox);
      run, now := run + [step], s';
      Whole();
    }

    lemma OthersReady(step: Step)
      requires Valid() && Enabled(now, step) && (step.ByWorker? ==> step.w != id)
      ensures var s' := Apply(now, step);
        && Runs(start, run + [step], s') && Inv(s') && Logged(s', id, bytes)
        && id in s'.workers
        && s'.workers[id] == code.AsWorker().(inbox := s'.workers[id].inbox, outbox := s'.workers[id].outbox)
        && forall fd | fd in code.byFd && code.byFd[fd].sessionId != LISTENER_SID ::
             Recorded(code.byFd[fd].sessionId, code.byFd[fd].arrived, code.byFd[fd].delivered, s', bytes)
      ensures Init(start) && code.Valid() && this !in code.Repr
    {
      Sessions();
      hide Inv, Runs, Init, Logged, Apply, Enabled, EpollHandler.EpollHandler.Valid, EpollHandler.Entries;
      OthersKeep(now, step, id, bytes);
      OneStepRun(now, step);
      RunsAppend(start, run, now, [step], Apply(now, step));
      StepInv(now, step);
    }

    /** The devices are those of sessions that were routed here. */
    lemma Sessions()
      requires Valid()
      ensures forall fd | fd in code.byFd && code.byFd[fd].sessionId != LISTENER_SID ::
        code.byFd[fd].sessionId in now.issued && now.issued[code.byFd[fd].sessionId].worker == id
    {
      var v := ViewOf(now, id);
      assert LocalInv(now.issued, v);
      hide Inv, Runs, Init, Logged, Coupled;
      forall fd | fd in code.byFd && code.byFd[fd].sessionId != LISTENER_SID
        ensures code.byFd[fd].sessionId in now.issued && now.issued[code.byFd[fd].sessionId].worker == id
      {
        assert fd in v.w.tables.byFd;
        assert MyEntry(now.issued, id, v.w.tables.bySid[v.w.tables.byFd[fd].sid]);
      }
    }

    /** Takes the oldest task and executes it. */
    method TakeTask()
      requires Valid() && code.inbox != []
      modifies this`run, this`now, code, code.TouchedBy(code.inbox[0])
      ensures Valid() && old(run) <= run && Runs(old(now), run[|old(run)|..], now)
      ensures fresh(code.Repr - old(code.Repr))
    {
      hide *;
      Parts();
      ghost var s, t := now, code.inbox[0];
      TakeReady();
      ghost var trace := code.TakeTask();
      ghost var s' := TakeRuns(s, id, trace, code.AsWorker());
      StillLogged(s, s', id, bytes);
      Extend(Lift(id, trace), s');
      forall fd | fd in code.byFd && code.byFd[fd].sessionId != LISTENER_SID
        ensures Recorded(code.byFd[fd].sessionId, code.byFd[fd].arrived, code.byFd[fd].delivered, s', bytes)
      {
        StillRecorded(fd, t, old(code.byFd), s, s');
      }
      run, now := run + Lift(id, trace), s';
      Whole();
    }

    predicate IsClient(fd: Fd)
      reads code
    {
      fd in code.byFd && code.byFd[fd].deviceType.IsClient()
    }

    predicate IsServer(fd: Fd)
      reads code
    {
      fd in code.byFd && code.byFd[fd].deviceType.IsServer()
    }

    /** Serves one slot of the event loop; `bytes` grows by what `recv` returned. The
        connections `accept` returns are new. */
    method Serve(e: EpollHandler.Event)
      requires Valid() && (IsServer(e.fd) ==> NewFds(e.ready, now.place))
      modifies this`run, this`now, this`bytes, code, if e.fd in code.byFd then code.byFd[e.fd].Footprint() else {}
      ensures Valid() && old(run) <= run && Runs(old(now), run[|old(run)|..], now)
      ensures fresh(code.Repr - old(code.Repr))
      ensures !old(IsClient(e.fd)) ==> bytes == old(bytes)
      ensures old(IsClient(e.fd)) ==>
        var d := old(code.byFd)[e.fd];
        var seen := EpollHandler.Seen(old(d.socket.inbound), d.socket.inbound);
        bytes == old(bytes)[d.sessionId := BytesOf(old(bytes), d.sessionId) + seen]
    {
      hide Valid, Runs, NewFds, BytesOf, EpollHandler.Seen;
      if IsClient(e.fd) {
        ServeConnection(e);
      } else {
        ServeOther(e);
      }
    }

    method ServeConnection(e: EpollHandler.Event)
      requires Valid() && IsClient(e.fd)
      modifies this`run, this`now, this`bytes, code, code.byFd[e.fd].Footprint()
      ensures Valid() && old(run) <= run && Runs(old(now), run[|old(run)|..], now)
      ensures fresh(code.Repr - old(code.Repr))
      ensures var d := old(code.byFd)[e.fd];
        var seen := EpollHandler.Seen(old(d.socket.inbound), d.socket.inbound);
        bytes == old(bytes)[d.sessionId := BytesOf(old(bytes), d.sessionId) + seen]
    {
      hide *;
      Parts();
      ConnectionReady(e.fd);
      ghost var s, before, log, d := now, code.AsWorker(), bytes, code.byFd[e.fd];
      ghost var stream, inbound, sends := d.Received(), d.socket.inbound, d.socket.sends;
      ghost var arrived, delivered := d.arrived, d.delivered;
      ghost var trace := code.DoEvent(e);
      ghost var seen := EpollHandler.Seen(inbound, d.socket.inbound);
      ghost var healthy := EpollHandler.Healthy(e, sends, d.socket.sends, d.socket.recvs);
      TraceIs(e, stream + seen, healthy);
      ghost var s' := EventRuns(s, id, e.fd, Parse(stream + seen).frames, healthy);
      WorkerRunsOneWay(before, trace, s'.workers[id], code.AsWorker());
      ReadLogged(s, s', id, log, d.sessionId, arrived, delivered, stream, seen);
      Extend(Lift(id, trace), s');
      ghost var log' := log[d.sessionId := BytesOf(log, d.sessionId) + seen];
      forall fd | fd in code.byFd && code.byFd[fd].sessionId != LISTENER_SID
        ensures Recorded(code.byFd[fd].sessionId, code.byFd[fd].arrived, code.byFd[fd].delivered, s', log')
      {
        var o := old(code.byFd)[fd];
        assert old(Recorded(code.byFd[fd].sessionId, code.byFd[fd].arrived, code.byFd[fd].delivered, s, log));
        NextRecord(s, s', log, d.sessionId, Parse(stream + seen).frames, seen,
          o.sessionId, old(o.arrived), old(o.delivered));
      }
      run, now, bytes := run + Lift(id, trace), s', log';
      Whole();
    }

    method ServeOther(e: EpollHandler.Event)
      requires Valid() && !IsClient(e.fd) && (IsServer(e.fd) ==> NewFds(e.ready, now.place))
      modifies this`run, this`now, code, if e.fd in code.byFd then code.byFd[e.fd].Footprint() else {}
      ensures Valid() && old(run) <= run && Runs(old(now), run[|old(run)|..], now)
      ensures fresh(code.Repr - old(code.Repr))
    {
      hide *;
      Parts();
      OtherReady(e.fd);
      ghost var s := now;
      ghost var ready := if IsServer(e.fd) then e.ready else [];
      ghost var trace := code.DoEvent(e);
      ghost var s' := AcceptRuns(s, id, e.fd, ready, code.AsWorker());
      StillLogged(s, s', id, bytes);
      Extend(Lift(id, trace), s');
      forall fd | fd in code.byFd && code.byFd[fd].sessionId != LISTENER_SID
        ensures Recorded(code.byFd[fd].sessionId, code.byFd[fd].arrived, code.byFd[fd].delivered, s', bytes)
      {
        var o := old(code.byFd)[fd];
        assert old(Recorded(code.byFd[fd].sessionId, code.byFd[fd].arrived, code.byFd[fd].delivered, s, bytes));
        SameRecord(s, s', bytes, o.sessionId, o.arrived, o.delivered);
      }
      run, now := run + Lift(id, trace), s';
      Whole();
    }

    lemma OtherReady(fd: Fd)
      requires Valid() && !IsClient(fd)
      ensures now.workers[id] == code.AsWorker()
      ensures EpollHandler.Accepting(fd, []) == [] && NewFds([], now.place)
      ensures IsServer(fd) ==> fd in code.byFd
      ensures fd in code.byFd ==>
        var d := code.byFd[fd];
        && d.deviceType !in {ClientInternal, ClientExternal}
        && (if IsServer(fd) then d.deviceType in {ServerInternal, ServerExternal} else d.deviceType.Unknown?)
        && this !in d.Footprint()
        && forall other | other in code.byFd && other != fd :: code.byFd[other] !in d.Footprint()
      ensures forall fd | fd in code.byFd && code.byFd[fd].sessionId != LISTENER_SID ::
        Recorded(code.byFd[fd].sessionId, code.byFd[fd].arrived, code.byFd[fd].delivered, now, bytes)
    {
      if fd in code.byFd {
        forall other | other in code.byFd && other != fd
          ensures code.byFd[other] !in code.byFd[fd].Footprint()
        {
          code.Apart(other, fd);
        }
        code.Weaken(fd);
        code.FdEntry(fd);
      }
    }

    /** What is known of a connection before one of its events. */
    lemma ConnectionReady(fd: Fd)
      requires Valid() && IsClient(fd)
      ensures fd in code.byFd && code.byFd[fd].deviceType in {ClientInternal, ClientExternal}
      ensures now.workers[id] == code.AsWorker()
      ensures now.workers[id].pc.Idle? && fd in now.workers[id].tables.byFd
      ensures now.workers[id].tables.byFd[fd].dtype.IsClient()
      ensures var d := code.byFd[fd];
        && now.workers[id].tables.byFd[fd].sid == d.sessionId
        && d.Valid() && Parse(d.arrived) == Continue(d.delivered, d.Received())
        && this !in d.Footprint()
        && d.sessionId in now.frames && d.sessionId in now.issued
        && (forall t | t in now.workers[id].inbox && t.Insert? :: t.sid != d.sessionId)
        && (forall other | other in code.byFd && other != fd ::
              code.byFd[other] !in d.Footprint() && code.byFd[other].sessionId != d.sessionId)
      ensures forall fd | fd in code.byFd && code.byFd[fd].sessionId != LISTENER_SID ::
        Recorded(code.byFd[fd].sessionId, code.byFd[fd].arrived, code.byFd[fd].delivered, now, bytes)
      ensures code.byFd[fd].sessionId != LISTENER_SID
    {
      forall other | other in code.byFd && other != fd
        ensures code.byFd[other] !in code.byFd[fd].Footprint() && code.byFd[other].sessionId != code.byFd[fd].sessionId
      {
        code.Apart(other, fd);
      }
      code.Weaken(fd);
      code.FdEntry(fd);
      LiveConnection(now, id, fd);
    }

    /** Before a task is taken: the session of an Insert has no record. */
    lemma TakeReady()
      requires Valid() && code.inbox != []
      ensures var t := code.inbox[0];
        t.Insert? ==> t.sid in now.frames && now.frames[t.sid] == [] && BytesOf(bytes, t.sid) == []
      ensures forall fd | fd in code.byFd && code.byFd[fd].sessionId != LISTENER_SID ::
        Recorded(code.byFd[fd].sessionId, code.byFd[fd].arrived, code.byFd[fd].delivered, now, bytes)
      ensures now.workers[id] == code.AsWorker() && this !in code.TouchedBy(code.inbox[0])
      ensures forall fd | fd in code.byFd :: code.byFd[fd] in code.byFd.Values
    {
      var t := code.inbox[0];
      if t.Insert? {
        InsertIsSilent(now, id);
        assert t in now.workers[id].inbox;
      }
      hide Inv, Runs, Init;
    }

    /** A device that was there before the task, or is new. */
    lemma StillRecorded(fd: Fd, t: Task, before: map<Fd, DeviceInfo>, s: State, s': State)
      requires fd in code.byFd && code.KeptOrNew(before, fd, t) && s'.frames == s.frames
      requires fd in before && before[fd].sessionId != LISTENER_SID ==>
        Recorded(before[fd].sessionId, before[fd].arrived, before[fd].delivered, s, bytes)
      requires t.Insert? ==> t.sid in s.frames && s.frames[t.sid] == [] && BytesOf(bytes, t.sid) == []
      requires code.byFd[fd].sessionId != LISTENER_SID
      ensures Recorded(code.byFd[fd].sessionId, code.byFd[fd].arrived, code.byFd[fd].delivered, s', bytes)
    {}

    lemma Extend(more: seq<Step>, s': State)
      requires Init(start) && Runs(start, run, now) && Inv(now) && Runs(now, more, s')
      ensures Runs(start, run + more, s') && Inv(s')
    {
      hide Inv, Runs, Init;
      RunsAppend(start, run, now, more, s');
      RunInv(now, more, s');
    }

    lemma Parts()
      requires Valid()
      ensures Init(start) && Runs(start, run, now) && Inv(now)
      ensures Coupled(code, now, id, bytes) && Logged(now, id, bytes) && id in now.workers
      ensures code.Valid() && this !in code.Repr
    {}

    lemma Whole()
      requires this !in code.Repr && Init(start) && Runs(start, run, now) && Inv(now) && Logged(now, id, bytes)
      requires code.Valid() && id in now.workers && now.workers[id] == code.AsWorker()
      requires forall fd | fd in code.byFd && code.byFd[fd].sessionId != LISTENER_SID ::
        Recorded(code.byFd[fd].sessionId, code.byFd[fd].arrived, code.byFd[fd].delivered, now, bytes)
      ensures Valid()
    {}
  }

  /** Taking a task changes no record. */
  lemma StillLogged(s: State, s': State, id: WorkerId, bytes: Log)
    requires Logged(s, id, bytes) && id in s'.workers
    requires forall t | t in s'.workers[id].inbox :: t in s.workers[id].inbox
    requires s'.frames == s.frames && s'.issued == s.issued
    ensures Logged(s', id, bytes)
  {
    hide Parse;
  }

  /** While an Insert is queued nothing has been read for its session. */
  lemma InsertIsSilent(s: State, id: WorkerId)
    requires Inv(s) && id in s.workers && s.workers[id].inbox != [] && s.workers[id].inbox[0].Insert?
    ensures var t := s.workers[id].inbox[0]; t.sid in s.frames && s.frames[t.sid] == []
  {
    var v := ViewOf(s, id);
    var t := v.w.inbox[0];
    assert LocalInv(s.issued, v) && MyTask(s.issued, id, t);
    assert WorkerHalf(v, s.issued[t.sid], t.sid);
    SilentHasNoPackets(v.Stream(), t.sid);
  }

  /** A connection is a session of the worker, whose Insert has been taken. */
  lemma LiveConnection(s: State, id: WorkerId, fd: Fd)
    requires Inv(s) && id in s.workers && fd in s.workers[id].tables.byFd
    requires s.workers[id].tables.byFd[fd].dtype.IsClient()
    ensures var sid := s.workers[id].tables.byFd[fd].sid;
      && sid != LISTENER_SID && sid in s.issued && sid in s.frames
      && forall t | t in s.workers[id].inbox && t.Insert? :: t.sid != sid
  {
    var v := ViewOf(s, id);
    var sid := v.w.tables.byFd[fd].sid;
    assert LocalInv(s.issued, v);
    assert MyEntry(s.issued, id, v.w.tables.bySid[sid]);
    assert WorkerHalf(v, s.issued[sid], sid);
    forall t | t in v.w.inbox && t.Insert? ensures t.sid != sid {
      assert MyTask(s.issued, id, t);
    }
  }

  /** Bytes read on a connection: what it delivers is what they add to the parse. */
  lemma ReadLogged(s: State, s': State, id: WorkerId, bytes: Log, sid: Sid,
      arrived: seq<Byte>, delivered: seq<seq<Byte>>, stream: seq<Byte>, seen: seq<Byte>)
    requires Logged(s, id, bytes) && Recorded(sid, arrived, delivered, s, bytes) && sid in s.issued
    requires Parse(arrived) == Continue(delivered, stream)
    requires forall t | t in s.workers[id].inbox && t.Insert? :: t.sid != sid
    requires id in s'.workers && s'.workers[id].inbox == s.workers[id].inbox && s'.issued == s.issued
    requires s'.frames == s.frames[sid := s.frames[sid] + Parse(stream + seen).frames]
    ensures Logged(s', id, bytes[sid := BytesOf(bytes, sid) + seen])
  {
    ContinueAppend(arrived, delivered, stream, seen);
    hide Parse;
  }

  lemma SameRecord(s: State, s': State, bytes: Log, sid: Sid, arrived: seq<Byte>, delivered: seq<seq<Byte>>)
    requires Recorded(sid, arrived, delivered, s, bytes) && s'.frames == s.frames
    ensures Recorded(sid, arrived, delivered, s', bytes)
  {}

  /** The record of a connection after bytes were read on the one of session `sid`. */
  lemma NextRecord(s: State, s': State, bytes: Log, sid: Sid, frames: seq<seq<Byte>>, seen: seq<Byte>,
      other: Sid, arrived: seq<Byte>, delivered: seq<seq<Byte>>)
    requires Recorded(other, arrived, delivered, s, bytes) && sid in s.frames
    requires s'.frames == s.frames[sid := s.frames[sid] + frames]
    ensures var bytes' := bytes[sid := BytesOf(bytes, sid) + seen];
      if other == sid then Recorded(other, arrived + seen, delivered + frames, s', bytes')
      else Recorded(other, arrived, delivered, s', bytes')
  {}

  /** What a step of another thread leaves of the records of sessions. */
  lemma OthersFrames(s: State, step: Step, id: WorkerId)
    requires Inv(s) && Enabled(s, step) && (step.ByWorker? ==> step.w != id)
    ensures var s' := Apply(s, step);
      && s.issued.Keys <= s'.issued.Keys == s'.frames.Keys
      && (forall sid | sid in s.issued :: s'.issued[sid] == s.issued[sid])
      && (forall sid | sid in s.issued && s.issued[sid].worker == id :: s'.frames[sid] == s.frames[sid])
      && (forall sid | sid in s'.issued && sid !in s.issued :: s'.frames[sid] == [])
  {
    if step.ByWorker? && step.step.Receive? {
      var v := ViewOf(s, step.w);
      assert LocalInv(s.issued, v);
      hide Inv;
      assert MyEntry(s.issued, step.w, v.w.tables.bySid[v.w.tables.byFd[step.step.fd].sid]);
    }
  }

  /** Only a Route leaves an Insert for a worker, and of a new session. */
  lemma OthersInbox(s: State, step: Step, id: WorkerId)
    requires Inv(s) && Enabled(s, step) && id in s.workers && (step.ByWorker? ==> step.w != id)
    ensures var s' := Apply(s, step);
      && id in s'.workers && s'.workers[id].tables == s.workers[id].tables && s'.workers[id].pc == s.workers[id].pc
      && forall t | t in s'.workers[id].inbox && t.Insert? :: t in s.workers[id].inbox || t.sid !in s.issued
  {
    hide Inv, LocalInv, Workers, Shape;
    InvParts(s);
    OthersLeaveTablesAlone(s, step, id);
    match step
    case TakeAtMain(w) =>
      LocalOf(s, w);
      LocalTaken(s.issued, ViewOf(s, w));
    case ByMain(ms) =>
      var post := MainApply(s.main, ms).1;
      assert Apply(s, step).workers == Deliver(s.workers, post);
    case _ =>
  }

  lemma InvParts(s: State)
    requires Inv(s)
    ensures Shape(s) && Workers(s)
  {}

  lemma LocalOf(s: State, id: WorkerId)
    requires Inv(s) && id in s.workers
    ensures id in s.executed && LocalInv(s.issued, ViewOf(s, id))
  {}

  /** A step of another thread changes neither the worker's devices nor what is recorded
      for its sessions. */
  lemma OthersKeep(s: State, step: Step, id: WorkerId, bytes: Log)
    requires Inv(s) && Enabled(s, step) && Logged(s, id, bytes) && (step.ByWorker? ==> step.w != id)
    ensures var s' := Apply(s, step);
      && Logged(s', id, bytes)
      && s'.workers[id].tables == s.workers[id].tables && s'.workers[id].pc == s.workers[id].pc
      && forall sid | sid in s.issued && s.issued[sid].worker == id ::
           sid in s'.frames && s'.frames[sid] == s.frames[sid]
  {
    hide Inv, Enabled, Apply;
    OthersFrames(s, step, id);
    OthersInbox(s, step, id);
    assert Parse([]).frames == [];
    hide Parse;
  }
}
