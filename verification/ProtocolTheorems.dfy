/** What holds in every state that any interleaving of main and the workers reaches. */
module ProtocolTheorems {
  import opened Bytes
  import opened Device
  import opened Framing
  import opened Tasks
  import opened Protocol
  import opened ProtocolInvariant
  import opened ProtocolPreserved
  import opened ProtocolDescriptors

  lemma InitInv(s: State)
    requires Init(s)
    ensures Inv(s)
  {}

  lemma StepInv(s: State, step: Step)
    requires Inv(s) && Enabled(s, step)
    ensures Inv(Apply(s, step))
  {
    hide Shape, Workers, Sessions, Descriptors, StreamOrder;
    ShapeKept(s, step);
    WorkersKept(s, step);
    SessionsKept(s, step);
    DescriptorsKept(s, step);
    StreamOrderKept(s, step);
  }

  /** The invariant holds at the end of every run. */
  lemma {:induction false} RunInv(s: State, run: seq<Step>, s': State)
    requires Inv(s) && Runs(s, run, s')
    ensures Inv(s')
    decreases |run|
  {
    if run != [] {
      StepInv(s, run[0]);
      RunInv(Apply(s, run[0]), run[1..], s');
    }
  }

  /** At quiescence, when no task is queued anywhere and no thread is between two steps,
      main and the workers agree: the sessions main holds for a worker
      are exactly the session ids, other than a listener's, in its device table. */
  lemma TablesAgreeAtQuiescence(s0: State, run: seq<Step>, s: State, id: WorkerId, sid: Sid)
    requires Init(s0) && Runs(s0, run, s) && id in s.workers
    requires s.main.pc.Free? && forall w | w in s.workers ::
      s.workers[w].pc.Idle? && s.workers[w].inbox == [] && s.workers[w].outbox == []
    ensures sid in s.main.sessions && s.main.sessions[sid].thread == id
            <==> sid in s.workers[id].tables.bySid && sid != LISTENER_SID
  {
    InitInv(s0);
    RunInv(s0, run, s);
    assert LocalInv(s.issued, ViewOf(s, id));
    if sid in s.main.sessions && s.main.sessions[sid].thread == id {
      assert MainHalf(s.main, s.closed, Home(s, sid), s.issued[sid], sid);
      assert Home(s, sid).Stream() == Home(s, sid).executed;
    }
    if sid in s.workers[id].tables.bySid && sid != LISTENER_SID {
      assert MyEntry(s.issued, id, s.workers[id].tables.bySid[sid]);
      assert MainHalf(s.main, s.closed, Home(s, sid), s.issued[sid], sid);
    }
  }

  // ---------- Descriptors ----------

  /** The rejection branch of `addDevice` is never taken for a client connection. */
  lemma InsertNeverRejected(s0: State, run: seq<Step>, s: State, id: WorkerId)
    requires Init(s0) && Runs(s0, run, s) && id in s.workers
    requires s.workers[id].inbox != [] && s.workers[id].inbox[0].Insert?
    ensures var t := s.workers[id].inbox[0];
      var tables := s.workers[id].tables;
      && !tables.Rejects(t.fd, t.sid)
      && tables.Add(t.fd, t.sid, t.dtype).bySid == tables.bySid[t.sid := Entry(t.fd, t.sid, t.dtype)]
  {
    InitInv(s0);
    RunInv(s0, run, s);
    InsertAccepted(s, id);
  }

  // ---------- What main executes ----------

  /** Over any run, per session: at most one OnClose is ever submitted, nothing about
      the session follows it, and the Packet tasks main has executed are, in order, a
      prefix of the frames the worker has read from the connection; all of them once
      the OnClose has been executed. */
  lemma PacketsThenOneClose(s0: State, run: seq<Step>, s: State, sid: Sid)
    requires Init(s0) && Runs(s0, run, s) && sid in s.issued
    ensures var id := s.issued[sid].worker;
      && id in s.workers && id in s.executed && sid in s.frames
      && var stream := s.executed[id] + s.workers[id].outbox;
      && (forall i, j | 0 <= i < j < |stream| && stream[i] == OnClose(sid) ::
            stream[j] != OnClose(sid) && !(stream[j].Packet? && stream[j].sid == sid) && !stream[j].Mentions(sid))
      && PacketsOf(s.executed[id], sid) <= s.frames[sid]
      && (OnClose(sid) in s.executed[id] ==> PacketsOf(s.executed[id], sid) == s.frames[sid])
  {
    InitInv(s0);
    RunInv(s0, run, s);
    var v := Home(s, sid);
    assert LocalInv(s.issued, v);
    PacketsAppend(v.executed, v.w.outbox, sid);
    if CloseExecuted(v, sid) {
      ClosedIsSilent(v, sid);
      SilentHasNoPackets(v.w.outbox, sid);
    }
  }

  lemma ClosedIsSilent(v: View, sid: Sid)
    requires CloseLast(v.Stream()) && CloseExecuted(v, sid)
    ensures Silent(v.w.outbox, sid)
  {
    var i :| 0 <= i < |v.executed| && v.executed[i] == OnClose(sid);
    forall t | t in v.w.outbox ensures !t.Mentions(sid) {
      var j :| 0 <= j < |v.w.outbox| && v.w.outbox[j] == t;
      assert v.Stream()[i] == OnClose(sid) && v.Stream()[|v.executed| + j] == t;
    }
  }

  /** Sessions live at one worker only: the other workers submit nothing about them. */
  lemma OneWorkerPerSession(s0: State, run: seq<Step>, s: State, id: WorkerId, sid: Sid)
    requires Init(s0) && Runs(s0, run, s) && id in s.workers
    requires sid !in s.issued || s.issued[sid].worker != id
    ensures id in s.executed
    ensures sid in s.workers[id].tables.bySid ==> sid == LISTENER_SID
    ensures forall t | t in s.executed[id] || t in s.workers[id].outbox || t in s.workers[id].inbox ::
      !t.Mentions(sid) && (t.Listener? || t.Conn? || t.sid != sid)
  {
    InitInv(s0);
    RunInv(s0, run, s);
    var v := ViewOf(s, id);
    assert LocalInv(s.issued, v);
    forall t | t in v.executed || t in v.w.outbox || t in v.w.inbox ensures !t.Mentions(sid) {
      assert t in v.Stream() || t in v.w.inbox;
      assert MyTask(s.issued, id, t);
    }
    if sid in v.w.tables.bySid {
      assert MyEntry(s.issued, id, v.w.tables.bySid[sid]);
    }
  }

  /** When main takes a packet of a session it does not hold, main itself had closed
      that session. */
  lemma OrphanPacketMeansMainClosed(s0: State, run: seq<Step>, s: State, id: WorkerId)
    requires Init(s0) && Runs(s0, run, s) && Enabled(s, TakeAtMain(id))
    requires var t := s.workers[id].outbox[0]; t.Packet? && t.sid !in s.main.sessions
    ensures s.workers[id].outbox[0].sid in s.closed
  {
    InitInv(s0);
    RunInv(s0, run, s);
    var v := ViewOf(s, id);
    var t := v.w.outbox[0];
    assert LocalInv(s.issued, v);
    assert v.Stream()[|v.executed|] == t && t in v.Stream();
    assert MyTask(s.issued, id, t) && t.Mentions(t.sid);
    assert MainHalf(s.main, s.closed, v, s.issued[t.sid], t.sid);
    if CloseExecuted(v, t.sid) {
      ClosedIsSilent(v, t.sid);
      assert false;
    }
  }

  // ---------- Device tables ----------

  /** Main runs the same virtual `dotask` on a worker's object, but never touches the
      worker's tables: no task it takes is of a type that handles devices. */
  lemma MainLeavesTablesAlone(s0: State, run: seq<Step>, s: State, step: Step, id: WorkerId)
    requires Init(s0) && Runs(s0, run, s) && Enabled(s, step) && id in s.workers
    requires !step.ByWorker? || step.w != id
    ensures id in Apply(s, step).workers
    ensures Apply(s, step).workers[id].tables == s.workers[id].tables
  {
    InitInv(s0);
    RunInv(s0, run, s);
    OthersLeaveTablesAlone(s, step, id);
  }

  lemma OthersLeaveTablesAlone(s: State, step: Step, id: WorkerId)
    requires Shape(s) && Workers(s) && Enabled(s, step) && id in s.workers
    requires !step.ByWorker? || step.w != id
    ensures id in Apply(s, step).workers
    ensures Apply(s, step).workers[id].tables == s.workers[id].tables
  {
    hide LocalInv;
    match step
    case TakeAtMain(i) =>
      LocalTaken(s.issued, ViewOf(s, i));
    case ByMain(ms) =>
      var post := MainApply(s.main, ms).1;
      assert Apply(s, step).workers == Deliver(s.workers, post);
    case _ =>
  }

  /** The descriptor index and the session index of a worker stay keyings of one
      device set, whose size the pressure counter follows from its initial value. */
  lemma {:induction false} IndexesAgree(s0: State, run: seq<Step>, s: State, id: WorkerId)
    requires Inv(s0) && id in s0.workers && Runs(s0, run, s)
    ensures id in s.workers && SameDrift(s0.workers[id].tables, s.workers[id].tables)
    ensures var t0, t := s0.workers[id].tables, s.workers[id].tables;
      && t.pressure - t0.pressure == |t.byFd| - |t0.byFd| == |t.bySid| - |t0.bySid|
      && (forall fd | fd in t.byFd :: t.byFd[fd].fd == fd && t.byFd[fd].sid in t.bySid)
      && (forall sid | sid in t.bySid :: t.bySid[sid].sid == sid && t.bySid[sid].fd in t.byFd)
      && (forall fd | fd in t.byFd :: t.bySid[t.byFd[fd].sid] == t.byFd[fd])
    decreases |run|
  {
    assert LocalInv(s0.issued, ViewOf(s0, id));
    if run != [] {
      var s1 := Apply(s0, run[0]);
      StepInv(s0, run[0]);
      StepDrift(s0, run[0], id);
      IndexesAgree(s1, run[1..], s, id);
    }
  }

  lemma StepDrift(s: State, step: Step, id: WorkerId)
    requires Inv(s) && Enabled(s, step) && id in s.workers
    ensures id in Apply(s, step).workers
    ensures SameDrift(s.workers[id].tables, Apply(s, step).workers[id].tables)
  {
    assert LocalInv(s.issued, ViewOf(s, id));
    if step.ByWorker? && step.w == id {
      WorkerDrift(s.workers[id], step.step);
    } else {
      OthersLeaveTablesAlone(s, step, id);
    }
  }

  lemma WorkerDrift(w: Worker, step: WorkerStep)
    requires w.tables.Agree() && WorkerEnabled(w, step)
    ensures SameDrift(w.tables, WorkerApply(w, step).tables)
  {
    match step
    case Take(_) =>
      match w.inbox[0] {
        case Listener(fd, dtype) => OperationsDrift(w.tables, fd, LISTENER_SID, dtype);
        case Insert(fd, dtype, sid) => OperationsDrift(w.tables, fd, sid, dtype);
        case Delete(sid) => OperationsDrift(w.tables, 0, sid, Unknown);
        case _ =>
      }
    case Close =>
      OperationsDrift(w.tables, w.pc.fd, 0, Unknown);
    case _ =>
  }
}
