/** Every step keeps the invariant of `ProtocolInvariant`. */
module ProtocolPreserved {
  import opened Bytes
  import opened Device
  import opened Framing
  import opened Tasks
  import opened Protocol
  import opened ProtocolInvariant

  function After(v: View, w': Worker): View {
    v.(w := w')
  }

  // ---------- The worker's own steps keep its local invariant ----------

  /** Submitting a task about a session that has not been reported. */
  lemma LocalSubmit(issued: map<Sid, Origin>, v: View, t: Task)
    requires LocalInv(issued, v) && v.w.pc.Idle?
    requires t.Conn? || t.Packet?
    requires t.Packet? ==> t.sid in issued && issued[t.sid].worker == v.id && DeviceLive(v, t.sid)
    ensures LocalInv(issued, After(v, v.w.(outbox := v.w.outbox + [t])))
  {
    var v' := After(v, v.w.(outbox := v.w.outbox + [t]));
    assert v'.Stream() == v.Stream() + [t];
  }

  lemma LocalReport(issued: map<Sid, Origin>, v: View, sid: Sid)
    requires LocalInv(issued, v) && v.w.pc.Idle?
    requires sid in issued && issued[sid].worker == v.id && DeviceLive(v, sid)
    ensures LocalInv(issued, After(v, Report(v.w, v.w.tables.bySid[sid])))
  {
    var v' := After(v, Report(v.w, v.w.tables.bySid[sid]));
    assert v'.Stream() == v.Stream() + [OnClose(sid)];
  }

  lemma LocalClose(issued: map<Sid, Origin>, v: View)
    requires LocalInv(issued, v) && v.w.pc.Closing?
    ensures LocalInv(issued, After(v, WorkerApply(v.w, Close)))
  {
    var v' := After(v, WorkerApply(v.w, Close));
    assert v'.Stream() == v.Stream();
  }

  lemma LocalTakeInsert(issued: map<Sid, Origin>, v: View)
    requires LocalInv(issued, v) && v.w.pc.Idle? && v.w.inbox != [] && v.w.inbox[0].Insert?
    ensures LocalInv(issued, After(v, WorkerApply(v.w, Take(true))))
  {
    var t := v.w.inbox[0];
    var v' := After(v, WorkerApply(v.w, Take(true)));
    assert t in v.w.inbox && MyTask(issued, v.id, t) && t.Mentions(t.sid);
    assert v'.Stream() == v.Stream();
  }

  lemma LocalTakeDelete(issued: map<Sid, Origin>, v: View)
    requires LocalInv(issued, v) && v.w.pc.Idle? && v.w.inbox != [] && v.w.inbox[0].Delete?
    ensures LocalInv(issued, After(v, WorkerApply(v.w, Take(true))))
  {
    assert After(v, WorkerApply(v.w, Take(true))).Stream() == v.Stream();
  }

  lemma LocalTakeListener(issued: map<Sid, Origin>, v: View)
    requires LocalInv(issued, v) && v.w.pc.Idle? && v.w.inbox != [] && v.w.inbox[0].Listener?
    ensures LocalInv(issued, After(v, WorkerApply(v.w, Take(true))))
  {
    assert v.w.inbox[0] in v.w.inbox;
    assert After(v, WorkerApply(v.w, Take(true))).Stream() == v.Stream();
  }

  /** Popping a task without effect on the tables. */
  lemma LocalDrop(issued: map<Sid, Origin>, v: View)
    requires LocalInv(issued, v) && v.w.pc.Idle? && v.w.inbox != [] && v.w.inbox[0].Send?
    ensures LocalInv(issued, After(v, v.w.(inbox := v.w.inbox[1..])))
    ensures var sid := v.w.inbox[0].sid; sid in issued && issued[sid].worker == v.id
  {
    var t := v.w.inbox[0];
    assert t in v.w.inbox && MyTask(issued, v.id, t) && t.Mentions(t.sid);
    assert After(v, v.w.(inbox := v.w.inbox[1..])).Stream() == v.Stream();
  }

  lemma HeadForWorker(issued: map<Sid, Origin>, v: View)
    requires LocalInv(issued, v) && v.w.inbox != []
    ensures v.w.inbox[0].ForWorker()
  {
    assert v.w.inbox[0] in v.w.inbox;
  }

  lemma LocalTake(issued: map<Sid, Origin>, v: View, alive: bool)
    requires LocalInv(issued, v) && WorkerEnabled(v.w, Take(alive))
    ensures LocalInv(issued, After(v, WorkerApply(v.w, Take(alive))))
  {
    hide LocalInv;
    HeadForWorker(issued, v);
    match v.w.inbox[0]
    case Listener(fd, dtype) =>
      LocalTakeListener(issued, v);
    case Insert(fd, dtype, sid) =>
      LocalTakeInsert(issued, v);
    case Delete(sid) =>
      LocalTakeDelete(issued, v);
    case Send(sid, data) =>
      LocalDrop(issued, v);
      var v1 := After(v, v.w.(inbox := v.w.inbox[1..]));
      if DeviceLive(v1, sid) && !alive {
        LocalReport(issued, v1, sid);
      }
    case _ =>
      assert false;
  }

  /** One step of a worker: its local invariant survives. */
  lemma LocalStep(issued: map<Sid, Origin>, v: View, step: WorkerStep)
    requires LocalInv(issued, v) && WorkerEnabled(v.w, step)
    ensures LocalInv(issued, After(v, WorkerApply(v.w, step)))
  {
    match step
    case Take(alive) =>
      LocalTake(issued, v, alive);
    case Accept(lfd, fd) =>
      LocalSubmit(issued, v, Conn(fd, v.w.tables.byFd[lfd].dtype.ClientType()));
    case Receive(fd, data) =>
      ClientHasSession(issued, v, fd);
      LocalSubmit(issued, v, Packet(v.w.tables.byFd[fd].sid, data));
    case Fail(fd) =>
      ClientHasSession(issued, v, fd);
      LocalReport(issued, v, v.w.tables.byFd[fd].sid);
    case Close =>
      LocalClose(issued, v);
  }

  lemma ClientHasSession(issued: map<Sid, Origin>, v: View, fd: Fd)
    requires LocalInv(issued, v)
    requires fd in v.w.tables.byFd && v.w.tables.byFd[fd].dtype.IsClient()
    ensures var sid := v.w.tables.byFd[fd].sid;
      sid in issued && issued[sid].worker == v.id && DeviceLive(v, sid) && v.w.tables.bySid[sid] == v.w.tables.byFd[fd]
  {
    assert MyEntry(issued, v.id, v.w.tables.bySid[v.w.tables.byFd[fd].sid]);
  }

  /** Main takes a task: the worker's stream is unchanged, and executing the task
      leaves the worker alone, although main runs the worker's own `dotask`. */
  lemma LocalTaken(issued: map<Sid, Origin>, v: View)
    requires LocalInv(issued, v) && v.w.outbox != []
    ensures var t := v.w.outbox[0]; var w' := v.w.(outbox := v.w.outbox[1..]);
      && t.ForMain() && Dispatch(w', t, true) == w'
      && LocalInv(issued, View(v.id, w', v.executed + [t]))
  {
    var t := v.w.outbox[0];
    var v' := View(v.id, v.w.(outbox := v.w.outbox[1..]), v.executed + [t]);
    assert v'.Stream() == v.Stream();
    assert t in v.Stream();
  }

  /** Main pushes a task about a session of this worker. */
  lemma LocalPush(issued: map<Sid, Origin>, v: View, t: Task)
    requires LocalInv(issued, v)
    requires t.ForWorker() && !t.Insert?
    requires MyTask(issued, v.id, t)
    requires t.Listener? ==> t.dtype.IsServer()
    ensures LocalInv(issued, After(v, v.w.(inbox := v.w.inbox + [t])))
  {
    var v' := After(v, v.w.(inbox := v.w.inbox + [t]));
    assert v'.Stream() == v.Stream();
  }

  /** Main issues a new id to this worker and pushes its Insert. */
  lemma LocalRoute(issued: map<Sid, Origin>, v: View, sid: Sid, fd: Fd, dtype: DeviceType)
    requires LocalInv(issued, v)
    requires sid !in issued && sid != LISTENER_SID
    ensures LocalInv(issued[sid := Origin(v.id, fd, dtype)],
      After(v, v.w.(inbox := v.w.inbox + [Insert(fd, dtype, sid)])))
  {
    var v' := After(v, v.w.(inbox := v.w.inbox + [Insert(fd, dtype, sid)]));
    assert v'.Stream() == v.Stream();
    assert Silent(v.w.inbox, sid) && Silent(v.Stream(), sid);
  }

  lemma LocalOthersRoute(issued: map<Sid, Origin>, v: View, sid: Sid, o: Origin)
    requires LocalInv(issued, v)
    requires sid !in issued && sid != LISTENER_SID && o.worker != v.id
    ensures LocalInv(issued[sid := o], v)
  {}

  // ---------- The sessions seen from main ----------

  /** A step of the session's own worker. */
  lemma HalfWorkerStep(m: Main, closed: set<Sid>, issued: map<Sid, Origin>, v: View, step: WorkerStep, sid: Sid)
    requires LocalInv(issued, v) && WorkerEnabled(v.w, step)
    requires sid in issued && issued[sid].worker == v.id
    requires step.Take? && v.w.inbox[0].Insert? ==> v.w.inbox[0].fd !in v.w.tables.byFd
    requires MainHalf(m, closed, v, issued[sid], sid)
    ensures MainHalf(m, closed, After(v, WorkerApply(v.w, step)), issued[sid], sid)
  {
    var o := issued[sid];
    var v' := After(v, WorkerApply(v.w, step));
    assert WorkerHalf(v, o, sid);
    LocalStep(issued, v, step);
    assert WorkerHalf(v', o, sid);
    match step
    case Take(alive) =>
      HalfTake(m, closed, issued, v, alive, sid);
    case Accept(_, _) =>
    case Receive(_, _) =>
    case Fail(fd) =>
      ClientHasSession(issued, v, fd);
    case Close =>
  }

  lemma HalfTake(m: Main, closed: set<Sid>, issued: map<Sid, Origin>, v: View, alive: bool, sid: Sid)
    requires LocalInv(issued, v) && WorkerEnabled(v.w, Take(alive))
    requires sid in issued && issued[sid].worker == v.id
    requires v.w.inbox[0].Insert? ==> v.w.inbox[0].fd !in v.w.tables.byFd
    requires MainHalf(m, closed, v, issued[sid], sid)
    ensures MainHalf(m, closed, After(v, WorkerApply(v.w, Take(alive))), issued[sid], sid)
  {
    var o := issued[sid];
    var t := v.w.inbox[0];
    assert t in v.w.inbox && t.ForWorker() && MyTask(issued, v.id, t);
    if t.Mentions(sid) {
      assert t.Insert? ==> t == Insert(o.fd, o.dtype, sid);
      assert Insert(o.fd, o.dtype, sid) !in v.w.inbox[1..];
    }
  }

  /** Main executes the task at the head of the worker's queue. */
  lemma HalfExecute(m: Main, closed: set<Sid>, issued: map<Sid, Origin>, v: View, sid: Sid)
    requires LocalInv(issued, v) && v.w.outbox != [] && m.pc.Free?
    requires sid in issued && issued[sid].worker == v.id
    requires MainHalf(m, closed, v, issued[sid], sid)
    ensures var t := v.w.outbox[0];
      MainHalf(MainApply(m, Execute(t)).0, closed, View(v.id, v.w.(outbox := v.w.outbox[1..]), v.executed + [t]),
        issued[sid], sid)
  {
    var t := v.w.outbox[0];
    var v' := View(v.id, v.w.(outbox := v.w.outbox[1..]), v.executed + [t]);
    assert v'.Stream() == v.Stream();
    assert t in v.Stream() && t.ForMain();
    assert WorkerHalf(v, issued[sid], sid);
  }

  /** Main executes a task of another worker: it is about other sessions. */
  lemma HalfExecuteOther(m: Main, closed: set<Sid>, issued: map<Sid, Origin>, u: View, v: View, sid: Sid)
    requires LocalInv(issued, u) && u.w.outbox != [] && m.pc.Free?
    requires sid in issued && issued[sid].worker == v.id != u.id
    requires MainHalf(m, closed, v, issued[sid], sid)
    ensures MainHalf(MainApply(m, Execute(u.w.outbox[0])).0, closed, v, issued[sid], sid)
  {
    assert u.w.outbox[0] in u.Stream();
    assert MyTask(issued, u.id, u.w.outbox[0]);
  }

  /** Main's own steps that push nothing about `sid`, or push its Delete. */
  lemma HalfMainStep(m: Main, closed: set<Sid>, v: View, o: Origin, step: MainStep, sid: Sid)
    requires MainEnabled(m, step) && !step.Execute? && !step.Route?
    requires o.worker == v.id && MainHalf(m, closed, v, o, sid)
    ensures var (m', post) := MainApply(m, step);
      var closed' := if step.CloseConn? && OnMain(m, step.sid) then closed + {step.sid} else closed;
      var w' := if post.Post? && post.worker == v.id then v.w.(inbox := v.w.inbox + [post.task]) else v.w;
      MainHalf(m', closed', After(v, w'), o, sid)
  {
    var (m', post) := MainApply(m, step);
    if post.Post? && post.worker == v.id {
      var v' := After(v, v.w.(inbox := v.w.inbox + [post.task]));
      assert v'.Stream() == v.Stream();
    }
  }

  /** A listener task says nothing about sessions. */
  lemma HalfOtherPush(m: Main, closed: set<Sid>, v: View, o: Origin, sid: Sid, t: Task)
    requires MainHalf(m, closed, v, o, sid) && t.Listener?
    ensures MainHalf(m, closed, After(v, v.w.(inbox := v.w.inbox + [t])), o, sid)
  {
    assert After(v, v.w.(inbox := v.w.inbox + [t])).Stream() == v.Stream();
  }

  /** Main issues `newSid`: the other sessions do not notice. */
  lemma HalfRouteOther(m: Main, closed: set<Sid>, v: View, o: Origin, sid: Sid, newSid: Sid, worker: WorkerId)
    requires m.pc.Routing? && newSid != sid
    requires MainHalf(m, closed, v, o, sid)
    ensures var (m', post) := MainApply(m, Route(newSid, worker));
      && MainHalf(m', closed, v, o, sid)
      && MainHalf(m', closed, After(v, v.w.(inbox := v.w.inbox + [post.task])), o, sid)
  {
    var (m', post) := MainApply(m, Route(newSid, worker));
    assert After(v, v.w.(inbox := v.w.inbox + [post.task])).Stream() == v.Stream();
  }

  lemma HalfRouteNew(m: Main, closed: set<Sid>, issued: map<Sid, Origin>, v: View, sid: Sid)
    requires m.pc.Routing? && LocalInv(issued, v)
    requires sid !in issued && sid != LISTENER_SID && sid !in closed && sid !in m.sessions
    ensures var (m', post) := MainApply(m, Route(sid, v.id));
      MainHalf(m', closed, After(v, v.w.(inbox := v.w.inbox + [post.task])), Origin(v.id, m.pc.fd, m.pc.dtype), sid)
  {
    forall t | t in v.w.inbox || t in v.Stream() ensures !t.Mentions(sid) {
      assert MyTask(issued, v.id, t);
    }
    assert forall t | t in v.executed :: t in v.Stream();
    assert !CloseExecuted(v, sid) by { assert OnClose(sid).Mentions(sid); }
  }

  // ---------- Putting the workers and sessions together ----------

  lemma ShapeKept(s: State, step: Step)
    requires Shape(s) && Workers(s) && Sessions(s) && Enabled(s, step)
    ensures Shape(Apply(s, step))
  {
    hide LocalInv;
    match step
    case TakeAtMain(id) =>
      LocalTaken(s.issued, ViewOf(s, id));
    case ByMain(ms) =>
      assert Apply(s, step).workers.Keys == s.workers.Keys;
    case _ =>
  }

  lemma WorkersKept(s: State, step: Step)
    requires Shape(s) && Workers(s) && Sessions(s) && Enabled(s, step) && Shape(Apply(s, step))
    ensures Workers(Apply(s, step))
  {
    hide LocalInv, MainHalf;
    match step
    case ByWorker(id, ws) =>
      LocalStep(s.issued, ViewOf(s, id), ws);
    case TakeAtMain(id) =>
      LocalTaken(s.issued, ViewOf(s, id));
    case StartListener(w, fd, dtype) =>
      LocalPush(s.issued, ViewOf(s, w), Listener(fd, dtype));
    case ByMain(ms) =>
      if ms.Route? {
        WorkersKeptByRoute(s, ms.sid, ms.worker);
      } else {
        WorkersKeptByMain(s, ms);
      }
  }

  lemma WorkersKeptByRoute(s: State, sid: Sid, w: WorkerId)
    requires Shape(s) && Workers(s) && Enabled(s, ByMain(Route(sid, w))) && Shape(Apply(s, ByMain(Route(sid, w))))
    ensures Workers(Apply(s, ByMain(Route(sid, w))))
  {
    hide LocalInv;
    var s' := Apply(s, ByMain(Route(sid, w)));
    forall id | id in s'.workers ensures LocalInv(s'.issued, ViewOf(s', id)) {
      if id == w {
        LocalRoute(s.issued, ViewOf(s, w), sid, s.main.pc.fd, s.main.pc.dtype);
      } else {
        LocalOthersRoute(s.issued, ViewOf(s, id), sid, s'.issued[sid]);
      }
    }
  }

  lemma WorkersKeptByMain(s: State, ms: MainStep)
    requires Shape(s) && Workers(s) && Sessions(s)
    requires Enabled(s, ByMain(ms)) && !ms.Route? && Shape(Apply(s, ByMain(ms)))
    ensures Workers(Apply(s, ByMain(ms)))
  {
    hide LocalInv;
    var post := MainApply(s.main, ms).1;
    assert Apply(s, ByMain(ms)).workers == Deliver(s.workers, post);
    if post.Post? {
      var sid := post.task.sid;
      assert MainHalf(s.main, s.closed, Home(s, sid), s.issued[sid], sid);
      LocalPush(s.issued, Home(s, sid), post.task);
    }
  }

  /** The Insert at the head of a queue is never rejected. */
  lemma InsertAccepted(s: State, id: WorkerId)
    requires Shape(s) && Workers(s) && Descriptors(s) && id in s.workers
    requires s.workers[id].inbox != [] && s.workers[id].inbox[0].Insert?
    ensures var t := s.workers[id].inbox[0]; t.sid != LISTENER_SID && !s.workers[id].tables.Rejects(t.fd, t.sid)
  {
    hide Occurs;
    assert LocalInv(s.issued, ViewOf(s, id)) && Placed(s.place, id, s.workers[id]);
    HeadInsertAccepted(s.issued, s.place, ViewOf(s, id));
  }

  lemma HeadInsertAccepted(issued: map<Sid, Origin>, place: map<Fd, Place>, v: View)
    requires LocalInv(issued, v) && Placed(place, v.id, v.w)
    requires v.w.inbox != [] && v.w.inbox[0].Insert?
    ensures var t := v.w.inbox[0]; t.sid != LISTENER_SID && !v.w.tables.Rejects(t.fd, t.sid)
  {
    var t := v.w.inbox[0];
    assert t in v.w.inbox && t.Mentions(t.sid) && MyTask(issued, v.id, t);
    assert WorkerHalf(v, issued[t.sid], t.sid);
  }

  lemma SessionsKept(s: State, step: Step)
    requires Shape(s) && Workers(s) && Sessions(s) && Descriptors(s)
    requires Enabled(s, step) && Shape(Apply(s, step))
    ensures Sessions(Apply(s, step))
  {
    hide LocalInv, MainHalf, Descriptors;
    var s' := Apply(s, step);
    forall sid | sid in s'.issued
      ensures MainHalf(s'.main, s'.closed, Home(s', sid), s'.issued[sid], sid)
    {
      match step
      case ByWorker(id, ws) =>
        if s.issued[sid].worker == id {
          if ws.Take? && s.workers[id].inbox[0].Insert? {
            InsertAccepted(s, id);
          }
          HalfWorkerStep(s.main, s.closed, s.issued, Home(s, sid), ws, sid);
        }
      case TakeAtMain(id) =>
        LocalTaken(s.issued, ViewOf(s, id));
        if s.issued[sid].worker == id {
          HalfExecute(s.main, s.closed, s.issued, Home(s, sid), sid);
        } else {
          HalfExecuteOther(s.main, s.closed, s.issued, ViewOf(s, id), Home(s, sid), sid);
        }
      case StartListener(w, fd, dtype) =>
        HalfOtherPush(s.main, s.closed, Home(s, sid), s.issued[sid], sid, Listener(fd, dtype));
      case ByMain(ms) =>
        SessionKeptByMain(s, ms, sid);
    }
  }

  lemma SessionKeptByMain(s: State, ms: MainStep, sid: Sid)
    requires Shape(s) && Workers(s) && Sessions(s)
    requires Enabled(s, ByMain(ms)) && Shape(Apply(s, ByMain(ms)))
    requires sid in Apply(s, ByMain(ms)).issued
    ensures var s' := Apply(s, ByMain(ms)); MainHalf(s'.main, s'.closed, Home(s', sid), s'.issued[sid], sid)
  {
    hide LocalInv, MainHalf;
    if ms.Route? {
      if sid == ms.sid {
        HalfRouteNew(s.main, s.closed, s.issued, ViewOf(s, ms.worker), sid);
      } else {
        HalfRouteOther(s.main, s.closed, Home(s, sid), s.issued[sid], sid, ms.sid, ms.worker);
      }
    } else {
      HalfMainStep(s.main, s.closed, Home(s, sid), s.issued[sid], ms, sid);
    }
  }
}
