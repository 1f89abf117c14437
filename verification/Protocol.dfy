/** Main and its workers as one transition system. Every step is one action of one
    thread that other threads can observe, so a run is an arbitrary interleaving. */
module Protocol {
  import opened Bytes
  import opened Device
  import opened Framing
  import opened Tasks

  datatype Session = Session(thread: WorkerId, dtype: DeviceType)

  /** Where main is in its code. `Routing`: it has taken a Conn task and not yet
      pushed the Insert. `Adding`: the Insert is pushed, the session is not yet in the
      table. `Removing`: the Delete is pushed, the session is still in the table. */
  datatype MainPc =
    | Free
    | Routing(fd: Fd, dtype: DeviceType)
    | Adding(worker: WorkerId, sid: Sid, dtype: DeviceType)
    | Removing(sid: Sid)

  datatype Main = Main(sessions: map<Sid, Session>, pc: MainPc)

  /** A task pushed to a worker's queue. */
  datatype Post = Nothing | Post(worker: WorkerId, task: Task)

  datatype MainStep =
    | Execute(task: Task)                          // the body of a task taken from a worker
    | Route(sid: Sid, worker: WorkerId)            // draw an id, push the Insert
    | AddSession
    | CloseConn(sid: Sid)                          // push the Delete
    | RemoveSession
    | SendMsg(sid: Sid, data: Payload)

  predicate Postable(data: Payload) {
    0 < |data| <= MAX_SEND_BUFFER_LEN
  }

  predicate MainEnabled(m: Main, step: MainStep) {
    match step
    case Execute(_) => m.pc.Free?
    case Route(_, _) => m.pc.Routing?
    case AddSession => m.pc.Adding?
    case CloseConn(_) => m.pc.Free?
    case RemoveSession => m.pc.Removing?
    case SendMsg(_, _) => m.pc.Free?
  }

  function MainApply(m: Main, step: MainStep): (Main, Post)
    requires MainEnabled(m, step)
  {
    match step
    case Execute(t) =>
      (match t
       case Conn(fd, dtype) => (m.(pc := Routing(fd, dtype)), Nothing)
       case OnClose(sid) => (m.(sessions := m.sessions - {sid}), Nothing)
       case _ => (m, Nothing))
    case Route(sid, w) =>
      (m.(pc := Adding(w, sid, m.pc.dtype)), Post(w, Insert(m.pc.fd, m.pc.dtype, sid)))
    case AddSession =>
      var ss := if m.pc.sid in m.sessions then m.sessions
                else m.sessions[m.pc.sid := Session(m.pc.worker, m.pc.dtype)];
      (Main(ss, Free), Nothing)
    case CloseConn(sid) =>
      if sid in m.sessions then (m.(pc := Removing(sid)), Post(m.sessions[sid].thread, Delete(sid)))
      else (m, Nothing)
    case RemoveSession =>
      (Main(m.sessions - {m.pc.sid}, Free), Nothing)
    case SendMsg(sid, data) =>
      if Postable(data) && sid in m.sessions then (m, Post(m.sessions[sid].thread, Send(sid, data)))
      else (m, Nothing)
  }

  // ---------- The system ----------

  /** Where an open descriptor is. A listener that a worker rejected is stranded. */
  datatype Place =
    | ListenerQueued(w: WorkerId)
    | Listening(w: WorkerId)
    | Stranded
    | ConnQueued(w: WorkerId)
    | InHand
    | InsertQueued(w: WorkerId, sid: Sid)
    | Live(w: WorkerId, sid: Sid)

  /** What a session id was issued for. */
  datatype Origin = Origin(worker: WorkerId, fd: Fd, dtype: DeviceType)

  /** `place` is the operating system's set of open descriptors. The last four fields
      only record what happened: the ids issued, the ids main has closed itself, the
      tasks main has executed per worker, and the frames read per session. */
  datatype State = State(
    workers: map<WorkerId, Worker>,
    main: Main,
    place: map<Fd, Place>,
    issued: map<Sid, Origin>,
    closed: set<Sid>,
    executed: map<WorkerId, seq<Task>>,
    frames: map<Sid, seq<seq<Byte>>>)

  datatype Step =
    | ByWorker(w: WorkerId, step: WorkerStep)
    | TakeAtMain(w: WorkerId)
    | ByMain(mstep: MainStep)
    | StartListener(w: WorkerId, fd: Fd, dtype: DeviceType)

  /** The environment's part: accepted descriptors are not open, listeners are server
      devices on fresh descriptors, issued ids are new (see `SessionIds`). */
  ghost predicate Enabled(s: State, step: Step) {
    match step
    case ByWorker(w, ws) =>
      && w in s.workers && WorkerEnabled(s.workers[w], ws)
      && (ws.Accept? ==> ws.fd !in s.place)
    case TakeAtMain(w) =>
      w in s.workers && s.workers[w].outbox != [] && s.main.pc.Free?
    case ByMain(ms) =>
      && MainEnabled(s.main, ms)
      && !ms.Execute?
      && (ms.Route? ==> ms.worker in s.workers && ms.sid != LISTENER_SID && ms.sid !in s.issued)
    case StartListener(w, fd, dtype) =>
      s.main.pc.Free? && w in s.workers && fd !in s.place && dtype.IsServer()
  }

  ghost function Deliver(workers: map<WorkerId, Worker>, p: Post): map<WorkerId, Worker> {
    if p.Post? && p.worker in workers
    then workers[p.worker := workers[p.worker].(inbox := workers[p.worker].inbox + [p.task])]
    else workers
  }

  /** How a worker's step changes which descriptors are open, and where. */
  ghost function Replace(place: map<Fd, Place>, id: WorkerId, w: Worker, step: WorkerStep): map<Fd, Place>
    requires WorkerEnabled(w, step)
  {
    match step
    case Take(_) =>
      (match w.inbox[0]
       case Listener(fd, _) => place[fd := if w.tables.Rejects(fd, LISTENER_SID) then Stranded else Listening(id)]
       case Insert(fd, _, sid) => place[fd := if w.tables.Rejects(fd, sid) then Stranded else Live(id, sid)]
       case Delete(sid) => if sid in w.tables.bySid then place - {w.tables.bySid[sid].fd} else place
       case _ => place)
    case Accept(_, fd) => place[fd := ConnQueued(id)]
    case Close => place - {w.pc.fd}
    case _ => place
  }

  ghost function Apply(s: State, step: Step): State
    requires Enabled(s, step)
  {
    match step
    case ByWorker(id, ws) =>
      var w := s.workers[id];
      s.(workers := s.workers[id := WorkerApply(w, ws)],
         place := Replace(s.place, id, w, ws),
         frames := if ws.Receive? && w.tables.byFd[ws.fd].sid in s.frames
                   then s.frames[w.tables.byFd[ws.fd].sid := s.frames[w.tables.byFd[ws.fd].sid] + [ws.data]]
                   else s.frames)
    case TakeAtMain(id) =>
      var w := s.workers[id];
      var t := w.outbox[0];
      s.(workers := s.workers[id := Dispatch(w.(outbox := w.outbox[1..]), t, true)],
         main := MainApply(s.main, Execute(t)).0,
         place := if t.Conn? then s.place[t.fd := InHand] else s.place,
         executed := s.executed[id := (if id in s.executed then s.executed[id] else []) + [t]])
    case ByMain(ms) =>
      var (m, post) := MainApply(s.main, ms);
      var s' := s.(main := m, workers := Deliver(s.workers, post));
      (match ms
       case Route(sid, w) =>
         s'.(place := s.place[s.main.pc.fd := InsertQueued(w, sid)],
             issued := s.issued[sid := Origin(w, s.main.pc.fd, s.main.pc.dtype)],
             frames := s.frames[sid := []])
       case CloseConn(sid) => if sid in s.main.sessions then s'.(closed := s.closed + {sid}) else s'
       case _ => s')
    case StartListener(w, fd, dtype) =>
      s.(workers := Deliver(s.workers, Post(w, Listener(fd, dtype))), place := s.place[fd := ListenerQueued(w)])
  }

  ghost predicate Init(s: State) {
    && (forall w | w in s.workers :: s.workers[w].tables.byFd == map[] && s.workers[w].tables.bySid == map[])
    && (forall w | w in s.workers :: s.workers[w].pc.Idle? && s.workers[w].inbox == [] && s.workers[w].outbox == [])
    && s.executed.Keys == s.workers.Keys && (forall w | w in s.executed :: s.executed[w] == [])
    && s.main == Main(map[], Free)
    && s.place == map[] && s.issued == map[] && s.closed == {} && s.frames == map[]
  }

  /** `s'` is where the steps of `run` lead from `s`. */
  ghost predicate Runs(s: State, run: seq<Step>, s': State)
    decreases |run|
  {
    if run == [] then s == s'
    else Enabled(s, run[0]) && Runs(Apply(s, run[0]), run[1..], s')
  }

  lemma OneStepRun(s: State, step: Step)
    requires Enabled(s, step)
    ensures Runs(s, [step], Apply(s, step))
  {
    assert [step][1..] == [];
  }

  lemma {:induction false} RunsAppend(s: State, a: seq<Step>, m: State, b: seq<Step>, s': State)
    requires Runs(s, a, m) && Runs(m, b, s')
    ensures Runs(s, a + b, s')
    decreases |a|
  {
    if a == [] {
      assert a + b == b;
    } else {
      RunsAppend(Apply(s, a[0]), a[1..], m, b, s');
      assert (a + b)[1..] == a[1..] + b;
    }
  }

  lemma RunsStep(s: State, step: Step, run: seq<Step>, s': State)
    requires Enabled(s, step) && Runs(Apply(s, step), run, s')
    ensures Runs(s, [step] + run, s')
  {
    assert ([step] + run)[1..] == run;
  }
}
