/** The tasks that main and the workers exchange, a worker's device tables, and the
    effect of each worker-side step on them. Queues are sequences here: `SpscQueue`
    proves that a ring with its overflow cache behaves as one. */
module Tasks {
  import opened Bytes
  import opened Device

  type Fd = int
  type Sid = int
  type WorkerId = int

  datatype Task =
    | Listener(fd: Fd, dtype: DeviceType)
    | Conn(fd: Fd, dtype: DeviceType)
    | Insert(fd: Fd, dtype: DeviceType, sid: Sid)
    | Delete(sid: Sid)
    | OnClose(sid: Sid)
    | Packet(sid: Sid, data: seq<Byte>)
    | Send(sid: Sid, data: seq<Byte>)
  {
    predicate Mentions(s: Sid) {
      !Listener? && !Conn? && sid == s
    }

    /** Submitted by main to a worker. */
    predicate ForWorker() {
      Listener? || Insert? || Delete? || Send?
    }

    /** Submitted by a worker to main. */
    predicate ForMain() {
      Conn? || OnClose? || Packet?
    }
  }

  /** The session id under which a worker files its listening descriptor. */
  const LISTENER_SID: Sid := 0

  datatype Entry = Entry(fd: Fd, sid: Sid, dtype: DeviceType)

  /** `m_MapDeviceInfo`, `m_MapDeviceSessionInfo` and the pressure counter. */
  datatype Tables = Tables(byFd: map<Fd, Entry>, bySid: map<Sid, Entry>, pressure: int) {

    /** The two maps are keyings of one device set. */
    ghost predicate Agree() {
      && (forall fd | fd in byFd :: byFd[fd].fd == fd && byFd[fd].sid in bySid && bySid[byFd[fd].sid] == byFd[fd])
      && (forall sid | sid in bySid ::
            bySid[sid].sid == sid && bySid[sid].fd in byFd && byFd[bySid[sid].fd] == bySid[sid])
    }

    predicate Rejects(fd: Fd, sid: Sid) {
      sid in bySid || fd in byFd
    }

    function Add(fd: Fd, sid: Sid, dtype: DeviceType): Tables {
      if Rejects(fd, sid) then this
      else Tables(byFd[fd := Entry(fd, sid, dtype)], bySid[sid := Entry(fd, sid, dtype)], pressure + 1)
    }

    function Remove(e: Entry): Tables {
      Tables(byFd - {e.fd}, bySid - {e.sid}, pressure - 1)
    }

    function RemoveByFd(fd: Fd): Tables {
      if fd in byFd then Remove(byFd[fd]) else this
    }

    function RemoveBySid(sid: Sid): Tables {
      if sid in bySid then Remove(bySid[sid]) else this
    }
  }

  /** Both indexes keep the same size, and the pressure counter moves with it. */
  ghost predicate SameDrift(t: Tables, t': Tables) {
    && t'.Agree()
    && |t'.byFd| - |t.byFd| == t'.pressure - t.pressure == |t'.bySid| - |t.bySid|
  }

  lemma AddAgrees(t: Tables, fd: Fd, sid: Sid, dtype: DeviceType)
    requires t.Agree()
    ensures t.Add(fd, sid, dtype).Agree()
  {}

  lemma AddDrift(t: Tables, fd: Fd, sid: Sid, dtype: DeviceType)
    requires t.Agree()
    ensures SameDrift(t, t.Add(fd, sid, dtype))
  {
    if !t.Rejects(fd, sid) {
      AddAgrees(t, fd, sid, dtype);
      hide Tables.Agree;
      AddSize(t.byFd, fd, Entry(fd, sid, dtype));
      AddSize(t.bySid, sid, Entry(fd, sid, dtype));
    }
  }

  lemma RemoveDrift(t: Tables, fd: Fd)
    requires t.Agree() && fd in t.byFd
    ensures SameDrift(t, t.Remove(t.byFd[fd]))
  {
    var e := t.byFd[fd];
    RemoveSize(t.byFd, e.fd);
    RemoveSize(t.bySid, e.sid);
  }

  /** Every table operation keeps the two indexes in agreement and the counter in step. */
  lemma OperationsDrift(t: Tables, fd: Fd, sid: Sid, dtype: DeviceType)
    requires t.Agree()
    ensures SameDrift(t, t.Add(fd, sid, dtype))
    ensures SameDrift(t, t.RemoveByFd(fd))
    ensures SameDrift(t, t.RemoveBySid(sid))
  {
    AddDrift(t, fd, sid, dtype);
    if fd in t.byFd {
      RemoveDrift(t, fd);
    }
    if sid in t.bySid {
      RemoveDrift(t, t.bySid[sid].fd);
    }
  }

  lemma AddSize<K, V>(m: map<K, V>, k: K, v: V)
    requires k !in m
    ensures |m[k := v]| == |m| + 1
  {
    assert m[k := v].Keys == m.Keys + {k};
  }

  lemma RemoveSize<K, V>(m: map<K, V>, k: K)
    ensures |m - {k}| == if k in m then |m| - 1 else |m|
  {
    assert (m - {k}).Keys == m.Keys - {k};
  }

  // ---------- Worker steps ----------

  /** Where a worker is in its code: between two steps, or after reporting that the
      connection on `fd` failed and before removing it. */
  datatype WorkerPc = Idle | Closing(fd: Fd)

  datatype Worker = Worker(tables: Tables, pc: WorkerPc, inbox: seq<Task>, outbox: seq<Task>)

  /** `EpollHandler::dotask`: the switch on the task type. Any thread that executes
      a task of this worker runs it. `alive` says whether the connection survived
      the write of a Send task. */
  function Dispatch(w: Worker, t: Task, alive: bool): Worker {
    match t
    case Listener(fd, dtype) => w.(tables := w.tables.Add(fd, LISTENER_SID, dtype))
    case Insert(fd, dtype, sid) => w.(tables := w.tables.Add(fd, sid, dtype))
    case Delete(sid) => w.(tables := w.tables.RemoveBySid(sid))
    case Send(sid, data) =>
      if sid !in w.tables.bySid || alive then w
      else Report(w, w.tables.bySid[sid])
    case _ => w
  }

  /** Tell main that the connection of `e` is gone; its removal is the next step. */
  function Report(w: Worker, e: Entry): Worker {
    w.(outbox := w.outbox + [OnClose(e.sid)], pc := Closing(e.fd))
  }

  datatype WorkerStep =
    | Take(alive: bool)                       // pop a task and execute it
    | Accept(listenFd: Fd, fd: Fd)            // one round of the accept loop
    | Receive(fd: Fd, data: seq<Byte>)        // one complete frame read from `fd`
    | Fail(fd: Fd)                            // a read or write event on `fd` failed
    | Close                                   // remove the reported connection

  ghost predicate WorkerEnabled(w: Worker, step: WorkerStep) {
    match step
    case Take(_) => w.pc.Idle? && w.inbox != []
    case Accept(lfd, _) => w.pc.Idle? && lfd in w.tables.byFd && w.tables.byFd[lfd].dtype.IsServer()
    case Receive(fd, _) => w.pc.Idle? && fd in w.tables.byFd && w.tables.byFd[fd].dtype.IsClient()
    case Fail(fd) => w.pc.Idle? && fd in w.tables.byFd && w.tables.byFd[fd].dtype.IsClient()
    case Close => w.pc.Closing?
  }

  ghost function WorkerApply(w: Worker, step: WorkerStep): Worker
    requires WorkerEnabled(w, step)
  {
    match step
    case Take(alive) => Dispatch(w.(inbox := w.inbox[1..]), w.inbox[0], alive)
    case Accept(lfd, fd) => w.(outbox := w.outbox + [Conn(fd, w.tables.byFd[lfd].dtype.ClientType())])
    case Receive(fd, data) => w.(outbox := w.outbox + [Packet(w.tables.byFd[fd].sid, data)])
    case Fail(fd) => Report(w, w.tables.byFd[fd])
    case Close => w.(tables := w.tables.RemoveByFd(w.pc.fd), pc := Idle)
  }

  /** `w'` is where the steps of `trace` lead from `w`. */
  ghost predicate WorkerRuns(w: Worker, trace: seq<WorkerStep>, w': Worker)
    decreases |trace|
  {
    if trace == [] then w == w'
    else WorkerEnabled(w, trace[0]) && WorkerRuns(WorkerApply(w, trace[0]), trace[1..], w')
  }

  lemma {:induction false} WorkerRunsAppend(w: Worker, a: seq<WorkerStep>, m: Worker, b: seq<WorkerStep>, w': Worker)
    requires WorkerRuns(w, a, m) && WorkerRuns(m, b, w')
    ensures WorkerRuns(w, a + b, w')
    decreases |a|
  {
    if a == [] {
      assert a + b == b;
    } else {
      WorkerRunsAppend(WorkerApply(w, a[0]), a[1..], m, b, w');
      assert (a + b)[1..] == a[1..] + b;
    }
  }
}
