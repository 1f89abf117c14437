/** The inductive invariant of `Protocol`, in terms of one worker at a time. */
module ProtocolInvariant {
  import opened Bytes
  import opened Device
  import opened Framing
  import opened Tasks
  import opened Protocol

  /** A worker together with the tasks of its that main has executed. */
  datatype View = View(id: WorkerId, w: Worker, executed: seq<Task>) {
    /** Everything the worker has ever submitted to main. */
    function Stream(): seq<Task> {
      executed + w.outbox
    }
  }

  ghost function ViewOf(s: State, id: WorkerId): View
    requires id in s.workers && id in s.executed
  {
    View(id, s.workers[id], s.executed[id])
  }

  // ---------- One session, from the side of its worker ----------

  predicate InsertPending(v: View, o: Origin, sid: Sid) {
    Insert(o.fd, o.dtype, sid) in v.w.inbox
  }

  predicate DeletePending(v: View, sid: Sid) {
    Delete(sid) in v.w.inbox
  }

  predicate DeviceLive(v: View, sid: Sid) {
    sid in v.w.tables.bySid
  }

  /** The worker has reported the connection and is about to remove it. */
  predicate DeviceClosing(v: View, sid: Sid) {
    sid in v.w.tables.bySid && v.w.pc == Closing(v.w.tables.bySid[sid].fd)
  }

  /** The worker has submitted an OnClose, whether or not main has executed it. */
  predicate CloseReported(v: View, sid: Sid) {
    OnClose(sid) in v.Stream()
  }

  predicate CloseExecuted(v: View, sid: Sid) {
    OnClose(sid) in v.executed
  }

  ghost predicate Silent(tasks: seq<Task>, sid: Sid) {
    forall t | t in tasks :: !t.Mentions(sid)
  }

  /** While the Insert is queued nothing else has happened; a live device has been
      reported exactly if it is about to be removed. */
  ghost predicate WorkerHalf(v: View, o: Origin, sid: Sid) {
    && (InsertPending(v, o, sid) ==> !DeviceLive(v, sid) && Silent(v.Stream(), sid))
    && (DeviceLive(v, sid) ==> (CloseReported(v, sid) <==> DeviceClosing(v, sid)))
  }

  // ---------- One worker ----------

  ghost predicate MyTask(issued: map<Sid, Origin>, id: WorkerId, t: Task) {
    && (forall sid | t.Mentions(sid) :: sid in issued && issued[sid].worker == id)
    && (t.Insert? ==> t.sid in issued && issued[t.sid] == Origin(id, t.fd, t.dtype))
  }

  ghost predicate MyEntry(issued: map<Sid, Origin>, id: WorkerId, e: Entry) {
    if e.sid == LISTENER_SID then e.dtype.IsServer()
    else e.sid in issued && issued[e.sid] == Origin(id, e.fd, e.dtype)
  }

  /** Each queue carries only the tasks of its direction. */
  ghost predicate Directed(v: View) {
    && (forall t | t in v.w.inbox :: t.ForWorker())
    && (forall t | t in v.Stream() :: t.ForMain())
  }

  /** A session is only ever known to the worker it was routed to, under its own
      descriptor. */
  ghost predicate Owned(issued: map<Sid, Origin>, v: View) {
    && (forall t | t in v.w.inbox :: MyTask(issued, v.id, t))
    && (forall t | t in v.Stream() :: MyTask(issued, v.id, t))
    && (forall sid | sid in v.w.tables.bySid :: MyEntry(issued, v.id, v.w.tables.bySid[sid]))
    && (forall t | t in v.w.inbox && t.Listener? :: t.dtype.IsServer())
  }

  ghost predicate ClosingIsClient(w: Worker) {
    w.pc.Closing? ==> w.pc.fd in w.tables.byFd && w.tables.byFd[w.pc.fd].sid != LISTENER_SID
  }

  /** The Insert of a session is the first task about it in its worker's queue. */
  ghost predicate InsertFirst(inbox: seq<Task>) {
    forall i, j | 0 <= i < j < |inbox| && inbox[j].Insert? :: !inbox[i].Mentions(inbox[j].sid)
  }

  /** An OnClose is the last task about its session. */
  ghost predicate CloseLast(stream: seq<Task>) {
    forall i, j | 0 <= i < j < |stream| && stream[i].OnClose? :: !stream[j].Mentions(stream[i].sid)
  }

  ghost predicate LocalInv(issued: map<Sid, Origin>, v: View) {
    && LISTENER_SID !in issued
    && v.w.tables.Agree()
    && Directed(v) && Owned(issued, v) && ClosingIsClient(v.w)
    && InsertFirst(v.w.inbox) && CloseLast(v.Stream())
    && (forall sid | sid in issued && issued[sid].worker == v.id :: WorkerHalf(v, issued[sid], sid))
  }

  // ---------- One session, from the side of main ----------

  predicate OnMain(m: Main, sid: Sid) {
    sid in m.sessions
  }

  predicate BeingAdded(m: Main, sid: Sid) {
    m.pc.Adding? && m.pc.sid == sid
  }

  predicate BeingRemoved(m: Main, sid: Sid) {
    m.pc == Removing(sid)
  }

  /** A session main holds, or is about to hold, is still coming, alive, or reported
      by an OnClose main has not executed. A session that is coming or alive is on
      main, about to be, or its end is on its way. A session main does not hold was
      closed by main or has had its OnClose executed. */
  ghost predicate MainHalf(m: Main, closed: set<Sid>, v: View, o: Origin, sid: Sid) {
    && (OnMain(m, sid) ==> m.sessions[sid].thread == o.worker)
    && (BeingAdded(m, sid) ==> m.pc.worker == o.worker && !OnMain(m, sid) && sid !in closed)
    && (BeingRemoved(m, sid) ==> OnMain(m, sid) && sid in closed)
    && (OnMain(m, sid) && sid in closed ==> BeingRemoved(m, sid))
    && (DeletePending(v, sid) ==> sid in closed)
    && (OnMain(m, sid) || BeingAdded(m, sid) ==>
          && !CloseExecuted(v, sid)
          && (InsertPending(v, o, sid) || DeviceLive(v, sid) || CloseReported(v, sid) || BeingRemoved(m, sid)))
    && (InsertPending(v, o, sid) || DeviceLive(v, sid) ==>
          || (OnMain(m, sid) && !BeingRemoved(m, sid))
          || BeingAdded(m, sid)
          || DeletePending(v, sid)
          || DeviceClosing(v, sid))
    && (OnMain(m, sid) || BeingAdded(m, sid) || sid in closed || CloseExecuted(v, sid))
  }

  // ---------- Descriptors ----------

  predicate HasFd(t: Task) {
    t.Listener? || t.Insert?
  }

  ghost predicate DistinctFds(inbox: seq<Task>) {
    forall i, j | 0 <= i < j < |inbox| && HasFd(inbox[i]) && HasFd(inbox[j]) :: inbox[i].fd != inbox[j].fd
  }

  ghost predicate DistinctConns(outbox: seq<Task>) {
    forall i, j | 0 <= i < j < |outbox| && outbox[i].Conn? && outbox[j].Conn? :: outbox[i].fd != outbox[j].fd
  }

  /** Where the descriptor of a task in the inbox of `id` must be. */
  function TaskPlace(id: WorkerId, t: Task): Place
    requires HasFd(t)
  {
    if t.Insert? then InsertQueued(id, t.sid) else ListenerQueued(id)
  }

  function EntryPlace(id: WorkerId, e: Entry): Place {
    if e.sid == LISTENER_SID then Listening(id) else Live(id, e.sid)
  }

  ghost predicate At(place: map<Fd, Place>, fd: Fd, p: Place) {
    fd in place && place[fd] == p
  }

  /** Wherever a descriptor occurs at a worker, that is its place; and it occurs once. */
  ghost predicate Placed(place: map<Fd, Place>, id: WorkerId, w: Worker) {
    && (forall t | t in w.inbox && HasFd(t) :: At(place, t.fd, TaskPlace(id, t)))
    && (forall t | t in w.outbox && t.Conn? :: At(place, t.fd, ConnQueued(id)))
    && (forall fd | fd in w.tables.byFd :: At(place, fd, EntryPlace(id, w.tables.byFd[fd])))
    && DistinctFds(w.inbox) && DistinctConns(w.outbox)
  }

  /** The descriptor occurs where its place says, so no descriptor is lost. */
  ghost predicate Occurs(workers: map<WorkerId, Worker>, m: Main, fd: Fd, p: Place) {
    match p
    case ListenerQueued(w) => w in workers && exists t :: t in workers[w].inbox && t.Listener? && t.fd == fd
    case Listening(w) => w in workers && fd in workers[w].tables.byFd
    case Stranded => true
    case ConnQueued(w) => w in workers && exists t :: t in workers[w].outbox && t.Conn? && t.fd == fd
    case InHand => m.pc.Routing? && m.pc.fd == fd
    case InsertQueued(w, sid) => w in workers &&
      exists t :: t in workers[w].inbox && t.Insert? && t.fd == fd && t.sid == sid
    case Live(w, sid) => w in workers && fd in workers[w].tables.byFd
  }

  // ---------- Packets ----------

  /** The frames of session `sid` in a stream, in order. */
  ghost function PacketsOf(stream: seq<Task>, sid: Sid): seq<seq<Byte>>
    decreases |stream|
  {
    if stream == [] then []
    else
      var t := stream[|stream| - 1];
      PacketsOf(stream[..|stream| - 1], sid) + (if t.Packet? && t.sid == sid then [t.data] else [])
  }

  // ---------- The whole system ----------

  ghost predicate Shape(s: State) {
    && s.executed.Keys == s.workers.Keys
    && s.frames.Keys == s.issued.Keys
    && (forall sid | sid in s.issued :: s.issued[sid].worker in s.workers)
    && (forall sid | sid in s.main.sessions :: sid in s.issued)
    && s.closed <= s.issued.Keys
    && (s.main.pc.Adding? || s.main.pc.Removing? ==> s.main.pc.sid in s.issued)
  }

  /** The view of the worker that session `sid` was routed to. */
  ghost function Home(s: State, sid: Sid): View
    requires Shape(s) && sid in s.issued
  {
    ViewOf(s, s.issued[sid].worker)
  }

  ghost predicate Workers(s: State)
    requires Shape(s)
  {
    forall id | id in s.workers :: LocalInv(s.issued, ViewOf(s, id))
  }

  ghost predicate Sessions(s: State)
    requires Shape(s)
  {
    forall sid | sid in s.issued :: MainHalf(s.main, s.closed, Home(s, sid), s.issued[sid], sid)
  }

  ghost predicate Descriptors(s: State) {
    && (forall id | id in s.workers :: Placed(s.place, id, s.workers[id]))
    && (s.main.pc.Routing? ==> At(s.place, s.main.pc.fd, InHand))
    && (forall fd | fd in s.place :: Occurs(s.workers, s.main, fd, s.place[fd]))
  }

  /** The Packet tasks of a session are exactly the frames read from its connection. */
  ghost predicate StreamOrder(s: State)
    requires Shape(s)
  {
    forall sid | sid in s.issued :: PacketsOf(Home(s, sid).Stream(), sid) == s.frames[sid]
  }

  ghost predicate Inv(s: State) {
    Shape(s) && Workers(s) && Sessions(s) && Descriptors(s) && StreamOrder(s)
  }
}
