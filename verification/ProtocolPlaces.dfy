/** Where every open descriptor is: accepted connections are in exactly one place, and
    so are listeners unless their worker already had one. */
module ProtocolPlaces {
  import opened Bytes
  import opened Device
  import opened Framing
  import opened Tasks
  import opened Protocol
  import opened ProtocolInvariant
  import opened ProtocolPreserved
  import opened ProtocolDescriptors
  import opened ProtocolTheorems

  /** The places where a descriptor can be found in the code's own state. */
  datatype Site =
    | InInbox(id: WorkerId, index: nat)
    | InOutbox(id: WorkerId, index: nat)
    | InTable(id: WorkerId)
    | AtMain

  ghost predicate Holds(s: State, site: Site, fd: Fd) {
    match site
    case InInbox(id, i) =>
      id in s.workers && i < |s.workers[id].inbox| && HasFd(s.workers[id].inbox[i]) && s.workers[id].inbox[i].fd == fd
    case InOutbox(id, i) =>
      id in s.workers && i < |s.workers[id].outbox| && s.workers[id].outbox[i].Conn? && s.workers[id].outbox[i].fd == fd
    case InTable(id) => id in s.workers && fd in s.workers[id].tables.byFd
    case AtMain => s.main.pc.Routing? && s.main.pc.fd == fd
  }

  ghost function PlaceOf(s: State, site: Site, fd: Fd): Place
    requires Holds(s, site, fd)
  {
    match site
    case InInbox(id, i) => TaskPlace(id, s.workers[id].inbox[i])
    case InOutbox(id, _) => ConnQueued(id)
    case InTable(id) => EntryPlace(id, s.workers[id].tables.byFd[fd])
    case AtMain => InHand
  }

  lemma HolderIsPlaced(s: State, site: Site, fd: Fd)
    requires Inv(s) && Holds(s, site, fd)
    ensures fd in s.place && s.place[fd] == PlaceOf(s, site, fd)
  {
  }

  lemma OneSite(s: State, a: Site, b: Site, fd: Fd)
    requires Inv(s) && Holds(s, a, fd) && Holds(s, b, fd)
    requires PlaceOf(s, a, fd) == PlaceOf(s, b, fd)
    ensures a == b
  {}

  lemma SiteOf(s: State, fd: Fd) returns (site: Site)
    requires Inv(s) && fd in s.place && !s.place[fd].Stranded?
    ensures Holds(s, site, fd)
  {
    assert Occurs(s.workers, s.main, fd, s.place[fd]);
    match s.place[fd]
    case InHand => site := AtMain;
    case Listening(w) => site := InTable(w);
    case Live(w, _) => site := InTable(w);
    case ConnQueued(w) =>
      var i :| 0 <= i < |s.workers[w].outbox| && s.workers[w].outbox[i].Conn? && s.workers[w].outbox[i].fd == fd;
      site := InOutbox(w, i);
    case ListenerQueued(w) =>
      var i :| 0 <= i < |s.workers[w].inbox| && HasFd(s.workers[w].inbox[i]) && s.workers[w].inbox[i].fd == fd;
      site := InInbox(w, i);
    case InsertQueued(w, _) =>
      var i :| 0 <= i < |s.workers[w].inbox| && HasFd(s.workers[w].inbox[i]) && s.workers[w].inbox[i].fd == fd;
      site := InInbox(w, i);
    case Stranded => assert false;
  }

  // ---------- How a descriptor was opened ----------

  datatype Opening = Never | Accepted | Started

  function OpeningOf(step: Step, fd: Fd): Opening {
    if step.ByWorker? && step.step.Accept? && step.step.fd == fd then Accepted
    else if step.StartListener? && step.fd == fd then Started
    else Never
  }

  /** How the descriptor was opened the last time. */
  function Opener(run: seq<Step>, fd: Fd): Opening
    decreases |run|
  {
    if run == [] then Never
    else
      var later := Opener(run[1..], fd);
      if later.Never? then OpeningOf(run[0], fd) else later
  }

  predicate ListenerPlace(p: Place) {
    p.ListenerQueued? || p.Listening? || p.Stranded?
  }

  /** Only starting a listener opens a descriptor at a listener's place, and no step
      takes a descriptor from a connection's place to a listener's or back. */
  lemma OpeningStep(s: State, step: Step, fd: Fd)
    requires Inv(s) && Enabled(s, step) && fd in Apply(s, step).place
    ensures var p := Apply(s, step).place[fd];
      match OpeningOf(step, fd)
      case Never => fd in s.place && (ListenerPlace(p) <==> ListenerPlace(s.place[fd]))
      case Accepted => !ListenerPlace(p)
      case Started => ListenerPlace(p)
  {
    if step.ByWorker? {
      OpeningWorker(s, step.w, step.step, fd);
    } else if step.TakeAtMain? {
      assert Placed(s.place, step.w, s.workers[step.w]);
      hide Inv;
      assert s.workers[step.w].outbox[0] in s.workers[step.w].outbox;
    }
  }

  lemma OpeningWorker(s: State, id: WorkerId, ws: WorkerStep, fd: Fd)
    requires Inv(s) && Enabled(s, ByWorker(id, ws)) && fd in Apply(s, ByWorker(id, ws)).place
    ensures var p := Apply(s, ByWorker(id, ws)).place[fd];
      if ws.Accept? && ws.fd == fd then !ListenerPlace(p)
      else fd in s.place && (ListenerPlace(p) <==> ListenerPlace(s.place[fd]))
  {
    assert Placed(s.place, id, s.workers[id]);
    if ws.Take? {
      assert s.workers[id].inbox[0] in s.workers[id].inbox;
      if s.workers[id].inbox[0].Insert? {
        InsertAccepted(s, id);
      }
    }
    hide Inv, Placed;
    if ws.Take? && HasFd(s.workers[id].inbox[0]) {
      PlaceOfHead(s.place, id, s.workers[id]);
    }
  }

  lemma PlaceOfHead(place: map<Fd, Place>, id: WorkerId, w: Worker)
    requires Placed(place, id, w) && w.inbox != [] && HasFd(w.inbox[0])
    ensures At(place, w.inbox[0].fd, TaskPlace(id, w.inbox[0]))
  {
    assert w.inbox[0] in w.inbox;
  }

  /** In every run, a descriptor is at a listener's place, rejected or not, if and only
      if it was last opened by starting a listener. */
  lemma {:induction false} OpenerTellsPlace(s: State, run: seq<Step>, s': State, fd: Fd)
    requires Inv(s) && Runs(s, run, s') && fd in s'.place
    ensures match Opener(run, fd)
      case Never => fd in s.place && (ListenerPlace(s'.place[fd]) <==> ListenerPlace(s.place[fd]))
      case Accepted => !ListenerPlace(s'.place[fd])
      case Started => ListenerPlace(s'.place[fd])
    decreases |run|
  {
    if run != [] {
      hide Inv, Enabled, Apply, ListenerPlace;
      var s1 := Apply(s, run[0]);
      StepInv(s, run[0]);
      OpenerTellsPlace(s1, run[1..], s', fd);
      if Opener(run[1..], fd).Never? {
        OpeningStep(s, run[0], fd);
      }
    }
  }

  /** What is rejected is always a listener. */
  lemma StrandedIsListener(s0: State, run: seq<Step>, s: State, fd: Fd)
    requires Init(s0) && Runs(s0, run, s) && fd in s.place && s.place[fd].Stranded?
    ensures Opener(run, fd).Started?
  {
    InitInv(s0);
    OpenerTellsPlace(s0, run, s, fd);
  }

  /** Every accepted descriptor that is still open is in exactly one place in the whole
      system; no descriptor is in two places, and what is not open is nowhere. */
  lemma DescriptorInOnePlace(s0: State, run: seq<Step>, s: State, fd: Fd)
    requires Init(s0) && Runs(s0, run, s)
    ensures fd in s.place && Opener(run, fd).Accepted? ==> exists site :: Holds(s, site, fd)
    ensures forall site | Holds(s, site, fd) :: fd in s.place
    ensures forall a, b | Holds(s, a, fd) && Holds(s, b, fd) :: a == b
  {
    InitInv(s0);
    RunInv(s0, run, s);
    forall a | Holds(s, a, fd) ensures fd in s.place && s.place[fd] == PlaceOf(s, a, fd) {
      HolderIsPlaced(s, a, fd);
    }
    forall a, b | Holds(s, a, fd) && Holds(s, b, fd) ensures a == b {
      HolderIsPlaced(s, a, fd);
      HolderIsPlaced(s, b, fd);
      OneSite(s, a, b, fd);
    }
    if fd in s.place && Opener(run, fd).Accepted? {
      OpenerTellsPlace(s0, run, s, fd);
      var site := SiteOf(s, fd);
    }
  }

  // ---------- Listeners ----------

  /** A worker rejects a listener if and only if it already has one. */
  lemma ListenerRejectedIff(s0: State, run: seq<Step>, s: State, id: WorkerId)
    requires Init(s0) && Runs(s0, run, s) && id in s.workers
    requires s.workers[id].inbox != [] && s.workers[id].inbox[0].Listener?
    ensures s.workers[id].tables.Rejects(s.workers[id].inbox[0].fd, LISTENER_SID)
       <==> LISTENER_SID in s.workers[id].tables.bySid
  {
    InitInv(s0);
    RunInv(s0, run, s);
    ListenerFdFree(s, id);
  }

  lemma ListenerFdFree(s: State, id: WorkerId)
    requires Descriptors(s) && id in s.workers && s.workers[id].inbox != [] && s.workers[id].inbox[0].Listener?
    ensures s.workers[id].inbox[0].fd !in s.workers[id].tables.byFd
  {
    assert Placed(s.place, id, s.workers[id]);
    assert s.workers[id].inbox[0] in s.workers[id].inbox;
  }

  /** The worker has a listener, or one is on its way to it. */
  ghost predicate ListenerTaken(w: Worker) {
    LISTENER_SID in w.tables.bySid || exists t :: t in w.inbox && t.Listener?
  }

  ghost predicate QueuedAt(w: Worker, fd: Fd, i: nat) {
    i < |w.inbox| && w.inbox[i].Listener? && w.inbox[i].fd == fd
  }

  /** Ahead of the listener at index `i` there is another. */
  ghost predicate Behind(w: Worker, i: nat) {
    LISTENER_SID in w.tables.bySid || exists j :: 0 <= j < i && j < |w.inbox| && w.inbox[j].Listener?
  }

  /** Where a listener is that was started while its worker had one (`late`) or not. */
  ghost predicate Fate(s: State, id: WorkerId, fd: Fd, late: bool) {
    && id in s.workers && fd in s.place
    && match s.place[fd]
       case ListenerQueued(w) => w == id &&
         exists i: nat :: QueuedAt(s.workers[id], fd, i) && (Behind(s.workers[id], i) <==> late)
       case Listening(w) => w == id && !late
       case Stranded => late
       case _ => false
  }

  lemma FateStarts(s: State, id: WorkerId, fd: Fd, dtype: DeviceType)
    requires Enabled(s, StartListener(id, fd, dtype))
    ensures Fate(Apply(s, StartListener(id, fd, dtype)), id, fd, ListenerTaken(s.workers[id]))
  {
    var w := s.workers[id];
    var w' := Apply(s, StartListener(id, fd, dtype)).workers[id];
    assert QueuedAt(w', fd, |w.inbox|);
    if t :| t in w.inbox && t.Listener? {
      var j :| 0 <= j < |w.inbox| && w.inbox[j] == t;
      assert w'.inbox[j].Listener?;
    }
    if Behind(w', |w.inbox|) && LISTENER_SID !in w.tables.bySid {
      var j :| 0 <= j < |w.inbox| && w'.inbox[j].Listener?;
      assert w.inbox[j] in w.inbox;
    }
  }

  /** Steps that leave the worker's tables and the descriptor's place alone, and at
      most append to the worker's queue. */
  lemma FateStays(s: State, s': State, id: WorkerId, fd: Fd, late: bool)
    requires Fate(s, id, fd, late)
    requires id in s'.workers && s'.workers[id].tables.bySid.Keys == s.workers[id].tables.bySid.Keys
    requires s.workers[id].inbox <= s'.workers[id].inbox
    requires fd in s'.place && s'.place[fd] == s.place[fd]
    ensures Fate(s', id, fd, late)
  {
    if s.place[fd].ListenerQueued? {
      var i: nat :| QueuedAt(s.workers[id], fd, i) && (Behind(s.workers[id], i) <==> late);
      SameBehind(s.workers[id], s'.workers[id], i);
      assert QueuedAt(s'.workers[id], fd, i);
    }
  }

  lemma SameBehind(w: Worker, w': Worker, i: nat)
    requires w'.tables.bySid.Keys == w.tables.bySid.Keys && w.inbox <= w'.inbox && i < |w.inbox|
    ensures Behind(w', i) <==> Behind(w, i)
  {
    assert forall j | 0 <= j < i :: w'.inbox[j] == w.inbox[j];
  }

  /** What the steps of a worker do to its own listener entry. */
  lemma ListenerEntryKept(issued: map<Sid, Origin>, v: View, step: WorkerStep)
    requires LocalInv(issued, v) && WorkerEnabled(v.w, step)
    requires step.Take? ==> !v.w.inbox[0].Listener?
    ensures LISTENER_SID in WorkerApply(v.w, step).tables.bySid <==> LISTENER_SID in v.w.tables.bySid
  {
    if step.Take? {
      var t := v.w.inbox[0];
      assert t in v.w.inbox && MyTask(issued, v.id, t);
      if t.Insert? || t.Delete? {
        assert t.Mentions(t.sid);
      }
    }
  }

  /** The worker takes the oldest task: a listener in front of others makes them late. */
  lemma FateTake(s: State, id: WorkerId, alive: bool, fd: Fd, late: bool)
    requires Inv(s) && Enabled(s, ByWorker(id, Take(alive))) && Fate(s, id, fd, late)
    ensures Fate(Apply(s, ByWorker(id, Take(alive))), id, fd, late)
  {
    var s' := Apply(s, ByWorker(id, Take(alive)));
    var w, w' := s.workers[id], s'.workers[id];
    var t := w.inbox[0];
    TakeKeepsPlace(s, id, alive, fd);
    if t.Listener? {
      ListenerFdFree(s, id);
    } else {
      ListenerEntryKept(s.issued, ViewOf(s, id), Take(alive));
    }
    if s.place[fd].ListenerQueued? {
      var i: nat :| QueuedAt(w, fd, i) && (Behind(w, i) <==> late);
      hide Inv;
      if i == 0 {
      } else {
        assert w'.inbox == w.inbox[1..];
        assert QueuedAt(w', fd, i - 1);
        BehindAfterTake(w, w', i);
      }
    }
  }

  lemma BehindAfterTake(w: Worker, w': Worker, i: nat)
    requires 0 < i < |w.inbox| && w'.inbox == w.inbox[1..]
    requires w.inbox[0].Listener? ==> LISTENER_SID in w'.tables.bySid
    requires !w.inbox[0].Listener? ==> (LISTENER_SID in w'.tables.bySid <==> LISTENER_SID in w.tables.bySid)
    ensures Behind(w', i - 1) <==> Behind(w, i)
  {
    if Behind(w, i) && LISTENER_SID !in w.tables.bySid && !w.inbox[0].Listener? {
      var j :| 0 <= j < i && j < |w.inbox| && w.inbox[j].Listener?;
      assert w'.inbox[j - 1].Listener?;
    }
  }

  /** Taking a task moves no listener but the one that is taken. */
  lemma TakeKeepsPlace(s: State, id: WorkerId, alive: bool, fd: Fd)
    requires Inv(s) && Enabled(s, ByWorker(id, Take(alive)))
    requires fd in s.place && ListenerPlace(s.place[fd])
    ensures var s' := Apply(s, ByWorker(id, Take(alive)));
      var t := s.workers[id].inbox[0];
      && fd in s'.place
      && (s'.place[fd] == s.place[fd] || (t.Listener? && t.fd == fd))
      && (t.Listener? && t.fd == fd ==> s.place[fd] == ListenerQueued(id))
  {
    assert Placed(s.place, id, s.workers[id]);
    hide Inv;
    assert s.workers[id].inbox[0] in s.workers[id].inbox;
  }

  lemma FateWorker(s: State, id: WorkerId, ws: WorkerStep, owner: WorkerId, fd: Fd, late: bool)
    requires Inv(s) && Enabled(s, ByWorker(id, ws)) && Fate(s, owner, fd, late)
    requires id == owner ==> !ws.Take?
    ensures Fate(Apply(s, ByWorker(id, ws)), owner, fd, late)
  {
    var s' := Apply(s, ByWorker(id, ws));
    assert Placed(s.place, id, s.workers[id]) && LocalInv(s.issued, ViewOf(s, id));
    hide Inv, LocalInv, Placed;
    assert fd in s'.place && s'.place[fd] == s.place[fd] by {
      if fd !in s'.place || s'.place[fd] != s.place[fd] {
        MovesOwn(s.issued, s.place, ViewOf(s, id), ws, fd);
      }
    }
    if id == owner {
      ListenerEntryKept(s.issued, ViewOf(s, id), ws);
      FateRemains(s, s', owner, fd, late);
    } else {
      FateStays(s, s', owner, fd, late);
    }
  }

  lemma FateRemains(s: State, s': State, id: WorkerId, fd: Fd, late: bool)
    requires Fate(s, id, fd, late)
    requires id in s'.workers && s'.workers[id].inbox == s.workers[id].inbox
    requires LISTENER_SID in s'.workers[id].tables.bySid <==> LISTENER_SID in s.workers[id].tables.bySid
    requires fd in s'.place && s'.place[fd] == s.place[fd]
    ensures Fate(s', id, fd, late)
  {
    if s.place[fd].ListenerQueued? {
      var i: nat :| QueuedAt(s.workers[id], fd, i) && (Behind(s.workers[id], i) <==> late);
      assert QueuedAt(s'.workers[id], fd, i) && (Behind(s'.workers[id], i) <==> late);
    }
  }

  lemma FateTaken(s: State, w: WorkerId, id: WorkerId, fd: Fd, late: bool)
    requires Inv(s) && Enabled(s, TakeAtMain(w)) && Fate(s, id, fd, late)
    ensures Fate(Apply(s, TakeAtMain(w)), id, fd, late)
  {
    assert LocalInv(s.issued, ViewOf(s, w)) && Placed(s.place, w, s.workers[w]);
    hide Inv, LocalInv, Placed;
    LocalTaken(s.issued, ViewOf(s, w));
    PlacedTaken(s.place, w, s.workers[w]);
    FateStays(s, Apply(s, TakeAtMain(w)), id, fd, late);
  }

  lemma FateMain(s: State, ms: MainStep, id: WorkerId, fd: Fd, late: bool)
    requires Descriptors(s) && Enabled(s, ByMain(ms)) && Fate(s, id, fd, late)
    ensures Fate(Apply(s, ByMain(ms)), id, fd, late)
  {
    var s' := Apply(s, ByMain(ms));
    assert s'.workers == Deliver(s.workers, MainApply(s.main, ms).1);
    assert ms.Route? ==> At(s.place, s.main.pc.fd, InHand);
    hide Descriptors;
    FateStays(s, s', id, fd, late);
  }

  lemma FateStep(s: State, step: Step, id: WorkerId, fd: Fd, late: bool)
    requires Inv(s) && Enabled(s, step) && Fate(s, id, fd, late)
    ensures Fate(Apply(s, step), id, fd, late)
  {
    match step
    case ByWorker(w, ws) =>
      hide Fate;
      if w == id && ws.Take? {
        FateTake(s, id, ws.alive, fd, late);
      } else {
        FateWorker(s, w, ws, id, fd, late);
      }
    case TakeAtMain(w) =>
      FateTaken(s, w, id, fd, late);
    case ByMain(ms) =>
      FateMain(s, ms, id, fd, late);
    case StartListener(w, other, dtype) =>
      hide Inv;
      FateStays(s, Apply(s, step), id, fd, late);
  }

  lemma {:induction false} FateRun(s: State, run: seq<Step>, s': State, id: WorkerId, fd: Fd, late: bool)
    requires Inv(s) && Runs(s, run, s') && Fate(s, id, fd, late)
    ensures Inv(s') && Fate(s', id, fd, late)
    decreases |run|
  {
    if run != [] {
      hide Inv, Fate, Enabled, Apply;
      StepInv(s, run[0]);
      FateStep(s, run[0], id, fd, late);
      FateRun(Apply(s, run[0]), run[1..], s', id, fd, late);
    }
  }

  /** The exact condition, known before the call: a listener started on a worker, once
      the worker has taken it, is in one place if and only if no listener was there or
      on its way when it was started. Otherwise it stays open and is nowhere. */
  lemma ListenerInPlaceIff(s0: State, before: seq<Step>, s: State, id: WorkerId, fd: Fd, dtype: DeviceType,
      run: seq<Step>, s': State)
    requires Init(s0) && Runs(s0, before, s)
    requires Enabled(s, StartListener(id, fd, dtype)) && Runs(Apply(s, StartListener(id, fd, dtype)), run, s')
    ensures fd in s'.place
    ensures s'.place[fd] != ListenerQueued(id) ==>
      ((exists site :: Holds(s', site, fd)) <==> !ListenerTaken(s.workers[id]))
  {
    var late := ListenerTaken(s.workers[id]);
    hide Inv, Init, Runs, Enabled, Apply, ListenerTaken, Fate, Holds;
    InitInv(s0);
    RunInv(s0, before, s);
    StepInv(s, StartListener(id, fd, dtype));
    FateStarts(s, id, fd, dtype);
    FateRun(Apply(s, StartListener(id, fd, dtype)), run, s', id, fd, late);
    FateTells(s', id, fd, late);
  }

  lemma FateTells(s: State, id: WorkerId, fd: Fd, late: bool)
    requires Inv(s) && Fate(s, id, fd, late)
    ensures fd in s.place
    ensures s.place[fd] != ListenerQueued(id) ==> ((exists site :: Holds(s, site, fd)) <==> !late)
  {
    hide Inv, Holds;
    if !s.place[fd].Stranded? {
      var site := SiteOf(s, fd);
    }
    forall site | Holds(s, site, fd) ensures !s.place[fd].Stranded? {
      HolderIsPlaced(s, site, fd);
      NotStranded(s, site, fd);
    }
  }

  lemma NotStranded(s: State, site: Site, fd: Fd)
    requires Holds(s, site, fd)
    ensures !PlaceOf(s, site, fd).Stranded?
  {}

  /** The failing case exists: of two listeners started on one worker, the second ends
      up open and nowhere. */
  lemma SecondListenerNowhere() returns (s0: State, run: seq<Step>, s: State)
    ensures Init(s0) && Runs(s0, run, s)
    ensures 4 in s.place && forall site :: !Holds(s, site, 4)
  {
    var idle := Worker(Tables(map[], map[], 0), Idle, [], []);
    s0 := State(map[1 := idle], Main(map[], Free), map[], map[], {}, map[1 := []], map[]);
    var a, b := StartListener(1, 3, ServerExternal), StartListener(1, 4, ServerExternal);
    var take := ByWorker(1, Take(true));
    var s1 := Apply(s0, a);
    var s2 := Apply(s1, b);
    assert s2.workers[1].inbox == [Listener(3, ServerExternal), Listener(4, ServerExternal)];
    var s3 := Apply(s2, take);
    assert s3.workers[1].inbox == [Listener(4, ServerExternal)];
    s := Apply(s3, take);
    run := [a, b, take, take];
    RunsStep(s3, take, [], s);
    RunsStep(s2, take, [take], s);
    RunsStep(s1, b, [take, take], s);
    RunsStep(s0, a, [b, take, take], s);
  }
}
