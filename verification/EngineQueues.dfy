/** Why the protocol may use one sequence per queue: every run of the four-queue engine
    is, seen from its two `tasks` queues, a run of plain queues, and every run of the
    protocol treats a worker's inbox and outbox as such queues. */
module EngineQueues {
  import opened SpscQueue
  import opened TaskEngine
  import Thread
  import Tasks
  import Protocol
  import ProtocolInvariant
  import ProtocolPreserved
  import ProtocolTheorems

  // ---------- Plain queues ----------

  /** The tasks on their way to a worker, and those on their way to main. */
  datatype Channel<T> = Channel(inbox: seq<T>, outbox: seq<T>)

  datatype Act<T> =
    | MainSubmits(task: T)
    | WorkerTakes(task: T)
    | WorkerSubmits(task: T)
    | MainTakes(task: T)

  ghost predicate Possible<T>(c: Channel<T>, act: Act<T>) {
    match act
    case WorkerTakes(t) => c.inbox != [] && c.inbox[0] == t
    case MainTakes(t) => c.outbox != [] && c.outbox[0] == t
    case _ => true
  }

  ghost function After<T>(c: Channel<T>, act: Act<T>): Channel<T>
    requires Possible(c, act)
  {
    match act
    case MainSubmits(t) => c.(inbox := c.inbox + [t])
    case WorkerTakes(_) => c.(inbox := c.inbox[1..])
    case WorkerSubmits(t) => c.(outbox := c.outbox + [t])
    case MainTakes(_) => c.(outbox := c.outbox[1..])
  }

  ghost predicate ActsRun<T>(c: Channel<T>, acts: seq<Act<T>>, c': Channel<T>)
    decreases |acts|
  {
    if acts == [] then c == c'
    else Possible(c, acts[0]) && ActsRun(After(c, acts[0]), acts[1..], c')
  }

  lemma {:induction false} ActsAppend<T>(c: Channel<T>, a: seq<Act<T>>, m: Channel<T>, b: seq<Act<T>>, c': Channel<T>)
    requires ActsRun(c, a, m) && ActsRun(m, b, c')
    ensures ActsRun(c, a + b, c')
    decreases |a|
  {
    if a == [] {
      assert a + b == b;
    } else {
      ActsAppend(After(c, a[0]), a[1..], m, b, c');
      assert (a + b)[1..] == a[1..] + b;
    }
  }

  lemma {:induction false} ActsOneWay<T>(c: Channel<T>, acts: seq<Act<T>>, a: Channel<T>, b: Channel<T>)
    requires ActsRun(c, acts, a) && ActsRun(c, acts, b)
    ensures a == b
    decreases |acts|
  {
    if acts != [] {
      ActsOneWay(After(c, acts[0]), acts[1..], a, b);
    }
  }

  lemma OneAct<T>(c: Channel<T>, act: Act<T>)
    requires Possible(c, act)
    ensures ActsRun(c, [act], After(c, act))
  {
    assert [act][1..] == [];
  }

  // ---------- The engine ----------

  /** What waits in the two queues of new tasks, rings and caches together. */
  function ChannelOf<T>(e: Engine<T>): Channel<T> {
    Channel(Waiting(e.down.tasks), Waiting(e.up.tasks))
  }

  /** What a step of the engine does to them; all other ring operations do not show. */
  ghost function Visible<T>(e: Engine<T>, step: EngineStep<T>): seq<Act<T>>
    requires EngineEnabled(e, step)
  {
    match step
    case Down(TasksStep(BeginPush(t))) => [MainSubmits(t)]
    case Down(TakeTask) => [WorkerTakes(e.down.tasks.ring[0])]
    case Up(TasksStep(BeginPush(t))) => [WorkerSubmits(t)]
    case Up(TakeTask) => [MainTakes(e.up.tasks.ring[0])]
    case _ => []
  }

  ghost function VisibleOf<T>(e: Engine<T>, run: seq<EngineStep<T>>): seq<Act<T>>
    decreases |run|
  {
    if run == [] || !EngineEnabled(e, run[0]) then []
    else Visible(e, run[0]) + VisibleOf(EngineApply(e, run[0]), run[1..])
  }

  lemma LaneSimulates<T>(l: Lane<T>, step: LaneStep<T>)
    requires LaneInv(l) && LaneEnabled(l, step)
    ensures var l' := LaneApply(l, step);
      Waiting(l'.tasks) ==
        match step
        case TasksStep(BeginPush(t)) => Waiting(l.tasks) + [t]
        case TakeTask => Waiting(l.tasks)[1..]
        case _ => Waiting(l.tasks)
    ensures step.TakeTask? ==> Waiting(l.tasks) != [] && Waiting(l.tasks)[0] == l.tasks.ring[0]
  {
    match step
    case TasksStep(q) => StepsAsQueue(l.tasks, q);
    case TakeTask => StepsAsQueue(l.tasks, Pop);
    case _ =>
  }

  lemma StepSimulates<T>(e: Engine<T>, step: EngineStep<T>)
    requires LaneInv(e.down) && LaneInv(e.up) && EngineEnabled(e, step)
    ensures var e' := EngineApply(e, step);
      LaneInv(e'.down) && LaneInv(e'.up) && ActsRun(ChannelOf(e), Visible(e, step), ChannelOf(e'))
  {
    match step {
      case Down(s) =>
        LaneSimulates(e.down, s);
        LaneStepInv(e.down, s);
      case Up(s) =>
        LaneSimulates(e.up, s);
        LaneStepInv(e.up, s);
    }
    hide LaneInv, Waiting, LaneApply, LaneEnabled;
    var acts := Visible(e, step);
    if acts != [] {
      OneAct(ChannelOf(e), acts[0]);
      assert acts == [acts[0]];
    }
  }

  /** Over every interleaving of the two threads' ring operations on the four queues,
      what waits in the queues of new tasks is what plain queues would hold. */
  lemma {:induction false} EngineSimulates<T>(e: Engine<T>, run: seq<EngineStep<T>>, e': Engine<T>)
    requires LaneInv(e.down) && LaneInv(e.up) && EngineRuns(e, run, e')
    ensures ActsRun(ChannelOf(e), VisibleOf(e, run), ChannelOf(e'))
    decreases |run|
  {
    if run != [] {
      hide LaneInv, EngineEnabled, EngineApply, Visible, ChannelOf;
      var e1 := EngineApply(e, run[0]);
      StepSimulates(e, run[0]);
      EngineSimulates(e1, run[1..], e');
      ActsAppend(ChannelOf(e), Visible(e, run[0]), ChannelOf(e1), VisibleOf(e1, run[1..]), ChannelOf(e'));
    }
  }

  /** So they do in every state that the code of both threads reaches. */
  lemma CodeSimulates<T>(t: Thread.Thread<T>)
    requires t.Valid()
    ensures ActsRun(Channel([], []), VisibleOf(t.start, t.run), ChannelOf(t.AsEngine()))
  {
    NewLaneInv(t.start.down);
    NewLaneInv(t.start.up);
    EngineSimulates(t.start, t.run, t.AsEngine());
  }

  // ---------- The protocol ----------

  /** A worker's queues in the protocol. */
  ghost function QueuesOf(s: Protocol.State, id: Tasks.WorkerId): Channel<Tasks.Task>
    requires id in s.workers
  {
    Channel(s.workers[id].inbox, s.workers[id].outbox)
  }

  ghost function Submitted(tasks: seq<Tasks.Task>): seq<Act<Tasks.Task>> {
    seq(|tasks|, i requires 0 <= i < |tasks| => WorkerSubmits(tasks[i]))
  }

  /** What a worker's own step does to its queues: what it takes and what it submits. */
  ghost function ActsOfWorker(w: Tasks.Worker, ws: Tasks.WorkerStep): seq<Act<Tasks.Task>>
    requires Tasks.WorkerEnabled(w, ws)
  {
    var w' := Tasks.WorkerApply(w, ws);
    (if ws.Take? then [WorkerTakes(w.inbox[0])] else [])
      + Submitted(if |w.outbox| <= |w'.outbox| then w'.outbox[|w.outbox|..] else [])
  }

  /** What a step of the protocol does to the queues of worker `id`. */
  ghost function ActsOf(s: Protocol.State, step: Protocol.Step, id: Tasks.WorkerId): seq<Act<Tasks.Task>>
    requires Protocol.Enabled(s, step) && id in s.workers
  {
    match step
    case ByWorker(w, ws) => if w == id then ActsOfWorker(s.workers[id], ws) else []
    case TakeAtMain(w) => if w == id then [MainTakes(s.workers[id].outbox[0])] else []
    case ByMain(ms) =>
      var post := Protocol.MainApply(s.main, ms).1;
      if post.Post? && post.worker == id then [MainSubmits(post.task)] else []
    case StartListener(w, fd, dtype) => if w == id then [MainSubmits(Tasks.Listener(fd, dtype))] else []
  }

  ghost function ActsOfRun(s: Protocol.State, run: seq<Protocol.Step>, id: Tasks.WorkerId): seq<Act<Tasks.Task>>
    decreases |run|
  {
    if run == [] || id !in s.workers || !Protocol.Enabled(s, run[0]) then []
    else ActsOf(s, run[0], id) + ActsOfRun(Protocol.Apply(s, run[0]), run[1..], id)
  }

  lemma {:induction false} SubmittedRun(c: Channel<Tasks.Task>, tasks: seq<Tasks.Task>)
    ensures ActsRun(c, Submitted(tasks), c.(outbox := c.outbox + tasks))
    decreases |tasks|
  {
    if tasks == [] {
      assert c.outbox + tasks == c.outbox;
    } else {
      var c1 := After(c, WorkerSubmits(tasks[0]));
      SubmittedRun(c1, tasks[1..]);
      assert Submitted(tasks)[1..] == Submitted(tasks[1..]);
      assert c.outbox + tasks == c1.outbox + tasks[1..];
    }
  }

  lemma WorkerSplits(w: Tasks.Worker, ws: Tasks.WorkerStep)
    requires Tasks.WorkerEnabled(w, ws)
    ensures var w' := Tasks.WorkerApply(w, ws);
      && (ws.Take? ==> w.inbox != []) && w'.inbox == (if ws.Take? then w.inbox[1..] else w.inbox)
      && w.outbox <= w'.outbox
  {}

  /** A worker's step takes at most the head of its inbox and submits to its outbox. */
  lemma WorkerActs(w: Tasks.Worker, ws: Tasks.WorkerStep)
    requires Tasks.WorkerEnabled(w, ws)
    ensures var w' := Tasks.WorkerApply(w, ws);
      ActsRun(Channel(w.inbox, w.outbox), ActsOfWorker(w, ws), Channel(w'.inbox, w'.outbox))
  {
    WorkerSplits(w, ws);
    hide Tasks.WorkerApply, Tasks.WorkerEnabled;
    var c, w' := Channel(w.inbox, w.outbox), Tasks.WorkerApply(w, ws);
    var taken: seq<Act<Tasks.Task>> := if ws.Take? then [WorkerTakes(w.inbox[0])] else [];
    var c1 := Channel(w'.inbox, c.outbox);
    if ws.Take? {
      OneAct(c, taken[0]);
    }
    var more := w'.outbox[|c.outbox|..];
    SubmittedRun(c1, more);
    ActsAppend(c, taken, c1, Submitted(more), c1.(outbox := c.outbox + more));
  }

  /** Every step of the protocol treats a worker's queues as plain queues. */
  lemma ProtocolActs(s: Protocol.State, step: Protocol.Step, id: Tasks.WorkerId)
    requires ProtocolInvariant.Inv(s) && Protocol.Enabled(s, step) && id in s.workers
    ensures var s' := Protocol.Apply(s, step);
      id in s'.workers && ActsRun(QueuesOf(s, id), ActsOf(s, step, id), QueuesOf(s', id))
  {
    hide ProtocolInvariant.Inv, ActsOfWorker, Tasks.WorkerApply;
    var c := QueuesOf(s, id);
    match step
    case ByWorker(w, ws) =>
      if w == id {
        WorkerActs(s.workers[id], ws);
      }
    case TakeAtMain(w) =>
      Head(s, w);
      if w == id {
        OneAct(c, MainTakes(c.outbox[0]));
      }
    case ByMain(ms) =>
      var post := Protocol.MainApply(s.main, ms).1;
      assert Protocol.Apply(s, step).workers == Protocol.Deliver(s.workers, post);
      if post.Post? && post.worker == id {
        OneAct(c, MainSubmits(post.task));
      }
    case StartListener(w, fd, dtype) =>
      if w == id {
        OneAct(c, MainSubmits(Tasks.Listener(fd, dtype)));
      }
  }

  /** Executing the head of an outbox leaves the worker alone. */
  lemma Head(s: Protocol.State, w: Tasks.WorkerId)
    requires ProtocolInvariant.Inv(s) && w in s.workers && s.workers[w].outbox != []
    ensures var t := s.workers[w].outbox[0];
      var w' := s.workers[w].(outbox := s.workers[w].outbox[1..]);
      Tasks.Dispatch(w', t, true) == w'
  {
    ProtocolPreserved.LocalTaken(s.issued, ProtocolInvariant.ViewOf(s, w));
  }

  lemma {:induction false} ProtocolSimulates(s: Protocol.State, run: seq<Protocol.Step>, s': Protocol.State,
      id: Tasks.WorkerId)
    requires ProtocolInvariant.Inv(s) && Protocol.Runs(s, run, s') && id in s.workers
    ensures id in s'.workers && ActsRun(QueuesOf(s, id), ActsOfRun(s, run, id), QueuesOf(s', id))
    decreases |run|
  {
    if run != [] {
      hide ProtocolInvariant.Inv, Protocol.Enabled, Protocol.Apply, ActsOf, QueuesOf;
      var s1 := Protocol.Apply(s, run[0]);
      ProtocolActs(s, run[0], id);
      ProtocolTheorems.StepInv(s, run[0]);
      ProtocolSimulates(s1, run[1..], s', id);
      ActsAppend(QueuesOf(s, id), ActsOf(s, run[0], id), QueuesOf(s1, id),
        ActsOfRun(s1, run[1..], id), QueuesOf(s', id));
    }
  }

  /** If the threads of a worker and main have submitted and taken the same tasks in the
      engine as in the protocol, in the same order, then the worker's inbox and outbox of
      the protocol are what waits in the engine's queues, rings and caches together. */
  lemma EngineCarriesProtocol(e0: Engine<Tasks.Task>, steps: seq<EngineStep<Tasks.Task>>, e: Engine<Tasks.Task>,
      s0: Protocol.State, run: seq<Protocol.Step>, s: Protocol.State, id: Tasks.WorkerId)
    requires NewLane(e0.down) && NewLane(e0.up) && EngineRuns(e0, steps, e)
    requires Protocol.Init(s0) && Protocol.Runs(s0, run, s) && id in s0.workers
    requires VisibleOf(e0, steps) == ActsOfRun(s0, run, id)
    ensures id in s.workers && ChannelOf(e) == QueuesOf(s, id)
  {
    NewLaneInv(e0.down);
    NewLaneInv(e0.up);
    EngineSimulates(e0, steps, e);
    ProtocolTheorems.InitInv(s0);
    ProtocolSimulates(s0, run, s, id);
    assert ChannelOf(e0) == Channel([], []) == QueuesOf(s0, id);
    ActsOneWay(Channel([], []), VisibleOf(e0, steps), ChannelOf(e), QueuesOf(s, id));
  }
}
