/** The task engine of one worker: four queues carry every task to the other thread
    and back to the thread that created it, which completes and frees it. */
module TaskEngine {
  import opened SpscQueue

  const MAX_SPSC_QUEUE_SIZE: nat := 40960
  const MAX_HANDLER_SIZE_PERFRAME: nat := 1024

  // ---------- All interleavings ----------

  /** What the executing thread holds between its ring operations. */
  datatype Hand<T> = Empty | Popped(task: T) | Executed(task: T)

  /** One direction: a submitter pushes to `tasks` and takes from `done`; an executor
      takes from `tasks` and pushes to `done`. `returning` is a task the submitter has
      taken back and not yet completed. The logs record what was run. */
  datatype Lane<T> = Lane(
    tasks: Queue<T>, done: Queue<T>, hand: Hand<T>, returning: seq<T>,
    executed: seq<T>, completed: seq<T>)

  datatype LaneStep<T> =
    | TasksStep(q: Step<T>)    // submitter's push and cache upkeep
    | TakeTask                 // executor pops a task
    | Execute
    | Return                   // executor enters the push to `done`
    | DoneStep(q: Step<T>)     // executor's ring operations and cache upkeep
    | TakeBack                 // submitter pops a done task
    | Complete                 // submitter completes and frees it

  ghost predicate LaneEnabled<T>(l: Lane<T>, step: LaneStep<T>) {
    match step
    case TasksStep(q) => !q.Pop? && Enabled(l.tasks, q)
    case TakeTask => l.hand.Empty? && Enabled(l.tasks, Pop)
    case Execute => l.hand.Popped?
    case Return => l.hand.Executed? && Enabled(l.done, BeginPush(l.hand.task))
    case DoneStep(q) => !q.Pop? && !q.BeginPush? && Enabled(l.done, q)
    case TakeBack => l.returning == [] && Enabled(l.done, Pop)
    case Complete => |l.returning| == 1
  }

  ghost function LaneApply<T>(l: Lane<T>, step: LaneStep<T>): Lane<T>
    requires LaneEnabled(l, step)
  {
    match step
    case TasksStep(q) => l.(tasks := Apply(l.tasks, q))
    case TakeTask => l.(hand := Popped(l.tasks.ring[0]), tasks := Apply(l.tasks, Pop))
    case Execute => l.(hand := Executed(l.hand.task), executed := l.executed + [l.hand.task])
    case Return => l.(hand := Empty, done := Apply(l.done, BeginPush(l.hand.task)))
    case DoneStep(q) => l.(done := Apply(l.done, q))
    case TakeBack => l.(returning := [l.done.ring[0]], done := Apply(l.done, Pop))
    case Complete => l.(returning := [], completed := l.completed + l.returning)
  }

  /** Tasks that were popped and are not yet on their way back. */
  function InHand<T>(l: Lane<T>): seq<T> {
    if l.hand.Empty? then [] else [l.hand.task]
  }

  /** The executed ones among them. */
  function Ran<T>(l: Lane<T>): seq<T> {
    if l.hand.Executed? then [l.hand.task] else []
  }

  ghost predicate LaneInv<T>(l: Lane<T>) {
    && Inv(l.tasks) && Inv(l.done)
    && |l.returning| <= 1
    && l.tasks.popped == l.done.pushed + InHand(l)
    && l.executed == l.done.pushed + Ran(l)
    && l.done.popped == l.completed + l.returning
  }

  lemma LaneStepInv<T>(l: Lane<T>, step: LaneStep<T>)
    requires LaneInv(l) && LaneEnabled(l, step)
    ensures LaneInv(LaneApply(l, step))
  {
    match step
    case TasksStep(q) => StepInv(l.tasks, q);
    case TakeTask => StepInv(l.tasks, Pop);
    case Execute =>
    case Return => StepInv(l.done, BeginPush(l.hand.task));
    case DoneStep(q) => StepInv(l.done, q);
    case TakeBack => StepInv(l.done, Pop);
    case Complete =>
  }

  /** Everything submitted and not yet completed, oldest first. */
  function Underway<T>(l: Lane<T>): seq<T> {
    l.returning + Waiting(l.done) + InHand(l) + Waiting(l.tasks)
  }

  /** Both directions of one worker; main submits to `down`, the worker to `up`. */
  datatype Engine<T> = Engine(down: Lane<T>, up: Lane<T>)

  datatype EngineStep<T> = Down(step: LaneStep<T>) | Up(step: LaneStep<T>)

  ghost predicate EngineEnabled<T>(e: Engine<T>, step: EngineStep<T>) {
    match step
    case Down(s) => LaneEnabled(e.down, s)
    case Up(s) => LaneEnabled(e.up, s)
  }

  ghost function EngineApply<T>(e: Engine<T>, step: EngineStep<T>): Engine<T>
    requires EngineEnabled(e, step)
  {
    match step
    case Down(s) => e.(down := LaneApply(e.down, s))
    case Up(s) => e.(up := LaneApply(e.up, s))
  }

  ghost predicate EngineRuns<T>(e: Engine<T>, run: seq<EngineStep<T>>, e': Engine<T>)
    decreases |run|
  {
    if run == [] then e == e'
    else EngineEnabled(e, run[0]) && EngineRuns(EngineApply(e, run[0]), run[1..], e')
  }

  /** One more step at the end of a run. */
  lemma {:induction false} RunsOn<T>(e0: Engine<T>, run: seq<EngineStep<T>>, e: Engine<T>, step: EngineStep<T>)
    requires EngineRuns(e0, run, e) && EngineEnabled(e, step)
    ensures EngineRuns(e0, run + [step], EngineApply(e, step))
    decreases |run|
  {
    if run == [] {
      assert ([] + [step])[1..] == [];
    } else {
      RunsOn(EngineApply(e0, run[0]), run[1..], e, step);
      assert (run + [step])[1..] == run[1..] + [step];
    }
  }

  ghost predicate NewLane<T>(l: Lane<T>) {
    && l.tasks == Queue(MAX_SPSC_QUEUE_SIZE, Idle, [], [], [], [])
    && l.done == Queue(MAX_SPSC_QUEUE_SIZE, Idle, [], [], [], [])
    && l.hand.Empty? && l.returning == [] && l.executed == [] && l.completed == []
  }

  /** Exactly once, in order: what was submitted is what was completed followed by
      what is under way; execution and completion follow submission order. */
  ghost predicate ExactlyOnce<T>(l: Lane<T>) {
    && l.tasks.pushed == l.completed + Underway(l)
    && l.completed <= l.executed <= l.tasks.pushed
    && (Underway(l) == [] ==> l.completed == l.executed == l.tasks.pushed)
  }

  lemma LaneExactlyOnce<T>(l: Lane<T>)
    requires LaneInv(l)
    ensures ExactlyOnce(l)
  {
    var back := Waiting(l.done);
    assert l.done.pushed == l.completed + l.returning + back;
    assert l.tasks.pushed == l.done.pushed + InHand(l) + Waiting(l.tasks);
    assert l.completed + Underway(l) == l.completed + l.returning + back + InHand(l) + Waiting(l.tasks);
    assert l.executed <= l.done.pushed + InHand(l);
  }

  /** Over any interleaving of the two threads at the granularity of single ring
      operations, in both directions. */
  lemma {:induction false} EveryTaskOnce<T>(e0: Engine<T>, run: seq<EngineStep<T>>, e: Engine<T>)
    requires LaneInv(e0.down) && LaneInv(e0.up) && EngineRuns(e0, run, e)
    ensures LaneInv(e.down) && LaneInv(e.up)
    ensures ExactlyOnce(e.down) && ExactlyOnce(e.up)
    decreases |run|
  {
    if run == [] {
      LaneExactlyOnce(e.down);
      LaneExactlyOnce(e.up);
    } else {
      match run[0] {
        case Down(step) => LaneStepInv(e0.down, step);
        case Up(step) => LaneStepInv(e0.up, step);
      }
      EveryTaskOnce(EngineApply(e0, run[0]), run[1..], e);
    }
  }

  // ---------- The two threads ----------

  datatype Side = Main | Worker

  datatype Direction = ToWorker | ToMain

  function LaneOf<T>(e: Engine<T>, d: Direction): Lane<T> {
    if d.ToWorker? then e.down else e.up
  }

  /** The direction in which a thread submits, and the one whose tasks it executes. */
  function Submits(me: Side): Direction {
    if me.Main? then ToWorker else ToMain
  }

  function Executes(me: Side): Direction {
    if me.Main? then ToMain else ToWorker
  }

  function On<T>(d: Direction, step: LaneStep<T>): EngineStep<T> {
    if d.ToWorker? then Down(step) else Up(step)
  }

  /** Steps of the thread that submits in the lane; the other thread makes the rest. */
  predicate BySubmitter<T>(step: LaneStep<T>) {
    step.TasksStep? || step.TakeBack? || step.Complete?
  }

  predicate Mine<T>(me: Side, step: EngineStep<T>) {
    BySubmitter(step.step) <==> (step.Down? <==> me.Main?)
  }

  /** Every step is one thread's, and of no other. */
  lemma OneOwner<T>(step: EngineStep<T>)
    ensures Mine(Main, step) <==> !Mine(Worker, step)
    ensures step.Down? && step.step.TasksStep? ==> Mine(Main, step)
    ensures step.Up? && step.step.TasksStep? ==> Mine(Worker, step)
  {}

  /** The part of a lane that only its submitter changes, and the part that only its
      executor changes. */
  datatype SubmitPart<T> = SubmitPart(end: End<T>, taken: seq<T>, returning: seq<T>, completed: seq<T>)

  datatype ExecutePart<T> = ExecutePart(end: End<T>, taken: seq<T>, hand: Hand<T>, executed: seq<T>)

  datatype Own<T> = Own(submit: SubmitPart<T>, execute: ExecutePart<T>)

  function SubmitPartOf<T>(l: Lane<T>): SubmitPart<T> {
    SubmitPart(EndOf(l.tasks), l.done.popped, l.returning, l.completed)
  }

  function ExecutePartOf<T>(l: Lane<T>): ExecutePart<T> {
    ExecutePart(EndOf(l.done), l.tasks.popped, l.hand, l.executed)
  }

  /** The same with another end of the queue of new tasks, or of those executed. */
  function WithEnd<T>(own: Own<T>, back: bool, end: End<T>): Own<T> {
    if back then own.(execute := own.execute.(end := end)) else own.(submit := own.submit.(end := end))
  }

  /** What the thread `me` can rely on while the other one runs. */
  function OwnPart<T>(me: Side, e: Engine<T>): Own<T> {
    Own(SubmitPartOf(LaneOf(e, Submits(me))), ExecutePartOf(LaneOf(e, Executes(me))))
  }

  /** No step of one thread changes the other thread's part. */
  lemma OthersLeaveOwn<T>(me: Side, e: Engine<T>, step: EngineStep<T>)
    requires EngineEnabled(e, step) && !Mine(me, step)
    ensures OwnPart(me, EngineApply(e, step)) == OwnPart(me, e)
  {}

  /** The thread is between two calls. */
  predicate AtRest<T>(me: Side, e: Engine<T>) {
    var own := OwnPart(me, e);
    own.submit.end.pc.Idle? && own.submit.returning == [] && own.execute.end.pc.Idle? && own.execute.hand.Empty?
  }

  lemma NewLaneInv<T>(l: Lane<T>)
    requires NewLane(l)
    ensures LaneInv(l)
  {}

  /** From four empty queues on, in every state that the two threads can reach. */
  lemma EngineExactlyOnce<T>(e0: Engine<T>, run: seq<EngineStep<T>>, e: Engine<T>)
    requires NewLane(e0.down) && NewLane(e0.up) && EngineRuns(e0, run, e)
    ensures ExactlyOnce(e.down) && ExactlyOnce(e.up)
  {
    NewLaneInv(e0.down);
    NewLaneInv(e0.up);
    EveryTaskOnce(e0, run, e);
  }
}
