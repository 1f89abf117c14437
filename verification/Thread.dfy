/** One worker thread's four queues and the update loops that both threads run on
    them. Before every ring operation of one thread the other may make any number of
    its own steps, on any of the queues. */
module Thread {
  import opened SpscQueue
  import opened TaskEngine

  /** The two queues of one direction, and the scratch nodes of the loops on them. */
  class TaskLane<T> {
    const tasks: SpscQueue<T>
    const done: SpscQueue<T>
    var hand: Hand<T>
    var returning: seq<T>
    ghost var executed: seq<T>
    ghost var completed: seq<T>

    ghost function AsLane(): Lane<T>
      reads this, tasks, done
    {
      Lane(tasks.AsQueue(), done.AsQueue(), hand, returning, executed, completed)
    }

    constructor ()
      ensures NewLane(AsLane()) && fresh(tasks) && fresh(done) && tasks != done
      ensures tasks.capacity == done.capacity == 40960
    {
      tasks := new SpscQueue<T>(MAX_SPSC_QUEUE_SIZE);
      done := new SpscQueue<T>(MAX_SPSC_QUEUE_SIZE);
      hand, returning, executed, completed := Empty, [], [], [];
    }

    predicate Can(step: LaneStep<T>)
      reads this, tasks, done
      ensures Can(step) <==> LaneEnabled(AsLane(), step)
    {
      match step
      case TasksStep(q) => !q.Pop? && tasks.Can(q)
      case TakeTask => hand.Empty? && tasks.Can(Pop)
      case Execute => hand.Popped?
      case Return => hand.Executed? && done.Can(BeginPush(hand.task))
      case DoneStep(q) => !q.Pop? && !q.BeginPush? && done.Can(q)
      case TakeBack => returning == [] && done.Can(Pop)
      case Complete => |returning| == 1
    }

    method Perform(step: LaneStep<T>)
      requires tasks != done && Can(step)
      modifies this, tasks, done
      ensures AsLane() == LaneApply(old(AsLane()), step)
    {
      match step
      case TasksStep(q) =>
        tasks.Perform(q);
      case TakeTask =>
        var task := tasks.TakeFront();
        hand := Popped(task);
      case Execute =>
        executed := executed + [hand.task];
        hand := Executed(hand.task);
      case Return =>
        done.EnterPush(hand.task);
        hand := Empty;
      case DoneStep(q) =>
        done.Perform(q);
      case TakeBack =>
        var task := done.TakeFront();
        returning := [task];
      case Complete =>
        completed := completed + returning;
        returning := [];
    }
  }

  class Thread<T> {
    /** `m_queue_thread` and `m_queue_main_complete`. */
    const down: TaskLane<T>
    /** `m_queue_main` and `m_queue_thread_complete`. */
    const up: TaskLane<T>
    /** What the other thread will do, batch by batch. */
    var schedule: seq<seq<EngineStep<T>>>
    /** What the bodies of the tasks executed next will submit, task by task. */
    var bodies: seq<seq<T>>
    ghost var start: Engine<T>
    ghost var run: seq<EngineStep<T>>

    ghost function Parts(): (parts: set<object>)
      ensures this !in parts
    {
      {down, down.tasks, down.done, up, up.tasks, up.done}
    }

    ghost predicate Separate() {
      && down != up && down.tasks != down.done && up.tasks != up.done
      && down.tasks != up.tasks && down.tasks != up.done && down.done != up.tasks && down.done != up.done
    }

    ghost function AsEngine(): Engine<T>
      reads Parts()
    {
      Engine(down.AsLane(), up.AsLane())
    }

    /** Everything both threads have done since the queues were made. */
    ghost predicate Valid()
      reads `start, `run, Parts()
    {
      && Separate()
      && NewLane(start.down) && NewLane(start.up)
      && EngineRuns(start, run, AsEngine())
      && LaneInv(down.AsLane()) && LaneInv(up.AsLane())
    }

    constructor (schedule: seq<seq<EngineStep<T>>>, bodies: seq<seq<T>>)
      ensures Valid() && fresh(Parts()) && run == []
      ensures AtRest(Main, AsEngine()) && AtRest(Worker, AsEngine())
      ensures down.tasks.capacity == down.done.capacity == up.tasks.capacity == up.done.capacity == 40960
    {
      this.schedule, this.bodies := schedule, bodies;
      down := new TaskLane<T>();
      up := new TaskLane<T>();
      run := [];
      new;
      start := AsEngine();
      NewLaneInv(start.down);
      NewLaneInv(start.up);
    }

    /** In every state that the code reaches, whatever the two threads have done:
        every task submitted in either direction is executed and completed exactly
        once, in order, or is still under way. */
    lemma EveryTaskAccounted()
      requires Valid()
      ensures ExactlyOnce(AsEngine().down) && ExactlyOnce(AsEngine().up)
    {
      EngineExactlyOnce(start, run, AsEngine());
    }

    function LaneAt(d: Direction): TaskLane<T> {
      if d.ToWorker? then down else up
    }

    predicate Can(step: EngineStep<T>)
      reads Parts()
      ensures Can(step) <==> EngineEnabled(AsEngine(), step)
    {
      match step
      case Down(s) => down.Can(s)
      case Up(s) => up.Can(s)
    }

    /** One step of either thread. */
    method Do(step: EngineStep<T>)
      requires Valid() && Can(step)
      modifies this`run, Parts()
      ensures Valid() && run == old(run) + [step]
      ensures AsEngine() == EngineApply(old(AsEngine()), step)
    {
      RunsOn(start, run, AsEngine(), step);
      match step {
        case Down(s) =>
          LaneStepInv(down.AsLane(), s);
          down.Perform(s);
        case Up(s) =>
          LaneStepInv(up.AsLane(), s);
          up.Perform(s);
      }
      run := run + [step];
    }

    /** The queue that a thread fills: with new tasks, or with those it has executed. */
    function Filled(me: Side, back: bool): SpscQueue<T> {
      if back then LaneAt(Executes(me)).done else LaneAt(Submits(me)).tasks
    }

    ghost function Ends(me: Side): (End<T>, End<T>)
      reads Parts()
    {
      (EndOf(Filled(me, false).AsQueue()), EndOf(Filled(me, true).AsQueue()))
    }

    /** The thread sees its end of the queues it fills. */
    lemma Look(me: Side)
      ensures Ends(me) == (OwnPart(me, AsEngine()).submit.end, OwnPart(me, AsEngine()).execute.end)
    {}

    /** The other thread runs its next batch. */
    method Interfere(me: Side)
      requires Valid()
      modifies this`run, this`schedule, Parts()
      ensures Valid() && old(run) <= run
      ensures OwnPart(me, AsEngine()) == old(OwnPart(me, AsEngine()))
      ensures Ends(me) == old(Ends(me))
      ensures if old(schedule) == [] then schedule == [] && AsEngine() == old(AsEngine())
        else |schedule| < |old(schedule)|
    {
      hide Valid, OwnPart, Mine, EngineApply;
      Look(me);
      if schedule == [] {
        return;
      }
      var batch := schedule[0];
      schedule := schedule[1..];
      for i := 0 to |batch|
        invariant Valid() && old(run) <= run
        invariant OwnPart(me, AsEngine()) == old(OwnPart(me, AsEngine()))
        invariant schedule == old(schedule)[1..]
      {
        if !Mine(me, batch[i]) && Can(batch[i]) {
          OthersLeaveOwn(me, AsEngine(), batch[i]);
          Do(batch[i]);
        }
      }
      Look(me);
    }

    // ---------- One queue ----------

    /** One step of the code of `push` and `checkCache` on a queue the thread fills. */
    method FillStep(me: Side, back: bool, step: Step<T>)
      requires Valid() && !step.Pop? && (back ==> !step.BeginPush?) && Filled(me, back).Can(step)
      modifies this`run, Parts()
      ensures Valid() && old(run) <= run
      ensures Filled(me, back).AsQueue() == Apply(old(Filled(me, back).AsQueue()), step)
      ensures OwnPart(me, AsEngine()) == WithEnd(old(OwnPart(me, AsEngine())), back, EndOf(Filled(me, back).AsQueue()))
    {
      hide Valid;
      if back {
        Do(On(Executes(me), DoneStep(step)));
      } else {
        Do(On(Submits(me), TasksStep(step)));
      }
    }

    /** The loop of `checkCache`. `seen` is the state at the last ring operation: what
        is then left in the cache did not fit. */
    method DrainCache(me: Side, back: bool) returns (moved: nat, ghost at: seq<EngineStep<T>>, ghost seen: Engine<T>)
      requires Valid() && Filled(me, back).pc.Draining?
      modifies this`run, this`schedule, Parts()
      ensures Valid() && |schedule| <= |old(schedule)|
      ensures OwnPart(me, AsEngine()) == WithEnd(old(OwnPart(me, AsEngine())), back, EndOf(Filled(me, back).AsQueue()))
      ensures Filled(me, back).pc.Idle? && Filled(me, back).pushed == old(Filled(me, back).pushed)
      ensures moved == |old(Filled(me, back).cache)| - |Filled(me, back).cache|
      ensures Passed(start, old(run), at, seen, run)
      ensures Refilled(QueueOf(me, back, seen))
    {
      Look(me);
      hide Valid, OwnPart, AsEngine, Filled, Parts, QueueOf, EngineRuns, Refilled;
      var q := Filled(me, back);
      moved := 0;
      while |q.cache| > 0
        invariant Valid() && old(run) <= run && |schedule| <= |old(schedule)|
        invariant OwnPart(me, AsEngine()) == WithEnd(old(OwnPart(me, AsEngine())), back, EndOf(q.AsQueue()))
        invariant q.pc.Draining? && q.pushed == old(q.pushed)
        invariant moved == |old(q.cache)| - |q.cache|
        decreases |q.cache|
      {
        var more;
        more, at, seen := MoveOne(me, back);
        if !more {
          return;
        }
        moved := moved + 1;
      }
      at, seen := TryDrain(me, back);
    }

    /** One round of the loop: the front of the cache goes to the ring, and only then
        leaves the cache; the consumer may run between the two. */
    method MoveOne(me: Side, back: bool) returns (moved: bool, ghost at: seq<EngineStep<T>>, ghost seen: Engine<T>)
      requires Valid() && Filled(me, back).pc.Draining? && Filled(me, back).cache != []
      modifies this`run, this`schedule, Parts()
      ensures Valid() && |schedule| <= |old(schedule)|
      ensures OwnPart(me, AsEngine()) == WithEnd(old(OwnPart(me, AsEngine())), back, EndOf(Filled(me, back).AsQueue()))
      ensures Filled(me, back).pushed == old(Filled(me, back).pushed)
      ensures Filled(me, back).pc == (if moved then Draining else Idle)
      ensures Filled(me, back).cache == old(Filled(me, back).cache)[if moved then 1 else 0..]
      ensures Passed(start, old(run), at, seen, run)
      ensures !moved ==> Refilled(QueueOf(me, back, seen))
    {
      hide Valid, OwnPart, AsEngine, Filled, Parts, QueueOf, EngineRuns, Refilled;
      Interfere(me);
      at, seen := TryDrain(me, back);
      moved := Filled(me, back).pc.Copied?;
      if moved {
        FillStep(me, back, Erase);
      }
    }

    /** One test of the loop condition, with its ring push. */
    method TryDrain(me: Side, back: bool) returns (ghost at: seq<EngineStep<T>>, ghost seen: Engine<T>)
      requires Valid() && Filled(me, back).pc.Draining?
      modifies this`run, this`schedule, Parts()
      ensures Valid() && |schedule| <= |old(schedule)|
      ensures OwnPart(me, AsEngine()) == WithEnd(old(OwnPart(me, AsEngine())), back, EndOf(Filled(me, back).AsQueue()))
      ensures Filled(me, back).pushed == old(Filled(me, back).pushed)
      ensures Filled(me, back).cache == old(Filled(me, back).cache)
      ensures Filled(me, back).pc.Idle? || (Filled(me, back).pc.Copied? && Filled(me, back).cache != [])
      ensures Passed(start, old(run), at, seen, run)
      ensures Filled(me, back).pc.Idle? ==> Refilled(QueueOf(me, back, seen))
    {
      hide Valid, OwnPart, AsEngine, Filled, Parts, QueueOf, EngineRuns;
      FillStep(me, back, Drain);
      at, seen := run, AsEngine();
      Seen(me, back);
      Interfere(me);
    }

    lemma Seen(me: Side, back: bool)
      requires Valid()
      ensures EngineRuns(start, run, AsEngine())
      ensures QueueOf(me, back, AsEngine()) == Filled(me, back).AsQueue()
    {}

    /** The rest of `push`: the ring if the cache was empty, and then `checkCache`. */
    method FinishPush(me: Side, back: bool) returns (ghost at: seq<EngineStep<T>>, ghost seen: Engine<T>)
      requires Valid() && (Filled(me, back).pc.Draining? || Filled(me, back).pc.Offering?)
      modifies this`run, this`schedule, Parts()
      ensures Valid() && |schedule| <= |old(schedule)|
      ensures OwnPart(me, AsEngine()) == WithEnd(old(OwnPart(me, AsEngine())), back, EndOf(Filled(me, back).AsQueue()))
      ensures Filled(me, back).pc.Idle? && Filled(me, back).pushed == old(Filled(me, back).pushed)
      ensures Passed(start, old(run), at, seen, run)
      ensures Refilled(QueueOf(me, back, seen))
    {
      hide Valid, OwnPart, AsEngine, Filled, Parts, QueueOf, EngineRuns, Refilled;
      Interfere(me);
      if Filled(me, back).pc.Offering? {
        FillStep(me, back, Offer);
      }
      var moved;
      moved, at, seen := DrainCache(me, back);
    }

    /** `spsc_queue::push` of a new task. */
    method Push(me: Side, task: T) returns (ghost at: seq<EngineStep<T>>, ghost seen: Engine<T>)
      requires Valid() && Filled(me, false).pc.Idle?
      modifies this`run, this`schedule, Parts()
      ensures Valid() && |schedule| <= |old(schedule)|
      ensures OwnPart(me, AsEngine()) ==
        WithEnd(old(OwnPart(me, AsEngine())), false, EndOf(Filled(me, false).AsQueue()))
      ensures Filled(me, false).pc.Idle? && Filled(me, false).pushed == old(Filled(me, false).pushed) + [task]
      ensures Passed(start, old(run), at, seen, run)
      ensures var q := QueueOf(me, false, seen); q.cache == [] || |q.ring| >= q.capacity
    {
      hide Valid, OwnPart, AsEngine, Filled, Parts, QueueOf, EngineRuns;
      FillStep(me, false, BeginPush(task));
      at, seen := FinishPush(me, false);
    }

    /** `spsc_queue::checkCache` on either queue the thread fills. */
    method CheckCache(me: Side, back: bool) returns (moved: nat, ghost at: seq<EngineStep<T>>, ghost seen: Engine<T>)
      requires Valid() && Filled(me, back).pc.Idle?
      modifies this`run, this`schedule, Parts()
      ensures Valid() && |schedule| <= |old(schedule)|
      ensures OwnPart(me, AsEngine()) == WithEnd(old(OwnPart(me, AsEngine())), back, EndOf(Filled(me, back).AsQueue()))
      ensures Filled(me, back).pc.Idle? && Filled(me, back).pushed == old(Filled(me, back).pushed)
      ensures moved == |old(Filled(me, back).cache)| - |Filled(me, back).cache|
      ensures Passed(start, old(run), at, seen, run)
      ensures var q := QueueOf(me, back, seen); q.cache == [] || |q.ring| >= q.capacity
    {
      hide Valid, OwnPart, AsEngine, Filled, Parts, QueueOf, EngineRuns;
      FillStep(me, back, BeginCheck);
      moved, at, seen := DrainCache(me, back);
    }

    // ---------- The loops ----------

    /** The thread sees its own scratch nodes and the rings it empties. */
    lemma LookInside(me: Side)
      requires Valid()
      ensures EngineRuns(start, run, AsEngine())
      ensures OwnPart(me, AsEngine()).execute.hand == LaneAt(Executes(me)).hand
      ensures OwnPart(me, AsEngine()).submit.returning == LaneAt(Submits(me)).returning
      ensures LaneOf(AsEngine(), Executes(me)).tasks.ring == LaneAt(Executes(me)).tasks.ring
      ensures LaneOf(AsEngine(), Submits(me)).done.ring == LaneAt(Submits(me)).done.ring
    {}

    /** The pop of `handlerTask`; `seen` is the state at the pop. */
    method PopTask(me: Side) returns (ok: bool, tasks: seq<T>, ghost at: seq<EngineStep<T>>, ghost seen: Engine<T>)
      requires Valid() && OwnPart(me, AsEngine()).execute.hand.Empty?
      modifies this`run, this`schedule, Parts()
      ensures Valid() && |schedule| <= |old(schedule)|
      ensures Passed(start, old(run), at, seen, run)
      ensures ok <==> LaneOf(seen, Executes(me)).tasks.ring != []
      ensures |tasks| == if ok then 1 else 0
      ensures var own := old(OwnPart(me, AsEngine()));
        OwnPart(me, AsEngine()) ==
          if ok then own.(execute := own.execute.(taken := own.execute.taken + tasks, hand := Popped(tasks[0])))
          else own
    {
      Interfere(me);
      LookInside(me);
      at, seen := run, AsEngine();
      hide Valid, EngineRuns;
      var l := LaneAt(Executes(me));
      ok, tasks := l.tasks.ring != [], [];
      if ok {
        tasks := [l.tasks.ring[0]];
        Do(On(Executes(me), TakeTask));
      }
    }

    /** `dotask`: the task is executed, and its body submits what it submits. */
    method RunBody(me: Side, ghost task: T)
      requires Valid() && OwnPart(me, AsEngine()).execute.hand == Popped(task)
      requires OwnPart(me, AsEngine()).submit.end.pc.Idle?
      modifies this`run, this`schedule, this`bodies, Parts()
      ensures Valid() && old(run) <= run && |schedule| <= |old(schedule)|
      ensures bodies == (if old(bodies) == [] then [] else old(bodies)[1..])
      ensures var own, own' := old(OwnPart(me, AsEngine())), OwnPart(me, AsEngine());
        && own' == Own(own.submit.(end := own'.submit.end),
             own.execute.(hand := Executed(task), executed := own.execute.executed + [task]))
        && own'.submit.end.pc.Idle?
        && own'.submit.end.pushed == own.submit.end.pushed + FirstBody(old(bodies))
    {
      hide Valid, OwnPart, AsEngine, Parts;
      StartBody(me, task);
      var body := FirstBody(bodies);
      if bodies != [] {
        bodies := bodies[1..];
      }
      SubmitAll(me, body);
    }

    method SubmitAll(me: Side, body: seq<T>)
      requires Valid() && OwnPart(me, AsEngine()).submit.end.pc.Idle?
      modifies this`run, this`schedule, Parts()
      ensures Valid() && old(run) <= run && |schedule| <= |old(schedule)|
      ensures var own, own' := old(OwnPart(me, AsEngine())), OwnPart(me, AsEngine());
        && own' == WithEnd(own, false, own'.submit.end)
        && own'.submit.end.pc.Idle? && own'.submit.end.pushed == own.submit.end.pushed + body
    {
      ghost var own := OwnPart(me, AsEngine());
      Look(me);
      hide Valid, OwnPart, AsEngine, Filled, Parts, QueueOf, EngineRuns, Refilled;
      for i := 0 to |body|
        invariant Valid() && old(run) <= run && |schedule| <= |old(schedule)|
        invariant OwnPart(me, AsEngine()) == WithEnd(own, false, EndOf(Filled(me, false).AsQueue()))
        invariant Filled(me, false).pc.Idle? && Filled(me, false).pushed == own.submit.end.pushed + body[..i]
      {
        ghost var at, seen := Push(me, body[i]);
        assert body[..i + 1] == body[..i] + [body[i]];
      }
      assert body[..|body|] == body;
    }

    method StartBody(me: Side, ghost task: T)
      requires Valid() && OwnPart(me, AsEngine()).execute.hand == Popped(task)
      modifies this`run, this`schedule, Parts()
      ensures Valid() && old(run) <= run && |schedule| <= |old(schedule)|
      ensures var own := old(OwnPart(me, AsEngine()));
        OwnPart(me, AsEngine()) ==
          own.(execute := own.execute.(hand := Executed(task), executed := own.execute.executed + [task]))
    {
      Interfere(me);
      LookInside(me);
      hide Valid, EngineRuns;
      Do(On(Executes(me), Execute));
    }

    /** The push of the executed task to the queue that takes it back. */
    method ReturnTask(me: Side, ghost task: T)
      requires Valid() && OwnPart(me, AsEngine()).execute.hand == Executed(task)
      requires OwnPart(me, AsEngine()).execute.end.pc.Idle?
      modifies this`run, this`schedule, Parts()
      ensures Valid() && old(run) <= run && |schedule| <= |old(schedule)|
      ensures var own, own' := old(OwnPart(me, AsEngine())), OwnPart(me, AsEngine());
        && own' == own.(execute := own.execute.(hand := Empty, end := own'.execute.end))
        && own'.execute.end.pc.Idle? && own'.execute.end.pushed == own.execute.end.pushed + [task]
    {
      EnterReturn(me, task);
      hide Valid, AsEngine, Filled, Parts, QueueOf, EngineRuns, Refilled;
      Look(me);
      hide OwnPart;
      ghost var at, seen := FinishPush(me, true);
    }

    method EnterReturn(me: Side, ghost task: T)
      requires Valid() && OwnPart(me, AsEngine()).execute.hand == Executed(task)
      requires OwnPart(me, AsEngine()).execute.end.pc.Idle?
      modifies this`run, this`schedule, Parts()
      ensures Valid() && old(run) <= run && |schedule| <= |old(schedule)|
      ensures var own, own' := old(OwnPart(me, AsEngine())), OwnPart(me, AsEngine());
        && own' == own.(execute := own.execute.(hand := Empty, end := own'.execute.end))
        && (own'.execute.end.pc.Draining? || own'.execute.end.pc.Offering?)
        && own'.execute.end.pushed == own.execute.end.pushed + [task]
      ensures EndOf(Filled(me, true).AsQueue()) == OwnPart(me, AsEngine()).execute.end
    {
      Interfere(me);
      LookInside(me);
      Look(me);
      hide Valid, EngineRuns;
      Do(On(Executes(me), Return));
    }

    /** One round: pop, execute, push back. */
    method RunOne(me: Side) returns (ok: bool, ghost at: seq<EngineStep<T>>, ghost seen: Engine<T>)
      requires Valid() && AtRest(me, AsEngine())
      modifies this`run, this`schedule, this`bodies, Parts()
      ensures Valid() && AtRest(me, AsEngine()) && |schedule| <= |old(schedule)|
      ensures Passed(start, old(run), at, seen, run)
      ensures ok <==> LaneOf(seen, Executes(me)).tasks.ring != []
      ensures var own, own' := old(OwnPart(me, AsEngine())), OwnPart(me, AsEngine());
        if ok then OneMore(own, FirstBody(old(bodies)), own') else own' == own
      ensures bodies == if ok && old(bodies) != [] then old(bodies)[1..] else old(bodies)
    {
      hide Valid, OwnPart, AsEngine, Parts, EngineRuns, LaneOf;
      var tasks;
      ok, tasks, at, seen := PopTask(me);
      if ok {
        RunBody(me, tasks[0]);
        ReturnTask(me, tasks[0]);
      }
    }

    /** The loop of `handlerTask_main` and `handlerTask_thread`: pop, execute, push
        back. `seen` is the state at the last pop that was tried. */
    method ExecuteTasks(me: Side) returns (n: nat, ghost at: seq<EngineStep<T>>, ghost seen: Engine<T>)
      requires Valid() && AtRest(me, AsEngine())
      modifies this`run, this`schedule, this`bodies, Parts()
      ensures Valid() && AtRest(me, AsEngine()) && |schedule| <= |old(schedule)|
      ensures Progressed(old(OwnPart(me, AsEngine())), n, old(bodies), OwnPart(me, AsEngine()))
      ensures bodies == Later(old(bodies), n)
      ensures n <= 1024
      ensures Passed(start, old(run), at, seen, run)
      ensures n < 1024 ==> LaneOf(seen, Executes(me)).tasks.ring == []
    {
      assert MAX_HANDLER_SIZE_PERFRAME == 1024;
      hide *;
      AtStart(me);
      n := 0;
      at, seen := run, AsEngine();
      var more := true;
      while more && n < MAX_HANDLER_SIZE_PERFRAME
        invariant n <= MAX_HANDLER_SIZE_PERFRAME
        invariant Valid() && AtRest(me, AsEngine()) && |schedule| <= |old(schedule)|
        invariant Progressed(old(OwnPart(me, AsEngine())), n, old(bodies), OwnPart(me, AsEngine()))
        invariant bodies == Later(old(bodies), n)
        invariant Passed(start, old(run), at, seen, run) && old(run) <= run
        invariant !more ==> LaneOf(seen, Executes(me)).tasks.ring == []
        decreases more, MAX_HANDLER_SIZE_PERFRAME - n
      {
        ghost var before := run;
        more, at, seen := CountOne(me, n, old(OwnPart(me, AsEngine())), old(bodies));
        PassedSince(start, old(run), before, at, seen, run);
        if more {
          n := n + 1;
        }
      }
    }

    lemma AtStart(me: Side)
      requires Valid()
      ensures Passed(start, run, run, AsEngine(), run)
      ensures Progressed(OwnPart(me, AsEngine()), 0, bodies, OwnPart(me, AsEngine())) && bodies == Later(bodies, 0)
      ensures Finished(OwnPart(me, AsEngine()), 0, OwnPart(me, AsEngine()))
    {
      NoProgress(OwnPart(me, AsEngine()), bodies);
      LaterOn(bodies, 0);
    }

    /** One round, in terms of the whole loop. */
    method CountOne(me: Side, ghost n: nat, ghost own: Own<T>, ghost all: seq<seq<T>>)
      returns (ok: bool, ghost at: seq<EngineStep<T>>, ghost seen: Engine<T>)
      requires Valid() && AtRest(me, AsEngine())
      requires Progressed(own, n, all, OwnPart(me, AsEngine())) && bodies == Later(all, n)
      modifies this`run, this`schedule, this`bodies, Parts()
      ensures Valid() && AtRest(me, AsEngine()) && |schedule| <= |old(schedule)|
      ensures Passed(start, old(run), at, seen, run)
      ensures ok <==> LaneOf(seen, Executes(me)).tasks.ring != []
      ensures Progressed(own, if ok then n + 1 else n, all, OwnPart(me, AsEngine()))
      ensures bodies == Later(all, if ok then n + 1 else n)
    {
      hide Valid, OwnPart, AsEngine, Parts, EngineRuns, LaneOf, Progressed, AtRest, BodiesOf, Later, FirstBody, OneMore;
      ghost var before := OwnPart(me, AsEngine());
      LaterOn(all, n);
      ok, at, seen := RunOne(me);
      if ok {
        ProgressOn(own, n, all, before, OwnPart(me, AsEngine()));
      }
    }

    /** The pop of `handlerTask_complete`; `seen` is the state at the pop. */
    method TakeBackOne(me: Side) returns (ok: bool, ghost tasks: seq<T>, ghost at: seq<EngineStep<T>>,
        ghost seen: Engine<T>)
      requires Valid() && OwnPart(me, AsEngine()).submit.returning == []
      modifies this`run, this`schedule, Parts()
      ensures Valid() && Passed(start, old(run), at, seen, run)
      ensures ok <==> LaneOf(seen, Submits(me)).done.ring != []
      ensures var own := old(OwnPart(me, AsEngine()));
        OwnPart(me, AsEngine()) ==
          if ok then own.(submit := own.submit.(taken := own.submit.taken + tasks, returning := tasks)) else own
      ensures |tasks| == if ok then 1 else 0
      ensures if old(schedule) == []
        then schedule == [] && (ok ==> |LaneAt(Submits(me)).done.ring| < old(|LaneAt(Submits(me)).done.ring|))
        else |schedule| < |old(schedule)|
    {
      hide Valid, OwnPart, AsEngine, Parts, EngineRuns, LaneOf;
      LookInside(me);
      Interfere(me);
      LookInside(me);
      at, seen := run, AsEngine();
      var l := LaneAt(Submits(me));
      ok, tasks := l.done.ring != [], [];
      if ok {
        tasks := PopBack(me);
      }
    }

    method PopBack(me: Side) returns (ghost tasks: seq<T>)
      requires Valid() && OwnPart(me, AsEngine()).submit.returning == [] && LaneAt(Submits(me)).done.ring != []
      modifies this`run, Parts()
      ensures Valid() && old(run) <= run && |tasks| == 1
      ensures var own := old(OwnPart(me, AsEngine()));
        OwnPart(me, AsEngine()) == own.(submit := own.submit.(taken := own.submit.taken + tasks, returning := tasks))
      ensures LaneAt(Submits(me)).done.ring == old(LaneAt(Submits(me)).done.ring)[1..]
    {
      hide Valid, EngineRuns;
      tasks := [LaneAt(Submits(me)).done.ring[0]];
      Do(On(Submits(me), TakeBack));
    }

    /** `dotask_complete`: the task is completed and freed. */
    method CompleteOne(me: Side)
      requires Valid() && |OwnPart(me, AsEngine()).submit.returning| == 1
      modifies this`run, this`schedule, Parts()
      ensures Valid() && old(run) <= run
      ensures var own := old(OwnPart(me, AsEngine()));
        OwnPart(me, AsEngine()) ==
          own.(submit := own.submit.(completed := own.submit.completed + own.submit.returning, returning := []))
      ensures if old(schedule) == []
        then schedule == [] && LaneAt(Submits(me)).done.ring == old(LaneAt(Submits(me)).done.ring)
        else |schedule| < |old(schedule)|
    {
      LookInside(me);
      Interfere(me);
      LookInside(me);
      hide Valid, EngineRuns;
      Do(On(Submits(me), Complete));
    }

    /** One round: take back and complete. */
    method FinishOne(me: Side) returns (ok: bool, ghost at: seq<EngineStep<T>>, ghost seen: Engine<T>)
      requires Valid() && AtRest(me, AsEngine())
      modifies this`run, this`schedule, Parts()
      ensures Valid() && AtRest(me, AsEngine()) && Passed(start, old(run), at, seen, run)
      ensures ok <==> LaneOf(seen, Submits(me)).done.ring != []
      ensures Finished(old(OwnPart(me, AsEngine())), if ok then 1 else 0, OwnPart(me, AsEngine()))
      ensures |schedule| <= |old(schedule)|
      ensures ok && |schedule| == |old(schedule)| ==>
        |LaneAt(Submits(me)).done.ring| < old(|LaneAt(Submits(me)).done.ring|)
    {
      hide Valid, OwnPart, AsEngine, Parts, EngineRuns, LaneOf, LaneAt, Submits, Passed;
      ghost var tasks;
      ok, tasks, at, seen := TakeBackOne(me);
      if ok {
        ghost var before := run;
        CompleteOne(me);
        PassedUntil(start, old(run), at, seen, before, run);
      }
    }

    /** The loop of `handlerTask_main_complete` and `handlerTask_thread_complete`: take
        back until the ring is empty; `seen` is the state at the last pop. */
    method CompleteTasks(me: Side) returns (n: nat, ghost at: seq<EngineStep<T>>, ghost seen: Engine<T>)
      requires Valid() && AtRest(me, AsEngine())
      modifies this`run, this`schedule, Parts()
      ensures Valid() && AtRest(me, AsEngine()) && Passed(start, old(run), at, seen, run)
      ensures Finished(old(OwnPart(me, AsEngine())), n, OwnPart(me, AsEngine()))
      ensures |schedule| <= |old(schedule)|
      ensures LaneOf(seen, Submits(me)).done.ring == []
    {
      hide *;
      AtStart(me);
      n := 0;
      at, seen := run, AsEngine();
      var more := true;
      while more
        invariant Valid() && AtRest(me, AsEngine()) && |schedule| <= |old(schedule)|
        invariant Finished(old(OwnPart(me, AsEngine())), n, OwnPart(me, AsEngine()))
        invariant Passed(start, old(run), at, seen, run) && old(run) <= run
        invariant !more ==> LaneOf(seen, Submits(me)).done.ring == []
        decreases more, |schedule|, |LaneAt(Submits(me)).done.ring|
      {
        ghost var before, own := run, OwnPart(me, AsEngine());
        more, at, seen := FinishOne(me);
        PassedSince(start, old(run), before, at, seen, run);
        FinishedOn(old(OwnPart(me, AsEngine())), n, own, if more then 1 else 0, OwnPart(me, AsEngine()));
        if more {
          n := n + 1;
        }
      }
    }

    // ---------- What both threads call ----------

    /** Main submits a task to the worker. */
    method PushTaskThread(task: T)
      requires Valid() && AtRest(Main, AsEngine())
      modifies this`run, this`schedule, Parts()
      ensures Valid() && AtRest(Main, AsEngine()) && old(run) <= run
      ensures AsEngine().down.tasks.pushed == old(AsEngine().down.tasks.pushed) + [task]
      ensures PushedOnly(old(OwnPart(Main, AsEngine())), OwnPart(Main, AsEngine()))
    {
      PushTask(Main, task);
    }

    /** The worker submits a task to main. */
    method PushTaskMain(task: T)
      requires Valid() && AtRest(Worker, AsEngine())
      modifies this`run, this`schedule, Parts()
      ensures Valid() && AtRest(Worker, AsEngine()) && old(run) <= run
      ensures AsEngine().up.tasks.pushed == old(AsEngine().up.tasks.pushed) + [task]
      ensures PushedOnly(old(OwnPart(Worker, AsEngine())), OwnPart(Worker, AsEngine()))
    {
      PushTask(Worker, task);
    }

    method PushTask(me: Side, task: T)
      requires Valid() && AtRest(me, AsEngine())
      modifies this`run, this`schedule, Parts()
      ensures Valid() && AtRest(me, AsEngine()) && old(run) <= run
      ensures OwnPart(me, AsEngine()).submit.end.pushed == old(OwnPart(me, AsEngine()).submit.end.pushed) + [task]
      ensures PushedOnly(old(OwnPart(me, AsEngine())), OwnPart(me, AsEngine()))
    {
      Look(me);
      hide Valid, OwnPart, AsEngine, Filled, Parts, QueueOf, EngineRuns, Refilled;
      ghost var at, seen := Push(me, task);
    }

    /** One call of main's update loop: complete, execute, refill both rings. */
    method UpdateMain() returns (n: nat, ghost completed: nat, ghost executed: nat, ghost seen: Milestones<T>)
      requires Valid() && AtRest(Main, AsEngine())
      modifies this`run, this`schedule, this`bodies, Parts()
      ensures Valid() && AtRest(Main, AsEngine()) && n == completed + executed
      ensures Updated(old(OwnPart(Main, AsEngine())), completed, executed, old(bodies), OwnPart(Main, AsEngine()))
      ensures Reached(Main, start, old(run), seen, run, executed)
      ensures seen.completing.state.down.done.ring == []
      ensures executed <= 1024 && (executed < 1024 ==> seen.executing.state.up.tasks.ring == [])
      ensures var q := seen.refilledBack.state.up.done; q.cache == [] || |q.ring| >= q.capacity
      ensures var q := seen.refilledNew.state.down.tasks; q.cache == [] || |q.ring| >= q.capacity
      ensures |AsEngine().down.completed| == |old(AsEngine().down.completed)| + completed
      ensures |AsEngine().up.executed| == |old(AsEngine().up.executed)| + executed
    {
      hide Valid, AtRest, AsEngine, BodiesOf, Passed;
      n, completed, executed, seen := Update(Main);
    }

    /** One call of the worker's update loop. */
    method UpdateThread() returns (n: nat, ghost completed: nat, ghost executed: nat, ghost seen: Milestones<T>)
      requires Valid() && AtRest(Worker, AsEngine())
      modifies this`run, this`schedule, this`bodies, Parts()
      ensures Valid() && AtRest(Worker, AsEngine()) && n == completed + executed
      ensures Updated(old(OwnPart(Worker, AsEngine())), completed, executed, old(bodies), OwnPart(Worker, AsEngine()))
      ensures Reached(Worker, start, old(run), seen, run, executed)
      ensures seen.completing.state.up.done.ring == []
      ensures executed <= 1024 && (executed < 1024 ==> seen.executing.state.down.tasks.ring == [])
      ensures var q := seen.refilledBack.state.down.done; q.cache == [] || |q.ring| >= q.capacity
      ensures var q := seen.refilledNew.state.up.tasks; q.cache == [] || |q.ring| >= q.capacity
      ensures |AsEngine().up.completed| == |old(AsEngine().up.completed)| + completed
      ensures |AsEngine().down.executed| == |old(AsEngine().down.executed)| + executed
    {
      hide Valid, AtRest, AsEngine, BodiesOf, Passed;
      n, completed, executed, seen := Update(Worker);
    }

    method Update(me: Side) returns (n: nat, ghost completed: nat, ghost executed: nat, ghost seen: Milestones<T>)
      requires Valid() && AtRest(me, AsEngine())
      modifies this`run, this`schedule, this`bodies, Parts()
      ensures Valid() && AtRest(me, AsEngine()) && n == completed + executed
      ensures Updated(old(OwnPart(me, AsEngine())), completed, executed, old(bodies), OwnPart(me, AsEngine()))
      ensures Reached(me, start, old(run), seen, run, executed)
    {
      hide *;
      ghost var own := OwnPart(me, AsEngine());
      var done, ran, moved;
      ghost var at0, at1, at2, at3, s0, s1, s2, s3;
      done, at0, s0 := CompleteTasks(me);
      ghost var run0, own0 := run, OwnPart(me, AsEngine());
      ran, at1, s1 := ExecuteTasks(me);
      ghost var run1, own1 := run, OwnPart(me, AsEngine());
      moved, at2, s2 := CheckAtRest(me, true);
      ghost var run2, own2 := run, OwnPart(me, AsEngine());
      moved, at3, s3 := CheckAtRest(me, false);
      n, completed, executed, seen := done + ran, done, ran,
        Milestones(Milestone(at0, s0), Milestone(at1, s1), Milestone(at2, s2), Milestone(at3, s3));
      UpdateDone(own, own0, own1, own2, OwnPart(me, AsEngine()), done, ran, old(bodies));
      MilestonesReached(me, start, old(run), run0, run1, run2, run, seen, ran);
    }

    /** `checkCache` between two calls. */
    method CheckAtRest(me: Side, back: bool) returns (moved: nat, ghost at: seq<EngineStep<T>>, ghost seen: Engine<T>)
      requires Valid() && AtRest(me, AsEngine())
      modifies this`run, this`schedule, Parts()
      ensures Valid() && AtRest(me, AsEngine())
      ensures Passed(start, old(run), at, seen, run) && Refilled(QueueOf(me, back, seen))
      ensures Tended(old(OwnPart(me, AsEngine())), OwnPart(me, AsEngine()))
    {
      Look(me);
      hide Valid, OwnPart, AsEngine, Filled, Parts, QueueOf, EngineRuns, Passed;
      moved, at, seen := CheckCache(me, back);
    }
  }

  /** Four states that one update passes through: at the last pop of a task to complete
      and of a task to execute, and at the last ring push of each of its two queues. */
  datatype Milestones<T> = Milestones(completing: Milestone<T>, executing: Milestone<T>,
    refilledBack: Milestone<T>, refilledNew: Milestone<T>)

  datatype Milestone<T> = Milestone(at: seq<EngineStep<T>>, state: Engine<T>)

  /** All there was to complete and, up to the limit, to execute was taken, and both
      rings were refilled from their caches. */
  ghost predicate Reached<T>(me: Side, start: Engine<T>, before: seq<EngineStep<T>>, seen: Milestones<T>,
      now: seq<EngineStep<T>>, executed: nat) {
    && before <= now
    && Passed(start, before, seen.completing.at, seen.completing.state, now)
    && LaneOf(seen.completing.state, Submits(me)).done.ring == []
    && Passed(start, before, seen.executing.at, seen.executing.state, now)
    && (executed < 1024 ==> LaneOf(seen.executing.state, Executes(me)).tasks.ring == [])
    && executed <= 1024
    && Passed(start, before, seen.refilledBack.at, seen.refilledBack.state, now)
    && Refilled(QueueOf(me, true, seen.refilledBack.state))
    && Passed(start, before, seen.refilledNew.at, seen.refilledNew.state, now)
    && Refilled(QueueOf(me, false, seen.refilledNew.state))
  }

  lemma MilestonesReached<T>(me: Side, start: Engine<T>, run: seq<EngineStep<T>>, run0: seq<EngineStep<T>>,
      run1: seq<EngineStep<T>>,
      run2: seq<EngineStep<T>>, run3: seq<EngineStep<T>>, seen: Milestones<T>, executed: nat)
    requires Passed(start, run, seen.completing.at, seen.completing.state, run0)
    requires LaneOf(seen.completing.state, Submits(me)).done.ring == []
    requires Passed(start, run0, seen.executing.at, seen.executing.state, run1) && executed <= 1024
    requires executed < 1024 ==> LaneOf(seen.executing.state, Executes(me)).tasks.ring == []
    requires Passed(start, run1, seen.refilledBack.at, seen.refilledBack.state, run2)
    requires Refilled(QueueOf(me, true, seen.refilledBack.state))
    requires Passed(start, run2, seen.refilledNew.at, seen.refilledNew.state, run3)
    requires Refilled(QueueOf(me, false, seen.refilledNew.state))
    ensures Reached(me, start, run, seen, run3, executed)
  {
    hide EngineRuns, LaneOf, Refilled, QueueOf;
    assert Passed(start, run, seen.completing.at, seen.completing.state, run3);
    assert Passed(start, run, seen.executing.at, seen.executing.state, run3);
    assert Passed(start, run, seen.refilledBack.at, seen.refilledBack.state, run3);
    assert Passed(start, run, seen.refilledNew.at, seen.refilledNew.state, run3);
  }

  /** What an update does for its own thread: tasks completed and executed, in order,
      and the tasks pushed that the executed ones submit. */
  ghost predicate Updated<T>(own: Own<T>, completed: nat, executed: nat, bodies: seq<seq<T>>, own': Own<T>) {
    && own.submit.completed <= own'.submit.completed && |own'.submit.completed| == |own.submit.completed| + completed
    && own.execute.executed <= own'.execute.executed && |own'.execute.executed| == |own.execute.executed| + executed
    && own'.submit.end.pushed == own.submit.end.pushed + BodiesOf(bodies, executed)
  }

  /** Only the caches have changed. */
  ghost predicate Tended<T>(own: Own<T>, own': Own<T>) {
    && own' == own.(submit := own.submit.(end := own'.submit.end), execute := own.execute.(end := own'.execute.end))
    && own'.submit.end.pushed == own.submit.end.pushed && own'.execute.end.pushed == own.execute.end.pushed
  }

  lemma UpdateDone<T>(own: Own<T>, own0: Own<T>, own1: Own<T>, own2: Own<T>, own3: Own<T>, completed: nat,
      executed: nat, bodies: seq<seq<T>>)
    requires Finished(own, completed, own0) && Progressed(own0, executed, bodies, own1)
    requires Tended(own1, own2) && Tended(own2, own3)
    ensures Updated(own, completed, executed, bodies, own3)
  {
    hide BodiesOf;
  }

  /** `n` more tasks were taken back and completed. */
  ghost predicate Finished<T>(own: Own<T>, n: nat, own': Own<T>) {
    && own' == own.(submit := own.submit.(taken := own'.submit.taken, completed := own'.submit.completed))
    && own.submit.completed <= own'.submit.completed && |own'.submit.completed| == |own.submit.completed| + n
    && own.submit.taken <= own'.submit.taken
  }

  lemma FinishedOn<T>(own: Own<T>, n: nat, now: Own<T>, m: nat, next: Own<T>)
    requires Finished(own, n, now) && Finished(now, m, next)
    ensures Finished(own, n + m, next)
  {}

  ghost predicate PushedOnly<T>(own: Own<T>, own': Own<T>) {
    own' == own.(submit := own.submit.(end := own'.submit.end))
  }

  function FirstBody<T>(bodies: seq<seq<T>>): seq<T> {
    if bodies == [] then [] else bodies[0]
  }

  /** The bodies after the first `n`. */
  function Later<T>(bodies: seq<seq<T>>, n: nat): seq<seq<T>> {
    if n <= |bodies| then bodies[n..] else []
  }

  lemma LaterOn<T>(bodies: seq<seq<T>>, n: nat)
    ensures Later(bodies, n + 1) == var later := Later(bodies, n); if later != [] then later[1..] else later
    ensures Later(bodies, 0) == bodies
  {}

  /** What the first `n` bodies submit. */
  ghost function BodiesOf<T>(bodies: seq<seq<T>>, n: nat): seq<T> {
    if n == 0 then [] else BodiesOf(bodies, n - 1) + (if n <= |bodies| then bodies[n - 1] else [])
  }

  /** `n` more tasks were executed, and what their bodies submit was pushed. */
  ghost predicate Progressed<T>(own: Own<T>, n: nat, bodies: seq<seq<T>>, own': Own<T>) {
    && own'.submit == own.submit.(end := own'.submit.end)
    && own'.submit.end.pushed == own.submit.end.pushed + BodiesOf(bodies, n)
    && own.execute.executed <= own'.execute.executed && |own'.execute.executed| == |own.execute.executed| + n
    && own.execute.taken <= own'.execute.taken && own.execute.end.pushed <= own'.execute.end.pushed
  }

  ghost predicate OneMore<T>(own: Own<T>, body: seq<T>, own': Own<T>) {
    && own'.submit == own.submit.(end := own'.submit.end)
    && own'.submit.end.pushed == own.submit.end.pushed + body
    && |own'.execute.executed| == |own.execute.executed| + 1 && own.execute.executed <= own'.execute.executed
    && own.execute.taken <= own'.execute.taken && own.execute.end.pushed <= own'.execute.end.pushed
  }

  lemma NoProgress<T>(own: Own<T>, bodies: seq<seq<T>>)
    ensures Progressed(own, 0, bodies, own)
  {}

  lemma ProgressOn<T>(own: Own<T>, n: nat, bodies: seq<seq<T>>, now: Own<T>, next: Own<T>)
    requires Progressed(own, n, bodies, now)
    requires OneMore(now, FirstBody(Later(bodies, n)), next)
    ensures Progressed(own, n + 1, bodies, next)
  {}

  /** Between `before` and `now` the two threads passed through the state `seen`. */
  ghost predicate Passed<T>(start: Engine<T>, before: seq<EngineStep<T>>, at: seq<EngineStep<T>>, seen: Engine<T>,
      now: seq<EngineStep<T>>) {
    before <= at <= now && EngineRuns(start, at, seen)
  }

  lemma PassedSince<T>(start: Engine<T>, first: seq<EngineStep<T>>, before: seq<EngineStep<T>>,
      at: seq<EngineStep<T>>, seen: Engine<T>, now: seq<EngineStep<T>>)
    requires first <= before && Passed(start, before, at, seen, now)
    ensures Passed(start, first, at, seen, now) && first <= now
  {}

  lemma PassedUntil<T>(start: Engine<T>, before: seq<EngineStep<T>>, at: seq<EngineStep<T>>, seen: Engine<T>,
      now: seq<EngineStep<T>>, later: seq<EngineStep<T>>)
    requires Passed(start, before, at, seen, now) && now <= later
    ensures Passed(start, before, at, seen, later)
  {}

  ghost function QueueOf<T>(me: Side, back: bool, e: Engine<T>): Queue<T> {
    if back then LaneOf(e, Executes(me)).done else LaneOf(e, Submits(me)).tasks
  }

  /** The cache is empty, or the ring is full. */
  ghost predicate Refilled<T>(q: Queue<T>) {
    q.cache == [] || |q.ring| >= q.capacity
  }
}
