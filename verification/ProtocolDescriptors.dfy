/** Open descriptors stay where their place says, and packets stay in stream order. */
module ProtocolDescriptors {
  import opened Bytes
  import opened Device
  import opened Framing
  import opened Tasks
  import opened Protocol
  import opened ProtocolInvariant
  import opened ProtocolPreserved

  // ---------- A worker's step ----------

  lemma PlacedStep(issued: map<Sid, Origin>, place: map<Fd, Place>, v: View, step: WorkerStep)
    requires LocalInv(issued, v) && Placed(place, v.id, v.w) && WorkerEnabled(v.w, step)
    requires step.Accept? ==> step.fd !in place
    ensures Placed(Replace(place, v.id, v.w, step), v.id, WorkerApply(v.w, step))
  {
    hide Directed, Owned, WorkerHalf, InsertFirst, CloseLast;
    match step
    case Take(alive) =>
      HeadForWorker(issued, v);
      if v.w.inbox[0].Insert? {
        HeadInsertAccepted(issued, place, v);
      }
      PlacedTake(place, v.id, v.w, alive);
    case _ =>
  }

  lemma PlacedTake(place: map<Fd, Place>, id: WorkerId, w: Worker, alive: bool)
    requires w.tables.Agree() && Placed(place, id, w) && WorkerEnabled(w, Take(alive))
    requires var t := w.inbox[0];
      t.ForWorker() && (t.Insert? ==> t.sid != LISTENER_SID && !w.tables.Rejects(t.fd, t.sid))
    ensures Placed(Replace(place, id, w, Take(alive)), id, WorkerApply(w, Take(alive)))
  {
    var t := w.inbox[0];
    assert t in w.inbox;
    if t.Insert? || t.Listener? {
      PlacedTakeFd(place, id, w);
    } else {
      PlacedTakeOther(place, id, w, alive);
    }
  }

  lemma PlacedTakeFd(place: map<Fd, Place>, id: WorkerId, w: Worker)
    requires w.tables.Agree() && Placed(place, id, w) && WorkerEnabled(w, Take(true))
    requires var t := w.inbox[0];
      HasFd(t) && (t.Insert? ==> t.sid != LISTENER_SID && !w.tables.Rejects(t.fd, t.sid))
    ensures Placed(Replace(place, id, w, Take(true)), id, WorkerApply(w, Take(true)))
  {
    hide Tables.Agree;
    var t := w.inbox[0];
    assert t in w.inbox;
    assert t.fd !in w.tables.byFd;
  }

  lemma PlacedTakeOther(place: map<Fd, Place>, id: WorkerId, w: Worker, alive: bool)
    requires w.tables.Agree() && Placed(place, id, w) && WorkerEnabled(w, Take(alive))
    requires var t := w.inbox[0]; t.ForWorker() && !HasFd(t)
    ensures Placed(Replace(place, id, w, Take(alive)), id, WorkerApply(w, Take(alive)))
  {}

  /** The descriptor a worker's step moves was at that worker, or was not open. */
  lemma MovesOwn(issued: map<Sid, Origin>, place: map<Fd, Place>, v: View, step: WorkerStep, fd: Fd)
    requires LocalInv(issued, v) && Placed(place, v.id, v.w) && WorkerEnabled(v.w, step)
    requires step.Accept? ==> step.fd !in place
    requires var place' := Replace(place, v.id, v.w, step);
      fd in place && (fd !in place' || place'[fd] != place[fd])
    ensures var p := place[fd]; !p.Stranded? && !p.InHand? && p.w == v.id
  {
    hide Directed, Owned, WorkerHalf, InsertFirst, CloseLast;
    if step.Take? {
      var t := v.w.inbox[0];
      assert t in v.w.inbox;
    }
  }

  lemma PlacedOther(issued: map<Sid, Origin>, place: map<Fd, Place>, v: View, step: WorkerStep, id: WorkerId, w: Worker)
    requires LocalInv(issued, v) && Placed(place, v.id, v.w) && WorkerEnabled(v.w, step)
    requires step.Accept? ==> step.fd !in place
    requires id != v.id && Placed(place, id, w)
    ensures Placed(Replace(place, v.id, v.w, step), id, w)
  {
    hide LocalInv;
    var place' := Replace(place, v.id, v.w, step);
    forall fd, p | At(place, fd, p) && !p.Stranded? && !p.InHand? && p.w == id
      ensures At(place', fd, p)
    {
      if !At(place', fd, p) {
        MovesOwn(issued, place, v, step, fd);
      }
    }
  }

  lemma DescriptorsKeptByWorker(s: State, id: WorkerId, ws: WorkerStep)
    requires Shape(s) && Workers(s) && Descriptors(s) && Enabled(s, ByWorker(id, ws))
    ensures Descriptors(Apply(s, ByWorker(id, ws)))
  {
    hide LocalInv, Placed, Occurs;
    var s' := Apply(s, ByWorker(id, ws));
    var v := ViewOf(s, id);
    forall i | i in s'.workers ensures Placed(s'.place, i, s'.workers[i]) {
      if i == id {
        PlacedStep(s.issued, s.place, v, ws);
      } else {
        PlacedOther(s.issued, s.place, v, ws, i, s.workers[i]);
      }
    }
    if s.main.pc.Routing? && !At(s'.place, s.main.pc.fd, InHand) {
      MovesOwn(s.issued, s.place, v, ws, s.main.pc.fd);
    }
    forall fd | fd in s'.place ensures Occurs(s'.workers, s'.main, fd, s'.place[fd]) {
      OccursAfterWorker(s, id, ws, fd);
    }
  }

  lemma OccursAfterWorker(s: State, id: WorkerId, ws: WorkerStep, fd: Fd)
    requires Shape(s) && Workers(s) && Descriptors(s) && Enabled(s, ByWorker(id, ws))
    requires fd in Apply(s, ByWorker(id, ws)).place
    ensures var s' := Apply(s, ByWorker(id, ws)); Occurs(s'.workers, s'.main, fd, s'.place[fd])
  {
    hide Placed, LocalInv;
    var s' := Apply(s, ByWorker(id, ws));
    var w, w' := s.workers[id], s'.workers[id];
    match ws
    case Take(alive) =>
      OccursAfterTake(s, id, alive, fd);
    case Accept(lfd, afd) =>
      if fd == afd {
        assert w'.outbox[|w'.outbox| - 1] in w'.outbox;
      } else {
        assert Occurs(s.workers, s.main, fd, s.place[fd]);
        assert forall t | t in w.outbox :: t in w'.outbox;
      }
    case _ =>
      LocalAgrees(s.issued, ViewOf(s, id));
      assert Occurs(s.workers, s.main, fd, s.place[fd]);
      assert forall t | t in w.outbox :: t in w'.outbox;
  }

  lemma LocalAgrees(issued: map<Sid, Origin>, v: View)
    requires LocalInv(issued, v)
    ensures v.w.tables.Agree()
  {}

  lemma OccursAfterTake(s: State, id: WorkerId, alive: bool, fd: Fd)
    requires Shape(s) && Workers(s) && Descriptors(s) && Enabled(s, ByWorker(id, Take(alive)))
    requires fd in Apply(s, ByWorker(id, Take(alive))).place
    ensures var s' := Apply(s, ByWorker(id, Take(alive))); Occurs(s'.workers, s'.main, fd, s'.place[fd])
  {
    hide LocalInv, Placed;
    var s' := Apply(s, ByWorker(id, Take(alive)));
    var w, w' := s.workers[id], s'.workers[id];
    var t := w.inbox[0];
    HeadForWorker(s.issued, ViewOf(s, id));
    assert forall u | u in w.inbox && u != t :: u in w'.inbox;
    assert forall u | u in w.outbox :: u in w'.outbox;
    if HasFd(t) && t.fd == fd {
    } else {
      assert Occurs(s.workers, s.main, fd, s.place[fd]);
    }
  }

  // ---------- Main's steps ----------

  lemma PlacedTaken(place: map<Fd, Place>, id: WorkerId, w: Worker)
    requires Placed(place, id, w) && w.outbox != []
    ensures var t := w.outbox[0];
      Placed(if t.Conn? then place[t.fd := InHand] else place, id, w.(outbox := w.outbox[1..]))
    ensures w.outbox[0].Conn? ==> At(place, w.outbox[0].fd, ConnQueued(id))
  {
    assert w.outbox[0] in w.outbox;
  }

  /** Moving a descriptor that is elsewhere. */
  lemma PlacedElsewhere(place: map<Fd, Place>, id: WorkerId, w: Worker, fd: Fd, p: Place)
    requires Placed(place, id, w)
    requires fd in place ==> place[fd].InHand? || place[fd].Stranded? || place[fd].w != id
    ensures Placed(place[fd := p], id, w)
  {}

  lemma DescriptorsKeptByTake(s: State, id: WorkerId)
    requires Shape(s) && Workers(s) && Descriptors(s) && Enabled(s, TakeAtMain(id))
    ensures Descriptors(Apply(s, TakeAtMain(id)))
  {
    hide LocalInv, Placed;
    var s' := Apply(s, TakeAtMain(id));
    var w, w' := s.workers[id], s'.workers[id];
    var t := w.outbox[0];
    LocalTaken(s.issued, ViewOf(s, id));
    PlacedTaken(s.place, id, w);
    forall i | i in s'.workers ensures Placed(s'.place, i, s'.workers[i]) {
      if i != id && t.Conn? {
        PlacedElsewhere(s.place, i, s.workers[i], t.fd, InHand);
      }
    }
    assert forall u | u in w.outbox && u != t :: u in w'.outbox;
    forall fd | fd in s'.place ensures Occurs(s'.workers, s'.main, fd, s'.place[fd]) {
      if t.Conn? && t.fd == fd {
      } else {
        assert Occurs(s.workers, s.main, fd, s.place[fd]);
      }
    }
  }

  /** A task pushed behind `inbox` hides nothing. */
  lemma OccursAfterPush(s: State, s': State, post: Post, fd: Fd)
    requires s'.workers == Deliver(s.workers, post)
    requires fd in s.place && Occurs(s.workers, s.main, fd, s.place[fd]) && !s.place[fd].InHand?
    ensures Occurs(s'.workers, s'.main, fd, s.place[fd])
  {
    if post.Post? && post.worker in s.workers {
      assert forall u | u in s.workers[post.worker].inbox :: u in s'.workers[post.worker].inbox;
    }
  }

  lemma PlacedPush(place: map<Fd, Place>, id: WorkerId, w: Worker, t: Task)
    requires Placed(place, id, w) && !HasFd(t)
    ensures Placed(place, id, w.(inbox := w.inbox + [t]))
  {}

  lemma DescriptorsKeptByMain(s: State, ms: MainStep)
    requires Descriptors(s) && Enabled(s, ByMain(ms)) && !ms.Route?
    ensures Descriptors(Apply(s, ByMain(ms)))
  {
    hide Placed, Occurs;
    var s' := Apply(s, ByMain(ms));
    var post := MainApply(s.main, ms).1;
    assert s'.workers == Deliver(s.workers, post) && s'.place == s.place;
    if post.Post? && post.worker in s.workers {
      PlacedPush(s.place, post.worker, s.workers[post.worker], post.task);
    }
    forall fd | fd in s.place ensures Occurs(s'.workers, s'.main, fd, s.place[fd]) {
      NotInHand(s, fd);
      OccursAfterPush(s, s', post, fd);
    }
  }

  lemma NotInHand(s: State, fd: Fd)
    requires fd in s.place && Occurs(s.workers, s.main, fd, s.place[fd])
    requires s.main.pc.Routing? ==> s.main.pc.fd != fd
    ensures !s.place[fd].InHand?
  {}

  /** Pushing a task that carries a descriptor which was in main's hand, or nowhere. */
  lemma PlacedPushFd(place: map<Fd, Place>, id: WorkerId, w: Worker, t: Task)
    requires Placed(place, id, w) && HasFd(t)
    requires t.fd in place ==> place[t.fd].InHand?
    ensures Placed(place[t.fd := TaskPlace(id, t)], id, w.(inbox := w.inbox + [t]))
  {}

  lemma DescriptorsKeptByFd(s: State, s': State, id: WorkerId, t: Task)
    requires Descriptors(s) && id in s.workers && HasFd(t)
    requires t.fd in s.place ==> s.place[t.fd].InHand?
    requires s.main.pc.Routing? ==> s.main.pc.fd == t.fd
    requires s'.workers == Deliver(s.workers, Post(id, t)) && s'.place == s.place[t.fd := TaskPlace(id, t)]
    requires !s'.main.pc.Routing?
    ensures Descriptors(s')
  {
    forall i | i in s'.workers ensures Placed(s'.place, i, s'.workers[i]) {
      hide Placed, Occurs;
      if i == id {
        PlacedPushFd(s.place, id, s.workers[id], t);
      } else {
        PlacedElsewhere(s.place, i, s.workers[i], t.fd, TaskPlace(id, t));
      }
    }
    forall fd | fd in s'.place ensures Occurs(s'.workers, s'.main, fd, s'.place[fd]) {
      hide Placed;
      if fd == t.fd {
        var inbox := s'.workers[id].inbox;
        assert inbox[|inbox| - 1] in inbox;
      } else {
        NotInHand(s, fd);
        OccursAfterPush(s, s', Post(id, t), fd);
      }
    }
  }

  lemma DescriptorsKept(s: State, step: Step)
    requires Shape(s) && Workers(s) && Descriptors(s) && Enabled(s, step)
    ensures Descriptors(Apply(s, step))
  {
    hide LocalInv, Placed, Occurs;
    match step
    case ByWorker(id, ws) => DescriptorsKeptByWorker(s, id, ws);
    case TakeAtMain(id) => DescriptorsKeptByTake(s, id);
    case StartListener(id, fd, dtype) => DescriptorsKeptByFd(s, Apply(s, step), id, Listener(fd, dtype));
    case ByMain(ms) =>
      if ms.Route? {
        DescriptorsKeptByFd(s, Apply(s, step), ms.worker, MainApply(s.main, ms).1.task);
      } else {
        DescriptorsKeptByMain(s, ms);
      }
  }

  // ---------- Packets ----------

  lemma {:induction false} PacketsAppend(a: seq<Task>, b: seq<Task>, sid: Sid)
    ensures PacketsOf(a + b, sid) == PacketsOf(a, sid) + PacketsOf(b, sid)
    decreases |b|
  {
    if b == [] {
      assert a + b == a;
    } else {
      var last := |b| - 1;
      assert (a + b)[..|a + b| - 1] == a + b[..last];
      PacketsAppend(a, b[..last], sid);
    }
  }

  lemma {:induction false} SilentHasNoPackets(stream: seq<Task>, sid: Sid)
    requires Silent(stream, sid)
    ensures PacketsOf(stream, sid) == []
    decreases |stream|
  {
    if stream != [] {
      assert stream[|stream| - 1] in stream;
      forall t | t in stream[..|stream| - 1] ensures !t.Mentions(sid) {
        assert t in stream;
      }
      SilentHasNoPackets(stream[..|stream| - 1], sid);
    }
  }

  /** What a worker's step adds to its stream. */
  ghost function Submitted(w: Worker, step: WorkerStep): seq<Task>
    requires WorkerEnabled(w, step)
  {
    WorkerApply(w, step).outbox[|w.outbox|..]
  }

  lemma StreamGrows(v: View, step: WorkerStep)
    requires WorkerEnabled(v.w, step)
    ensures After(v, WorkerApply(v.w, step)).Stream() == v.Stream() + Submitted(v.w, step)
    ensures !step.Receive? ==> forall t | t in Submitted(v.w, step) :: !t.Packet?
    ensures step.Receive? ==> Submitted(v.w, step) == [Packet(v.w.tables.byFd[step.fd].sid, step.data)]
  {
    var w' := WorkerApply(v.w, step);
    assert w'.outbox == v.w.outbox + w'.outbox[|v.w.outbox|..];
  }

  lemma {:induction false} NoPackets(tasks: seq<Task>, sid: Sid)
    requires forall t | t in tasks :: !t.Packet?
    ensures PacketsOf(tasks, sid) == []
    decreases |tasks|
  {
    if tasks != [] {
      assert tasks[|tasks| - 1] in tasks;
      NoPackets(tasks[..|tasks| - 1], sid);
    }
  }

  lemma StreamOrderKeptByWorker(s: State, id: WorkerId, ws: WorkerStep)
    requires Shape(s) && Workers(s) && StreamOrder(s) && Enabled(s, ByWorker(id, ws))
    requires Shape(Apply(s, ByWorker(id, ws)))
    ensures StreamOrder(Apply(s, ByWorker(id, ws)))
  {
    hide LocalInv;
    var s' := Apply(s, ByWorker(id, ws));
    var v := ViewOf(s, id);
    StreamGrows(v, ws);
    if ws.Receive? {
      ClientHasSession(s.issued, v, ws.fd);
    }
    forall sid | sid in s'.issued
      ensures PacketsOf(Home(s', sid).Stream(), sid) == s'.frames[sid]
    {
      if s.issued[sid].worker == id {
        PacketsAppend(v.Stream(), Submitted(v.w, ws), sid);
        if ws.Receive? {
          var t := Submitted(v.w, ws)[0];
          assert Submitted(v.w, ws)[..0] == [];
          assert PacketsOf(Submitted(v.w, ws), sid) == if t.sid == sid then [t.data] else [];
        } else {
          NoPackets(Submitted(v.w, ws), sid);
        }
      }
    }
  }

  lemma StreamOrderKept(s: State, step: Step)
    requires Shape(s) && Workers(s) && StreamOrder(s) && Enabled(s, step) && Shape(Apply(s, step))
    ensures StreamOrder(Apply(s, step))
  {
    hide LocalInv;
    if step.ByWorker? {
      StreamOrderKeptByWorker(s, step.w, step.step);
    } else {
      var s' := Apply(s, step);
      forall sid | sid in s'.issued
        ensures PacketsOf(Home(s', sid).Stream(), sid) == s'.frames[sid]
      {
        if sid in s.issued {
          StreamUnchanged(s, step, s.issued[sid].worker);
        } else {
          var w := s'.issued[sid].worker;
          StreamUnchanged(s, step, w);
          UnissuedIsSilent(s.issued, ViewOf(s, w), sid);
          SilentHasNoPackets(ViewOf(s, w).Stream(), sid);
        }
      }
    }
  }

  lemma UnissuedIsSilent(issued: map<Sid, Origin>, v: View, sid: Sid)
    requires LocalInv(issued, v) && sid !in issued
    ensures Silent(v.Stream(), sid)
  {
    forall t | t in v.Stream() ensures !t.Mentions(sid) {
      assert MyTask(issued, v.id, t);
    }
  }

  lemma StreamUnchanged(s: State, step: Step, id: WorkerId)
    requires Shape(s) && Workers(s) && StreamOrder(s) && Enabled(s, step) && Shape(Apply(s, step))
    requires !step.ByWorker? && id in s.workers
    ensures ViewOf(Apply(s, step), id).Stream() == ViewOf(s, id).Stream()
  {
    hide LocalInv;
    match step
    case TakeAtMain(i) =>
      LocalTaken(s.issued, ViewOf(s, i));
    case ByMain(ms) =>
      assert Apply(s, step).workers == Deliver(s.workers, MainApply(s.main, ms).1);
    case _ =>
  }
}
