/** One epoll worker: its device tables, the tasks it executes and the events it
    serves. Every method is proved to be a run of the worker steps of `Tasks`. */
module EpollHandler {
  import opened Bytes
  import opened Framing
  import opened Device
  import opened Tasks

  /** One slot that `epoll_wait` filled. `ready` are the connections `accept` would
      return, in order, if the descriptor is a listener. */
  datatype Event = Event(fd: Fd, readable: bool, writable: bool, ready: seq<Fd>)

  function EntryOf(d: DeviceInfo): Entry {
    Entry(d.fd, d.sessionId, d.deviceType)
  }

  /** The worker after removing the connection it has just reported, if any. */
  function Settle(w: Worker): Worker {
    if w.pc.Closing? then w.(tables := w.tables.RemoveByFd(w.pc.fd), pc := Idle) else w
  }

  function Entries(m: map<int, DeviceInfo>): map<int, Entry> {
    map k | k in m :: EntryOf(m[k])
  }

  lemma EntriesAdd(m: map<int, DeviceInfo>, k: int, d: DeviceInfo)
    ensures Entries(m[k := d]) == Entries(m)[k := EntryOf(d)]
  {}

  lemma EntriesRemove(m: map<int, DeviceInfo>, k: int)
    ensures Entries(m - {k}) == Entries(m) - {k}
  {}

  /** Both maps index the same devices, each under its own key. */
  ghost predicate Indexed(byFd: map<Fd, DeviceInfo>, bySession: map<Sid, DeviceInfo>) {
    && (forall fd | fd in byFd ::
          byFd[fd].fd == fd && byFd[fd].sessionId in bySession && bySession[byFd[fd].sessionId] == byFd[fd])
    && (forall sid | sid in bySession ::
          bySession[sid].sessionId == sid && bySession[sid].fd in byFd && byFd[bySession[sid].fd] == bySession[sid])
  }

  lemma IndexedAdd(byFd: map<Fd, DeviceInfo>, bySession: map<Sid, DeviceInfo>, d: DeviceInfo)
    requires Indexed(byFd, bySession) && d.fd !in byFd && d.sessionId !in bySession
    ensures Indexed(byFd[d.fd := d], bySession[d.sessionId := d])
  {}

  lemma IndexedRemove(byFd: map<Fd, DeviceInfo>, bySession: map<Sid, DeviceInfo>, d: DeviceInfo)
    requires Indexed(byFd, bySession) && d.fd in byFd && byFd[d.fd] == d
    ensures Indexed(byFd - {d.fd}, bySession - {d.sessionId})
  {}

  class EpollHandler {
    var byFd: map<Fd, DeviceInfo>
    var bySession: map<Sid, DeviceInfo>
    var pressure: int
    var inbox: seq<Task>
    var outbox: seq<Task>
    ghost var Repr: set<object>

    ghost predicate Valid()
      reads `byFd, `bySession, `Repr, Repr
    {
      ValidExcept({})
    }

    /** Valid, but the devices in `failing` may have undeliverable bytes in front. */
    ghost predicate ValidExcept(failing: set<Fd>)
      reads `byFd, `bySession, `Repr, Repr
    {
      && this !in Repr
      && Indexed(byFd, bySession)
      && (forall fd | fd in byFd :: Owned(byFd[fd]) && (fd !in failing ==> Drained(byFd[fd].Received())))
      && (forall a, b | a in byFd && b in byFd && a != b :: byFd[a].Footprint() !! byFd[b].Footprint())
    }

    ghost predicate Owned(d: DeviceInfo)
      reads `Repr, Repr
    {
      d.Footprint() <= Repr && d.Valid() && d.Traced()
    }

    /** This object as a worker of the protocol, between two steps. */
    function AsWorker(): Worker
      reads this
    {
      Worker(Tables(Entries(byFd), Entries(bySession), pressure), Idle, inbox, outbox)
    }

    /** Over a connection's whole life: what has been sent and what waits are the
        accepted payloads framed, whole and in order; and what was delivered and what
        waits in the window are the parse of everything received. */
    lemma WholeHistory(fd: Fd)
      requires Valid() && fd in byFd
      ensures var d := byFd[fd];
        && d.Valid() && AllSendable(d.accepted)
        && d.socket.outbound + d.Unsent() == Flatten(Frames(d.accepted))
        && Parse(d.arrived) == Parsed(d.delivered, d.Received(), true)
    {
      var d := byFd[fd];
      assert Owned(d) && Drained(d.Received());
      SendConservation(d.ops);
      assert d.delivered + [] == d.delivered;
    }

    constructor (pressure: int)
      ensures Valid() && fresh(Repr)
      ensures byFd == map[] && bySession == map[] && inbox == [] && outbox == [] && this.pressure == pressure
    {
      byFd, bySession, inbox, outbox := map[], map[], [], [];
      this.pressure := pressure;
      Repr := {};
    }

    /** What other threads do to this worker: they push to and pop from its queues. */
    method Exchange(inbox: seq<Task>, outbox: seq<Task>)
      requires Valid()
      modifies this`inbox, this`outbox
      ensures Valid() && AsWorker() == old(AsWorker()).(inbox := inbox, outbox := outbox)
    {
      this.inbox, this.outbox := inbox, outbox;
    }

    method AddDevice(fd: Fd, sid: Sid, dtype: DeviceType) returns (ok: bool)
      requires Valid()
      modifies this
      ensures Valid() && fresh(Repr - old(Repr))
      ensures AsWorker() == old(AsWorker()).(tables := old(AsWorker()).tables.Add(fd, sid, dtype))
      ensures ok <==> !old(AsWorker()).tables.Rejects(fd, sid)
      ensures ok <==> sid !in old(bySession) && fd !in old(byFd)
      ensures !ok ==> byFd == old(byFd) && bySession == old(bySession) && pressure == old(pressure)
      ensures ok ==> fd in byFd && byFd == old(byFd)[fd := byFd[fd]] && fresh(byFd[fd].Footprint())
      ensures ok ==> bySession == old(bySession)[sid := byFd[fd]] && pressure == old(pressure) + 1
      ensures ok ==> EntryOf(byFd[fd]) == Entry(fd, sid, dtype) && byFd[fd].arrived == [] && byFd[fd].delivered == []
    {
      if sid in bySession || fd in byFd {
        return false;
      }
      var d := NewDevice(fd, sid, dtype);
      IndexDevice(d);
      ok := true;
    }

    /** Files a new record under its descriptor and its session. */
    method IndexDevice(d: DeviceInfo)
      requires Valid() && d.fd !in byFd && d.sessionId !in bySession
      requires d.Footprint() !! Repr && d.Valid() && Drained(d.Received()) && d.Traced()
      modifies this
      ensures Valid() && Repr == old(Repr) + d.Footprint()
      ensures AsWorker() == old(AsWorker()).(tables := old(AsWorker()).tables.Add(d.fd, d.sessionId, d.deviceType))
      ensures byFd == old(byFd)[d.fd := d]
      ensures bySession == old(bySession)[d.sessionId := d] && pressure == old(pressure) + 1
    {
      hide Drained, Entries, Indexed, DeviceInfo.Traced, DeviceInfo.Valid;
      IndexedAdd(byFd, bySession, d);
      EntriesAdd(byFd, d.fd, d);
      EntriesAdd(bySession, d.sessionId, d);
      InEntries(d);
      byFd := byFd[d.fd := d];
      bySession := bySession[d.sessionId := d];
      pressure := pressure + 1;
      Repr := Repr + d.Footprint();
    }

    lemma InEntries(d: DeviceInfo)
      ensures AsWorker().tables.Rejects(d.fd, d.sessionId) <==> d.sessionId in bySession || d.fd in byFd
    {}

    method RemoveDeviceByFd(fd: Fd)
      requires ValidExcept({fd})
      modifies this`byFd, this`bySession, this`pressure
      ensures Valid()
      ensures AsWorker() == old(AsWorker()).(tables := old(AsWorker()).tables.RemoveByFd(fd))
      ensures byFd == old(byFd) - {fd}
      ensures if fd !in old(byFd) then bySession == old(bySession) && pressure == old(pressure)
        else bySession == old(bySession) - {old(byFd)[fd].sessionId} && pressure == old(pressure) - 1
    {
      if fd in byFd {
        RemoveDevice(byFd[fd]);
      }
    }

    method RemoveDeviceBySession(sid: Sid)
      requires Valid()
      modifies this`byFd, this`bySession, this`pressure
      ensures Valid()
      ensures AsWorker() == old(AsWorker()).(tables := old(AsWorker()).tables.RemoveBySid(sid))
      ensures forall fd | fd in byFd :: fd in old(byFd) && byFd[fd] == old(byFd)[fd]
      ensures bySession == old(bySession) - {sid}
      ensures if sid !in old(bySession) then byFd == old(byFd) && pressure == old(pressure)
        else byFd == old(byFd) - {old(bySession)[sid].fd} && pressure == old(pressure) - 1
    {
      if sid in bySession {
        RemoveDevice(bySession[sid]);
      }
    }

    /** The common tail of the two removals; closing the descriptor is the system's part. */
    method RemoveDevice(d: DeviceInfo)
      requires ValidExcept({d.fd}) && d.fd in byFd && byFd[d.fd] == d
      modifies this`byFd, this`bySession, this`pressure
      ensures Valid()
      ensures AsWorker() == old(AsWorker()).(tables := old(AsWorker()).tables.Remove(EntryOf(d)))
      ensures byFd == old(byFd) - {d.fd} && bySession == old(bySession) - {d.sessionId}
      ensures pressure == old(pressure) - 1
    {
      hide Drained, Entries, Indexed, DeviceInfo.Valid, DeviceInfo.Received, DeviceInfo.Traced;
      IndexedRemove(byFd, bySession, d);
      EntriesRemove(byFd, d.fd);
      EntriesRemove(bySession, d.sessionId);
      pressure := pressure - 1;
      byFd := byFd - {d.fd};
      bySession := bySession - {d.sessionId};
    }
  
    lemma SessionEntry(sid: Sid)
      requires Valid()
      ensures AsWorker().pc.Idle? && AsWorker().outbox == outbox
      ensures sid in bySession <==> sid in AsWorker().tables.bySid
      ensures sid in bySession ==>
        AsWorker().tables.bySid[sid].sid == sid && AsWorker().tables.bySid[sid].fd == bySession[sid].fd
      ensures sid in bySession ==>
        var d := bySession[sid];
        d.sessionId == sid && AsWorker().tables.bySid[sid] == EntryOf(d) && d.fd in byFd && byFd[d.fd] == d
    {}

    lemma FdEntry(fd: Fd)
      requires ValidExcept({fd})
      ensures fd in byFd <==> fd in AsWorker().tables.byFd
      ensures fd in byFd ==> byFd[fd].fd == fd && AsWorker().tables.byFd[fd] == EntryOf(byFd[fd])
      ensures fd in byFd ==> byFd[fd].Footprint() <= Repr
    {}

    lemma Weaken(fd: Fd)
      requires Valid()
      ensures ValidExcept({fd})
    {}

    /** Two devices have nothing in common. */
    lemma Apart(a: Fd, b: Fd)
      requires Valid() && a in byFd && b in byFd && a != b
      ensures byFd[a] !in byFd[b].Footprint() && byFd[a].sessionId != byFd[b].sessionId
    {
      assert byFd[a] in byFd[a].Footprint();
    }

    // ---------- Bytes ----------

    /** `DEVICE_INFO::write` on one of this worker's devices. */
    method QueuePayload(d: DeviceInfo, data: Payload) returns (n: int)
      requires Valid() && d.fd in byFd && byFd[d.fd] == d
      modifies d`sendBegin, d`sendEnd, d`accepted, d`ops, d.sendBuffer
      ensures Valid()
      ensures d.Valid() && d.Sending() == Perform(old(d.Sending()), Framing.Write(data))
      ensures n == if data == [] || |old(d.Unsent())| + |data| + 4 > 4096 then 0 else |data|
      ensures n > 0 || data == [] ==> |d.Unsent()| == |old(d.Unsent())| + if data == [] then 0 else |data| + 4
    {
      hide Indexed, Drained, Perform, Accepts, DeviceInfo.Traced, DeviceInfo.Received, DeviceInfo.Sending;
      n := d.Write(data);
    }

    method DoWrite(fd: Fd) returns (ok: bool, ghost ops: seq<SenderOp>)
      requires Valid()
      modifies if fd in byFd then byFd[fd].Footprint() else {}
      ensures Valid()
      ensures fd in byFd ==> byFd[fd].Sending() == PerformFrom(old(byFd[fd].Sending()), ops)
      ensures fd in byFd ==>
        var d := byFd[fd];
        && (ok <==> NoFailure(old(d.socket.sends), d.socket.sends))
        && (old(d.Unsent()) != [] ==> Called(old(d.socket.sends), d.socket.sends))
        && d.socket.recvs == old(d.socket.recvs) && d.socket.inbound == old(d.socket.inbound)
        && d.Received() == old(d.Received()) && d.delivered == old(d.delivered) && d.arrived == old(d.arrived)
      ensures fd !in byFd ==> !ok
    {
      hide Indexed, Drained, PerformFrom, Called, NoFailure, DeviceInfo.Traced, DeviceInfo.Received, DeviceInfo.Sending;
      if fd !in byFd {
        return false, [];
      }
      var d := byFd[fd];
      ok, ops := WriteLoop(d);
    }

    /** Every complete frame that arrived becomes one Packet task, in stream order. */
    method DoRead(fd: Fd) returns (ok: bool, ghost frames: seq<seq<Byte>>, ghost consumed: seq<Byte>)
      requires Valid()
      modifies this`outbox, if fd in byFd then byFd[fd].Footprint() else {}
      ensures ValidExcept({fd}) && (ok ==> Valid())
      ensures fd !in byFd ==> !ok && frames == []
      ensures fd in byFd ==>
        var d := byFd[fd];
        var p := Parse(old(d.Received()) + consumed);
        && old(d.socket.inbound) == consumed + d.socket.inbound
        && frames == p.frames && d.Received() == p.rest
        && Called(old(d.socket.recvs), d.socket.recvs)
        && (ok <==> d.socket.recvs[|d.socket.recvs| - 1] == Retry)
        && d.socket.sends == old(d.socket.sends)
        && d.delivered == old(d.delivered) + frames && d.arrived == old(d.arrived) + consumed
        && (ok ==> p.ok)
        && outbox == old(outbox) + Packets(d.sessionId, frames)
      ensures fd !in byFd ==> outbox == old(outbox)
    {
      hide Indexed, Entries, Parse, Drained, Called, DeviceInfo.Traced, ValidExcept;
      Weaken(fd);
      FdEntry(fd);
      if fd !in byFd {
        return false, [], [];
      }
      var fs;
      ok, fs, consumed := ReadDevice(byFd[fd]);
      frames := fs;
      PushPackets(byFd[fd].sessionId, fs);
    }

    /** The read loop on one of this worker's devices. */
    method ReadDevice(d: DeviceInfo) returns (ok: bool, frames: seq<seq<Byte>>, ghost consumed: seq<Byte>)
      requires Valid() && d.fd in byFd && byFd[d.fd] == d
      modifies d.Footprint()
      ensures ValidExcept({d.fd}) && (ok ==> Valid())
      ensures d.Valid()
      ensures var p := Parse(old(d.Received()) + consumed);
        && old(d.socket.inbound) == consumed + d.socket.inbound
        && frames == p.frames && d.Received() == p.rest
        && Called(old(d.socket.recvs), d.socket.recvs)
        && (ok <==> d.socket.recvs[|d.socket.recvs| - 1] == Retry)
        && d.socket.sends == old(d.socket.sends)
        && (ok ==> p.ok)
      ensures d.delivered == old(d.delivered) + frames && d.arrived == old(d.arrived) + consumed
    {
      hide Indexed, Parse, Continue, Called, PerformFrom, Drained, DeviceInfo.Traced;
      ok, frames, consumed := ReadLoop(d);
    }

    method PushPackets(sid: Sid, frames: seq<seq<Byte>>)
      modifies this`outbox
      ensures outbox == old(outbox) + Packets(sid, frames)
    {
      for i := 0 to |frames|
        invariant outbox == old(outbox) + Packets(sid, frames[..i])
      {
        outbox := outbox + [Packet(sid, frames[i])];
        assert frames[..i + 1] == frames[..i] + [frames[i]];
        assert Packets(sid, frames[..i + 1]) == Packets(sid, frames[..i]) + [Packet(sid, frames[i])];
      }
      assert frames[..|frames|] == frames;
    }

    // ---------- Tasks ----------

    /** `ops` are the successful `Send` calls. A payload that does not fit is refused
        as a whole, and the connection dies with it. */
    method WritePacketToConn(sid: Sid, data: Payload) returns (ghost alive: bool, ghost ops: seq<SenderOp>)
      requires Valid()
      modifies this, if sid in bySession then bySession[sid].Footprint() else {}
      ensures Valid() && Repr == old(Repr)
      ensures AsWorker() == Settle(Dispatch(old(AsWorker()), Send(sid, data), alive))
      ensures forall fd | fd in byFd :: fd in old(byFd) && byFd[fd] == old(byFd)[fd]
      ensures sid in old(bySession) ==>
        var d := old(bySession)[sid]; d.arrived == old(d.arrived) && d.delivered == old(d.delivered)
      ensures sid in old(bySession) ==>
        var d := old(bySession)[sid];
        && d.Valid()
        && d.Sending() == PerformFrom(Perform(old(d.Sending()), Framing.Write(data)), ops)
        && (alive <==> (data == [] || |old(d.Unsent())| + |data| + 4 <= 4096)
                       && NoFailure(old(d.socket.sends), d.socket.sends))
      ensures sid in old(bySession) ==>
        var d := old(bySession)[sid];
        var taken := data == [] || |old(d.Unsent())| + |data| + 4 <= 4096;
        var calls, before := |d.socket.sends|, |old(d.socket.sends)|;
        var failed := calls > before && d.socket.sends[calls - 1] in {Zero, Broken};
        && (!taken ==> d.socket.sends == old(d.socket.sends))
        && (taken && data != [] ==> calls > before)
        && if taken && !failed then byFd == old(byFd) && outbox == old(outbox)
           else byFd == old(byFd) - {d.fd} && outbox == old(outbox) + [OnClose(sid)]
    {
      hide *;
      alive, ops := true, [];
      SessionEntry(sid);
      ghost var before := AsWorker();
      if sid in bySession {
        alive, ops := WriteOrDrop(bySession[sid], data);
      }
      SendSettles(before, sid, data, alive);
      if sid in old(bySession) {
        ghost var d := old(bySession)[sid];
        FailureIs(old(d.socket.sends), d.socket.sends);
      }
    }

    /** Queues and sends on a device; drops it if that fails, OnClose first. */
    method WriteOrDrop(d: DeviceInfo, data: Payload) returns (ghost alive: bool, ghost ops: seq<SenderOp>)
      requires Valid() && d.fd in byFd && byFd[d.fd] == d
      modifies this, d.Footprint()
      ensures Valid() && Repr == old(Repr)
      ensures AsWorker() == if alive then old(AsWorker()) else old(AsWorker()).(
        outbox := old(outbox) + [OnClose(d.sessionId)], tables := old(AsWorker()).tables.RemoveByFd(d.fd))
      ensures byFd == if alive then old(byFd) else old(byFd) - {d.fd}
      ensures outbox == if alive then old(outbox) else old(outbox) + [OnClose(d.sessionId)]
      ensures d.arrived == old(d.arrived) && d.delivered == old(d.delivered)
      ensures d.Valid() && d.Sending() == PerformFrom(Perform(old(d.Sending()), Framing.Write(data)), ops)
      ensures var taken := data == [] || |old(d.Unsent())| + |data| + 4 <= 4096;
        && (!taken ==> d.socket.sends == old(d.socket.sends))
        && (taken && data != [] ==> |d.socket.sends| > |old(d.socket.sends)|)
        && (alive <==> taken && NoFailure(old(d.socket.sends), d.socket.sends))
    {
      hide Indexed, Entries, Drained, Perform, PerformFrom, Accepts, DeviceInfo.Traced;
      FdEntry(d.fd);
      var n := QueuePayload(d, data);
      NoOps(d.Sending());
      SameSends(d.socket.sends);
      var ok := false;
      ops := [];
      if n >= |data| {
        ok, ops := DoWrite(d.fd);
      }
      alive := ok;
      if !ok {
        outbox := outbox + [OnClose(d.sessionId)];
        RemoveDeviceByFd(d.fd);
      }
    }

    /** The one device whose bytes a task moves. */
    ghost function TouchedBy(t: Task): set<object>
      reads `bySession
    {
      if t.Send? && t.sid in bySession then bySession[t.sid].Footprint() else {}
    }

    /** The device filed under `fd` was there before, or an Insert or Listener task has
        just made it and nothing has arrived on it. */
    ghost predicate KeptOrNew(before: map<Fd, DeviceInfo>, fd: Fd, t: Task)
      requires fd in byFd
      reads `byFd, byFd[fd]
    {
      var d := byFd[fd];
      || (fd in before && d == before[fd])
      || (d.arrived == [] && d.delivered == []
          && ((t == Listener(fd, d.deviceType) && d.sessionId == LISTENER_SID)
               || t == Insert(fd, d.deviceType, d.sessionId)))
    }

    /** `EpollHandler::dotask` for a task taken from the queue. */
    method DoTask(t: Task) returns (ghost alive: bool)
      requires Valid()
      modifies this, TouchedBy(t)
      ensures Valid() && fresh(Repr - old(Repr))
      ensures AsWorker() == Settle(Dispatch(old(AsWorker()), t, alive))
      ensures forall fd | fd in byFd :: KeptOrNew(old(byFd), fd, t)
      ensures t.Listener? && t.fd !in old(byFd) && 0 !in old(bySession) ==> t.fd in byFd && byFd[t.fd].sessionId == 0
      ensures forall d | d in old(byFd).Values :: d.arrived == old(d.arrived) && d.delivered == old(d.delivered)
    {
      hide Indexed, Entries, Drained, DeviceInfo.Traced;
      alive := true;
      match t
      case Listener(fd, dtype) =>
        var ok := AddDevice(fd, LISTENER_SID, dtype);
      case Insert(fd, dtype, sid) =>
        var ok := AddDevice(fd, sid, dtype);
      case Delete(sid) =>
        RemoveDeviceBySession(sid);
      case Send(sid, data) =>
        ghost var ops;
        alive, ops := WritePacketToConn(sid, data);
      case _ =>
    }

    /** One round of `handlerTask_thread`: a run of the protocol's worker. */
    method TakeTask() returns (ghost trace: seq<WorkerStep>)
      requires Valid() && inbox != []
      modifies this, TouchedBy(inbox[0])
      ensures Valid() && fresh(Repr - old(Repr))
      ensures WorkerRuns(old(AsWorker()), trace, AsWorker())
      ensures trace != [] && trace[0].Take? && (|trace| == 1 || trace == [trace[0], Close])
      ensures forall fd | fd in byFd :: KeptOrNew(old(byFd), fd, old(inbox)[0])
      ensures forall d | d in old(byFd).Values :: d.arrived == old(d.arrived) && d.delivered == old(d.delivered)
    {
      hide Indexed, Entries, Drained, Settle, Dispatch, WorkerRuns;
      hide DeviceInfo.Traced, DeviceInfo.Valid, DeviceInfo.Received;
      ghost var before := AsWorker();
      var t := inbox[0];
      inbox := inbox[1..];
      ghost var alive := DoTask(t);
      trace := TakeTrace(before, alive, AsWorker());
    }

    // ---------- Events ----------

    method DoAccept(fd: Fd, ready: seq<Fd>) returns (ghost trace: seq<WorkerStep>)
      requires Valid() && fd in byFd && byFd[fd].deviceType.IsServer()
      modifies this`outbox
      ensures Valid()
      ensures WorkerRuns(old(AsWorker()), trace, AsWorker())
      ensures trace == Accepting(fd, ready)
      ensures outbox == old(outbox)
        + Conns(ready, if byFd[fd].deviceType.ServerInternal? then ClientInternal else ClientExternal)
    {
      hide Indexed, Entries, Drained, DeviceInfo.Traced;
      FdEntry(fd);
      var dtype := byFd[fd].deviceType.ClientType();
      trace := [];
      for i := 0 to |ready|
        invariant Valid()
        invariant WorkerRuns(old(AsWorker()), trace, AsWorker())
        invariant trace == Accepting(fd, ready[..i])
        invariant outbox == old(outbox) + Conns(ready[..i], dtype)
      {
        ghost var before := AsWorker();
        assert Conns(ready[..i + 1], dtype) == Conns(ready[..i], dtype) + [Conn(ready[i], dtype)];
        outbox := outbox + [Conn(ready[i], dtype)];
        OneStep(before, Accept(fd, ready[i]), AsWorker());
        WorkerRunsAppend(old(AsWorker()), trace, before, [Accept(fd, ready[i])], AsWorker());
        trace := trace + [Accept(fd, ready[i])];
      }
      assert ready[..|ready|] == ready;
    }

    /** One slot of the event loop: a run of the protocol's worker. What it does
        depends on the type of the device; an unknown descriptor is ignored. */
    method DoEvent(e: Event) returns (ghost trace: seq<WorkerStep>)
      requires Valid()
      modifies this, if e.fd in byFd then byFd[e.fd].Footprint() else {}
      ensures Valid() && Repr == old(Repr)
      ensures WorkerRuns(old(AsWorker()), trace, AsWorker())
      ensures forall fd | fd in byFd :: fd in old(byFd) && byFd[fd] == old(byFd)[fd]
      ensures e.fd !in old(byFd) || old(byFd)[e.fd].deviceType.Unknown? ==> trace == []
      ensures e.fd in old(byFd) && old(byFd)[e.fd].deviceType in {ServerInternal, ServerExternal} ==>
        trace == Accepting(e.fd, e.ready)
      ensures e.fd in old(byFd) && old(byFd)[e.fd].deviceType in {ClientInternal, ClientExternal} ==>
        var d := old(byFd)[e.fd];
        && d.Valid() && Calls(e, old(d.socket.sends), d.socket.sends, old(d.socket.recvs), d.socket.recvs)
        && trace == ClientTrace(e, old(d.Received()) + Seen(old(d.socket.inbound), d.socket.inbound),
                                Healthy(e, old(d.socket.sends), d.socket.sends, d.socket.recvs))
        && d.delivered == old(d.delivered) +
             Parse(old(d.Received()) + Seen(old(d.socket.inbound), d.socket.inbound)).frames
        && d.arrived == old(d.arrived) + Seen(old(d.socket.inbound), d.socket.inbound)
      ensures e.fd in old(byFd) && old(byFd)[e.fd].deviceType !in {ClientInternal, ClientExternal} ==>
        var d := old(byFd)[e.fd]; d.arrived == old(d.arrived) && d.delivered == old(d.delivered)
    {
      trace := [];
      if e.fd in byFd && byFd[e.fd].deviceType.IsServer() {
        trace := DoAccept(e.fd, e.ready);
      } else if e.fd in byFd && byFd[e.fd].deviceType.IsClient() {
        trace := DoClientEvent(e);
      }
    }

    /** Writes if the event says so, reads if it says so and the writing went well, and
        drops the connection, OnClose first, exactly if one of the two failed. */
    method DoClientEvent(e: Event) returns (ghost trace: seq<WorkerStep>)
      requires Valid() && e.fd in byFd && byFd[e.fd].deviceType.IsClient()
      modifies this, byFd[e.fd].Footprint()
      ensures Valid() && Repr == old(Repr)
      ensures WorkerRuns(old(AsWorker()), trace, AsWorker())
      ensures var d := old(byFd)[e.fd];
        && d.Valid() && Calls(e, old(d.socket.sends), d.socket.sends, old(d.socket.recvs), d.socket.recvs)
        && trace == ClientTrace(e, old(d.Received()) + Seen(old(d.socket.inbound), d.socket.inbound),
                                Healthy(e, old(d.socket.sends), d.socket.sends, d.socket.recvs))
        && d.delivered == old(d.delivered) +
             Parse(old(d.Received()) + Seen(old(d.socket.inbound), d.socket.inbound)).frames
        && d.arrived == old(d.arrived) + Seen(old(d.socket.inbound), d.socket.inbound)
        && d.Traced() && (forall fd | fd in byFd :: fd in old(byFd) && byFd[fd] == old(byFd)[fd])
      ensures var d := old(byFd)[e.fd];
        var sends, recvs := |d.socket.sends|, |d.socket.recvs|;
        var sendFailed := sends > |old(d.socket.sends)| && d.socket.sends[sends - 1] in {Zero, Broken};
        && (e.writable && old(d.Unsent()) != [] ==> sends > |old(d.socket.sends)|)
        && (!e.writable ==> d.socket.sends == old(d.socket.sends))
        && if sendFailed then d.socket.recvs == old(d.socket.recvs) && e.fd !in byFd
           else if e.readable then
             recvs > |old(d.socket.recvs)| && (e.fd in byFd <==> d.socket.recvs[recvs - 1] == Retry)
           else d.socket.recvs == old(d.socket.recvs) && e.fd in byFd
    {
      hide Indexed, Entries, Drained, WorkerRuns, Parse, Calls, Healthy, Seen, ValidExcept, DeviceInfo.Traced;
      ghost var before := AsWorker();
      Weaken(e.fd);
      FdEntry(e.fd);
      var result;
      ghost var frames;
      result, frames := Transfer(e);
      if !result {
        ReportAndRemove(e.fd);
      }
      ghost var d := old(byFd)[e.fd];
      EventCalls(e, old(d.socket.sends), d.socket.sends, old(d.socket.recvs), d.socket.recvs);
      MoreCalls(old(d.socket.sends), d.socket.sends);
      trace := EventTrace(before, e.fd, frames, result, AsWorker());
    }

    /** The writing and reading of one event on a connection. */
    method Transfer(e: Event) returns (result: bool, ghost frames: seq<seq<Byte>>)
      requires Valid() && e.fd in byFd
      modifies this`outbox, byFd[e.fd].Footprint()
      ensures ValidExcept({e.fd}) && (result ==> Valid())
      ensures Repr == old(Repr) && byFd == old(byFd)
      ensures AsWorker() == old(AsWorker()).(outbox := old(outbox) + Packets(old(byFd[e.fd].sessionId), frames))
      ensures var d := byFd[e.fd];
        && d.Valid() && d.Traced() && Calls(e, old(d.socket.sends), d.socket.sends, old(d.socket.recvs), d.socket.recvs)
        && frames == Parse(old(d.Received()) + Seen(old(d.socket.inbound), d.socket.inbound)).frames
        && d.delivered == old(d.delivered) + frames
        && d.arrived == old(d.arrived) + Seen(old(d.socket.inbound), d.socket.inbound)
        && (result <==> Healthy(e, old(d.socket.sends), d.socket.sends, d.socket.recvs))
        && (e.writable && old(d.Unsent()) != [] ==> Called(old(d.socket.sends), d.socket.sends))
    {
      hide Indexed, Entries, Parse, PerformFrom, NoFailure, Called;
      FdEntry(e.fd);
      result, frames := true, [];
      ghost var d := byFd[e.fd];
      NothingSeen(d.Received(), d.socket.inbound);
      SameSends(d.socket.sends);
      hide Drained, Seen;
      if e.writable {
        ghost var ops;
        result, ops := DoWrite(e.fd);
      }
      if result && e.readable {
        ghost var consumed;
        result, frames, consumed := DoRead(e.fd);
        ConsumedIsSeen(old(d.socket.inbound), consumed, d.socket.inbound);
        CalledSome(old(d.socket.recvs), d.socket.recvs);
      }
    }

    /** What the event loop does when a connection failed. */
    method ReportAndRemove(fd: Fd)
      requires ValidExcept({fd})
      modifies this`byFd, this`bySession, this`pressure, this`outbox
      ensures Valid()
      ensures AsWorker() == old(AsWorker()).(
        outbox := if fd in old(byFd) then old(outbox) + [OnClose(old(byFd)[fd].sessionId)] else old(outbox),
        tables := old(AsWorker()).tables.RemoveByFd(fd))
      ensures byFd == old(byFd) - {fd}
    {
      hide Indexed, Entries, Drained;
      if fd in byFd {
        outbox := outbox + [OnClose(byFd[fd].sessionId)];
      }
      RemoveDeviceByFd(fd);
    }

    method DoEpollEvents(events: seq<Event>) returns (ghost trace: seq<WorkerStep>)
      requires Valid()
      modifies this, Repr
      ensures Valid() && Repr == old(Repr)
      ensures WorkerRuns(old(AsWorker()), trace, AsWorker())
    {
      trace := [];
      for i := 0 to |events|
        invariant Valid() && Repr == old(Repr)
        invariant WorkerRuns(old(AsWorker()), trace, AsWorker())
      {
        ghost var before := AsWorker();
        ghost var more := DoEvent(events[i]);
        WorkerRunsAppend(old(AsWorker()), trace, before, more, AsWorker());
        trace := trace + more;
      }
    }
  }

  /** Whether the event gets as far as reading. */
  ghost predicate Reads(e: Event, sendsBefore: seq<Outcome>, sends: seq<Outcome>) {
    e.readable && (e.writable ==> NoFailure(sendsBefore, sends))
  }

  /** Which calls one event makes. */
  ghost predicate Calls(e: Event, sendsBefore: seq<Outcome>, sends: seq<Outcome>, recvsBefore: seq<Outcome>,
      recvs: seq<Outcome>) {
    && (!e.writable ==> sends == sendsBefore)
    && (if Reads(e, sendsBefore, sends) then Called(recvsBefore, recvs) else recvs == recvsBefore)
  }

  /** Neither writing nor reading failed: reading ended with nothing more to read. */
  ghost predicate Healthy(e: Event, sendsBefore: seq<Outcome>, sends: seq<Outcome>, recvs: seq<Outcome>) {
    && (e.writable ==> NoFailure(sendsBefore, sends))
    && (Reads(e, sendsBefore, sends) ==> recvs != [] && recvs[|recvs| - 1] == Retry)
  }

  /** The same in terms of the last calls. */
  lemma EventCalls(e: Event, sendsBefore: seq<Outcome>, sends: seq<Outcome>, recvsBefore: seq<Outcome>,
      recvs: seq<Outcome>)
    requires Calls(e, sendsBefore, sends, recvsBefore, recvs)
    ensures !e.writable ==> sends == sendsBefore
    ensures var healthy := Healthy(e, sendsBefore, sends, recvs);
      if |sends| > |sendsBefore| && sends[|sends| - 1] in {Zero, Broken} then !healthy && recvs == recvsBefore
      else if e.readable then |recvs| > |recvsBefore| && (healthy <==> recvs[|recvs| - 1] == Retry)
      else healthy && recvs == recvsBefore
  {}

  lemma MoreCalls(before: seq<Outcome>, after: seq<Outcome>)
    ensures Called(before, after) ==> |after| > |before|
  {}

  lemma FailureIs(before: seq<Outcome>, after: seq<Outcome>)
    ensures NoFailure(before, after) <==> !(|after| > |before| && after[|after| - 1] in {Zero, Broken})
  {}

  /** Executing a Send, as the protocol has it. */
  lemma SendSettles(w: Worker, sid: Sid, data: Payload, alive: bool)
    requires w.pc.Idle? && (sid in w.tables.bySid ==> w.tables.bySid[sid].sid == sid)
    ensures Settle(Dispatch(w, Send(sid, data), alive)) ==
      if sid !in w.tables.bySid || alive then w
      else w.(outbox := w.outbox + [OnClose(sid)], tables := w.tables.RemoveByFd(w.tables.bySid[sid].fd))
  {}

  /** The bytes that left `inbound`. */
  ghost function Seen(before: seq<Byte>, after: seq<Byte>): seq<Byte> {
    if |after| <= |before| then before[..|before| - |after|] else []
  }

  lemma ConsumedIsSeen(before: seq<Byte>, consumed: seq<Byte>, after: seq<Byte>)
    requires before == consumed + after
    ensures Seen(before, after) == consumed
  {}

  /** An event that does not read delivers nothing. */
  lemma NothingSeen(received: seq<Byte>, inbound: seq<Byte>)
    requires Drained(received)
    ensures Seen(inbound, inbound) == [] && Parse(received + []).frames == []
  {
    assert received + [] == received;
  }

  lemma CalledSome(before: seq<Outcome>, after: seq<Outcome>)
    requires Called(before, after)
    ensures after != []
  {}

  lemma SameSends(sends: seq<Outcome>)
    ensures NoFailure(sends, sends)
  {}

  lemma NoOps(s: Sender)
    ensures PerformFrom(s, []) == s
  {}

  // ---------- Traces ----------

  ghost function Conns(ready: seq<Fd>, dtype: DeviceType): (tasks: seq<Task>)
    ensures |tasks| == |ready| && forall i | 0 <= i < |ready| :: tasks[i] == Conn(ready[i], dtype)
  {
    seq(|ready|, i requires 0 <= i < |ready| => Conn(ready[i], dtype))
  }

  ghost function Packets(sid: Sid, frames: seq<seq<Byte>>): (tasks: seq<Task>)
    ensures |tasks| == |frames| && forall i | 0 <= i < |frames| :: tasks[i] == Packet(sid, frames[i])
  {
    seq(|frames|, i requires 0 <= i < |frames| => Packet(sid, frames[i]))
  }

  /** The steps of one event on a connection: the frames of the stream, then, unless
      the connection is healthy, the report and the removal. */
  ghost function ClientTrace(e: Event, stream: seq<Byte>, healthy: bool): seq<WorkerStep> {
    Receives(e.fd, Parse(stream).frames) + if healthy then [] else [Fail(e.fd), Close]
  }

  ghost function Accepting(fd: Fd, ready: seq<Fd>): seq<WorkerStep> {
    seq(|ready|, i requires 0 <= i < |ready| => Accept(fd, ready[i]))
  }

  ghost function Receives(fd: Fd, frames: seq<seq<Byte>>): seq<WorkerStep> {
    seq(|frames|, i requires 0 <= i < |frames| => Receive(fd, frames[i]))
  }

  lemma OneStep(w: Worker, step: WorkerStep, w': Worker)
    requires WorkerEnabled(w, step) && w' == WorkerApply(w, step)
    ensures WorkerRuns(w, [step], w')
  {
    assert [step][1..] == [];
  }

  /** Receiving the frames one by one. */
  lemma {:induction false} ReceivesRun(w: Worker, fd: Fd, frames: seq<seq<Byte>>)
    requires w.pc.Idle? && fd in w.tables.byFd && w.tables.byFd[fd].dtype.IsClient()
    ensures WorkerRuns(w, Receives(fd, frames), w.(outbox := w.outbox + Packets(w.tables.byFd[fd].sid, frames)))
    decreases |frames|
  {
    var sid := w.tables.byFd[fd].sid;
    if frames == [] {
      assert w.outbox + Packets(sid, frames) == w.outbox;
    } else {
      var w1 := WorkerApply(w, Receive(fd, frames[0]));
      ReceivesRun(w1, fd, frames[1..]);
      assert Receives(fd, frames)[1..] == Receives(fd, frames[1..]);
      assert w.outbox + Packets(sid, frames) == w1.outbox + Packets(sid, frames[1..]);
    }
  }

  /** Popping a task and executing it, with the removal it may ask for. */
  ghost method TakeTrace(w: Worker, alive: bool, w': Worker) returns (trace: seq<WorkerStep>)
    requires w.pc.Idle? && w.inbox != []
    requires w' == Settle(Dispatch(w.(inbox := w.inbox[1..]), w.inbox[0], alive))
    ensures WorkerRuns(w, trace, w') && trace != [] && trace[0].Take?
    ensures |trace| == 1 || trace == [trace[0], Close]
  {
    var w1 := WorkerApply(w, Take(alive));
    OneStep(w, Take(alive), w1);
    trace := [Take(alive)];
    if w1.pc.Closing? {
      OneStep(w1, Close, w');
      WorkerRunsAppend(w, trace, w1, [Close], w');
      trace := trace + [Close];
    }
  }

  /** Reading frames and then, if the event failed, reporting and removing. */
  ghost method EventTrace(w: Worker, fd: Fd, frames: seq<seq<Byte>>, result: bool,
      w': Worker) returns (trace: seq<WorkerStep>)
    requires w.pc.Idle? && fd in w.tables.byFd && w.tables.byFd[fd].dtype.IsClient() && w.tables.byFd[fd].fd == fd
    requires var sid := w.tables.byFd[fd].sid;
      var read := w.(outbox := w.outbox + Packets(sid, frames));
      w' == if result then read else read.(outbox := read.outbox + [OnClose(sid)], tables := read.tables.RemoveByFd(fd))
    ensures WorkerRuns(w, trace, w')
    ensures trace == Receives(fd, frames) + if result then [] else [Fail(fd), Close]
  {
    var read := w.(outbox := w.outbox + Packets(w.tables.byFd[fd].sid, frames));
    ReceivesRun(w, fd, frames);
    trace := Receives(fd, frames);
    if !result {
      var failed := WorkerApply(read, Fail(fd));
      OneStep(read, Fail(fd), failed);
      OneStep(failed, Close, w');
      WorkerRunsAppend(read, [Fail(fd)], failed, [Close], w');
      assert [Fail(fd)] + [Close] == [Fail(fd), Close];
      WorkerRunsAppend(w, trace, read, [Fail(fd), Close], w');
      trace := trace + [Fail(fd), Close];
    }
  }

  /** A record for a descriptor on which any number of bytes may have arrived. */
  method NewDevice(fd: Fd, sid: Sid, dtype: DeviceType) returns (d: DeviceInfo)
    ensures fresh(d.Footprint())
    ensures EntryOf(d) == Entry(fd, sid, dtype)
    ensures d.Valid() && Drained(d.Received()) && d.Traced() && d.Sending() == PerformAll([])
    ensures d.arrived == [] && d.delivered == []
  {
    var arrived: seq<Byte> := *;
    var socket := new Socket(arrived);
    d := new DeviceInfo(fd, sid, dtype, socket);
  }
}
