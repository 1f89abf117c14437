/** A worker's record of one descriptor, with its two fixed buffers, and the loops
    that move bytes between those buffers and the socket. */
module Device {
  import opened Bytes
  import opened Framing

  datatype DeviceType = Unknown | ServerInternal | ServerExternal | ClientInternal | ClientExternal {

    predicate IsServer() {
      ServerInternal? || ServerExternal?
    }

    predicate IsClient() {
      ClientInternal? || ClientExternal?
    }

    /** The type given to a connection accepted by a listener of this type. */
    function ClientType(): DeviceType {
      match this
      case ServerInternal => ClientInternal
      case ServerExternal => ClientExternal
      case _ => Unknown
    }
  }

  datatype Errno = EAGAIN | EWOULDBLOCK | EINTR | OTHER

  /** How a `recv` or `send` call ended: it moved bytes, returned 0, would have
      blocked or was interrupted, or failed. */
  datatype Outcome = Moved | Zero | Retry | Broken

  function OutcomeOf(n: int, errno: Errno): Outcome {
    if n > 0 then Moved
    else if n == 0 then Zero
    else if errno == OTHER then Broken
    else Retry
  }

  /** One or more calls have been made since `before`: all but the last moved bytes. */
  ghost predicate Called(before: seq<Outcome>, after: seq<Outcome>) {
    && |before| < |after| && before == after[..|before|]
    && forall i | |before| <= i < |after| - 1 :: after[i] == Moved
  }

  /** No call since `before` returned 0 or a real error. */
  ghost predicate NoFailure(before: seq<Outcome>, after: seq<Outcome>) {
    |before| < |after| ==> after[|after| - 1] == Moved || after[|after| - 1] == Retry
  }

  /** The operating system's side of a connection. `inbound` is what the peer has
      sent and `Recv` has not yet returned; `outbound` is what `Send` has taken. How
      many bytes a call moves, and whether it fails, is the system's choice; `recvs`
      and `sends` log how the calls ended. */
  class Socket {
    var inbound: seq<Byte>
    var outbound: seq<Byte>
    var peerClosed: bool
    ghost var recvs: seq<Outcome>
    ghost var sends: seq<Outcome>

    /** `arrived` is what the peer has already sent. */
    constructor (arrived: seq<Byte>)
      ensures inbound == arrived && outbound == [] && !peerClosed
    {
      inbound, outbound, peerClosed, recvs, sends := arrived, [], false, [], [];
    }

    method Recv(max: nat) returns (n: int, data: seq<Byte>, errno: Errno)
      modifies this`inbound, this`recvs
      ensures n <= max && n <= |old(inbound)|
      ensures n == 0 ==> max == 0 || peerClosed
      ensures n > 0 ==> data == old(inbound)[..n] && inbound == old(inbound)[n..]
      ensures n <= 0 ==> inbound == old(inbound)
      ensures recvs == old(recvs) + [OutcomeOf(n, errno)]
      ensures recvs[|old(recvs)|] == if n > 0 then Moved else if n == 0 then Zero
        else if errno == EAGAIN || errno == EWOULDBLOCK || errno == EINTR then Retry else Broken
    {
      data := [];
      errno :| true;
      if max == 0 {
        n := 0;
      } else if * {
        n := -1;
      } else if inbound == [] {
        n := if peerClosed then 0 else -1;
      } else {
        n :| 1 <= n <= max && n <= |inbound|;
        data, inbound := inbound[..n], inbound[n..];
      }
      recvs := recvs + [OutcomeOf(n, errno)];
    }

    method Send(data: seq<Byte>) returns (n: int, errno: Errno)
      modifies this`outbound, this`sends
      ensures n <= |data|
      ensures outbound == old(outbound) + data[..if n > 0 then n else 0]
      ensures sends == old(sends) + [OutcomeOf(n, errno)]
      ensures sends[|old(sends)|] == if n > 0 then Moved else if n == 0 then Zero
        else if errno == EAGAIN || errno == EWOULDBLOCK || errno == EINTR then Retry else Broken
    {
      errno :| true;
      n :| -1 <= n <= |data|;
      if n > 0 {
        outbound := outbound + data[..n];
      }
      sends := sends + [OutcomeOf(n, errno)];
    }
  }

  /** The overlapping copy of `buffer[begin..end]` to the front, in ascending order. */
  method MoveToFront(buffer: array<Byte>, begin: nat, end: nat)
    requires begin <= end <= buffer.Length
    modifies buffer
    ensures buffer[..end - begin] == old(buffer[begin..end])
  {
    for i := 0 to end - begin
      invariant buffer[..i] == old(buffer[begin..begin + i])
      invariant forall j | i <= j < buffer.Length :: buffer[j] == old(buffer[j])
    {
      buffer[i] := buffer[begin + i];
    }
  }

  class DeviceInfo {
    const fd: int
    const sessionId: int
    const deviceType: DeviceType
    const socket: Socket
    const recvBuffer: array<Byte>
    var recvBegin: int
    var recvEnd: int
    const sendBuffer: array<Byte>
    var sendBegin: int
    var sendEnd: int
    /** Payloads `Write` has accepted so far. */
    ghost var accepted: seq<Payload>
    /** Every write and every send of the connection. */
    ghost var ops: seq<SenderOp>
    /** Every byte `recv` has returned, and every frame delivered. */
    ghost var arrived: seq<Byte>
    ghost var delivered: seq<seq<Byte>>

    ghost predicate Valid()
      reads this
    {
      && recvBuffer != sendBuffer
      && recvBuffer.Length == MAX_RECV_BUFFER_LEN
      && sendBuffer.Length == MAX_SEND_BUFFER_LEN
      && 0 <= recvBegin <= recvEnd <= MAX_RECV_BUFFER_LEN
      && 0 <= sendBegin <= sendEnd <= MAX_SEND_BUFFER_LEN
    }

    ghost function Footprint(): set<object> {
      {this, recvBuffer, sendBuffer, socket}
    }

    ghost function Received(): seq<Byte>
      requires Valid()
      reads this, recvBuffer
    {
      recvBuffer[recvBegin..recvEnd]
    }

    ghost function Unsent(): seq<Byte>
      requires Valid()
      reads this, sendBuffer
    {
      sendBuffer[sendBegin..sendEnd]
    }

    /** This connection as the sender of `Framing`. */
    ghost function Sending(): Sender
      requires Valid()
      reads this, sendBuffer, socket
    {
      Sender(accepted, socket.outbound, Unsent())
    }

    /** What has been sent and what waits to be sent are those of a sender that has done
        all the writes and sends of the connection's whole history. */
    ghost predicate SendTraced()
      requires Valid()
      reads this, sendBuffer, socket
    {
      Sending() == PerformAll(ops)
    }

    /** The parse of everything received so far is everything delivered so far, followed
        by the parse of the window. */
    ghost predicate ReceiveTraced()
      requires Valid()
      reads this, recvBuffer
    {
      Parse(arrived) == Continue(delivered, Received())
    }

    ghost predicate Traced()
      requires Valid()
      reads this, recvBuffer, sendBuffer, socket
    {
      SendTraced() && ReceiveTraced()
    }

    constructor (fd: int, sessionId: int, deviceType: DeviceType, socket: Socket)
      requires socket.outbound == []
      ensures Valid() && fresh(recvBuffer) && fresh(sendBuffer)
      ensures this.fd == fd && this.sessionId == sessionId && this.deviceType == deviceType && this.socket == socket
      ensures Received() == [] && Sending() == PerformAll([])
      ensures Traced() && arrived == [] && delivered == [] && ops == []
    {
      this.fd, this.sessionId, this.deviceType, this.socket := fd, sessionId, deviceType, socket;
      recvBuffer := new Byte[MAX_RECV_BUFFER_LEN];
      sendBuffer := new Byte[MAX_SEND_BUFFER_LEN];
      recvBegin, recvEnd, sendBegin, sendEnd := 0, 0, 0, 0;
      accepted, ops, arrived, delivered := [], [], [], [];
    }

    method ClearRecvBuff()
      requires Valid()
      modifies this`recvBegin, this`recvEnd, recvBuffer
      ensures Valid() && recvBegin == 0 && Received() == old(Received())
      ensures old(ReceiveTraced()) ==> ReceiveTraced()
    {
      if recvBegin > 0 {
        if recvEnd == recvBegin {
          recvEnd, recvBegin := 0, 0;
        } else if recvEnd > recvBegin {
          MoveToFront(recvBuffer, recvBegin, recvEnd);
          recvEnd, recvBegin := recvEnd - recvBegin, 0;
        } else {
          assert false;  // the source resets both offsets here
        }
      }
    }

    method ClearSendBuff()
      requires Valid()
      modifies this`sendBegin, this`sendEnd, sendBuffer
      ensures Valid() && sendBegin == 0 && Unsent() == old(Unsent()) && Sending() == old(Sending())
      ensures old(SendTraced()) ==> SendTraced()
    {
      if sendBegin > 0 {
        if sendEnd == sendBegin {
          sendEnd, sendBegin := 0, 0;
        } else if sendEnd > sendBegin {
          MoveToFront(sendBuffer, sendBegin, sendEnd);
          sendEnd, sendBegin := sendEnd - sendBegin, 0;
        } else {
          assert false;  // the source resets both offsets here
        }
      }
    }

    /** One `memcpy` behind the bytes waiting to be sent. */
    method AppendUnsent(bytes: seq<Byte>)
      requires Valid() && sendEnd + |bytes| <= MAX_SEND_BUFFER_LEN
      modifies this`sendEnd, sendBuffer
      ensures Valid() && Unsent() == old(Unsent()) + bytes && sendEnd == old(sendEnd) + |bytes|
    {
      ghost var before := sendBuffer[..sendEnd];
      CopyBytes(sendBuffer, sendEnd, bytes);
      sendEnd := sendEnd + |bytes|;
      assert sendBuffer[..sendEnd] == before + bytes;
      assert Unsent() == (before + bytes)[sendBegin..];
    }

    /** What `recv` does to the buffer when it returns `data`. */
    method AppendReceived(data: seq<Byte>)
      requires Valid() && recvEnd + |data| <= MAX_RECV_BUFFER_LEN
      modifies this`recvEnd, this`arrived, recvBuffer
      ensures Valid() && Received() == old(Received()) + data
      ensures arrived == old(arrived) + data && (old(ReceiveTraced()) ==> ReceiveTraced())
    {
      hide Parse, Continue;
      if ReceiveTraced() {
        ContinueAppend(arrived, delivered, Received(), data);
      }
      CopyReceived(data);
      arrived := arrived + data;
    }

    method CopyReceived(data: seq<Byte>)
      requires Valid() && recvEnd + |data| <= MAX_RECV_BUFFER_LEN
      modifies this`recvEnd, recvBuffer
      ensures Valid() && Received() == old(Received()) + data
    {
      ghost var before := recvBuffer[..recvEnd];
      CopyBytes(recvBuffer, recvEnd, data);
      recvEnd := recvEnd + |data|;
      assert recvBuffer[..recvEnd] == before + data;
      assert Received() == (before + data)[recvBegin..];
    }

    /** The length field at the front of the window. */
    method PeekLength() returns (len: Int32)
      requires Valid() && |Received()| >= HEADER_LEN
      ensures len == Decode(Received())
    {
      len := Decode(recvBuffer[recvBegin..recvBegin + HEADER_LEN]);
    }

    /** Takes one frame, its length field included, off the front of the window. */
    method TakeFrame(len: nat) returns (frame: seq<Byte>)
      requires Valid() && len <= |Received()|
      modifies this`recvBegin, this`delivered
      ensures Valid() && frame == old(Received())[..len] && Received() == old(Received())[len..]
      ensures delivered == old(delivered) + [frame]
      ensures HEADER_LEN < |old(Received())| && len == Decode(old(Received())) && !IllegalLength(len) ==>
        old(ReceiveTraced()) ==> ReceiveTraced()
      ensures recvEnd - recvBegin == old(recvEnd - recvBegin) - len
    {
      hide Parse, Continue, Decode;
      if HEADER_LEN < |Received()| && len == Decode(Received()) && !IllegalLength(len) {
        DeliverOne(delivered, Received());
      }
      ghost var window := Received();
      frame := recvBuffer[recvBegin..recvBegin + len];
      assert frame == window[..len];
      delivered := delivered + [frame];
      recvBegin := recvBegin + len;
      assert Received() == window[len..];
    }

    /** Queues one payload behind its length, or refuses it as a whole. A null data
        pointer and a size of 0 take the same branch; both are the empty sequence. */
    method Write(data: Payload) returns (n: int)
      requires Valid()
      modifies this`sendBegin, this`sendEnd, this`accepted, this`ops, sendBuffer
      ensures Valid()
      ensures Sending() == Perform(old(Sending()), Framing.Write(data))
      ensures ops == old(ops) + [Framing.Write(data)] && (old(Traced()) ==> Traced())
      ensures Received() == old(Received())
      ensures n == if data == [] || |old(Unsent())| + |data| + 4 > 4096 then 0 else |data|
      ensures n > 0 ==> Unsent() == old(Unsent()) + [0, 0, (|data| + 4) / 0x100, (|data| + 4) % 0x100] + data
      ensures n == 0 ==> Unsent() == old(Unsent())
    {
      AcceptedExactly(Sending(), data);
      hide Perform, PerformFrom, Accepts;
      OneMoreOp(Sending(), ops, Framing.Write(data));
      n := QueueFrame(data);
      ops := ops + [Framing.Write(data)];
    }

    method QueueFrame(data: Payload) returns (n: int)
      requires Valid()
      modifies this`sendBegin, this`sendEnd, this`accepted, sendBuffer
      ensures Valid()
      ensures Sending() == Perform(old(Sending()), Framing.Write(data))
      ensures n == if Accepts(old(Unsent()), data) then |data| else 0
    {
      hide Encode;
      if |data| == 0 {
        return 0;
      }
      ClearSendBuff();
      if MAX_SEND_BUFFER_LEN - sendEnd < |data| + HEADER_LEN {
        return 0;
      }
      var header := Encode(|data| + HEADER_LEN);
      AppendUnsent(header);
      AppendUnsent(data);
      Regroup(old(Unsent()), header, data);
      accepted := accepted + [data];
      n := |data|;
    }

    /** One `send` of what waits. */
    method TransmitSome() returns (n: int, errno: Errno)
      requires Valid() && Unsent() != []
      modifies this`sendBegin, this`ops, socket`outbound, socket`sends
      ensures Valid() && n <= |old(Unsent())|
      ensures Sending() == if n > 0 then Perform(old(Sending()), Transmit(n)) else old(Sending())
      ensures ops == (if n > 0 then old(ops) + [Transmit(n)] else old(ops)) && (old(SendTraced()) ==> SendTraced())
      ensures socket.sends == old(socket.sends) + [OutcomeOf(n, errno)]
      ensures Unsent() == if n > 0 then old(Unsent())[n..] else old(Unsent())
    {
      hide PerformFrom, Perform;
      ghost var before := Sending();
      n, errno := socket.Send(sendBuffer[sendBegin..sendEnd]);
      if n > 0 {
        OneMoreOp(before, ops, Transmit(n));
        ops := ops + [Transmit(n)];
        sendBegin := sendBegin + n;
        TransmitIs(before, n, Sending());
      }
    }
  }

  lemma TransmitIs(s: Sender, n: nat, s': Sender)
    requires n <= |s.pending| && s' == s.(sent := s.sent + s.pending[..n], pending := s.pending[n..])
    ensures s' == Perform(s, Transmit(n))
  {}

  /** The receive loop of one readable event. Everything `Recv` returned goes through
      the parser, whatever the chunks were: the delivered frames and the bytes kept
      in the buffer are those of `Parse` on the old bytes followed by the new ones.
      The loop goes on until a call does not move bytes or a length is illegal, and
      succeeds exactly if the last call would have blocked. */
  method ReadLoop(d: DeviceInfo) returns (ok: bool, frames: seq<seq<Byte>>, ghost consumed: seq<Byte>)
    requires d.Valid() && Drained(d.Received())
    modifies d`recvBegin, d`recvEnd, d`arrived, d`delivered, d.recvBuffer, d.socket`inbound, d.socket`recvs
    ensures d.Valid()
    ensures d.arrived == old(d.arrived) + consumed && d.delivered == old(d.delivered) + frames
    ensures old(d.Traced()) ==> d.Traced()
    ensures old(d.socket.inbound) == consumed + d.socket.inbound
    ensures Called(old(d.socket.recvs), d.socket.recvs)
    ensures var last := d.socket.recvs[|d.socket.recvs| - 1];
      && Parse(old(d.Received()) + consumed) == Parsed(frames, d.Received(), last != Moved)
      && (ok <==> last == Retry)
      && (last == Zero ==> d.socket.peerClosed)
    ensures forall f | f in frames :: 4 <= |f| <= 4096 && Decode(f) == |f|
    ensures var left := d.Received();
      if d.socket.recvs[|d.socket.recvs| - 1] == Moved then |left| > 4 && !(4 <= Decode(left) <= 4096)
      else |left| <= 4 || |left| < Decode(left) <= 4096
    ensures ok ==> Drained(d.Received())
  {
    hide Parse, Drained, Decode, DeviceInfo.Traced, Called;
    ghost var stream := d.Received();
    ok, frames, consumed := ReceiveAll(d);
    ParseCuts(stream + consumed);
  }

  method ReceiveAll(d: DeviceInfo) returns (ok: bool, frames: seq<seq<Byte>>, ghost consumed: seq<Byte>)
    requires d.Valid() && Drained(d.Received())
    modifies d`recvBegin, d`recvEnd, d`arrived, d`delivered, d.recvBuffer, d.socket`inbound, d.socket`recvs
    ensures d.Valid()
    ensures d.arrived == old(d.arrived) + consumed && d.delivered == old(d.delivered) + frames
    ensures old(d.Traced()) ==> d.Traced()
    ensures old(d.socket.inbound) == consumed + d.socket.inbound
    ensures Called(old(d.socket.recvs), d.socket.recvs)
    ensures var last := d.socket.recvs[|d.socket.recvs| - 1];
      && Parse(old(d.Received()) + consumed) == Parsed(frames, d.Received(), last != Moved)
      && (ok <==> last == Retry)
      && (last == Zero ==> d.socket.peerClosed)
    ensures ok ==> Drained(d.Received())
  {
    hide Parse, Continue, Drained, Decode, Encode, DeviceInfo.ReceiveTraced;
    ok, frames, consumed := true, [], [];
    ghost var start := d.Received();
    assert Parse(start + consumed) == Parsed(frames, start, true) by {
      assert start + consumed == start;
      DrainedMeans(start);
    }
    ghost var before := d.socket.recvs;
    while ok
      invariant d.Valid()
      invariant d.socket.peerClosed == old(d.socket.peerClosed)
      invariant old(d.socket.inbound) == consumed + d.socket.inbound
      invariant AllMoved(before, d.socket.recvs)
      invariant d.arrived == old(d.arrived) + consumed && d.delivered == old(d.delivered) + frames
      invariant old(d.ReceiveTraced()) ==> d.ReceiveTraced()
      invariant Parse(start + consumed) == Parsed(frames, d.Received(), ok)
      invariant ok ==> Drained(d.Received())
      invariant !ok ==> |before| < |d.socket.recvs|
      decreases ok, |d.socket.inbound|
    {
      d.ClearRecvBuff();
      assert d.recvEnd < MAX_RECV_BUFFER_LEN by { DrainedMeans(d.Received()); RestFitsBuffer(d.Received()); }
      ghost var calls := d.socket.recvs;
      var n, data, errno := d.socket.Recv(MAX_RECV_BUFFER_LEN - d.recvEnd);
      OneCall(before, calls, OutcomeOf(n, errno));
      if n < 0 {
        if errno == EAGAIN {
          return;
        } else if errno == EWOULDBLOCK {
          return;
        } else if errno == EINTR {
          return;
        } else {
          ok := false;
          return;
        }
      } else if n == 0 {
        ok := false;
        return;
      } else {
        ReceiveMore(start + consumed, frames, d.Received(), data);
        Regroup(start, consumed, data);
        Regroup(consumed, data, d.socket.inbound);
        Regroup(old(d.arrived), consumed, data);
        consumed := consumed + data;
        ghost var delivered := frames;
        ok, frames := TakeIn(d, data, frames);
        Regroup(old(d.delivered), delivered, frames[|delivered|..]);
        assert frames == delivered + frames[|delivered|..];
      }
    }
  }

  /** Received bytes go into the window, and what is complete is delivered. */
  method TakeIn(d: DeviceInfo, data: seq<Byte>, before: seq<seq<Byte>>) returns (ok: bool, frames: seq<seq<Byte>>)
    requires d.Valid() && d.recvEnd + |data| <= MAX_RECV_BUFFER_LEN
    modifies d`recvBegin, d`recvEnd, d`arrived, d`delivered, d.recvBuffer
    ensures d.Valid()
    ensures d.arrived == old(d.arrived) + data
    ensures before <= frames && d.delivered == old(d.delivered) + frames[|before|..]
    ensures old(d.ReceiveTraced()) ==> d.ReceiveTraced()
    ensures Continue(before, old(d.Received()) + data) == Parsed(frames, d.Received(), ok)
    ensures ok ==> Drained(d.Received())
  {
    hide Parse, Continue, Drained, Decode, DeviceInfo.ReceiveTraced;
    d.AppendReceived(data);
    ok, frames := DeliverFrames(d, before);
  }

  ghost predicate AllMoved(before: seq<Outcome>, after: seq<Outcome>) {
    && |before| <= |after| && before == after[..|before|]
    && forall i | |before| <= i < |after| :: after[i] == Moved
  }

  lemma OneCall(before: seq<Outcome>, calls: seq<Outcome>, last: Outcome)
    requires AllMoved(before, calls)
    ensures Called(before, calls + [last])
    ensures last == Moved ==> AllMoved(before, calls + [last])
  {}

  /** The inner loop: deliver every complete frame of the window. */
  method DeliverFrames(d: DeviceInfo, before: seq<seq<Byte>>) returns (ok: bool, frames: seq<seq<Byte>>)
    requires d.Valid()
    modifies d`recvBegin, d`delivered
    ensures d.Valid()
    ensures before <= frames && d.delivered == old(d.delivered) + frames[|before|..]
    ensures old(d.ReceiveTraced()) ==> d.ReceiveTraced()
    ensures Continue(before, old(d.Received())) == Parsed(frames, d.Received(), ok)
    ensures ok ==> Drained(d.Received())
    ensures forall f | f in frames[|before|..] :: 4 <= |f| <= 4096 && Decode(f) == |f|
    ensures var left := d.Received();
      if ok then |left| <= 4 || |left| < Decode(left) <= 4096 else |left| > 4 && !(4 <= Decode(left) <= 4096)
  {
    hide Parse, Continue, Decode, DeviceInfo.ReceiveTraced;
    ghost var stream := d.Received();
    ok, frames := true, before;
    while d.recvEnd - d.recvBegin > HEADER_LEN
      invariant d.Valid()
      invariant before <= frames && d.delivered == old(d.delivered) + frames[|before|..]
      invariant old(d.ReceiveTraced()) ==> d.ReceiveTraced()
      decreases |d.Received()|
      invariant Continue(frames, d.Received()) == Continue(before, old(d.Received()))
    {
      ghost var pending := d.Received();
      var len := d.PeekLength();
      if len > MAX_RECV_BUFFER_LEN || len < HEADER_LEN {
        ok := false;
        break;
      }
      if len > d.recvEnd - d.recvBegin {
        break;
      }
      DeliverOne(frames, pending);
      var frame := d.TakeFrame(len);
      Regroup(old(d.delivered), frames[|before|..], [frame]);
      assert (frames + [frame])[|before|..] == frames[|before|..] + [frame];
      frames := frames + [frame];
    }
    ParseStops(frames, d.Received());
    ContinueCuts(before, stream, frames, d.Received(), ok);
  }

  /** One round of the send loop, with `ops` done in the rounds before. The round ends
      the loop with an empty buffer or with a call that does not move bytes. */
  method SendRound(d: DeviceInfo, ghost s: Sender, ghost all: seq<SenderOp>, ghost ops: seq<SenderOp>)
    returns (more: bool, ok: bool, ghost last: seq<Outcome>, ghost ops': seq<SenderOp>)
    requires d.Valid() && d.Sending() == PerformFrom(s, ops) && d.ops == all + ops && Positive(ops)
    modifies d`sendBegin, d`sendEnd, d`ops, d.sendBuffer, d.socket`outbound, d.socket`sends
    ensures d.Valid() && d.Sending() == PerformFrom(s, ops') && d.ops == all + ops' && Positive(ops')
    ensures old(d.SendTraced()) ==> d.SendTraced()
    ensures d.socket.sends == old(d.socket.sends) + last
    ensures more ==> ok && last == [Moved] && |d.Unsent()| < |old(d.Unsent())|
    ensures !more ==>
      (last == [] && ok && old(d.Unsent()) == [] == d.Unsent()) || (|last| == 1 && last != [Moved] && d.Unsent() != [])
    ensures !more && last != [] ==> (ok <==> last == [Retry])
  {
    hide PerformFrom, Perform, Encode, Decode, Parse, DeviceInfo.SendTraced, DeviceInfo.Sending;
    ops' := ops;
    d.ClearSendBuff();
    if d.sendEnd <= d.sendBegin {
      return false, true, [], ops';
    }
    var n, errno := d.TransmitSome();
    last := [OutcomeOf(n, errno)];
    if n < 0 {
      more := false;
      if errno == EAGAIN {
        ok := true;
      } else if errno == EWOULDBLOCK {
        ok := true;
      } else if errno == EINTR {
        ok := true;
      } else {
        ok := false;
      }
      return;
    } else if n == 0 {
      more, ok := false, false;
      return;
    }
    OneMoreOp(s, ops, Transmit(n));
    Regroup(all, ops, [Transmit(n)]);
    more, ok, ops' := true, true, ops + [Transmit(n)];
  }

  ghost predicate Positive(ops: seq<SenderOp>) {
    forall op <- ops :: op.Transmit? && op.count > 0
  }

  /** The send loop of one writable event; `ops` are its successful `Send` calls. It
      goes on until the buffer is empty or a call does not move bytes, and fails
      exactly if the last call returned 0 or a real error. */
  method WriteLoop(d: DeviceInfo) returns (ok: bool, ghost ops: seq<SenderOp>)
    requires d.Valid()
    modifies d`sendBegin, d`sendEnd, d`ops, d.sendBuffer, d.socket`outbound, d.socket`sends
    ensures d.Valid()
    ensures d.ops == old(d.ops) + ops && (old(d.Traced()) ==> d.Traced())
    ensures d.Received() == old(d.Received())
    ensures d.Sending() == PerformFrom(old(d.Sending()), ops)
    ensures forall op <- ops :: op.Transmit? && op.count > 0
    ensures ok <==> NoFailure(old(d.socket.sends), d.socket.sends)
    ensures if old(d.Unsent()) == [] then d.socket.sends == old(d.socket.sends)
      else Called(old(d.socket.sends), d.socket.sends)
    ensures old(d.Unsent()) != [] ==> (d.socket.sends[|d.socket.sends| - 1] == Moved <==> d.Unsent() == [])
  {
    hide PerformFrom, Perform, Parse, Continue, DeviceInfo.SendTraced, DeviceInfo.Sending;
    ok, ops := true, [];
    PerformNothing(d.Sending());
    if d.sendEnd <= d.sendBegin {
      return;
    }
    ghost var before := d.socket.sends;
    var more := true;
    while more
      invariant d.Valid() && (old(d.SendTraced()) ==> d.SendTraced())
      invariant d.Sending() == PerformFrom(old(d.Sending()), ops) && d.ops == old(d.ops) + ops && Positive(ops)
      invariant more ==> ok && AllMoved(before, d.socket.sends) && (d.Unsent() == [] ==> |before| < |d.socket.sends|)
      invariant !more ==> Called(before, d.socket.sends) && (ok <==> NoFailure(before, d.socket.sends))
      invariant !more ==> (d.socket.sends[|d.socket.sends| - 1] == Moved <==> d.Unsent() == [])
      decreases more, |d.Unsent()|
    {
      ghost var calls, last := d.socket.sends, [];
      more, ok, last, ops := SendRound(d, old(d.Sending()), old(d.ops), ops);
      if last != [] {
        OneCall(before, calls, last[0]);
      } else {
        LastMoved(before, calls);
      }
    }
  }

  /** With no further call, the last one moved bytes. */
  lemma LastMoved(before: seq<Outcome>, calls: seq<Outcome>)
    requires AllMoved(before, calls) && |before| < |calls|
    ensures Called(before, calls) && NoFailure(before, calls) && calls[|calls| - 1] == Moved
  {}

  lemma PerformNothing(s: Sender)
    ensures PerformFrom(s, []) == s
  {}
}
