/** The wire format of a connection: a frame is a 4-byte big-endian length that
    counts itself, followed by the payload. This module is the specification the
    buffer loops of `DeviceInfo` are proved against. */
module Framing {
  import opened Bytes

  const MAX_RECV_BUFFER_LEN: nat := 4096
  const MAX_SEND_BUFFER_LEN: nat := 4096
  const HEADER_LEN: nat := 4

  type Payload = seq<Byte>

  // ---------- Receiver ----------

  /** What a receiver has made of a byte stream: the complete frames (length
      prefix included), the bytes after them, and whether every length was legal. */
  datatype Parsed = Parsed(frames: seq<seq<Byte>>, rest: seq<Byte>, ok: bool)

  predicate IllegalLength(len: Int32) {
    len > MAX_RECV_BUFFER_LEN || len < HEADER_LEN
  }

  /** A frame is examined only once more than four bytes are there. */
  function Parse(stream: seq<Byte>): (r: Parsed)
    decreases |stream|
  {
    if |stream| <= HEADER_LEN then Parsed([], stream, true)
    else
      var len := Decode(stream);
      if IllegalLength(len) then Parsed([], stream, false)
      else if len > |stream| then Parsed([], stream, true)
      else
        var tail := Parse(stream[len..]);
        Parsed([stream[..len]] + tail.frames, tail.rest, tail.ok)
  }

  /** Parsing loses no byte. */
  lemma {:induction false} ParseKeepsBytes(stream: seq<Byte>)
    ensures stream == Flatten(Parse(stream).frames) + Parse(stream).rest
    decreases |stream|
  {
    hide Decode;
    if |stream| > HEADER_LEN {
      var len := Decode(stream);
      if !IllegalLength(len) && len <= |stream| {
        var head, tail := stream[..len], Parse(stream[len..]);
        ParseKeepsBytes(stream[len..]);
        assert Parse(stream) == Parsed([head] + tail.frames, tail.rest, tail.ok);
        FlattenAppend([head], tail.frames);
        assert Flatten([head]) == head + Flatten<Byte>([]);
      }
    }
  }

  /** How a stream is to be cut, in numbers: every frame begins with its own length in
      network order, of 4 to 4096; the cutting ends with at most four bytes, with an
      incomplete frame of legal length, or, not `ok`, with an illegal length. A frame is
      examined only when more than its four bytes of length are there. */
  ghost predicate Cut(stream: seq<Byte>, frames: seq<seq<Byte>>, rest: seq<Byte>, ok: bool) {
    && stream == Flatten(frames) + rest
    && (forall f | f in frames :: 4 <= |f| <= 4096 && Decode(f) == |f|)
    && (frames != [] && |frames[|frames| - 1]| == 4 ==> rest != [])
    && (if ok then |rest| <= 4 || |rest| < Decode(rest) <= 4096 else |rest| > 4 && !(4 <= Decode(rest) <= 4096))
  }

  lemma CutCons(f: seq<Byte>, later: seq<Byte>, frames: seq<seq<Byte>>, rest: seq<Byte>, ok: bool)
    requires Cut(later, frames, rest, ok) && 4 <= |f| <= 4096 && Decode(f) == |f| && |f + later| > 4
    ensures Cut(f + later, [f] + frames, rest, ok)
  {
    hide Decode;
    FlattenAppend([f], frames);
    assert Flatten([f]) == f + Flatten<Byte>([]);
    Regroup(f, Flatten(frames), rest);
    if frames != [] {
      assert ([f] + frames)[|frames|] == frames[|frames| - 1];
    }
  }

  lemma {:induction false} ParseCuts(stream: seq<Byte>)
    ensures var p := Parse(stream); Cut(stream, p.frames, p.rest, p.ok)
    decreases |stream|
  {
    hide Cut;
    if |stream| > HEADER_LEN && !IllegalLength(Decode(stream)) && Decode(stream) <= |stream| {
      var head, later := stream[..Decode(stream)], stream[Decode(stream)..];
      ParseCuts(later);
      assert stream == head + later;
      DecodePrefix(head, later);
      hide Decode;
      CutCons(head, later, Parse(later).frames, Parse(later).rest, Parse(later).ok);
    } else {
      NoCut(stream, Parse(stream).ok);
    }
  }

  lemma NoCut(stream: seq<Byte>, ok: bool)
    requires if ok then |stream| <= 4 || |stream| < Decode(stream) <= 4096
      else |stream| > 4 && !(4 <= Decode(stream) <= 4096)
    ensures Cut(stream, [], stream, ok)
  {
    assert Flatten<Byte>([]) + stream == stream;
  }

  /** There is only one such cut, so the parser's is the one. */
  lemma {:induction false} CutIsParse(stream: seq<Byte>, frames: seq<seq<Byte>>, rest: seq<Byte>, ok: bool)
    requires Cut(stream, frames, rest, ok)
    ensures Parse(stream) == Parsed(frames, rest, ok)
    decreases |frames|
  {
    if frames == [] {
      assert stream == rest;
    } else {
      var f, later := frames[0], Flatten(frames[1..]) + rest;
      assert stream == f + later && frames == [f] + frames[1..];
      DecodePrefix(f, later);
      assert |f| == 4 ==> later != [] by {
        if frames[1..] != [] {
          assert frames[1] in frames && Flatten(frames[1..]) == frames[1] + Flatten(frames[2..]);
        }
      }
      assert stream[..|f|] == f && stream[|f|..] == later;
      CutIsParse(later, frames[1..], rest, ok);
    }
  }

  /** What a legal stream leaves over never fills the receive buffer. */
  lemma {:induction false} RestFitsBuffer(stream: seq<Byte>)
    requires Parse(stream).ok
    ensures |Parse(stream).rest| < MAX_RECV_BUFFER_LEN
    decreases |stream|
  {
    hide Decode;
    if |stream| > HEADER_LEN && Decode(stream) <= |stream| {
      RestFitsBuffer(stream[Decode(stream)..]);
    }
  }

  /** Nothing in `pending` can be delivered yet. */
  predicate Drained(pending: seq<Byte>) {
    Parse(pending) == Parsed([], pending, true)
  }

  /** Receiving one chunk. After an illegal length the connection is dropped, so
      whatever arrives later stays unread behind the offending bytes. */
  function Feed(r: Parsed, chunk: seq<Byte>): Parsed {
    if r.ok then
      var next := Parse(r.rest + chunk);
      Parsed(r.frames + next.frames, next.rest, next.ok)
    else
      r.(rest := r.rest + chunk)
  }

  function FeedAll(chunks: seq<seq<Byte>>): Parsed {
    if chunks == [] then Parsed([], [], true)
    else Feed(FeedAll(chunks[..|chunks| - 1]), chunks[|chunks| - 1])
  }

  /** Parsing can be cut at any byte: a parsed prefix is never revised. */
  lemma {:induction false} ParseAppend(a: seq<Byte>, b: seq<Byte>)
    ensures Parse(a + b) == Feed(Parse(a), b)
    decreases |a|
  {
    hide Decode;
    if |a| > HEADER_LEN {
      var len := Decode(a);
      DecodePrefix(a, b);
      if !IllegalLength(len) && len <= |a| {
        assert (a + b)[len..] == a[len..] + b;
        assert (a + b)[..len] == a[..len];
        ParseAppend(a[len..], b);
        var tail := Parse(a[len..]);
        if tail.ok {
          var more := Parse(tail.rest + b);
          assert [a[..len]] + tail.frames + more.frames == [a[..len]] + (tail.frames + more.frames);
        }
      }
    }
  }

  /** What parsing leaves over is drained: parsing it again yields nothing. */
  lemma {:induction false} RestIsDrained(stream: seq<Byte>)
    requires Parse(stream).ok
    ensures Drained(Parse(stream).rest)
    decreases |stream|
  {
    hide Decode;
    if |stream| > HEADER_LEN && Decode(stream) <= |stream| {
      RestIsDrained(stream[Decode(stream)..]);
    }
  }

  /** Chunk invariance: frames, remaining bytes and verdict depend only on the
      concatenated stream, not on how it was cut into chunks. */
  lemma {:induction false} ChunkInvariance(chunks: seq<seq<Byte>>)
    ensures FeedAll(chunks) == Parse(Flatten(chunks))
  {
    if chunks != [] {
      var front, last := chunks[..|chunks| - 1], chunks[|chunks| - 1];
      ChunkInvariance(front);
      assert chunks == front + [last];
      FlattenAppend(front, [last]);
      assert Flatten([last]) == last;
      ParseAppend(Flatten(front), last);
    }
  }

  /** The parse of a stream whose undelivered part is `pending`. */
  ghost function Continue(delivered: seq<seq<Byte>>, pending: seq<Byte>): Parsed {
    var p := Parse(pending);
    Parsed(delivered + p.frames, p.rest, p.ok)
  }

  /** In numbers: what is delivered of a window, and what is left of it. */
  lemma ContinueCuts(before: seq<seq<Byte>>, pending: seq<Byte>, frames: seq<seq<Byte>>, left: seq<Byte>, ok: bool)
    requires before <= frames && Continue(before, pending) == Parsed(frames, left, ok)
    ensures Cut(pending, frames[|before|..], left, ok)
  {
    ParseCuts(pending);
    hide Parse;
  }

  /** Delivering the frame at the front moves it from the undelivered part. */
  lemma DeliverOne(delivered: seq<seq<Byte>>, pending: seq<Byte>)
    requires |pending| > HEADER_LEN
    requires var len := Decode(pending); !IllegalLength(len) && len <= |pending|
    ensures var len := Decode(pending);
      Continue(delivered, pending) == Continue(delivered + [pending[..len]], pending[len..])
  {
    hide Decode;
    var len := Decode(pending);
    var tail := Parse(pending[len..]);
    assert delivered + ([pending[..len]] + tail.frames) == delivered + [pending[..len]] + tail.frames;
  }

  /** The three ways the parser stops at the front of `pending`. */
  lemma ParseStops(delivered: seq<seq<Byte>>, pending: seq<Byte>)
    requires |pending| <= HEADER_LEN || IllegalLength(Decode(pending)) || Decode(pending) > |pending|
    ensures Parse(pending) == Parsed([], pending, |pending| <= HEADER_LEN || !IllegalLength(Decode(pending)))
    ensures Continue(delivered, pending) == Parsed(delivered, pending, Parse(pending).ok)
  {
    hide Decode;
    assert delivered + [] == delivered;
  }

  lemma DrainedMeans(pending: seq<Byte>)
    requires Drained(pending)
    ensures Parse(pending) == Parsed([], pending, true)
  {}

  /** New bytes behind a drained window. */
  lemma ReceiveMore(seen: seq<Byte>, delivered: seq<seq<Byte>>, pending: seq<Byte>, data: seq<Byte>)
    requires Parse(seen) == Parsed(delivered, pending, true)
    ensures Parse(seen + data) == Continue(delivered, pending + data)
  {
    ParseAppend(seen, data);
  }

  /** The same for any window: whatever has been delivered, new bytes at its end are
      new bytes at the end of the whole stream. */
  lemma ContinueAppend(arrived: seq<Byte>, delivered: seq<seq<Byte>>, pending: seq<Byte>, data: seq<Byte>)
    requires Parse(arrived) == Continue(delivered, pending)
    ensures Parse(arrived + data) == Continue(delivered, pending + data)
  {
    hide Parse;
    ParseAppend(arrived, data);
    ParseAppend(pending, data);
    var p := Parse(pending);
    if p.ok {
      Regroup(delivered, p.frames, Parse(p.rest + data).frames);
    }
  }

  // ---------- Sender ----------

  /** A payload the sender accepts: not empty, and it fits an empty send buffer. */
  predicate Sendable(p: Payload) {
    1 <= |p| && |p| + HEADER_LEN <= MAX_SEND_BUFFER_LEN
  }

  predicate AllSendable(ps: seq<Payload>) {
    forall i | 0 <= i < |ps| :: Sendable(ps[i])
  }

  function Frame(p: Payload): (f: seq<Byte>)
    requires |p| + HEADER_LEN <= MAX_SEND_BUFFER_LEN
    ensures |f| == |p| + HEADER_LEN && f[HEADER_LEN..] == p
  {
    Encode(|p| + HEADER_LEN) + p
  }

  function Frames(ps: seq<Payload>): (fs: seq<seq<Byte>>)
    requires AllSendable(ps)
    ensures |fs| == |ps|
    ensures forall i | 0 <= i < |ps| :: fs[i] == Frame(ps[i])
  {
    seq(|ps|, i requires 0 <= i < |ps| => Frame(ps[i]))
  }

  /** Whether `write` accepts payload `p` behind `pending` unsent bytes. */
  predicate Accepts(pending: seq<Byte>, p: Payload) {
    p != [] && |pending| + |p| + HEADER_LEN <= MAX_SEND_BUFFER_LEN
  }

  /** A sender's history: accepted payloads, bytes handed to the network, bytes
      still in the send buffer. */
  datatype Sender = Sender(accepted: seq<Payload>, sent: seq<Byte>, pending: seq<Byte>)

  datatype SenderOp =
    | Write(payload: Payload)
    | Transmit(count: nat)   // one `send` call that took `count` bytes

  function Perform(s: Sender, op: SenderOp): Sender {
    match op
    case Write(p) =>
      if Accepts(s.pending, p)
      then s.(accepted := s.accepted + [p], pending := s.pending + Frame(p))
      else s
    case Transmit(n) =>
      if n <= |s.pending|
      then s.(sent := s.sent + s.pending[..n], pending := s.pending[n..])
      else s
  }

  function PerformFrom(s: Sender, ops: seq<SenderOp>): Sender {
    if ops == [] then s
    else Perform(PerformFrom(s, ops[..|ops| - 1]), ops[|ops| - 1])
  }

  lemma {:induction false} PerformFromAppend(s: Sender, a: seq<SenderOp>, b: seq<SenderOp>)
    ensures PerformFrom(s, a + b) == PerformFrom(PerformFrom(s, a), b)
    decreases |b|
  {
    if b == [] {
      assert a + b == a;
    } else {
      assert (a + b)[..|a + b| - 1] == a + b[..|b| - 1];
      PerformFromAppend(s, a, b[..|b| - 1]);
    }
  }

  /** A run of a fresh connection. */
  function PerformAll(ops: seq<SenderOp>): Sender {
    PerformFrom(Sender([], [], []), ops)
  }

  /** Which payloads are taken, in numbers, and what is queued for them: four bytes of
      length in network order, which count themselves, and the payload. */
  lemma AcceptedExactly(s: Sender, p: Payload)
    ensures var s' := Perform(s, Write(p));
      && (s'.accepted == s.accepted <==> p == [] || |s.pending| + |p| + 4 > 4096)
      && (s' == s || s' == Sender(s.accepted + [p], s.sent,
        s.pending + [0, 0, (|p| + 4) / 0x100, (|p| + 4) % 0x100] + p))
  {
    var s' := Perform(s, Write(p));
    if Accepts(s.pending, p) {
      SmallNumbers(|p| + HEADER_LEN);
      assert Frame(p) == [0, 0, (|p| + 4) / 0x100, (|p| + 4) % 0x100] + p;
      Regroup(s.pending, [0, 0, (|p| + 4) / 0x100, (|p| + 4) % 0x100], p);
      assert |s'.accepted| == |s.accepted| + 1;
    }
  }

  lemma OneMoreOp(s: Sender, ops: seq<SenderOp>, op: SenderOp)
    ensures PerformFrom(s, ops + [op]) == Perform(PerformFrom(s, ops), op)
    ensures PerformAll(ops + [op]) == Perform(PerformAll(ops), op)
  {
    assert (ops + [op])[..|ops|] == ops;
  }

  /** Conservation on the send side, for every interleaving of writes and partial
      sends: sent bytes ++ buffered bytes are the accepted frames, whole and in order. */
  lemma {:induction false} SendConservation(ops: seq<SenderOp>)
    ensures var s := PerformAll(ops);
      && AllSendable(s.accepted)
      && s.sent + s.pending == Flatten(Frames(s.accepted))
      && |s.pending| <= MAX_SEND_BUFFER_LEN
  {
    if ops != [] {
      hide Encode;
      var s := PerformAll(ops[..|ops| - 1]);
      SendConservation(ops[..|ops| - 1]);
      match ops[|ops| - 1]
      case Write(p) =>
        if Accepts(s.pending, p) {
          assert Frames(s.accepted + [p]) == Frames(s.accepted) + [Frame(p)];
          FlattenAppend(Frames(s.accepted), [Frame(p)]);
          assert Flatten([Frame(p)]) == Frame(p) + Flatten<Byte>([]);
          Regroup(s.sent, s.pending, Frame(p));
        }
      case Transmit(n) =>
        if n <= |s.pending| {
          assert s.sent + s.pending[..n] + s.pending[n..] == s.sent + s.pending;
        }
    }
  }

  // ---------- End to end ----------

  /** Parsing any prefix of well-formed frames yields a prefix of them and never
      meets an illegal length; the whole stream yields all of them. */
  lemma {:induction false} ParseFramesPrefix(ps: seq<Payload>, received: seq<Byte>)
    requires AllSendable(ps)
    requires received <= Flatten(Frames(ps))
    ensures var r := Parse(received); r.ok && r.frames <= Frames(ps)
    ensures received == Flatten(Frames(ps)) ==> Parse(received) == Parsed(Frames(ps), [], true)
  {
    hide Decode;
    if ps != [] {
      var f := Frame(ps[0]);
      var fs := Frames(ps);
      assert fs[1..] == Frames(ps[1..]) by {
        forall i | 0 <= i < |ps| - 1 ensures fs[1..][i] == Frames(ps[1..])[i] {}
      }
      assert Flatten(fs) == f + Flatten(Frames(ps[1..]));
      if |received| > HEADER_LEN {
        DecodeEncode(|f|);
        assert received[..4] == f[..4] == Encode(|f|);
        assert received == received[..4] + received[4..];
        DecodePrefix(received[..4], received[4..]);
        if |f| <= |received| {
          assert received[..|f|] == f;
          assert received[|f|..] <= Flatten(Frames(ps[1..])) by {
            assert Flatten(fs)[|f|..] == Flatten(Frames(ps[1..]));
          }
          ParseFramesPrefix(ps[1..], received[|f|..]);
          assert [f] + Frames(ps[1..]) == fs;
        }
      } else {
        assert |Flatten(fs)| >= |f| > HEADER_LEN;
      }
    }
  }

  /** Strip the length prefix of a delivered frame. */
  function Body(frame: seq<Byte>): Payload
    requires |frame| >= HEADER_LEN
  {
    frame[HEADER_LEN..]
  }

  function Bodies(frames: seq<seq<Byte>>): seq<Payload>
    requires forall f <- frames :: |f| >= HEADER_LEN
  {
    seq(|frames|, i requires 0 <= i < |frames| => Body(frames[i]))
  }

  /** End-to-end framing: whatever the interleaving of writes and partial sends, and
      however the network cuts what it has transported so far, the receiver never
      sees an illegal length and the delivered bodies are a prefix of the accepted
      payloads; they are all of them once every accepted byte has arrived. */
  lemma EndToEnd(ops: seq<SenderOp>, chunks: seq<seq<Byte>>)
    requires Flatten(chunks) <= PerformAll(ops).sent
    ensures var s := PerformAll(ops); var r := FeedAll(chunks);
      && r.ok
      && (forall f <- r.frames :: |f| >= HEADER_LEN)
      && Bodies(r.frames) <= s.accepted
      && (s.pending == [] && Flatten(chunks) == s.sent ==> Bodies(r.frames) == s.accepted && r.rest == [])
  {
    var s := PerformAll(ops);
    SendConservation(ops);
    ChunkInvariance(chunks);
    var all := Flatten(Frames(s.accepted));
    assert s.sent <= all;
    ParseFramesPrefix(s.accepted, Flatten(chunks));
    var r := FeedAll(chunks);
    forall i | 0 <= i < |r.frames|
      ensures |r.frames[i]| >= HEADER_LEN && Body(r.frames[i]) == s.accepted[i]
    {
      assert r.frames[i] == Frames(s.accepted)[i];
    }
  }
}
