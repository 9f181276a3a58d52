/**
 Both ends of a multiplexed connection, from Write on many streams to Read on many streams, as
 atomic steps: take the write lock and put the first bytes of a frame on the connection, put some
 more, give up in the middle, read some bytes of the current frame, route a complete frame, hand it
 to its stream, the end of the connection, and the steps of each stream's reader.

 A write that fails before its first byte changes nothing and is no step. One that fails later
 leaves a torn frame on the connection; writeData reports the error and lets the next write go ahead.
 */
module MuxRun {
  import opened Bytes
  import opened Framing
  import SR = StreamReader
  import opened StreamDelivery

  /** What readLoop is doing. */
  datatype Loop =
    | Reading
    | Routed(f: Frame)       // has looked up or created the stream of a frame
    | Sending(id: uint32)    // inside WriteData of that stream
    | Stopped(notice: Notice)  // a guard fired or the connection ended

  /** Whether readLoop, as it ends, tells the streams, and whether the error is io.EOF. */
  datatype Notice = Silent | Tells(eof: bool)

  datatype Mux = Mux(
    inflight: seq<byte>,              // what the holder of writeMu has still to write
    wire: seq<byte>,                  // in the connection
    rx: seq<byte>,                    // read by readLoop, current frame
    loop: Loop,
    streams: map<uint32, SR.Reader>,
    // history
    sent: seq<Frame>,                 // frames not given up in the middle, in the order of writeMu
    handed: seq<Frame>,               // frames handed to WriteData
    put: seq<byte>,                   // all bytes ever put on the connection
    torn: seq<byte>,                  // the part of the last frame that was put, if its write failed
    outOfStep: bool)                  // a frame was put behind a torn one

  function Start(): Mux { Mux([], [], [], Reading, map[], [], [], [], [], false) }

  datatype Action =
    | Write(f: Frame, k: nat)    // and put the first k bytes
    | Put(k: nat)
    | FailWrite
    | Recv(k: nat)
    | Route
    | HandOver
    | Send
    | Read(id: uint32, a: SR.Action)
    | Open(id: uint32)
    | Break(eof: bool)           // the connection ends, with io.EOF or with another error

  function StreamOf(m: Mux, id: uint32): SR.Reader {
    if id in m.streams then m.streams[id] else SR.Fresh()
  }

  /** The payloads written on one stream, in order. */
  function On(id: uint32, fs: seq<Frame>): seq<seq<byte>> {
    if fs == [] then []
    else
      var last := fs[|fs| - 1];
      On(id, fs[..|fs| - 1]) + if last.id == id then [last.payload] else []
  }

  /** How many bytes io.ReadFull asks for next: the rest of the header, or of the payload. */
  function Need(rx: seq<byte>): nat
    requires Parse(rx).Incomplete?
  {
    if |rx| < HEADER_SIZE then HEADER_SIZE - |rx| else HEADER_SIZE + Uint32(rx[4..8]) - |rx|
  }

  predicate Enabled(m: Mux, a: Action) {
    match a
    // one writer at a time; nothing is written on a stream behind its marker
    case Write(f, k) =>
      m.inflight == [] && Transmittable(f) && !SR.Ended(On(f.id, m.sent)) && 0 < k <= |Encode(f)|
    case Put(k) => 0 < k <= |m.inflight|
    case FailWrite => m.inflight != [] && m.sent != [] && |m.inflight| <= |Encode(m.sent[|m.sent| - 1])|
    case Recv(k) => m.loop.Reading? && Parse(m.rx).Incomplete? && 0 < k <= |m.wire| && k <= Need(m.rx)
    case Route => m.loop.Reading? && !Parse(m.rx).Incomplete?
    case HandOver => m.loop.Routed? && SR.Enabled(StreamOf(m, m.loop.f.id), SR.Accept(m.loop.f.payload))
    case Send => m.loop.Sending? && SR.Enabled(StreamOf(m, m.loop.id), SR.Send)
    case Read(id, a) =>
      && id in m.streams && SR.Enabled(m.streams[id], a)
      && match a {
           case Begin(t, _) => t == 0
           case Receive(t) => t == 0
           case TakeError(t) => t == 0
           case Finish(t) => t == 0
           case Fail(eof) => m.loop == Stopped(Tells(eof))
           case _ => false
         }
    case Open(id) => id !in m.streams
    // io.EOF comes behind everything that arrives
    case Break(eof) => m.loop.Reading? && Parse(m.rx).Incomplete? && (eof ==> m.wire == [])
  }

  /** What readLoop does about the end of the connection: it tells the streams only if it was waiting
      for a header, and io.ReadFull passes io.EOF on only if not a byte of the header had come. */
  function EndNotice(rx: seq<byte>, eof: bool): Notice {
    if |rx| < HEADER_SIZE then Tells(eof && rx == []) else Silent
  }

  function Apply(m: Mux, a: Action): Mux
    requires Enabled(m, a)
  {
    match a
    case Write(f, k) =>
      var first, rest := Encode(f)[..k], Encode(f)[k..];
      m.(wire := m.wire + first, put := m.put + first, inflight := rest, sent := m.sent + [f],
      outOfStep := m.outOfStep || m.torn != [], torn := [])
    case Put(k) =>
      var more := m.inflight[..k];
      m.(wire := m.wire + more, put := m.put + more, inflight := m.inflight[k..])
    case FailWrite =>
      var n := |m.sent| - 1;
      var frame := Encode(m.sent[n]);
      m.(inflight := [], sent := m.sent[..n], torn := frame[..|frame| - |m.inflight|])
    case Recv(k) => m.(rx := m.rx + m.wire[..k], wire := m.wire[k..])
    case Route =>
      var p := Parse(m.rx);
      if p.BadLength? || Refused(p.frame) then m.(rx := p.rest, loop := Stopped(Silent))
      else m.(rx := p.rest, loop := Routed(p.frame),
      streams := m.streams[p.frame.id := StreamOf(m, p.frame.id)])
    case HandOver =>
      var f := m.loop.f;
      var r := SR.Apply(StreamOf(m, f.id), SR.Accept(f.payload));
      m.(handed := m.handed + [f], streams := m.streams[f.id := r],
      loop := if r.hand != [] then Sending(f.id) else Reading)
    case Send =>
      var id := m.loop.id;
      m.(streams := m.streams[id := SR.Apply(StreamOf(m, id), SR.Send)], loop := Reading)
    case Read(id, a) => m.(streams := m.streams[id := SR.Apply(m.streams[id], a)])
    case Open(id) => m.(streams := m.streams[id := SR.Fresh()])
    case Break(eof) => m.(loop := Stopped(EndNotice(m.rx, eof)))
  }

  predicate Runs(m: Mux, actions: seq<Action>, end: Mux)
    decreases |actions|
  {
    if actions == [] then m == end
    else Enabled(m, actions[0]) && Runs(Apply(m, actions[0]), actions[1..], end)
  }

  lemma {:induction false} OnAppend(id: uint32, a: seq<Frame>, b: seq<Frame>)
    ensures On(id, a + b) == On(id, a) + On(id, b)
    decreases |b|
  {
    if b == [] {
      assert a + b == a;
    } else {
      var n := |b| - 1;
      assert (a + b)[..|a + b| - 1] == a + b[..n];
      OnAppend(id, a, b[..n]);
    }
  }

  // ---------- the transport ----------

  function InLoop(m: Mux): seq<Frame> {
    if m.loop.Routed? then [m.loop.f] else []
  }

  /** What is put behind complete frames when a write fails: part of a frame. */
  predicate IsTorn(bytes: seq<byte>) { bytes == [] || Parse(bytes).Incomplete? }

  /** The writer that holds the lock has the last frame of these in its hands. */
  predicate InHands(inflight: seq<byte>, frames: seq<Frame>) {
    inflight != [] ==> frames != [] && |inflight| < |Encode(frames[|frames| - 1])|
  }

  /** The frames sent and not yet handed over are, byte for byte, what is in the loop, the receive
      buffer, the connection and the hands of the writer, but for a torn frame at the end; no guard
      ever fires. */
  predicate Transported(m: Mux, pending: seq<Frame>) {
    && AllTransmittable(pending)
    && m.sent == m.handed + InLoop(m) + pending
    && m.rx + m.wire + m.inflight == EncodeAll(pending) + m.torn
    && IsTorn(m.torn) && (m.torn != [] ==> m.inflight == [])
    && InHands(m.inflight, pending)
  }

  /** `end` is `m` after a writer has put the first k bytes of f on the connection. */
  lemma TransportedWrite(m: Mux, pending: seq<Frame>, f: Frame, k: nat, end: Mux)
    requires Transported(m, pending) && m.inflight == m.torn == [] && Transmittable(f) && 0 < k <= |Encode(f)|
    requires end.rx == m.rx && end.wire == m.wire + Encode(f)[..k] && end.inflight == Encode(f)[k..]
    requires end.loop == m.loop && end.handed == m.handed && end.sent == m.sent + [f] && end.torn == []
    ensures Transported(end, pending + [f])
  {
    EncodeAllAppend(pending, [f]);
    assert EncodeAll([f]) == Encode(f);
    Assoc(m.handed + InLoop(m), pending, [f]);
    assert Encode(f) == Encode(f)[..k] + Encode(f)[k..];
    Assoc(m.rx, m.wire, Encode(f)[..k]);
    Assoc(m.rx + m.wire, Encode(f)[..k], Encode(f)[k..]);
    assert m.rx + m.wire + m.inflight == m.rx + m.wire;
    assert EncodeAll(pending) + m.torn == EncodeAll(pending);
    assert EncodeAll(pending + [f]) + [] == EncodeAll(pending + [f]);
  }

  lemma TransportedMove(m: Mux, pending: seq<Frame>, a: Action)
    requires (a.Put? || a.Recv?) && Enabled(m, a) && Transported(m, pending)
    ensures Transported(Apply(m, a), pending)
  {
    if a.Put? {
      assert m.inflight == m.inflight[..a.k] + m.inflight[a.k..];
      Assoc(m.rx + m.wire, m.inflight[..a.k], m.inflight[a.k..]);
      Assoc(m.rx, m.wire, m.inflight[..a.k]);
    } else {
      assert m.wire == m.wire[..a.k] + m.wire[a.k..];
      Assoc(m.rx, m.wire[..a.k], m.wire[a.k..]);
    }
  }

  /** A proper part of a frame is incomplete. */
  lemma PartIsIncomplete(f: Frame, k: nat)
    requires Transmittable(f) && k < |Encode(f)|
    ensures Parse(Encode(f)[..k]).Incomplete?
  {
    assert EncodeAll([f]) == Encode(f) + EncodeAll([]) == Encode(f);
    PrefixFrames([f], k);
    var d := Decode(Encode(f)[..k]);
    if d.frames == [f] {
      assert false;
    }
    assert d.frames == [];
    assert EncodeAll(d.frames) + d.rest == d.rest;
  }

  lemma TransportedFail(m: Mux, pending: seq<Frame>)
    requires Enabled(m, FailWrite) && Transported(m, pending)
    ensures pending != [] && Transported(Apply(m, FailWrite), pending[..|pending| - 1])
    ensures Apply(m, FailWrite).torn != []
  {
    var n := |pending| - 1;
    var front, f := pending[..n], pending[n];
    assert pending == front + [f];
    EncodeAllAppend(front, [f]);
    assert EncodeAll([f]) == Encode(f);
    assert m.sent[|m.sent| - 1] == f;
    assert m.sent[..|m.sent| - 1] == m.handed + InLoop(m) + front;
    var k := |Encode(f)| - |m.inflight|;
    PartIsIncomplete(f, k);
    assert EncodeAll(pending) + m.torn == EncodeAll(pending);
    CutBehind(m.rx + m.wire, m.inflight, EncodeAll(front), Encode(f));
    assert m.rx + m.wire + [] == m.rx + m.wire;
  }

  lemma CutBehind(a: seq<byte>, b: seq<byte>, c: seq<byte>, d: seq<byte>)
    requires a + b == c + d && |b| <= |d|
    ensures a == c + d[..|d| - |b|]
  {
    assert a == (a + b)[..|a|] == (c + d)[..|a|];
  }

  /** What readLoop finds complete is the first of the frames that are on their way. */
  lemma FirstIsPending(rx: seq<byte>, more: seq<byte>, pending: seq<Frame>, torn: seq<byte>)
    requires !Parse(rx).Incomplete? && AllTransmittable(pending) && IsTorn(torn)
    requires rx + more == EncodeAll(pending) + torn
    ensures pending != [] && Parse(rx).Whole? && Parse(rx).frame == pending[0] && !Refused(pending[0])
    ensures Parse(rx).rest + more == EncodeAll(pending[1..]) + torn
  {
    ParseAppend(rx, more);
    assert EncodeAll([]) + torn == torn;
    if pending == [] {
      assert false;
    }
    EncodeAllCons(pending, torn);
    ParseEncode(pending[0], EncodeAll(pending[1..]) + torn);
  }

  lemma TransportedRoute(m: Mux, pending: seq<Frame>)
    requires Enabled(m, Route) && Transported(m, pending)
    ensures pending != [] && Parse(m.rx).Whole? && Parse(m.rx).frame == pending[0] && !Refused(pending[0])
    ensures Transported(Apply(m, Route), pending[1..])
  {
    Assoc(m.rx, m.wire, m.inflight);
    FirstIsPending(m.rx, m.wire + m.inflight, pending, m.torn);
    var end := Apply(m, Route);
    Assoc(end.rx, m.wire, m.inflight);
    HandsKept(end.rx + m.wire, m.inflight, pending, m.torn);
    assert m.handed + [] + pending == m.handed + [pending[0]] + pending[1..];
  }

  /** Without the first frame the writer still has the last one in its hands. */
  lemma HandsKept(front: seq<byte>, inflight: seq<byte>, pending: seq<Frame>, torn: seq<byte>)
    requires pending != [] && InHands(inflight, pending) && (torn != [] ==> inflight == [])
    requires front + inflight == EncodeAll(pending[1..]) + torn
    ensures InHands(inflight, pending[1..])
  {
    if |pending| == 1 {
      assert |front + inflight| == |torn|;
    }
  }

  // ---------- the streams ----------

  predicate StreamsGood(m: Mux) {
    forall id ::
      && Good(StreamOf(m, id))
      && StreamOf(m, id).accepted == On(id, m.handed)
      && (StreamOf(m, id).hand != [] <==> m.loop == Sending(id))
  }

  predicate PeerWellEnded(m: Mux) {
    forall id :: SR.WellEnded(On(id, m.sent))
  }

  lemma WriteKeepsEnded(m: Mux, f: Frame, k: nat)
    requires PeerWellEnded(m) && Enabled(m, Write(f, k))
    ensures PeerWellEnded(Apply(m, Write(f, k)))
  {
    forall id ensures SR.WellEnded(On(id, m.sent + [f])) {
      assert (m.sent + [f])[..|m.sent + [f]| - 1] == m.sent;
    }
  }

  /** What has been handed over is the beginning of what was sent, on each stream. */
  lemma HandedWellEnded(m: Mux, id: uint32, handed: seq<Frame>, more: seq<Frame>)
    requires PeerWellEnded(m) && m.sent == handed + more
    ensures SR.WellEnded(On(id, handed))
  {
    OnAppend(id, handed, more);
    forall i | 0 <= i < |On(id, handed)| - 1 ensures On(id, handed)[i] != [] {
      assert On(id, m.sent)[i] == On(id, handed)[i];
    }
  }

  lemma OnSnoc(id: uint32, fs: seq<Frame>, f: Frame)
    ensures On(id, fs + [f]) == if f.id == id then On(id, fs) + [f.payload] else On(id, fs)
  {
    assert (fs + [f])[..|fs + [f]| - 1] == fs;
    assert On(id, fs) + [] == On(id, fs);
  }

  lemma OneStreamGood(m: Mux, id: uint32, a: SR.Action)
    requires StreamsGood(m) && SR.Enabled(StreamOf(m, id), a)
    requires !a.CloseFlag? && SR.OneReader([a]) && SR.WellEnded(SR.Apply(StreamOf(m, id), a).accepted)
    ensures var r := SR.Apply(StreamOf(m, id), a);
            && Good(r) && !r.panicked
            && (r.hand != [] <==> if a.Accept? then r.dropped == [] else m.loop == Sending(id) && !a.Send?)
  {
    var r := StreamOf(m, id);
    assert [a][0] == a;
    GoodStep(r, a);
    GoodEof(SR.Apply(r, a));
  }

  /** Replacing one stream by a good one that holds the frames handed over to it. */
  lemma UpdateGood(m: Mux, id: uint32, r: SR.Reader, end: Mux)
    requires StreamsGood(m) && Good(r) && r.accepted == On(id, end.handed)
    requires end.streams == m.streams[id := r]
    requires r.hand != [] <==> end.loop == Sending(id)
    requires forall i :: i != id ==>
      On(i, m.handed) == On(i, end.handed) && (m.loop == Sending(i) <==> end.loop == Sending(i))
    ensures StreamsGood(end)
  {
    forall i
      ensures Good(StreamOf(end, i))
      ensures StreamOf(end, i).accepted == On(i, end.handed)
      ensures StreamOf(end, i).hand != [] <==> end.loop == Sending(i)
    {
      assert StreamOf(end, i) == if i == id then r else StreamOf(m, i);
    }
  }

  // ---------- whole runs ----------

  predicate Inv(m: Mux, pending: seq<Frame>) {
    Transported(m, pending) && StreamsGood(m) && PeerWellEnded(m)
  }

  lemma StepFail(m: Mux, pending: seq<Frame>)
    requires Inv(m, pending) && Enabled(m, FailWrite)
    ensures pending != [] && Inv(Apply(m, FailWrite), pending[..|pending| - 1])
  {
    TransportedFail(m, pending);
    SameStreams(m, Apply(m, FailWrite));
    FailKeepsEnded(m, m.sent[..|m.sent| - 1]);
  }

  lemma FailKeepsEnded(m: Mux, front: seq<Frame>)
    requires PeerWellEnded(m) && m.sent != [] && front == m.sent[..|m.sent| - 1]
    ensures forall id :: SR.WellEnded(On(id, front))
  {
    assert m.sent == front + [m.sent[|m.sent| - 1]];
    forall id ensures SR.WellEnded(On(id, front)) {
      HandedWellEnded(m, id, front, [m.sent[|m.sent| - 1]]);
    }
  }

  lemma StepHandOver(m: Mux, pending: seq<Frame>)
    requires Inv(m, pending) && Enabled(m, HandOver)
    ensures Inv(Apply(m, HandOver), pending)
  {
    var f := m.loop.f;
    var end := Apply(m, HandOver);
    HandedWellEnded(m, f.id, m.handed + [f], pending);
    OnSnoc(f.id, m.handed, f);
    OneStreamGood(m, f.id, SR.Accept(f.payload));
    forall i | i != f.id ensures On(i, m.handed) == On(i, end.handed) {
      OnSnoc(i, m.handed, f);
    }
    UpdateGood(m, f.id, end.streams[f.id], end);
    assert m.handed + [f] + [] == m.handed + [f];
  }

  lemma StepSend(m: Mux, pending: seq<Frame>)
    requires Inv(m, pending) && Enabled(m, Send)
    ensures Inv(Apply(m, Send), pending)
  {
    var id := m.loop.id;
    Assoc(m.handed, [], pending);
    HandedWellEnded(m, id, m.handed, InLoop(m) + pending);
    OneStreamGood(m, id, SR.Send);
    UpdateGood(m, id, Apply(m, Send).streams[id], Apply(m, Send));
  }

  lemma StepRead(m: Mux, pending: seq<Frame>, id: uint32, a: SR.Action)
    requires Inv(m, pending) && Enabled(m, Read(id, a))
    ensures Inv(Apply(m, Read(id, a)), pending)
  {
    assert [a][0] == a;
    Assoc(m.handed, InLoop(m), pending);
    HandedWellEnded(m, id, m.handed, InLoop(m) + pending);
    OneStreamGood(m, id, a);
    UpdateGood(m, id, SR.Apply(m.streams[id], a), Apply(m, Read(id, a)));
  }

  lemma StepRoute(m: Mux, pending: seq<Frame>)
    requires Inv(m, pending) && Enabled(m, Route)
    ensures pending != [] && Inv(Apply(m, Route), pending[1..])
  {
    TransportedRoute(m, pending);
    RouteStreams(m);
  }

  lemma RouteStreams(m: Mux)
    requires StreamsGood(m) && Enabled(m, Route) && Parse(m.rx).Whole? && !Refused(Parse(m.rx).frame)
    ensures StreamsGood(Apply(m, Route)) && Apply(m, Route).sent == m.sent
  {
    var end := Apply(m, Route);
    forall id ensures StreamOf(end, id) == StreamOf(m, id) {}
    SameStreams(m, end);
  }

  lemma SameStreams(m: Mux, end: Mux)
    requires StreamsGood(m) && end.handed == m.handed
    requires forall id :: StreamOf(end, id) == StreamOf(m, id)
    requires forall id :: m.loop == Sending(id) <==> end.loop == Sending(id)
    ensures StreamsGood(end)
  {
  }

  lemma InvStep(m: Mux, a: Action, pending: seq<Frame>) returns (next: seq<Frame>)
    requires Inv(m, pending) && Enabled(m, a) && !Apply(m, a).outOfStep
    ensures Inv(Apply(m, a), next)
  {
    next := pending;
    match a
    case Write(f, k) =>
      StepWrite(m, pending, f, k);
      next := pending + [f];
    case FailWrite =>
      StepFail(m, pending);
      next := pending[..|pending| - 1];
    case Route =>
      StepRoute(m, pending);
      next := pending[1..];
    case HandOver => StepHandOver(m, pending);
    case Send => StepSend(m, pending);
    case Read(id, ra) => StepRead(m, pending, id, ra);
    case _ => StepQuietly(m, pending, a);
  }

  lemma StepWrite(m: Mux, pending: seq<Frame>, f: Frame, k: nat)
    requires Inv(m, pending) && Enabled(m, Write(f, k)) && m.torn == []
    ensures Inv(Apply(m, Write(f, k)), pending + [f])
  {
    TransportedWrite(m, pending, f, k, Apply(m, Write(f, k)));
    WriteKeepsEnded(m, f, k);
    SameStreams(m, Apply(m, Write(f, k)));
  }

  /** Steps that neither start nor finish a frame. */
  lemma StepQuietly(m: Mux, pending: seq<Frame>, a: Action)
    requires Inv(m, pending) && Enabled(m, a) && (a.Put? || a.Recv? || a.Open? || a.Break?)
    ensures Inv(Apply(m, a), pending)
  {
    if a.Put? || a.Recv? {
      TransportedMove(m, pending, a);
    }
    SameStreams(m, Apply(m, a));
  }

  lemma {:induction false} InvRun(m: Mux, actions: seq<Action>, end: Mux, pending: seq<Frame>)
    returns (left: seq<Frame>)
    requires Inv(m, pending) && Runs(m, actions, end) && !end.outOfStep
    ensures Inv(end, left)
    decreases |actions|
  {
    left := pending;
    if actions != [] {
      StaysOutOfStep(Apply(m, actions[0]), actions[1..], end);
      left := InvStep(m, actions[0], pending);
      left := InvRun(Apply(m, actions[0]), actions[1..], end, left);
    }
  }

  lemma {:induction false} StaysOutOfStep(m: Mux, actions: seq<Action>, end: Mux)
    requires Runs(m, actions, end)
    ensures m.outOfStep ==> end.outOfStep
    decreases |actions|
  {
    if actions != [] {
      StaysOutOfStep(Apply(m, actions[0]), actions[1..], end);
    }
  }

  lemma DecodeTorn(torn: seq<byte>)
    requires IsTorn(torn)
    ensures Decode(torn) == Decoded([], torn, Waiting)
  {
  }

  lemma Reachable(actions: seq<Action>, end: Mux) returns (pending: seq<Frame>)
    requires Runs(Start(), actions, end) && !end.outOfStep
    ensures Inv(end, pending)
    ensures Decode(end.rx + end.wire + end.inflight) == Decoded(pending, end.torn, Waiting)
  {
    pending := InvRun(Start(), actions, end, []);
    DecodeEncodeAll(pending, end.torn);
    DecodeTorn(end.torn);
    assert pending + [] == pending;
  }

  // ---------- for building runs ----------

  lemma {:induction false} RunsJoin(m: Mux, a: seq<Action>, mid: Mux, b: seq<Action>, end: Mux)
    requires Runs(m, a, mid) && Runs(mid, b, end)
    ensures Runs(m, a + b, end)
    decreases |a|
  {
    if a == [] {
      assert a + b == b;
    } else {
      RunsJoin(Apply(m, a[0]), a[1..], mid, b, end);
      assert (a + b)[1..] == a[1..] + b;
    }
  }

  lemma WholeSlice(bytes: seq<byte>)
    ensures bytes[..|bytes|] == bytes && bytes[|bytes|..] == []
  {
  }

  /** readLoop reads a header. */
  lemma TakeHeader(m: Mux, id: seq<byte>, length: seq<byte>, more: seq<byte>) returns (m1: Mux)
    requires |id| == |length| == 4 && Uint32(length) > 0 && Uint32(length) != GET_LENGTH
    requires m.loop.Reading? && m.rx == [] && m.wire == id + length + more
    ensures Enabled(m, Recv(HEADER_SIZE)) && Apply(m, Recv(HEADER_SIZE)) == m1
    ensures m1 == m.(rx := id + length, wire := more) && m1.rx[4..8] == length
    ensures Parse(m1.rx).Incomplete? && Need(m1.rx) == Uint32(length)
  {
    m1 := m.(rx := id + length, wire := more);
    assert m.wire[..HEADER_SIZE] == id + length && m.wire[HEADER_SIZE..] == more;
    assert m.rx + m.wire[..HEADER_SIZE] == id + length;
    assert m1.rx[4..8] == length;
  }

  lemma Step(m: Mux, a: Action, actions: seq<Action>, end: Mux)
    requires Enabled(m, a) && Runs(Apply(m, a), actions, end)
    ensures Runs(m, [a] + actions, end)
  {
    assert ([a] + actions)[1..] == actions;
  }
}
