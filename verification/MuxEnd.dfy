/**
 How readers learn of the end of the connection, over the runs of both ends: too early if it ends at a frame
 boundary, and not at all if it ends inside a payload.
 */
module MuxEnd {
  import opened Bytes
  import opened Framing
  import SR = StreamReader
  import opened StreamDelivery
  import opened MuxDelivery
  import opened MuxRun

  /** A reader was told io.EOF without the marker, or with bytes unread. */
  predicate CutShort(m: Mux, id: uint32) {
    var r := StreamOf(m, id);
    r.eofs > 0 && !(SR.Ended(On(id, m.sent)) && r.returned == Flatten(On(id, m.sent)))
  }

  ghost predicate CanCutShort(mayEnd: bool) {
    exists actions, end, id ::
      Runs(Start(), actions, end) && !end.outOfStep && (mayEnd || !EndedAtBoundary(end)) && CutShort(end, id)
  }

  /** A reader waits on a stream nobody writes on, and the connection ends. */
  lemma EarlyEof() returns (actions: seq<Action>, end: Mux)
    ensures Runs(Start(), actions, end) && !end.outOfStep
    ensures end.sent == [] && StreamOf(end, 1).eofs == 1
  {
    var m2 := Start().(streams := map[1 := SR.Fresh().(pcs := map[0 := SR.Wait(1)])]);
    var before := ReaderWaits(m2);
    var m3 := Apply(m2, Break(true));
    var m4 := Apply(m3, Read(1, SR.Fail(true)));
    end := Apply(m4, Read(1, SR.TakeError(0)));
    Step(m4, Read(1, SR.TakeError(0)), [], end);
    Step(m3, Read(1, SR.Fail(true)), [Read(1, SR.TakeError(0))], end);
    var last := [Read(1, SR.Fail(true))] + [Read(1, SR.TakeError(0))];
    Step(m2, Break(true), last, end);
    RunsJoin(Start(), before, m2, [Break(true)] + last, end);
    actions := before + ([Break(true)] + last);
  }

  lemma ReaderWaits(end: Mux) returns (actions: seq<Action>)
    requires end == Start().(streams := map[1 := SR.Fresh().(pcs := map[0 := SR.Wait(1)])])
    ensures Runs(Start(), actions, end)
  {
    var m1 := Apply(Start(), Open(1));
    var m2 := Apply(m1, Read(1, SR.Begin(0, 1)));
    assert SR.Apply(m2.streams[1], SR.Receive(0)) == end.streams[1];
    assert Apply(m2, Read(1, SR.Receive(0))) == end;
    Step(m2, Read(1, SR.Receive(0)), [], end);
    Step(m1, Read(1, SR.Begin(0, 1)), [Read(1, SR.Receive(0))], end);
    Step(Start(), Open(1), [Read(1, SR.Begin(0, 1))] + [Read(1, SR.Receive(0))], end);
    actions := [Open(1)] + ([Read(1, SR.Begin(0, 1))] + [Read(1, SR.Receive(0))]);
  }

  /** The exact condition: a reader can be cut short if and only if the connection may end at a frame
      boundary, which is what closing the multiplexer at the other end does. */
  lemma CutShortIff(mayEnd: bool)
    ensures CanCutShort(mayEnd) <==> mayEnd
  {
    if mayEnd {
      var actions, end := EarlyEof();
      assert CutShort(end, 1);
    } else {
      forall actions, end, id | Runs(Start(), actions, end) && !end.outOfStep && !EndedAtBoundary(end)
        ensures !CutShort(end, id)
      {
        EndOfFile(actions, end, id);
      }
    }
  }

  /** A connection that ends inside a payload: readLoop stops without a word, and a reader that was
      waiting has nothing left to wake it. */
  lemma LeftWaiting() returns (actions: seq<Action>, end: Mux)
    ensures Runs(Start(), actions, end) && end.loop == Stopped(Silent)
    ensures SR.PcOf(StreamOf(end, 1), 0).Wait? && forall a :: !Enabled(end, Read(1, a))
  {
    var m2 := Start().(streams := map[1 := SR.Fresh().(pcs := map[0 := SR.Wait(1)])]);
    var before := ReaderWaits(m2);
    var f := Frame(1, [7, 8]);
    var id, length := EncodeParts(f);
    NineBytes(f, id, length);
    var m3 := Apply(m2, Write(f, 9));
    var last;
    last, end := StopsInPayload(m3, id, length, 7);
    Step(m2, Write(f, 9), last, end);
    RunsJoin(Start(), before, m2, [Write(f, 9)] + last, end);
    actions := before + ([Write(f, 9)] + last);
  }

  lemma NineBytes(f: Frame, id: seq<byte>, length: seq<byte>)
    requires |id| == |length| == 4 && Encode(f) == id + length + f.payload && f.payload == [7, 8]
    ensures |Encode(f)| == 10 && Encode(f)[..9] == id + length + [7]
  {
  }

  /** The connection ends when these bytes of a payload have come. */
  lemma StopBehind(m: Mux, part: seq<byte>) returns (actions: seq<Action>, end: Mux)
    requires m.loop.Reading? && |m.rx| >= HEADER_SIZE && m.wire == part != []
    requires Parse(m.rx).Incomplete? && Need(m.rx) > |part|
    ensures end == m.(rx := m.rx + part, wire := [], loop := Stopped(Silent)) && Runs(m, actions, end)
  {
    WholeSlice(part);
    var m1 := m.(rx := m.rx + part, wire := []);
    assert m1.rx[4..8] == m.rx[4..8];
    end := Apply(m1, Break(true));
    Step(m1, Break(true), [], end);
    Step(m, Recv(|part|), [Break(true)], end);
    actions := [Recv(|part|)] + [Break(true)];
  }

  lemma StopsInPayload(m: Mux, id: seq<byte>, length: seq<byte>, b: byte) returns (actions: seq<Action>, end: Mux)
    requires |id| == |length| == 4 && Uint32(length) == 2
    requires m.loop.Reading? && m.rx == [] && m.wire == id + length + [b]
    ensures end == m.(rx := m.wire, wire := [], loop := Stopped(Silent)) && Runs(m, actions, end)
  {
    var m1 := TakeHeader(m, id, length, [b]);
    var last;
    last, end := StopBehind(m1, [b]);
    Step(m, Recv(HEADER_SIZE), last, end);
    actions := [Recv(HEADER_SIZE)] + last;
  }

  /** A reader that has found nothing and waits. */
  predicate Waits(m: Mux, id: uint32) {
    && id in m.streams
    && var r := m.streams[id];
       SR.PcOf(r, 0).Wait? && r.queue == [] && !r.chanClosed && r.error.Vacant? && !r.panicked
  }

  /** Once readLoop has stopped, what it has read tells whether it was waiting for a header. */
  predicate StoppedAtHeader(m: Mux) { m.loop.Stopped? ==> (m.loop.notice.Tells? <==> |m.rx| < HEADER_SIZE) }

  lemma StoppedStep(m: Mux, a: Action, pending: seq<Frame>)
    requires Inv(m, pending) && Enabled(m, a) && StoppedAtHeader(m)
    ensures StoppedAtHeader(Apply(m, a))
  {
    if a.Route? {
      TransportedRoute(m, pending);
    }
  }

  lemma {:induction false} StoppedRun(m: Mux, actions: seq<Action>, end: Mux, pending: seq<Frame>)
    requires Inv(m, pending) && Runs(m, actions, end) && !end.outOfStep && StoppedAtHeader(m)
    ensures StoppedAtHeader(end)
    decreases |actions|
  {
    if actions != [] {
      StaysOutOfStep(Apply(m, actions[0]), actions[1..], end);
      StoppedStep(m, actions[0], pending);
      var next := InvStep(m, actions[0], pending);
      StoppedRun(Apply(m, actions[0]), actions[1..], end, next);
    }
  }

  lemma StuckStep(m: Mux, id: uint32, a: Action)
    requires m.loop == Stopped(Silent) && Waits(m, id) && Enabled(m, a)
    ensures Apply(m, a).loop == Stopped(Silent) && Waits(Apply(m, a), id)
  {
  }

  lemma {:induction false} StuckForever(m: Mux, id: uint32, actions: seq<Action>, end: Mux)
    requires m.loop == Stopped(Silent) && Waits(m, id) && Runs(m, actions, end)
    ensures Waits(end, id)
    decreases |actions|
  {
    if actions != [] {
      StuckStep(m, id, actions[0]);
      StuckForever(Apply(m, actions[0]), id, actions[1..], end);
    }
  }

  /** However the run goes on, this reader waits. */
  ghost predicate WaitsForever(m: Mux, id: uint32) {
    forall later, end :: Runs(m, later, end) ==> Waits(end, id)
  }

  /** The notice wakes the reader: errChan then has the error that ended the connection. */
  lemma NoticeWakes(m: Mux, id: uint32)
    requires m.loop.Stopped? && m.loop.notice.Tells? && Waits(m, id) && Good(StreamOf(m, id))
    ensures !WaitsForever(m, id)
  {
    var a := Read(id, SR.Fail(m.loop.notice.eof));
    var end := Apply(m, a);
    Step(m, a, [], end);
    assert end.streams[id].error.Holds?;
    assert Runs(m, [a] + [], end) && !Waits(end, id);
  }

  /** The exact condition: once readLoop has stopped, a reader that waits for data waits forever if and only
      if the loop had read a whole header, and so was waiting for a payload. */
  lemma WaitsForeverIff(actions: seq<Action>, m: Mux, id: uint32)
    requires Runs(Start(), actions, m) && !m.outOfStep && m.loop.Stopped? && Waits(m, id)
    ensures WaitsForever(m, id) <==> |m.rx| >= HEADER_SIZE
  {
    StoppedRun(Start(), actions, m, []);
    if m.loop.notice.Tells? {
      var pending := Reachable(actions, m);
      assert Good(StreamOf(m, id));
      NoticeWakes(m, id);
    } else {
      forall later, end | Runs(m, later, end) ensures Waits(end, id) {
        StuckForever(m, id, later, end);
      }
    }
  }
}
