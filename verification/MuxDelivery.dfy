/**
 What the runs of both ends deliver: every byte, in order, until the end of file; and that they do not wedge.
 */
module MuxDelivery {
  import opened Bytes
  import opened Framing
  import SR = StreamReader
  import opened StreamDelivery
  import opened MuxRun

  /** End-to-end delivery. Whatever the interleaving of writers, the chunking of the connection, the
      writes that fail and the buffer sizes of the readers, as long as nothing is put behind a torn frame
      the bytes written on a stream are the bytes its reader got, followed by those that wait in the
      reader, in its queue, in the loop and on the wire. What is on the wire decodes completely, but for
      the torn frame, so no guard of readLoop ever fires. */
  lemma EndToEnd(actions: seq<Action>, end: Mux, id: uint32)
    requires Runs(Start(), actions, end) && !end.outOfStep
    ensures var r := StreamOf(end, id);
            var wire := Decode(end.rx + end.wire + end.inflight);
            && wire.halt == Waiting && wire.rest == end.torn
            && Flatten(On(id, end.sent)) ==
               r.returned + Held(r) + r.buffer + Flatten(r.queue) + Flatten(r.hand)
               + Flatten(On(id, InLoop(end))) + Flatten(On(id, wire.frames))
  {
    var pending := Reachable(actions, end);
    SentInParts(end, pending, id);
    ReaderHolds(end, pending, id);
  }

  lemma SentInParts(m: Mux, pending: seq<Frame>, id: uint32)
    requires m.sent == m.handed + InLoop(m) + pending
    ensures Flatten(On(id, m.sent)) == Flatten(On(id, m.handed)) + Flatten(On(id, InLoop(m))) + Flatten(On(id, pending))
  {
    OnAppend(id, m.handed + InLoop(m), pending);
    OnAppend(id, m.handed, InLoop(m));
    FlattenAppend(On(id, m.handed) + On(id, InLoop(m)), On(id, pending));
    FlattenAppend(On(id, m.handed), On(id, InLoop(m)));
  }

  lemma ReaderHolds(m: Mux, pending: seq<Frame>, id: uint32)
    requires Inv(m, pending)
    ensures var r := StreamOf(m, id);
            && Flatten(On(id, m.handed)) == r.returned + Held(r) + r.buffer + Flatten(r.queue) + Flatten(r.hand)
            && !r.panicked && r.dropped == []
            && (r.eofs > r.cuts ==> SR.Ended(On(id, m.handed)) && r.returned == Flatten(On(id, m.handed)))
  {
    var r := StreamOf(m, id);
    Assoc(m.handed, InLoop(m), pending);
    HandedWellEnded(m, id, m.handed, InLoop(m) + pending);
    GoodDelivery(r);
    GoodEof(r);
    assert Flatten(r.dropped) == [];
    assert Flatten(r.accepted) + [] == Flatten(r.accepted);
  }

  // ---------- end of file ----------

  /** The connection ended at a frame boundary, and readLoop has told the streams or is about to. */
  predicate EndedAtBoundary(m: Mux) { m.loop == Stopped(Tells(true)) }

  /** Only then is io.EOF in some errChan, or was taken out of it. */
  predicate CutOnlyByEnd(m: Mux) {
    forall id :: StreamOf(m, id).cuts > 0 || StreamOf(m, id).error == SR.Holds(true) ==> EndedAtBoundary(m)
  }

  lemma CutStep(m: Mux, a: Action)
    requires CutOnlyByEnd(m) && Enabled(m, a)
    ensures CutOnlyByEnd(Apply(m, a))
  {
    var end := Apply(m, a);
    forall id | StreamOf(end, id).cuts > 0 || StreamOf(end, id).error == SR.Holds(true) ensures EndedAtBoundary(end) {
      assert StreamOf(m, id).cuts > 0 || StreamOf(m, id).error == SR.Holds(true) ==> EndedAtBoundary(m);
    }
  }

  lemma {:induction false} CutRun(m: Mux, actions: seq<Action>, end: Mux)
    requires CutOnlyByEnd(m) && Runs(m, actions, end)
    ensures CutOnlyByEnd(end)
    decreases |actions|
  {
    if actions != [] {
      CutStep(m, actions[0]);
      CutRun(Apply(m, actions[0]), actions[1..], end);
    }
  }

  /** As long as nothing is put behind a torn frame, no stream panics, drops a frame or closes its
      channel twice. Read answers io.EOF only when the writer's marker is the last thing written on the
      stream and every byte written before it has been returned, or because the connection ended at a
      frame boundary. */
  lemma EndOfFile(actions: seq<Action>, end: Mux, id: uint32)
    requires Runs(Start(), actions, end) && !end.outOfStep
    ensures var r := StreamOf(end, id);
            && !r.panicked && r.dropped == [] && r.closes <= 1
            && (r.eofs > r.cuts ==> SR.Ended(On(id, end.sent)) && r.returned == Flatten(On(id, end.sent)))
            && (r.cuts > 0 ==> EndedAtBoundary(end))
  {
    var pending := Reachable(actions, end);
    var r := StreamOf(end, id);
    var more := InLoop(end) + pending;
    Assoc(end.handed, InLoop(end), pending);
    ReaderHolds(end, pending, id);
    OnAppend(id, end.handed, more);
    if r.eofs > r.cuts {
      EndedIsAll(On(id, end.handed), On(id, more));
    }
    assert On(id, end.handed) + [] == On(id, end.handed);
    CutRun(Start(), actions, end);
    assert StreamOf(end, id).cuts > 0 ==> EndedAtBoundary(end);
  }

  lemma EndedIsAll(front: seq<seq<byte>>, back: seq<seq<byte>>)
    requires SR.WellEnded(front + back) && SR.Ended(front)
    ensures back == []
  {
    assert (front + back)[|front| - 1] == [];
  }

  /** A step of the writer in progress or of readLoop. */
  ghost predicate TransportCanMove(m: Mux) {
    exists a: Action :: (a.Put? || a.Recv? || a.Route? || a.HandOver? || a.Send?) && Enabled(m, a)
  }

  /** A stream has frames waiting and its reader is not blocked. */
  ghost predicate ReaderCanMove(m: Mux) {
    exists id: uint32, a: SR.Action :: Enabled(m, Read(id, a)) && !a.Fail? && m.streams[id].queue != []
  }

  lemma QueueIsReadable(m: Mux, id: uint32)
    requires id in m.streams && m.streams[id].queue != [] && !m.streams[id].panicked
    ensures ReaderCanMove(m)
  {
    var pc := SR.PcOf(m.streams[id], 0);
    var a := if pc.Idle? then SR.Begin(0, 1) else if pc.Keep? || pc.Mark? then SR.Finish(0) else SR.Receive(0);
    assert Enabled(m, Read(id, a));
  }

  /** A full queue has something to read. */
  lemma SendOrRead(m: Mux)
    requires m.loop.Sending? && StreamsGood(m) && !StreamOf(m, m.loop.id).panicked
    ensures TransportCanMove(m) || ReaderCanMove(m)
  {
    var id := m.loop.id;
    assert Good(StreamOf(m, id)) && StreamOf(m, id).hand != [];
    if |StreamOf(m, id).queue| < SR.CAPACITY {
      assert Enabled(m, Send);
    } else {
      QueueIsReadable(m, id);
    }
  }

  /** The pipeline cannot wedge: while the connection holds, either the transport can move, or a
      reader with frames waiting for it can, or every frame sent has been taken by its reader. A
      full queue stalls all streams, but only until its own reader reads. */
  lemma NeverStuck(actions: seq<Action>, end: Mux)
    requires Runs(Start(), actions, end) && !end.outOfStep && !end.loop.Stopped?
    ensures TransportCanMove(end) || ReaderCanMove(end)
            || (forall id :: StreamOf(end, id).taken == On(id, end.sent))
  {
    var pending := Reachable(actions, end);
    if end.inflight != [] {
      assert Enabled(end, Put(1));
    } else if end.loop.Routed? {
      EndOfFile(actions, end, end.loop.f.id);
      assert Enabled(end, HandOver);
    } else if end.loop.Sending? {
      EndOfFile(actions, end, end.loop.id);
      SendOrRead(end);
    } else if !Parse(end.rx).Incomplete? {
      assert Enabled(end, Route);
    } else if end.wire != [] {
      assert Enabled(end, Recv(1));
    } else {
      IdleIsEmpty(end, pending);
      if id: uint32 :| StreamOf(end, id).queue != [] {
        EndOfFile(actions, end, id);
        QueueIsReadable(end, id);
      } else {
        forall id ensures StreamOf(end, id).taken == On(id, end.sent) {
          EndOfFile(actions, end, id);
        }
      }
    }
  }

  lemma IdleIsEmpty(m: Mux, pending: seq<Frame>)
    requires Inv(m, pending) && m.loop.Reading? && m.wire == [] && m.inflight == []
    requires Parse(m.rx).Incomplete?
    ensures pending == [] && m.sent == m.handed
  {
    assert m.rx + [] + [] == m.rx;
    if pending != [] {
      EncodeAllCons(pending, m.torn);
      ParseEncode(pending[0], EncodeAll(pending[1..]) + m.torn);
      assert false;
    }
    assert m.handed + [] + [] == m.handed;
  }
}
