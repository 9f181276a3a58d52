/**
 What a write that fails in the middle of a frame does to the connection, over the runs of both ends.
 */
module TornWrites {
  import opened Bytes
  import opened Framing
  import opened MuxRun

  /** How many bytes torn frames have put on the connection. */
  function Lost(m: Mux): int { |m.put| + |m.inflight| - |EncodeAll(m.sent)| }

  /** The bytes put are the frames sent and the torn frame, as long as nothing is put behind one; from
      then on they are more than that. */
  predicate InStep(m: Mux) {
    && (m.torn != [] ==> m.inflight == []) && IsTorn(m.torn) && AllTransmittable(m.sent)
    && InHands(m.inflight, m.sent)
    && (!m.outOfStep ==> m.put + m.inflight == EncodeAll(m.sent) + m.torn)
    && (m.outOfStep ==> Lost(m) > |m.torn|)
  }

  lemma InStepWrite(m: Mux, f: Frame, k: nat)
    requires InStep(m) && Enabled(m, Write(f, k))
    ensures InStep(Apply(m, Write(f, k)))
  {
    EncodeAllAppend(m.sent, [f]);
    assert EncodeAll([f]) == Encode(f);
    assert Encode(f) == Encode(f)[..k] + Encode(f)[k..];
    Assoc(m.put, Encode(f)[..k], Encode(f)[k..]);
    if !m.outOfStep && m.torn == [] {
      assert m.put == m.put + m.inflight == EncodeAll(m.sent) + m.torn == EncodeAll(m.sent);
      assert EncodeAll(m.sent + [f]) + [] == EncodeAll(m.sent + [f]);
    }
  }

  lemma InStepFail(m: Mux)
    requires InStep(m) && Enabled(m, FailWrite)
    ensures InStep(Apply(m, FailWrite))
  {
    var n := |m.sent| - 1;
    var front, f := m.sent[..n], m.sent[n];
    assert m.sent == front + [f];
    EncodeAllAppend(front, [f]);
    assert EncodeAll([f]) == Encode(f);
    PartIsIncomplete(f, |Encode(f)| - |m.inflight|);
    if !m.outOfStep {
      assert EncodeAll(m.sent) + m.torn == EncodeAll(m.sent);
      CutBehind(m.put, m.inflight, EncodeAll(front), Encode(f));
      assert m.put + [] == m.put;
    }
  }

  lemma InStepStep(m: Mux, a: Action)
    requires InStep(m) && Enabled(m, a)
    ensures InStep(Apply(m, a))
  {
    match a
    case Write(f, k) => InStepWrite(m, f, k);
    case FailWrite => InStepFail(m);
    case Put(k) => InStepPut(m, k);
    case _ =>
      OthersPutNothing(m, a);
      InStepSame(m, Apply(m, a));
  }

  lemma OthersPutNothing(m: Mux, a: Action)
    requires Enabled(m, a) && !a.Write? && !a.Put? && !a.FailWrite?
    ensures var end := Apply(m, a);
            && end.put == m.put && end.inflight == m.inflight && end.sent == m.sent
            && end.torn == m.torn && end.outOfStep == m.outOfStep
  {
  }

  lemma InStepPut(m: Mux, k: nat)
    requires InStep(m) && Enabled(m, Put(k))
    ensures InStep(Apply(m, Put(k)))
  {
    assert m.inflight == m.inflight[..k] + m.inflight[k..];
    Assoc(m.put, m.inflight[..k], m.inflight[k..]);
  }

  lemma InStepSame(m: Mux, end: Mux)
    requires InStep(m)
    requires end.put == m.put && end.inflight == m.inflight && end.sent == m.sent
    requires end.torn == m.torn && end.outOfStep == m.outOfStep
    ensures InStep(end)
  {
  }

  lemma {:induction false} InStepRun(m: Mux, actions: seq<Action>, end: Mux)
    requires InStep(m) && Runs(m, actions, end)
    ensures InStep(end)
    decreases |actions|
  {
    if actions != [] {
      InStepStep(m, actions[0]);
      InStepRun(Apply(m, actions[0]), actions[1..], end);
    }
  }

  /** The exact condition for delivery. In every run, what the writers put on the connection decodes to
      the frames that were not given up in the middle, with at most one torn frame behind them, if and
      only if no frame was ever put behind a torn one. */
  lemma DecodesToWhatWasSentIff(actions: seq<Action>, end: Mux)
    requires Runs(Start(), actions, end)
    ensures Decode(end.put + end.inflight) == Decoded(end.sent, end.torn, Waiting) <==> !end.outOfStep
  {
    InStepRun(Start(), actions, end);
    if end.outOfStep {
      EncodeDecode(end.put + end.inflight);
    } else {
      DecodeEncodeAll(end.sent, end.torn);
      DecodeTorn(end.torn);
      assert end.sent + [] == end.sent;
    }
  }

  /** For instance, if only the header of a frame went out, the next frame, header and all, is delivered
      as its payload, to the wrong stream, and its own stream gets nothing. */
  lemma Misread(f: Frame, g: Frame)
    requires Transmittable(f) && Transmittable(g) && |f.payload| == |Encode(g)| && f.id != g.id && f.id != 0
    ensures exists actions, end ::
              && Runs(Start(), actions, end) && end.sent == [g]
              && end.loop == Routed(Frame(f.id, Encode(g))) && end.rx == end.wire == end.inflight == []
  {
    var header := Encode(f)[..HEADER_SIZE];
    var m2 := Start().(wire := header, put := header, torn := header);
    TornHeader(f, m2);
    var m3 := Apply(m2, Write(g, |Encode(g)|));
    WholeSlice(Encode(g));
    var id, length := EncodeParts(f);
    Header(f, id, length);
    var later, end := HeaderThenBody(m3, id, length, Encode(g));
    Step(m2, Write(g, |Encode(g)|), later, end);
    RunsJoin(Start(), [Write(f, HEADER_SIZE), FailWrite], m2, [Write(g, |Encode(g)|)] + later, end);
  }

  lemma Header(f: Frame, id: seq<byte>, length: seq<byte>)
    requires |id| == |length| == 4 && Encode(f) == id + length + f.payload
    ensures Encode(f)[..HEADER_SIZE] == id + length && Encode(f)[HEADER_SIZE..] == f.payload
  {
  }

  lemma TornHeader(f: Frame, end: Mux)
    requires Transmittable(f) && f.payload != []
    requires var header := Encode(f)[..HEADER_SIZE]; end == Start().(wire := header, put := header, torn := header)
    ensures Runs(Start(), [Write(f, HEADER_SIZE), FailWrite], end)
  {
    var id, length := EncodeParts(f);
    Header(f, id, length);
    var m1 := Start().(wire := id + length, put := id + length, inflight := f.payload, sent := [f]);
    assert Apply(Start(), Write(f, HEADER_SIZE)) == m1;
    assert Apply(m1, FailWrite) == end;
    Step(m1, FailWrite, [], end);
    Step(Start(), Write(f, HEADER_SIZE), [FailWrite], end);
  }

  /** readLoop reads the rest of a frame and routes it. */
  lemma TakeBody(m: Mux, f: Frame) returns (actions: seq<Action>, end: Mux)
    requires m.loop.Reading? && m.wire == f.payload != [] && f.id != 0
    requires Parse(m.rx).Incomplete? && Need(m.rx) == |f.payload|
    requires Parse(m.rx + f.payload) == Whole(f, [])
    ensures Runs(m, actions, end) && end.sent == m.sent && end.inflight == m.inflight
    ensures end.loop == Routed(f) && end.rx == end.wire == []
  {
    WholeSlice(m.wire);
    var m1 := m.(rx := m.rx + f.payload, wire := []);
    end := Apply(m1, Route);
    Step(m1, Route, [], end);
    Step(m, Recv(|f.payload|), [Route], end);
    actions := [Recv(|f.payload|)] + [Route];
  }

  /** readLoop takes what looks like a frame for one. */
  lemma HeaderThenBody(m: Mux, id: seq<byte>, length: seq<byte>, body: seq<byte>) returns (later: seq<Action>, end: Mux)
    requires |id| == |length| == 4 && Uint32(id) != 0 && Uint32(length) == |body| != GET_LENGTH && body != []
    requires m.wire == id + length + body && m.rx == [] && m.inflight == [] && m.loop.Reading?
    ensures Runs(m, later, end) && end.sent == m.sent
    ensures end.loop == Routed(Frame(Uint32(id), body)) && end.rx == end.wire == end.inflight == []
  {
    var m1 := TakeHeader(m, id, length, body);
    ParseParts(id, length, body, []);
    assert id + length + body + [] == id + length + body;
    var last;
    last, end := TakeBody(m1, Frame(Uint32(id), body));
    Step(m, Recv(HEADER_SIZE), last, end);
    later := [Recv(HEADER_SIZE)] + last;
  }
}
