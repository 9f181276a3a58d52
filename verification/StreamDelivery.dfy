/**
 What a single reader gets out of a stream: exactly the bytes that went in, in order, whatever the
 interleaving and the buffer sizes; and io.EOF only when nothing is left, but for the io.EOF that the
 end of the connection puts into errChan.
 */
module StreamDelivery {
  import opened Bytes
  import opened StreamReader
  import opened StreamSafety

  /** Bytes a Read call has taken but not yet stored in the buffer. */
  function Held(s: Reader): seq<byte> {
    if PcOf(s, 0).Keep? then PcOf(s, 0).rest else []
  }

  /** Caller 0 is the only reader, and every byte taken from the channel is accounted for. */
  predicate Conserved(s: Reader) {
    && s.pcs.Keys <= {0}
    && Flatten(s.taken) == s.returned + Held(s) + s.buffer
    && (!PcOf(s, 0).Idle? ==> s.buffer == [])
  }

  lemma ConservedTake(s: Reader, pc: Pc)
    requires Conserved(s) && s.queue != []
    requires pc == PcOf(s, 0) && (pc.Poll? || pc.Wait? || pc.Drain? || pc.DrainMore?)
    ensures Conserved(DoTake(s, 0, pc))
  {
    var data := s.queue[0];
    FlattenAppend(s.taken, [data]);
    FlattenSingle(data);
    assert s.returned + [] + [] == s.returned;
    Split(s.returned, data, Min(pc.max, |data|));
  }

  /** Taking the first n bytes of a chunk and holding the rest loses nothing. */
  lemma Split(returned: seq<byte>, data: seq<byte>, n: nat)
    requires n <= |data|
    ensures returned + data[..n] + data[n..] + [] == returned + data
    ensures n == |data| ==> returned + data[..n] + [] + [] == returned + data
  {
    assert data[..n] + data[n..] == data;
    Assoc(returned, data[..n], data[n..]);
  }

  lemma ConservedBegin(s: Reader, max: nat)
    requires Conserved(s) && PcOf(s, 0).Idle?
    ensures Conserved(DoBegin(s, 0, max))
  {
    if s.buffer != [] {
      var n := Min(max, |s.buffer|);
      var front, back := s.buffer[..n], s.buffer[n..];
      assert front + back == s.buffer;
      assert s.returned + [] == s.returned;
      assert s.returned + front + [] == s.returned + front;
      Assoc(s.returned, front, back);
    }
  }

  lemma ConservedFinish(s: Reader, pc: Pc)
    requires Conserved(s) && pc == PcOf(s, 0) && (pc.Keep? || pc.Mark?)
    ensures Conserved(DoFinish(s, 0, pc))
  {
    assert s.returned + Held(s) + [] == s.returned + Held(s);
    assert s.returned + [] == s.returned;
  }

  lemma ConservedStep(s: Reader, a: Action)
    requires Conserved(s) && Enabled(s, a) && OneReader([a])
    ensures Conserved(Apply(s, a))
  {
    assert [a][0] == a;
    match a
    case Begin(t, max) => ConservedBegin(s, max);
    case Receive(t) => if s.queue != [] { ConservedTake(s, PcOf(s, 0)); }
    case Finish(t) => ConservedFinish(s, PcOf(s, 0));
    case _ =>
  }

  lemma {:induction false} ConservedRun(s: Reader, actions: seq<Action>, end: Reader)
    requires Runs(s, actions, end) && OneReader(actions)
    requires Inv(s) && Conserved(s)
    ensures Inv(end) && Conserved(end)
    decreases |actions|
  {
    if actions != [] {
      InvStep(s, actions[0]);
      assert [actions[0]][0] == actions[0];
      ConservedStep(s, actions[0]);
      ConservedRun(Apply(s, actions[0]), actions[1..], end);
    }
  }

  // ---------- end of file ----------

  /** After an EOF that did not come out of errChan the stream is closed and nothing is left on the
      reader's side. */
  predicate EofLast(s: Reader) {
    && (forall t :: t in s.pcs && (s.pcs[t].Drain? || s.pcs[t].DrainMore?) ==> s.closed)
    && (s.eofs > s.cuts ==> s.closed && s.buffer == [] && Held(s) == [])
  }

  lemma EofLastStep(s: Reader, a: Action)
    requires Enabled(s, a) && !a.CloseFlag? && OneReader([a])
    requires Inv(s) && WellEnded(s.accepted)
    requires MarkersLast(s) && ClosedByMarker(s) && Conserved(s) && EofLast(s)
    ensures EofLast(Apply(s, a))
  {
    assert [a][0] == a;
    if s.closed {
      NothingBehindMarker(s);
    }
  }

  /** What a stream with one reader, no local Close and a well-behaved peer keeps. */
  predicate Good(s: Reader) {
    Inv(s) && MarkersLast(s) && ClosedByMarker(s) && Conserved(s) && EofLast(s)
  }

  lemma GoodStep(s: Reader, a: Action)
    requires Enabled(s, a) && !a.CloseFlag? && OneReader([a]) && WellEnded(Apply(s, a).accepted)
    requires Good(s)
    ensures Good(Apply(s, a))
  {
    AcceptedGrows(s, a);
    InvStep(s, a);
    MarkersLastStep(s, a);
    ClosedByMarkerStep(s, a);
    ConservedStep(s, a);
    EofLastStep(s, a);
  }

  lemma {:induction false} GoodRun(s: Reader, actions: seq<Action>, end: Reader)
    requires Runs(s, actions, end) && NoClose(actions) && OneReader(actions) && WellEnded(end.accepted)
    requires Good(s)
    ensures Good(end)
    decreases |actions|
  {
    if actions != [] {
      var next := Apply(s, actions[0]);
      assert [actions[0]][0] == actions[0];
      AcceptedGrowsRun(next, actions[1..], end);
      GoodStep(s, actions[0]);
      GoodRun(next, actions[1..], end);
    }
  }

  /** After such an io.EOF, the marker came through and everything before it had been returned. */
  lemma GoodEof(s: Reader)
    requires Good(s) && WellEnded(s.accepted)
    ensures s.eofs > s.cuts ==> Ended(s.accepted) && s.returned == Flatten(s.accepted)
    ensures s.dropped == [] && !s.panicked
  {
    if s.closed {
      NothingBehindMarker(s);
      assert s.accepted == s.taken;
      assert s.returned + [] + [] == s.returned;
    }
  }

  lemma GoodDelivery(s: Reader)
    requires Inv(s) && Conserved(s)
    ensures Flatten(s.accepted) ==
            s.returned + Held(s) + s.buffer + Flatten(s.queue) + Flatten(s.hand) + Flatten(s.dropped)
  {
    FlattenAppend(s.sent + s.hand, s.dropped);
    FlattenAppend(s.sent, s.hand);
    FlattenAppend(s.taken, s.queue);
  }

  /** Nothing is lost, duplicated or reordered between WriteData and the reader: in every run with
      one reader, with local Close calls, transport errors and late frames allowed, the bytes of
      the frames accepted are the bytes returned, then those held, buffered, queued, about to be
      sent, and discarded, in this order. */
  lemma Delivery(actions: seq<Action>, end: Reader)
    requires Runs(Fresh(), actions, end) && OneReader(actions)
    ensures Flatten(end.accepted) ==
            end.returned + Held(end) + end.buffer + Flatten(end.queue) + Flatten(end.hand) + Flatten(end.dropped)
  {
    ConservedRun(Fresh(), actions, end);
    GoodDelivery(end);
  }

  lemma {:induction false} NoCutRun(s: Reader, actions: seq<Action>, end: Reader)
    requires Runs(s, actions, end) && NoCut(actions)
    requires s.cuts == 0 && s.error != Holds(true)
    ensures end.cuts == 0 && end.error != Holds(true)
    decreases |actions|
  {
    if actions != [] {
      NoCutRun(Apply(s, actions[0]), actions[1..], end);
    }
  }

  /** Without a local Close, an io.EOF that did not come out of errChan means that the peer's marker came
      through and that every byte that precedes it had been returned; and unless the connection ends at
      a frame boundary there is no other. */
  lemma EofOnlyAfterEverything(actions: seq<Action>, end: Reader)
    requires Runs(Fresh(), actions, end) && NoClose(actions) && OneReader(actions) && WellEnded(end.accepted)
    ensures end.eofs > end.cuts ==> Ended(end.accepted) && end.returned == Flatten(end.accepted)
    ensures NoCut(actions) ==> end.cuts == 0
    ensures end.dropped == []
  {
    GoodRun(Fresh(), actions, end);
    GoodEof(end);
    if NoCut(actions) {
      NoCutRun(Fresh(), actions, end);
    }
  }

  /** A local Close included: the moment a Read call decides on io.EOF, every frame that reached the
      channel has been returned, provided that the connection does not end at a frame boundary. */
  lemma EofDrainsFirst(actions: seq<Action>, s: Reader, a: Action)
    requires Runs(Fresh(), actions, s) && OneReader(actions + [a]) && NoCut(actions)
    requires Enabled(s, a) && WellEnded(Apply(s, a).accepted)
    ensures Apply(s, a).eofs > s.eofs ==>
              Apply(s, a).queue == [] && Apply(s, a).returned == Flatten(Apply(s, a).sent)
  {
    assert OneReader(actions) by {
      forall i | 0 <= i < |actions| ensures (actions + [a])[i] == actions[i] {}
    }
    assert (actions + [a])[|actions|] == a == [a][0];
    AcceptedGrows(s, a);
    MarkedRun(Fresh(), actions, s);
    ConservedRun(Fresh(), actions, s);
    NoCutRun(Fresh(), actions, s);
    EofStep(s, a);
  }

  lemma EofStep(s: Reader, a: Action)
    requires Enabled(s, a) && OneReader([a]) && WellEnded(s.accepted)
    requires Inv(s) && MarkersLast(s) && Conserved(s) && s.error != Holds(true)
    ensures Apply(s, a).eofs > s.eofs ==>
              Apply(s, a).queue == [] && Apply(s, a).returned == Flatten(Apply(s, a).sent)
  {
    assert [a][0] == a;
    ConservedStep(s, a);
    InvStep(s, a);
    var end := Apply(s, a);
    if end.eofs > s.eofs {
      EofEmpty(s, a);
      assert end.taken + [] == end.taken;
      assert end.returned + [] + [] == end.returned;
    }
  }

  /** A call that decides on io.EOF has nothing left to take or to serve. */
  lemma EofEmpty(s: Reader, a: Action)
    requires Enabled(s, a) && OneReader([a]) && WellEnded(s.accepted)
    requires Inv(s) && MarkersLast(s) && Conserved(s) && s.error != Holds(true) && Apply(s, a).eofs > s.eofs
    ensures Apply(s, a).queue == [] && Apply(s, a).buffer == [] && Held(Apply(s, a)) == []
  {
    assert [a][0] == a;
    if Ended(s.taken) {
      NothingBehindMarker(s);
    }
  }

  // ---------- the connection ends at a frame boundary ----------

  /** A reader has been told io.EOF although the marker did not come or bytes before it are unread. */
  predicate CutShort(s: Reader) {
    s.eofs > 0 && !(Ended(s.accepted) && s.returned == Flatten(s.accepted))
  }

  /** Some run with one reader and no local Close delivers just these frames and cuts the reader short. */
  ghost predicate CanCutShort(frames: seq<seq<byte>>, mayEnd: bool) {
    exists actions, end ::
      && Runs(Fresh(), actions, end) && NoClose(actions) && OneReader(actions)
      && end.accepted == frames && (mayEnd || NoCut(actions))
      && CutShort(end)
  }

  /** A call finds nothing and goes into the blocking select. */
  lemma StartWaiting(s: Reader) returns (end: Reader)
    requires Quiet(s)
    ensures Runs(s, [Begin(0, 1), Receive(0)], end) && end == s.(pcs := s.pcs[0 := Wait(1)])
  {
    var s1 := Apply(s, Begin(0, 1));
    end := Apply(s1, Receive(0));
    Step(s1, Receive(0), [], end);
    Step(s, Begin(0, 1), [Receive(0)], end);
    assert [Begin(0, 1)] + [Receive(0)] == [Begin(0, 1), Receive(0)];
    assert s.pcs[0 := Poll(1)][0 := Wait(1)] == s.pcs[0 := Wait(1)];
  }

  /** The connection ends, and the select takes that. */
  lemma StopWaiting(s: Reader) returns (end: Reader)
    requires PcOf(s, 0).Wait? && s.error.Vacant? && !s.closed && !s.panicked
    ensures Runs(s, [Fail(true), TakeError(0)], end)
    ensures end.accepted == s.accepted && end.returned == s.returned && end.eofs == s.eofs + 1
  {
    var s1 := Apply(s, Fail(true));
    end := Apply(s1, TakeError(0));
    Step(s1, TakeError(0), [], end);
    Step(s, Fail(true), [TakeError(0)], end);
    assert [Fail(true)] + [TakeError(0)] == [Fail(true), TakeError(0)];
  }

  /** The blocking select may take io.EOF out of errChan though frames have arrived meanwhile: `frames` is
      the last frame, or the last one and the marker, or nothing at all. */
  lemma CutWaiting(s: Reader, frames: seq<seq<byte>>) returns (actions: seq<Action>, end: Reader)
    requires Quiet(s) && s.error.Vacant? && |frames| <= 2
    ensures Runs(s, actions, end) && NoClose(actions) && OneReader(actions)
    ensures end.accepted == s.accepted + frames && end.returned == s.returned && end.eofs == s.eofs + 1
  {
    var waiting := StartWaiting(s);
    var arrived := Arrive(waiting, frames);
    ArrivalOnly(frames);
    end := StopWaiting(arrived);
    var late := ArrivalSteps(frames) + [Fail(true), TakeError(0)];
    RunsAppend(waiting, ArrivalSteps(frames), arrived, [Fail(true), TakeError(0)], end);
    RunsAppend(s, [Begin(0, 1), Receive(0)], waiting, late, end);
    actions := [Begin(0, 1), Receive(0)] + late;
  }

  /** For instance, a byte that has arrived is passed over for the io.EOF of the connection. */
  lemma EarlyEof()
    ensures exists actions, end ::
              && Runs(Fresh(), actions, end) && NoClose(actions) && OneReader(actions)
              && end.accepted == [[7]] && end.returned == [] && end.eofs == 1
  {
    var actions, end := CutWaiting(Fresh(), [[7]]);
    assert end.accepted == [[7]];
  }

  /** The frames arrive one after the other. */
  function ArrivalSteps(frames: seq<seq<byte>>): seq<Action> {
    if frames == [] then [] else [Accept(frames[0]), Send] + ArrivalSteps(frames[1..])
  }

  lemma {:induction false} ArrivalOnly(frames: seq<seq<byte>>)
    ensures NoClose(ArrivalSteps(frames)) && OneReader(ArrivalSteps(frames))
  {
    if frames != [] {
      ArrivalOnly(frames[1..]);
    }
  }

  /** The channel is open and has room. */
  predicate Room(s: Reader, n: nat) {
    s.hand == [] && !s.closed && !s.chanClosed && !s.panicked && |s.queue| + n <= CAPACITY
  }

  /** Nothing but arrivals happened in between. */
  predicate OnlyArrived(s: Reader, end: Reader) {
    end.returned == s.returned && end.eofs == s.eofs && end.pcs == s.pcs && end.error == s.error
  }

  lemma ArriveOne(s: Reader, data: seq<byte>) returns (end: Reader)
    requires Room(s, 1)
    ensures Runs(s, [Accept(data), Send], end) && OnlyArrived(s, end)
    ensures Room(end, 0) && |end.queue| == |s.queue| + 1 && end.accepted == s.accepted + [data]
  {
    var s1 := Apply(s, Accept(data));
    end := Apply(s1, Send);
    Step(s1, Send, [], end);
    Step(s, Accept(data), [Send], end);
    assert [Accept(data)] + [Send] == [Accept(data), Send];
  }

  lemma {:induction false} Arrive(s: Reader, frames: seq<seq<byte>>) returns (end: Reader)
    requires Room(s, |frames|)
    ensures Runs(s, ArrivalSteps(frames), end) && OnlyArrived(s, end)
    ensures Room(end, 0) && end.accepted == s.accepted + frames
    decreases |frames|
  {
    if frames == [] {
      end := s;
    } else {
      var mid := ArriveOne(s, frames[0]);
      end := Arrive(mid, frames[1..]);
      RunsAppend(s, [Accept(frames[0]), Send], mid, ArrivalSteps(frames[1..]), end);
      Assoc(s.accepted, [frames[0]], frames[1..]);
      assert [frames[0]] + frames[1..] == frames;
    }
  }

  /** The exact condition. Whatever frames the peer sends, a reader can be cut short if and only if the
      connection may end at a frame boundary and the frames are not just the marker. */
  lemma CutShortIff(frames: seq<seq<byte>>, mayEnd: bool)
    requires WellEnded(frames)
    ensures CanCutShort(frames, mayEnd) <==> mayEnd && frames != [[]]
  {
    if mayEnd && frames != [[]] {
      var n := LastData(frames);
      var before, mid := PassAll(Fresh(), frames[..n]);
      var last, end := CutWaiting(mid, frames[n..]);
      RunsAppend(Fresh(), before, mid, last, end);
      assert end.accepted == frames[..n] + frames[n..] == frames;
      ReadSoFar(before, mid);
      LastDataUnread(frames, n);
      Together(before, last);
      assert Runs(Fresh(), before + last, end) && CutShort(end);
    } else {
      forall actions, end | Runs(Fresh(), actions, end) && NoClose(actions) && OneReader(actions)
                            && end.accepted == frames && (mayEnd || NoCut(actions))
        ensures !CutShort(end)
      {
        EofOnlyAfterEverything(actions, end);
        if frames == [[]] {
          Delivery(actions, end);
          FlattenSingle([]);
        }
      }
    }
  }

  lemma Together(a: seq<Action>, b: seq<Action>)
    requires NoClose(a) && OneReader(a) && NoClose(b) && OneReader(b)
    ensures NoClose(a + b) && OneReader(a + b)
  {
  }

  /** Where the last frame with data is. */
  function LastData(frames: seq<seq<byte>>): (n: nat)
    requires WellEnded(frames) && frames != [[]]
    ensures n <= |frames| <= n + 2 && (forall i :: 0 <= i < n ==> frames[i] != [])
    ensures n < |frames| ==> frames[n] != []
  {
    if frames == [] then 0 else if Ended(frames) then |frames| - 2 else |frames| - 1
  }

  /** With nothing queued, the frames that went through are what was returned. */
  lemma ReadSoFar(actions: seq<Action>, s: Reader)
    requires Runs(Fresh(), actions, s) && OneReader(actions) && NoClose(actions) && Quiet(s) && WellEnded(s.accepted)
    ensures s.returned == Flatten(s.accepted)
  {
    Delivery(actions, s);
    EofOnlyAfterEverything(actions, s);
    assert s.returned + [] + [] + [] + [] + [] == s.returned;
  }

  lemma LastDataUnread(frames: seq<seq<byte>>, n: nat)
    requires WellEnded(frames) && frames != [[]] && n == LastData(frames)
    ensures !(Ended(frames) && Flatten(frames[..n]) == Flatten(frames))
  {
    if Ended(frames) {
      assert frames == frames[..n] + frames[n..];
      FlattenAppend(frames[..n], frames[n..]);
      assert Flatten(frames[n..]) == frames[n] + Flatten(frames[n..][1..]);
    }
  }
}
