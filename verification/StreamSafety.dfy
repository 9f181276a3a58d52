/**
 When dataChan is safe: the exact condition on what the peer sends and on local Close under which
 no interleaving of WriteData, Close and any number of Read calls sends on the closed channel.
 */
module StreamSafety {
  import opened Bytes
  import opened StreamReader

  /** The marker that a Read call holds is the last frame it or anyone took. */
  predicate MarkersLast(s: Reader) {
    forall t :: t in s.pcs && (s.pcs[t].Mark? || s.pcs[t].DrainMore?) ==> Ended(s.taken)
  }

  /** If nothing follows the marker, then once it is taken nothing else is on its way. */
  lemma NothingBehindMarker(s: Reader)
    requires Inv(s) && WellEnded(s.accepted) && Ended(s.taken)
    ensures s.queue == [] && s.hand == [] && s.dropped == []
  {
    var i := |s.taken| - 1;
    assert s.accepted == s.taken + (s.queue + s.hand + s.dropped) by {
      Assoc(s.taken, s.queue, s.hand);
      Assoc(s.taken, s.queue + s.hand, s.dropped);
    }
    assert s.accepted[i] == [];
  }

  lemma AcceptedGrows(s: Reader, a: Action)
    requires Enabled(s, a)
    ensures s.accepted <= Apply(s, a).accepted
  {
  }

  lemma {:induction false} AcceptedGrowsRun(s: Reader, actions: seq<Action>, end: Reader)
    requires Runs(s, actions, end)
    ensures s.accepted <= end.accepted
    decreases |actions|
  {
    if actions != [] {
      AcceptedGrows(s, actions[0]);
      AcceptedGrowsRun(Apply(s, actions[0]), actions[1..], end);
    }
  }

  lemma MarkersLastStep(s: Reader, a: Action)
    requires Inv(s) && Enabled(s, a) && WellEnded(s.accepted)
    requires MarkersLast(s)
    ensures MarkersLast(Apply(s, a))
  {
    if a.Receive? && s.queue != [] && Ended(s.taken) {
      NothingBehindMarker(s);
    }
  }

  /** Without a local Close, whoever closed the stream had taken the marker first. */
  predicate ClosedByMarker(s: Reader) {
    s.closed ==> s.chanClosed && Ended(s.taken)
  }

  lemma ClosedByMarkerStep(s: Reader, a: Action)
    requires Inv(s) && Enabled(s, a) && !a.CloseFlag? && WellEnded(s.accepted)
    requires MarkersLast(s) && ClosedByMarker(s)
    ensures ClosedByMarker(Apply(s, a))
  {
    if a.Receive? && s.queue != [] && Ended(s.taken) {
      NothingBehindMarker(s);
    }
  }

  lemma {:induction false} MarkedRun(s: Reader, actions: seq<Action>, end: Reader)
    requires Runs(s, actions, end) && WellEnded(end.accepted)
    requires Inv(s) && MarkersLast(s)
    ensures Inv(end) && MarkersLast(end)
    ensures NoClose(actions) && ClosedByMarker(s) ==> ClosedByMarker(end)
    decreases |actions|
  {
    AcceptedGrowsRun(s, actions, end);
    if actions != [] {
      var next := Apply(s, actions[0]);
      InvStep(s, actions[0]);
      MarkersLastStep(s, actions[0]);
      if NoClose(actions) && ClosedByMarker(s) {
        ClosedByMarkerStep(s, actions[0]);
      }
      MarkedRun(next, actions[1..], end);
    }
  }

  /** dataChan is closed at most once in every run whatsoever, local Close calls included. */
  lemma ClosedAtMostOnce(actions: seq<Action>, end: Reader)
    requires Runs(Fresh(), actions, end)
    ensures end.closes <= 1
  {
    InvRun(Fresh(), actions, end);
  }

  /** Some run on a prefix of these frames sends on the closed channel. */
  ghost predicate CanPanic(frames: seq<seq<byte>>, mayClose: bool) {
    exists actions, end ::
      && Runs(Fresh(), actions, end)
      && end.accepted <= frames
      && (mayClose || NoClose(actions))
      && end.panicked
  }

  lemma NoPanic(frames: seq<seq<byte>>, mayClose: bool, actions: seq<Action>, end: Reader)
    requires WellEnded(frames) && (mayClose ==> frames == [])
    requires Runs(Fresh(), actions, end) && end.accepted <= frames && (mayClose || NoClose(actions))
    ensures !end.panicked
  {
    MarkedRun(Fresh(), actions, end);
    if end.panicked {
      if !mayClose {
        NothingBehindMarker(end);
      }
      assert false;
    }
  }

  /** Between two frames, with no Read call in progress. */
  predicate Quiet(s: Reader) {
    && s.queue == [] && s.hand == [] && s.buffer == [] && s.closing == 0
    && !s.closed && !s.chanClosed && !s.panicked && PcOf(s, 0).Idle?
  }

  lemma Step(s: Reader, a: Action, actions: seq<Action>, end: Reader)
    requires Enabled(s, a) && Runs(Apply(s, a), actions, end)
    ensures Runs(s, [a] + actions, end)
  {
    assert ([a] + actions)[1..] == actions;
  }

  /** A frame goes through the stream and is read whole. */
  lemma PassOne(s: Reader, data: seq<byte>) returns (actions: seq<Action>, end: Reader)
    requires Quiet(s) && data != []
    ensures Runs(s, actions, end) && Quiet(end) && NoClose(actions) && OneReader(actions)
    ensures end.accepted == s.accepted + [data] && end.error == s.error
  {
    var s1 := Apply(s, Accept(data));
    var s2 := Apply(s1, Send);
    var s3 := Apply(s2, Begin(0, |data|));
    end := Apply(s3, Receive(0));
    actions := [Accept(data), Send, Begin(0, |data|), Receive(0)];
    Step(s3, Receive(0), [], end);
    Step(s2, Begin(0, |data|), [Receive(0)], end);
    Step(s1, Send, [Begin(0, |data|), Receive(0)], end);
    Step(s, Accept(data), [Send, Begin(0, |data|), Receive(0)], end);
    assert actions == [Accept(data)] + [Send, Begin(0, |data|), Receive(0)];
  }

  lemma {:induction false} PassAll(s: Reader, frames: seq<seq<byte>>) returns (actions: seq<Action>, end: Reader)
    requires Quiet(s) && (forall i :: 0 <= i < |frames| ==> frames[i] != [])
    ensures Runs(s, actions, end) && Quiet(end) && NoClose(actions) && OneReader(actions)
    ensures end.accepted == s.accepted + frames && end.error == s.error
    decreases |frames|
  {
    if frames == [] {
      actions, end := [], s;
    } else {
      var first, mid := PassOne(s, frames[0]);
      var others;
      others, end := PassAll(mid, frames[1..]);
      RunsAppend(s, first, mid, others, end);
      actions := first + others;
      Assoc(s.accepted, [frames[0]], frames[1..]);
    }
  }

  /** The marker goes through the stream and caller 0 takes it. */
  lemma PassMarker(s: Reader) returns (actions: seq<Action>, end: Reader)
    requires Quiet(s)
    ensures Runs(s, actions, end) && NoClose(actions)
    ensures end.accepted == s.accepted + [[]]
    ensures PcOf(end, 0).Mark? && end.hand == [] && end.closing == 0
    ensures !end.closed && !end.chanClosed && !end.panicked
  {
    var s1 := Apply(s, Accept([]));
    var s2 := Apply(s1, Send);
    var s3 := Apply(s2, Begin(0, 0));
    end := Apply(s3, Receive(0));
    Step(s3, Receive(0), [], end);
    Step(s2, Begin(0, 0), [Receive(0)], end);
    Step(s1, Send, [Begin(0, 0), Receive(0)], end);
    actions := [Accept([])] + [Send, Begin(0, 0), Receive(0)];
    Step(s, Accept([]), [Send, Begin(0, 0), Receive(0)], end);
  }

  /** A frame behind the marker: WriteData finds the stream open, Read closes it, WriteData sends. */
  lemma PanicBehindMarker(s: Reader, data: seq<byte>) returns (actions: seq<Action>, end: Reader)
    requires Quiet(s)
    ensures Runs(s, actions, end) && NoClose(actions) && end.panicked
    ensures end.accepted == s.accepted + [[], data]
  {
    var before, s4 := PassMarker(s);
    var s5 := Apply(s4, Accept(data));
    var s6 := Apply(s5, Finish(0));
    end := Apply(s6, Send);
    Step(s6, Send, [], end);
    Step(s5, Finish(0), [Send], end);
    Step(s4, Accept(data), [Finish(0), Send], end);
    RunsAppend(s, before, s4, [Accept(data)] + [Finish(0), Send], end);
    actions := before + ([Accept(data)] + [Finish(0), Send]);
  }

  /** A local Close between the check and the send of WriteData. */
  lemma PanicByClose(data: seq<byte>) returns (actions: seq<Action>, end: Reader)
    ensures Runs(Fresh(), actions, end) && end.panicked && end.accepted == [data]
  {
    var s1 := Apply(Fresh(), Accept(data));
    var s2 := Apply(s1, CloseFlag);
    var s3 := Apply(s2, CloseChan);
    end := Apply(s3, Send);
    Step(s3, Send, [], end);
    Step(s2, CloseChan, [Send], end);
    Step(s1, CloseFlag, [CloseChan, Send], end);
    actions := [Accept(data)] + [CloseFlag, CloseChan, Send];
    Step(Fresh(), Accept(data), [CloseFlag, CloseChan, Send], end);
  }

  lemma {:induction false} FirstMarker(frames: seq<seq<byte>>) returns (k: nat)
    requires !WellEnded(frames)
    ensures k + 1 < |frames| && frames[k] == [] && forall i :: 0 <= i < k ==> frames[i] != []
  {
    if frames[0] == [] {
      k := 0;
    } else {
      k := FirstMarker(frames[1..]);
      k := k + 1;
    }
  }

  /** The exact condition: frames can make WriteData panic unless nothing follows the first marker
      and, where the stream may be closed locally, nothing arrives at all. */
  lemma ChannelSafetyIff(frames: seq<seq<byte>>, mayClose: bool)
    ensures !CanPanic(frames, mayClose) <==> WellEnded(frames) && (mayClose ==> frames == [])
  {
    if WellEnded(frames) && (mayClose ==> frames == []) {
      forall actions, end | Runs(Fresh(), actions, end) && end.accepted <= frames && (mayClose || NoClose(actions))
        ensures !end.panicked
      {
        NoPanic(frames, mayClose, actions, end);
      }
    } else if !WellEnded(frames) {
      var k := FirstMarker(frames);
      var before, mid := PassAll(Fresh(), frames[..k]);
      var after, end := PanicBehindMarker(mid, frames[k + 1]);
      RunsAppend(Fresh(), before, mid, after, end);
      assert end.accepted == frames[..k + 2];
      assert CanPanic(frames, mayClose);
    } else {
      var actions, end := PanicByClose(frames[0]);
      assert end.accepted <= frames;
      assert CanPanic(frames, mayClose);
    }
  }
}
