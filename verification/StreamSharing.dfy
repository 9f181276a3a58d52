/**
 Several Read calls on one stream at the same time. Each keeps what did not fit its caller's buffer in the
 stream's buffer, in a critical section of its own, so that one call can overwrite what another one left.
 */
module StreamSharing {
  import opened Bytes
  import opened StreamReader
  import opened StreamSafety

  predicate AtRest(s: Reader) {
    forall t :: t in s.pcs ==> s.pcs[t].Idle?
  }

  /** A Read call begins only when no other is in progress. */
  predicate TakeTurns(s: Reader, actions: seq<Action>)
    decreases |actions|
  {
    actions == [] ||
    (&& Enabled(s, actions[0]) && (actions[0].Begin? ==> AtRest(s))
     && TakeTurns(Apply(s, actions[0]), actions[1..]))
  }

  /** No caller's buffer is smaller than this. */
  predicate Buffers(actions: seq<Action>, least: nat) {
    forall i :: 0 <= i < |actions| && actions[i].Begin? ==> actions[i].max >= least
  }

  /** No frame longer than the smallest buffer has data behind it. */
  predicate LongLast(frames: seq<seq<byte>>, least: nat) {
    forall i, j :: 0 <= i < j < |frames| && |frames[i]| > least ==> frames[j] == []
  }

  /** No Read call is in progress, and the bytes accepted are not those returned, then those buffered, queued,
      about to be sent, and discarded. */
  predicate Scrambled(s: Reader) {
    && AtRest(s)
    && Flatten(s.accepted) != s.returned + s.buffer + Flatten(s.queue) + Flatten(s.hand) + Flatten(s.dropped)
  }

  // ---------- one call at most keeps something ----------

  function HeldBy(s: Reader, t: nat): seq<byte> {
    if PcOf(s, t).Keep? then PcOf(s, t).rest else []
  }

  /** Nobody but caller t has bytes to store, and every byte taken from the channel is accounted for. */
  predicate Kept(s: Reader, t: nat) {
    && (forall u :: u in s.pcs && s.pcs[u].Keep? ==> u == t)
    && (PcOf(s, t).Keep? ==> s.buffer == [])
    && Flatten(s.taken) == s.returned + HeldBy(s, t) + s.buffer
  }

  /** The frame that this step takes meets nothing that an earlier frame has left. */
  predicate Safe(s: Reader, t: nat, a: Action) {
    a.Receive? && s.queue != [] && s.queue[0] != [] ==> !PcOf(s, t).Keep? && s.buffer == []
  }

  lemma Pieces(returned: seq<byte>, front: seq<byte>, back: seq<byte>)
    ensures returned + front + back == returned + front + [] + back == returned + front + back + []
    ensures returned + (front + back) == returned + front + back
  {
  }

  lemma KeptMarker(s: Reader, t: nat, u: nat)
    requires Kept(s, t) && Enabled(s, Receive(u)) && s.queue != [] && s.queue[0] == []
    ensures Kept(DoTake(s, u, PcOf(s, u)), t)
  {
    var end := DoTake(s, u, PcOf(s, u));
    FlattenAppend(s.taken, [[]]);
    FlattenSingle([]);
    assert end.taken == s.taken + [[]];
    assert end.returned == s.returned;
    assert HeldBy(end, t) == HeldBy(s, t);
  }

  /** Taking the first n bytes of a frame and keeping the rest loses nothing. */
  lemma FlattenTaken(taken: seq<seq<byte>>, returned: seq<byte>, data: seq<byte>, n: nat)
    requires Flatten(taken) == returned && n <= |data|
    ensures Flatten(taken + [data]) == returned + data[..n] + data[n..]
  {
    FlattenAppend(taken, [data]);
    FlattenSingle(data);
    assert data[..n] + data[n..] == data;
    Assoc(returned, data[..n], data[n..]);
  }

  lemma KeptData(s: Reader, t: nat, u: nat)
    requires Kept(s, t) && Enabled(s, Receive(u)) && Safe(s, t, Receive(u)) && s.queue != [] && s.queue[0] != []
    ensures Kept(DoTake(s, u, PcOf(s, u)), u)
  {
    var end := DoTake(s, u, PcOf(s, u));
    var data := s.queue[0];
    var n := Min(PcOf(s, u).max, |data|);
    assert s.returned + [] + [] == s.returned;
    FlattenTaken(s.taken, s.returned, data, n);
    assert HeldBy(end, u) == data[n..];
    assert end.returned + data[n..] + [] == end.returned + data[n..];
  }

  lemma KeptBegin(s: Reader, t: nat, u: nat, max: nat)
    requires Kept(s, t) && Enabled(s, Begin(u, max))
    ensures Kept(DoBegin(s, u, max), t)
  {
    if s.buffer != [] {
      var n := Min(max, |s.buffer|);
      Pieces(s.returned, [], s.buffer);
      Pieces(s.returned, s.buffer[..n], s.buffer[n..]);
      assert s.buffer[..n] + s.buffer[n..] == s.buffer;
      assert s.returned + [] == s.returned;
    }
  }

  lemma KeptFinish(s: Reader, t: nat, u: nat)
    requires Kept(s, t) && Enabled(s, Finish(u))
    ensures Kept(DoFinish(s, u, PcOf(s, u)), t)
  {
    Pieces(s.returned, [], HeldBy(s, t));
    assert s.returned + [] == s.returned;
  }

  lemma KeptStep(s: Reader, t: nat, a: Action) returns (u: nat)
    requires Kept(s, t) && Enabled(s, a) && Safe(s, t, a)
    ensures Kept(Apply(s, a), u)
  {
    u := t;
    match a
    case Begin(v, max) => KeptBegin(s, t, v, max);
    case Receive(v) =>
      if s.queue != [] {
        if s.queue[0] == [] {
          KeptMarker(s, t, v);
        } else {
          KeptData(s, t, v);
          u := v;
        }
      }
    case Finish(v) => KeptFinish(s, t, v);
    case _ =>
  }

  // ---------- calls that take turns ----------

  /** One call at most is in progress, and it found the buffer empty. */
  predicate Turns(s: Reader) {
    && (forall t, u :: t in s.pcs && u in s.pcs && !s.pcs[t].Idle? && !s.pcs[u].Idle? ==> t == u)
    && (forall t :: t in s.pcs && !s.pcs[t].Idle? ==> s.buffer == [])
  }

  lemma TurnsStep(s: Reader, t: nat, a: Action)
    requires Turns(s) && Enabled(s, a) && (a.Begin? ==> AtRest(s))
    ensures Turns(Apply(s, a)) && Safe(s, t, a)
  {
  }

  // ---------- calls that overlap ----------

  predicate NoDataBehind(frames: seq<seq<byte>>, n: nat) {
    forall j :: n <= j < |frames| ==> frames[j] == []
  }

  predicate NothingLeft(s: Reader) {
    s.buffer == [] && forall t :: t in s.pcs ==> !s.pcs[t].Keep?
  }

  predicate Asks(pc: Pc, least: nat) {
    pc.Poll? || pc.Wait? || pc.Drain? || pc.DrainMore? ==> pc.max >= least
  }

  /** Once something was left, nothing but markers comes. */
  predicate LastLeft(s: Reader, frames: seq<seq<byte>>, least: nat) {
    && (forall t :: t in s.pcs ==> Asks(s.pcs[t], least))
    && (NothingLeft(s) || NoDataBehind(frames, |s.taken|))
  }

  lemma NextFrame(s: Reader, frames: seq<seq<byte>>)
    requires InOrder(s) && s.accepted <= frames && s.queue != []
    ensures |s.taken| < |frames| && frames[|s.taken|] == s.queue[0]
  {
    assert s.sent[|s.taken|] == s.queue[0];
    assert s.accepted[|s.taken|] == s.queue[0];
  }

  lemma LastLeftTake(s: Reader, t: nat, frames: seq<seq<byte>>, least: nat)
    requires LastLeft(s, frames, least) && LongLast(frames, least) && Enabled(s, Receive(t))
    requires s.queue != [] && |s.taken| < |frames| && frames[|s.taken|] == s.queue[0]
    ensures LastLeft(DoTake(s, t, PcOf(s, t)), frames, least)
  {
    var end := DoTake(s, t, PcOf(s, t));
    assert Asks(s.pcs[t], least);
    if PcOf(end, t).Keep? {
      assert |frames[|s.taken|]| > least;
    }
  }

  lemma LastLeftOther(s: Reader, a: Action, frames: seq<seq<byte>>, least: nat)
    requires LastLeft(s, frames, least) && Enabled(s, a) && (a.Begin? ==> a.max >= least)
    requires a.Receive? ==> s.queue == []
    ensures LastLeft(Apply(s, a), frames, least)
  {
    var end := Apply(s, a);
    assert end.taken == s.taken;
    forall t | t in end.pcs ensures Asks(end.pcs[t], least) {
      assert t in s.pcs ==> Asks(s.pcs[t], least);
    }
    if NothingLeft(s) {
      assert NothingLeft(end);
    }
  }

  lemma LastLeftStep(s: Reader, t: nat, a: Action, frames: seq<seq<byte>>, least: nat)
    requires LastLeft(s, frames, least) && LongLast(frames, least) && InOrder(s) && s.accepted <= frames
    requires Enabled(s, a) && (a.Begin? ==> a.max >= least)
    ensures LastLeft(Apply(s, a), frames, least) && Safe(s, t, a)
  {
    if a.Receive? && s.queue != [] {
      NextFrame(s, frames);
      LastLeftTake(s, a.t, frames, least);
    } else {
      LastLeftOther(s, a, frames, least);
    }
  }

  // ---------- delivery ----------

  lemma {:induction false} KeptRun(s: Reader, t: nat, actions: seq<Action>, end: Reader, least: nat) returns (u: nat)
    requires Runs(s, actions, end) && Inv(s) && Kept(s, t) && Buffers(actions, least)
    requires (TakeTurns(s, actions) && Turns(s)) ||
             (LongLast(end.accepted, least) && LastLeft(s, end.accepted, least))
    ensures Inv(end) && Kept(end, u)
    decreases |actions|
  {
    u := t;
    if actions != [] {
      var a, next := actions[0], Apply(s, actions[0]);
      AcceptedGrowsRun(s, actions, end);
      InvStep(s, a);
      if TakeTurns(s, actions) && Turns(s) {
        TurnsStep(s, t, a);
      } else {
        LastLeftStep(s, t, a, end.accepted, least);
      }
      u := KeptStep(s, t, a);
      u := KeptRun(next, u, actions[1..], end, least);
    }
  }

  /** Any number of callers get exactly the bytes accepted, in order, if their calls take turns, and also if they
      overlap but no frame longer than the smallest buffer has data behind it. */
  lemma SharedDelivery(actions: seq<Action>, end: Reader, least: nat)
    requires Runs(Fresh(), actions, end) && Buffers(actions, least)
    requires TakeTurns(Fresh(), actions) || LongLast(end.accepted, least)
    ensures !Scrambled(end)
  {
    var t := KeptRun(Fresh(), 0, actions, end, least);
    if AtRest(end) {
      assert HeldBy(end, t) == [];
      assert end.returned + [] == end.returned;
      FlattenAppend(end.sent + end.hand, end.dropped);
      FlattenAppend(end.sent, end.hand);
      FlattenAppend(end.taken, end.queue);
    }
  }

  // ---------- how bytes are lost ----------

  /** Some run delivers just these frames and scrambles them. */
  ghost predicate CanScramble(frames: seq<seq<byte>>, mayOverlap: bool) {
    exists actions, end ::
      && Runs(Fresh(), actions, end) && end.accepted == frames
      && (mayOverlap || TakeTurns(Fresh(), actions)) && Scrambled(end)
  }

  /** Two callers with buffers of one byte: the second overwrites what the first has left. */
  lemma TwoReaders() returns (actions: seq<Action>, end: Reader)
    ensures Runs(Fresh(), actions, end) && AtRest(end) && Buffers(actions, 1)
    ensures end.accepted == [[1, 2], [3, 4]] && end.returned == [1, 3] && end.buffer == [4] && end.queue == []
  {
    var mid := Hoard(Fresh(), 0, [1, 2], 1);
    var last := Hoard(mid, 1, [3, 4], 1);
    var s := Apply(last, Finish(0));
    end := Apply(s, Finish(1));
    Step(s, Finish(1), [], end);
    Step(last, Finish(0), [Finish(1)], end);
    RunsAppend(mid, HoardSteps(1, [3, 4], 1), last, [Finish(0)] + [Finish(1)], end);
    actions := HoardSteps(0, [1, 2], 1) + (HoardSteps(1, [3, 4], 1) + ([Finish(0)] + [Finish(1)]));
    RunsAppend(Fresh(), HoardSteps(0, [1, 2], 1), mid, HoardSteps(1, [3, 4], 1) + ([Finish(0)] + [Finish(1)]), end);
  }

  function HoardSteps(t: nat, data: seq<byte>, max: nat): seq<Action> {
    [Accept(data), Send, Begin(t, max), Receive(t)]
  }

  /** Nothing is on its way, and the stream is open. */
  predicate Empty(s: Reader) {
    s.queue == [] && s.hand == [] && s.buffer == [] && !s.closed && !s.chanClosed && !s.panicked && s.dropped == []
  }

  /** Where a call stands that has taken this frame. */
  function After(data: seq<byte>, max: nat): Pc {
    if data == [] then Mark else if |data| > max then Keep(data[max..]) else Idle
  }

  /** A frame arrives and caller t takes it, but does not get to its last critical section. */
  lemma Hoard(s: Reader, t: nat, data: seq<byte>, max: nat) returns (end: Reader)
    requires Empty(s) && PcOf(s, t).Idle?
    ensures Runs(s, HoardSteps(t, data, max), end) && Empty(end)
    ensures end.accepted == s.accepted + [data] && end.returned == s.returned + data[..Min(max, |data|)]
    ensures end.pcs == s.pcs[t := After(data, max)]
  {
    var s1 := Apply(s, Accept(data));
    var s2 := Apply(s1, Send);
    var s3 := Apply(s2, Begin(t, max));
    end := Apply(s3, Receive(t));
    Step(s3, Receive(t), [], end);
    Step(s2, Begin(t, max), [Receive(t)], end);
    Step(s1, Send, [Begin(t, max), Receive(t)], end);
    Step(s, Accept(data), [Send, Begin(t, max), Receive(t)], end);
    assert [Accept(data)] + [Send, Begin(t, max), Receive(t)] == HoardSteps(t, data, max);
  }

  /** Caller k has the k-th of these frames, whole, and nobody has returned. */
  predicate Hoarded(s: Reader, frames: seq<seq<byte>>) {
    && (forall k :: k in s.pcs ==> k < |frames|)
    && (forall k: nat :: k < |frames| ==> k in s.pcs && s.pcs[k] == After(frames[k], 0))
    && s.accepted == frames && s.returned == [] && Empty(s)
  }

  /** Every frame is taken by a caller of its own. */
  lemma {:induction false} HoardAll(frames: seq<seq<byte>>) returns (actions: seq<Action>, end: Reader)
    ensures Runs(Fresh(), actions, end) && Hoarded(end, frames)
    decreases |frames|
  {
    if frames == [] {
      actions, end := [], Fresh();
    } else {
      var n := |frames| - 1;
      var before, mid := HoardAll(frames[..n]);
      end := Hoard(mid, n, frames[n], 0);
      RunsAppend(Fresh(), before, mid, HoardSteps(n, frames[n], 0), end);
      actions := before + HoardSteps(n, frames[n], 0);
      assert frames == frames[..n] + [frames[n]];
    }
  }

  /** The calls before the n-th have returned, and no more than one frame is left. */
  predicate Released(s: Reader, frames: seq<seq<byte>>, n: nat)
    requires n <= |frames|
  {
    && (forall k :: k in s.pcs ==> k < |frames|)
    && (forall k: nat :: k < n ==> k in s.pcs && s.pcs[k].Idle?)
    && (forall k: nat :: n <= k < |frames| ==> k in s.pcs && s.pcs[k] == After(frames[k], 0))
    && s.accepted == frames && s.returned == [] && s.queue == [] && s.hand == [] && s.dropped == [] && !s.panicked
    && (s.buffer == [] || s.buffer in frames)
  }

  /** The calls return, one after the other. */
  lemma {:induction false} ReleaseAll(s: Reader, frames: seq<seq<byte>>, n: nat)
    returns (actions: seq<Action>, end: Reader)
    requires n <= |frames| && Released(s, frames, n)
    ensures Runs(s, actions, end) && Released(end, frames, |frames|)
    decreases |frames| - n
  {
    if n == |frames| {
      actions, end := [], s;
    } else {
      var next := Apply(s, Finish(n));
      assert frames[n][0..] == frames[n];
      var others;
      others, end := ReleaseAll(next, frames, n + 1);
      Step(s, Finish(n), others, end);
      actions := [Finish(n)] + others;
    }
  }

  /** Two frames with data are longer than either. */
  lemma {:induction false} OneIsLess(frames: seq<seq<byte>>, i: nat, j: nat, k: nat)
    requires i < j < |frames| && frames[i] != [] && frames[j] != [] && k < |frames|
    ensures |frames[k]| < |Flatten(frames)|
  {
    var other := if k == i then j else i;
    var low, high := if k < other then k else other, if k < other then other else k;
    FlattenAppend(frames[..high], frames[high..]);
    assert frames == frames[..high] + frames[high..];
    FlattenAppend(frames[..high][..low], frames[..high][low..]);
    assert frames[..high] == frames[..high][..low] + frames[..high][low..];
  }

  /** What is left at the end is not all that was accepted. */
  lemma LeftIsLess(s: Reader, frames: seq<seq<byte>>)
    requires Released(s, frames, |frames|) && !LongLast(frames, 0)
    ensures Scrambled(s)
  {
    var i: nat, j: nat :| i < j < |frames| && |frames[i]| > 0 && frames[j] != [];
    OneIsLess(frames, i, j, i);
    if s.buffer != [] {
      var k: nat :| k < |frames| && frames[k] == s.buffer;
      OneIsLess(frames, i, j, k);
    }
    assert |s.returned + s.buffer + Flatten(s.queue) + Flatten(s.hand) + Flatten(s.dropped)| == |s.buffer|;
  }

  lemma ScramblingRun(frames: seq<seq<byte>>)
    requires !LongLast(frames, 0)
    ensures CanScramble(frames, true)
  {
    var before, mid := HoardAll(frames);
    var after, end := ReleaseAll(mid, frames, 0);
    RunsAppend(Fresh(), before, mid, after, end);
    LeftIsLess(end, frames);
  }

  /** The exact condition. Whatever frames the peer sends, bytes can be lost or misplaced if and only if Read calls
      may overlap and two of the frames have data. */
  lemma ScrambledIff(frames: seq<seq<byte>>, mayOverlap: bool)
    ensures CanScramble(frames, mayOverlap) <==> mayOverlap && !LongLast(frames, 0)
  {
    if mayOverlap && !LongLast(frames, 0) {
      ScramblingRun(frames);
    } else {
      forall actions, end | Runs(Fresh(), actions, end) && end.accepted == frames
                            && (mayOverlap || TakeTurns(Fresh(), actions))
        ensures !Scrambled(end)
      {
        SharedDelivery(actions, end, 0);
      }
    }
  }
}
