/**
 The receiving half of one multiplexed stream, at the granularity of its critical sections.

 readLoop hands frames to WriteData, which checks `closed` under the lock and then, in a separate
 step, sends on dataChan. Any number of Read calls run at the same time, each a little program of
 its own (Pc). Close sets the flag under the lock and closes the channel afterwards. A zero-length
 frame is the in-band end-of-file marker.
 */
module StreamReader {
  import opened Bytes

  /** The buffer size of dataChan. */
  const CAPACITY: nat := 10000

  /** Where one Read call stands, for a caller's buffer of size max. */
  datatype Pc =
    | Idle
    | Poll(max: nat)         // found the stream open; about to do the non-blocking select
    | Wait(max: nat)         // in the blocking select over dataChan and errChan
    | Drain(max: nat)        // found the stream closed; about to look for frames still queued
    | DrainMore(max: nat)    // closed, and took the marker; about to look behind it
    | Keep(rest: seq<byte>)  // has its bytes; about to store what did not fit
    | Mark                   // took the marker; about to close the channel under the lock

  /** errChan: one slot. What Read answers with the error that ended the connection is io.EOF if the
      connection ended at a frame boundary. */
  datatype ErrSlot = Vacant | Holds(eof: bool)

  datatype Reader = Reader(
    queue: seq<seq<byte>>,     // dataChan
    chanClosed: bool,
    closed: bool,
    buffer: seq<byte>,         // left over from the last frame taken
    error: ErrSlot,            // errChan
    hand: seq<seq<byte>>,      // the frame WriteData is about to send, if any
    closing: nat,              // Close calls that set the flag and are about to close the channel
    pcs: map<nat, Pc>,         // the Read calls in progress, by caller
    // history
    accepted: seq<seq<byte>>,  // frames handed to WriteData
    sent: seq<seq<byte>>,      // frames put on dataChan
    taken: seq<seq<byte>>,     // frames taken from dataChan
    dropped: seq<seq<byte>>,   // frames discarded because the stream was closed
    returned: seq<byte>,       // bytes returned by Read
    eofs: nat,                 // Read results io.EOF
    cuts: nat,                 // those among them that came out of errChan
    closes: nat,               // how often dataChan was closed
    panicked: bool)            // sent on a closed channel

  function Fresh(): Reader {
    Reader([], false, false, [], Vacant, [], 0, map[], [], [], [], [], [], 0, 0, 0, false)
  }

  datatype Action =
    | Accept(data: seq<byte>)    // WriteData up to the unlock
    | Send                       // WriteData: dataChan <- data
    | Begin(t: nat, max: nat)    // Read: first critical section
    | Receive(t: nat)            // Read: a select that is not answered by errChan
    | TakeError(t: nat)          // Read: the blocking select answered by errChan
    | Finish(t: nat)             // Read: last critical section
    | Fail(eof: bool)            // WriteError
    | CloseFlag                  // Close: the critical section
    | CloseChan                  // Close: close(dataChan)

  function PcOf(s: Reader, t: nat): Pc {
    if t in s.pcs then s.pcs[t] else Idle
  }

  predicate Enabled(s: Reader, a: Action) {
    !s.panicked &&
    match a
    case Accept(_) => s.hand == []
    case Send => s.hand != [] && (s.chanClosed || |s.queue| < CAPACITY)
    case Begin(t, _) => PcOf(s, t).Idle?
    case Receive(t) =>
      var pc := PcOf(s, t);
      pc.Poll? || pc.Drain? || pc.DrainMore? || (pc.Wait? && (s.queue != [] || s.chanClosed))
    case TakeError(t) => PcOf(s, t).Wait? && s.error.Holds?
    case Finish(t) => PcOf(s, t).Keep? || PcOf(s, t).Mark?
    case Fail(_) => true
    case CloseFlag => true
    case CloseChan => s.closing > 0
  }

  /** WriteData up to the unlock: a closed stream discards the frame. */
  function DoAccept(s: Reader, data: seq<byte>): Reader {
    var s := s.(accepted := s.accepted + [data]);
    if s.closed then s.(dropped := s.dropped + [data]) else s.(hand := [data])
  }

  function DoSend(s: Reader): Reader
    requires s.hand != []
  {
    if s.chanClosed then s.(panicked := true)
    else s.(queue := s.queue + s.hand, sent := s.sent + s.hand, hand := [])
  }

  /** The first critical section of Read: serve from the buffer, or go on to the channel. */
  function DoBegin(s: Reader, t: nat, max: nat): Reader {
    if s.buffer != [] then
      var n := Min(max, |s.buffer|);
      s.(returned := s.returned + s.buffer[..n], buffer := s.buffer[n..])
    else s.(pcs := s.pcs[t := if s.closed then Drain(max) else Poll(max)])
  }

  /** A select that finds a frame. */
  function DoTake(s: Reader, t: nat, pc: Pc): Reader
    requires s.queue != []
    requires pc.Poll? || pc.Wait? || pc.Drain? || pc.DrainMore?
  {
    var data := s.queue[0];
    var n := Min(pc.max, |data|);
    var next :=
      if data != [] then (if n < |data| then Keep(data[n..]) else Idle)
      else if pc.Drain? then DrainMore(pc.max)
      else if pc.DrainMore? then Idle
      else Mark;
    s.(queue := s.queue[1..], taken := s.taken + [data], returned := s.returned + data[..n],
    eofs := if data == [] && pc.DrainMore? then s.eofs + 1 else s.eofs, pcs := s.pcs[t := next])
  }

  /** A select that finds no frame: end of file, or nothing yet. */
  function DoMiss(s: Reader, t: nat, pc: Pc): Reader
    requires pc.Poll? || pc.Wait? || pc.Drain? || pc.DrainMore?
  {
    if s.chanClosed || pc.Drain? || pc.DrainMore? then s.(pcs := s.pcs[t := Idle], eofs := s.eofs + 1)
    else s.(pcs := s.pcs[t := Wait(pc.max)])
  }

  /** The blocking select answered by errChan: Read returns the error as it is. */
  function DoTakeError(s: Reader, t: nat): Reader
    requires s.error.Holds?
  {
    var cut := if s.error.eof then 1 else 0;
    s.(pcs := s.pcs[t := Idle], error := Vacant, eofs := s.eofs + cut, cuts := s.cuts + cut)
  }

  function DoFinish(s: Reader, t: nat, pc: Pc): Reader {
    var s := s.(pcs := s.pcs[t := Idle]);
    if pc.Keep? then s.(buffer := pc.rest)
    else if s.closed then s.(eofs := s.eofs + 1)
    else s.(closed := true, chanClosed := true, closes := s.closes + 1, eofs := s.eofs + 1)
  }

  function Apply(s: Reader, a: Action): Reader
    requires Enabled(s, a)
  {
    match a
    case Accept(data) => DoAccept(s, data)
    case Send => DoSend(s)
    case Begin(t, max) => DoBegin(s, t, max)
    case Receive(t) => if s.queue != [] then DoTake(s, t, PcOf(s, t)) else DoMiss(s, t, PcOf(s, t))
    case TakeError(t) => DoTakeError(s, t)
    case Finish(t) => DoFinish(s, t, PcOf(s, t))
    case Fail(eof) => if s.closed || s.error.Holds? then s else s.(error := Holds(eof))
    case CloseFlag => if s.closed then s else s.(closed := true, closing := s.closing + 1)
    case CloseChan => s.(closing := s.closing - 1, chanClosed := true, closes := s.closes + 1)
  }

  predicate Runs(s: Reader, actions: seq<Action>, end: Reader)
    decreases |actions|
  {
    if actions == [] then s == end
    else Enabled(s, actions[0]) && Runs(Apply(s, actions[0]), actions[1..], end)
  }

  /** No Close on this side. */
  predicate NoClose(actions: seq<Action>) {
    forall i :: 0 <= i < |actions| ==> !actions[i].CloseFlag?
  }

  /** Caller 0 is the only one that reads. */
  predicate OneReader(actions: seq<Action>) {
    forall i :: 0 <= i < |actions| ==>
      match actions[i]
      case Begin(t, _) => t == 0
      case Receive(t) => t == 0
      case TakeError(t) => t == 0
      case Finish(t) => t == 0
      case _ => true
  }

  /** The connection does not end at a frame boundary. */
  predicate NoCut(actions: seq<Action>) {
    forall i :: 0 <= i < |actions| ==> actions[i] != Fail(true)
  }

  /** The peer sent nothing after its marker. */
  predicate WellEnded(frames: seq<seq<byte>>) {
    forall i :: 0 <= i < |frames| - 1 ==> frames[i] != []
  }

  predicate Ended(frames: seq<seq<byte>>) {
    frames != [] && frames[|frames| - 1] == []
  }

  lemma {:induction false} RunsAppend(s: Reader, a: seq<Action>, mid: Reader, b: seq<Action>, end: Reader)
    requires Runs(s, a, mid) && Runs(mid, b, end)
    ensures Runs(s, a + b, end)
    decreases |a|
  {
    if a == [] {
      assert a + b == b;
    } else {
      assert (a + b)[1..] == a[1..] + b;
      RunsAppend(Apply(s, a[0]), a[1..], mid, b, end);
    }
  }

  // ---------- one Read call without interference ----------

  function Rank(pc: Pc): nat {
    match pc
    case Idle => 0
    case Keep(_) => 1
    case Mark => 1
    case Wait(_) => 2
    case DrainMore(_) => 2
    case Poll(_) => 3
    case Drain(_) => 3
  }

  /** Caller 0 goes on alone until its call returns or blocks. */
  function Solo(s: Reader): Reader
    requires !s.panicked
    decreases Rank(PcOf(s, 0))
  {
    var pc := PcOf(s, 0);
    if pc.Idle? then s
    else if pc.Keep? || pc.Mark? then Solo(Apply(s, Finish(0)))
    else if pc.Wait? && s.queue == [] && !s.chanClosed then
      if s.error.Holds? then Apply(s, TakeError(0)) else s
    else Solo(Apply(s, Receive(0)))
  }

  function ReadAlone(s: Reader, max: nat): Reader
    requires Enabled(s, Begin(0, max))
  {
    Solo(Apply(s, Begin(0, max)))
  }

  /** A select that finds data ends the call, with what does not fit left in the buffer. */
  lemma SoloData(s: Reader)
    requires !s.panicked && s.queue != [] && s.queue[0] != [] && s.buffer == []
    requires var pc := PcOf(s, 0); pc.Poll? || pc.Wait? || pc.Drain? || pc.DrainMore?
    ensures var n := Min(PcOf(s, 0).max, |s.queue[0]|);
            var end := Solo(s);
            && end.queue == s.queue[1..] && end.buffer == s.queue[0][n..] && PcOf(end, 0).Idle?
            && end.returned == s.returned + s.queue[0][..n]
            && end.eofs == s.eofs && end.error == s.error
            && end.closed == s.closed && end.chanClosed == s.chanClosed
  {
    var next := Apply(s, Receive(0));
    assert Solo(s) == Solo(next);
    if PcOf(next, 0).Keep? {
      assert Solo(next) == Solo(Apply(next, Finish(0))) == Apply(next, Finish(0));
    }
  }

  /** A select of an open stream that finds the marker closes the stream and answers io.EOF. */
  lemma SoloMarker(s: Reader)
    requires !s.panicked && s.queue != [] && s.queue[0] == [] && s.buffer == [] && !s.closed
    requires PcOf(s, 0).Poll? || PcOf(s, 0).Wait?
    ensures var end := Solo(s);
            && end.queue == s.queue[1..] && end.buffer == [] && PcOf(end, 0).Idle?
            && end.returned == s.returned && end.eofs == s.eofs + 1
            && end.error == s.error && end.closed && end.chanClosed
  {
    var next := Apply(s, Receive(0));
    assert Solo(s) == Solo(next);
    assert Solo(next) == Solo(Apply(next, Finish(0))) == Apply(next, Finish(0));
  }

  lemma {:induction false} SoloIsARun(s: Reader) returns (actions: seq<Action>)
    requires !s.panicked
    ensures Runs(s, actions, Solo(s)) && OneReader(actions) && NoClose(actions)
    decreases Rank(PcOf(s, 0))
  {
    var pc := PcOf(s, 0);
    if pc.Idle? || (pc.Wait? && s.queue == [] && !s.chanClosed && s.error.Vacant?) {
      actions := [];
    } else if pc.Wait? && s.queue == [] && !s.chanClosed {
      actions := [TakeError(0)];
      assert Runs(Apply(s, TakeError(0)), actions[1..], Solo(s));
    } else {
      var a := if pc.Keep? || pc.Mark? then Finish(0) else Receive(0);
      var others := SoloIsARun(Apply(s, a));
      actions := [a] + others;
      assert actions[1..] == others;
    }
  }

  // ---------- what every run keeps ----------

  /** The channel is closed by whoever set the flag, at most once. */
  predicate ClosedOnce(s: Reader) {
    && s.closes == (if s.chanClosed then 1 else 0)
    && s.closing == (if s.closed && !s.chanClosed then 1 else 0)
    && (s.chanClosed ==> s.closed)
    && (s.panicked ==> s.hand != [] && s.chanClosed)
  }

  /** Frames pass through the channel in order; they are discarded only once the stream is closed. */
  predicate InOrder(s: Reader) {
    && |s.hand| <= 1
    && s.accepted == s.sent + s.hand + s.dropped
    && (s.dropped != [] ==> s.closed)
    && s.sent == s.taken + s.queue
  }

  predicate Inv(s: Reader) { ClosedOnce(s) && InOrder(s) }

  lemma InOrderAccept(s: Reader, data: seq<byte>)
    requires InOrder(s) && s.hand == []
    ensures InOrder(DoAccept(s, data))
  {
    Assoc(s.sent + [], s.dropped, [data]);
  }

  lemma InOrderSend(s: Reader)
    requires InOrder(s) && s.hand != []
    ensures InOrder(DoSend(s))
  {
    Assoc(s.taken, s.queue, s.hand);
    assert s.sent + s.hand + [] == s.sent + s.hand;
  }

  lemma InOrderTake(s: Reader, t: nat, pc: Pc)
    requires InOrder(s) && s.queue != []
    requires pc.Poll? || pc.Wait? || pc.Drain? || pc.DrainMore?
    ensures InOrder(DoTake(s, t, pc))
  {
    assert s.queue == [s.queue[0]] + s.queue[1..];
    Assoc(s.taken, [s.queue[0]], s.queue[1..]);
  }

  lemma InvStep(s: Reader, a: Action)
    requires Inv(s) && Enabled(s, a)
    ensures Inv(Apply(s, a))
  {
    match a
    case Accept(data) => InOrderAccept(s, data);
    case Send => InOrderSend(s);
    case Receive(t) => if s.queue != [] { InOrderTake(s, t, PcOf(s, t)); }
    case _ =>
  }

  lemma {:induction false} InvRun(s: Reader, actions: seq<Action>, end: Reader)
    requires Inv(s) && Runs(s, actions, end)
    ensures Inv(end)
    decreases |actions|
  {
    if actions != [] {
      InvStep(s, actions[0]);
      InvRun(Apply(s, actions[0]), actions[1..], end);
    }
  }
}
