/**
 The client's run handles, over every interleaving of Run, the event dispatcher, cancelled contexts
 and Close. A handle is registered before the request is sent; whoever learns of the end of the run
 calls complete, whose body is guarded by a sync.Once.
 */
module RunHandles {
  type RunId = string

  datatype Outcome =
    | Succeeded
    | ExecutionCanceled
    | ExecutionFailed
    | ContextDone
    | ConnectionClosed

  datatype Status =
    | StatusRunning
    | StatusCompleted
    | StatusFailed
    | StatusCanceled

  datatype ExitCode = NoCode | Code(code: int)

  /** The two values complete sends. */
  datatype Result = Result(outcome: Outcome, exitCode: int)

  /** completeFromStatus */
  function FromStatus(status: Status, exit: ExitCode): Result
    requires !status.StatusRunning?
  {
    var code := if exit.Code? then exit.code else -1;
    match status
    case StatusCompleted => Result(Succeeded, code)
    case StatusCanceled => Result(ExecutionCanceled, -1)
    case StatusFailed => Result(ExecutionFailed, code)
  }

  /** A channel with one slot. */
  datatype Chan<T> = Chan(slot: seq<T>, closed: bool, sent: seq<T>)

  /** The sync.Once of a handle, with the call that runs or ran its body and what that does next. */
  datatype Once =
    | NotBegun
    | Running(call: nat, stage: nat)
    | Finished(call: nat)

  datatype Handle = Handle(once: Once, exit: Chan<int>, done: Chan<Outcome>)

  function NewHandle(): Handle { Handle(NotBegun, Chan([], false, []), Chan([], false, [])) }

  /** Who calls complete: all but Close unregister the handle afterwards. */
  datatype Source = EventHandler | ContextWatcher | Closer

  datatype Progress = Waiting | Inside | Returned

  /** A call of complete. */
  datatype Call = Call(run: RunId, result: Result, source: Source, progress: Progress)

  /** Where Run stands. */
  datatype RunState = Registered | Requested | Accepted(cancelable: bool) | Failed

  datatype Client = Client(
    handles: map<RunId, Handle>,      // every handle ever created
    registry: set<RunId>,             // the handles the event handler knows
    runs: map<RunId, RunState>,
    calls: seq<Call>,
    // history
    requested: set<RunId>,            // requests that went out
    looked: set<RunId>)               // runs whose terminal event was looked up by the event handler

  function Fresh(): Client { Client(map[], {}, map[], [], {}, {}) }

  datatype Action =
    | Register(run: RunId)
    | Request(run: RunId)
    | Accept(run: RunId, cancelable: bool)       // Run returns the handle
    | Fail(run: RunId)                           // Run returns an error and unregisters
    | Event(run: RunId, status: Status, exit: ExitCode)
    | CancelContext(run: RunId)
    | Close(order: seq<RunId>)                   // completeAll: snapshot, in map order, and clear
    | Advance(i: nat)                            // the next step of a call of complete
    | TakeExit(run: RunId)
    | TakeDone(run: RunId)

  predicate Enabled(s: Client, a: Action) {
    match a
    case Register(run) => run !in s.handles                  // run IDs are distinct
    case Request(run) => run in s.runs && s.runs[run].Registered?
    case Accept(run, _) => run in s.runs && s.runs[run].Requested?
    case Fail(run) => run in s.runs && (s.runs[run].Registered? || s.runs[run].Requested?)
    // the server speaks of a run only after it was asked for it
    case Event(run, status, _) => run in s.requested && !status.StatusRunning?
    case CancelContext(run) => run in s.runs && s.runs[run] == Accepted(true) && run in s.handles
    case Close(order) => (forall run :: run in order ==> run in s.registry) && (forall run :: run in s.registry ==>
            run in order)
    case Advance(i) => i < |s.calls| && s.calls[i].run in s.handles
            && CanAdvance(s.handles[s.calls[i].run], s.calls[i].progress)
    case TakeExit(run) => run in s.handles && s.handles[run].exit.slot != []
    case TakeDone(run) => run in s.handles && s.handles[run].done.slot != []
  }

  /** A call waits while another runs the body; inside, it needs the channels to be ready. */
  predicate CanAdvance(h: Handle, p: Progress) {
    match p
    case Waiting => !h.once.Running?
    case Inside => h.once.Running? && CanDo(h, h.once.stage)
    case Returned => false
  }

  /** The body of complete does not block or panic at this stage: 1 sends the exit code, 2 the
      outcome, 3 closes the first channel, 4 the second. */
  predicate CanDo(h: Handle, stage: nat) {
    match stage
    case 1 => h.exit.slot == [] && !h.exit.closed
    case 2 => h.done.slot == [] && !h.done.closed
    case 3 => !h.exit.closed
    case 4 => !h.done.closed
    case _ => false
  }

  function Send<T>(c: Chan<T>, x: T): Chan<T> { c.(slot := c.slot + [x], sent := c.sent + [x]) }

  function Do(h: Handle, call: nat, stage: nat, result: Result): Handle {
    match stage
    case 1 => h.(exit := Send(h.exit, result.exitCode), once := Running(call, 2))
    case 2 => h.(done := Send(h.done, result.outcome), once := Running(call, 3))
    case 3 => h.(exit := h.exit.(closed := true), once := Running(call, 4))
    case _ => h.(done := h.done.(closed := true), once := Finished(call))
  }

  function Take<T>(c: Chan<T>): Chan<T>
    requires c.slot != []
  {
    c.(slot := c.slot[1..])
  }

  function AddCall(s: Client, c: Call): Client { s.(calls := s.calls + [c]) }

  /** What completeAll does for the handles it found. */
  function CloseCalls(order: seq<RunId>): seq<Call> {
    seq(|order|, i requires 0 <= i < |order| => Call(order[i], Result(ConnectionClosed, -1), Closer, Waiting))
  }

  /** A call returns; unless Close made it, the handle is unregistered. */
  function Return(s: Client, i: nat): Client
    requires i < |s.calls|
  {
    var c := s.calls[i];
    s.(calls := s.calls[i := c.(progress := Returned)],
    registry := if c.source.Closer? then s.registry else s.registry - {c.run})
  }

  function Step(s: Client, i: nat): Client
    requires Enabled(s, Advance(i))
  {
    var c := s.calls[i];
    var h := s.handles[c.run];
    if c.progress.Waiting? then
      if h.once.Finished? then Return(s, i)
      else s.(calls := s.calls[i := c.(progress := Inside)], handles := s.handles[c.run := h.(once := Running(i, 1))])
    else
      var h' := Do(h, i, h.once.stage, c.result);
      var s := s.(handles := s.handles[c.run := h']);
      if h'.once.Finished? then Return(s, i) else s
  }

  function Apply(s: Client, a: Action): Client
    requires Enabled(s, a)
  {
    match a
    case Register(run) =>
      s.(handles := s.handles[run := NewHandle()], registry := s.registry + {run}, runs := s.runs[run := Registered])
    case Request(run) => s.(runs := s.runs[run := Requested], requested := s.requested + {run})
    case Accept(run, cancelable) => s.(runs := s.runs[run := Accepted(cancelable)])
    case Fail(run) => s.(runs := s.runs[run := Failed], registry := s.registry - {run})
    case Event(run, status, exit) =>
      var s := s.(looked := s.looked + {run});
      if run in s.registry then AddCall(s, Call(run, FromStatus(status, exit), EventHandler, Waiting)) else s
    case CancelContext(run) => AddCall(s, Call(run, Result(ContextDone, -1), ContextWatcher, Waiting))
    case Close(order) => s.(registry := {}, calls := s.calls + CloseCalls(order))
    case Advance(i) => Step(s, i)
    case TakeExit(run) =>
      var h := s.handles[run];
      s.(handles := s.handles[run := h.(exit := Take(h.exit))])
    case TakeDone(run) =>
      var h := s.handles[run];
      s.(handles := s.handles[run := h.(done := Take(h.done))])
  }

  predicate Runs(s: Client, actions: seq<Action>, end: Client)
    decreases |actions|
  {
    if actions == [] then s == end
    else Enabled(s, actions[0]) && Runs(Apply(s, actions[0]), actions[1..], end)
  }

  // ---------- one completion ----------

  /** How far the body of complete has got. */
  function Stage(o: Once): nat {
    match o
    case NotBegun => 1
    case Running(_, stage) => stage
    case Finished(_) => 5
  }

  predicate ChanOk<T(==)>(c: Chan<T>, sent: bool, closed: bool) {
    && |c.sent| == (if sent then 1 else 0)
    && c.closed == closed
    && (!sent ==> c.slot == [])
  }

  /** Each channel has got its one value exactly if the body is past its send, and is closed exactly
      if the body is past its close, which comes later. */
  predicate HandleOk(h: Handle) {
    && 1 <= Stage(h.once) <= 5 && (h.once.Running? ==> h.once.stage <= 4)
    && ChanOk(h.exit, Stage(h.once) > 1, Stage(h.once) > 3)
    && ChanOk(h.done, Stage(h.once) > 2, Stage(h.once) > 4)
  }

  /** The values sent so far are those of this call. */
  predicate Delivered(h: Handle, r: Result) {
    && (Stage(h.once) > 1 ==> h.exit.sent == [r.exitCode])
    && (Stage(h.once) > 2 ==> h.done.sent == [r.outcome])
  }

  /** The Once names a call about this run, which is inside while the body runs, and whose values the
      channels get. */
  predicate OwnerOk(s: Client, run: RunId)
    requires run in s.handles
  {
    var h := s.handles[run];
    !h.once.NotBegun? ==>
      && h.once.call < |s.calls| && s.calls[h.once.call].run == run
      && s.calls[h.once.call].progress == (if h.once.Running? then Inside else Returned)
      && Delivered(h, s.calls[h.once.call].result)
  }

  /** A call is inside only as the Once says, and returns only once the body has run. */
  predicate CallOk(s: Client, c: Call, i: nat) {
    && c.run in s.handles
    && var o := s.handles[c.run].once;
       && (c.progress.Inside? ==> o.Running? && o.call == i)
       && (c.progress.Returned? ==> o.Finished?)
  }

  predicate HandlesOk(s: Client) {
    forall run :: run in s.handles ==> HandleOk(s.handles[run]) && OwnerOk(s, run)
  }

  predicate CallsOk(s: Client) {
    forall i :: 0 <= i < |s.calls| ==> CallOk(s, s.calls[i], i)
  }

  lemma DoOk(h: Handle, call: nat, r: Result)
    requires HandleOk(h) && h.once == Running(call, Stage(h.once)) && CanDo(h, h.once.stage) && Delivered(h, r)
    ensures var end := Do(h, call, h.once.stage, r);
            && HandleOk(end) && Delivered(end, r)
            && (end.once.Running? || end.once.Finished?) && end.once.call == call
  {
  }

  lemma AdvanceHandles(s: Client, i: nat)
    requires HandlesOk(s) && CallsOk(s) && Enabled(s, Advance(i))
    ensures HandlesOk(Step(s, i))
  {
    var c := s.calls[i];
    var h := s.handles[c.run];
    assert CallOk(s, c, i) && HandleOk(h) && OwnerOk(s, c.run);
    if c.progress.Inside? {
      DoOk(h, i, c.result);
    }
    var end := Step(s, i);
    forall run | run in end.handles ensures HandleOk(end.handles[run]) && OwnerOk(end, run) {
      assert HandleOk(s.handles[run]) && OwnerOk(s, run);
    }
  }

  lemma AdvanceCalls(s: Client, i: nat)
    requires HandlesOk(s) && CallsOk(s) && Enabled(s, Advance(i))
    ensures CallsOk(Step(s, i))
  {
    var c := s.calls[i];
    var end := Step(s, i);
    forall j | 0 <= j < |end.calls| ensures CallOk(end, end.calls[j], j) {
      assert CallOk(s, s.calls[j], j) && CallOk(s, c, i);
    }
  }

  /** Steps that add waiting calls or handles, or change nothing about them. */
  lemma GrowOk(s: Client, end: Client)
    requires HandlesOk(s) && CallsOk(s)
    requires s.calls <= end.calls
    requires forall i :: |s.calls| <= i < |end.calls| ==>
            end.calls[i].progress.Waiting? && end.calls[i].run in s.handles
    requires s.handles.Keys <= end.handles.Keys
    requires forall run :: run in s.handles ==>
      && HandleOk(end.handles[run]) && end.handles[run].once == s.handles[run].once
      && end.handles[run].exit.sent == s.handles[run].exit.sent
          && end.handles[run].done.sent == s.handles[run].done.sent
    requires forall run :: run in end.handles && run !in s.handles ==> end.handles[run] == NewHandle()
    ensures HandlesOk(end) && CallsOk(end)
  {
    forall run | run in end.handles ensures HandleOk(end.handles[run]) && OwnerOk(end, run) {
      assert run in s.handles ==> OwnerOk(s, run);
    }
    forall j | 0 <= j < |end.calls| ensures CallOk(end, end.calls[j], j) {
      assert j < |s.calls| ==> CallOk(s, s.calls[j], j);
    }
  }

  lemma OtherOk(s: Client, a: Action)
    requires HandlesOk(s) && CallsOk(s) && s.registry <= s.handles.Keys && Enabled(s, a) && !a.Advance?
    ensures HandlesOk(Apply(s, a)) && CallsOk(Apply(s, a))
  {
    if a.TakeExit? || a.TakeDone? {
      assert HandleOk(s.handles[a.run]);
    }
    GrowOk(s, Apply(s, a));
  }

  // ---------- no terminal event is lost ----------

  predicate HasCall(s: Client, run: RunId) {
    exists i :: 0 <= i < |s.calls| && s.calls[i].run == run
  }

  /** A handle is known to the event handler until a call of complete is made for it, or Run fails. */
  predicate Known(s: Client) {
    && s.runs.Keys == s.handles.Keys
    && s.registry <= s.handles.Keys && s.requested <= s.handles.Keys
    && (forall run :: run in s.handles ==> run in s.registry || s.runs[run].Failed? || HasCall(s, run))
    && (forall run :: run in s.looked ==> run in s.handles && (s.runs[run].Failed? || HasCall(s, run)))
  }

  lemma HasCallAppend(s: Client, end: Client)
    requires |s.calls| <= |end.calls| && forall i :: 0 <= i < |s.calls| ==> end.calls[i].run == s.calls[i].run
    ensures forall run :: HasCall(s, run) ==> HasCall(end, run)
  {
    forall run | HasCall(s, run) ensures HasCall(end, run) {
      var i :| 0 <= i < |s.calls| && s.calls[i].run == run;
      assert end.calls[i].run == run;
    }
  }

  lemma KnownStep(s: Client, a: Action)
    requires Known(s) && Enabled(s, a)
    ensures Known(Apply(s, a))
  {
    match a
    case Event(run, status, exit) =>
      HasCallAppend(s, Apply(s, a));
      if run in s.registry {
        assert Apply(s, a).calls[|s.calls|].run == run;
      }
    case Close(order) => KnownClose(s, order);
    case Advance(i) => HasCallAppend(s, Apply(s, a));
    case _ => HasCallAppend(s, Apply(s, a));
  }

  lemma KnownClose(s: Client, order: seq<RunId>)
    requires Known(s) && Enabled(s, Close(order))
    ensures Known(Apply(s, Close(order)))
  {
    var end := Apply(s, Close(order));
    HasCallAppend(s, end);
    forall run | run in s.registry ensures HasCall(end, run) {
      var k :| 0 <= k < |order| && order[k] == run;
      assert end.calls[|s.calls| + k].run == run;
    }
  }

  // ---------- whole runs ----------

  predicate Inv(s: Client) { HandlesOk(s) && CallsOk(s) && Known(s) }

  lemma InvStep(s: Client, a: Action)
    requires Inv(s) && Enabled(s, a)
    ensures Inv(Apply(s, a))
  {
    KnownStep(s, a);
    if a.Advance? {
      AdvanceHandles(s, a.i);
      AdvanceCalls(s, a.i);
    } else {
      OtherOk(s, a);
    }
  }

  lemma {:induction false} InvRun(s: Client, actions: seq<Action>, end: Client)
    requires Inv(s) && Runs(s, actions, end)
    ensures Inv(end)
    decreases |actions|
  {
    if actions != [] {
      InvStep(s, actions[0]);
      InvRun(Apply(s, actions[0]), actions[1..], end);
    }
  }

  /** Single completion. Whoever completes a handle, and however often, each of its two channels gets
      at most one value and is closed only after getting it; the two values come from the same call.
      The body of complete never blocks and never panics. */
  lemma SingleCompletion(actions: seq<Action>, end: Client, run: RunId)
    requires Runs(Fresh(), actions, end) && run in end.handles
    ensures var h := end.handles[run];
            && |h.exit.sent| <= 1 && |h.done.sent| <= 1
            && (h.exit.closed ==> |h.exit.sent| == 1) && (h.done.closed ==> |h.done.sent| == 1)
            && (h.once.Running? ==> CanDo(h, h.once.stage))
            && (h.done.closed ==> exists i :: 0 <= i < |end.calls| && end.calls[i].run == run
                                              && h.exit.sent == [end.calls[i].result.exitCode]
                                              && h.done.sent == [end.calls[i].result.outcome])
  {
    InvRun(Fresh(), actions, end);
    assert HandleOk(end.handles[run]) && OwnerOk(end, run);
  }

  /** A call of complete that has not returned can take a step, or the call it waits for can. */
  lemma CompleteNeverHangs(actions: seq<Action>, end: Client, i: nat)
    requires Runs(Fresh(), actions, end) && i < |end.calls| && !end.calls[i].progress.Returned?
    ensures exists j: nat :: Enabled(end, Advance(j)) && end.calls[j].run == end.calls[i].run
  {
    InvRun(Fresh(), actions, end);
    assert CallOk(end, end.calls[i], i);
    var run := end.calls[i].run;
    assert HandleOk(end.handles[run]) && OwnerOk(end, run);
    var o := end.handles[run].once;
    assert Enabled(end, Advance(if o.Running? then o.call else i));
  }

  /** No terminal event is lost. Once the event handler has looked up the handle of a run whose
      terminal event arrived - even before Run has returned - and the calls of complete have
      returned, both channels of the handle have got their value and are closed, unless Run itself
      reported an error. */
  lemma TerminalEventCompletes(actions: seq<Action>, end: Client, run: RunId)
    requires Runs(Fresh(), actions, end) && run in end.looked
    requires forall i :: 0 <= i < |end.calls| && end.calls[i].run == run ==> end.calls[i].progress.Returned?
    ensures run in end.runs && run in end.handles
    ensures end.runs[run].Failed?
            || (|end.handles[run].exit.sent| == |end.handles[run].done.sent| == 1
                && end.handles[run].exit.closed && end.handles[run].done.closed)
  {
    InvRun(Fresh(), actions, end);
    if !end.runs[run].Failed? {
      var i :| 0 <= i < |end.calls| && end.calls[i].run == run;
      assert CallOk(end, end.calls[i], i) && HandleOk(end.handles[run]);
    }
  }
}
