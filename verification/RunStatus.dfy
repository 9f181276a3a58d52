/**
 The status of raw runs on the server, over every interleaving of the run loop, the monitors, any
 number of cancel requests and Close. Monitors and cancel requests look a run up in the table and go to
 its record in separate critical sections, and a cancel request looks at the status and overwrites it in
 two of them, so another process may end the run in between.
 */
module RunStatus {
  import opened RunHandles

  datatype RunInfo = RunInfo(status: Status, ended: bool, exit: ExitCode)

  function NewRun(): RunInfo { RunInfo(StatusRunning, false, NoCode) }

  /** The monitor's critical section. */
  function Finish(info: RunInfo, code: ExitCode): RunInfo {
    if info.status.StatusRunning? then
      RunInfo(if code.Code? && code.code <= 0 then StatusCompleted else StatusFailed, true, code)
    else info
  }

  /** The second critical section of a cancel request. */
  function Cancel(info: RunInfo): RunInfo { info.(status := StatusCanceled, ended := true) }

  /** What Close does to a run. */
  function ForceCancel(info: RunInfo): RunInfo { if info.status.StatusRunning? then Cancel(info) else info }

  /** A status event about one run record. */
  datatype StatusEvent = StatusEvent(info: nat, status: Status, exit: ExitCode)

  datatype Process =
    | Watching(run: RunId)                     // a monitor before the run's exit
    | Exited(run: RunId, code: ExitCode)       // before it looks the run up
    | Found(info: nat, code: ExitCode)         // before its critical section
    | Reporting(event: StatusEvent)                  // before a monitor sends its event
    | Looking(info: nat)                       // a cancel request that has looked the run up
    | SawRunning(info: nat)                    // one that has found it running
    | Overwrote(info: nat)                     // before a cancel request sends its event
    | Closing(todo: set<nat>)
    | Over

  datatype Server = Server(
    infos: seq<RunInfo>,                       // every run record ever made
    table: map<RunId, nat>,
    processes: seq<Process>,
    // history
    events: seq<StatusEvent>,
    exits: seq<ExitCode>)                      // what the monitors learnt

  function Fresh(): Server { Server([], map[], [], [], []) }

  datatype Action =
    | Start(run: RunId)                        // handleRun got its execution going
    | Cleanup(run: RunId)                      // its response could not be sent
    | Exit(p: nat, code: ExitCode)
    | Find(p: nat)                             // a monitor looks the run up
    | Update(p: nat)
    | Look(run: RunId)                         // a cancel request looks the run up
    | Check(p: nat)                            // and at its status
    | Overwrite(p: nat)
    | Send(p: nat)
    | BeginClose
    | CloseRun(p: nat, info: nat)

  predicate Enabled(s: Server, a: Action) {
    match a
    case Start(run) => run !in s.table
    case Cleanup(run) => true
    case Exit(p, _) => p < |s.processes| && s.processes[p].Watching?
    case Find(p) => p < |s.processes| && s.processes[p].Exited?
    case Update(p) => p < |s.processes| && s.processes[p].Found? && s.processes[p].info < |s.infos|
    case Look(run) => true
    case Check(p) => p < |s.processes| && s.processes[p].Looking? && s.processes[p].info < |s.infos|
    case Overwrite(p) => p < |s.processes| && s.processes[p].SawRunning? && s.processes[p].info < |s.infos|
    case Send(p) =>
      && p < |s.processes| && (s.processes[p].Reporting? || s.processes[p].Overwrote?)
      && (s.processes[p].Overwrote? ==> s.processes[p].info < |s.infos|)
    case BeginClose => true
    case CloseRun(p, info) =>
      p < |s.processes| && s.processes[p].Closing? && info in s.processes[p].todo && info < |s.infos|
  }

  function Go(s: Server, p: nat, next: Process): Server
    requires p < |s.processes|
  {
    s.(processes := s.processes[p := next])
  }

  function Set(s: Server, i: nat, info: RunInfo): Server
    requires i < |s.infos|
  {
    s.(infos := s.infos[i := info])
  }

  function Emit(s: Server, e: StatusEvent): Server { s.(events := s.events + [e]) }

  function Apply(s: Server, a: Action): Server
    requires Enabled(s, a)
  {
    match a
    case Start(run) =>
      s.(infos := s.infos + [NewRun()], table := s.table[run := |s.infos|], processes := s.processes + [Watching(run)])
    case Cleanup(run) => s.(table := s.table - {run})
    case Exit(p, code) => Go(s, p, Exited(s.processes[p].run, code)).(exits := s.exits + [code])
    case Find(p) =>
      var run := s.processes[p].run;
      Go(s, p, if run in s.table then Found(s.table[run], s.processes[p].code) else Over)
    case Update(p) =>
      var i := s.processes[p].info;
      var info := Finish(s.infos[i], s.processes[p].code);
      Set(Go(s, p, Reporting(StatusEvent(i, info.status, info.exit))), i, info)
    case Look(run) =>
      if run in s.table then s.(processes := s.processes + [Looking(s.table[run])]) else s
    case Check(p) =>
      var i := s.processes[p].info;
      Go(s, p, if s.infos[i].status.StatusRunning? then SawRunning(i) else Over)
    case Overwrite(p) =>
      var i := s.processes[p].info;
      Set(Go(s, p, Overwrote(i)), i, Cancel(s.infos[i]))
    case Send(p) =>
      var e := if s.processes[p].Reporting? then s.processes[p].event
               else StatusEvent(s.processes[p].info, StatusCanceled, s.infos[s.processes[p].info].exit);
      Emit(Go(s, p, Over), e)
    case BeginClose => s.(processes := s.processes + [Closing(s.table.Values)])
    case CloseRun(p, i) =>
      var info := ForceCancel(s.infos[i]);
      var end := Set(Go(s, p, Closing(s.processes[p].todo - {i})), i, info);
      if s.infos[i].status.StatusRunning? then Emit(end, StatusEvent(i, info.status, info.exit)) else end
  }

  predicate Runs(s: Server, actions: seq<Action>, end: Server)
    decreases |actions|
  {
    if actions == [] then s == end
    else Enabled(s, actions[0]) && Runs(Apply(s, actions[0]), actions[1..], end)
  }

  // ---------- what holds in every state ----------

  /** An exit code that some monitor learnt gives this status. */
  predicate Explained(status: Status, exit: ExitCode, exits: seq<ExitCode>) {
    match status
    case StatusCompleted => exit in exits && exit.Code? && exit.code <= 0
    case StatusFailed => exit in exits && !(exit.Code? && exit.code <= 0)
    case _ => true
  }

  predicate InfoOk(info: RunInfo, exits: seq<ExitCode>) {
    && (info.status.StatusRunning? <==> !info.ended)
    && Explained(info.status, info.exit, exits)
  }

  /** An event tells of a run that has ended. Unless it tells of a cancellation, it carries the run's
      exit code, and the record says the same or was overwritten by a cancellation. */
  predicate EventOk(e: StatusEvent, infos: seq<RunInfo>, exits: seq<ExitCode>) {
    && e.info < |infos| && !e.status.StatusRunning? && !infos[e.info].status.StatusRunning?
    && (e.status.StatusCanceled? ==> infos[e.info].status.StatusCanceled?)
    && (!e.status.StatusCanceled? ==>
          && Explained(e.status, e.exit, exits) && infos[e.info].exit == e.exit
          && (infos[e.info].status == e.status || infos[e.info].status.StatusCanceled?))
  }

  predicate ProcessOk(p: Process, infos: seq<RunInfo>, exits: seq<ExitCode>) {
    match p
    case Exited(_, code) => code in exits
    case Found(i, code) => i < |infos| && code in exits
    case Looking(i) => i < |infos|
    case Reporting(e) => EventOk(e, infos, exits)
    case SawRunning(i) => i < |infos|
    case Overwrote(i) => i < |infos| && infos[i].status.StatusCanceled?
    case Closing(todo) => forall i: nat :: i in todo ==> i < |infos|
    case _ => true
  }

  predicate Inv(s: Server) {
    && (forall run :: run in s.table ==> s.table[run] < |s.infos|)
    && (forall i :: 0 <= i < |s.infos| ==> InfoOk(s.infos[i], s.exits))
    && (forall i :: 0 <= i < |s.processes| ==> ProcessOk(s.processes[i], s.infos, s.exits))
    && (forall i :: 0 <= i < |s.events| ==> EventOk(s.events[i], s.infos, s.exits))
  }

  /** A record may change in this way. */
  predicate Ages(from: RunInfo, to: RunInfo) {
    || to == from
    || (from.status.StatusRunning? && !to.status.StatusRunning?)
    || (!from.status.StatusRunning? && to == Cancel(from))
  }

  predicate AllAge(from: seq<RunInfo>, to: seq<RunInfo>) {
    |from| <= |to| && forall i :: 0 <= i < |from| ==> Ages(from[i], to[i])
  }

  lemma EventKept(e: StatusEvent, from: seq<RunInfo>, to: seq<RunInfo>, exits: seq<ExitCode>, more: seq<ExitCode>)
    requires EventOk(e, from, exits) && AllAge(from, to)
    ensures EventOk(e, to, exits + more)
  {
    assert Ages(from[e.info], to[e.info]);
  }

  lemma ProcessKept(p: Process, from: seq<RunInfo>, to: seq<RunInfo>, exits: seq<ExitCode>, more: seq<ExitCode>)
    requires ProcessOk(p, from, exits) && AllAge(from, to)
    ensures ProcessOk(p, to, exits + more)
  {
    match p
    case Reporting(e) => EventKept(e, from, to, exits, more);
    case Overwrote(i) => assert Ages(from[i], to[i]);
    case _ =>
  }

  /** Every step lets the records age. */
  lemma StepAges(s: Server, a: Action)
    requires Enabled(s, a)
    ensures AllAge(s.infos, Apply(s, a).infos)
  {
  }

  /** What a step leaves alone stays right; what is left to check is the new parts. */
  lemma Kept(s: Server, end: Server, more: seq<ExitCode>, p: nat)
    requires Inv(s) && AllAge(s.infos, end.infos) && end.exits == s.exits + more
    requires forall run :: run in end.table ==> end.table[run] < |end.infos|
    requires forall i :: 0 <= i < |end.infos| ==>
      (i < |s.infos| && end.infos[i] == s.infos[i]) || InfoOk(end.infos[i], end.exits)
    requires |s.processes| <= |end.processes| && forall i :: 0 <= i < |s.processes| && i != p ==>
            end.processes[i] == s.processes[i]
    requires forall i :: 0 <= i < |end.processes| && (i == p || i >= |s.processes|) ==>
            ProcessOk(end.processes[i], end.infos, end.exits)
    requires |s.events| <= |end.events| && end.events[..|s.events|] == s.events
    requires forall i :: |s.events| <= i < |end.events| ==> EventOk(end.events[i], end.infos, end.exits)
    ensures Inv(end)
  {
    forall i | 0 <= i < |end.infos| ensures InfoOk(end.infos[i], end.exits) {
      assert i < |s.infos| ==> InfoOk(s.infos[i], s.exits);
    }
    forall i | 0 <= i < |end.processes| ensures ProcessOk(end.processes[i], end.infos, end.exits) {
      if i < |s.processes| && i != p {
        ProcessKept(s.processes[i], s.infos, end.infos, s.exits, more);
      }
    }
    forall i | 0 <= i < |end.events| ensures EventOk(end.events[i], end.infos, end.exits) {
      if i < |s.events| {
        EventKept(s.events[i], s.infos, end.infos, s.exits, more);
        assert end.events[i] == end.events[..|s.events|][i];
      }
    }
  }

  lemma InvUpdate(s: Server, p: nat)
    requires Inv(s) && Enabled(s, Update(p))
    ensures Inv(Apply(s, Update(p)))
  {
    var end := Apply(s, Update(p));
    StepAges(s, Update(p));
    assert ProcessOk(s.processes[p], s.infos, s.exits);
    var i := s.processes[p].info;
    assert InfoOk(s.infos[i], s.exits) && InfoOk(end.infos[i], s.exits);
    assert EventOk(end.processes[p].event, end.infos, s.exits);
    assert s.exits + [] == s.exits;
    Kept(s, end, [], p);
  }

  lemma InvOverwrite(s: Server, p: nat)
    requires Inv(s) && Enabled(s, Overwrite(p))
    ensures Inv(Apply(s, Overwrite(p)))
  {
    StepAges(s, Overwrite(p));
    assert s.exits + [] == s.exits;
    Kept(s, Apply(s, Overwrite(p)), [], p);
  }

  lemma InvSend(s: Server, p: nat)
    requires Inv(s) && Enabled(s, Send(p))
    ensures Inv(Apply(s, Send(p)))
  {
    assert ProcessOk(s.processes[p], s.infos, s.exits);
    StepAges(s, Send(p));
    assert s.exits + [] == s.exits;
    Kept(s, Apply(s, Send(p)), [], p);
  }

  lemma InvClose(s: Server, p: nat, i: nat)
    requires Inv(s) && Enabled(s, CloseRun(p, i))
    ensures Inv(Apply(s, CloseRun(p, i)))
  {
    assert ProcessOk(s.processes[p], s.infos, s.exits) && InfoOk(s.infos[i], s.exits);
    StepAges(s, CloseRun(p, i));
    assert s.exits + [] == s.exits;
    Kept(s, Apply(s, CloseRun(p, i)), [], p);
  }

  lemma InvStep(s: Server, a: Action)
    requires Inv(s) && Enabled(s, a)
    ensures Inv(Apply(s, a))
  {
    StepAges(s, a);
    assert s.exits + [] == s.exits;
    match a
    case Exit(p, code) => Kept(s, Apply(s, a), [code], p);
    case Find(p) =>
      assert ProcessOk(s.processes[p], s.infos, s.exits);
      Kept(s, Apply(s, a), [], p);
    case Check(p) =>
      assert ProcessOk(s.processes[p], s.infos, s.exits);
      Kept(s, Apply(s, a), [], p);
    case Update(p) => InvUpdate(s, p);
    case Overwrite(p) => InvOverwrite(s, p);
    case Send(p) => InvSend(s, p);
    case CloseRun(p, i) => InvClose(s, p, i);
    case _ => Kept(s, Apply(s, a), [], |s.processes|);
  }

  lemma {:induction false} InvRun(s: Server, actions: seq<Action>, end: Server)
    requires Inv(s) && Runs(s, actions, end)
    ensures Inv(end)
    decreases |actions|
  {
    if actions != [] {
      InvStep(s, actions[0]);
      InvRun(Apply(s, actions[0]), actions[1..], end);
    }
  }

  // ---------- the status machine ----------

  /** Running holds exactly when the end time is unset, and a run that ended with a status other
      than Canceled has the exit code its monitor learnt, which decided the status. */
  lemma RunningIffNoEndTime(actions: seq<Action>, end: Server, i: nat)
    requires Runs(Fresh(), actions, end) && i < |end.infos|
    ensures end.infos[i].status.StatusRunning? <==> !end.infos[i].ended
    ensures Explained(end.infos[i].status, end.infos[i].exit, end.exits)
  {
    InvRun(Fresh(), actions, end);
    assert InfoOk(end.infos[i], end.exits);
  }

  lemma {:induction false} AgesTwice(a: RunInfo, b: RunInfo, c: RunInfo)
    requires Ages(a, b) && Ages(b, c)
    ensures Ages(a, c)
  {
  }

  /** Over a whole run of the server, from any state: no record becomes Running again, Canceled is
      final, and a record that had ended otherwise is the same or was overwritten as Canceled, with
      its exit code kept. */
  lemma {:induction false} StatusesOnlyAge(s: Server, actions: seq<Action>, end: Server)
    requires Runs(s, actions, end)
    ensures AllAge(s.infos, end.infos)
    decreases |actions|
  {
    if actions != [] {
      var next := Apply(s, actions[0]);
      StepAges(s, actions[0]);
      StatusesOnlyAge(next, actions[1..], end);
      forall i | 0 <= i < |s.infos| ensures Ages(s.infos[i], end.infos[i]) {
        AgesTwice(s.infos[i], next.infos[i], end.infos[i]);
      }
    }
  }

  /** A cancel request that saw this run running has yet to overwrite its status. */
  predicate CancelPending(s: Server, i: nat) { SawRunning(i) in s.processes }

  /** Only a cancel request that had seen the run running changes a record that has ended. */
  lemma EndedChangesOnlyByCancel(s: Server, a: Action, i: nat)
    requires Enabled(s, a) && i < |s.infos| && !s.infos[i].status.StatusRunning?
    requires Apply(s, a).infos[i] != s.infos[i]
    ensures a.Overwrite? && s.processes[a.p] == SawRunning(i) && CancelPending(s, i)
    ensures Apply(s, a).infos[i] == Cancel(s.infos[i])
  {
  }

  /** After the end of a run no further cancel request gets past its check. */
  lemma NoNewCancel(s: Server, a: Action, i: nat)
    requires Enabled(s, a) && i < |s.infos| && !s.infos[i].status.StatusRunning? && !CancelPending(s, i)
    ensures !CancelPending(Apply(s, a), i)
  {
    var end := Apply(s, a);
    forall k | 0 <= k < |end.processes| ensures end.processes[k] != SawRunning(i) {
      assert k < |s.processes| ==> s.processes[k] != SawRunning(i);
    }
  }

  lemma {:induction false} EndedStays(s: Server, actions: seq<Action>, end: Server, i: nat)
    requires i < |s.infos| && !s.infos[i].status.StatusRunning? && !CancelPending(s, i)
    requires Runs(s, actions, end)
    ensures i < |end.infos| && end.infos[i] == s.infos[i]
    decreases |actions|
  {
    if actions != [] {
      var next := Apply(s, actions[0]);
      if next.infos[i] != s.infos[i] {
        EndedChangesOnlyByCancel(s, actions[0], i);
      }
      NoNewCancel(s, actions[0], i);
      EndedStays(next, actions[1..], end, i);
    }
  }

  /** However the server goes on, the status of this run stays what it is. */
  ghost predicate Final(s: Server, i: nat)
    requires i < |s.infos|
  {
    forall actions, end :: Runs(s, actions, end) ==> i < |end.infos| && end.infos[i].status == s.infos[i].status
  }

  /** A status other than Running is final if and only if it is Canceled already or no cancel request
      that saw the run running is still on its way to overwrite it. */
  lemma FinalIff(actions: seq<Action>, s: Server, i: nat)
    requires Runs(Fresh(), actions, s) && i < |s.infos| && !s.infos[i].status.StatusRunning?
    ensures Final(s, i) <==> s.infos[i].status.StatusCanceled? || !CancelPending(s, i)
  {
    if s.infos[i].status.StatusCanceled? || !CancelPending(s, i) {
      forall actions, end | Runs(s, actions, end) ensures i < |end.infos| && end.infos[i].status == s.infos[i].status {
        StatusesOnlyAge(s, actions, end);
        assert Ages(s.infos[i], end.infos[i]);
        if !CancelPending(s, i) {
          EndedStays(s, actions, end, i);
        }
      }
    } else {
      var p: nat :| p < |s.processes| && s.processes[p] == SawRunning(i);
      var end := Apply(s, Overwrite(p));
      assert Runs(end, [], end);
      assert Runs(s, [Overwrite(p)], end);
      assert end.infos[i].status.StatusCanceled?;
    }
  }

  lemma Step(s: Server, a: Action, actions: seq<Action>, end: Server)
    requires Enabled(s, a) && Runs(Apply(s, a), actions, end)
    ensures Runs(s, [a] + actions, end)
  {
    assert ([a] + actions)[1..] == actions;
  }

  /** A run has exited, and a cancel request stands between its critical sections if `canceling`. */
  function ExitedState(code: ExitCode, canceling: bool): Server {
    Server([NewRun()], map["r" := 0], [Exited("r", code)] + if canceling then [SawRunning(0)] else [], [], [code])
  }

  lemma ExitedReached(code: ExitCode, canceling: bool) returns (actions: seq<Action>)
    ensures Runs(Fresh(), actions, ExitedState(code, canceling))
  {
    var end := ExitedState(code, canceling);
    var s1 := Server([NewRun()], map["r" := 0], [Watching("r")], [], []);
    assert Apply(Fresh(), Start("r")) == s1;
    if canceling {
      var s2 := s1.(processes := [Watching("r"), Looking(0)]);
      var s3 := s1.(processes := [Watching("r"), SawRunning(0)]);
      assert Apply(s1, Look("r")) == s2;
      assert Apply(s2, Check(1)) == s3;
      assert Apply(s3, Exit(0, code)) == end;
      Step(s3, Exit(0, code), [], end);
      Step(s2, Check(1), [Exit(0, code)], end);
      Step(s1, Look("r"), [Check(1)] + [Exit(0, code)], end);
      actions := [Look("r")] + ([Check(1)] + [Exit(0, code)]);
    } else {
      assert Apply(s1, Exit(0, code)) == end;
      Step(s1, Exit(0, code), [], end);
      actions := [Exit(0, code)];
    }
    Step(Fresh(), Start("r"), actions, end);
    actions := [Start("r")] + actions;
  }

  /** The monitor reports a code that counts as completed. */
  lemma CompletionReported(code: ExitCode, canceling: bool) returns (actions: seq<Action>, end: Server)
    requires code.Code? && code.code <= 0
    ensures Runs(Fresh(), actions, end)
    ensures end.infos == [RunInfo(StatusCompleted, true, code)] && end.events == [StatusEvent(0, StatusCompleted, code)]
    ensures end.processes == [Over] + if canceling then [SawRunning(0)] else []
  {
    var s1 := ExitedState(code, canceling);
    actions := ExitedReached(code, canceling);
    var s2 := Apply(s1, Find(0));
    var s3 := Apply(s2, Update(0));
    end := Apply(s3, Send(0));
    Step(s3, Send(0), [], end);
    Step(s2, Update(0), [Send(0)], end);
    Step(s1, Find(0), [Update(0)] + [Send(0)], end);
    RunsJoin(Fresh(), actions, s1, [Find(0)] + ([Update(0)] + [Send(0)]), end);
    actions := actions + ([Find(0)] + ([Update(0)] + [Send(0)]));
  }

  lemma {:induction false} RunsJoin(s: Server, a: seq<Action>, mid: Server, b: seq<Action>, end: Server)
    requires Runs(s, a, mid) && Runs(mid, b, end)
    ensures Runs(s, a + b, end)
    decreases |a|
  {
    if a == [] {
      assert a + b == b;
    } else {
      RunsJoin(Apply(s, a[0]), a[1..], mid, b, end);
      assert (a + b)[1..] == a[1..] + b;
    }
  }

  /** The race: a run that completed is reported as completed and recorded as canceled. */
  lemma CompletedThenCanceled()
    ensures exists actions, end ::
              && Runs(Fresh(), actions, end) && end.infos == [RunInfo(StatusCanceled, true, Code(0))]
              && end.events == [StatusEvent(0, StatusCompleted, Code(0)), StatusEvent(0, StatusCanceled, Code(0))]
  {
    var actions, s1 := CompletionReported(Code(0), true);
    var s2 := Apply(s1, Overwrite(1));
    var end := Apply(s2, Send(1));
    Step(s2, Send(1), [], end);
    Step(s1, Overwrite(1), [Send(1)], end);
    RunsJoin(Fresh(), actions, s1, [Overwrite(1)] + [Send(1)], end);
  }

  /** A process killed by a signal is reported as completed, with exit code -1. */
  lemma KilledIsCompleted()
    ensures exists actions, end ::
              && Runs(Fresh(), actions, end) && end.events == [StatusEvent(0, StatusCompleted, Code(-1))]
    ensures FromStatus(StatusCompleted, Code(-1)) == Result(Succeeded, -1)
  {
    var actions, end := CompletionReported(Code(-1), false);
  }

  // ---------- what the client is told ----------

  /** This process is about to send an event about this record. */
  predicate Speaks(p: Process, i: nat) { (p.Reporting? && p.event.info == i) || p == Overwrote(i) }

  predicate Reported(s: Server, i: nat) { exists k :: 0 <= k < |s.events| && s.events[k].info == i }

  predicate WillBeReported(s: Server, i: nat) { exists k :: 0 <= k < |s.processes| && Speaks(s.processes[k], i) }

  lemma ReportKept(s: Server, a: Action, i: nat)
    requires Enabled(s, a) && (Reported(s, i) || WillBeReported(s, i))
    ensures Reported(Apply(s, a), i) || WillBeReported(Apply(s, a), i)
  {
    var end := Apply(s, a);
    if k :| 0 <= k < |s.events| && s.events[k].info == i {
      assert end.events[k] == s.events[k];
    } else {
      var k: nat :| k < |s.processes| && Speaks(s.processes[k], i);
      if a == Send(k) {
        assert end.events[|s.events|].info == i;
      } else {
        assert end.processes[k] == s.processes[k];
      }
    }
  }

  /** The step that ends a run sends an event or leaves it to its process. */
  lemma EndingReports(s: Server, a: Action, i: nat)
    requires Enabled(s, a) && i < |Apply(s, a).infos| && !Apply(s, a).infos[i].status.StatusRunning?
    requires i < |s.infos| ==> s.infos[i].status.StatusRunning?
    ensures Reported(Apply(s, a), i) || WillBeReported(Apply(s, a), i)
  {
    var end := Apply(s, a);
    match a
    case Update(p) => assert Speaks(end.processes[p], i);
    case Overwrite(p) => assert Speaks(end.processes[p], i);
    case CloseRun(p, _) => assert end.events[|s.events|].info == i;
    case _ =>
  }

  lemma {:induction false} EndedIsReportedFrom(s: Server, actions: seq<Action>, end: Server, i: nat)
    requires Runs(s, actions, end) && i < |end.infos| && !end.infos[i].status.StatusRunning?
    requires i < |s.infos| && !s.infos[i].status.StatusRunning? ==> Reported(s, i) || WillBeReported(s, i)
    ensures Reported(end, i) || WillBeReported(end, i)
    decreases |actions|
  {
    if actions != [] {
      var next := Apply(s, actions[0]);
      if i < |s.infos| && !s.infos[i].status.StatusRunning? {
        ReportKept(s, actions[0], i);
      } else if i < |next.infos| && !next.infos[i].status.StatusRunning? {
        EndingReports(s, actions[0], i);
      }
      EndedIsReportedFrom(next, actions[1..], end, i);
    }
  }

  /** No end of a run goes unreported: once every process of the server has done its part, an event was
      sent about every run that ended, however its end came about. */
  lemma EndedIsReported(actions: seq<Action>, end: Server, i: nat)
    requires Runs(Fresh(), actions, end) && i < |end.infos| && !end.infos[i].status.StatusRunning?
    requires forall k :: 0 <= k < |end.processes| ==> !Speaks(end.processes[k], i)
    ensures Reported(end, i)
  {
    EndedIsReportedFrom(Fresh(), actions, end, i);
  }

  /** The status events about a run never contradict each other except that some may say Canceled:
      all others are the same event. None says Running. */
  lemma EventsAgree(actions: seq<Action>, end: Server, j: nat, k: nat)
    requires Runs(Fresh(), actions, end) && j < |end.events| && k < |end.events|
    requires end.events[j].info == end.events[k].info
    ensures !end.events[j].status.StatusRunning?
    ensures end.events[j] == end.events[k] || end.events[j].status.StatusCanceled?
            || end.events[k].status.StatusCanceled?
  {
    InvRun(Fresh(), actions, end);
    assert EventOk(end.events[j], end.infos, end.exits) && EventOk(end.events[k], end.infos, end.exits);
  }

  /** A status event that does not tell of a cancellation carries what its own run's monitor learnt, and a
      handle completed by it reports success if and only if that is an exit code and not positive: 0, or a
      negative one, which stands for a process killed by a signal or lost. It reports that code, or -1 if
      there is none. */
  lemma OutcomeTellsExitCode(actions: seq<Action>, end: Server, k: nat)
    requires Runs(Fresh(), actions, end) && k < |end.events|
    ensures !end.events[k].status.StatusRunning? && end.events[k].info < |end.infos|
    ensures var e := end.events[k];
            var r := FromStatus(e.status, e.exit);
            && (!e.status.StatusCanceled? ==>
                  && e.exit in end.exits && end.infos[e.info].exit == e.exit
                  && (r.outcome.Succeeded? <==> e.exit.Code? && e.exit.code <= 0)
                  && (r.outcome.ExecutionFailed? <==> !(e.exit.Code? && e.exit.code <= 0))
                  && r.exitCode == if e.exit.Code? then e.exit.code else -1)
            && (e.status.StatusCanceled? ==>
                  r == Result(ExecutionCanceled, -1) && end.infos[e.info].status.StatusCanceled?)
  {
    InvRun(Fresh(), actions, end);
    assert EventOk(end.events[k], end.infos, end.exits);
  }
}
