/**
 The compute server as an object: its table of runs, the allocation of a run's four streams, and what
 cancel requests, monitors and Close do to a run record. The methods run without interference;
 RunStatus treats the interleavings.
 */
module ComputeServer {
  import opened Bytes
  import opened RunHandles
  import RS = RunStatus
  import opened StreamIds
  import M = Multiplexer

  class RunRecord {
    var status: Status
    var ended: bool
    var exit: ExitCode

    function View(): RS.RunInfo
      reads this
    {
      RS.RunInfo(status, ended, exit)
    }

    constructor ()
      ensures View() == RS.NewRun()
    {
      status, ended, exit := StatusRunning, false, NoCode;
    }

    /** The critical section of monitorExecution, and the event it prepares. */
    method Finish(code: ExitCode) returns (reported: Status, reportedExit: ExitCode)
      modifies this
      ensures View() == RS.Finish(old(View()), code)
      ensures reported == status && reportedExit == exit
    {
      if status.StatusRunning? {
        if code.Code? && code.code <= 0 {
          status := StatusCompleted;
        } else {
          status := StatusFailed;
        }
        ended := true;
        exit := code;
      }
      reported, reportedExit := status, exit;
    }

    method Overwrite()
      modifies this
      ensures View() == RS.Cancel(old(View()))
    {
      status := StatusCanceled;
      ended := true;
    }

    method ForceCancel() returns (wasRunning: bool)
      modifies this
      ensures View() == RS.ForceCancel(old(View()))
      ensures wasRunning <==> old(status).StatusRunning?
    {
      wasRunning := status.StatusRunning?;
      if wasRunning {
        Overwrite();
      }
    }
  }

  datatype Rejection = NoRunId | NoCommand | DuplicateRunId | NoStream | NotExecuted

  datatype RunAnswer =
    | Rejected(reason: Rejection)
    | HandedOver                                   // a conda operation
    | Unanswered                                   // the run goes on, but nobody was told
    | Accepted(ids: seq<uint32>)                   // stdin, stdout, stderr, log

  datatype CancelAnswer = CancelNoRunId | UnknownRun | NotRunning(status: Status) | CancelAccepted

  datatype Told = Nobody | Told(status: Status, exit: ExitCode)

  /** The next four IDs of the counter, and the counter afterwards. */
  function FourIds(counter: uint32): (r: (seq<uint32>, uint32))
    ensures |r.0| == 4 && 0 !in r.0
    ensures forall i, j :: 0 <= i < j < 4 ==> r.0[i] != r.0[j]
  {
    var a := Issue(counter);
    var b := Issue(a.1);
    var c := Issue(b.1);
    var d := Issue(c.1);
    ([a.0, b.0, c.0, d.0], d.1)
  }

  predicate AnyUsed(ids: seq<uint32>, used: set<uint32>) { exists i :: 0 <= i < |ids| && ids[i] in used }

  /** The IDs from position k up to position n. */
  function Between(ids: seq<uint32>, k: nat, n: nat): (r: set<uint32>)
    requires k <= n <= |ids|
  {
    set i | k <= i < n :: ids[i]
  }

  lemma BetweenStep(ids: seq<uint32>, k: nat, n: nat)
    requires k < n <= |ids| && forall i, j :: 0 <= i < j < |ids| ==> ids[i] != ids[j]
    ensures ids[k] !in Between(ids, k + 1, n) && Between(ids, k, n) == {ids[k]} + Between(ids, k + 1, n)
    ensures Between(ids, k, n) == Between(ids, k, n - 1) + {ids[n - 1]} && ids[n - 1] !in Between(ids, k, n - 1)
  {
  }

  class Server {
    const mux: M.Multiplexer
    var counter: uint32
    var runs: map<RunId, RunRecord>
    var canceled: bool      // the context of the control plane

    constructor (mux: M.Multiplexer)
      ensures this.mux == mux && counter == 0 && runs == map[] && !canceled
    {
      this.mux, counter, runs, canceled := mux, 0, map[], false;
    }

    /** Every run has a record of its own. */
    ghost predicate Valid()
      reads this
    {
      forall i, j :: i in runs && j in runs && i != j ==> runs[i] != runs[j]
    }

    method NextStreamID() returns (id: uint32)
      modifies this`counter
      ensures (id, counter) == Issue(old(counter))
    {
      if counter == 0 {
        counter := 1;
      }
      id := counter;
      counter := (counter + 1) % TWO_TO_THE_32;
    }

    /** Opens the streams with these IDs, all or none. */
    method OpenAll(ids: seq<uint32>) returns (ok: bool)
      requires mux.Valid() && 0 !in ids && forall i, j :: 0 <= i < j < |ids| ==> ids[i] != ids[j]
      modifies mux`streams, mux`nextID, mux.conn`wire
      ensures mux.Valid()
      ensures ok <==> ids == [] || (!mux.closed && !AnyUsed(ids, old(mux.streams).Keys))
      ensures ok ==> mux.streams.Keys == old(mux.streams).Keys + Between(ids, 0, |ids|)
      ensures ok ==> forall i :: 0 <= i < |ids| ==> fresh(mux.streams[ids[i]]) && mux.streams[ids[i]].id == ids[i]
      ensures forall id :: id in old(mux.streams) ==> id in mux.streams && mux.streams[id] == old(mux.streams)[id]
      ensures !ok ==> mux.streams == old(mux.streams)
    {
      ok := true;
      for k := 0 to |ids|
        invariant ok && mux.Valid() && (k == 0 || !mux.closed)
        invariant !AnyUsed(ids[..k], old(mux.streams).Keys)
        invariant OnTopOf(old(mux.streams), Between(ids, 0, k))
        invariant forall i :: 0 <= i < k ==> fresh(mux.streams[ids[i]]) && mux.streams[ids[i]].id == ids[i]
      {
        BetweenStep(ids, 0, k + 1);
        var r := mux.OpenStreamWithID(ids[k]);
        if !r.Opened? {
          CloseFirst(ids, k, old(mux.streams));
          return false;
        }
      }
      assert ids[..|ids|] == ids;
    }

    /** The streams are those of `before` and these extra ones. */
    ghost predicate OnTopOf(before: map<uint32, M.Stream>, extra: set<uint32>)
      reads mux`streams
    {
      && before.Keys !! extra && mux.streams.Keys == before.Keys + extra
      && forall id :: id in before ==> mux.streams[id] == before[id]
    }

    method CloseExtra(id: uint32, ghost before: map<uint32, M.Stream>, ghost extra: set<uint32>)
      requires mux.Valid() && OnTopOf(before, extra) && id in extra
      modifies mux`streams, mux.conn`wire, mux.streams[id]
      ensures mux.Valid() && OnTopOf(before, extra - {id})
      ensures mux.streams == old(mux.streams) - {id}
    {
      var _, _ := mux.CloseStream(id);
    }

    /** Closes the first n of these streams, which were opened on top of `before`. */
    method CloseFirst(ids: seq<uint32>, n: nat, ghost before: map<uint32, M.Stream>)
      requires n <= |ids| && forall i, j :: 0 <= i < j < |ids| ==> ids[i] != ids[j]
      requires mux.Valid() && OnTopOf(before, Between(ids, 0, n))
      modifies mux`streams, mux.conn`wire, set i | 0 <= i < n :: mux.streams[ids[i]]
      ensures mux.Valid() && mux.streams == before
    {
      for k := 0 to n
        invariant mux.Valid() && OnTopOf(before, Between(ids, k, n))
        invariant forall id :: id in mux.streams ==> id in old(mux.streams) && mux.streams[id] == old(mux.streams)[id]
      {
        BetweenStep(ids, k, n);
        CloseExtra(ids[k], before, Between(ids, k, n));
        assert Between(ids, k, n) - {ids[k]} == Between(ids, k + 1, n);
      }
      assert Between(ids, n, n) == {};
    }

    /** handleRun. A request that is turned down leaves the runs and the streams as they were; one that
        is accepted has four new streams of its own and a running record. `executes` tells whether the
        command can be started, `answers` whether the response can be sent: if it cannot, the run is
        taken off the table again, while its streams stay open. */
    method HandleRun(run: RunId, command: string, executes: bool, answers: bool) returns (answer: RunAnswer)
      requires mux.Valid() && Valid()
      modifies this`counter, this`runs, mux`streams, mux`nextID, mux.conn`wire
      ensures mux.Valid() && Valid()
      ensures answer == Rejected(NoRunId) <==> run == ""
      ensures answer == Rejected(NoCommand) <==> run != "" && command == ""
      ensures answer == Rejected(DuplicateRunId) <==> run != "" && command != "" && run in old(runs)
      ensures answer == Rejected(NoStream) <==>
              run != "" && command != "" && run !in old(runs)
              && (mux.closed || AnyUsed(FourIds(old(counter)).0, old(mux.streams).Keys))
      ensures answer.Rejected? ==> runs == old(runs) && mux.streams == old(mux.streams)
      ensures var refused := run == "" || command == "" || run in old(runs)
                             || mux.closed || AnyUsed(FourIds(old(counter)).0, old(mux.streams).Keys);
              && (answer == Rejected(NotExecuted) <==> !refused && command != "__conda" && !executes)
              && (answer.HandedOver? <==> !refused && command == "__conda")
              && (answer.Accepted? <==> !refused && command != "__conda" && executes && answers)
              && (answer.Unanswered? <==> !refused && command != "__conda" && executes && !answers)
      ensures counter == if answer in {Rejected(NoRunId), Rejected(NoCommand), Rejected(DuplicateRunId)}
                         then old(counter) else FourIds(old(counter)).1
      ensures answer.Accepted? ==> answer.ids == FourIds(old(counter)).0
      ensures answer.Accepted? || answer.Unanswered? ==>
                var ids := FourIds(old(counter)).0;
                && mux.streams.Keys == old(mux.streams).Keys + Between(ids, 0, 4)
                && forall i :: 0 <= i < 4 ==> ids[i] !in old(mux.streams) && fresh(mux.streams[ids[i]])
      ensures answer.Unanswered? ==> runs == old(runs)
      ensures answer.Accepted? ==>
                && run in runs && fresh(runs[run]) && runs[run].View() == RS.NewRun()
                && runs == old(runs)[run := runs[run]]
    {
      if run == "" {
        return Rejected(NoRunId);
      }
      if command == "" {
        return Rejected(NoCommand);
      }
      if run in runs {
        return Rejected(DuplicateRunId);
      }
      var stdin := NextStreamID();
      var stdout := NextStreamID();
      var stderr := NextStreamID();
      var log := NextStreamID();
      var ids := [stdin, stdout, stderr, log];
      assert ids == FourIds(old(counter)).0;
      var ok := OpenAll(ids);
      if !ok {
        return Rejected(NoStream);
      }
      if command == "__conda" {
        return HandedOver;
      }
      if !executes {
        CloseFirst(ids, 4, old(mux.streams));
        return Rejected(NotExecuted);
      }
      var stays := StartRun(run, answers);
      answer := if stays then RunAnswer.Accepted(ids) else Unanswered;
    }

    /** The run is recorded, and forgotten again if the response cannot be sent. */
    method StartRun(run: RunId, answers: bool) returns (stays: bool)
      requires run !in runs && Valid()
      modifies this`runs
      ensures stays == answers && Valid()
      ensures !stays ==> runs == old(runs)
      ensures stays ==>
                && run in runs && fresh(runs[run]) && runs[run].View() == RS.NewRun()
                && runs == old(runs)[run := runs[run]]
    {
      var record := new RunRecord();
      runs := runs[run := record];
      stays := answers;
      if !stays {
        CleanupRun(run);
        assert old(runs)[run := record] - {run} == old(runs);
      }
    }

    /** handleCancel with nothing happening between its critical sections. */
    method HandleCancel(run: RunId) returns (answer: CancelAnswer, told: Told)
      modifies if run in runs then {runs[run]} else {}
      ensures answer.CancelNoRunId? <==> run == ""
      ensures answer.UnknownRun? <==> run != "" && run !in runs
      ensures answer.NotRunning? <==> run != "" && run in runs && !old(runs[run].status).StatusRunning?
      ensures answer.NotRunning? ==> answer.status == old(runs[run].status)
      ensures run in runs ==>
                runs[run].View() == if answer.CancelAccepted? then RS.Cancel(old(runs[run].View()))
                    else old(runs[run].View())
      ensures told == if answer.CancelAccepted? then Told(StatusCanceled, runs[run].exit) else Nobody
    {
      told := Nobody;
      if run == "" {
        return CancelNoRunId, Nobody;
      }
      if run !in runs {
        return UnknownRun, Nobody;
      }
      var record := runs[run];
      if !record.status.StatusRunning? {
        return NotRunning(record.status), Nobody;
      }
      record.Overwrite();
      answer, told := CancelAccepted, Told(StatusCanceled, record.exit);
    }

    /** monitorExecution once the run has exited. */
    method MonitorExecution(run: RunId, code: ExitCode) returns (told: Told)
      modifies if run in runs then {runs[run]} else {}
      ensures run !in runs ==> told == Nobody
      ensures run in runs ==> runs[run].View() == RS.Finish(old(runs[run].View()), code)
      ensures run in runs ==> told == Told(runs[run].status, runs[run].exit)
    {
      if run !in runs {
        return Nobody;
      }
      var status, exit := runs[run].Finish(code);
      told := Told(status, exit);
    }

    method CleanupRun(run: RunId)
      modifies this`runs
      ensures runs == old(runs) - {run}
    {
      runs := runs - {run};
    }

    /** Close, in whatever order the map yields its runs: each is canceled if it was running, an event is
        sent for exactly those, and then the control plane is canceled and the multiplexer closed. */
    method Close() returns (told: seq<RunId>)
      requires Valid() && mux.Valid()
      modifies this`canceled, runs.Values, mux`closed, mux.conn`wire, mux.streams.Values
      ensures runs == old(runs) && canceled && mux.closed && mux.Valid()
      ensures forall run :: run in runs ==> runs[run].View() == RS.ForceCancel(old(runs[run].View()))
      ensures forall run :: run in told <==> run in runs && old(runs[run].status).StatusRunning?
      ensures forall i, j :: 0 <= i < j < |told| ==> told[i] != told[j]
      ensures mux.streams == old(mux.streams)
      ensures !old(mux.closed) ==> forall id :: id in mux.streams ==> mux.streams[id].Shut()
    {
      told := CancelAll();
      canceled := true;
      mux.Close();
    }

    method CancelAll() returns (told: seq<RunId>)
      requires Valid()
      modifies runs.Values
      ensures runs == old(runs)
      ensures forall run :: run in runs ==> runs[run].View() == RS.ForceCancel(old(runs[run].View()))
      ensures forall run :: run in told <==> run in runs && old(runs[run].status).StatusRunning?
      ensures forall i, j :: 0 <= i < j < |told| ==> told[i] != told[j]
    {
      told := [];
      var todo := runs.Keys;
      while todo != {}
        invariant Valid() && runs == old(runs) && todo <= runs.Keys
        invariant forall run :: run in runs ==>
                    runs[run].View() == if run in todo then old(runs[run].View())
                        else RS.ForceCancel(old(runs[run].View()))
        invariant forall run :: run in told <==> run in runs && run !in todo && old(runs[run].status).StatusRunning?
        invariant forall i, j :: 0 <= i < j < |told| ==> told[i] != told[j]
      {
        var run :| run in todo;
        todo := todo - {run};
        var wasRunning := runs[run].ForceCancel();
        if wasRunning {
          told := told + [run];
        }
      }
    }
  }
}
