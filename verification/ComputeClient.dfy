/**
 The compute client's run handles as objects: completing a handle, and the registry that the event
 handler, Run and Close share. The methods run without interference; RunHandles treats the
 interleavings.
 */
module ComputeClient {
  import opened RunHandles

  /** A handle after complete, by the only call there is or by one that comes too late. */
  function Completed(h: Handle, r: Result): Handle {
    if h.once.NotBegun? then
      Handle(Finished(0),
             Chan(h.exit.slot + [r.exitCode], true, h.exit.sent + [r.exitCode]),
             Chan(h.done.slot + [r.outcome], true, h.done.sent + [r.outcome]))
    else h
  }

  /** That is what the four stages of the interleaving model come to when nothing comes between, and
      none of them blocks or panics. */
  lemma CompletedInFourStages(h: Handle, r: Result)
    requires h == NewHandle()
    ensures var h1 := h.(once := Running(0, 1));
            var h2 := Do(h1, 0, 1, r);
            var h3 := Do(h2, 0, 2, r);
            var h4 := Do(h3, 0, 3, r);
            && CanDo(h1, 1) && CanDo(h2, 2) && CanDo(h3, 3) && CanDo(h4, 4)
            && Do(h4, 0, 4, r) == Completed(h, r) && HandleOk(Completed(h, r))
  {
    var h2 := Do(h.(once := Running(0, 1)), 0, 1, r);
    assert h2.exit.sent == [r.exitCode];
    var h3 := Do(h2, 0, 2, r);
    assert h3.done.sent == [r.outcome];
  }

  /** Completing twice is completing once: the first values stay. */
  lemma CompletedTwice(h: Handle, first: Result, second: Result)
    requires HandleOk(h)
    ensures Completed(Completed(h, first), second) == Completed(h, first)
    ensures h.once.NotBegun? ==>
              && Completed(h, first).exit.sent == [first.exitCode]
              && Completed(h, first).done.sent == [first.outcome]
  {
    if h.once.NotBegun? {
      assert h.exit.sent == [] && h.done.sent == [];
    }
  }

  class RawExecutionHandle {
    const run: RunId
    var once: Once
    var exitCh: Chan<int>
    var doneCh: Chan<Outcome>

    constructor (run: RunId)
      ensures this.run == run && State() == NewHandle()
    {
      this.run := run;
      once, exitCh, doneCh := NotBegun, Chan([], false, []), Chan([], false, []);
    }

    function State(): Handle
      reads this
    {
      Handle(once, exitCh, doneCh)
    }

    method Complete(outcome: Outcome, exitCode: int)
      modifies this
      ensures State() == Completed(old(State()), Result(outcome, exitCode))
    {
      if once.NotBegun? {
        once := Finished(0);
        exitCh := Send(exitCh, exitCode);
        doneCh := Send(doneCh, outcome);
        exitCh := exitCh.(closed := true);
        doneCh := doneCh.(closed := true);
      }
    }

    method CompleteFromStatus(status: Status, exit: ExitCode)
      modifies this
      ensures State() == if status.StatusRunning? then old(State())
              else Completed(old(State()), FromStatus(status, exit))
    {
      var code := -1;
      if exit.Code? {
        code := exit.code;
      }
      match status
      case StatusCompleted => Complete(Succeeded, code);
      case StatusCanceled => Complete(ExecutionCanceled, -1);
      case StatusFailed => Complete(ExecutionFailed, code);
      case StatusRunning =>
    }
  }

  /** What HandleEvent can make of a packet. */
  datatype EventPacket =
    | OtherPacket                    // another type, or an undecodable payload
    | UnknownStatus(run: RunId)
    | StatusPacket(run: RunId, status: Status, exit: ExitCode)

  /** How the request of a Run ended. */
  datatype Reply = NotSent | NotAnswered | Undecodable | RunRejected | StreamsFailed | RunAccepted

  class EventsHandler {
    var handles: map<RunId, RawExecutionHandle>

    constructor ()
      ensures handles == map[]
    {
      handles := map[];
    }

    ghost predicate Valid()
      reads this
    {
      forall i, j :: i in handles && j in handles && i != j ==> handles[i] != handles[j]
    }

    method Register(handle: RawExecutionHandle)
      modifies this
      ensures handles == if handle.run == "" then old(handles) else old(handles)[handle.run := handle]
    {
      if handle.run == "" {
        return;
      }
      handles := handles[handle.run := handle];
    }

    method Unregister(run: RunId)
      modifies this
      ensures handles == if run == "" then old(handles) else old(handles) - {run}
    {
      if run == "" {
        return;
      }
      handles := handles - {run};
    }

    /** Only a terminal status of a registered run does anything: its handle is completed accordingly
        and forgotten; every other handle stays as it is. */
    method HandleEvent(packet: EventPacket)
      modifies this, if packet.StatusPacket? && packet.run in handles then {handles[packet.run]} else {}
      ensures var hit := packet.StatusPacket? && packet.run != "" && packet.run in old(handles)
              && !packet.status.StatusRunning?;
              && (hit ==> var h := old(handles)[packet.run];
                          && h.State() == Completed(old(h.State()), FromStatus(packet.status, packet.exit))
                          && handles == old(handles) - {packet.run})
              && (!hit ==> handles == old(handles)
                           && forall run :: run in handles ==> handles[run].State() == old(handles[run].State()))
    {
      if packet.OtherPacket? || packet.run == "" || packet.run !in handles {
        return;
      }
      var handle := handles[packet.run];
      if packet.StatusPacket? && !packet.status.StatusRunning? {
        handle.CompleteFromStatus(packet.status, packet.exit);
        Unregister(packet.run);
      }
    }

    /** Whatever order the map yields its handles in, each is completed and all are forgotten. */
    method CompleteAll(outcome: Outcome)
      requires Valid()
      modifies this, handles.Values
      ensures handles == map[]
      ensures forall run :: run in old(handles) ==>
                old(handles)[run].State() == Completed(old(handles[run].State()), Result(outcome, -1))
    {
      var snapshot := handles;
      handles := map[];
      var todo := snapshot.Keys;
      while todo != {}
        invariant todo <= snapshot.Keys && handles == map[]
        invariant forall run :: run in snapshot ==>
                    snapshot[run].State() ==
                    if run in todo then old(handles[run].State())
                        else Completed(old(handles[run].State()), Result(outcome, -1))
      {
        var run :| run in todo;
        todo := todo - {run};
        snapshot[run].Complete(outcome, -1);
      }
    }

    /** Packets that reach the event handler one after the other: each registered handle is completed by
        the first of them that ends its run, and forgotten; handles of other runs stay as they are. */
    method HandleEvents(packets: seq<EventPacket>)
      requires Valid()
      modifies this, handles.Values
      ensures Valid() && Left(old(handles), handles, packets)
      ensures forall run :: run in old(handles) ==>
                old(handles)[run].State() == Settled(old(handles[run].State()), FirstEnd(run, packets))
    {
      ghost var all := handles;
      ghost var states := map run | run in handles :: handles[run].State();
      for n := 0 to |packets|
        invariant Valid() && handles.Values <= all.Values && Left(all, handles, packets[..n])
        invariant AllSettled(all, states, packets[..n])
      {
        assert packets[..n + 1] == packets[..n] + [packets[n]];
        HandleNext(all, states, packets[..n], packets[n]);
      }
      assert packets[..|packets|] == packets;
    }

    method HandleNext(ghost all: map<RunId, RawExecutionHandle>, ghost states: map<RunId, Handle>,
                      ghost done: seq<EventPacket>, packet: EventPacket)
      requires Valid() && Left(all, handles, done) && AllSettled(all, states, done)
      requires forall run, other :: run in all && other in all && run != other ==> all[run] != all[other]
      modifies this, handles.Values
      ensures Valid() && handles.Values <= old(handles).Values
      ensures Left(all, handles, done + [packet]) && AllSettled(all, states, done + [packet])
    {
      assert (done + [packet])[..|done|] == done;
      HandleEvent(packet);
    }

    /** Run, with the events that reach the client while the request is outstanding, and the reply to it.
        The handle is registered before anything is sent: an event that ends the run completes the handle
        even if it comes before the reply. Afterwards the handle is registered exactly if Run succeeds and
        no such event came; no other run is affected by more than its own events. */
    method Run(run: RunId, meanwhile: seq<EventPacket>, reply: Reply) returns (handle: RawExecutionHandle, ok: bool)
      requires run != "" && Valid()
      modifies this, handles.Values
      ensures Valid() && fresh(handle) && handle.run == run
      ensures handle.State() == Settled(NewHandle(), FirstEnd(run, meanwhile))
      ensures ok <==> reply.RunAccepted?
      ensures run in handles <==> ok && FirstEnd(run, meanwhile).NotEnded?
      ensures run in handles ==> handles[run] == handle
      ensures Left(old(handles) - {run}, handles - {run}, meanwhile)
      ensures forall other :: other in old(handles) && other != run ==>
                old(handles)[other].State() == Settled(old(handles[other].State()), FirstEnd(other, meanwhile))
    {
      handle := new RawExecutionHandle(run);
      Register(handle);
      HandleEvents(meanwhile);
      ok := reply.RunAccepted?;
      if !ok {
        Unregister(run);
      }
    }
  }

  /** Whether and how this packet ends this run. */
  datatype Ending = NotEnded | EndedWith(result: Result)

  function EndIn(run: RunId, p: EventPacket): Ending {
    if p.StatusPacket? && p.run == run && run != "" && !p.status.StatusRunning?
    then EndedWith(FromStatus(p.status, p.exit))
    else NotEnded
  }

  function FirstEnd(run: RunId, packets: seq<EventPacket>): Ending {
    if packets == [] then NotEnded
    else
      var before := FirstEnd(run, packets[..|packets| - 1]);
      if before.EndedWith? then before else EndIn(run, packets[|packets| - 1])
  }

  function Settled(h: Handle, e: Ending): Handle { if e.EndedWith? then Completed(h, e.result) else h }

  /** These packets have done to the handles what they call for. */
  ghost predicate AllSettled(all: map<RunId, RawExecutionHandle>, states: map<RunId, Handle>, packets: seq<EventPacket>)
    reads all.Values
  {
    states.Keys == all.Keys &&
    forall run :: run in all ==> all[run].State() == Settled(states[run], FirstEnd(run, packets))
  }

  /** What these packets leave of a registry. */
  ghost predicate Left(before: map<RunId, RawExecutionHandle>, after: map<RunId, RawExecutionHandle>,
                       packets: seq<EventPacket>) {
    && (forall run :: run in after <==> run in before && FirstEnd(run, packets).NotEnded?)
    && forall run :: run in after ==> after[run] == before[run]
  }
}
