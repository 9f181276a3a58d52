/**
 The sending half of one stream: any number of Write calls, and Close, which sends the marker in one
 step and refuses further writes in another. A Write holds the writer's lock from its check of
 `closed` until its frame is out, so it is one step.
 */
module StreamWriter {
  import opened Bytes
  import opened StreamReader

  datatype Writer = Writer(
    frames: seq<seq<byte>>,   // what went out, in order
    closing: bool,            // Close has sent the marker, or tried to
    closed: bool,
    // history
    marked: bool,             // the marker went out
    late: nat)                // writes that went out between the marker and the closing

  function Open(): Writer { Writer([], false, false, false, 0) }

  datatype Action =
    | Write(data: seq<byte>, ok: bool)
    | SendMarker(ok: bool)
    | SetClosed

  predicate Enabled(w: Writer, a: Action) {
    match a
    case Write(_, _) => true
    case SendMarker(_) => !w.closing        // Stream.Close lets only the first call through
    case SetClosed => w.closing && !w.closed
  }

  function Apply(w: Writer, a: Action): Writer
    requires Enabled(w, a)
  {
    match a
    case Write(data, ok) =>
      if w.closed || !ok then w
      else w.(frames := w.frames + [data], late := if w.marked then w.late + 1 else w.late)
    case SendMarker(ok) =>
      if ok then w.(closing := true, frames := w.frames + [[]], marked := true) else w.(closing := true)
    case SetClosed => w.(closed := true)
  }

  predicate Runs(w: Writer, actions: seq<Action>, end: Writer)
    decreases |actions|
  {
    if actions == [] then w == end
    else Enabled(w, actions[0]) && Runs(Apply(w, actions[0]), actions[1..], end)
  }

  /** Nobody writes zero bytes, which the peer would take for the marker. */
  predicate NoEmptyWrites(actions: seq<Action>) {
    forall i :: 0 <= i < |actions| && actions[i].Write? ==> actions[i].data != []
  }

  /** Where the marker is, if it went out: `late` frames from the end. */
  predicate MarkerAt(w: Writer) {
    && (w.marked ==> w.closing && w.late < |w.frames|)
    && (!w.marked ==> w.late == 0) && (w.closed ==> w.closing)
    && forall i :: 0 <= i < |w.frames| ==> (w.frames[i] == [] <==> w.marked && i == |w.frames| - 1 - w.late)
  }

  lemma {:induction false} MarkerRun(w: Writer, actions: seq<Action>, end: Writer)
    requires MarkerAt(w) && Runs(w, actions, end) && NoEmptyWrites(actions)
    ensures MarkerAt(end)
    decreases |actions|
  {
    if actions != [] {
      MarkerRun(Apply(w, actions[0]), actions[1..], end);
    }
  }

  predicate GoesOut(a: Action) { a.Write? && a.ok }

  /** A write goes out before Close has finished. */
  predicate WritesFirst(actions: seq<Action>) {
    exists j :: 0 <= j < |actions| && GoesOut(actions[j]) && SetClosed !in actions[..j]
  }

  /** A write goes out between the two steps of Close: behind the marker and before the closing. */
  predicate Overlaps(actions: seq<Action>) {
    exists i :: 0 <= i < |actions| && actions[i] == SendMarker(true) && WritesFirst(actions[i + 1..])
  }

  lemma WritesFirstCons(actions: seq<Action>)
    requires actions != []
    ensures WritesFirst(actions) <==> GoesOut(actions[0]) || (actions[0] != SetClosed && WritesFirst(actions[1..]))
  {
    var tail := actions[1..];
    if j :| 0 <= j < |actions| && GoesOut(actions[j]) && SetClosed !in actions[..j] {
      if j > 0 {
        assert tail[j - 1] == actions[j] && actions[..j] == [actions[0]] + tail[..j - 1];
        assert actions[0] in actions[..j];
      }
    }
    if GoesOut(actions[0]) {
      assert actions[..0] == [];
    } else if actions[0] != SetClosed && WritesFirst(tail) {
      var j :| 0 <= j < |tail| && GoesOut(tail[j]) && SetClosed !in tail[..j];
      assert actions[j + 1] == tail[j] && actions[..j + 1] == [actions[0]] + tail[..j];
    }
  }

  lemma OverlapsCons(actions: seq<Action>)
    requires actions != []
    ensures Overlaps(actions) <==>
            Overlaps(actions[1..]) || (actions[0] == SendMarker(true) && WritesFirst(actions[1..]))
  {
    var tail := actions[1..];
    if i :| 0 <= i < |actions| && actions[i] == SendMarker(true) && WritesFirst(actions[i + 1..]) {
      if i > 0 {
        assert tail[i - 1] == actions[i] && tail[i..] == actions[i + 1..];
      }
    }
    if i :| 0 <= i < |tail| && tail[i] == SendMarker(true) && WritesFirst(tail[i + 1..]) {
      assert actions[i + 1] == tail[i] && actions[i + 2..] == tail[i + 1..];
    }
  }

  /** The late writes are those the order of the calls shows. */
  lemma {:induction false} LateIffOverlaps(w: Writer, actions: seq<Action>, end: Writer)
    requires MarkerAt(w) && Runs(w, actions, end) && NoEmptyWrites(actions)
    ensures end.late >= w.late
    ensures end.late > w.late <==> (w.marked && !w.closed && WritesFirst(actions)) || Overlaps(actions)
    decreases |actions|
  {
    if actions != [] {
      var next := Apply(w, actions[0]);
      WritesFirstCons(actions);
      OverlapsCons(actions);
      LateIffOverlaps(next, actions[1..], end);
      if next.closing {
        NoSecondMarker(next, actions[1..], end);
      }
    }
  }

  /** Close sends one marker. */
  lemma {:induction false} NoSecondMarker(w: Writer, actions: seq<Action>, end: Writer)
    requires w.closing && Runs(w, actions, end)
    ensures !Overlaps(actions)
    decreases |actions|
  {
    if actions != [] {
      OverlapsCons(actions);
      NoSecondMarker(Apply(w, actions[0]), actions[1..], end);
    }
  }

  /** The exact condition, in the order of the calls, under which nothing follows the marker, for callers
      that never write zero bytes: no write goes out between the two steps of Close. */
  lemma WellEndedIff(actions: seq<Action>, end: Writer)
    requires Runs(Open(), actions, end) && NoEmptyWrites(actions)
    ensures WellEnded(end.frames) <==> !Overlaps(actions)
    ensures Ended(end.frames) ==> SendMarker(true) in actions && !Overlaps(actions)
  {
    MarkerRun(Open(), actions, end);
    LateIffOverlaps(Open(), actions, end);
    if end.late > 0 {
      assert end.frames[|end.frames| - 1 - end.late] == [];
    }
    if SendMarker(true) !in actions {
      NeverMarked(Open(), actions, end);
    }
  }

  lemma {:induction false} NeverMarked(w: Writer, actions: seq<Action>, end: Writer)
    requires !w.marked && Runs(w, actions, end) && SendMarker(true) !in actions
    ensures !end.marked
    decreases |actions|
  {
    if actions != [] {
      assert actions[0] in actions;
      NeverMarked(Apply(w, actions[0]), actions[1..], end);
    }
  }

  /** The race: a write that was waiting for the connection goes out behind the marker. */
  lemma WriteBehindMarker(data: seq<byte>)
    requires data != []
    ensures exists actions, end ::
              Runs(Open(), actions, end) && NoEmptyWrites(actions) && end.frames == [[], data] && end.closed
  {
    var w1 := Apply(Open(), SendMarker(true));
    var w2 := Apply(w1, Write(data, true));
    var end := Apply(w2, SetClosed);
    var actions := [SendMarker(true), Write(data, true), SetClosed];
    assert Runs(end, actions[3..], end) && Runs(w2, actions[2..], end) && Runs(w1, actions[1..], end);
    assert Runs(Open(), actions, end);
  }
}
