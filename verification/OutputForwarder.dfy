/** The forwarding loop of the compute server as a method, and its place in the interleaving model. */
module OutputForwarder {
  import opened Bytes
  import opened Utf8
  import opened LogForwarding

  class OutputStream {
    var payloads: seq<seq<byte>>
    var closed: bool
  }

  class LogStream {
    var entries: seq<Entry>
  }

  /** What one turn meets: the result of Read, and whether the two writes would succeed. */
  datatype Turn = Turn(chunk: seq<byte>, then_: Outcome, writable: bool, loggable: bool)

  /** The turn is the last one of the loop. */
  predicate Stops(t: Turn) { !t.then_.More? || (t.chunk != [] && !t.writable) }

  predicate Ends(turns: seq<Turn>) { exists i :: 0 <= i < |turns| && Stops(turns[i]) }

  function WrittenIn(t: Turn): seq<seq<byte>> { if t.chunk != [] && t.writable then [t.chunk] else [] }

  /** The entry of a chunk, then that of a read error; an unwritable chunk stops the loop before both. */
  function LoggedIn(kind: Kind, t: Turn): seq<Entry> {
    if t.chunk != [] && !t.writable then []
    else
      (if t.chunk != [] && t.loggable then [Output(kind, Coerce(t.chunk))] else [])
      + (if t.then_.Broken? && t.loggable then [ReadError(kind)] else [])
  }

  /** The turns up to the first that stops the loop. */
  function Served(turns: seq<Turn>): (r: seq<Turn>)
    ensures r <= turns
  {
    if turns == [] then []
    else if Stops(turns[0]) then [turns[0]]
    else [turns[0]] + Served(turns[1..])
  }

  function Written(turns: seq<Turn>): seq<seq<byte>> {
    if turns == [] then [] else Written(turns[..|turns| - 1]) + WrittenIn(turns[|turns| - 1])
  }

  function Entries(kind: Kind, turns: seq<Turn>): seq<Entry> {
    if turns == [] then [] else Entries(kind, turns[..|turns| - 1]) + LoggedIn(kind, turns[|turns| - 1])
  }

  lemma {:induction false} ServedUpTo(turns: seq<Turn>, n: nat)
    requires n < |turns| && Stops(turns[n]) && forall i :: 0 <= i < n ==> !Stops(turns[i])
    ensures Served(turns) == turns[..n + 1]
    decreases n
  {
    if n > 0 {
      ServedUpTo(turns[1..], n - 1);
      assert turns[..n + 1] == [turns[0]] + turns[1..][..n];
    }
  }

  lemma {:induction false} ServedAll(turns: seq<Turn>)
    requires !Ends(turns)
    ensures Served(turns) == turns
  {
    if turns != [] {
      assert !Ends(turns[1..]) by {
        forall i | 0 <= i < |turns[1..]| ensures !Stops(turns[1..][i]) {
          assert turns[1..][i] == turns[i + 1];
        }
      }
      ServedAll(turns[1..]);
    }
  }

  /** After n turns, none of which stopped the loop. */
  ghost predicate Progress(kind: Kind, turns: seq<Turn>, n: nat, p: seq<seq<byte>>, e: seq<Entry>) {
    && n <= |turns| && (forall i :: 0 <= i < n ==> !Stops(turns[i]))
    && p == Written(turns[..n]) && e == Entries(kind, turns[..n])
  }

  lemma OneMore(kind: Kind, turns: seq<Turn>, n: nat, p: seq<seq<byte>>, e: seq<Entry>)
    requires n < |turns| && Progress(kind, turns, n, p, e)
    ensures var p1, e1 := p + WrittenIn(turns[n]), e + LoggedIn(kind, turns[n]);
            if Stops(turns[n]) then Ends(turns) && p1 == Written(Served(turns)) && e1 == Entries(kind, Served(turns))
            else Progress(kind, turns, n + 1, p1, e1)
  {
    assert turns[..n + 1][..n] == turns[..n];
    if Stops(turns[n]) {
      ServedUpTo(turns, n);
    }
  }

  lemma NoMore(kind: Kind, turns: seq<Turn>, p: seq<seq<byte>>, e: seq<Entry>)
    requires Progress(kind, turns, |turns|, p, e)
    ensures !Ends(turns) && p == Written(Served(turns)) && e == Entries(kind, Served(turns))
  {
    ServedAll(turns);
    assert turns[..|turns|] == turns;
  }

  /** forwardStdout and forwardStderr. The stream gets the chunks of the turns served, the log their
      entries, and the stream is closed when the loop returns; without an end it waits for more. */
  method Forward(kind: Kind, turns: seq<Turn>, stream: OutputStream, log: LogStream) returns (returned: bool)
    modifies stream, log
    ensures returned <==> Ends(turns)
    ensures stream.payloads == old(stream.payloads) + Written(Served(turns))
    ensures log.entries == old(log.entries) + Entries(kind, Served(turns))
    ensures stream.closed == (returned || old(stream.closed))
  {
    var n := 0;
    ghost var p, e := [], [];
    while n < |turns|
      invariant Progress(kind, turns, n, p, e)
      invariant stream.payloads == old(stream.payloads) + p
      invariant log.entries == old(log.entries) + e
      invariant stream.closed == old(stream.closed)
    {
      OneMore(kind, turns, n, p, e);
      returned := ServeTurn(kind, turns[n], stream, log);
      Assoc(old(stream.payloads), p, WrittenIn(turns[n]));
      Assoc(old(log.entries), e, LoggedIn(kind, turns[n]));
      if returned {
        return;
      }
      p, e := p + WrittenIn(turns[n]), e + LoggedIn(kind, turns[n]);
      n := n + 1;
    }
    NoMore(kind, turns, p, e);
    returned := false;
  }

  /** The body of the loop, and the deferred Close when it returns. */
  method ServeTurn(kind: Kind, t: Turn, stream: OutputStream, log: LogStream) returns (returned: bool)
    modifies stream, log
    ensures returned <==> Stops(t)
    ensures stream.payloads == old(stream.payloads) + WrittenIn(t)
    ensures log.entries == old(log.entries) + LoggedIn(kind, t)
    ensures stream.closed == (returned || old(stream.closed))
  {
    if t.chunk != [] {
      if !t.writable {
        stream.closed := true;
        return true;
      }
      stream.payloads := stream.payloads + [t.chunk];
      WriteLogEntry(log, Output(kind, Coerce(t.chunk)), t.loggable);
    }
    if t.then_.More? {
      return false;
    }
    if t.then_.Broken? {
      WriteLogEntry(log, ReadError(kind), t.loggable);
    }
    stream.closed := true;
    returned := true;
  }

  method WriteLogEntry(log: LogStream, e: Entry, works: bool)
    modifies log
    ensures log.entries == old(log.entries) + if works then [e] else []
  {
    if works {
      log.entries := log.entries + [e];
    }
  }

  // ---------- one turn as steps of the interleaving model ----------

  function ChunkSteps(kind: Kind, t: Turn): seq<Action> {
    if t.chunk == [] then [] else if t.writable then [Write(kind, true), Log(kind, t.loggable)]
        else [Write(kind, false)]
  }

  function ErrorSteps(kind: Kind, t: Turn): seq<Action> {
    if t.then_.Broken? && (t.chunk == [] || t.writable) then [Complain(kind, t.loggable)] else []
  }

  lemma ChunkRuns(s: Output, kind: Kind, t: Turn) returns (end: Output)
    requires Of(s, kind).pc == (if t.chunk != [] then Writing(t.chunk, t.then_) else LogForwarding.Turn(t.then_))
    ensures Runs(s, ChunkSteps(kind, t), end)
    ensures Of(end, kind).chunks == Of(s, kind).chunks + WrittenIn(t)
    ensures Of(end, kind).pc == if t.chunk != [] && !t.writable then Leaving else LogForwarding.Turn(t.then_)
    ensures end.log == s.log + if t.chunk != [] && t.writable && t.loggable then [Output(kind, Coerce(t.chunk))] else []
    ensures forall other :: other != kind ==> Of(end, other) == Of(s, other)
  {
    if t.chunk == [] {
      end := s;
    } else if t.writable {
      var mid := Apply(s, Write(kind, true));
      end := Apply(mid, Log(kind, t.loggable));
      assert Runs(mid, [Log(kind, t.loggable)], end);
      assert ChunkSteps(kind, t)[1..] == [Log(kind, t.loggable)];
    } else {
      end := Apply(s, Write(kind, false));
      assert Runs(s, [Write(kind, false)], end);
    }
  }

  lemma ErrorRuns(s: Output, kind: Kind, t: Turn) returns (end: Output)
    requires Of(s, kind).pc == if t.chunk != [] && !t.writable then Leaving else LogForwarding.Turn(t.then_)
    ensures Runs(s, ErrorSteps(kind, t), end)
    ensures Of(end, kind).chunks == Of(s, kind).chunks && Of(end, kind).pc == if Stops(t) then Leaving else Reading
    ensures end.log == s.log + if ErrorSteps(kind, t) != [] && t.loggable then [ReadError(kind)] else []
    ensures forall other :: other != kind ==> Of(end, other) == Of(s, other)
  {
    if ErrorSteps(kind, t) == [] {
      end := s;
    } else {
      end := Apply(s, Complain(kind, t.loggable));
      assert Runs(s, [Complain(kind, t.loggable)], end);
    }
  }

  /** A turn of the loop is a run of the interleaving model in which only this forwarder moves: it
      appends to the stream and to the log what the method appends, and stops where the method does. */
  lemma TurnIsARun(s: Output, kind: Kind, t: Turn) returns (end: Output)
    requires Of(s, kind).pc.Reading? && |t.chunk| <= BUFFER_SIZE
    ensures Runs(s, [Read(kind, t.chunk, t.then_)] + (ChunkSteps(kind, t) + ErrorSteps(kind, t)), end)
    ensures Of(end, kind).chunks == Of(s, kind).chunks + WrittenIn(t)
    ensures end.log == s.log + LoggedIn(kind, t)
    ensures Of(end, kind).pc == if Stops(t) then Leaving else Reading
    ensures forall other :: other != kind ==> Of(end, other) == Of(s, other)
  {
    var s1 := Apply(s, Read(kind, t.chunk, t.then_));
    var s2 := ChunkRuns(s1, kind, t);
    end := ErrorRuns(s2, kind, t);
    RunsJoin(s1, ChunkSteps(kind, t), s2, ErrorSteps(kind, t), end);
    assert ([Read(kind, t.chunk, t.then_)] + (ChunkSteps(kind, t) + ErrorSteps(kind, t)))[1..]
        == ChunkSteps(kind, t) + ErrorSteps(kind, t);
    Assoc(s.log, s2.log[|s.log|..], end.log[|s2.log|..]);
  }

  lemma {:induction false} RunsJoin(s: Output, a: seq<Action>, mid: Output, b: seq<Action>, end: Output)
    requires Runs(s, a, mid) && Runs(mid, b, end)
    ensures Runs(s, a + b, end)
    decreases |a|
  {
    if a == [] {
      assert a + b == b;
    } else {
      RunsJoin(Apply(s, a[0]), a[1..], mid, b, end);
      assert (a + b)[1..] == a[1..] + b;
    }
  }
}
