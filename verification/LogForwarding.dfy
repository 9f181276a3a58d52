/**
 The output of a run on the server: two forwarders copy stdout and stderr to their streams and into
 one shared log, in any interleaving, and the log is closed when both have finished. A log entry is
 a line of JSON, which holds text only.
 */
module LogForwarding {
  import opened Bytes
  import opened Utf8
  import opened Framing
  import MD = MuxDelivery
  import MR = MuxRun
  import SR = StreamReader

  const BUFFER_SIZE: nat := 4096

  datatype Kind = Stdout | Stderr

  /** What a Read of the process's output said besides its bytes. */
  datatype Outcome = More | Eof | Broken

  datatype Pc =
    | Reading
    | Writing(chunk: seq<byte>, then_: Outcome)    // before stream.Write
    | Logging(chunk: seq<byte>, then_: Outcome)    // before writeLogEntry
    | Complaining                                  // before the entry about a read error
    | Leaving                                      // before the deferred stream.Close
    | Gone                                         // has told the wait group

  datatype Entry = Output(kind: Kind, data: seq<byte>) | ReadError(kind: Kind)

  datatype Forwarder = Forwarder(
    pc: Pc,
    chunks: seq<seq<byte>>,    // written on the stream, one frame each
    closed: bool,              // the stream
    lost: bool)                // history: writing a log entry failed

  datatype Output = Forwarding(out: Forwarder, err: Forwarder, log: seq<Entry>, logClosed: bool)

  function Fresh(): Output {
    Forwarding(Forwarder(Reading, [], false, false), Forwarder(Reading, [], false, false), [], false)
  }

  function Of(s: Output, kind: Kind): Forwarder { if kind.Stdout? then s.out else s.err }

  function With(s: Output, kind: Kind, f: Forwarder): Output {
    if kind.Stdout? then s.(out := f) else s.(err := f)
  }

  datatype Action =
    | Read(kind: Kind, chunk: seq<byte>, then_: Outcome)
    | Write(kind: Kind, ok: bool)
    | Log(kind: Kind, ok: bool)
    | Complain(kind: Kind, ok: bool)
    | CloseStream(kind: Kind)
    | CloseLog

  predicate Enabled(s: Output, a: Action) {
    match a
    case Read(kind, chunk, _) => Of(s, kind).pc.Reading? && |chunk| <= BUFFER_SIZE
    case Write(kind, _) => Of(s, kind).pc.Writing?
    case Log(kind, _) => Of(s, kind).pc.Logging?
    case Complain(kind, _) => Of(s, kind).pc.Complaining?
    case CloseStream(kind) => Of(s, kind).pc.Leaving?
    case CloseLog => s.out.pc.Gone? && s.err.pc.Gone?
  }

  /** The end of a turn of the loop. */
  function Turn(then_: Outcome): Pc {
    match then_
    case More => Reading
    case Eof => Leaving
    case Broken => Complaining
  }

  function Apply(s: Output, a: Action): Output
    requires Enabled(s, a)
  {
    match a
    case Read(kind, chunk, then_) =>
      With(s, kind, Of(s, kind).(pc := if chunk != [] then Writing(chunk, then_) else Turn(then_)))
    case Write(kind, ok) =>
      var f := Of(s, kind);
      With(s, kind, if ok then f.(pc := Logging(f.pc.chunk, f.pc.then_), chunks := f.chunks + [f.pc.chunk])
                    else f.(pc := Leaving))
    case Log(kind, ok) =>
      var f := Of(s, kind);
      var next := f.(pc := Turn(f.pc.then_));
      if ok then With(s, kind, next).(log := s.log + [Output(kind, Coerce(f.pc.chunk))])
      else With(s, kind, next.(lost := true))
    case Complain(kind, ok) =>
      With(s, kind, Of(s, kind).(pc := Leaving)).(log := if ok then s.log + [ReadError(kind)] else s.log)
    case CloseStream(kind) => With(s, kind, Of(s, kind).(pc := Gone, closed := true))
    case CloseLog => s.(logClosed := true)
  }

  predicate Runs(s: Output, actions: seq<Action>, end: Output)
    decreases |actions|
  {
    if actions == [] then s == end
    else Enabled(s, actions[0]) && Runs(Apply(s, actions[0]), actions[1..], end)
  }

  /** The data of the log entries of one kind, in order. */
  function Logged(kind: Kind, log: seq<Entry>): seq<seq<byte>> {
    if log == [] then []
    else
      var last := log[|log| - 1];
      Logged(kind, log[..|log| - 1]) + if last.Output? && last.kind == kind then [last.data] else []
  }

  /** What the log holds of these chunks. */
  function AsText(chunks: seq<seq<byte>>): (r: seq<seq<byte>>)
    ensures |r| == |chunks|
  {
    seq(|chunks|, i requires 0 <= i < |chunks| => Coerce(chunks[i]))
  }

  // ---------- the merge ----------

  /** A chunk is logged right after it was written; streams are closed as the forwarders leave. */
  predicate ForwarderOk(f: Forwarder, logged: seq<seq<byte>>) {
    && (f.pc.Writing? || f.pc.Logging? ==> f.pc.chunk != [] && |f.pc.chunk| <= BUFFER_SIZE)
    && (f.pc.Gone? <==> f.closed)
    && (f.pc.Logging? ==> f.chunks != [] && f.chunks[|f.chunks| - 1] == f.pc.chunk)
    && (!f.lost ==> logged == AsText(if f.pc.Logging? then f.chunks[..|f.chunks| - 1] else f.chunks))
    && (forall i :: 0 <= i < |f.chunks| ==> f.chunks[i] != [] && |f.chunks[i]| <= BUFFER_SIZE)
  }

  predicate Inv(s: Output) {
    && ForwarderOk(s.out, Logged(Stdout, s.log))
    && ForwarderOk(s.err, Logged(Stderr, s.log))
    && (s.logClosed ==> s.out.pc.Gone? && s.err.pc.Gone?)
  }

  lemma LoggedSnoc(kind: Kind, log: seq<Entry>, e: Entry)
    ensures Logged(kind, log + [e]) == Logged(kind, log) + if e.Output? && e.kind == kind then [e.data] else []
  {
    assert (log + [e])[..|log + [e]| - 1] == log;
  }

  lemma AsTextSnoc(chunks: seq<seq<byte>>)
    requires chunks != []
    ensures AsText(chunks) == AsText(chunks[..|chunks| - 1]) + [Coerce(chunks[|chunks| - 1])]
  {
  }

  /** The step at which a forwarder's entry is in the log. */
  lemma LoggingOk(f: Forwarder, logged: seq<seq<byte>>)
    requires ForwarderOk(f, logged) && f.pc.Logging?
    ensures ForwarderOk(f.(pc := Turn(f.pc.then_)), logged + [Coerce(f.pc.chunk)])
    ensures ForwarderOk(f.(pc := Turn(f.pc.then_), lost := true), logged)
  {
    AsTextSnoc(f.chunks);
  }

  lemma InvLog(s: Output, kind: Kind, ok: bool)
    requires Inv(s) && Enabled(s, Log(kind, ok))
    ensures Inv(Apply(s, Log(kind, ok)))
  {
    LoggingOk(Of(s, kind), Logged(kind, s.log));
    if ok {
      var e := Output(kind, Coerce(Of(s, kind).pc.chunk));
      LoggedSnoc(Stdout, s.log, e);
      LoggedSnoc(Stderr, s.log, e);
      var other := if kind.Stdout? then Stderr else Stdout;
      assert Logged(other, s.log) + [] == Logged(other, s.log);
    }
  }

  lemma InvWrite(s: Output, kind: Kind, ok: bool)
    requires Inv(s) && Enabled(s, Write(kind, ok))
    ensures Inv(Apply(s, Write(kind, ok)))
  {
    var f := Of(s, kind);
    var chunks := f.chunks + [f.pc.chunk];
    assert chunks[..|f.chunks|] == f.chunks;
    assert chunks[|chunks| - 1] == f.pc.chunk;
  }

  lemma InvComplain(s: Output, kind: Kind, ok: bool)
    requires Inv(s) && Enabled(s, Complain(kind, ok))
    ensures Inv(Apply(s, Complain(kind, ok)))
  {
    LoggedSnoc(Stdout, s.log, ReadError(kind));
    LoggedSnoc(Stderr, s.log, ReadError(kind));
    assert Logged(Stdout, s.log) + [] == Logged(Stdout, s.log);
    assert Logged(Stderr, s.log) + [] == Logged(Stderr, s.log);
  }

  /** The steps that neither write nor log. */
  lemma InvOther(s: Output, a: Action)
    requires Inv(s) && Enabled(s, a) && (a.Read? || a.CloseStream? || a.CloseLog?)
    ensures Inv(Apply(s, a))
  {
  }

  lemma InvStep(s: Output, a: Action)
    requires Inv(s) && Enabled(s, a)
    ensures Inv(Apply(s, a))
  {
    match a
    case Write(kind, ok) => InvWrite(s, kind, ok);
    case Log(kind, ok) => InvLog(s, kind, ok);
    case Complain(kind, ok) => InvComplain(s, kind, ok);
    case _ => InvOther(s, a);
  }

  lemma {:induction false} InvRun(s: Output, actions: seq<Action>, end: Output)
    requires Inv(s) && Runs(s, actions, end)
    ensures Inv(end)
    decreases |actions|
  {
    if actions != [] {
      InvStep(s, actions[0]);
      InvRun(Apply(s, actions[0]), actions[1..], end);
    }
  }

  predicate AllText(chunks: seq<seq<byte>>) { forall i :: 0 <= i < |chunks| ==> Valid(chunks[i]) }

  lemma {:induction false} FlattenText(chunks: seq<seq<byte>>)
    ensures |Flatten(AsText(chunks))| >= |Flatten(chunks)|
    ensures Flatten(AsText(chunks)) == Flatten(chunks) <==> AllText(chunks)
    ensures |Flatten(AsText(chunks))| == |Flatten(chunks)| <==> AllText(chunks)
  {
    if chunks != [] {
      FlattenText(chunks[1..]);
      CoerceKeepsValid(chunks[0]);
      assert AsText(chunks)[1..] == AsText(chunks[1..]);
      assert AllText(chunks) <==> Valid(chunks[0]) && AllText(chunks[1..]);
      TwoParts(Coerce(chunks[0]), Flatten(AsText(chunks[1..])), chunks[0], Flatten(chunks[1..]));
    }
  }

  lemma TwoParts(a: seq<byte>, b: seq<byte>, c: seq<byte>, d: seq<byte>)
    requires |a| >= |c| && |b| >= |d|
    ensures a + b == c + d ==> |a| == |c| && |b| == |d|
    ensures a == c && b == d ==> a + b == c + d
  {
    assert a + b == c + d ==> |a + b| == |c + d|;
  }

  /** The log is a merge of the two outputs. When it is closed, both output streams are closed and,
      if no log entry failed to be written, the entries of each kind are the chunks written on that
      stream, one entry a chunk, in order, as text - and their bytes are exactly the bytes written
      if and only if every chunk is valid UTF-8 by itself. */
  lemma LogIsMerge(actions: seq<Action>, end: Output, kind: Kind)
    requires Runs(Fresh(), actions, end) && end.logClosed && !Of(end, kind).lost
    ensures end.out.closed && end.err.closed
    ensures Logged(kind, end.log) == AsText(Of(end, kind).chunks)
    ensures Flatten(Logged(kind, end.log)) == Flatten(Of(end, kind).chunks) <==> AllText(Of(end, kind).chunks)
  {
    InvRun(Fresh(), actions, end);
    FlattenText(Of(end, kind).chunks);
  }

  lemma {:induction false} ClosedStays(s: Output, actions: seq<Action>, end: Output)
    requires Inv(s) && s.logClosed && Runs(s, actions, end)
    ensures end == s
    decreases |actions|
  {
    if actions != [] {
      assert Apply(s, actions[0]) == s;
      ClosedStays(s, actions[1..], end);
    }
  }

  /** Nothing is logged or written once the log is closed. */
  lemma NothingAfterClose(before: seq<Action>, s: Output, after: seq<Action>, end: Output)
    requires Runs(Fresh(), before, s) && s.logClosed && Runs(s, after, end)
    ensures end == s
  {
    InvRun(Fresh(), before, s);
    ClosedStays(s, after, end);
  }

  // ---------- which outputs are always logged exactly ----------

  /** The chunks of an output that is read byte by byte. */
  function Singles(bytes: seq<byte>): seq<seq<byte>> {
    if bytes == [] then [] else [[bytes[0]]] + Singles(bytes[1..])
  }

  lemma {:induction false} SinglesAreText(bytes: seq<byte>)
    ensures Flatten(Singles(bytes)) == bytes
    ensures AllText(Singles(bytes)) <==> forall i :: 0 <= i < |bytes| ==> bytes[i] < 0x80
  {
    if bytes != [] {
      var c := Singles(bytes);
      SinglesAreText(bytes[1..]);
      assert c[0] == [bytes[0]] && c[1..] == Singles(bytes[1..]);
      assert AllText(c) <==> Valid(c[0]) && AllText(c[1..]);
      LoneByte(bytes[0]);
      assert forall i :: 0 < i < |bytes| ==> bytes[i] == bytes[1..][i - 1];
    }
  }

  lemma LoneByte(b: byte)
    ensures Valid([b]) <==> b < 0x80
  {
    if b < 0x80 {
      assert [b][1..] == [];
    }
  }

  lemma {:induction false} AsciiChunks(chunks: seq<seq<byte>>)
    requires forall i :: 0 <= i < |Flatten(chunks)| ==> Flatten(chunks)[i] < 0x80
    ensures AllText(chunks)
  {
    if chunks != [] {
      var first, rest := chunks[0], Flatten(chunks[1..]);
      assert forall i :: 0 <= i < |first| ==> first[i] == Flatten(chunks)[i];
      assert forall i :: 0 <= i < |rest| ==> rest[i] == Flatten(chunks)[|first| + i];
      AsciiIsValid(first);
      AsciiChunks(chunks[1..]);
      assert forall i :: 0 < i < |chunks| ==> chunks[i] == chunks[1..][i - 1];
    }
  }

  lemma Step(s: Output, a: Action, actions: seq<Action>, end: Output)
    requires Enabled(s, a) && Runs(Apply(s, a), actions, end)
    ensures Runs(s, [a] + actions, end)
  {
    assert ([a] + actions)[1..] == actions;
  }

  /** A chunk is forwarded and logged; then the run goes on. */
  lemma TurnRuns(s: Output, kind: Kind, chunk: seq<byte>) returns (mid: Output)
    requires Of(s, kind).pc.Reading? && 0 < |chunk| <= BUFFER_SIZE && !s.logClosed
    ensures mid == With(s, kind, Of(s, kind).(chunks := Of(s, kind).chunks + [chunk])).(log := s.log + [Output(kind,
              Coerce(chunk))])
    ensures forall more, end :: Runs(mid, more, end) ==>
              Runs(s, [Read(kind, chunk, More)] + ([Write(kind, true)] + ([Log(kind, true)] + more)), end)
  {
    var s1 := Apply(s, Read(kind, chunk, More));
    var s2 := Apply(s1, Write(kind, true));
    mid := Apply(s2, Log(kind, true));
    forall more, end | Runs(mid, more, end)
      ensures Runs(s, [Read(kind, chunk, More)] + ([Write(kind, true)] + ([Log(kind, true)] + more)), end)
    {
      Step(s2, Log(kind, true), more, end);
      Step(s1, Write(kind, true), [Log(kind, true)] + more, end);
      Step(s, Read(kind, chunk, More), [Write(kind, true)] + ([Log(kind, true)] + more), end);
    }
  }

  /** The other kind ends without output, and so does this one. */
  lemma EndRuns(s: Output, kind: Kind) returns (actions: seq<Action>, end: Output)
    requires s.out.pc.Reading? && s.err.pc.Reading? && !s.logClosed
    ensures Runs(s, actions, end) && end.logClosed && end.log == s.log
    ensures Of(end, kind).chunks == Of(s, kind).chunks && Of(end, kind).lost == Of(s, kind).lost
  {
    var s1 := Apply(s, Read(Stdout, [], Eof));
    var s2 := Apply(s1, Read(Stderr, [], Eof));
    var s3 := Apply(s2, CloseStream(Stdout));
    var s4 := Apply(s3, CloseStream(Stderr));
    end := Apply(s4, CloseLog);
    Step(s4, CloseLog, [], end);
    Step(s3, CloseStream(Stderr), [CloseLog], end);
    Step(s2, CloseStream(Stdout), [CloseStream(Stderr)] + [CloseLog], end);
    var last := [CloseStream(Stdout)] + ([CloseStream(Stderr)] + [CloseLog]);
    Step(s1, Read(Stderr, [], Eof), last, end);
    Step(s, Read(Stdout, [], Eof), [Read(Stderr, [], Eof)] + last, end);
    actions := [Read(Stdout, [], Eof)] + ([Read(Stderr, [], Eof)] + last);
  }

  lemma {:induction false} SinglesRun(s: Output, kind: Kind, bytes: seq<byte>)
    returns (actions: seq<Action>, end: Output)
    requires s.out.pc.Reading? && s.err.pc.Reading? && !s.logClosed
    ensures Runs(s, actions, end) && end.logClosed
    ensures Of(end, kind).chunks == Of(s, kind).chunks + Singles(bytes) && Of(end, kind).lost == Of(s, kind).lost
    decreases |bytes|
  {
    if bytes == [] {
      actions, end := EndRuns(s, kind);
      assert Of(s, kind).chunks + [] == Of(s, kind).chunks;
    } else {
      var mid := TurnRuns(s, kind, [bytes[0]]);
      actions, end := SinglesRun(mid, kind, bytes[1..]);
      actions := [Read(kind, [bytes[0]], More)] + ([Write(kind, true)] + ([Log(kind, true)] + actions));
      Assoc(Of(s, kind).chunks, [[bytes[0]]], Singles(bytes[1..]));
    }
  }

  /** However this output is cut up by the reads, the log holds exactly it, unless an entry is not written. */
  ghost predicate AlwaysLogged(kind: Kind, output: seq<byte>) {
    forall actions, end ::
      Runs(Fresh(), actions, end) && end.logClosed && !Of(end, kind).lost && Flatten(Of(end, kind).chunks) == output
      ==> Flatten(Logged(kind, end.log)) == output
  }

  /** That is so if and only if the output is ASCII. */
  lemma AlwaysLoggedIff(kind: Kind, output: seq<byte>)
    ensures AlwaysLogged(kind, output) <==> forall i :: 0 <= i < |output| ==> output[i] < 0x80
  {
    if forall i :: 0 <= i < |output| ==> output[i] < 0x80 {
      forall actions, end | Runs(Fresh(), actions, end) && end.logClosed && !Of(end, kind).lost
                            && Flatten(Of(end, kind).chunks) == output
        ensures Flatten(Logged(kind, end.log)) == output
      {
        LogIsMerge(actions, end, kind);
        AsciiChunks(Of(end, kind).chunks);
      }
    } else {
      var actions, end := SinglesRun(Fresh(), kind, output);
      assert Of(end, kind).chunks == Singles(output);
      SinglesAreText(output);
      LogIsMerge(actions, end, kind);
    }
  }

  /** A character that falls between two reads is lost from the log, though the output is valid text: an e
      with an acute accent, for instance. */
  lemma SplitCharacterIsLost(kind: Kind)
    ensures Valid([0xC3, 0xA9]) && !AlwaysLogged(kind, [0xC3, 0xA9])
  {
    AlwaysLoggedIff(kind, [0xC3, 0xA9]);
    assert Width([0xC3, 0xA9]) == 2;
    assert [0xC3, 0xA9][0] == 0xC3;
  }

  // ---------- the client's end of an output stream ----------

  /** The payloads the forwarder's stream carries: its chunks and, once closed, the marker. */
  function Payloads(f: Forwarder): seq<seq<byte>> { f.chunks + if f.closed then [[]] else [] }

  /** Output reaches the client. However the connection cuts up and mixes the frames of this and other
      streams, everything the forwarder writes can be transmitted, and as long as nothing is put behind a
      torn frame, what the client has read is a beginning of it. The client sees the end of the output
      only after having read all of it and after the forwarder closed the stream - or because the
      connection ended at a frame boundary. */
  lemma OutputReachesClient(actions: seq<Action>, s: Output, kind: Kind,
                            mux: seq<MR.Action>, m: MR.Mux, id: uint32)
    requires Runs(Fresh(), actions, s) && id != 0
    requires MR.Runs(MR.Start(), mux, m) && !m.outOfStep && MR.On(id, m.sent) == Payloads(Of(s, kind))
    ensures forall p :: p in Payloads(Of(s, kind)) ==> Transmittable(Frame(id, p))
    ensures SR.WellEnded(Payloads(Of(s, kind)))
    ensures var r := MR.StreamOf(m, id);
            && r.returned <= Flatten(Of(s, kind).chunks)
            && (r.eofs > 0 ==>
                  || (Of(s, kind).closed && r.returned == Flatten(Of(s, kind).chunks))
                  || MD.EndedAtBoundary(m))
  {
    InvRun(Fresh(), actions, s);
    PayloadsAreGood(Of(s, kind), Logged(kind, s.log), id);
    ClientReads(Payloads(Of(s, kind)), mux, m, id);
  }

  lemma PayloadsAreGood(f: Forwarder, logged: seq<seq<byte>>, id: uint32)
    requires ForwarderOk(f, logged) && id != 0
    ensures forall p :: p in Payloads(f) ==> Transmittable(Frame(id, p))
    ensures SR.WellEnded(Payloads(f)) && (SR.Ended(Payloads(f)) ==> f.closed)
    ensures Flatten(Payloads(f)) == Flatten(f.chunks)
  {
    FlattenAppend(f.chunks, if f.closed then [[]] else []);
    FlattenSingle([]);
  }

  lemma ClientReads(payloads: seq<seq<byte>>, mux: seq<MR.Action>, m: MR.Mux, id: uint32)
    requires MR.Runs(MR.Start(), mux, m) && !m.outOfStep && MR.On(id, m.sent) == payloads
    ensures var r := MR.StreamOf(m, id);
            && r.returned <= Flatten(payloads)
            && (r.eofs > 0 ==> (SR.Ended(payloads) && r.returned == Flatten(payloads)) || MD.EndedAtBoundary(m))
  {
    MD.EndToEnd(mux, m, id);
    MD.EndOfFile(mux, m, id);
  }
}
