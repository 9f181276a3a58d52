/**
 The multiplexer as an object: its streams, ID allocation, writeData and readLoop. The methods run
 without interference; MuxRun and StreamSafety treat the interleavings.
 */
module Multiplexer {
  import opened Bytes
  import opened Framing
  import opened Connection
  import SR = StreamReader
  import opened MuxRun
  import opened StreamIds

  datatype ReadResult =
    | Data(bytes: seq<byte>)
    | Eof
    | Failed
    | Blocked

  class Stream {
    const id: uint32
    var dataChan: seq<seq<byte>>
    var chanClosed: bool
    var errChan: SR.ErrSlot  // the error of the connection, io.EOF or another
    var closed: bool
    var eofReceived: bool
    var buffer: seq<byte>
    var signalled: bool      // Stream.closed, the channel
    var writerClosed: bool

    constructor (id: uint32)
      ensures this.id == id && State() == SR.Fresh() && !signalled && !writerClosed
    {
      this.id := id;
      signalled, writerClosed := false, false;
      dataChan, chanClosed, errChan, closed, eofReceived, buffer := [], false, SR.Vacant, false, false, [];
    }

    /** The stream as a state of the interleaving model, with no call in progress and no history. */
    ghost function State(): SR.Reader
      reads this
    {
      SR.Fresh().(queue := dataChan, chanClosed := chanClosed, closed := closed, buffer := buffer,
                  error := errChan)
    }

    /** This object is where a run of caller 0 ended, and the call returned what the run returned. */
    ghost predicate Reached(end: SR.Reader, r: ReadResult)
      reads this
    {
      && dataChan == end.queue && chanClosed == end.chanClosed && closed == end.closed
      && buffer == end.buffer && errChan == end.error
      && end.returned == (if r.Data? then r.bytes else [])
      && end.eofs == (if r.Eof? then 1 else 0)
      && (r.Blocked? <==> !SR.PcOf(end, 0).Idle?)
    }

    /** The call is caller 0's run of the interleaving model, undisturbed, from the old state. */
    method Read(max: nat) returns (r: ReadResult)
      modifies this
      ensures Reached(SR.ReadAlone(old(State()), max), r)
    {
      if buffer != [] {
        var n := Min(max, |buffer|);
        r := Data(buffer[..n]);
        buffer := buffer[n..];
      } else if closed {
        r := DrainClosed(max);
      } else {
        r := Select(max);
      }
    }

    /** Read of a closed stream: frames still queued come first; the marker only hides the end. */
    method DrainClosed(max: nat) returns (r: ReadResult)
      requires buffer == [] && closed
      modifies this
      ensures Reached(SR.Solo(old(State()).(pcs := map[0 := SR.Drain(max)])), r)
    {
      ghost var s := State().(pcs := map[0 := SR.Drain(max)]);
      if dataChan == [] {
        assert SR.Solo(s) == SR.Apply(s, SR.Receive(0));
        return Eof;
      }
      var data := dataChan[0];
      dataChan := dataChan[1..];
      if data == [] {
        ghost var next := SR.Apply(s, SR.Receive(0));
        assert SR.Solo(s) == SR.Solo(next);
        r := DrainBehindMarker(max, next);
      } else {
        SR.SoloData(s);
        r := Deliver(max, data);
      }
    }

    method DrainBehindMarker(max: nat, ghost s: SR.Reader) returns (r: ReadResult)
      requires !s.panicked && SR.PcOf(s, 0) == SR.DrainMore(max) && s.returned == [] && s.eofs == 0
      requires buffer == s.buffer == [] && closed == s.closed && dataChan == s.queue
      requires chanClosed == s.chanClosed && errChan == s.error
      modifies this
      ensures Reached(SR.Solo(s), r)
    {
      if dataChan == [] || dataChan[0] == [] {
        assert SR.Solo(s) == SR.Apply(s, SR.Receive(0));
        dataChan := if dataChan == [] then [] else dataChan[1..];
        return Eof;
      }
      SR.SoloData(s);
      var more := dataChan[0];
      dataChan := dataChan[1..];
      r := Deliver(max, more);
    }

    /** Read of an open stream: the non-blocking select, then the blocking one. */
    method Select(max: nat) returns (r: ReadResult)
      requires buffer == [] && !closed
      modifies this
      ensures Reached(SR.Solo(old(State()).(pcs := map[0 := SR.Poll(max)])), r)
    {
      ghost var s := State().(pcs := map[0 := SR.Poll(max)]);
      ghost var next := SR.Apply(s, SR.Receive(0));
      assert SR.Solo(s) == SR.Solo(next);
      if dataChan == [] {
        if chanClosed {
          return Eof;
        }
        match errChan
        case Vacant => return Blocked;
        case Holds(eof) =>
          errChan := SR.Vacant;
          return if eof then Eof else Failed;
      }
      var data := dataChan[0];
      dataChan := dataChan[1..];
      if data == [] {
        SR.SoloMarker(s);
        closed, chanClosed := true, true;
        return Eof;
      }
      SR.SoloData(s);
      r := Deliver(max, data);
    }

    /** copy(p, data), keeping what does not fit. */
    method Deliver(max: nat, data: seq<byte>) returns (r: ReadResult)
      requires buffer == []
      modifies this`buffer
      ensures r == Data(data[..Min(max, |data|)]) && buffer == data[Min(max, |data|)..]
    {
      var n := Min(max, |data|);
      if n < |data| {
        buffer := data[n..];
      }
      r := Data(data[..n]);
    }

    ghost predicate Valid()
      reads this
    {
      chanClosed ==> closed
    }

    /** What Stream.Close does: nothing can be written or queued any more, and what is queued can still
        be read. The second time it does nothing. */
    twostate predicate Shut()
      reads this
    {
      && signalled && dataChan == old(dataChan) && buffer == old(buffer) && errChan == old(errChan)
      && if old(signalled) then closed == old(closed) && chanClosed == old(chanClosed)
          && writerClosed == old(writerClosed)
         else closed && writerClosed && chanClosed == (old(chanClosed) || !old(closed))
    }

    /** WriteData without interference: check, then send; a full channel would block here. */
    method WriteData(data: seq<byte>) returns (done: bool)
      requires Valid()
      modifies this`dataChan, this`eofReceived
      ensures done <==> old(closed) || |old(dataChan)| < SR.CAPACITY
      ensures dataChan == if !old(closed) && done then old(dataChan) + [data] else old(dataChan)
    {
      if closed {
        return true;
      }
      if data == [] {
        eofReceived := true;
      }
      if |dataChan| >= SR.CAPACITY {
        return false;
      }
      dataChan := dataChan + [data];
      done := true;
    }

    /** WriteError, with io.EOF or another error: the first is kept, and only while the stream is open. */
    method WriteError(eof: bool)
      modifies this`errChan
      ensures errChan == if closed || old(errChan).Holds? then old(errChan) else SR.Holds(eof)
    {
      if !closed && errChan.Vacant? {
        errChan := SR.Holds(eof);
      }
    }

    method CloseReader()
      requires Valid()
      modifies this`closed, this`chanClosed
      ensures closed && Valid() && (old(closed) ==> chanClosed == old(chanClosed)) && (!old(closed) ==> chanClosed)
    {
      var wasClosed := closed;
      closed := true;
      if !wasClosed {
        chanClosed := true;
      }
    }
  }

  datatype OpenResult =
    | Opened(stream: Stream)
    | ClosedPipe
    | InvalidStreamID
    | AlreadyExists

  datatype Fetched =
    | Got(frame: Frame)
    | HeaderFailed(eof: bool)
    | Abandoned

  class Multiplexer {
    const conn: Conn
    var streams: map<uint32, Stream>
    var nextID: uint32
    var closed: bool
    var readErr: bool

    constructor (conn: Conn)
      ensures this.conn == conn && streams == map[] && nextID == 1 && !closed && !readErr
    {
      this.conn, streams, nextID, closed, readErr := conn, map[], 1, false, false;
    }

    /** OpenStream takes the first free ID of the cyclic search; it answers ID 0 exactly when the
        search starts at 0 and the control stream does not exist. Nothing else in the map changes. */
    method OpenStream() returns (r: OpenResult)
      requires exists id :: Obtainable(streams.Keys, nextID, id)
      modifies this`streams, this`nextID
      ensures r.ClosedPipe? <==> closed
      ensures r.ClosedPipe? ==> streams == old(streams) && nextID == old(nextID)
      ensures !r.ClosedPipe? ==>
                && r.Opened? && fresh(r.stream) && r.stream.State() == SR.Fresh()
                && FirstFree(old(streams).Keys, old(nextID), r.stream.id)
                && streams == old(streams)[r.stream.id := r.stream]
                && nextID == (r.stream.id + 1) % TWO_TO_THE_32
                && (r.stream.id == 0 <==> old(nextID) == 0 && 0 !in old(streams))
    {
      if closed {
        return ClosedPipe;
      }
      ghost var goal: uint32 :| Obtainable(streams.Keys, nextID, goal);
      ghost var n: nat := 0;
      while nextID in streams
        invariant streams == old(streams)
        invariant nextID == Candidate(old(nextID), n)
        invariant forall k :: 0 <= k < n ==> Candidate(old(nextID), k) in streams.Keys
        invariant goal != 0 || nextID == 0
        invariant nextID == 0 ==> n == 0
        decreases Distance(nextID, goal)
      {
        if goal != 0 {
          SuccessorIsCloser(nextID, goal);
        }
        nextID := (nextID + 1) % TWO_TO_THE_32;
        if nextID == 0 {
          nextID := 1;
        }
        n := n + 1;
      }
      var id := nextID;
      assert FirstFree(streams.Keys, old(nextID), id);
      nextID := (nextID + 1) % TWO_TO_THE_32;
      var stream := new Stream(id);
      streams := streams[id := stream];
      r := Opened(stream);
    }

    method ControlStream() returns (r: OpenResult)
      modifies this`streams
      ensures r.ClosedPipe? <==> closed
      ensures r.ClosedPipe? ==> streams == old(streams)
      ensures !r.ClosedPipe? ==>
                && r.Opened?
                && (0 in old(streams) ==> r.stream == old(streams)[0] && streams == old(streams))
                && (0 !in old(streams) ==>
                      && fresh(r.stream) && r.stream.id == 0
                      && streams == old(streams)[0 := r.stream])
    {
      if closed {
        return ClosedPipe;
      }
      if 0 in streams {
        return Opened(streams[0]);
      }
      var stream := new Stream(0);
      streams := streams[0 := stream];
      r := Opened(stream);
    }

    method OpenStreamWithID(requested: uint32) returns (r: OpenResult)
      modifies this`streams, this`nextID
      ensures r.ClosedPipe? <==> closed
      ensures r.InvalidStreamID? <==> !closed && requested == 0
      ensures r.AlreadyExists? <==> !closed && requested != 0 && requested in old(streams)
      ensures !r.Opened? ==> streams == old(streams) && nextID == old(nextID)
      ensures r.Opened? ==>
                && fresh(r.stream) && r.stream.id == requested && r.stream.State() == SR.Fresh()
                && streams == old(streams)[requested := r.stream]
                && nextID == (if requested >= old(nextID) then (requested + 1) % TWO_TO_THE_32 else old(nextID))
    {
      if closed {
        return ClosedPipe;
      }
      if requested == 0 {
        return InvalidStreamID;
      }
      if requested in streams {
        return AlreadyExists;
      }
      var stream := new Stream(requested);
      streams := streams[requested := stream];
      if requested >= nextID {
        nextID := (requested + 1) % TWO_TO_THE_32;
      }
      r := Opened(stream);
    }

    /** Writes one frame, header and payload, or nothing when the payload is refused or the
        multiplexer is closed. A failure leaves a prefix of the frame on the wire. */
    method WriteData(id: uint32, data: seq<byte>) returns (ok: bool)
      modifies conn`wire
      ensures Refused(Frame(id, data)) || closed ==> !ok && conn.wire == old(conn.wire)
      ensures ok ==> conn.wire == old(conn.wire) + Encode(Frame(id, data))
      ensures exists k ::
                && 0 <= k <= |Encode(Frame(id, data))|
                && conn.wire == old(conn.wire) + Encode(Frame(id, data))[..k]
      ensures !ok && !conn.lateErrors ==>
                exists k :: 0 <= k < |Encode(Frame(id, data))|
                    && conn.wire == old(conn.wire) + Encode(Frame(id, data))[..k]
    {
      ghost var frame := Encode(Frame(id, data));
      assert conn.wire == old(conn.wire) + frame[..0];
      if Refused(Frame(id, data)) {
        return false;
      }
      if closed {
        return false;
      }
      var header := PutUint32(id) + PutUint32(|data| % TWO_TO_THE_32);
      assert frame == header + data;
      ok := conn.WriteFull(header);
      if !ok {
        PrefixOfFirst(old(conn.wire), header, data, conn.wire, conn.lateErrors);
        return;
      }
      ok := conn.WriteFull(data);
      if !ok {
        PrefixOfSecond(old(conn.wire), header, data, conn.wire, conn.lateErrors);
        return;
      }
      Assoc(old(conn.wire), header, data);
      assert frame[..|frame|] == frame;
    }

    ghost predicate Valid()
      reads this`streams, streams.Values
    {
      && (forall id :: id in streams ==> streams[id].Valid())
      && (forall i, j :: i in streams && j in streams && i != j ==> streams[i] != streams[j])
    }

    /** Write on a stream: refused once the writer is closed, otherwise one frame. */
    method Write(stream: Stream, p: seq<byte>) returns (n: nat, ok: bool)
      modifies conn`wire
      ensures stream.writerClosed ==> !ok && conn.wire == old(conn.wire)
      ensures ok ==> n == |p| && conn.wire == old(conn.wire) + Encode(Frame(stream.id, p))
      ensures !ok ==> n == 0
    {
      if stream.writerClosed {
        return 0, false;
      }
      ok := WriteData(stream.id, p);
      n := if ok then |p| else 0;
    }

    /** CloseStream takes the stream out of the map, closes its reader, sends the end-of-file marker if
        it can, and only then closes the writer: no later Write puts anything behind the marker. */
    method CloseStream(id: uint32) returns (found: bool, first: bool)
      requires Valid()
      modifies this`streams, conn`wire, if id in streams then {streams[id]} else {}
      ensures found <==> id in old(streams)
      ensures streams == old(streams) - {id}
      ensures found ==> var s := old(streams)[id];
                && first == !old(s.signalled) && s.signalled
                && (first ==> s.closed && s.writerClosed)
                && s.dataChan == old(s.dataChan) && s.buffer == old(s.buffer)
      ensures !first ==> conn.wire == old(conn.wire)
      ensures found && first ==>
                var marker := Encode(Frame(old(streams)[id].id, []));
                exists k :: 0 <= k <= |marker| && conn.wire == old(conn.wire) + marker[..k]
    {
      if id !in streams {
        assert streams - {id} == streams;
        return false, false;
      }
      var s := streams[id];
      streams := streams - {id};
      found := true;
      if s.signalled {
        return true, false;
      }
      s.signalled := true;
      s.CloseReader();
      var _ := WriteData(s.id, []);
      s.writerClosed := true;
      first := true;
    }

    /** Stream.Close on a stream of a multiplexer that is being closed: the marker is refused. */
    method CloseOne(s: Stream)
      requires s.Valid() && closed
      modifies s, conn`wire
      ensures conn.wire == old(conn.wire) && s.Valid() && s.Shut()
    {
      if s.signalled {
        return;
      }
      s.signalled := true;
      s.CloseReader();
      var _ := WriteData(s.id, []);
      s.writerClosed := true;
    }

    /** Close, in whatever order the map yields its streams: every stream is closed, and no marker goes
        out, so that the end of the connection is all the peer sees. */
    method Close()
      requires Valid()
      modifies this`closed, conn`wire, streams.Values
      ensures closed && streams == old(streams) && conn.wire == old(conn.wire) && Valid()
      ensures forall id :: id in streams ==>
                if old(closed) then unchanged(streams[id]) else streams[id].Shut()
    {
      if closed {
        return;
      }
      closed := true;
      var todo := streams.Keys;
      while todo != {}
        invariant closed && streams == old(streams) && todo <= streams.Keys && Valid() && conn.wire == old(conn.wire)
        invariant forall id :: id in todo ==> unchanged(streams[id])
        invariant forall id :: id in streams && id !in todo ==> streams[id].Shut()
      {
        var id :| id in todo;
        todo := todo - {id};
        CloseOne(streams[id]);
      }
    }

    /** The stream of an incoming frame, created if there is none. */
    method Lookup(id: uint32) returns (s: Stream)
      requires Valid()
      modifies this`streams
      ensures Valid() && id in streams && streams[id] == s
      ensures if id in old(streams) then streams == old(streams)
              else fresh(s) && s.State() == SR.Fresh() && streams == old(streams)[id := s]
    {
      if id !in streams {
        var created := new Stream(id);
        streams := streams[id := created];
      }
      s := streams[id];
    }

    /** The streams as values. */
    ghost function View(): Views
      reads this`streams, streams.Values
    {
      map id | id in streams :: StreamView(streams[id].dataChan, streams[id].closed, streams[id].errChan)
    }

    /** The body of readLoop from the routing on. */
    method Route(f: Frame) returns (done: bool)
      requires Valid()
      modifies this`streams, streams.Values
      ensures Valid() && f.id in streams
      ensures streams == if f.id in old(streams) then old(streams) else old(streams)[f.id := streams[f.id]]
      ensures f.id in old(streams) || fresh(streams[f.id])
      ensures done ==> View() == RouteView(old(View()), f)
    {
      var stream := Lookup(f.id);
      done := stream.WriteData(f.payload);
    }

    /** WriteError on every stream of the map. */
    method NotifyAll(eof: bool)
      requires Valid()
      modifies set id | id in streams :: streams[id]
      ensures Valid() && View() == NotifyView(old(View()), eof)
    {
      var todo := streams.Keys;
      while todo != {}
        invariant Valid() && todo <= streams.Keys
        invariant forall id :: id in streams ==>
                    && streams[id].dataChan == old(streams[id].dataChan)
                        && streams[id].closed == old(streams[id].closed)
                    && streams[id].errChan ==
                       if id in todo || streams[id].closed || old(streams[id].errChan).Holds?
                           then old(streams[id].errChan)
                       else SR.Holds(eof)
      {
        var id :| id in todo;
        todo := todo - {id};
        streams[id].WriteError(eof);
      }
    }

    /** The body of readLoop up to the routing. */
    method ReadFrame() returns (r: Fetched)
      modifies conn`incoming
      ensures var p := Parse(old(conn.incoming));
              && (r.HeaderFailed? <==> |old(conn.incoming)| < HEADER_SIZE)
              && (r.HeaderFailed? ==> r.eof == (old(conn.incoming) == []))
              && (r.Got? <==> p.Whole? && !Refused(p.frame))
              && (r.Got? ==> r.frame == p.frame && conn.incoming == p.rest)
    {
      ghost var bytes := conn.incoming;
      var header, headerOk := conn.ReadFull(HEADER_SIZE);
      if !headerOk {
        return HeaderFailed(header == []);
      }
      assert header[..4] == bytes[..4] && header[4..8] == bytes[4..8];
      var id, length := Uint32(header[..4]), Uint32(header[4..8]);
      if length == GET_LENGTH {
        return Abandoned;
      }
      var data, dataOk := conn.ReadFull(length);
      if !dataOk {
        return Abandoned;
      }
      assert bytes[8..][..length] == bytes[8..8 + length] && bytes[8..][length..] == bytes[8 + length..];
      if id == 0 && LooksLikeHttp(data) {
        return Abandoned;
      }
      r := Got(Frame(id, data));
    }

    /** What readLoop, having read all of `bytes` and met the end of the connection, tells the streams:
        something only if it was waiting for a header, and io.EOF only if no byte of it had come. Cut
        short in a payload, or stopped by a guard, it leaves the readers waiting. */
    static function LastWords(bytes: seq<byte>): Notice {
      if Decode(bytes).halt == Waiting then EndNotice(Decode(bytes).rest, true) else Silent
    }

    /** readLoop over everything the peer will ever send, without interference: the frames decoded are
        handed over one by one, and the readers are woken or not. It ends before the end of the
        connection only if a channel fills up. */
    method ReadLoop() returns (delivered: seq<Frame>, stalled: bool)
      requires Valid()
      modifies this, conn`incoming, streams.Values
      ensures Valid()
      ensures delivered <= Decode(old(conn.incoming)).frames
      ensures !stalled ==> delivered == Decode(old(conn.incoming)).frames && closed && readErr
      ensures !stalled ==>
                View() == Told(RouteAll(old(View()), delivered), LastWords(old(conn.incoming)))
    {
      var last;
      delivered, last := DeliverAll();
      stalled := last.Got?;
      if !stalled {
        Stop();
      }
      if last.HeaderFailed? {
        NotifyAll(last.eof);
      }
    }

    /** readLoop records its error and closes the multiplexer, not its streams. */
    method Stop()
      requires Valid()
      modifies this`readErr, this`closed
      ensures closed && readErr && Valid() && View() == old(View())
    {
      readErr, closed := true, true;
    }

    /** The turns of readLoop that deliver a frame; `last` is what ended them. */
    method DeliverAll() returns (delivered: seq<Frame>, last: Fetched)
      requires Valid()
      modifies this`streams, conn`incoming, streams.Values
      ensures Valid() && Apart(old(streams))
      ensures delivered <= Decode(old(conn.incoming)).frames
      ensures !last.Got? ==> delivered == Decode(old(conn.incoming)).frames
      ensures !last.Got? ==> NoticeOf(last) == LastWords(old(conn.incoming))
      ensures !last.Got? ==> View() == RouteAll(old(View()), delivered)
    {
      delivered := [];
      ghost var all, views := conn.incoming, View();
      RemainingStart(all);
      while true
        invariant Valid() && Apart(old(streams))
        invariant Remaining(all, delivered, conn.incoming)
        invariant View() == RouteAll(views, delivered)
        decreases |conn.incoming|
      {
        last := NextFrame(all, delivered);
        if !last.Got? {
          return;
        }
        var done := RouteNext(views, delivered, last.frame);
        if !done {
          return;
        }
        delivered := delivered + [last.frame];
      }
    }

    /** ReadFrame in the course of the loop. */
    method NextFrame(ghost all: seq<byte>, ghost delivered: seq<Frame>) returns (r: Fetched)
      requires Remaining(all, delivered, conn.incoming)
      modifies conn`incoming
      ensures delivered <= Decode(all).frames
      ensures r.Got? ==> Remaining(all, delivered + [r.frame], conn.incoming) && |conn.incoming| < |old(conn.incoming)|
      ensures !r.Got? ==> Decode(all).frames == delivered && NoticeOf(r) == LastWords(all)
    {
      RemainingStep(all, delivered, conn.incoming);
      r := ReadFrame();
    }

    method RouteNext(ghost views: Views, ghost delivered: seq<Frame>, f: Frame) returns (done: bool)
      requires Valid() && View() == RouteAll(views, delivered)
      modifies this`streams, streams.Values
      ensures Valid() && Apart(old(streams))
      ensures done ==> View() == RouteAll(views, delivered + [f])
    {
      done := Route(f);
      RouteAllSnoc(views, delivered, f);
    }

    /** Every stream of the map was there before or is new. */
    twostate predicate Apart(before: map<uint32, Stream>)
      reads this
    {
      forall s :: s in streams.Values ==> s in before.Values || fresh(s)
    }
  }

  lemma RouteAllSnoc(views: Views, frames: seq<Frame>, f: Frame)
    ensures RouteAll(views, frames + [f]) == RouteView(RouteAll(views, frames), f)
  {
    assert (frames + [f])[..|frames + [f]| - 1] == frames;
  }

  /** What an unsuccessful ReadFrame makes readLoop tell the streams. */
  function NoticeOf(r: Fetched): Notice { if r.HeaderFailed? then Tells(r.eof) else Silent }

  datatype StreamView = StreamView(queue: seq<seq<byte>>, closed: bool, error: SR.ErrSlot)

  type Views = map<uint32, StreamView>

  function RouteView(views: Views, f: Frame): Views {
    var v := if f.id in views then views[f.id] else StreamView([], false, SR.Vacant);
    views[f.id := if v.closed then v else v.(queue := v.queue + [f.payload])]
  }

  function RouteAll(views: Views, frames: seq<Frame>): Views {
    if frames == [] then views
    else RouteView(RouteAll(views, frames[..|frames| - 1]), frames[|frames| - 1])
  }

  function NotifyView(views: Views, eof: bool): Views {
    map id | id in views ::
      var v := views[id]; if v.closed || v.error.Holds? then v else v.(error := SR.Holds(eof))
  }

  function Told(views: Views, notice: Notice): Views {
    if notice.Tells? then NotifyView(views, notice.eof) else views
  }

  /** Routing keeps the streams apart: each open stream has gained exactly its own payloads, in order,
      a closed one nothing, and a stream exists afterwards exactly if it did or a frame came for it. */
  lemma {:induction false} RouteAllSeparates(views: Views, frames: seq<Frame>, id: uint32)
    ensures var end := RouteAll(views, frames);
            && (id in end <==> id in views || On(id, frames) != [])
            && (id in end ==>
                  var v := if id in views then views[id] else StreamView([], false, SR.Vacant);
                  end[id] == if v.closed then v else v.(queue := v.queue + On(id, frames)))
    decreases |frames|
  {
    if frames != [] {
      var front, f := frames[..|frames| - 1], frames[|frames| - 1];
      RouteAllSeparates(views, front, id);
      var v := if id in views then views[id] else StreamView([], false, SR.Vacant);
      Assoc(v.queue, On(id, front), [f.payload]);
      assert On(id, front) + [] == On(id, front);
    } else if id in views {
      assert views[id].queue + [] == views[id].queue;
    }
  }

  lemma PrefixOfFirst(before: seq<byte>, header: seq<byte>, data: seq<byte>, after: seq<byte>, late: bool)
    requires exists k :: 0 <= k <= |header| && after == before + header[..k]
    requires !late ==> exists k :: 0 <= k < |header| && after == before + header[..k]
    ensures exists k :: 0 <= k <= |header + data| && after == before + (header + data)[..k]
    ensures !late ==> exists k :: 0 <= k < |header + data| && after == before + (header + data)[..k]
  {
    forall k | 0 <= k <= |header| ensures (header + data)[..k] == header[..k] {}
  }

  lemma PrefixOfSecond(before: seq<byte>, header: seq<byte>, data: seq<byte>, after: seq<byte>, late: bool)
    requires exists k :: 0 <= k <= |data| && after == before + header + data[..k]
    requires !late ==> exists k :: 0 <= k < |data| && after == before + header + data[..k]
    ensures exists k :: 0 <= k <= |header + data| && after == before + (header + data)[..k]
    ensures !late ==> exists k :: 0 <= k < |header + data| && after == before + (header + data)[..k]
  {
    var k :| 0 <= k <= |data| && (late || k < |data|) && after == before + header + data[..k];
    assert (header + data)[..|header| + k] == header + data[..k];
    Assoc(before, header, data[..k]);
  }
}
