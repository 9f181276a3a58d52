/**
 The control plane of a client as an object: the bounded queue between the reader of control packets
 and the dispatcher, and the dispatcher's loop. PendingRequests treats the interleavings.
 */
module ControlPlane {
  import opened Bytes
  import opened Connection
  import opened Packet
  import opened PendingRequests
  import BC = BaseClient

  datatype ControlEvent<+P> = PacketEvent(packet: P) | ErrorEvent

  datatype NextResult<+P> = NextPacket(packet: P) | NextError | NextCanceled | NoMore | NothingYet

  function PacketsIn<P>(events: seq<ControlEvent<P>>): seq<P> {
    if events == [] then []
    else
      var rest := PacketsIn(events[1..]);
      if events[0].PacketEvent? then [events[0].packet] + rest else rest
  }

  lemma {:induction false} PacketsInSnoc<P>(events: seq<ControlEvent<P>>, e: ControlEvent<P>)
    ensures PacketsIn(events + [e]) == PacketsIn(events) + if e.PacketEvent? then [e.packet] else []
  {
    var last := if e.PacketEvent? then [e.packet] else [];
    if events == [] {
      assert [e][1..] == [] && [] + last == last;
    } else {
      assert (events + [e])[1..] == events[1..] + [e];
      PacketsInSnoc(events[1..], e);
      if events[0].PacketEvent? {
        Assoc([events[0].packet], PacketsIn(events[1..]), last);
      }
    }
  }

  class ControlPlane<!P> {
    const conn: Conn                  // what arrives on the control stream
    const codec: Codec<P>
    var events: seq<ControlEvent<P>>
    var closed: bool                  // the channel, closed when run ends
    var canceled: bool                // the context of run

    constructor (conn: Conn, codec: Codec<P>)
      ensures this.conn == conn && this.codec == codec && Valid()
      ensures Coming() == ReadAll(codec, conn.incoming) && !canceled
    {
      this.conn, this.codec, events, closed, canceled := conn, codec, [], false, false;
    }

    method Close()
      modifies this`canceled
      ensures canceled
    {
      canceled := true;
    }

    /** Anyone may call Close at any time. */
    method Meanwhile()
      modifies this`canceled
      ensures old(canceled) ==> canceled
    {
      if * {
        Close();
      }
    }

    /** run puts at most one error into the queue, as the last thing it does. */
    ghost predicate Valid()
      reads this
    {
      && |events| <= CONTROL_BUFFER_SIZE
      && forall i :: 0 <= i < |events| && events[i].ErrorEvent? ==> closed && i == |events| - 1
    }

    /** The packets that Next has still to return. */
    ghost function Coming(): seq<P>
      reads this, conn`incoming
    {
      PacketsIn(events) + if closed then [] else ReadAll(codec, conn.incoming)
    }

    /** How much there is to do at most. */
    ghost function Work(): nat
      reads this, conn`incoming
    {
      |events| + if closed then 0 else |conn.incoming| + 1
    }

    /** run, until it ends or the queue is full. No packet is invented or moved, and none is lost unless
        the context is canceled, which may cost the last ones. */
    method Run() returns (stalled: bool)
      requires Valid() && !closed
      modifies this`events, this`closed, this`canceled, conn`incoming
      ensures Valid() && Coming() <= old(Coming()) && Work() <= old(Work())
      ensures !canceled ==> Coming() == old(Coming())
      ensures old(canceled) ==> canceled
      ensures stalled <==> !closed
      ensures events != [] || closed
    {
      while |events| < CONTROL_BUFFER_SIZE
        invariant Valid() && !closed && Coming() == old(Coming()) && Work() <= old(Work())
        invariant old(canceled) ==> canceled
        decreases CONTROL_BUFFER_SIZE - |events|
      {
        if canceled {
          closed := true;
          return false;
        }
        var outcome := Packet.ReadPacket(conn, codec);
        if !outcome.Received? {
          PacketsInSnoc(events, ErrorEvent);
          events := events + [ErrorEvent];
          closed := true;
          return false;
        }
        ghost var queued := PacketsIn(events);
        PacketsInSnoc(events, PacketEvent(outcome.packet));
        Assoc(queued, [outcome.packet], ReadAll(codec, conn.incoming));
        Meanwhile();
        if canceled {
          if * {
            closed := true;
            return false;
          }
        }
        events := events + [PacketEvent(outcome.packet)];
      }
      stalled := true;
    }

    /** Next, if it need not wait; `done` tells whether the caller's context is canceled, in which case
        the select may answer either way. */
    method Next(done: bool) returns (r: NextResult<P>)
      requires Valid()
      modifies this`events
      ensures Valid()
      ensures r.NextCanceled? ==> done && events == old(events)
      ensures match r
              case NextPacket(p) => old(Coming()) == [p] + Coming() && Work() < old(Work())
              case NextError => closed && old(Coming()) == [] && Coming() == []
              case NoMore => closed && old(Coming()) == [] && Coming() == []
              case NothingYet => !closed && !done && old(events) == [] && events == []
              case NextCanceled => Coming() == old(Coming())
    {
      if done {
        if * {
          return NextCanceled;
        }
      }
      if events == [] {
        return if closed then NoMore else if done then NextCanceled else NothingYet;
      }
      var e := events[0];
      events := events[1..];
      match e {
        case ErrorEvent => r := NextError;
        case PacketEvent(p) =>
          Assoc([p], PacketsIn(events), if closed then [] else ReadAll(codec, conn.incoming));
          r := NextPacket(p);
      }
    }

    /** Next, waiting for the reader where need be. */
    method Await(done: bool) returns (r: NextResult<P>)
      requires Valid()
      modifies this`events, this`closed, this`canceled, conn`incoming
      ensures Valid() && !r.NothingYet? && (r.NextCanceled? ==> done) && (old(canceled) ==> canceled)
      ensures r.NextPacket? ==> [r.packet] + Coming() <= old(Coming()) && Work() < old(Work())
      ensures r.NextPacket? && !canceled ==> old(Coming()) == [r.packet] + Coming()
      ensures r.NextError? || r.NoMore? ==> Coming() == [] && (!canceled ==> old(Coming()) == [])
      ensures r.NextCanceled? ==> Coming() <= old(Coming()) && (!canceled ==> Coming() == old(Coming()))
    {
      if events == [] && !closed {
        var _ := Run();
      }
      r := Next(done);
    }
  }

  /** The first n of these packets have been dispatched, and had these fates; what is still coming follows,
      all of it unless some was lost. */
  ghost predicate Dispatched<P>(all: seq<P>, n: nat, coming: seq<P>, lost: bool, fates: seq<Fate>, events: seq<P>) {
    && n <= |all| && coming <= all[n..] && (!lost ==> coming == all[n..])
    && |fates| == n && events == EventsOf(all, fates)
  }

  lemma DispatchedNext<P>(all: seq<P>, n: nat, p: P, before: seq<P>, coming: seq<P>, lost: bool, lostMore: bool,
                          fates: seq<Fate>, events: seq<P>, fate: Fate)
    requires Dispatched(all, n, before, lost, fates, events)
    requires [p] + coming <= before && (!lostMore ==> !lost && before == [p] + coming)
    ensures Dispatched(all, n + 1, coming, lostMore, fates + [fate], events + if fate.ToEvents? then [p] else [])
  {
    assert [p] + coming <= all[n..];
    assert all[n] == ([p] + coming)[0] == p;
    assert all[n + 1..] == all[n..][1..] && coming == ([p] + coming)[1..];
    assert forall i :: 0 <= i < |coming| ==> coming[i] == ([p] + coming)[i + 1] == all[n..][i + 1] == all[n + 1..][i];
    EventsOfSnoc(all, fates, fate);
  }

  /** Every request of the table that has left it has been given exactly one response. */
  twostate predicate AnsweredOnce<P>(client: BC.BaseClient<P>, before: map<nat, BC.PendingRequest<P>>)
    reads client, before.Values
  {
    && client.pending.Keys <= before.Keys
    && (forall id :: id in client.pending ==> client.pending[id] == before[id])
    && forall id :: id in before && id !in client.pending ==> |before[id].response| == 1
  }

  /** One packet goes to a request or to the event handler. */
  method DispatchOne<P>(client: BC.BaseClient<P>, p: P, ghost before: map<nat, BC.PendingRequest<P>>, events: seq<P>)
    returns (after: seq<P>, ghost fate: Fate)
    requires client.Valid() && client.pending.Keys <= before.Keys
    requires forall id :: id in client.pending ==> client.pending[id] == before[id]
    requires forall id :: id in before && id !in client.pending ==> |before[id].response| == 1
    modifies client, client.pending.Values
    ensures client.Valid() && AnsweredOnce(client, before)
    ensures after == events + if fate.ToEvents? then [p] else []
    ensures fate.ToRequest? ==> fate.id in old(client.pending) && client.pending == old(client.pending) - {fate.id}
    ensures fate.ToEvents? ==> client.pending == old(client.pending)
  {
    ghost var table := client.pending;
    var handled := client.DispatchPending(p);
    if handled {
      ghost var id :| CanGoTo(old(client.Table()), p, id)
                      && client.Answered(table, id, Answer(p, old(client.Table())[id](p) == Matched));
      return events, ToRequest(id, old(client.Table())[id](p) == Matched);
    }
    after, fate := events + [p], ToEvents;
  }

  /** One turn of runDispatcher. */
  method DispatchNext<P>(control: ControlPlane<P>, client: BC.BaseClient<P>, done: bool,
                         ghost before: map<nat, BC.PendingRequest<P>>, ghost all: seq<P>, ghost n: nat, events: seq<P>,
                         ghost fates: seq<Fate>)
    returns (more: bool, after: seq<P>, ghost next: nat, ghost fatesAfter: seq<Fate>)
    requires control.Valid() && client.Valid() && client.pending.Keys <= before.Keys
    requires forall id :: id in client.pending ==> client.pending[id] == before[id]
    requires forall id :: id in before && id !in client.pending ==> |before[id].response| == 1
    requires Dispatched(all, n, control.Coming(), control.canceled, fates, events)
    modifies control, control.conn`incoming, client, client.pending.Values
    ensures control.Valid() && client.Valid() && AnsweredOnce(client, before)
            && client.pending.Keys <= old(client.pending).Keys
    ensures Dispatched(all, next, control.Coming(), control.canceled, fatesAfter, after)
    ensures more ==> control.Work() < old(control.Work())
    ensures !more && !done && !control.canceled ==> next == |all|
  {
    ghost var coming, lost := control.Coming(), control.canceled;
    after, next, fatesAfter := events, n, fates;
    var r := control.Await(done);
    more := r.NextPacket?;
    if more {
      ghost var fate;
      after, fate := DispatchOne(client, r.packet, before, events);
      DispatchedNext(all, n, r.packet, coming, control.Coming(), lost, control.canceled, fates, events, fate);
      next, fatesAfter := n + 1, fates + [fate];
    }
  }

  /** runDispatcher, with the reader of control packets running whenever the queue is empty, until the
      control stream ends or a context is canceled: the reader's by Close, the dispatcher's own if
      `mayStop`. The packets dispatched are the first that can be read from the stream, in order, each to
      one request or to the event handler, and all of them if nothing was canceled. In the end no request
      is pending: each of those pending at the start has been given exactly one response. */
  method RunDispatcher<P>(control: ControlPlane<P>, client: BC.BaseClient<P>, mayStop: bool)
    returns (events: seq<P>, ghost fates: seq<Fate>)
    requires control.Valid() && client.Valid()
    modifies control, control.conn`incoming, client, client.pending.Values
    ensures client.pending == map[]
    ensures |fates| <= |old(control.Coming())| && events == EventsOf(old(control.Coming()), fates)
    ensures !mayStop && !control.canceled ==> |fates| == |old(control.Coming())|
    ensures forall id :: id in old(client.pending) ==> |old(client.pending)[id].response| == 1
  {
    ghost var before, all, n := client.pending, control.Coming(), 0;
    events, fates := [], [];
    var more := true;
    while more
      invariant control.Valid() && client.Valid() && AnsweredOnce(client, before)
      invariant Dispatched(all, n, control.Coming(), control.canceled, fates, events)
      invariant !more && !mayStop && !control.canceled ==> n == |all|
      decreases more, control.Work()
    {
      var done := false;
      if mayStop {
        done := *;
      }
      more, events, n, fates := DispatchNext(control, client, done, before, all, n, events, fates);
    }
    client.FailAllPending();
  }
}
