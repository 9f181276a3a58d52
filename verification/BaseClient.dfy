/** The pending-request table of a client as an object. PendingRequests treats the interleavings. */
module BaseClient {
  import opened Bytes
  import opened PendingRequests
  import M = Multiplexer

  class PendingRequest<!P> {
    const id: nat
    const matcher: Matcher<P>
    var response: seq<Response<P>>  // a channel with one slot

    constructor (id: nat, matcher: Matcher<P>)
      ensures this.id == id && this.matcher == matcher && response == []
    {
      this.id, this.matcher, response := id, matcher, [];
    }

    /** A non-blocking send: a full channel keeps what it has. */
    method Deliver(r: Response<P>)
      modifies this
      ensures response == if old(response) == [] then [r] else old(response)
    {
      if response == [] {
        response := [r];
      }
    }
  }

  class BaseClient<!P> {
    var pending: map<nat, PendingRequest<P>>
    var nextRequestID: nat

    constructor ()
      ensures Valid() && pending == map[] && nextRequestID == 0
    {
      pending, nextRequestID := map[], 0;
    }

    ghost predicate Valid()
      reads this, pending.Values
    {
      && nextRequestID < TWO_TO_THE_64
      && (forall id :: id in pending ==> pending[id].id == id && pending[id].response == [])
    }

    /** The matchers of the requests on the table. */
    ghost function Table(): map<nat, Matcher<P>>
      reads this
    {
      map id | id in pending :: pending[id].matcher
    }

    method RegisterPending(matcher: Matcher<P>) returns (req: PendingRequest<P>)
      requires Valid()
      modifies this
      ensures Valid() && fresh(req) && req.matcher == matcher && req.response == []
      ensures nextRequestID == (old(nextRequestID) + 1) % TWO_TO_THE_64 == req.id
      ensures pending == old(pending)[req.id := req]
      ensures Table() == old(Table())[req.id := matcher]
    {
      nextRequestID := (nextRequestID + 1) % TWO_TO_THE_64;
      req := new PendingRequest(nextRequestID, matcher);
      pending := pending[req.id := req];
    }

    /** The request with this ID leaves the table, and its empty channel gets this response. */
    twostate predicate Answered(before: map<nat, PendingRequest<P>>, id: nat, r: Response<P>)
      reads this, before.Values
    {
      && id in before
      && pending == before - {id}
      && before[id].response == [r]
      && forall other :: other in before && other != id ==> before[other].response == old(before[other].response)
    }

    /** The dispatcher's loop over the table, in any order: the packet goes to some request whose
        matcher does not pass it over, and is left for the event handler exactly if there is none. */
    method DispatchPending(p: P) returns (handled: bool)
      requires Valid()
      modifies this, pending.Values
      ensures Valid()
      ensures handled ==>
                exists id :: CanGoTo(old(Table()), p, id)
                             && Answered(old(pending), id, Answer(p, old(Table())[id](p) == Matched))
      ensures !handled ==> pending == old(pending) && forall id :: !CanGoTo(old(Table()), p, id)
      ensures !handled ==> forall id :: id in pending ==> pending[id].response == old(pending[id].response)
    {
      var todo := pending.Keys;
      while todo != {}
        invariant todo <= pending.Keys
        invariant forall id :: id in pending && id !in todo ==> pending[id].matcher(p) == Unmatched
      {
        var id :| id in todo;
        var req := pending[id];
        match req.matcher(p) {
          case Unmatched =>
          case MatchError =>
            pending := pending - {id};
            req.Deliver(Failure);
            assert CanGoTo(old(Table()), p, id);
            return true;
          case Matched =>
            pending := pending - {id};
            req.Deliver(Reply(p));
            assert CanGoTo(old(Table()), p, id);
            return true;
        }
        todo := todo - {id};
      }
      handled := false;
    }

    /** Completes a request with an error if it is still on the table; a request that was answered
        meanwhile keeps its answer. */
    method CompletePending(id: nat) returns (found: bool)
      requires Valid()
      modifies this, pending.Values
      ensures Valid()
      ensures found <==> id in old(pending)
      ensures found ==> Answered(old(pending), id, Failure)
      ensures !found ==> pending == old(pending)
      ensures !found ==> forall other :: other in pending ==> pending[other].response == old(pending[other].response)
    {
      if id !in pending {
        return false;
      }
      var req := pending[id];
      pending := pending - {id};
      req.Deliver(Failure);
      found := true;
    }

    /** Every pending request fails, once, and the table is empty. */
    method FailAllPending()
      requires Valid()
      modifies this, pending.Values
      ensures Valid() && pending == map[]
      ensures forall id :: id in old(pending) ==> old(pending)[id].response == [Failure]
    {
      ghost var all := pending;
      while pending != map[]
        invariant Valid() && pending.Keys <= all.Keys
        invariant forall id :: id in pending ==> pending[id] == all[id]
        invariant forall id :: id in all && id !in pending ==> all[id].response == [Failure]
        decreases |pending|
      {
        var id :| id in pending.Keys;
        Fewer(pending, id);
        FailOne(id);
      }
    }

    method FailOne(id: nat)
      requires Valid() && id in pending
      modifies this`pending, pending[id]
      ensures Valid() && pending == old(pending) - {id} && old(pending)[id].response == [Failure]
    {
      pending[id].Deliver(Failure);
      pending := pending - {id};
    }
  }

  lemma Fewer<K, V>(m: map<K, V>, k: K)
    requires k in m
    ensures |m - {k}| < |m|
  {
    assert (m - {k}).Keys == m.Keys - {k};
  }

  /** GetOrCreateStream: the stream of this ID if it is still open - also one that readLoop created for
      an early frame - and otherwise a new one in its place. Stream 0 is never handed out. */
  method GetOrCreateStream(mux: M.Multiplexer, id: uint32) returns (r: M.OpenResult)
    requires mux.Valid()
    modifies mux`streams, mux`nextID, mux.conn`wire, if id in mux.streams then {mux.streams[id]} else {}
    ensures mux.Valid()
    ensures id == 0 ==> r.InvalidStreamID? && mux.streams == old(mux.streams)
    ensures id != 0 ==>
              if id in old(mux.streams) && !old(mux.streams[id].signalled)
              then r == M.Opened(old(mux.streams)[id]) && mux.streams == old(mux.streams)
              else if mux.closed then r.ClosedPipe? && mux.streams == old(mux.streams) - {id}
              else r.Opened? && fresh(r.stream) && r.stream.id == id && mux.streams == old(mux.streams)[id := r.stream]
    ensures mux.conn.wire == old(mux.conn.wire)
  {
    if id == 0 {
      return M.InvalidStreamID;
    }
    if id in mux.streams {
      if !mux.streams[id].signalled {
        return M.Opened(mux.streams[id]);
      }
      var _, _ := mux.CloseStream(id);
    }
    r := mux.OpenStreamWithID(id);
  }
}
