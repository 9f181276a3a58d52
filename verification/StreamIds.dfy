/** How stream IDs are chosen: the cyclic search of OpenStream and the counter of NextStreamID. */
module StreamIds {
  import opened Bytes

  const MAX_STREAM_ID: uint32 := 0xFFFF_FFFF

  /** One step of OpenStream's search: uint32 increment, skipping 0. */
  function Successor(id: uint32): uint32 {
    var next := (id + 1) % TWO_TO_THE_32;
    if next == 0 then 1 else next
  }

  /** The candidate after n steps of the search. */
  function Candidate(from: uint32, n: nat): uint32 {
    if n == 0 then from else Successor(Candidate(from, n - 1))
  }

  /** How many steps the search needs from one ID to another, nonzero one. */
  function Distance(from: uint32, to: uint32): nat
    requires to != 0 || from == 0
  {
    if from <= to then to - from else MAX_STREAM_ID - from + to
  }

  /** The search decides on id: it is free and everything tried before it is in use. */
  ghost predicate FirstFree(used: set<uint32>, from: uint32, id: uint32) {
    id !in used && exists n: nat :: Candidate(from, n) == id && forall k :: 0 <= k < n ==> Candidate(from, k) in used
  }

  lemma SuccessorIsCloser(from: uint32, to: uint32)
    requires from != to && to != 0
    ensures Distance(Successor(from), to) == Distance(from, to) - 1
  {
  }

  lemma {:induction false} DistanceReaches(from: uint32, to: uint32)
    requires to != 0 || from == 0
    ensures Candidate(from, Distance(from, to)) == to
    decreases Distance(from, to)
  {
    if from != to {
      SuccessorIsCloser(from, to);
      DistanceReaches(Successor(from), to);
      CandidateShift(from, Distance(from, to) - 1);
    }
  }

  lemma {:induction false} CandidateShift(from: uint32, n: nat)
    ensures Candidate(Successor(from), n) == Candidate(from, n + 1)
  {
    if n > 0 {
      CandidateShift(from, n - 1);
    }
  }

  /** The candidate after n steps is free. */
  predicate EndsAt(used: set<uint32>, from: uint32, n: nat) { Candidate(from, n) !in used }

  /** An ID the search can return: free, and nonzero unless the search starts at 0. */
  predicate Obtainable(used: set<uint32>, from: uint32, id: uint32) { id !in used && (id != 0 || from == 0) }

  /** The search ends exactly when some nonzero ID is free, or it starts at 0 and 0 is free. */
  lemma SearchEndsIff(used: set<uint32>, from: uint32)
    ensures (exists n: nat :: EndsAt(used, from, n)) <==> (exists id :: Obtainable(used, from, id))
  {
    if id :| Obtainable(used, from, id) {
      DistanceReaches(from, id);
      assert EndsAt(used, from, Distance(from, id));
    }
    if n: nat :| EndsAt(used, from, n) {
      var id := Candidate(from, n);
      assert n > 0 ==> id == Successor(Candidate(from, n - 1));
      assert Obtainable(used, from, id);
    }
  }

  // ---------- the server's counter ----------

  /** NextStreamID: the ID handed out and the counter afterwards. */
  function Issue(counter: uint32): (uint32, uint32) {
    var id := if counter == 0 then 1 else counter;
    (id, (id + 1) % TWO_TO_THE_32)
  }

  /** The counter after n calls on a new server. */
  function CounterAfter(n: nat): uint32 {
    if n == 0 then 0 else Issue(CounterAfter(n - 1)).1
  }

  /** The ID of the n-th call, from 0. */
  function Issued(n: nat): uint32 { Issue(CounterAfter(n)).0 }

  lemma {:induction false} IssuedClosedForm(n: nat)
    ensures Issued(n) == n % MAX_STREAM_ID + 1
  {
    if n > 0 {
      IssuedClosedForm(n - 1);
      var m := n - 1;
      assert n % MAX_STREAM_ID == if m % MAX_STREAM_ID == MAX_STREAM_ID - 1 then 0 else m % MAX_STREAM_ID + 1 by {
        var q, r := m / MAX_STREAM_ID, m % MAX_STREAM_ID;
        assert m == q * MAX_STREAM_ID + r;
        if r == MAX_STREAM_ID - 1 {
          assert n == (q + 1) * MAX_STREAM_ID;
        } else {
          assert n == q * MAX_STREAM_ID + (r + 1);
        }
      }
    }
  }

  /** The IDs are never 0, and two calls get the same one exactly when they are a multiple of 2^32 - 1
      apart: the first 2^32 - 1 are pairwise distinct. */
  lemma IssuedDistinct(a: nat, b: nat)
    ensures Issued(a) != 0
    ensures Issued(a) == Issued(b) <==> a % MAX_STREAM_ID == b % MAX_STREAM_ID
    ensures a < b < MAX_STREAM_ID ==> Issued(a) != Issued(b)
  {
    IssuedClosedForm(a);
    IssuedClosedForm(b);
  }

  // ---------- no collision on the server ----------

  /** The server's stream map, as far as IDs go. */
  datatype Server = Server(issued: nat, open: set<uint32>)

  datatype Event =
    | Allocate              // NextStreamID followed by OpenStreamWithID
    | Incoming(id: uint32)  // readLoop creates the stream of a frame if there is none
    | CloseStream(id: uint32)

  /** The client writes only on the control stream and on IDs that were announced to it. */
  predicate Announced(s: Server, id: uint32) {
    id == 0 || exists k :: 0 <= k < s.issued && Issued(k) == id
  }

  ghost predicate Possible(s: Server, e: Event) {
    e.Incoming? ==> Announced(s, e.id)
  }

  function Next(s: Server, e: Event): Server {
    match e
    case Allocate => Server(s.issued + 1, s.open + {Issued(s.issued)})
    case Incoming(id) => s.(open := s.open + {id})
    case CloseStream(id) => s.(open := s.open - {id})
  }

  function After(s: Server, events: seq<Event>): Server {
    if events == [] then s
    else Next(After(s, events[..|events| - 1]), events[|events| - 1])
  }

  ghost predicate AllPossible(s: Server, events: seq<Event>) {
    forall i :: 0 <= i < |events| ==> Possible(After(s, events[..i]), events[i])
  }

  ghost predicate OpenAnnounced(s: Server) {
    forall id :: id in s.open ==> Announced(s, id)
  }

  lemma OpenAnnouncedStep(s: Server, e: Event)
    requires OpenAnnounced(s) && Possible(s, e)
    ensures OpenAnnounced(Next(s, e))
  {
    var end := Next(s, e);
    forall id | id in end.open ensures Announced(end, id) {
      if id in s.open {
        assert Announced(s, id);
      } else if e.Allocate? {
        assert Issued(s.issued) == id;
      }
    }
  }

  lemma {:induction false} OpenAreAnnounced(events: seq<Event>)
    requires AllPossible(Server(0, {0}), events)
    ensures OpenAnnounced(After(Server(0, {0}), events))
    decreases |events|
  {
    if events != [] {
      var front := events[..|events| - 1];
      forall i | 0 <= i < |front| ensures Possible(After(Server(0, {0}), front[..i]), front[i]) {
        assert front[..i] == events[..i];
      }
      OpenAreAnnounced(front);
      OpenAnnouncedStep(After(Server(0, {0}), front), events[|events| - 1]);
    }
  }

  /** However frames and closes interleave, the next ID to be allocated is not in the map, for the
      first 2^32 - 1 allocations: OpenStreamWithID cannot fail for a collision. */
  lemma AllocationNeverCollides(events: seq<Event>)
    requires AllPossible(Server(0, {0}), events)
    requires After(Server(0, {0}), events).issued < MAX_STREAM_ID
    ensures var s := After(Server(0, {0}), events); Issued(s.issued) !in s.open && Issued(s.issued) != 0
  {
    var s := After(Server(0, {0}), events);
    OpenAreAnnounced(events);
    IssuedDistinct(s.issued, s.issued);
    if Issued(s.issued) in s.open {
      assert Announced(s, Issued(s.issued));
      var k :| 0 <= k < s.issued && Issued(k) == Issued(s.issued);
      IssuedDistinct(k, s.issued);
      assert false;
    }
  }
}
