/**
 The control plane of a client, over every interleaving: the reader of control packets, the bounded
 event queue, the dispatcher, and any number of requests being registered, completed with an error
 (send failure, cancellation) and answered.

 A request is registered under a fresh ID with a matcher and a one-slot response channel. Whoever
 removes it from the pending table delivers a response to its channel: the dispatcher under the
 lock, completePending after releasing it.
 */
module PendingRequests {
  import opened Bytes

  const TWO_TO_THE_64: nat := 0x1_0000_0000_0000_0000
  const CONTROL_BUFFER_SIZE: nat := 32

  datatype Verdict = Unmatched | Matched | MatchError

  type Matcher<!P> = P -> Verdict

  datatype Response<+P> = Reply(packet: P) | Failure

  datatype Client<!P> = Client(
    nextId: nat,
    pending: map<nat, Matcher<P>>,
    channels: map<nat, seq<Response<P>>>,   // what each request's channel holds
    transit: seq<(nat, Response<P>)>,       // completePending calls between the unlock and Deliver
    reading: seq<P>,                        // read by the control plane, not yet queued
    queue: seq<P>,                          // the event queue
    dispatching: seq<P>,                    // taken by the dispatcher
    stopped: bool,                          // the dispatcher has exited
    // history
    registered: nat,
    received: map<nat, seq<Response<P>>>,   // responses taken by the requesters
    overflows: nat,                         // how often Deliver found the channel full
    read: seq<P>,
    dispatched: seq<P>,
    fates: seq<Fate>,                       // what became of each of them
    tables: seq<set<nat>>,                  // the requests pending when each of these was decided
    matchers: map<nat, Matcher<P>>,         // the matcher of every request ever registered
    events: seq<P>)                         // packets given to the event handler

  /** Where the dispatcher sent a packet. */
  datatype Fate =
    | ToEvents
    | ToRequest(id: nat, matched: bool)

  function Fresh<P>(): Client<P> {
    Client(0, map[], map[], [], [], [], [], false, 0, map[], 0, [], [], [], [], map[], [])
  }

  datatype Action<!P> =
    | Register(matcher: Matcher<P>)
    | Complete(id: nat)          // completePending up to the unlock
    | Deliver(i: nat)            // completePending: Deliver
    | ReadPacket(p: P)           // the control plane reads a packet
    | Enqueue
    | Next                       // the dispatcher takes an event
    | DispatchTo(id: nat)        // the iteration meets this request first among those it does not pass over
    | DispatchEvent              // no pending request matches
    | FailAll                    // the dispatcher fails and exits
    | Receive(id: nat)           // a requester takes its response

  predicate Enabled<P>(s: Client<P>, a: Action<P>) {
    match a
    case Register(_) => true
    case Complete(_) => true
    case Deliver(i) => i < |s.transit|
    case ReadPacket(_) => s.reading == []
    case Enqueue => s.reading != [] && |s.queue| < CONTROL_BUFFER_SIZE
    case Next => !s.stopped && s.dispatching == [] && s.queue != []
    case DispatchTo(id) => s.dispatching != [] && id in s.pending && s.pending[id](s.dispatching[0]) != Unmatched
    case DispatchEvent => s.dispatching != [] && forall id :: id in s.pending ==>
            s.pending[id](s.dispatching[0]) == Unmatched
    case FailAll => !s.stopped && s.dispatching == []
    case Receive(id) => id in s.channels && s.channels[id] != []
  }

  /** PendingRequest.Deliver: a non-blocking send into the one-slot channel. */
  function Put<P>(s: Client<P>, id: nat, r: Response<P>): Client<P> {
    if id in s.channels && s.channels[id] == [] then s.(channels := s.channels[id := [r]])
    else s.(overflows := s.overflows + 1)
  }

  /** The channels after failAllPending delivered to every pending request. */
  function FailedChannels<P>(s: Client<P>): map<nat, seq<Response<P>>> {
    map id | id in s.channels :: if id in s.pending && s.channels[id] == [] then [Failure] else s.channels[id]
  }

  /** failAllPending would find some channel full. */
  predicate FailOverflows<P>(s: Client<P>) {
    exists id :: id in s.pending && !(id in s.channels && s.channels[id] == [])
  }

  /** The dispatcher takes a request off the table for the packet in its hands. */
  function Sent<P>(s: Client<P>, id: nat, matched: bool): Client<P> {
    s.(pending := s.pending - {id}, dispatching := [], fates := s.fates + [ToRequest(id, matched)],
    tables := s.tables + [s.pending.Keys])
  }

  function Answer<P>(p: P, matched: bool): Response<P> {
    if matched then Reply(p) else Failure
  }

  function Apply<P>(s: Client<P>, a: Action<P>): Client<P>
    requires Enabled(s, a)
  {
    match a
    case Register(matcher) =>
      var id := (s.nextId + 1) % TWO_TO_THE_64;
      s.(nextId := id, registered := s.registered + 1, pending := s.pending[id := matcher],
      channels := s.channels[id := []], received := s.received[id := []], matchers := s.matchers[id := matcher])
    case Complete(id) =>
      if id in s.pending then s.(pending := s.pending - {id}, transit := s.transit + [(id, Failure)]) else s
    case Deliver(i) =>
      Put(s.(transit := s.transit[..i] + s.transit[i + 1..]), s.transit[i].0, s.transit[i].1)
    case ReadPacket(p) => s.(reading := [p], read := s.read + [p])
    case Enqueue => s.(queue := s.queue + s.reading, reading := [])
    case Next => s.(queue := s.queue[1..], dispatching := [s.queue[0]], dispatched := s.dispatched + [s.queue[0]])
    case DispatchTo(id) =>
      var p := s.dispatching[0];
      var matched := s.pending[id](p) == Matched;
      Put(Sent(s, id, matched), id, Answer(p, matched))
    case DispatchEvent =>
      s.(dispatching := [], events := s.events + s.dispatching, fates := s.fates + [ToEvents],
      tables := s.tables + [s.pending.Keys])
    case FailAll =>
      s.(channels := FailedChannels(s), pending := map[], stopped := true,
      overflows := if FailOverflows(s) then s.overflows + 1 else s.overflows)
    case Receive(id) =>
      s.(channels := s.channels[id := s.channels[id][1..]],
      received := s.received[id := Got(s, id) + [s.channels[id][0]]])
  }

  function Got<P>(s: Client<P>, id: nat): seq<Response<P>> {
    if id in s.received then s.received[id] else []
  }

  ghost predicate Runs<P>(s: Client<P>, actions: seq<Action<P>>, end: Client<P>)
    decreases |actions|
  {
    if actions == [] then s == end
    else Enabled(s, actions[0]) && Runs(Apply(s, actions[0]), actions[1..], end)
  }

  // ---------- each request in exactly one place ----------

  function InTransit<P>(transit: seq<(nat, Response<P>)>, id: nat): nat {
    if transit == [] then 0
    else (if transit[0].0 == id then 1 else 0) + InTransit(transit[1..], id)
  }

  /** In how many places a request is: on the table, between table and channel, in the channel,
      or with its requester. */
  function Places<P>(s: Client<P>, id: nat): nat {
    (if id in s.pending then 1 else 0) + InTransit(s.transit, id)
    + (if id in s.channels then |s.channels[id]| else 0) + |Got(s, id)|
  }

  ghost predicate Tracked<P>(s: Client<P>) {
    && s.nextId == s.registered
    && (forall id: nat :: id in s.channels <==> 1 <= id <= s.registered)
    && (forall id: nat :: Places(s, id) == if 1 <= id <= s.registered then 1 else 0)
    && s.overflows == 0
  }

  lemma {:induction false} InTransitAppend<P>(a: seq<(nat, Response<P>)>, b: seq<(nat, Response<P>)>, id: nat)
    ensures InTransit(a + b, id) == InTransit(a, id) + InTransit(b, id)
  {
    if a == [] {
      assert a + b == b;
    } else {
      assert (a + b)[1..] == a[1..] + b;
      InTransitAppend(a[1..], b, id);
    }
  }

  lemma InTransitRemove<P>(transit: seq<(nat, Response<P>)>, i: nat, id: nat)
    requires i < |transit|
    ensures InTransit(transit[..i] + transit[i + 1..], id) ==
            InTransit(transit, id) - if transit[i].0 == id then 1 else 0
  {
    var one := [transit[i]];
    assert transit == transit[..i] + (one + transit[i + 1..]);
    InTransitAppend(transit[..i], one + transit[i + 1..], id);
    InTransitAppend(one, transit[i + 1..], id);
    InTransitAppend(transit[..i], transit[i + 1..], id);
    assert InTransit(one, id) == if transit[i].0 == id then 1 else 0 by {
      assert one[1..] == [];
    }
  }

  lemma PutTracked<P>(s: Client<P>, id: nat, r: Response<P>)
    requires 1 <= id <= s.registered && s.nextId == s.registered && s.overflows == 0
    requires forall i: nat :: i in s.channels <==> 1 <= i <= s.registered
    requires forall i: nat :: Places(s, i) == if 1 <= i <= s.registered && i != id then 1 else 0
    ensures Tracked(Put(s, id, r))
  {
    assert Places(s, id) == 0;
    var end := Put(s, id, r);
    forall i: nat ensures Places(end, i) == if 1 <= i <= end.registered then 1 else 0 {
      assert Places(s, i) == if 1 <= i <= s.registered && i != id then 1 else 0;
    }
  }

  lemma TrackedRegister<P>(s: Client<P>, matcher: Matcher<P>)
    requires Tracked(s) && s.registered + 1 < TWO_TO_THE_64
    ensures Tracked(Apply(s, Register(matcher)))
  {
    var end := Apply(s, Register(matcher));
    forall i: nat ensures Places(end, i) == if 1 <= i <= end.registered then 1 else 0 {
      assert Places(s, i) == if 1 <= i <= s.registered then 1 else 0;
    }
  }

  lemma TrackedComplete<P>(s: Client<P>, id: nat)
    requires Tracked(s)
    ensures Tracked(Apply(s, Complete(id)))
  {
    var end := Apply(s, Complete(id));
    forall i: nat ensures Places(end, i) == if 1 <= i <= end.registered then 1 else 0 {
      assert Places(s, i) == if 1 <= i <= s.registered then 1 else 0;
      InTransitAppend(s.transit, [(id, Failure)], i);
      assert [(id, Response<P>.Failure)][1..] == [];
    }
  }

  lemma TrackedDeliver<P>(s: Client<P>, i: nat)
    requires Tracked(s) && i < |s.transit|
    ensures Tracked(Apply(s, Deliver(i)))
  {
    var id := s.transit[i].0;
    var mid := s.(transit := s.transit[..i] + s.transit[i + 1..]);
    forall j: nat ensures Places(mid, j) == if 1 <= j <= s.registered && j != id then 1 else 0 {
      assert Places(s, j) == if 1 <= j <= s.registered then 1 else 0;
      InTransitRemove(s.transit, i, j);
    }
    InTransitRemove(s.transit, i, id);
    assert Places(s, id) == 1;
    PutTracked(mid, id, s.transit[i].1);
  }

  lemma TrackedDispatch<P>(s: Client<P>, id: nat)
    requires Tracked(s) && Enabled(s, DispatchTo(id))
    ensures Tracked(Apply(s, DispatchTo(id)))
  {
    var p := s.dispatching[0];
    var matched := s.pending[id](p) == Matched;
    var mid := Sent(s, id, matched);
    forall j: nat ensures Places(mid, j) == if 1 <= j <= s.registered && j != id then 1 else 0 {
      assert Places(s, j) == if 1 <= j <= s.registered then 1 else 0;
    }
    assert Places(s, id) == 1;
    PutTracked(mid, id, Answer(p, matched));
  }

  lemma TrackedFailAll<P>(s: Client<P>)
    requires Tracked(s) && Enabled(s, FailAll)
    ensures Tracked(Apply(s, FailAll))
  {
    var end := Apply(s, FailAll);
    forall i: nat ensures Places(end, i) == if 1 <= i <= end.registered then 1 else 0 {
      assert Places(s, i) == if 1 <= i <= s.registered then 1 else 0;
    }
    forall id | id in s.pending ensures id in s.channels && s.channels[id] == [] {
      assert Places(s, id) == if 1 <= id <= s.registered then 1 else 0;
    }
  }

  lemma TrackedReceive<P>(s: Client<P>, id: nat)
    requires Tracked(s) && Enabled(s, Receive(id))
    ensures Tracked(Apply(s, Receive(id)))
  {
    var end := Apply(s, Receive(id));
    forall i: nat ensures Places(end, i) == if 1 <= i <= end.registered then 1 else 0 {
      assert Places(s, i) == if 1 <= i <= s.registered then 1 else 0;
    }
  }

  lemma TrackedOther<P>(s: Client<P>, a: Action<P>)
    requires Tracked(s) && Enabled(s, a)
    requires a.ReadPacket? || a.Enqueue? || a.Next? || a.DispatchEvent?
    ensures Tracked(Apply(s, a))
  {
    var end := Apply(s, a);
    forall i: nat ensures Places(end, i) == if 1 <= i <= end.registered then 1 else 0 {
      assert Places(s, i) == if 1 <= i <= s.registered then 1 else 0;
    }
  }

  lemma TrackedStep<P>(s: Client<P>, a: Action<P>)
    requires Tracked(s) && Enabled(s, a)
    requires Apply(s, a).registered < TWO_TO_THE_64
    ensures Tracked(Apply(s, a))
  {
    match a
    case Register(matcher) => TrackedRegister(s, matcher);
    case Complete(id) => TrackedComplete(s, id);
    case Deliver(i) => TrackedDeliver(s, i);
    case DispatchTo(id) => TrackedDispatch(s, id);
    case FailAll => TrackedFailAll(s);
    case Receive(id) => TrackedReceive(s, id);
    case _ => TrackedOther(s, a);
  }

  // ---------- each packet to exactly one place, in order ----------

  /** Packets go through the control plane, the queue and the dispatcher in order. */
  predicate Ordered<P(==)>(s: Client<P>) {
    && |s.reading| <= 1 && |s.dispatching| <= 1
    && s.read == s.dispatched + s.queue + s.reading
    && |s.fates| + |s.dispatching| == |s.dispatched|
    && s.dispatching == s.dispatched[|s.fates|..]
  }

  lemma OrderedStep<P>(s: Client<P>, a: Action<P>)
    requires Ordered(s) && Enabled(s, a)
    ensures Ordered(Apply(s, a))
  {
    match a
    case Next =>
      assert s.queue == [s.queue[0]] + s.queue[1..];
      Assoc(s.dispatched, [s.queue[0]], s.queue[1..]);
    case Enqueue =>
      Assoc(s.dispatched, s.queue, s.reading);
      assert s.read + [] == s.read;
    case ReadPacket(p) =>
      assert s.dispatched + s.queue + [] == s.dispatched + s.queue;
    case _ =>
  }

  /** The packets sent to the event handler, in order. */
  function EventsOf<P>(packets: seq<P>, fates: seq<Fate>): seq<P>
    requires |packets| >= |fates|
  {
    if fates == [] then []
    else
      var n := |fates| - 1;
      EventsOf(packets, fates[..n]) + if fates[n].ToEvents? then [packets[n]] else []
  }

  lemma {:induction false} EventsOfMore<P>(packets: seq<P>, more: seq<P>, fates: seq<Fate>)
    requires |packets| >= |fates|
    ensures EventsOf(packets + more, fates) == EventsOf(packets, fates)
    decreases |fates|
  {
    if fates != [] {
      EventsOfMore(packets, more, fates[..|fates| - 1]);
    }
  }

  lemma EventsOfSnoc<P>(packets: seq<P>, fates: seq<Fate>, f: Fate)
    requires |packets| > |fates|
    ensures EventsOf(packets, fates + [f]) ==
            EventsOf(packets, fates) + if f.ToEvents? then [packets[|fates|]] else []
  {
    assert (fates + [f])[..|fates + [f]| - 1] == fates;
  }

  predicate EventsRight<P(==)>(s: Client<P>) {
    Ordered(s) && s.events == EventsOf(s.dispatched, s.fates)
  }

  lemma EventsRightSnoc<P>(packets: seq<P>, fates: seq<Fate>, hand: seq<P>, f: Fate)
    requires |packets| == |fates| + 1 && hand == packets[|fates|..]
    ensures EventsOf(packets, fates + [f]) == EventsOf(packets, fates) + if f.ToEvents? then hand else []
  {
    EventsOfSnoc(packets, fates, f);
    assert hand == [packets[|fates|]];
  }

  lemma EventsRightTo<P>(s: Client<P>, end: Client<P>, f: Fate)
    requires EventsRight(s) && Ordered(end)
    requires |s.dispatching| == 1 && end.dispatched == s.dispatched && end.fates == s.fates + [f]
    requires end.events == if f.ToEvents? then s.events + s.dispatching else s.events
    ensures EventsRight(end)
  {
    EventsRightSnoc(s.dispatched, s.fates, s.dispatching, f);
    assert s.events + [] == s.events;
  }

  lemma EventsRightStep<P>(s: Client<P>, a: Action<P>)
    requires EventsRight(s) && Enabled(s, a)
    ensures EventsRight(Apply(s, a))
  {
    OrderedStep(s, a);
    match a
    case Next => EventsOfMore(s.dispatched, [s.queue[0]], s.fates);
    case DispatchTo(id) => EventsRightTo(s, Apply(s, a), ToRequest(id, s.pending[id](s.dispatching[0]) == Matched));
    case DispatchEvent => EventsRightTo(s, Apply(s, a), ToEvents);
    case _ =>
  }

  /** All that a request has been given. */
  function Given<P>(s: Client<P>, id: nat): seq<Response<P>> {
    Got(s, id) + if id in s.channels then s.channels[id] else []
  }

  predicate Took(f: Fate, id: nat) { f.ToRequest? && f.id == id }

  predicate TookOne(fates: seq<Fate>, id: nat) {
    exists k :: 0 <= k < |fates| && Took(fates[k], id)
  }

  /** A request that took a packet has been given exactly the answer to it and is done with; what
      other requests were given are failures. */
  ghost predicate Answered<P>(s: Client<P>) {
    && |s.fates| <= |s.dispatched|
    && (forall k, id: nat :: 0 <= k < |s.fates| && Took(s.fates[k], id) ==>
          id !in s.pending && Given(s, id) == [Answer(s.dispatched[k], s.fates[k].matched)])
    && (forall j, k, id: nat :: 0 <= j < k < |s.fates| && Took(s.fates[j], id) ==> !Took(s.fates[k], id))
    && (forall id: nat, r :: r in Given(s, id) && r.Reply? ==> TookOne(s.fates, id))
    && (forall i :: 0 <= i < |s.transit| ==> s.transit[i].1.Failure?)
  }

  lemma {:induction false} InTransitMember<P>(transit: seq<(nat, Response<P>)>, i: nat)
    requires i < |transit|
    ensures InTransit(transit, transit[i].0) > 0
  {
    if i > 0 {
      InTransitMember(transit[1..], i - 1);
    }
  }

  lemma AnsweredDeliver<P>(s: Client<P>, i: nat)
    requires Tracked(s) && Answered(s) && Enabled(s, Deliver(i))
    ensures Answered(Apply(s, Deliver(i)))
  {
    var id := s.transit[i].0;
    var end := Apply(s, Deliver(i));
    InTransitMember(s.transit, i);
    assert Places(s, id) == if 1 <= id <= s.registered then 1 else 0;
    assert Given(s, id) == [];
    assert forall j: nat :: j != id ==> Given(end, j) == Given(s, j);
    assert Given(end, id) == [Failure];
  }

  lemma GivenDispatch<P>(s: Client<P>, id: nat)
    requires Tracked(s) && Enabled(s, DispatchTo(id))
    ensures var end := Apply(s, DispatchTo(id));
            && Given(end, id) == [Answer(s.dispatching[0], s.pending[id](s.dispatching[0]) == Matched)]
            && forall j: nat :: j != id ==> Given(end, j) == Given(s, j)
    ensures Given(s, id) == []
  {
    assert Places(s, id) == if 1 <= id <= s.registered then 1 else 0;
  }

  lemma AnsweredDispatch<P>(s: Client<P>, id: nat)
    requires Tracked(s) && Ordered(s) && Answered(s) && Enabled(s, DispatchTo(id))
    ensures Answered(Apply(s, DispatchTo(id)))
  {
    var p := s.dispatching[0];
    var matched := s.pending[id](p) == Matched;
    var end := Apply(s, DispatchTo(id));
    GivenDispatch(s, id);
    assert end.fates[|s.fates|] == ToRequest(id, matched) && end.dispatched[|s.fates|] == p;
    TookAnswered(s, end, id, p, matched);
    RepliesTook(s, end, id, matched);
  }

  /** The request that takes a packet took none before, and is given the answer to this one. */
  lemma TookAnswered<P>(s: Client<P>, end: Client<P>, id: nat, p: P, matched: bool)
    requires Answered(s) && id in s.pending && end.pending == s.pending - {id}
    requires end.fates == s.fates + [ToRequest(id, matched)] && |end.fates| <= |end.dispatched|
    requires end.dispatched[..|s.fates|] == s.dispatched[..|s.fates|] && end.dispatched[|s.fates|] == p
    requires Given(end, id) == [Answer(p, matched)]
    requires forall j: nat :: j != id ==> Given(end, j) == Given(s, j)
    ensures forall k, j: nat :: 0 <= k < |end.fates| && Took(end.fates[k], j) ==>
              j !in end.pending && Given(end, j) == [Answer(end.dispatched[k], end.fates[k].matched)]
    ensures forall i, k, j: nat :: 0 <= i < k < |end.fates| && Took(end.fates[i], j) ==> !Took(end.fates[k], j)
  {
    forall k, j: nat | 0 <= k < |end.fates| && Took(end.fates[k], j)
      ensures j !in end.pending && Given(end, j) == [Answer(end.dispatched[k], end.fates[k].matched)]
    {
      if k < |s.fates| {
        assert Took(s.fates[k], j);
        assert s.dispatched[..|s.fates|][k] == end.dispatched[..|s.fates|][k];
      }
    }
    forall i, k, j: nat | 0 <= i < k < |end.fates| && Took(end.fates[i], j) ensures !Took(end.fates[k], j) {
      assert Took(s.fates[i], j);
    }
  }

  lemma RepliesTook<P>(s: Client<P>, end: Client<P>, id: nat, matched: bool)
    requires end.fates == s.fates + [ToRequest(id, matched)]
    requires forall j: nat, r :: r in Given(s, j) && r.Reply? ==> TookOne(s.fates, j)
    requires forall j: nat :: j != id ==> Given(end, j) == Given(s, j)
    ensures forall j: nat, r :: r in Given(end, j) && r.Reply? ==> TookOne(end.fates, j)
  {
    forall j: nat, r | r in Given(end, j) && r.Reply? ensures TookOne(end.fates, j) {
      TookSnoc(s.fates, ToRequest(id, matched), j);
      if j != id {
        assert r in Given(s, j);
      }
    }
  }

  lemma TookSnoc(fates: seq<Fate>, f: Fate, id: nat)
    ensures TookOne(fates + [f], id) <==> TookOne(fates, id) || Took(f, id)
  {
    var more := fates + [f];
    assert more[|fates|] == f;
    if k :| 0 <= k < |fates| && Took(fates[k], id) {
      assert Took(more[k], id);
    }
    if k :| 0 <= k < |more| && Took(more[k], id) {
      assert k < |fates| ==> Took(fates[k], id);
    }
  }

  lemma AnsweredSame<P>(s: Client<P>, end: Client<P>)
    requires Answered(s)
    requires forall j: nat :: Given(end, j) == Given(s, j)
    requires forall j: nat :: j in end.pending ==> j in s.pending || Given(s, j) == []
    requires |s.fates| <= |end.fates| <= |end.dispatched|
    requires forall k :: 0 <= k < |s.fates| ==> end.fates[k] == s.fates[k] && end.dispatched[k] == s.dispatched[k]
    requires forall k :: |s.fates| <= k < |end.fates| ==> end.fates[k].ToEvents?
    requires forall i :: 0 <= i < |end.transit| ==> end.transit[i].1.Failure?
    ensures Answered(end)
  {
    forall j: nat, r | r in Given(end, j) && r.Reply? ensures TookOne(end.fates, j) {
      var k :| 0 <= k < |s.fates| && Took(s.fates[k], j);
      assert Took(end.fates[k], j);
    }
    forall j, k, id: nat | 0 <= j < k < |end.fates| && Took(end.fates[j], id) ensures !Took(end.fates[k], id) {
      assert Took(s.fates[j], id);
    }
    forall k, id: nat | 0 <= k < |end.fates| && Took(end.fates[k], id)
      ensures id !in end.pending && Given(end, id) == [Answer(end.dispatched[k], end.fates[k].matched)]
    {
      assert Took(s.fates[k], id) && s.fates[k] == end.fates[k];
    }
  }

  lemma GivenFailAll<P>(s: Client<P>, id: nat)
    requires Tracked(s) && Enabled(s, FailAll)
    ensures Given(Apply(s, FailAll), id) == if id in s.pending then [Failure] else Given(s, id)
  {
    assert Places(s, id) == if 1 <= id <= s.registered then 1 else 0;
  }

  lemma AnsweredFailAll<P>(s: Client<P>)
    requires Tracked(s) && Answered(s) && Enabled(s, FailAll)
    ensures Answered(Apply(s, FailAll))
  {
    var end := Apply(s, FailAll);
    forall j: nat ensures Given(end, j) == if j in s.pending then [Failure] else Given(s, j) {
      GivenFailAll(s, j);
    }
    forall k, id: nat | 0 <= k < |end.fates| && Took(end.fates[k], id)
      ensures Given(end, id) == [Answer(end.dispatched[k], end.fates[k].matched)]
    {
      assert Took(s.fates[k], id);
    }
    forall j: nat, r | r in Given(end, j) && r.Reply? ensures TookOne(end.fates, j) {
      assert r in Given(s, j);
    }
  }

  lemma AnsweredRegister<P>(s: Client<P>, matcher: Matcher<P>)
    requires Tracked(s) && Answered(s) && s.registered + 1 < TWO_TO_THE_64
    ensures Answered(Apply(s, Register(matcher)))
  {
    var end := Apply(s, Register(matcher));
    assert Places(s, end.nextId) == 0;
    AnsweredSame(s, end);
  }

  lemma AnsweredReceive<P>(s: Client<P>, id: nat)
    requires Tracked(s) && Answered(s) && Enabled(s, Receive(id))
    ensures Answered(Apply(s, Receive(id)))
  {
    var end := Apply(s, Receive(id));
    assert Places(s, id) == if 1 <= id <= s.registered then 1 else 0;
    assert s.channels[id] == [s.channels[id][0]];
    AnsweredSame(s, end);
  }

  lemma AnsweredStep<P>(s: Client<P>, a: Action<P>)
    requires Tracked(s) && Ordered(s) && Answered(s) && Enabled(s, a)
    requires Apply(s, a).registered < TWO_TO_THE_64
    ensures Answered(Apply(s, a))
  {
    match a
    case Deliver(i) => AnsweredDeliver(s, i);
    case DispatchTo(id) => AnsweredDispatch(s, id);
    case FailAll => AnsweredFailAll(s);
    case Register(matcher) => AnsweredRegister(s, matcher);
    case Receive(id) => AnsweredReceive(s, id);
    case _ => AnsweredOther(s, a);
  }

  lemma AnsweredOther<P>(s: Client<P>, a: Action<P>)
    requires Ordered(s) && Answered(s) && Enabled(s, a)
    requires a.Complete? || a.ReadPacket? || a.Enqueue? || a.Next? || a.DispatchEvent?
    ensures Answered(Apply(s, a))
  {
    var end := Apply(s, a);
    assert forall j: nat :: Given(end, j) == Given(s, j);
    AnsweredSame(s, end);
  }

  // ---------- every packet where it belongs ----------

  /** What the matcher of this request says of this packet. */
  ghost predicate Says<P>(matchers: map<nat, Matcher<P>>, id: nat, p: P, v: Verdict) {
    id in matchers && matchers[id](p) == v
  }

  /** The fate a packet may have: a request pending at the time takes it only if its matcher accepts it
      or fails on it, and it goes to the event handler only if all of them pass it over. */
  ghost predicate FateFits<P>(matchers: map<nat, Matcher<P>>, table: set<nat>, p: P, f: Fate) {
    match f
    case ToRequest(id, matched) => id in table && Says(matchers, id, p, if matched then Matched else MatchError)
    case ToEvents => forall id :: id in table ==> Says(matchers, id, p, Unmatched)
  }

  ghost predicate Fitting<P>(s: Client<P>) {
    && |s.tables| == |s.fates| <= |s.dispatched|
    && (forall id :: id in s.matchers ==> 1 <= id <= s.registered)
    && (forall id :: id in s.pending ==> id in s.matchers && s.matchers[id] == s.pending[id])
    && (forall k :: 0 <= k < |s.fates| ==>
          && FateFits(s.matchers, s.tables[k], s.dispatched[k], s.fates[k])
          && forall id :: id in s.tables[k] ==> id in s.matchers)
  }

  lemma FittingRegister<P>(s: Client<P>, matcher: Matcher<P>)
    requires Fitting(s) && s.nextId == s.registered && s.registered + 1 < TWO_TO_THE_64
    ensures Fitting(Apply(s, Register(matcher)))
  {
    var end := Apply(s, Register(matcher));
    forall k | 0 <= k < |end.fates|
      ensures FateFits(end.matchers, end.tables[k], end.dispatched[k], end.fates[k])
      ensures forall id :: id in end.tables[k] ==> id in end.matchers
    {
      assert FateFits(s.matchers, s.tables[k], s.dispatched[k], s.fates[k]);
    }
  }

  /** A packet finds its fate. */
  lemma FittingFate<P>(s: Client<P>, end: Client<P>, f: Fate)
    requires Fitting(s) && Ordered(s) && s.dispatching != []
    requires end.tables == s.tables + [s.pending.Keys] && end.fates == s.fates + [f]
    requires end.dispatched == s.dispatched && end.matchers == s.matchers && end.registered == s.registered
    requires forall id :: id in end.pending ==> id in s.pending && end.pending[id] == s.pending[id]
    requires match f
             case ToRequest(id, matched) =>
               id in s.pending && s.pending[id](s.dispatching[0]) == (if matched then Matched else MatchError)
             case ToEvents => forall id :: id in s.pending ==> s.pending[id](s.dispatching[0]) == Unmatched
    ensures Fitting(end)
  {
    assert s.dispatching[0] == s.dispatched[|s.fates|];
    forall k | 0 <= k < |end.fates|
      ensures FateFits(end.matchers, end.tables[k], end.dispatched[k], end.fates[k])
      ensures forall id :: id in end.tables[k] ==> id in end.matchers
    {
      assert k < |s.fates| ==> FateFits(s.matchers, s.tables[k], s.dispatched[k], s.fates[k]);
    }
  }

  /** Steps that decide nothing. */
  lemma FittingSame<P>(s: Client<P>, end: Client<P>)
    requires Fitting(s) && s.dispatched <= end.dispatched
    requires end.tables == s.tables && end.fates == s.fates && end.matchers == s.matchers
            && end.registered == s.registered
    requires forall id :: id in end.pending ==> id in s.pending && end.pending[id] == s.pending[id]
    ensures Fitting(end)
  {
    forall k | 0 <= k < |end.fates|
      ensures FateFits(end.matchers, end.tables[k], end.dispatched[k], end.fates[k])
    {
      assert FateFits(s.matchers, s.tables[k], s.dispatched[k], s.fates[k]);
    }
  }

  lemma FittingStep<P>(s: Client<P>, a: Action<P>)
    requires Fitting(s) && Ordered(s) && s.nextId == s.registered && Enabled(s, a)
    requires Apply(s, a).registered < TWO_TO_THE_64
    ensures Fitting(Apply(s, a))
  {
    match a
    case Register(matcher) => FittingRegister(s, matcher);
    case DispatchTo(id) => FittingDispatch(s, id);
    case DispatchEvent => FittingFate(s, Apply(s, a), ToEvents);
    case _ => FittingOther(s, a);
  }

  lemma FittingDispatch<P>(s: Client<P>, id: nat)
    requires Fitting(s) && Ordered(s) && Enabled(s, DispatchTo(id))
    ensures Fitting(Apply(s, DispatchTo(id)))
  {
    FittingFate(s, Apply(s, DispatchTo(id)), ToRequest(id, s.pending[id](s.dispatching[0]) == Matched));
  }

  lemma FittingOther<P>(s: Client<P>, a: Action<P>)
    requires Fitting(s) && Enabled(s, a) && !a.Register? && !a.DispatchTo? && !a.DispatchEvent?
    ensures Fitting(Apply(s, a))
  {
    FittingSame(s, Apply(s, a));
  }

  ghost predicate Inv<P>(s: Client<P>) {
    Tracked(s) && EventsRight(s) && Answered(s) && Fitting(s)
  }

  lemma {:induction false} InvRun<P>(s: Client<P>, actions: seq<Action<P>>, end: Client<P>)
    requires Runs(s, actions, end) && end.registered < TWO_TO_THE_64
    requires Inv(s)
    ensures Inv(end)
    decreases |actions|
  {
    if actions != [] {
      RegisteredGrows(Apply(s, actions[0]), actions[1..], end);
      TrackedStep(s, actions[0]);
      EventsRightStep(s, actions[0]);
      AnsweredStep(s, actions[0]);
      FittingStep(s, actions[0]);
      InvRun(Apply(s, actions[0]), actions[1..], end);
    }
  }

  lemma {:induction false} RegisteredGrows<P>(s: Client<P>, actions: seq<Action<P>>, end: Client<P>)
    requires Runs(s, actions, end)
    ensures s.registered <= end.registered
    decreases |actions|
  {
    if actions != [] {
      RegisteredGrows(Apply(s, actions[0]), actions[1..], end);
    }
  }

  lemma TrackedFresh<P>()
    ensures Tracked(Fresh<P>())
  {
    forall id: nat ensures Places(Fresh<P>(), id) == 0 {}
  }

  lemma AnsweredFresh<P>()
    ensures Answered(Fresh<P>())
  {
    forall id: nat ensures Given(Fresh<P>(), id) == [] {}
  }

  lemma InvFresh<P>()
    ensures Inv(Fresh<P>())
  {
    TrackedFresh<P>();
    AnsweredFresh<P>();
  }

  lemma Reached<P>(actions: seq<Action<P>>, end: Client<P>)
    requires Runs(Fresh(), actions, end) && end.registered < TWO_TO_THE_64
    ensures Tracked(end) && EventsRight(end) && Answered(end) && Fitting(end)
  {
    InvFresh<P>();
    InvRun(Fresh(), actions, end);
  }

  /** Exactly-once responses. In every run with fewer than 2^64 requests, the IDs given out are
      1, 2, 3, ... without repetition; each request is in exactly one place - pending, on its way to
      its channel, in its channel, or answered - so it gets at most one response and loses none; and
      Deliver never finds a channel full. */
  lemma ExactlyOnce<P>(actions: seq<Action<P>>, end: Client<P>)
    requires Runs(Fresh(), actions, end) && end.registered < TWO_TO_THE_64
    ensures end.nextId == end.registered && end.overflows == 0
    ensures forall id: nat :: Places(end, id) == if 1 <= id <= end.registered then 1 else 0
  {
    Reached(actions, end);
  }

  /** Every packet is dispatched in the order it was read and has exactly one fate: the event handler,
      which gets its packets in order, or one request. A request takes at most one packet, is given
      exactly the answer to it, and a request that takes none is given no reply. A packet goes to a
      request only if the matcher of the request accepts it, or fails on it, and to the event handler
      only if every request pending at the time passes it over. */
  lemma EachPacketOnce<P>(actions: seq<Action<P>>, end: Client<P>)
    requires Runs(Fresh(), actions, end) && end.registered < TWO_TO_THE_64
    ensures end.dispatched <= end.read
    ensures |end.fates| + |end.dispatching| == |end.dispatched| && |end.dispatching| <= 1
    ensures end.events == EventsOf(end.dispatched, end.fates)
    ensures forall k, id: nat :: 0 <= k < |end.fates| && Took(end.fates[k], id) ==>
              Given(end, id) == [Answer(end.dispatched[k], end.fates[k].matched)]
    ensures forall j, k, id: nat :: 0 <= j < k < |end.fates| && Took(end.fates[j], id) ==> !Took(end.fates[k], id)
    ensures forall id: nat, r :: r in Given(end, id) && r.Reply? ==> TookOne(end.fates, id)
    ensures |end.tables| == |end.fates|
    ensures forall k :: 0 <= k < |end.fates| ==> FateFits(end.matchers, end.tables[k], end.dispatched[k], end.fates[k])
  {
    Reached(actions, end);
    Assoc(end.dispatched, end.queue, end.reading);
  }

  // ---------- routing does not depend on the map order ----------

  /** Some iteration order of the pending map gives this packet to this request. */
  predicate CanGoTo<P>(pending: map<nat, Matcher<P>>, p: P, id: nat) {
    id in pending && pending[id](p) != Unmatched
  }

  ghost predicate OrderIndependent<P(!new)>(pending: map<nat, Matcher<P>>) {
    forall p, i: nat, j: nat :: CanGoTo(pending, p, i) && CanGoTo(pending, p, j) ==> i == j
  }

  datatype Kind = RunResponse | CancelResponse | StatusResponse

  /** A control packet as the compute matchers see it: its type, and the run ID of its payload if the
      payload can be decoded. */
  datatype ComputePacket =
    | WellFormed(kind: Kind, runId: string)
    | Malformed(kind: Kind)
    | Other

  /** The matcher for the response of one kind about one run. */
  datatype Wanted = Wanted(kind: Kind, runId: string)

  function Match(w: Wanted, p: ComputePacket): Verdict {
    match p
    case Other => Unmatched
    case Malformed(kind) => if kind != w.kind then Unmatched else MatchError
    case WellFormed(kind, runId) => if kind == w.kind && runId == w.runId then Matched else Unmatched
  }

  function Matchers(wanted: map<nat, Wanted>): map<nat, Matcher<ComputePacket>> {
    map id | id in wanted :: p => Match(wanted[id], p)
  }

  /** For well-formed packets, the request a packet reaches is independent of the iteration order
      exactly if no two pending requests want the same kind of response for the same run; and then it
      is the request that asked for it. */
  lemma OrderIndependenceIff(wanted: map<nat, Wanted>)
    ensures (forall p: ComputePacket, i: nat, j: nat ::
               !p.Malformed? && CanGoTo(Matchers(wanted), p, i) && CanGoTo(Matchers(wanted), p, j) ==> i == j)
            <==> (forall i, j :: i in wanted && j in wanted && wanted[i] == wanted[j] ==> i == j)
  {
    if i, j :| i in wanted && j in wanted && wanted[i] == wanted[j] && i != j {
      var p := WellFormed(wanted[i].kind, wanted[i].runId);
      assert CanGoTo(Matchers(wanted), p, i) && CanGoTo(Matchers(wanted), p, j);
    }
  }

  /** With undecodable payloads in play, only one request of each kind may be pending. */
  lemma MalformedOrderIndependenceIff(wanted: map<nat, Wanted>)
    ensures OrderIndependent(Matchers(wanted))
            <==> (forall i, j :: i in wanted && j in wanted && wanted[i].kind == wanted[j].kind ==> i == j)
  {
    if i, j :| i in wanted && j in wanted && wanted[i].kind == wanted[j].kind && i != j {
      var p := Malformed(wanted[i].kind);
      assert CanGoTo(Matchers(wanted), p, i) && CanGoTo(Matchers(wanted), p, j);
    }
  }

  /** Every request was registered with the matcher for what it wants. */
  ghost predicate Asks(s: Client<ComputePacket>, wanted: map<nat, Wanted>) {
    forall id :: id in s.matchers ==> id in wanted && forall p :: s.matchers[id](p) == Match(wanted[id], p)
  }

  /** A reply is what its request asked for: over every run, a well-formed packet that went to a request
      answers that request, and is in its channel or with its requester. */
  lemma ReplyAnswersItsRequest(actions: seq<Action<ComputePacket>>, end: Client<ComputePacket>, wanted: map<nat,
            Wanted>,
                               k: nat, id: nat)
    requires Runs(Fresh(), actions, end) && end.registered < TWO_TO_THE_64 && Asks(end, wanted)
    requires k < |end.fates| && Took(end.fates[k], id)
    ensures k < |end.dispatched| && id in wanted
    ensures var p := end.dispatched[k];
            p.WellFormed? ==> p == WellFormed(wanted[id].kind, wanted[id].runId) && Given(end, id) == [Reply(p)]
  {
    EachPacketOnce(actions, end);
    var p := end.dispatched[k];
    assert FateFits(end.matchers, end.tables[k], p, end.fates[k]);
    assert end.matchers[id](p) == Match(wanted[id], p);
  }

  /** A response reaches its asker: over every run, a response that is dispatched while the request that
      wants it is pending, and no other request pending then wants the same, goes to that request. */
  lemma ReachesTheAsker(actions: seq<Action<ComputePacket>>, end: Client<ComputePacket>, wanted: map<nat, Wanted>,
                        k: nat, id: nat)
    requires Runs(Fresh(), actions, end) && end.registered < TWO_TO_THE_64 && Asks(end, wanted)
    requires k < |end.fates| && k < |end.tables| && id in end.tables[k] && id in wanted
    requires k < |end.dispatched| && end.dispatched[k] == WellFormed(wanted[id].kind, wanted[id].runId)
    requires forall other :: other in end.tables[k] && other in wanted && wanted[other] == wanted[id] ==> other == id
    ensures end.fates[k] == ToRequest(id, true) && Given(end, id) == [Reply(end.dispatched[k])]
  {
    EachPacketOnce(actions, end);
    var p := end.dispatched[k];
    assert FateFits(end.matchers, end.tables[k], p, end.fates[k]);
    TableKnown(actions, end, k, id);
    assert end.matchers[id](p) == Match(wanted[id], p) == Matched;
    if end.fates[k].ToRequest? {
      var taker := end.fates[k].id;
      assert end.matchers[taker](p) == Match(wanted[taker], p);
      assert taker == id && Took(end.fates[k], id);
    }
  }

  /** Where a response ends up: over every run, a well-formed packet goes to the event handler if and only
      if no request pending at the time wants its kind for its run. In particular a status event goes to
      a status request about its run if one is outstanding, and the event handler never sees it. */
  lemma GoesToEventsIff(actions: seq<Action<ComputePacket>>, end: Client<ComputePacket>, wanted: map<nat, Wanted>,
                        k: nat)
    requires Runs(Fresh(), actions, end) && end.registered < TWO_TO_THE_64 && Asks(end, wanted)
    requires k < |end.fates| && k < |end.tables| && k < |end.dispatched| && end.dispatched[k].WellFormed?
    ensures var p := end.dispatched[k];
            end.fates[k].ToEvents? <==>
            !exists id :: id in end.tables[k] && id in wanted && wanted[id] == Wanted(p.kind, p.runId)
  {
    EachPacketOnce(actions, end);
    var p := end.dispatched[k];
    assert FateFits(end.matchers, end.tables[k], p, end.fates[k]);
    forall id | id in end.tables[k] ensures id in end.matchers && end.matchers[id](p) == Match(wanted[id], p) {
      TableKnown(actions, end, k, id);
    }
  }

  lemma TableKnown<P>(actions: seq<Action<P>>, end: Client<P>, k: nat, id: nat)
    requires Runs(Fresh(), actions, end) && end.registered < TWO_TO_THE_64
    requires k < |end.fates| && k < |end.tables| && id in end.tables[k]
    ensures id in end.matchers
  {
    Reached(actions, end);
  }
}
