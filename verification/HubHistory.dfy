/**
 Which notifications a client gets, told from the history alone.

 `Subscribed` and `Backlog` read nothing but the list of past events. The main
 lemma says that the notifications that ever entered a client's channel are the
 broadcasts the hub took while this client was subscribed and offered while its
 channel had room: all of them, in the order taken, each once.
 */
module HubHistory {
  import opened HubCore
  import opened HubProtocol

  /** c's last word on mailbox m that the hub has handled was a subscribe. */
  predicate Subscribed(events: seq<Event>, c: ClientId, m: MailboxId)
    decreases |events|
  {
    events != [] && (
      var n := |events| - 1;
      if events[n] == Serve(Subscribe(c, m)) then true
      else if events[n] == Serve(Unsubscribe(c, m)) || events[n] == Serve(Unregister(c)) then false
      else Subscribed(events[..n], c, m))
  }

  /** How many items wait for c's write pump. */
  function Backlog(events: seq<Event>, c: ClientId): nat
    decreases |events|
  {
    if events == [] then 0 else
    var n := |events| - 1;
    var before := Backlog(events[..n], c);
    if events[n] == Drain(c) then (if before == 0 then 0 else before - 1)
    else if (events[n] == OfferNext(c) || Complains(events[n], c)) && before < CAPACITY then before + 1
    else before
  }

  predicate Complains(e: Event, c: ClientId) {
    e.Receive? && e.client == c && React(c, e.frame).Complain?
  }

  predicate Room(events: seq<Event>, c: ClientId) {
    Backlog(events, c) < CAPACITY
  }

  predicate IsTake(events: seq<Event>, k: int) {
    0 <= k < |events| && events[k].Take?
  }

  /** Event k is the hub taking a broadcast for a mailbox c is subscribed to. */
  predicate Wanted(events: seq<Event>, c: ClientId, k: int) {
    IsTake(events, k) && Subscribed(events[..k], c, events[k].broadcast.mailbox)
  }

  /** Event j offers to c the broadcast taken at event k. */
  predicate OfferOf(events: seq<Event>, c: ClientId, k: int, j: int) {
    k < j < |events| && IsTake(events, k) && events[j] == OfferNext(c) && forall i :: k < i < j ==> !events[i].Take?
  }

  ghost predicate HadRoom(events: seq<Event>, c: ClientId, k: int) {
    exists j :: OfferOf(events, c, k, j) && Room(events[..j], c)
  }

  ghost predicate OfferedOnce(events: seq<Event>, c: ClientId, k: int) {
    && (exists j :: OfferOf(events, c, k, j))
    && (forall i, j :: OfferOf(events, c, k, i) && OfferOf(events, c, k, j) ==> i == j)
  }

  /** The notifications among the items, in order. */
  function Notifications(items: seq<Item>): seq<Broadcast> {
    if items == [] then []
    else (if items[0].NewMessage? then [items[0].broadcast] else []) + Notifications(items[1..])
  }

  function TakenAt(events: seq<Event>, k: int): Broadcast
    requires IsTake(events, k)
  {
    events[k].broadcast
  }

  /** The broadcasts taken at the given events. */
  function Bodies(events: seq<Event>, at: seq<int>): seq<Broadcast>
    requires forall i :: 0 <= i < |at| ==> IsTake(events, at[i])
  {
    seq(|at|, i requires 0 <= i < |at| => TakenAt(events, at[i]))
  }

  predicate Ascending(at: seq<int>) {
    forall i, j :: 0 <= i < j < |at| ==> at[i] < at[j]
  }

  /** Everything that entered c's channel: what was drained, then what waits. */
  function Entered(s: State, c: ClientId): seq<Item> {
    SentBy(s, c) + ChannelOf(s.core, c).buffer
  }

  // ------------------------------------------------------------ the mirror

  lemma {:induction false} HistoryMirrorsState(events: seq<Event>, c: ClientId, m: MailboxId)
    requires Execution(events)
    ensures c in Subscribers(After(events).core.subscriptions, m) <==> Subscribed(events, c, m)
    ensures |ChannelOf(After(events).core, c).buffer| == Backlog(events, c)
    decreases |events|
  {
    if events == [] {
    } else {
      var n := |events| - 1;
      var s := After(events[..n]);
      HistoryMirrorsState(events[..n], c, m);
      NoInterleavingPanics(events[..n]);
      SubscriptionStep(s, events[n], c, m);
      SafeIsOpen(s, events[n], c);
      ChannelStep(s, events[n], c);
    }
  }

  /** One event changes c's subscriptions as the history says. */
  lemma SubscriptionStep(s: State, e: Event, c: ClientId, m: MailboxId)
    requires Safe(s) && Enabled(s, e)
    ensures c in Subscribers(Apply(s, e).core.subscriptions, m) <==>
              e == Serve(Subscribe(c, m))
              || (e != Serve(Unsubscribe(c, m)) && e != Serve(Unregister(c))
                  && c in Subscribers(s.core.subscriptions, m))
  {
    assert ClientInv(s, c);
  }

  /** What event e puts into c's channel. */
  function Entering(s: State, e: Event, c: ClientId): seq<Item>
    requires Enabled(s, e)
  {
    if |ChannelOf(s.core, c).buffer| >= CAPACITY then []
    else if e == OfferNext(c) then [NewMessage(s.hub.broadcast)]
    else if Complains(e, c) then [ErrorNote(React(c, e.frame).text)]
    else []
  }

  /** Whoever sends to c now finds its channel open, and a new client's channel is new. */
  predicate OpenFor(s: State, e: Event, c: ClientId) {
    && (e == OfferNext(c) || Complains(e, c) ==> !ChannelOf(s.core, c).closed)
    && (e == Connect(c) ==> ChannelOf(s.core, c) == Channel([], false))
  }

  lemma SafeIsOpen(s: State, e: Event, c: ClientId)
    requires Safe(s) && Enabled(s, e)
    ensures OpenFor(s, e, c)
  {
    assert ClientInv(s, c);
    if e == OfferNext(c) {
      SubscriberIsOpen(s, c);
    }
  }

  /** One event moves items through c's channel: in at the back, out to the write pump at the front. */
  lemma ChannelStep(s: State, e: Event, c: ClientId)
    requires Enabled(s, e) && OpenFor(s, e, c)
    ensures ChannelOf(Apply(s, e).core, c).buffer ==
            if e == Drain(c) then ChannelOf(s.core, c).buffer[1..]
            else ChannelOf(s.core, c).buffer + Entering(s, e, c)
    ensures SentBy(Apply(s, e), c) ==
            if e == Drain(c) then SentBy(s, c) + [ChannelOf(s.core, c).buffer[0]] else SentBy(s, c)
  {
    var t := Apply(s, e);
    match e {
      case Drain(x) =>
        assert x != c ==> ChannelOf(t.core, c) == ChannelOf(s.core, c);
      case Serve(r) =>
        assert ChannelOf(t.core, c).buffer == ChannelOf(s.core, c).buffer;
      case OfferNext(x) =>
        assert x != c ==> ChannelOf(t.core, c) == ChannelOf(s.core, c);
      case Receive(x, f) =>
        assert x != c ==> ChannelOf(t.core, c) == ChannelOf(s.core, c);
      case Connect(x) =>
        assert x != c ==> ChannelOf(t.core, c) == ChannelOf(s.core, c);
      case _ =>
        assert ChannelOf(t.core, c) == ChannelOf(s.core, c);
    }
  }

  lemma EnteredStep(s: State, e: Event, c: ClientId)
    requires Enabled(s, e) && OpenFor(s, e, c)
    ensures Entered(Apply(s, e), c) == Entered(s, c) + Entering(s, e, c)
  {
    ChannelStep(s, e, c);
    var out, buffer := SentBy(s, c), ChannelOf(s.core, c).buffer;
    if e == Drain(c) {
      assert (out + [buffer[0]]) + buffer[1..] == out + buffer;
    } else {
      assert out + (buffer + Entering(s, e, c)) == (out + buffer) + Entering(s, e, c);
    }
  }

  // ------------------------------------------------------------ the offers

  /** The last event at which the hub took a broadcast. */
  ghost predicate LastTake(events: seq<Event>, k: int) {
    IsTake(events, k) && forall i :: k < i < |events| ==> !events[i].Take?
  }

  /** A broadcast under delivery: the clients still to visit are wanted and not yet offered. */
  ghost predicate UnderDelivery(events: seq<Event>, todo: set<ClientId>, k: int) {
    && LastTake(events, k)
    && forall c :: c in todo ==> Wanted(events, c, k) && forall j :: !OfferOf(events, c, k, j)
  }

  /** Every broadcast taken has been offered once to whom it concerns, except to those still to visit. */
  ghost predicate OffersInv(events: seq<Event>, hub: HubPc) {
    && (hub.Delivering? ==> exists k :: UnderDelivery(events, hub.todo, k) && events[k].broadcast == hub.broadcast)
    && (forall c, k :: Wanted(events, c, k) ==>
          OfferedOnce(events, c, k) || (hub.Delivering? && c in hub.todo && LastTake(events, k)))
    && (forall c, k, j :: OfferOf(events, c, k, j) ==> Wanted(events, c, k))
  }

  /** Appending an event changes no earlier fact. */
  lemma PrefixFacts(events: seq<Event>, e: Event, c: ClientId, k: int)
    requires 0 <= k < |events|
    ensures Wanted(events + [e], c, k) <==> Wanted(events, c, k)
    ensures forall j :: 0 <= j < |events| ==> (OfferOf(events + [e], c, k, j) <==> OfferOf(events, c, k, j))
    ensures OfferOf(events + [e], c, k, |events|) <==> e == OfferNext(c) && LastTake(events, k)
    ensures LastTake(events + [e], k) <==> LastTake(events, k) && !e.Take?
  {
    var longer := events + [e];
    assert longer[..k] == events[..k];
    forall i | 0 <= i < |events|
      ensures longer[i] == events[i]
    {
    }
  }

  lemma {:induction false} OffersFollowTakes(events: seq<Event>)
    requires Execution(events)
    ensures OffersInv(events, After(events).hub)
    decreases |events|
  {
    if events == [] {
    } else {
      var n := |events| - 1;
      var before, e := events[..n], events[n];
      assert events == before + [e];
      OffersFollowTakes(before);
      NoInterleavingPanics(before);
      OffersStep(before, e);
    }
  }

  lemma {:induction false} OffersStep(before: seq<Event>, e: Event)
    requires Execution(before) && Enabled(After(before), e)
    requires OffersInv(before, After(before).hub)
    ensures OffersInv(before + [e], Apply(After(before), e).hub)
  {
    var events := before + [e];
    var s := After(before);
    var t := Apply(s, e);
    if e.Take? {
      TakeStarts(before, e);
    } else if s.hub.Delivering? {
      var k :| UnderDelivery(before, s.hub.todo, k) && before[k].broadcast == s.hub.broadcast;
      forall c | t.hub.Delivering? && c in t.hub.todo
        ensures Wanted(events, c, k) && forall j :: !OfferOf(events, c, k, j)
      {
        PrefixFacts(before, e, c, k);
      }
      PrefixFacts(before, e, 0, k);
    }
    forall c, k | Wanted(events, c, k)
      ensures OfferedOnce(events, c, k) || (t.hub.Delivering? && c in t.hub.todo && LastTake(events, k))
    {
      if k < |before| {
        PrefixFacts(before, e, c, k);
        WantedStays(before, e, c, k);
      } else {
        TakeStarts(before, e);
      }
    }
    forall c, k, j | OfferOf(events, c, k, j)
      ensures Wanted(events, c, k)
    {
      PrefixFacts(before, e, c, k);
      if j == |before| {
        var k' :| UnderDelivery(before, s.hub.todo, k');
        assert LastTake(before, k) && LastTake(before, k');
        assert k == k';
      }
    }
  }

  /** Taking a broadcast puts exactly the subscribed clients on the list. */
  lemma TakeStarts(before: seq<Event>, e: Event)
    requires Execution(before) && Enabled(After(before), e) && e.Take?
    ensures UnderDelivery(before + [e], Apply(After(before), e).hub.todo, |before|)
    ensures forall c :: Wanted(before + [e], c, |before|) ==> c in Apply(After(before), e).hub.todo
  {
    var events := before + [e];
    assert events[..|before|] == before;
    forall c
      ensures c in Apply(After(before), e).hub.todo <==> Wanted(events, c, |before|)
    {
      HistoryMirrorsState(before, c, e.broadcast.mailbox);
    }
  }

  /** A wanted broadcast stays accounted for when one more event happens. */
  lemma WantedStays(before: seq<Event>, e: Event, c: ClientId, k: int)
    requires Execution(before) && Enabled(After(before), e)
    requires OffersInv(before, After(before).hub)
    requires Wanted(before, c, k)
    ensures OfferedOnce(before + [e], c, k)
         || (var h := Apply(After(before), e).hub; h.Delivering? && c in h.todo && LastTake(before + [e], k))
  {
    var events := before + [e];
    var s := After(before);
    PrefixFacts(before, e, c, k);
    if OfferedOnce(before, c, k) {
      var j :| OfferOf(before, c, k, j);
      assert OfferOf(events, c, k, j);
    } else if e == OfferNext(c) {
      assert OfferOf(events, c, k, |before|);
    }
  }

  // -------------------------------------------------------- the acceptances

  /** The takes whose offer to c found room, in the order offered. */
  ghost function Accepted(events: seq<Event>, c: ClientId): seq<int>
    decreases |events|
  {
    if events == [] then [] else
    var n := |events| - 1;
    var before := Accepted(events[..n], c);
    if events[n] == OfferNext(c) && Room(events[..n], c) && exists k :: LastTake(events[..n], k)
    then var k :| LastTake(events[..n], k); before + [k]
    else before
  }

  lemma {:induction false} AcceptedMeans(events: seq<Event>, c: ClientId)
    requires Execution(events)
    ensures Ascending(Accepted(events, c))
    ensures forall k :: k in Accepted(events, c) <==> HadRoom(events, c, k)
    decreases |events|
  {
    if events == [] {
    } else {
      var n := |events| - 1;
      var before, e := events[..n], events[n];
      assert events == before + [e];
      AcceptedMeans(before, c);
      if e == OfferNext(c) && Room(before, c) {
        var k := OfferedNow(before, c);
        assert Accepted(events, c) == Accepted(before, c) + [k];
        AppendKeepsOrder(Accepted(before, c), k);
        forall x
          ensures x in Accepted(events, c) <==> HadRoom(events, c, x)
        {
          RoomStep(before, e, c, x);
        }
      } else {
        assert Accepted(events, c) == Accepted(before, c);
        forall x
          ensures HadRoom(events, c, x) <==> HadRoom(before, c, x)
        {
          RoomStep(before, e, c, x);
        }
      }
    }
  }

  /** The broadcast about to be offered to c is the last one taken, and c never had it before. */
  lemma OfferedNow(before: seq<Event>, c: ClientId) returns (k: int)
    requires Execution(before) && Enabled(After(before), OfferNext(c))
    ensures LastTake(before, k) && before[k].broadcast == After(before).hub.broadcast
    ensures forall x :: HadRoom(before, c, x) ==> x < k
    ensures forall x :: LastTake(before, x) ==> x == k
  {
    OffersFollowTakes(before);
    var hub := After(before).hub;
    k :| UnderDelivery(before, hub.todo, k) && before[k].broadcast == hub.broadcast;
    forall x | HadRoom(before, c, x)
      ensures x < k
    {
      var j :| OfferOf(before, c, x, j) && Room(before[..j], c);
    }
  }

  lemma AppendKeepsOrder(at: seq<int>, k: int)
    requires Ascending(at) && forall x :: x in at ==> x < k
    ensures Ascending(at + [k])
  {
    forall i, j | 0 <= i < j < |at + [k]|
      ensures (at + [k])[i] < (at + [k])[j]
    {
      assert at[i] in at;
    }
  }

  lemma RoomStep(before: seq<Event>, e: Event, c: ClientId, k: int)
    ensures HadRoom(before + [e], c, k) <==>
            HadRoom(before, c, k) || (e == OfferNext(c) && LastTake(before, k) && Room(before, c))
  {
    var events := before + [e];
    assert events[..|before|] == before;
    if 0 <= k < |before| {
      PrefixFacts(before, e, c, k);
      forall j | 0 <= j < |before|
        ensures events[..j] == before[..j]
      {
      }
      if HadRoom(before, c, k) {
        var j :| OfferOf(before, c, k, j) && Room(before[..j], c);
        assert OfferOf(events, c, k, j) && Room(events[..j], c);
      }
      if HadRoom(events, c, k) {
        var j :| OfferOf(events, c, k, j) && Room(events[..j], c);
        if j < |before| {
          assert OfferOf(before, c, k, j) && Room(before[..j], c);
        }
      }
      if e == OfferNext(c) && LastTake(before, k) && Room(before, c) {
        assert OfferOf(events, c, k, |before|) && Room(events[..|before|], c);
      }
    }
  }

  lemma NotificationsHead(items: seq<Item>)
    requires items != []
    ensures Notifications(items) ==
            (if items[0].NewMessage? then [items[0].broadcast] else []) + Notifications(items[1..])
  {
  }

  lemma {:induction false} NotificationsAppend(a: seq<Item>, b: seq<Item>)
    ensures Notifications(a + b) == Notifications(a) + Notifications(b)
    decreases |a|
  {
    if a == [] {
      assert a + b == b;
    } else {
      NotificationsAppend(a[1..], b);
      NotificationsHead(a);
      NotificationsHead(a + b);
      assert (a + b)[0] == a[0] && (a + b)[1..] == a[1..] + b;
    }
  }

  lemma AcceptedAreTakes(events: seq<Event>, c: ClientId)
    requires Execution(events)
    ensures forall i :: 0 <= i < |Accepted(events, c)| ==> IsTake(events, Accepted(events, c)[i])
  {
    AcceptedMeans(events, c);
    forall i | 0 <= i < |Accepted(events, c)|
      ensures IsTake(events, Accepted(events, c)[i])
    {
      assert HadRoom(events, c, Accepted(events, c)[i]);
    }
  }

  /** What one more event puts into c's channel, and whether there was room, seen from the history. */
  lemma EntersStep(before: seq<Event>, e: Event, c: ClientId)
    requires Execution(before) && Enabled(After(before), e)
    ensures Entered(Apply(After(before), e), c) == Entered(After(before), c) + Entering(After(before), e, c)
    ensures |ChannelOf(After(before).core, c).buffer| >= CAPACITY <==> !Room(before, c)
  {
    hide Safe, Apply, Enabled, OpenFor;
    HistoryMirrorsState(before, c, 0);
    NoInterleavingPanics(before);
    SafeIsOpen(After(before), e, c);
    EnteredStep(After(before), e, c);
  }

  lemma BodiesExtend(before: seq<Event>, e: Event, at: seq<int>)
    requires forall i :: 0 <= i < |at| ==> IsTake(before, at[i])
    ensures forall i :: 0 <= i < |at| ==> IsTake(before + [e], at[i])
    ensures Bodies(before + [e], at) == Bodies(before, at)
  {
  }

  /** One more event adds to the accepted broadcasts what it adds to the channel. */
  lemma AcceptedStep(before: seq<Event>, e: Event, c: ClientId)
    requires Execution(before) && Execution(before + [e]) && Enabled(After(before), e)
    requires forall i :: 0 <= i < |Accepted(before, c)| ==> IsTake(before, Accepted(before, c)[i])
    requires forall i :: 0 <= i < |Accepted(before + [e], c)| ==> IsTake(before + [e], Accepted(before + [e], c)[i])
    ensures Bodies(before + [e], Accepted(before + [e], c)) ==
            Bodies(before, Accepted(before, c)) + Notifications(Entering(After(before), e, c))
  {
    var events := before + [e];
    assert events[..|before|] == before;
    EntersStep(before, e, c);
    BodiesExtend(before, e, Accepted(before, c));
    hide After, Execution, Room, LastTake;
    if e == OfferNext(c) && Room(before, c) {
      var k := OfferedNow(before, c);
      assert Accepted(events, c) == Accepted(before, c) + [k];
      assert Notifications(Entering(After(before), e, c)) == [TakenAt(events, k)];
    } else {
      assert Accepted(events, c) == Accepted(before, c);
      assert Notifications(Entering(After(before), e, c)) == [];
    }
  }

  lemma {:induction false} ChannelHoldsAccepted(events: seq<Event>, c: ClientId)
    requires Execution(events)
    ensures forall i :: 0 <= i < |Accepted(events, c)| ==> IsTake(events, Accepted(events, c)[i])
    ensures Notifications(Entered(After(events), c)) == Bodies(events, Accepted(events, c))
    decreases |events|
  {
    AcceptedAreTakes(events, c);
    if events == [] {
    } else {
      hide Apply, Enabled, Entered, Entering, Bodies, Notifications, Accepted, IsTake;
      var n := |events| - 1;
      var before, e := events[..n], events[n];
      assert events == before + [e];
      ChannelHoldsAccepted(before, c);
      EntersStep(before, e, c);
      NotificationsAppend(Entered(After(before), c), Entering(After(before), e, c));
      AcceptedStep(before, e, c);
    }
  }

  /**
   In every execution the notifications that entered c's channel are the
   broadcasts taken at the events `at`: ascending, hence in order and without
   repetition, and exactly those that c wanted and had room for. Every
   broadcast c wanted was offered to it exactly once, except the one under
   delivery if c is still to be visited.
   */
  lemma NotificationsAreExact(events: seq<Event>, c: ClientId) returns (at: seq<int>)
    requires Execution(events)
    ensures Ascending(at)
    ensures forall k :: k in at <==> Wanted(events, c, k) && HadRoom(events, c, k)
    ensures forall i :: 0 <= i < |at| ==> IsTake(events, at[i])
    ensures Notifications(Entered(After(events), c)) == Bodies(events, at)
    ensures var hub := After(events).hub;
            forall k :: Wanted(events, c, k) ==>
              OfferedOnce(events, c, k) || (hub.Delivering? && c in hub.todo && LastTake(events, k))
  {
    at := Accepted(events, c);
    AcceptedMeans(events, c);
    OffersFollowTakes(events);
    ChannelHoldsAccepted(events, c);
    forall i | 0 <= i < |at|
      ensures IsTake(events, at[i])
    {
      assert at[i] in at;
    }
  }
}
