/**
 The hub running concurrently with any number of clients and broadcasters.

 An execution is a list of events; an event names the goroutine that moves and
 whatever the outside world decided (which frame arrived, which map entry the
 delivery loop visits next). The request channels are unbuffered, so a request
 is handed over when the hub is back at its select, and the hub handles it in a
 later event while the client may already be running again.

 A client's own program order is the only thing that protects the hub: its
 subscribe case never checks that the client is registered.
 */
module HubProtocol {
  import opened HubCore

  /** Where a connection's goroutines are; a client not yet created has no entry. */
  datatype ClientPc = Starting | Reading | Finished

  /** Where the hub goroutine is. */
  datatype HubPc =
    | Selecting
    | Handling(request: Request)
    | Delivering(broadcast: Broadcast, todo: set<ClientId>)

  /** A frame read from the connection, as far as handleMessage looks at it. */
  datatype Frame = Malformed | SubscribeFrame(mailbox: MailboxId) | UnsubscribeFrame(mailbox: MailboxId) | UnknownFrame

  datatype Event =
    | Connect(client: ClientId)
    | StartPumps(client: ClientId)
    | Receive(client: ClientId, frame: Frame)
    | ReadFails(client: ClientId)
    | Drain(client: ClientId)
    | Post(broadcast: Broadcast)
    | Take(broadcast: Broadcast)
    | Serve(request: Request)
    | OfferNext(client: ClientId)
    | EndDelivery

  /** `sent` is what a client's write pump has taken out of its channel so far. */
  datatype State = State(
    core: Core,
    pc: map<ClientId, ClientPc>,
    hub: HubPc,
    posted: seq<Broadcast>,
    sent: map<ClientId, seq<Item>>)

  const POSTED_CAPACITY: nat := 256

  const START: State := State(Core({}, map[], map[], false), map[], Selecting, [], map[])

  /** What handleMessage does with a frame: complain to the client or ask the hub. */
  datatype Reaction = Complain(text: string) | Ask(request: Request)

  function React(c: ClientId, f: Frame): Reaction {
    match f
    case Malformed => Complain("invalid message format")
    case SubscribeFrame(m) => if m == 0 then Complain("mailbox_id is required") else Ask(Subscribe(c, m))
    case UnsubscribeFrame(m) => if m == 0 then Complain("mailbox_id is required") else Ask(Unsubscribe(c, m))
    case UnknownFrame => Complain("unknown message type")
  }

  function SentBy(s: State, c: ClientId): seq<Item> {
    if c in s.sent then s.sent[c] else []
  }

  predicate Enabled(s: State, e: Event) {
    match e
    case Connect(c) => c !in s.pc && s.hub.Selecting?
    case StartPumps(c) => c in s.pc && s.pc[c].Starting?
    case Receive(c, f) => c in s.pc && s.pc[c].Reading? && (React(c, f).Ask? ==> s.hub.Selecting?)
    case ReadFails(c) => c in s.pc && s.pc[c].Reading? && s.hub.Selecting?
    case Drain(c) => c in s.pc && !s.pc[c].Starting? && ChannelOf(s.core, c).buffer != []
    case Post(b) => |s.posted| < POSTED_CAPACITY
    case Take(b) => s.hub.Selecting? && s.posted != [] && s.posted[0] == b
    case Serve(r) => s.hub == Handling(r)
    case OfferNext(c) => s.hub.Delivering? && c in s.hub.todo
    case EndDelivery => s.hub.Delivering? && s.hub.todo == {}
  }

  function Apply(s: State, e: Event): State
    requires Enabled(s, e)
  {
    match e
    case Connect(c) =>
      s.(pc := s.pc[c := Starting],
         core := s.core.(channels := s.core.channels[c := Channel([], false)]),
         hub := Handling(Register(c)))
    case StartPumps(c) => s.(pc := s.pc[c := Reading])
    case Receive(c, f) =>
      (match React(c, f)
       case Complain(text) => s.(core := TrySend(s.core, c, ErrorNote(text)))
       case Ask(r) => s.(hub := Handling(r)))
    case ReadFails(c) => s.(pc := s.pc[c := Finished], hub := Handling(Unregister(c)))
    case Drain(c) =>
      var ch := ChannelOf(s.core, c);
      s.(core := s.core.(channels := s.core.channels[c := ch.(buffer := ch.buffer[1..])]),
         sent := s.sent[c := SentBy(s, c) + [ch.buffer[0]]])
    case Post(b) => s.(posted := s.posted + [b])
    case Take(b) =>
      s.(posted := s.posted[1..], hub := Delivering(b, Subscribers(s.core.subscriptions, b.mailbox)))
    case Serve(r) => s.(core := Handle(s.core, r), hub := Selecting)
    case OfferNext(c) =>
      s.(core := TrySend(s.core, c, NewMessage(s.hub.broadcast)),
         hub := s.hub.(todo := s.hub.todo - {c}))
    case EndDelivery => s.(hub := Selecting)
  }

  /** The event list is an execution: every event is enabled where it happens. */
  ghost predicate Execution(events: seq<Event>)
    decreases |events|, 0
  {
    events == [] || (
      var before := events[..|events| - 1];
      Execution(before) && Enabled(After(before), events[|events| - 1]))
  }

  /** The state an execution leads to. */
  ghost function After(events: seq<Event>): State
    requires Execution(events)
    decreases |events|, 1
  {
    if events == [] then START
    else Apply(After(events[..|events| - 1]), events[|events| - 1])
  }

  // ---------------------------------------------------------------- safety

  /** The hub knows c and has not started to forget it. */
  predicate Known(s: State, c: ClientId) {
    c in s.core.clients || s.hub == Handling(Register(c))
  }

  predicate SubscribedSomewhere(core: Core, c: ClientId) {
    exists m :: m in core.subscriptions && c in core.subscriptions[m]
  }

  /** What one client's program counter says about the hub's knowledge of it. */
  ghost predicate ClientInv(s: State, c: ClientId) {
    var ch := ChannelOf(s.core, c);
    if c !in s.pc then
      c !in s.core.clients && !SubscribedSomewhere(s.core, c) && ch == Channel([], false)
    else match s.pc[c]
      case Starting | Reading =>
        !ch.closed && Known(s, c) && (SubscribedSomewhere(s.core, c) ==> c in s.core.clients)
      case Finished =>
        if s.hub == Handling(Unregister(c)) then c in s.core.clients && !ch.closed
        else c !in s.core.clients && !SubscribedSomewhere(s.core, c) && ch.closed
  }

  /** What the hub's own position says. */
  ghost predicate HubInv(s: State) {
    match s.hub
    case Selecting => true
    case Handling(Register(c)) => c in s.pc && !s.pc[c].Finished?
    case Handling(Unregister(c)) => c in s.pc && s.pc[c].Finished?
    case Handling(r) => r.client in s.core.clients && r.client in s.pc && !s.pc[r.client].Finished?
    case Delivering(b, todo) => todo <= Subscribers(s.core.subscriptions, b.mailbox)
  }

  ghost predicate Safe(s: State) {
    && !s.core.panicked
    && HubInv(s)
    && (forall c :: ClientInv(s, c))
    && (forall m :: m in s.core.subscriptions ==> s.core.subscriptions[m] != {})
    && (forall c :: |ChannelOf(s.core, c).buffer| <= CAPACITY)
    && |s.posted| <= POSTED_CAPACITY
  }

  lemma SubscriberIsOpen(s: State, c: ClientId)
    requires Safe(s)
    requires SubscribedSomewhere(s.core, c)
    ensures c in s.core.clients && !ChannelOf(s.core, c).closed
  {
    assert ClientInv(s, c);
  }

  lemma StepKeepsCapacity(s: State, e: Event, c: ClientId)
    requires Safe(s) && Enabled(s, e)
    ensures |ChannelOf(Apply(s, e).core, c).buffer| <= CAPACITY
  {
    hide ClientInv, HubInv;
    assert |ChannelOf(s.core, c).buffer| <= CAPACITY;
  }

  lemma {:induction false} StepIsSafe(s: State, e: Event)
    requires Safe(s) && Enabled(s, e)
    ensures Safe(Apply(s, e))
  {
    var t := Apply(s, e);
    match e {
      case OfferNext(x) =>
        assert x in s.core.subscriptions[s.hub.broadcast.mailbox];
        SubscriberIsOpen(s, x);
      case Receive(x, _) =>
        assert ClientInv(s, x);
      case Serve(r) =>
        assert ClientInv(s, r.client);
      case _ =>
    }
    forall c
      ensures |ChannelOf(t.core, c).buffer| <= CAPACITY
    {
      StepKeepsCapacity(s, e, c);
    }
    forall c
      ensures ClientInv(t, c)
    {
      assert ClientInv(s, c);
      if e.Serve? {
        ServeKeepsClient(s, e.request, c);
      }
    }
  }

  /** The hub's handling of a request keeps every client's invariant. */
  lemma {:induction false} ServeKeepsClient(s: State, r: Request, c: ClientId)
    requires Safe(s) && s.hub == Handling(r)
    ensures ClientInv(Apply(s, Serve(r)), c)
  {
    var t := Apply(s, Serve(r));
    assert ClientInv(s, c) && ClientInv(s, r.client);
    if SubscribedSomewhere(t.core, c) {
      var m :| m in t.core.subscriptions && c in t.core.subscriptions[m];
      if r.Subscribe? && m == r.mailbox && c == r.client {
      } else {
        assert m in s.core.subscriptions && c in s.core.subscriptions[m];
      }
    }
  }

  /**
   No interleaving makes the hub or a read pump send on a closed channel or
   close one twice. In the same states every subscriber is registered and open,
   no channel holds more than its capacity and no empty subscriber set is kept.
   */
  lemma {:induction false} NoInterleavingPanics(events: seq<Event>)
    requires Execution(events)
    ensures Safe(After(events))
    ensures !After(events).core.panicked
    ensures |After(events).posted| <= 256 && forall c :: |ChannelOf(After(events).core, c).buffer| <= 256
    ensures forall m, c :: m in After(events).core.subscriptions && c in After(events).core.subscriptions[m] ==>
              c in After(events).core.clients && !ChannelOf(After(events).core, c).closed
    decreases |events|
  {
    if events == [] {
    } else {
      var before := events[..|events| - 1];
      NoInterleavingPanics(before);
      StepIsSafe(After(before), events[|events| - 1]);
    }
    forall m, c | m in After(events).core.subscriptions && c in After(events).core.subscriptions[m]
      ensures c in After(events).core.clients && !ChannelOf(After(events).core, c).closed
    {
      SubscriberIsOpen(After(events), c);
    }
  }
}
