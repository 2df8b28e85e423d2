/**
 The WebSocket hub: one goroutine owns the registered clients and the mailbox
 subscriptions, every client owns a bounded `send` channel that only the hub
 closes.

 `Core` is the part of the state the hub's select cases read and write, the
 functions on it say what each case does, and class `Hub` is the event loop's
 body with its in-place updates and its two loops. Module HubProtocol runs
 these cases concurrently with the clients.
 */
module HubCore {
  type ClientId = nat
  type MailboxId = nat

  datatype Broadcast = Broadcast(mailbox: MailboxId, payload: string)

  /** What travels on a client's send channel. */
  datatype Item = NewMessage(broadcast: Broadcast) | ErrorNote(text: string)

  /** A Go channel of capacity CAPACITY as seen by its senders and by close. */
  datatype Channel = Channel(buffer: seq<Item>, closed: bool)

  const CAPACITY: nat := 256

  datatype Request =
    | Register(client: ClientId)
    | Unregister(client: ClientId)
    | Subscribe(client: ClientId, mailbox: MailboxId)
    | Unsubscribe(client: ClientId, mailbox: MailboxId)

  /** `panicked` records a send on a closed channel or a second close. */
  datatype Core = Core(
    clients: set<ClientId>,
    subscriptions: map<MailboxId, set<ClientId>>,
    channels: map<ClientId, Channel>,
    panicked: bool)

  function ChannelOf(core: Core, c: ClientId): Channel {
    if c in core.channels then core.channels[c] else Channel([], false)
  }

  function Subscribers(subscriptions: map<MailboxId, set<ClientId>>, m: MailboxId): set<ClientId> {
    if m in subscriptions then subscriptions[m] else {}
  }

  /** A non-blocking send: a closed channel panics, a full one drops the item. */
  function TrySend(core: Core, c: ClientId, item: Item): Core {
    var ch := ChannelOf(core, c);
    if ch.closed then core.(panicked := true)
    else if |ch.buffer| < CAPACITY then core.(channels := core.channels[c := ch.(buffer := ch.buffer + [item])])
    else core
  }

  function Close(core: Core, c: ClientId): Core {
    var ch := ChannelOf(core, c);
    if ch.closed then core.(panicked := true)
    else core.(channels := core.channels[c := ch.(closed := true)])
  }

  /** Subscriptions without client c; a mailbox left without subscribers is dropped. */
  function Without(subscriptions: map<MailboxId, set<ClientId>>, c: ClientId): map<MailboxId, set<ClientId>> {
    map m | m in subscriptions && subscriptions[m] - {c} != {} :: subscriptions[m] - {c}
  }

  function Handle(core: Core, r: Request): Core {
    match r
    case Register(c) => core.(clients := core.clients + {c})
    case Unregister(c) =>
      if c !in core.clients then core
      else Close(core, c).(clients := core.clients - {c}, subscriptions := Without(core.subscriptions, c))
    case Subscribe(c, m) =>
      core.(subscriptions := core.subscriptions[m := Subscribers(core.subscriptions, m) + {c}])
    case Unsubscribe(c, m) =>
      if m !in core.subscriptions then core
      else if core.subscriptions[m] - {c} == {} then core.(subscriptions := core.subscriptions - {m})
      else core.(subscriptions := core.subscriptions[m := core.subscriptions[m] - {c}])
  }

  /** One broadcast offered to every client of `targets`. */
  ghost predicate OfferedToAll(before: Core, after: Core, targets: set<ClientId>, b: Broadcast) {
    && after.clients == before.clients
    && after.subscriptions == before.subscriptions
    && (forall c :: c !in targets ==> ChannelOf(after, c) == ChannelOf(before, c))
    && (forall c :: c in targets ==> ChannelOf(after, c) == ChannelOf(TrySend(before, c, NewMessage(b)), c))
    && (after.panicked <==> before.panicked || exists c :: c in targets && ChannelOf(before, c).closed)
  }

  /** The body of Hub.Run: the maps are fields that the select cases update in place. */
  class Hub {
    var clients: set<ClientId>
    var subscriptions: map<MailboxId, set<ClientId>>
    var channels: map<ClientId, Channel>
    var panicked: bool

    ghost function Value(): Core
      reads this
    {
      Core(clients, subscriptions, channels, panicked)
    }

    constructor ()
      ensures Value() == Core({}, map[], map[], false)
    {
      clients, subscriptions, channels, panicked := {}, map[], map[], false;
    }

    method CloseChannel(c: ClientId)
      modifies this
      ensures Value() == Close(old(Value()), c)
    {
      var ch := if c in channels then channels[c] else Channel([], false);
      if ch.closed {
        panicked := true;
      } else {
        channels := channels[c := ch.(closed := true)];
      }
    }

    method Offer(c: ClientId, item: Item)
      modifies this
      ensures Value() == TrySend(old(Value()), c, item)
    {
      var ch := if c in channels then channels[c] else Channel([], false);
      if ch.closed {
        panicked := true;
      } else if |ch.buffer| < CAPACITY {
        channels := channels[c := ch.(buffer := ch.buffer + [item])];
      }
    }

    /** The unregister case: the subscriptions are edited mailbox by mailbox. */
    method HandleUnregister(c: ClientId)
      modifies this
      ensures Value() == Handle(old(Value()), Unregister(c))
    {
      if c !in clients {
        return;
      }
      clients := clients - {c};
      CloseChannel(c);
      var todo := subscriptions.Keys;
      ghost var before := subscriptions;
      while todo != {}
        invariant todo <= before.Keys
        invariant clients == old(clients) - {c}
        invariant channels == Close(old(Value()), c).channels
        invariant panicked == Close(old(Value()), c).panicked
        invariant forall m :: m in subscriptions <==> m in before && (m in todo || before[m] - {c} != {})
        invariant forall m :: m in subscriptions ==>
                    subscriptions[m] == if m in todo then before[m] else before[m] - {c}
        decreases todo
      {
        var m :| m in todo;
        todo := todo - {m};
        var rest := subscriptions[m] - {c};
        if rest == {} {
          subscriptions := subscriptions - {m};
        } else {
          subscriptions := subscriptions[m := rest];
        }
      }
      assert subscriptions == Without(before, c);
    }

    method HandleSubscribe(c: ClientId, m: MailboxId)
      modifies this
      ensures Value() == Handle(old(Value()), Subscribe(c, m))
    {
      if m !in subscriptions {
        subscriptions := subscriptions[m := {}];
      }
      subscriptions := subscriptions[m := subscriptions[m] + {c}];
      assert subscriptions == old(subscriptions)[m := Subscribers(old(subscriptions), m) + {c}];
    }

    method HandleUnsubscribe(c: ClientId, m: MailboxId)
      modifies this
      ensures Value() == Handle(old(Value()), Unsubscribe(c, m))
    {
      if m in subscriptions {
        subscriptions := subscriptions[m := subscriptions[m] - {c}];
        if subscriptions[m] == {} {
          subscriptions := subscriptions - {m};
          assert subscriptions == old(subscriptions) - {m};
        }
      }
    }

    /** The broadcast case: the subscribers are visited in an arbitrary order. */
    method HandleBroadcast(b: Broadcast)
      modifies this
      ensures OfferedToAll(old(Value()), Value(), Subscribers(old(subscriptions), b.mailbox), b)
    {
      ghost var before := Value();
      ghost var targets := Subscribers(subscriptions, b.mailbox);
      var todo := if b.mailbox in subscriptions then subscriptions[b.mailbox] else {};
      while todo != {}
        invariant todo <= targets
        invariant OfferedToAll(before, Value(), targets - todo, b)
        decreases todo
      {
        var c :| c in todo;
        ghost var mid := Value();
        assert ChannelOf(mid, c) == ChannelOf(before, c);
        Offer(c, NewMessage(b));
        todo := todo - {c};
        forall x
          ensures x != c ==> ChannelOf(Value(), x) == ChannelOf(mid, x)
        {
        }
        assert ChannelOf(before, c).closed ==> exists x :: x in targets - todo && ChannelOf(before, x).closed;
      }
      assert targets - todo == targets;
    }
  }
}
