/**
 From the frames a client sends to the notifications it gets. What a client is
 subscribed to is told here from its own frames and its disconnection alone,
 without the requests that travel to the hub in between.
 */
module HubFrames {
  import opened HubCore
  import opened HubProtocol
  import opened HubHistory

  /** c's last frame on mailbox m was a subscribe, and c has not finished reading since. */
  predicate AskedFor(events: seq<Event>, c: ClientId, m: MailboxId)
    decreases |events|
  {
    events != [] && (
      var n := |events| - 1;
      if events[n] == Receive(c, SubscribeFrame(m)) then m != 0
      else if events[n] == Receive(c, UnsubscribeFrame(m)) || events[n] == ReadFails(c) then false
      else AskedFor(events[..n], c, m))
  }

  /** c is subscribed to m once the hub has handled the request it holds. */
  predicate WillGet(s: State, c: ClientId, m: MailboxId) {
    var core := if s.hub.Handling? then Handle(s.core, s.hub.request) else s.core;
    c in Subscribers(core.subscriptions, m)
  }

  /** A frame is complained about, with which words, exactly when it is malformed, unknown or names no mailbox. */
  lemma ComplaintsExactly(c: ClientId, f: Frame)
    ensures React(c, f).Complain? <==> f in [Malformed, UnknownFrame, SubscribeFrame(0), UnsubscribeFrame(0)]
    ensures React(c, Malformed) == Complain("invalid message format")
    ensures React(c, UnknownFrame) == Complain("unknown message type")
    ensures React(c, SubscribeFrame(0)) == React(c, UnsubscribeFrame(0)) == Complain("mailbox_id is required")
  {
  }

  /** What handling a request does to one subscription. */
  lemma HandledSubscription(core: Core, r: Request, c: ClientId, m: MailboxId)
    ensures c in Subscribers(Handle(core, r).subscriptions, m) <==>
              match r {
                case Register(_) => c in Subscribers(core.subscriptions, m)
                case Unregister(x) => !(x == c && c in core.clients) && c in Subscribers(core.subscriptions, m)
                case Subscribe(x, k) => (x == c && k == m) || c in Subscribers(core.subscriptions, m)
                case Unsubscribe(x, k) => !(x == c && k == m) && c in Subscribers(core.subscriptions, m)
              }
  {
  }

  /** A client whose frames the hub can be asked about is registered or about to be. */
  lemma ReaderIsKnown(s: State, c: ClientId)
    requires Safe(s) && c in s.pc && s.pc[c].Reading? && s.hub.Selecting?
    ensures c in s.core.clients
  {
    assert ClientInv(s, c);
  }

  /** Sending leaves the subscriptions alone. */
  lemma SendKeepsSubscriptions(core: Core, c: ClientId, item: Item)
    ensures TrySend(core, c, item).subscriptions == core.subscriptions && TrySend(core, c, item).clients == core.clients
  {
  }

  lemma FrameStep(s: State, e: Event, c: ClientId, m: MailboxId)
    requires Safe(s) && Enabled(s, e) && (m == 0 ==> !WillGet(s, c, m))
    ensures WillGet(Apply(s, e), c, m) <==>
              if e == Receive(c, SubscribeFrame(m)) then m != 0
              else e != Receive(c, UnsubscribeFrame(m)) && e != ReadFails(c) && WillGet(s, c, m)
  {
    hide Handle, TrySend, Subscribers, Safe;
    var t := Apply(s, e);
    if t.hub.Handling? {
      HandledSubscription(t.core, t.hub.request, c, m);
      HandledSubscription(s.core, t.hub.request, c, m);
    }
    match e {
      case ReadFails(x) => ReaderIsKnown(s, x);
      case Receive(x, f) =>
        if React(x, f).Complain? {
          SendKeepsSubscriptions(s.core, x, ErrorNote(React(x, f).text));
        }
      case OfferNext(x) => SendKeepsSubscriptions(s.core, x, NewMessage(s.hub.broadcast));
      case _ =>
    }
  }

  lemma {:induction false} FramesDecide(events: seq<Event>, c: ClientId, m: MailboxId)
    requires Execution(events)
    ensures WillGet(After(events), c, m) <==> AskedFor(events, c, m)
    ensures m == 0 ==> !AskedFor(events, c, m)
    decreases |events|
  {
    if events != [] {
      var n := |events| - 1;
      FramesDecide(events[..n], c, m);
      NoInterleavingPanics(events[..n]);
      FrameStep(After(events[..n]), events[n], c, m);
    }
  }

  /**
   In every execution, whenever the hub is back at its select, a client is
   subscribed to a mailbox exactly when its last frame on it asked for that and
   it is still reading.
   */
  lemma SubscribedByFrames(events: seq<Event>, c: ClientId, m: MailboxId)
    requires Execution(events) && After(events).hub.Selecting?
    ensures c in Subscribers(After(events).core.subscriptions, m) <==> AskedFor(events, c, m)
  {
    FramesDecide(events, c, m);
  }

  lemma {:induction false} PrefixIsExecution(events: seq<Event>, k: nat)
    requires Execution(events) && k <= |events|
    ensures Execution(events[..k])
    ensures k < |events| ==> Enabled(After(events[..k]), events[k])
    decreases |events| - k
  {
    if k < |events| {
      PrefixIsExecution(events, k + 1);
      assert events[..k + 1][..k] == events[..k];
    } else {
      assert events[..k] == events;
    }
  }

  /** So the broadcasts a client wants are those taken while its own frames ask for them. */
  lemma WantedByFrames(events: seq<Event>, c: ClientId, k: nat)
    requires Execution(events)
    ensures Wanted(events, c, k) <==> IsTake(events, k) && AskedFor(events[..k], c, events[k].broadcast.mailbox)
  {
    if IsTake(events, k) {
      PrefixIsExecution(events, k);
      HistoryMirrorsState(events[..k], c, events[k].broadcast.mailbox);
      SubscribedByFrames(events[..k], c, events[k].broadcast.mailbox);
    }
  }

  /**
   In every execution, the notifications that entered a client's channel are, in
   order and without repetition, exactly the broadcasts the hub took while the
   client's own frames asked for their mailbox and offered while it had room.
   */
  lemma NotificationsFollowFrames(events: seq<Event>, c: ClientId) returns (at: seq<int>)
    requires Execution(events)
    ensures Ascending(at)
    ensures forall k: int :: k in at <==>
              && IsTake(events, k) && HadRoom(events, c, k)
              && AskedFor(events[..k], c, events[k].broadcast.mailbox)
    ensures forall i :: 0 <= i < |at| ==> IsTake(events, at[i])
    ensures Notifications(Entered(After(events), c)) == Bodies(events, at)
  {
    hide Execution, After, Entered, Bodies, HadRoom, AskedFor, Notifications;
    at := NotificationsAreExact(events, c);
    forall k: int
      ensures k in at <==>
              && IsTake(events, k) && HadRoom(events, c, k)
              && AskedFor(events[..k], c, events[k].broadcast.mailbox)
    {
      if IsTake(events, k) {
        WantedByFrames(events, c, k);
      }
    }
  }

  // ---------------------------------------------------------- the broadcasts

  function PostedIn(events: seq<Event>): seq<Broadcast> {
    if events == [] then []
    else
      var n := |events| - 1;
      PostedIn(events[..n]) + (if events[n].Post? then [events[n].broadcast] else [])
  }

  function TakenIn(events: seq<Event>): seq<Broadcast> {
    if events == [] then []
    else
      var n := |events| - 1;
      TakenIn(events[..n]) + (if events[n].Take? then [events[n].broadcast] else [])
  }

  /** The hub takes the broadcasts in the order they were posted, and none is lost on the way. */
  lemma {:induction false} TakenAsPosted(events: seq<Event>)
    requires Execution(events)
    ensures TakenIn(events) + After(events).posted == PostedIn(events)
    decreases |events|
  {
    if events != [] {
      hide TrySend, Handle, React;
      var n := |events| - 1;
      TakenAsPosted(events[..n]);
      var s := After(events[..n]);
      if events[n].Take? {
        assert s.posted == [events[n].broadcast] + s.posted[1..];
      }
    }
  }
}
