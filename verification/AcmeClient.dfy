/**
 The ACME client (RFC 8555): one held order and one held challenge per domain,
 a bounded polling loop, and the exchange of a ready order for a certificate.
 The CA's answers are inputs. Class `Session` is the client with its mutable
 maps; the functions on `Client` say what each call does.
 */
module AcmeClient {
  import opened Basics

  /** An order is known by its URI; `authorizations` is the number of its authorization URLs. */
  datatype Order = Order(uri: nat, authorizations: nat)

  /**
   A DNS-01 challenge of the order with URI `order`; `record` is the TXT value
   its token stands for, if it can be computed.
   */
  datatype Challenge = Challenge(order: nat, token: string, record: Option<string>)

  datatype Client = Client(registered: bool, orders: map<string, Order>, challenges: map<string, Challenge>)

  const NEW_CLIENT := Client(false, map[], map[])

  datatype OfferedChallenge = OfferedChallenge(kind: string, token: string)

  /** The CA's side of GetDNSChallenge; None is an error. */
  datatype OrderAnswers = OrderAnswers(
    registers: bool,
    order: Option<Order>,
    authorization: Option<seq<OfferedChallenge>>,
    record: Option<string>)

  datatype ChallengeInfo = ChallengeInfo(domain: string, token: string, txtRecord: string)

  datatype Bundle = Bundle(certificate: Bytes, privateKey: Bytes, chain: Bytes, expiresAt: Time)

  datatype OrderStatus = OrderReady | OrderOther

  /** The CA's side of RequestCertificate; `blocks` are the PEM blocks of the issued chain. */
  datatype IssueAnswers = IssueAnswers(
    registers: bool,
    waited: Option<OrderStatus>,
    keyAndRequestMade: bool,
    blocks: Option<seq<Bytes>>,
    expiresAt: Time,
    privateKey: Option<Bytes>)

  datatype AuthorizationStatus =
    | Valid | Invalid | Pending | Processing | Deactivated | Expired | Revoked | UnknownStatus

  /** One poll of the authorization; `timedOut` tells whether the wait after it hit the deadline. */
  datatype Poll = PollFailed | Polled(status: AuthorizationStatus, timedOut: bool)

  /** The CA's side of CompleteDNSChallenge. */
  datatype ValidationAnswers = ValidationAnswers(accepted: bool, polls: nat -> Poll, orderReady: bool)

  /** Crashed is the run-time panic of indexing an empty list of authorization URLs. */
  datatype Completion = Succeeded | Refused | Crashed

  const MAX_POLLS: nat := 60

  // ------------------------------------------------------------ the calls

  predicate FirstDns01(offered: seq<OfferedChallenge>, i: int) {
    0 <= i < |offered| && offered[i].kind == "dns-01" && forall j :: 0 <= j < i ==> offered[j].kind != "dns-01"
  }

  /** The first DNS-01 challenge of an authorization. */
  function FindDns01(offered: seq<OfferedChallenge>): (r: Option<OfferedChallenge>)
    ensures r.None? <==> forall i :: 0 <= i < |offered| ==> offered[i].kind != "dns-01"
    ensures r.Some? ==> exists i :: FirstDns01(offered, i) && r.value == offered[i]
  {
    if offered == [] then None
    else if offered[0].kind == "dns-01" then assert FirstDns01(offered, 0); Some(offered[0])
    else
      var r := FindDns01(offered[1..]);
      assert forall i :: FirstDns01(offered[1..], i) ==>
                           FirstDns01(offered, i + 1) && offered[1..][i] == offered[i + 1];
      r
  }

  /** GetDNSChallenge: the order is kept even when no challenge is found for it. */
  function GetDNSChallenge(c: Client, domain: string, a: OrderAnswers): (Client, Option<ChallengeInfo>) {
    if !c.registered && !a.registers then (c, None)
    else if a.order.None? then (c.(registered := true), None)
    else
      var held := c.(registered := true, orders := c.orders[domain := a.order.value]);
      if a.order.value.authorizations == 0 || a.authorization.None? then (held, None)
      else
        var found := FindDns01(a.authorization.value);
        if found.None? then (held, None)
        else
          var challenge := Challenge(a.order.value.uri, found.value.token, a.record);
          var stored := held.(challenges := held.challenges[domain := challenge]);
          (stored,
           if a.record.None? then None
           else Some(ChallengeInfo(domain, found.value.token, a.record.value)))
  }

  /** This poll ends the loop. */
  predicate Decisive(p: Poll) {
    p.PollFailed?
    || p.status in [Valid, Invalid, Deactivated, Expired, Revoked]
    || (p.status in [Pending, Processing] && p.timedOut)
  }

  /**
   The CA validated: some poll among the first MAX_POLLS says `valid`, no
   earlier one was decisive, and the order then became ready (sections 7.1.6
   and 7.5.1 of RFC 8555).
   */
  predicate Validates(a: ValidationAnswers) {
    a.orderReady && exists k: nat :: k < MAX_POLLS && ValidAt(a.polls, k)
  }

  predicate ValidAt(polls: nat -> Poll, k: nat) {
    polls(k).Polled? && polls(k).status.Valid? && forall i: nat :: i < k ==> !Decisive(polls(i))
  }

  /** CompleteDNSChallenge changes nothing the client holds. */
  function Complete(c: Client, domain: string, a: ValidationAnswers): Completion {
    if domain !in c.challenges || domain !in c.orders || !a.accepted then Refused
    else if c.orders[domain].authorizations == 0 then Crashed
    else if Validates(a) then Succeeded
    else Refused
  }

  function Concat(blocks: seq<Bytes>): Bytes {
    if blocks == [] then "" else Concat(blocks[..|blocks| - 1]) + blocks[|blocks| - 1]
  }

  function MakeBundle(blocks: seq<Bytes>, key: Bytes, expiresAt: Time): Bundle {
    Bundle(if blocks == [] then "" else blocks[0], key,
           if blocks == [] then "" else Concat(blocks[1..]),
           if blocks == [] then 0 else expiresAt)
  }

  /** RequestCertificate for a single domain: a returned certificate consumes the order. */
  function RequestCertificate(c: Client, domain: string, a: IssueAnswers): (Client, Option<Bundle>) {
    if !c.registered && !a.registers then (c, None)
    else
      var known := c.(registered := true);
      if domain !in c.orders || a.waited != Some(OrderReady) || !a.keyAndRequestMade
         || a.blocks.None? || a.privateKey.None?
      then (known, None)
      else (known.(orders := c.orders - {domain}, challenges := c.challenges - {domain}),
            Some(MakeBundle(a.blocks.value, a.privateKey.value, a.expiresAt)))
  }

  /** The client with the two maps it mutates between calls. */
  class Session {
    var registered: bool
    var activeOrders: map<string, Order>
    var activeChallenges: map<string, Challenge>

    ghost function Value(): Client
      reads this
    {
      Client(registered, activeOrders, activeChallenges)
    }

    constructor ()
      ensures Value() == NEW_CLIENT
    {
      registered, activeOrders, activeChallenges := false, map[], map[];
    }

    method AskForChallenge(domain: string, a: OrderAnswers) returns (info: Option<ChallengeInfo>)
      modifies this
      ensures (Value(), info) == GetDNSChallenge(old(Value()), domain, a)
    {
      info := None;
      if !registered {
        if !a.registers {
          return;
        }
        registered := true;
      }
      if a.order.None? {
        return;
      }
      var order := a.order.value;
      activeOrders := activeOrders[domain := order];
      if order.authorizations == 0 || a.authorization.None? {
        return;
      }
      var offered := a.authorization.value;
      var found: Option<OfferedChallenge> := None;
      var i := 0;
      while i < |offered| && found.None?
        invariant 0 <= i <= |offered|
        invariant found.None? ==> FindDns01(offered) == FindDns01(offered[i..])
        invariant found.Some? ==> FindDns01(offered) == found
        decreases |offered| - i, found.None?
      {
        assert offered[i..][1..] == offered[i + 1..];
        if offered[i].kind == "dns-01" {
          found := Some(offered[i]);
        }
        i := i + 1;
      }
      if found.None? {
        return;
      }
      activeChallenges := activeChallenges[domain := Challenge(order.uri, found.value.token, a.record)];
      if a.record.Some? {
        info := Some(ChallengeInfo(domain, found.value.token, a.record.value));
      }
    }

    /** The polling loop. `made` counts the polls. */
    method CompleteDNSChallenge(domain: string, a: ValidationAnswers) returns (r: Completion, made: nat)
      ensures r == Complete(Value(), domain, a)
      ensures made <= MAX_POLLS
      ensures r.Succeeded? ==>
                made > 0 && a.polls(made - 1).Polled? && a.polls(made - 1).status.Valid? && a.orderReady
      ensures forall i: nat :: i < made - 1 ==> !Decisive(a.polls(i))
    {
      made := 0;
      if domain !in activeChallenges || domain !in activeOrders || !a.accepted {
        return Refused, 0;
      }
      if activeOrders[domain].authorizations == 0 {
        return Crashed, 0;
      }
      while made < MAX_POLLS
        invariant made <= MAX_POLLS
        invariant forall i: nat :: i < made ==> !Decisive(a.polls(i))
      {
        var poll := a.polls(made);
        assert poll.Polled? && poll.status.Valid? ==> ValidAt(a.polls, made);
        assert Decisive(poll) && !(poll.Polled? && poll.status.Valid?) ==>
                 forall k: nat :: !ValidAt(a.polls, k) || k < made;
        made := made + 1;
        if poll.PollFailed? {
          return Refused, made;
        }
        match poll.status
        case Valid => return (if a.orderReady then Succeeded else Refused), made;
        case Invalid => return Refused, made;
        case Pending | Processing =>
          if poll.timedOut {
            return Refused, made;
          }
        case Deactivated | Expired | Revoked => return Refused, made;
        case UnknownStatus =>
      }
      return Refused, made;
    }

    method IssueCertificate(domain: string, a: IssueAnswers) returns (bundle: Option<Bundle>)
      modifies this
      ensures (Value(), bundle) == RequestCertificate(old(Value()), domain, a)
    {
      bundle := None;
      if !registered {
        if !a.registers {
          return;
        }
        registered := true;
      }
      if domain !in activeOrders || a.waited != Some(OrderReady) || !a.keyAndRequestMade || a.blocks.None? {
        return;
      }
      var blocks := a.blocks.value;
      var certificate, chain := "", "";
      for i := 0 to |blocks|
        invariant certificate == if i == 0 then "" else blocks[0]
        invariant chain == if i <= 1 then "" else Concat(blocks[1..i])
      {
        if i == 0 {
          certificate := blocks[i];
        } else {
          assert blocks[1..i + 1][..i - 1] == blocks[1..i];
          chain := chain + blocks[i];
        }
      }
      assert |blocks| > 0 ==> blocks[1..] == blocks[1..|blocks|];
      if a.privateKey.None? {
        return;
      }
      activeOrders := activeOrders - {domain};
      activeChallenges := activeChallenges - {domain};
      bundle := Some(Bundle(certificate, a.privateKey.value, chain, if blocks == [] then 0 else a.expiresAt));
    }
  }

  // ------------------------------------------------- what a bundle contains

  /** Where block i of the list starts when the blocks are written one after the other. */
  function Offset(blocks: seq<Bytes>, i: nat): nat
    requires i <= |blocks|
  {
    if i == 0 then 0 else Offset(blocks, i - 1) + |blocks[i - 1]|
  }

  lemma {:induction false} OffsetsGrow(blocks: seq<Bytes>, i: nat, j: nat)
    requires i <= j <= |blocks|
    ensures Offset(blocks, i) <= Offset(blocks, j)
    decreases j
  {
    if i < j {
      OffsetsGrow(blocks, i, j - 1);
    }
  }

  /** The text is the blocks, each at its place. */
  ghost predicate IsBlocks(text: Bytes, blocks: seq<Bytes>) {
    && |text| == Offset(blocks, |blocks|)
    && forall i :: 0 <= i < |blocks| ==> BlockAt(text, blocks, i)
  }

  predicate BlockAt(text: Bytes, blocks: seq<Bytes>, i: int)
    requires 0 <= i < |blocks|
  {
    Offset(blocks, i) + |blocks[i]| <= |text| && text[Offset(blocks, i)..Offset(blocks, i) + |blocks[i]|] == blocks[i]
  }

  lemma {:induction false} OffsetOfPrefix(blocks: seq<Bytes>, n: nat, i: nat)
    requires i <= n <= |blocks|
    ensures Offset(blocks[..n], i) == Offset(blocks, i)
  {
    if i > 0 {
      OffsetOfPrefix(blocks, n, i - 1);
    }
  }

  lemma {:induction false} ConcatIsBlocks(blocks: seq<Bytes>)
    ensures IsBlocks(Concat(blocks), blocks)
    decreases |blocks|
  {
    if blocks != [] {
      var n := |blocks| - 1;
      var front, text := blocks[..n], Concat(blocks);
      ConcatIsBlocks(front);
      OffsetOfPrefix(blocks, n, n);
      forall i | 0 <= i < |blocks|
        ensures BlockAt(text, blocks, i)
      {
        if i < n {
          OffsetOfPrefix(blocks, n, i);
          assert BlockAt(Concat(front), front, i);
        }
      }
    }
  }

  lemma {:induction false} ConcatSplits(blocks: seq<Bytes>)
    requires blocks != []
    ensures Concat(blocks) == blocks[0] + Concat(blocks[1..])
    decreases |blocks|
  {
    var n := |blocks| - 1;
    if n > 0 {
      ConcatSplits(blocks[..n]);
      assert blocks[..n][1..] == blocks[1..][..n - 1];
    }
  }

  /**
   A returned bundle carries what the CA and the key generation gave: the first
   block is the certificate, the private key is the key made for the request,
   and certificate and chain together are all blocks, each at its place. It came
   from the order held for the domain, which was ready, and which is given up
   with its challenge.
   */
  lemma BundleContents(c: Client, d: string, a: IssueAnswers)
    requires RequestCertificate(c, d, a).1.Some?
    ensures var b := RequestCertificate(c, d, a).1.value;
            && a.blocks.Some? && a.privateKey.Some?
            && d in c.orders && a.waited == Some(OrderReady) && a.keyAndRequestMade && (c.registered || a.registers)
            && RequestCertificate(c, d, a).0.orders == c.orders - {d}
            && RequestCertificate(c, d, a).0.challenges == c.challenges - {d}
            && b.privateKey == a.privateKey.value
            && IsBlocks(b.certificate + b.chain, a.blocks.value)
            && (a.blocks.value != [] ==> b.certificate == a.blocks.value[0] && b.expiresAt == a.expiresAt)
            && (a.blocks.value == [] ==> b.certificate == b.chain == "" && b.expiresAt == 0)
  {
    var blocks := a.blocks.value;
    ConcatIsBlocks(blocks);
    if blocks != [] {
      ConcatSplits(blocks);
    }
  }

  /**
   A challenge handed out is the first dns-01 one the CA offered, for this
   domain, with the record computed for it.
   */
  lemma ChallengeContents(c: Client, d: string, a: OrderAnswers)
    requires GetDNSChallenge(c, d, a).1.Some?
    ensures var (t, info) := GetDNSChallenge(c, d, a);
            && a.order.Some? && a.authorization.Some?
            && info.value.domain == d && a.record == Some(info.value.txtRecord)
            && (exists i :: FirstDns01(a.authorization.value, i) && info.value.token == a.authorization.value[i].token)
            && t.registered && t.orders == c.orders[d := a.order.value]
            && d in t.challenges && t.challenges == c.challenges[d := t.challenges[d]]
            && t.challenges[d] == Challenge(a.order.value.uri, info.value.token, a.record)
  {
  }

  // ------------------------------------------------------- when polling ends

  /** The authorization is not decided yet: the loop polls again (section 7.1.6 of RFC 8555). */
  predicate Undecided(p: Poll) {
    p.Polled? && (p.status.UnknownStatus? || ((p.status.Pending? || p.status.Processing?) && !p.timedOut))
  }

  /**
   The first poll that is decided settles the validation, whatever later polls
   would say: success exactly when it says valid and the order becomes ready.
   */
  lemma FirstDecidedPollSettles(c: Client, d: string, a: ValidationAnswers, k: nat)
    requires d in c.challenges && d in c.orders && c.orders[d].authorizations > 0 && a.accepted
    requires k < 60 && !Undecided(a.polls(k)) && forall i: nat :: i < k ==> Undecided(a.polls(i))
    ensures Complete(c, d, a) ==
            if a.polls(k).Polled? && a.polls(k).status.Valid? && a.orderReady then Succeeded else Refused
  {
    forall j: nat
      ensures ValidAt(a.polls, j) ==> j == k
    {
      if j < k {
        assert Undecided(a.polls(j));
      }
    }
    assert a.polls(k).Polled? && a.polls(k).status.Valid? ==> ValidAt(a.polls, k);
  }

  /** Sixty undecided polls are a refusal. */
  lemma SixtyPollsAreEnough(c: Client, d: string, a: ValidationAnswers)
    requires d in c.challenges && d in c.orders && c.orders[d].authorizations > 0
    requires forall i: nat :: i < 60 ==> Undecided(a.polls(i))
    ensures Complete(c, d, a).Refused?
  {
    if k: nat :| k < 60 && ValidAt(a.polls, k) {
      assert Undecided(a.polls(k));
    }
  }

  // ---------------------------------------------------- runs of the client

  datatype Call =
    | Ask(domain: string, order: OrderAnswers)
    | Finish(domain: string, validation: ValidationAnswers)
    | Issue(domain: string, issue: IssueAnswers)

  /**
   The client with the CA's books, per domain: how many orders were created,
   their URIs, and the orders exchanged for a certificate.
   */
  datatype Ledger = Ledger(
    client: Client, created: map<string, nat>, placed: map<string, set<nat>>, exchanged: map<string, seq<nat>>)

  const OPENING := Ledger(NEW_CLIENT, map[], map[], map[])

  function Created(l: Ledger, d: string): nat {
    if d in l.created then l.created[d] else 0
  }

  function Placed(l: Ledger, d: string): set<nat> {
    if d in l.placed then l.placed[d] else {}
  }

  function Exchanged(l: Ledger, d: string): seq<nat> {
    if d in l.exchanged then l.exchanged[d] else []
  }

  /** The CA never answers a new order with one it has already finalized (section 7.4 of RFC 8555). */
  predicate HonestAnswer(l: Ledger, call: Call) {
    call.Ask? && call.order.order.Some? ==> call.order.order.value.uri !in Exchanged(l, call.domain)
  }

  function Step(l: Ledger, call: Call): Ledger {
    match call
    case Ask(d, a) =>
      var (client, info) := GetDNSChallenge(l.client, d, a);
      var reached := (l.client.registered || a.registers) && a.order.Some?;
      l.(client := client,
         created := if reached then l.created[d := Created(l, d) + 1] else l.created,
         placed := if reached then l.placed[d := Placed(l, d) + {a.order.value.uri}] else l.placed)
    case Finish(d, a) => l
    case Issue(d, a) =>
      var (client, bundle) := RequestCertificate(l.client, d, a);
      l.(client := client,
         exchanged := if bundle.Some? && d in l.client.orders
                      then l.exchanged[d := Exchanged(l, d) + [l.client.orders[d].uri]] else l.exchanged)
  }

  function Run(l: Ledger, calls: seq<Call>): Ledger
    decreases |calls|
  {
    if calls == [] then l else Run(Step(l, calls[0]), calls[1..])
  }

  predicate HonestRun(l: Ledger, calls: seq<Call>)
    decreases |calls|
  {
    calls == [] || (HonestAnswer(l, calls[0]) && HonestRun(Step(l, calls[0]), calls[1..]))
  }

  predicate Distinct(s: seq<nat>) {
    forall i, j :: 0 <= i < j < |s| ==> s[i] != s[j]
  }

  predicate DomainBalanced(l: Ledger, d: string) {
    && Distinct(Exchanged(l, d))
    && (forall u :: u in Exchanged(l, d) ==> u in Placed(l, d))
    && (d in l.client.orders ==>
          l.client.orders[d].uri in Placed(l, d) && l.client.orders[d].uri !in Exchanged(l, d))
    && (d in l.client.challenges ==> d in l.client.orders)
  }

  ghost predicate Balanced(l: Ledger) {
    forall d :: DomainBalanced(l, d)
  }

  lemma StepKeepsBalance(l: Ledger, call: Call, d: string)
    requires DomainBalanced(l, d) && HonestAnswer(l, call)
    ensures DomainBalanced(Step(l, call), d)
  {
    hide FindDns01, MakeBundle;
  }

  lemma {:induction false} RunKeepsBalance(l: Ledger, calls: seq<Call>)
    requires Balanced(l) && HonestRun(l, calls)
    ensures Balanced(Run(l, calls))
    decreases |calls|
  {
    if calls != [] {
      var next := Step(l, calls[0]);
      forall d
        ensures DomainBalanced(next, d)
      {
        StepKeepsBalance(l, calls[0], d);
      }
      hide Step, DomainBalanced;
      RunKeepsBalance(next, calls[1..]);
    }
  }

  lemma {:induction false} DistinctFit(s: seq<nat>, within: set<nat>)
    requires Distinct(s) && forall u :: u in s ==> u in within
    ensures |s| <= |within|
    decreases |s|
  {
    if s != [] {
      var n := |s| - 1;
      DistinctFit(s[..n], within - {s[n]});
    }
  }

  /** What the client holds and has issued is covered by the orders created, and a held challenge has a held order. */
  ghost predicate Covered(l: Ledger) {
    forall d :: DomainCovered(l, d)
  }

  predicate DomainCovered(l: Ledger, d: string) {
    && |Exchanged(l, d)| + (if d in l.client.orders then 1 else 0) <= Created(l, d)
    && (d in l.client.challenges ==> d in l.client.orders)
  }

  /** Every run, whatever the CA answers, keeps certificates and the held order covered by the orders created. */
  lemma {:induction false} RunKeepsCover(l: Ledger, calls: seq<Call>)
    requires Covered(l)
    ensures Covered(Run(l, calls))
    decreases |calls|
  {
    if calls != [] {
      forall d
        ensures DomainCovered(Step(l, calls[0]), d)
      {
        assert DomainCovered(l, d);
      }
      RunKeepsCover(Step(l, calls[0]), calls[1..]);
    }
  }

  /** From a new client, for every domain: certificates issued plus a held order never exceed the orders created. */
  lemma CertificatesNeverOutrunOrders(calls: seq<Call>, d: string)
    ensures DomainCovered(Run(OPENING, calls), d)
  {
    RunKeepsCover(OPENING, calls);
  }

  /**
   With a CA that never hands a finalized order out again, each certificate of
   a run came from its own order: no order was exchanged for two, every
   exchanged order was placed for that domain, and a held order was exchanged
   for none. An order that the CA finalized and whose download failed counts as
   not exchanged: the client still holds it.
   */
  lemma OrdersPayForCertificates(calls: seq<Call>, d: string)
    requires HonestRun(OPENING, calls)
    ensures var l := Run(OPENING, calls);
            && Distinct(Exchanged(l, d))
            && (forall u :: u in Exchanged(l, d) ==> u in Placed(l, d))
            && (d in l.client.orders ==> l.client.orders[d].uri !in Exchanged(l, d))
            && |Exchanged(l, d)| + (if d in l.client.orders then 1 else 0) <= |Placed(l, d)|
            && (d in l.client.challenges ==> d in l.client.orders)
  {
    RunKeepsBalance(OPENING, calls);
    var l := Run(OPENING, calls);
    assert DomainBalanced(l, d);
    if d in l.client.orders {
      DistinctFit(Exchanged(l, d), Placed(l, d) - {l.client.orders[d].uri});
    } else {
      DistinctFit(Exchanged(l, d), Placed(l, d));
    }
  }

  // ------------------------------------- a challenge of an abandoned order

  const FIRST_ASK := OrderAnswers(true, Some(Order(1, 1)), Some([OfferedChallenge("dns-01", "t")]), Some("r"))
  const SECOND_ASK := OrderAnswers(true, Some(Order(2, 0)), None, None)

  /**
   The held challenge need not belong to the held order: an order is stored
   before its challenge is looked for, so a second, fruitless request leaves
   the first challenge beside the second order. Completing it then crashes when
   that order lists no authorization.
   */
  lemma StaleChallengeCrashes(d: string, a: ValidationAnswers)
    requires a.accepted
    ensures var l := Run(OPENING, [Ask(d, FIRST_ASK), Ask(d, SECOND_ASK)]);
            && HonestRun(OPENING, [Ask(d, FIRST_ASK), Ask(d, SECOND_ASK)])
            && d in l.client.challenges && d in l.client.orders
            && l.client.challenges[d].order != l.client.orders[d].uri
            && Complete(l.client, d, a).Crashed?
  {
    var calls := [Ask(d, FIRST_ASK), Ask(d, SECOND_ASK)];
    var one := Step(OPENING, calls[0]);
    assert FindDns01(FIRST_ASK.authorization.value) == Some(OfferedChallenge("dns-01", "t"));
    assert calls[1..] == [calls[1]] && calls[1..][1..] == [];
    assert Run(one, calls[1..]) == Step(one, calls[1]);
  }

  /** The challenge held for d is one of the order held for d. */
  predicate Matched(c: Client, d: string) {
    d in c.challenges && d in c.orders && c.challenges[d].order == c.orders[d].uri
  }

  /** The CA's answers reach a new order and a DNS-01 challenge in it. */
  predicate Fruitful(a: OrderAnswers) {
    && a.order.Some? && a.order.value.authorizations > 0
    && a.authorization.Some?
    && exists i :: 0 <= i < |a.authorization.value| && a.authorization.value[i].kind == "dns-01"
  }

  /**
   A further request keeps challenge and order together exactly when it places
   no order, is answered with the order already held, or finds its challenge.
   */
  lemma AskKeepsMatch(c: Client, d: string, a: OrderAnswers)
    requires Matched(c, d)
    ensures Matched(GetDNSChallenge(c, d, a).0, d) <==>
              (!c.registered && !a.registers) || a.order.None? || a.order.value.uri == c.orders[d].uri || Fruitful(a)
  {
  }

  /** Completing d now, if the CA accepts the challenge, crashes. */
  predicate CanCrash(c: Client, d: string) {
    d in c.challenges && d in c.orders && c.orders[d].authorizations == 0
  }

  /** A request for d that reaches the CA and is answered with an empty order while d has a challenge. */
  predicate EmptiesOrder(c: Client, call: Call, d: string) {
    && call.Ask? && call.domain == d && d in c.challenges
    && (c.registered || call.order.registers)
    && call.order.order.Some? && call.order.order.value.authorizations == 0
  }

  lemma CrashedExactly(c: Client, d: string, a: ValidationAnswers)
    ensures Complete(c, d, a).Crashed? <==> CanCrash(c, d) && a.accepted
  {
  }

  /** From a client that cannot crash on d, exactly those requests make it one that can. */
  lemma StepCrashesExactly(l: Ledger, call: Call, d: string)
    requires !CanCrash(l.client, d)
    ensures CanCrash(Step(l, call).client, d) <==> EmptiesOrder(l.client, call, d)
  {
  }

  /** No call of the run is such a request when it is made. */
  predicate NeverEmpties(l: Ledger, calls: seq<Call>, d: string)
    decreases |calls|
  {
    calls == [] || (!EmptiesOrder(l.client, calls[0], d) && NeverEmpties(Step(l, calls[0]), calls[1..], d))
  }

  /**
   A run passes no client that can crash on d exactly when it starts with none
   and none of its requests for d is answered with an empty order while d has a
   challenge.
   */
  lemma {:induction false} CrashExactlyOnEmptyOrder(l: Ledger, calls: seq<Call>, d: string)
    ensures (forall n :: 0 <= n <= |calls| ==> !CanCrash(Run(l, calls[..n]).client, d)) <==>
            !CanCrash(l.client, d) && NeverEmpties(l, calls, d)
    decreases |calls|
  {
    hide CanCrash, EmptiesOrder, Step;
    assert Run(l, calls[..0]) == l;
    if calls != [] {
      var next, rest := Step(l, calls[0]), calls[1..];
      CrashExactlyOnEmptyOrder(next, rest, d);
      forall n | 0 <= n <= |rest|
        ensures Run(l, calls[..n + 1]) == Run(next, rest[..n])
      {
        assert calls[..n + 1][1..] == rest[..n];
      }
      if !CanCrash(l.client, d) {
        StepCrashesExactly(l, calls[0], d);
      }
      assert forall n :: 1 <= n <= |calls| ==> Run(l, calls[..n]) == Run(next, rest[..n - 1]);
      if forall n :: 0 <= n <= |calls| ==> !CanCrash(Run(l, calls[..n]).client, d) {
        assert Run(l, calls[..1]) == Run(next, rest[..0]) == next;
        forall n | 0 <= n <= |rest|
          ensures !CanCrash(Run(next, rest[..n]).client, d)
        {
          assert Run(l, calls[..n + 1]) == Run(next, rest[..n]);
        }
      }
      if !CanCrash(l.client, d) && NeverEmpties(l, calls, d) {
        forall n | 0 <= n <= |calls|
          ensures !CanCrash(Run(l, calls[..n]).client, d)
        {
          if n > 0 {
            assert Run(l, calls[..n]) == Run(next, rest[..n - 1]);
          }
        }
      }
    }
  }
}
