/**
 No dead ends: from which states of a domain `active` can still be reached.

 `Advice` names the endpoint to call next. Whatever cooperating resolvers, CA,
 disk and database answer, following it for at most six calls makes the domain
 active, from every record except the dead ends; from a dead end no call of any
 kind helps; and no run of the setup endpoints produces one.
 */
module LifecycleProgress {
  import opened Basics
  import opened Lifecycle
  import opened LifecycleFrame
  import opened LifecycleSafety
  import Text
  import A = AcmeClient
  import S = CertStorage
  import C = CertStore

  /** The stored challenge can be looked up, or will expire and be replaced. */
  predicate Verifiable(d: Domain) {
    Findable(d) || (HasChallenge(d) && d.expiresAt.Some?)
  }

  /**
   Issued without activation, or marked ready without verification, when no
   stored challenge can be verified: only the endpoint that verifies a stored
   challenge leaves these statuses, unless the domain counts as a legacy one.
   */
  predicate DeadEnd(d: Domain) {
    !d.isActive && !Verifiable(d) && Waiting(d)
  }

  /** Nothing but a verification of the stored challenge moves the record on. */
  predicate Waiting(d: Domain) {
    d.status.CertificateIssued? || (d.status.ACMEChallengeReady? && !d.dnsVerified)
  }

  predicate IsActiveNow(w: World, id: nat) {
    id in w.domains && w.domains[id].status.Active?
  }

  // ---------------------------------------------------------------- dead

  /** No endpoint, with any answers and failures, changes a dead-end record; it can only be deleted. */
  lemma StepLeavesDead(w: World, id: nat, call: Call)
    requires id in w.domains && DeadEnd(w.domains[id]) && id < w.nextId
    ensures id in Step(w, call).domains ==> Step(w, call).domains[id] == w.domains[id]
  {
    hide FoundValues, Text.TrimSpace, Text.ToLower, BlamesCertificate;
    if call.CallCreate? || call.CallDelete? || call.CallRestart? {
    } else if call.id != id {
      hide Step;
      EndpointEditsItsDomain(w, call);
    } else if call.CallSubmit? {
      assert SubmitChallenge(w, id, call.submit) == (w, false);
    } else if call.CallRenew? {
      RenewLeavesDomains(w, id, call.renew);
    } else if call.CallVerify? {
      FoundValuesMeans(call.verify.answers, w.domains[id].value);
    }
  }

  /** Ids are given once: a deleted domain does not come back under its id. */
  lemma StepKeepsIds(w: World, id: nat, call: Call)
    requires id < w.nextId
    ensures id < Step(w, call).nextId
    ensures id !in w.domains ==> id !in Step(w, call).domains
  {
    if !call.CallCreate? && !call.CallDelete? && !call.CallRestart? {
      EndpointEditsItsDomain(w, call);
    }
  }

  lemma {:induction false} DeadStaysDead(w: World, id: nat, calls: seq<Call>)
    requires id in w.domains ==> DeadEnd(w.domains[id])
    requires id < w.nextId
    ensures !IsActiveNow(Run(w, calls), id)
    decreases |calls|
  {
    if calls != [] {
      StepKeepsIds(w, id, calls[0]);
      if id in w.domains {
        StepLeavesDead(w, id, calls[0]);
      }
      DeadStaysDead(Step(w, calls[0]), id, calls[1..]);
    }
  }

  /** No run of the endpoints from an empty database produces a dead end. */
  lemma RunsMeetNoDeadEnd(store: Option<C.Store>, calls: seq<Call>, id: nat)
    requires id in Run(Fresh(store), calls).domains
    ensures !DeadEnd(Run(Fresh(store), calls).domains[id])
  {
    RunKeeps(Fresh(store), calls);
    var w := Run(Fresh(store), calls);
    assert RecordOk(w.certs, w.nextId, w.log, id, w.domains[id]);
  }

  // ---------------------------------------------------------- cooperation

  /** What the client would submit for d is the challenge on d's record, of an order it still holds. */
  predicate Usable(c: A.Client, d: Domain) {
    A.Matched(c, d.name) && c.challenges[d.name].record == Some(d.value) && c.orders[d.name].authorizations > 0
  }

  predicate GoodOrder(a: A.OrderAnswers) {
    && a.registers && a.order.Some? && a.order.value.authorizations > 0
    && a.authorization.Some? && A.FindDns01(a.authorization.value).Some?
    && A.FindDns01(a.authorization.value).value.token != ""
    && a.record.Some? && a.record.value != "" && Text.TrimSpace(a.record.value) == a.record.value
  }

  predicate GoodRequest(e: RequestEnv, now: Time) {
    e.read && e.write && GoodOrder(e.answers) && now <= e.now <= now + DAY
  }

  predicate Works(db: ReadWrite) {
    db.read && db.write
  }

  /**
   Every party does its part in this call, within a day from `now`. The user
   has published the value on the record, so the CA validates that one and no
   other.
   */
  ghost predicate Cooperates(w: World, id: nat, now: Time, call: Call)
    requires id in w.domains
  {
    match call
    case CallVerifyDNS(_, e) =>
      e.read && e.token.Some? && e.token.value != "" && Works(e.legacy) && e.allVerified && Works(e.status)
    case CallRetry(_, _, read, db) => read && Works(db)
    case CallRequest(_, read, e) => read && GoodRequest(e, now)
    case CallVerify(_, e) =>
      && e.handlerRead && e.read && e.reset && e.write && now <= e.now <= now + DAY
      && GoodRequest(e.renewal, now)
      && (Expired(w.domains[id], e.now) || w.domains[id].value in FoundValues(e.answers))
    case CallSubmit(_, read, e) =>
      && read && e.read && e.mark && e.failWrite
      && e.validation.accepted && (A.Validates(e.validation) <==> Usable(w.client, w.domains[id]))
      && e.issue.registers && e.issue.waited == Some(A.OrderReady) && e.issue.keyAndRequestMade
      && e.issue.blocks.Some? && e.issue.blocks.value != [] && e.issue.blocks.value[0] != ""
      && e.issue.privateKey.Some? && e.issue.privateKey.value != ""
      && e.save == S.NO_FAULTS && Works(e.row) && Works(e.clear) && e.finish && e.reread && Works(e.activate)
    case _ => false
  }

  // ---------------------------------------------------------------- advice

  datatype Move = DoVerifyDNS | DoRetry | DoRequest | DoVerify | DoSubmit

  /** The challenge on record can be verified and submitted during the coming day. */
  predicate InFlight(w: World, d: Domain, now: Time) {
    Findable(d) && !Expired(d, now + DAY) && Usable(w.client, d)
  }

  function Advice(w: World, id: nat, now: Time): Move
    requires id in w.domains
  {
    var d := w.domains[id];
    match d.status
    case NoStatus | PendingDNS => DoVerifyDNS
    case DNSVerified => DoRequest
    case PendingACMEChallenge => if InFlight(w, d, now) then DoVerify else DoRetry
    case ACMEChallengeReady =>
      if d.dnsVerified then DoSubmit else if Verifiable(d) then DoVerify else DoVerifyDNS
    case CertificateIssued => if Verifiable(d) then DoVerify else DoVerifyDNS
    case PendingCertificate | Failed | Active => DoRetry
  }

  predicate IsMove(call: Call, id: nat, move: Move) {
    match move
    case DoVerifyDNS => call.CallVerifyDNS? && call.id == id
    case DoRetry => call.CallRetry? && call.id == id && call.resetTo == "dns_verified"
    case DoRequest => call.CallRequest? && call.id == id
    case DoVerify => call.CallVerify? && call.id == id
    case DoSubmit => call.CallSubmit? && call.id == id
  }

  /** How many advised calls are still needed at most. */
  function Distance(w: World, id: nat, now: Time): nat
    requires id in w.domains
  {
    var d := w.domains[id];
    match d.status
    case Active => 0
    case NoStatus | PendingDNS => if d.dnsChallenge == "" then 5 else 4
    case DNSVerified => 3
    case PendingACMEChallenge => if InFlight(w, d, now) then 2 else 4
    case ACMEChallengeReady => if !d.dnsVerified then 6 else if Usable(w.client, d) then 1 else 5
    case CertificateIssued => 6
    case PendingCertificate | Failed => 4
  }

  lemma DistanceBounds(w: World, id: nat, now: Time)
    requires id in w.domains
    ensures Distance(w, id, now) <= 6 && (Distance(w, id, now) == 0 <==> IsActiveNow(w, id))
  {
  }

  lemma OnlyWaitingIsDead(d: Domain)
    requires !Waiting(d)
    ensures !DeadEnd(d)
  {
  }

  ghost predicate Advised(w: World, id: nat, now: Time, call: Call)
    requires id in w.domains
  {
    IsMove(call, id, Advice(w, id, now)) && Cooperates(w, id, now, call)
  }

  // -------------------------------------------------------- one call closer

  lemma RequestCloses(w: World, id: nat, now: Time, e: RequestEnv)
    requires id in w.domains && w.domains[id].status.DNSVerified? && GoodRequest(e, now)
    ensures var t := RequestChallenge(w, id, e);
            && id in t.domains && t.domains[id].status.PendingACMEChallenge? && InFlight(t, t.domains[id], now)
            && t.domains[id].name == w.domains[id].name
  {
    var d := w.domains[id];
    var found := A.FindDns01(e.answers.authorization.value);
    var (client, info) := A.GetDNSChallenge(w.client, d.name, e.answers);
    assert info == Some(A.ChallengeInfo(d.name, found.value.token, e.answers.record.value));
    assert Usable(client, Challenged(d, info.value, e.now));
  }

  lemma VerifyCloses(w: World, id: nat, now: Time, e: VerifyEnv)
    requires id in w.domains && Cooperates(w, id, now, CallVerify(id, e))
    requires HasChallenge(w.domains[id])
    ensures var t := VerifyACMEDNS(w, id, e);
            && id in t.domains
            && (if Expired(w.domains[id], e.now)
                then t.domains[id].status.PendingACMEChallenge? && InFlight(t, t.domains[id], now)
                else
                  && t.domains[id] == w.domains[id].(status := ACMEChallengeReady, dnsVerified := true)
                  && t.client == w.client)
            && t.domains[id].name == w.domains[id].name
  {
    if Expired(w.domains[id], e.now) {
      RequestCloses(Put(w, id, w.domains[id].(status := DNSVerified)), id, now, e.renewal);
    }
  }

  lemma SubmitCloses(w: World, id: nat, now: Time, e: SubmitEnv)
    requires id in w.domains && Cooperates(w, id, now, CallSubmit(id, true, e))
    requires w.domains[id].status.ACMEChallengeReady? && w.domains[id].dnsVerified
    requires w.domains[id].name != ""
    ensures var t := SubmitACMEChallenge(w, id, true, e);
            && id in t.domains
            && t.domains[id].status == (if Usable(w.client, w.domains[id]) then Active
                                        else if Crashes(w, id) then PendingCertificate else Failed)
            && t.domains[id].name == w.domains[id].name
  {
    var d := w.domains[id].(status := PendingCertificate);
    var marked := Note(Put(w, id, d), Submitted(id, d.value));
    if Usable(w.client, d) {
      assert A.Complete(marked.client, d.name, e.validation).Succeeded?;
      ObtainSucceeds(Note(marked, Validated(id)), id, d, e);
    }
  }

  predicate Crashes(w: World, id: nat)
    requires id in w.domains
  {
    var name := w.domains[id].name;
    name in w.client.challenges && name in w.client.orders && w.client.orders[name].authorizations == 0
  }

  /** With everybody cooperating, a validated submission ends with the issued record. */
  lemma ObtainSucceeds(w: World, id: nat, d: Domain, e: SubmitEnv)
    requires d.name in w.client.orders && d.name != ""
    requires e.issue.registers && e.issue.waited == Some(A.OrderReady) && e.issue.keyAndRequestMade
    requires e.issue.blocks.Some? && e.issue.blocks.value != [] && e.issue.blocks.value[0] != ""
    requires e.issue.privateKey.Some? && e.issue.privateKey.value != ""
    requires e.save == S.NO_FAULTS && Works(e.row) && e.finish
    ensures var (t, ok) := ObtainCertificate(w, id, d, e);
            ok && id in t.domains && t.domains[id] == d.(status := CertificateIssued, errorMessage := "")
  {
    var (client, bundle) := A.RequestCertificate(w.client, d.name, e.issue);
    assert bundle.Some? && S.SaveOk(d.name, bundle.value, e.save);
  }

  /** The record of id is closer to active in t than in w, under the same name, and not waiting for a verification. */
  ghost predicate Closer(w: World, t: World, id: nat, now: Time)
    requires id in w.domains
  {
    && id in t.domains && !Waiting(t.domains[id]) && Distance(t, id, now) < Distance(w, id, now)
    && t.domains[id].name == w.domains[id].name
  }

  lemma VerifyDNSIsCloser(w: World, id: nat, now: Time, e: VerifyDNSEnv)
    requires id in w.domains && !w.domains[id].status.Active? && !DeadEnd(w.domains[id])
    requires Advice(w, id, now).DoVerifyDNS? && Cooperates(w, id, now, CallVerifyDNS(id, e))
    ensures Closer(w, VerifyDNS(w, id, e), id, now)
  {
    hide Findable, BlamesCertificate;
  }

  lemma RetryIsCloser(w: World, id: nat, now: Time)
    requires id in w.domains && !w.domains[id].status.Active?
    requires Advice(w, id, now).DoRetry?
    ensures Closer(w, Retry(w, id, "dns_verified", true, ReadWrite(true, true)), id, now)
  {
  }

  lemma RequestIsCloser(w: World, id: nat, now: Time, e: RequestEnv)
    requires id in w.domains && w.domains[id].status.DNSVerified? && GoodRequest(e, now)
    ensures Closer(w, RequestACMEChallenge(w, id, true, e), id, now)
  {
    RequestCloses(w, id, now, e);
  }

  lemma VerifyIsCloser(w: World, id: nat, now: Time, e: VerifyEnv)
    requires id in w.domains && !DeadEnd(w.domains[id])
    requires Advice(w, id, now).DoVerify? && Cooperates(w, id, now, CallVerify(id, e))
    ensures Closer(w, VerifyACMEDNS(w, id, e), id, now)
  {
    hide VerifyACMEDNS;
    VerifyCloses(w, id, now, e);
  }

  lemma SubmitIsCloser(w: World, id: nat, now: Time, e: SubmitEnv)
    requires id in w.domains && w.domains[id].name != ""
    requires Advice(w, id, now).DoSubmit? && Cooperates(w, id, now, CallSubmit(id, true, e))
    ensures Closer(w, SubmitACMEChallenge(w, id, true, e), id, now)
  {
    hide SubmitACMEChallenge;
    SubmitCloses(w, id, now, e);
  }

  lemma AdvisedCallCloses(w: World, id: nat, now: Time, call: Call)
    requires id in w.domains && !w.domains[id].status.Active? && !DeadEnd(w.domains[id])
    requires w.domains[id].name != ""
    requires Advised(w, id, now, call)
    ensures Closer(w, Step(w, call), id, now)
  {
    hide VerifyDNS, Retry, RequestACMEChallenge, VerifyACMEDNS, SubmitACMEChallenge, Distance;
    match call {
      case CallVerifyDNS(_, e) => VerifyDNSIsCloser(w, id, now, e);
      case CallRetry(_, _, _, db) => RetryIsCloser(w, id, now);
      case CallRequest(_, _, e) => RequestIsCloser(w, id, now, e);
      case CallVerify(_, e) => VerifyIsCloser(w, id, now, e);
      case CallSubmit(_, _, e) => SubmitIsCloser(w, id, now, e);
      case _ =>
    }
  }

  // ------------------------------------------------------------ the claims

  /** Each call is the advised one, made by cooperating parties, until the domain is active. */
  ghost predicate FollowsAdvice(w: World, id: nat, now: Time, calls: seq<Call>)
    decreases |calls|
  {
    calls == [] || IsActiveNow(w, id)
    || (id in w.domains && Advised(w, id, now, calls[0]) && FollowsAdvice(Step(w, calls[0]), id, now, calls[1..]))
  }

  /**
   From every record that is not a dead end, following the advice for
   Distance calls (six at most) makes the domain active, whatever the
   cooperating parties answer.
   */
  lemma {:induction false} AdviceReachesActive(w: World, id: nat, now: Time, calls: seq<Call>) returns (k: nat)
    requires id in w.domains && !DeadEnd(w.domains[id]) && w.domains[id].name != ""
    requires FollowsAdvice(w, id, now, calls) && |calls| >= Distance(w, id, now)
    ensures k <= |calls| && k <= Distance(w, id, now) <= 6
    ensures IsActiveNow(Run(w, calls[..k]), id)
    decreases Distance(w, id, now)
  {
    hide Step, Advice, Distance, Waiting, DeadEnd, Advised;
    DistanceBounds(w, id, now);
    if IsActiveNow(w, id) {
      k := 0;
    } else {
      AdvisedCallCloses(w, id, now, calls[0]);
      var t := Step(w, calls[0]);
      OnlyWaitingIsDead(t.domains[id]);
      var rest := AdviceReachesActive(t, id, now, calls[1..]);
      k := rest + 1;
      assert calls[..k][1..] == calls[1..][..rest];
    }
  }

  const GOOD_ORDER :=
    A.OrderAnswers(true, Some(A.Order(0, 1)), Some([A.OfferedChallenge("dns-01", "t")]), Some("v"))

  lemma GoodChallengeFound()
    ensures A.FindDns01([A.OfferedChallenge("dns-01", "t")]) == Some(A.OfferedChallenge("dns-01", "t"))
  {
  }

  lemma GoodRecordTrimmed()
    ensures Text.TrimSpace("v") == "v"
  {
    hide Text.TrimSpace;
    Text.TrimSpaceKeeps("v");
  }

  lemma GoodOrderIsGood()
    ensures GoodOrder(GOOD_ORDER)
  {
    hide A.FindDns01, Text.TrimSpace;
    GoodChallengeFound();
    GoodRecordTrimmed();
  }

  lemma StoredValueFound(v: string)
    requires Text.TrimSpace(v) == v
    ensures v in FoundValues([Some([v])])
  {
    var answers: seq<Option<seq<string>>> := [Some([v])];
    assert Trimmed([v])[0] == v;
    assert AnsweredBy(answers, 0, v);
    FoundValuesMeans(answers, v);
  }

  /** A cooperative call for the advised endpoint. */
  function GoodCall(w: World, id: nat, now: Time): Call
    requires id in w.domains
  {
    var yes := ReadWrite(true, true);
    var request := RequestEnv(true, GOOD_ORDER, now, true);
    var verdict := if Usable(w.client, w.domains[id]) then A.Valid else A.Invalid;
    var validation := A.ValidationAnswers(true, (k: nat) => A.Polled(verdict, false), true);
    var issue := A.IssueAnswers(true, Some(A.OrderReady), true, Some(["c"]), now, Some("k"));
    match Advice(w, id, now)
    case DoVerifyDNS => CallVerifyDNS(id, VerifyDNSEnv(true, Some("t"), yes, true, yes))
    case DoRetry => CallRetry(id, "dns_verified", true, yes)
    case DoRequest => CallRequest(id, true, request)
    case DoVerify => CallVerify(id, VerifyEnv(true, true, now, true, request, [Some([w.domains[id].value])], true))
    case DoSubmit =>
      CallSubmit(id, true, SubmitEnv(true, true, validation, "", true, issue, S.NO_FAULTS, yes, yes, true,
                                     (c: Bytes, k: Bytes) => true, true, yes))
  }

  /** A stored challenge that could only be verified after its expiry has expired. */
  predicate Answerable(d: Domain, now: Time) {
    Findable(d) || d.expiresAt.None? || Expired(d, now)
  }

  /** Cooperation is always possible: the advice never asks for an endpoint nobody could answer. */
  lemma GoodCallIsAdvised(w: World, id: nat, now: Time)
    requires id in w.domains && !w.domains[id].status.Active? && !DeadEnd(w.domains[id])
    requires Waiting(w.domains[id]) ==> Answerable(w.domains[id], now)
    ensures Advised(w, id, now, GoodCall(w, id, now))
  {
    hide FoundValues, GoodOrder, Text.TrimSpace;
    GoodOrderIsGood();
    var call := GoodCall(w, id, now);
    match Advice(w, id, now) {
      case DoVerify =>
        if Findable(w.domains[id]) {
          StoredValueFound(w.domains[id].value);
        }
      case DoSubmit =>
        assert Usable(w.client, w.domains[id]) ==> A.ValidAt(call.submit.validation.polls, 0);
      case _ =>
    }
  }

  /** Some list of calls, all of them cooperative and advised, makes the domain active. */
  lemma {:induction false} WayOut(w: World, id: nat, now: Time) returns (calls: seq<Call>)
    requires id in w.domains && !DeadEnd(w.domains[id]) && w.domains[id].name != ""
    requires Waiting(w.domains[id]) ==> Answerable(w.domains[id], now)
    ensures |calls| <= Distance(w, id, now) <= 6 && FollowsAdvice(w, id, now, calls)
    ensures IsActiveNow(Run(w, calls), id)
    decreases Distance(w, id, now)
  {
    hide Step, GoodCall, Advice, Distance, Answerable, Waiting, DeadEnd, Advised;
    DistanceBounds(w, id, now);
    calls := [];
    if !IsActiveNow(w, id) {
      var call := GoodCall(w, id, now);
      GoodCallIsAdvised(w, id, now);
      AdvisedCallCloses(w, id, now, call);
      OnlyWaitingIsDead(Step(w, call).domains[id]);
      var rest := WayOut(Step(w, call), id, now);
      calls := [call] + rest;
      assert calls[1..] == rest;
    }
  }

  /**
   Active is reachable from a record, by calls of any kind, exactly when the
   record is not a dead end.
   */
  lemma ActiveReachableExactly(w: World, id: nat)
    requires id in w.domains && id < w.nextId && w.domains[id].name != ""
    ensures (exists calls :: IsActiveNow(Run(w, calls), id)) <==> !DeadEnd(w.domains[id])
  {
    var d := w.domains[id];
    if DeadEnd(d) {
      forall calls
        ensures !IsActiveNow(Run(w, calls), id)
      {
        DeadStaysDead(w, id, calls);
      }
    } else {
      var now := if d.expiresAt.Some? then d.expiresAt.value + 1 else 0;
      var calls := WayOut(w, id, now);
    }
  }

  /** So from every state a run of the endpoints can reach, at any time, a way out leads to active. */
  lemma NoDeadEnds(store: Option<C.Store>, calls: seq<Call>, id: nat, now: Time) returns (more: seq<Call>)
    requires id in Run(Fresh(store), calls).domains
    ensures |more| <= 6
    ensures FollowsAdvice(Run(Fresh(store), calls), id, now, more)
    ensures IsActiveNow(Run(Run(Fresh(store), calls), more), id)
    ensures Run(Run(Fresh(store), calls), more).domains[id].isActive
  {
    RunKeeps(Fresh(store), calls);
    RunsMeetNoDeadEnd(store, calls, id);
    var w := Run(Fresh(store), calls);
    assert RecordOk(w.certs, w.nextId, w.log, id, w.domains[id]);
    more := WayOut(w, id, now);
    RunKeeps(w, more);
    var t := Run(w, more);
    assert RecordOk(t.certs, t.nextId, t.log, id, t.domains[id]);
  }
}
