/**
 A run in which a domain that was reset to pending_dns becomes ready to submit
 without a second DNS verification: verifying the stored challenge does not look
 at the status.
 */
module LifecycleWitness {
  import opened Basics
  import opened Lifecycle
  import Text
  import A = AcmeClient
  import S = CertStorage
  import C = CertStore

  /** Any failed domain with a findable challenge that has not expired can take that path. */
  lemma ResetThenVerify(w: World, id: nat, e: VerifyEnv)
    requires id in w.domains && w.domains[id].status.Failed? && HasChallenge(w.domains[id])
    requires e.handlerRead && e.read && e.write && !Expired(w.domains[id], e.now)
    requires w.domains[id].value in FoundValues(e.answers)
    ensures var reset := Retry(w, id, "pending_dns", true, ReadWrite(true, true));
            var ready := VerifyACMEDNS(reset, id, e);
            && id in reset.domains && reset.domains[id].status.PendingDNS?
            && id in ready.domains && ready.domains[id].status.ACMEChallengeReady?
            && ready.log == w.log + [Looked(id, FoundValues(e.answers))]
  {
    hide FoundValues, BlamesCertificate;
  }

  const YES := ReadWrite(true, true)
  const ORDER := A.OrderAnswers(true, Some(A.Order(0, 1)), Some([A.OfferedChallenge("dns-01", "t")]), Some("v"))
  const REQUEST := RequestEnv(true, ORDER, 0, true)
  const LOOKUP := VerifyEnv(true, true, 0, true, REQUEST, [Some(["v"])], true)
  const REFUSAL := SubmitEnv(true, true, A.ValidationAnswers(false, (k: nat) => A.PollFailed, false), "", true,
                             A.IssueAnswers(true, None, true, None, 0, None), S.NO_FAULTS, YES, YES, true,
                             (c: Bytes, k: Bytes) => true, true, YES)

  /** The domain of the run when it is new, and with the challenge stored. */
  const NEW_DOMAIN := Domain("x", false, PendingDNS, "t", "", "", "", None, false)
  const ASKED := NEW_DOMAIN.(status := PendingACMEChallenge, token := "t", value := "v", expiresAt := Some(DAY))

  /** The record and the history at one point of the run. */
  predicate At(w: World, d: Domain, log: seq<Event>) {
    w.domains == map[0 := d] && w.log == log
  }

  lemma CreateStep(store: Option<C.Store>)
    ensures At(Step(Fresh(store), CallCreate("x", Some("t"), true)), NEW_DOMAIN, [])
  {
    Text.ToLowerIdempotent("x");
    Text.TrimSpaceKeeps("x");
    hide Text.ToLower, Text.TrimSpace;
  }

  lemma VerifyDNSStep(w: World)
    requires At(w, NEW_DOMAIN, [])
    ensures At(Step(w, CallVerifyDNS(0, VerifyDNSEnv(true, Some("t"), YES, true, YES))),
               NEW_DOMAIN.(status := DNSVerified), [DnsPassed(0)])
  {
  }

  lemma RequestStep(w: World)
    requires At(w, NEW_DOMAIN.(status := DNSVerified), [DnsPassed(0)])
    ensures At(Step(w, CallRequest(0, true, REQUEST)), ASKED, [DnsPassed(0), Stored(0, "v")])
  {
    assert A.FindDns01([A.OfferedChallenge("dns-01", "t")]) == Some(A.OfferedChallenge("dns-01", "t"));
    hide A.FindDns01;
  }

  lemma ValueFound()
    ensures FoundValues([Some(["v"])]) == ["v"]
  {
    Text.TrimSpaceKeeps("v");
    hide Text.TrimSpace;
    assert Trimmed(["v"]) == ["v"];
    var answers: seq<Option<seq<string>>> := [Some(["v"])];
    assert answers[..0] == [] && Flatten(answers[..0]) == [];
    assert Flatten(answers) == ["v"];
    assert ["v"][..0] == [] && Dedup(["v"][..0]) == [];
  }

  lemma VerifyStep(w: World, d: Domain, log: seq<Event>)
    requires At(w, d, log) && d.token == "t" && d.value == "v" && d.expiresAt == Some(DAY)
    ensures At(Step(w, CallVerify(0, LOOKUP)), d.(status := ACMEChallengeReady, dnsVerified := true),
               log + [Looked(0, ["v"])])
  {
    ValueFound();
    hide FoundValues;
  }

  lemma SubmitStep(w: World, log: seq<Event>)
    requires At(w, ASKED.(status := ACMEChallengeReady, dnsVerified := true), log)
    ensures At(Step(w, CallSubmit(0, true, REFUSAL)),
               ASKED.(status := Failed, dnsVerified := true, errorMessage := "ACME validation failed: "),
               log + [Submitted(0, "v")])
  {
    assert A.Complete(w.client, "x", REFUSAL.validation).Refused?;
    hide A.Complete;
    assert "ACME validation failed: " + "" == "ACME validation failed: ";
  }

  /**
   The run: created, verified, asked, looked up, refused by the CA, reset to
   pending_dns, and ready again. Its DNS passed once, before the first challenge.
   */
  lemma ResetSkipsDNS(store: Option<C.Store>) returns (calls: seq<Call>, reset: World, ready: World)
    ensures reset == Run(Fresh(store), calls) && ready == Step(reset, CallVerify(0, LOOKUP))
    ensures 0 in reset.domains && reset.domains[0].status.PendingDNS?
    ensures 0 in ready.domains && ready.domains[0].status.ACMEChallengeReady?
    ensures ready.log ==
            [DnsPassed(0), Stored(0, "v"), Looked(0, ["v"]), Submitted(0, "v"), Looked(0, ["v"])]
  {
    hide Run, Step;
    var verifyDNS := CallVerifyDNS(0, VerifyDNSEnv(true, Some("t"), YES, true, YES));
    calls := [];
    var w := Start(store, calls);
    CreateStep(store);
    calls, w := Next(store, calls, w, CallCreate("x", Some("t"), true));
    VerifyDNSStep(w);
    calls, w := Next(store, calls, w, verifyDNS);
    RequestStep(w);
    calls, w := Next(store, calls, w, CallRequest(0, true, REQUEST));
    VerifyStep(w, ASKED, w.log);
    calls, w := Next(store, calls, w, CallVerify(0, LOOKUP));
    SubmitStep(w, w.log);
    calls, w := Next(store, calls, w, CallSubmit(0, true, REFUSAL));
    ResetStep(w, w.log);
    calls, w := Next(store, calls, w, CallRetry(0, "pending_dns", true, YES));
    reset := w;
    VerifyStep(w, w.domains[0], w.log);
    ready := Step(w, CallVerify(0, LOOKUP));
  }

  lemma ResetStep(w: World, log: seq<Event>)
    requires At(w, ASKED.(status := Failed, dnsVerified := true, errorMessage := "ACME validation failed: "), log)
    ensures At(Step(w, CallRetry(0, "pending_dns", true, YES)), ASKED.(status := PendingDNS, dnsVerified := true), log)
  {
    hide BlamesCertificate;
  }

  lemma Start(store: Option<C.Store>, calls: seq<Call>) returns (w: World)
    requires calls == []
    ensures w == Fresh(store) == Run(Fresh(store), calls)
  {
    w := Fresh(store);
  }

  lemma Next(store: Option<C.Store>, calls: seq<Call>, w: World, call: Call) returns (longer: seq<Call>, next: World)
    requires w == Run(Fresh(store), calls)
    ensures longer == calls + [call] && next == Step(w, call) == Run(Fresh(store), longer)
  {
    RunThen(Fresh(store), calls, call);
    longer, next := calls + [call], Step(w, call);
  }
}
