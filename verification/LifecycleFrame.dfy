/**
 What an endpoint called for one domain cannot touch: the other domains, the
 domain's name, the numbering of domains. Renewal touches no domain record.
 */
module LifecycleFrame {
  import opened Basics
  import opened Lifecycle
  import A = AcmeClient
  import S = CertStorage

  /** From `before` to `after` at most the record of id changed, and not its name. */
  predicate EditsTable(before: map<nat, Domain>, after: map<nat, Domain>, id: nat) {
    && after.Keys == before.Keys
    && forall o :: o in before ==> (o != id ==> after[o] == before[o]) && after[o].name == before[o].name
  }

  predicate Edits(w: World, t: World, id: nat) {
    t.nextId == w.nextId && EditsTable(w.domains, t.domains, id)
  }

  lemma PutEdits(w: World, id: nat, d: Domain)
    requires id in w.domains && d.name == w.domains[id].name
    ensures EditsTable(w.domains, Put(w, id, d).domains, id)
  {
  }

  lemma EditsTwice(a: map<nat, Domain>, b: map<nat, Domain>, c: map<nat, Domain>, id: nat)
    requires EditsTable(a, b, id) && EditsTable(b, c, id)
    ensures EditsTable(a, c, id)
  {
  }

  lemma RequestEdits(w: World, id: nat, e: RequestEnv)
    ensures Edits(w, RequestChallenge(w, id, e), id)
  {
    if id in w.domains {
      var info := A.GetDNSChallenge(w.client, w.domains[id].name, e.answers).1;
      if info.Some? {
        PutEdits(w, id, Challenged(w.domains[id], info.value, e.now));
      }
    }
  }

  lemma RenewChallengeEdits(w: World, id: nat, reset: bool, e: RequestEnv)
    ensures Edits(w, RenewChallenge(w, id, reset, e), id)
  {
    if id in w.domains && reset {
      var back := Put(w, id, w.domains[id].(status := DNSVerified));
      PutEdits(w, id, w.domains[id].(status := DNSVerified));
      RequestEdits(back, id, e);
      EditsTwice(w.domains, back.domains, RequestChallenge(back, id, e).domains, id);
    }
  }

  lemma FailEdits(w: World, id: nat, d: Domain, message: string, write: bool)
    requires id in w.domains && w.domains[id].name == d.name
    ensures Edits(w, Fail(w, id, d, message, write), id)
  {
    PutEdits(w, id, d.(status := Failed, errorMessage := message));
  }

  lemma FinishEdits(w: World, id: nat, d: Domain, b: A.Bundle, e: SubmitEnv)
    requires id in w.domains && w.domains[id].name == d.name
    ensures Edits(w, FinishSubmission(w, id, d, b, e).0, id)
  {
    PutEdits(w, id, d.(status := CertificateIssued, errorMessage := ""));
    PutEdits(w, id, Cleared(w.domains[id]));
  }

  lemma StoreEdits(w: World, id: nat, d: Domain, b: A.Bundle, e: SubmitEnv)
    requires id in w.domains && w.domains[id].name == d.name
    ensures Edits(w, StoreCertificate(w, id, d, b, e).0, id)
  {
    var saved := w.(disk := S.Save(w.disk, d.name, b, e.save));
    FinishEdits(Note(saved, Saved(id, b)), id, d, b, e);
    PutEdits(w, id, d.(status := Failed, errorMessage := "Certificate storage failed: " + e.detail));
  }

  lemma TakeEdits(w: World, bundle: Option<A.Bundle>, id: nat, d: Domain, e: SubmitEnv)
    requires id in w.domains && w.domains[id].name == d.name
    ensures Edits(w, TakeCertificate(w, bundle, id, d, e).0, id)
  {
    if bundle.Some? {
      StoreEdits(Note(w, Obtained(id, bundle.value)), id, d, bundle.value, e);
    } else {
      PutEdits(w, id, d.(status := Failed, errorMessage := "Certificate request failed: " + e.detail));
    }
  }

  lemma ObtainEdits(w: World, id: nat, d: Domain, e: SubmitEnv)
    requires id in w.domains && w.domains[id].name == d.name
    ensures Edits(w, ObtainCertificate(w, id, d, e).0, id)
  {
    var (client, bundle) := A.RequestCertificate(w.client, d.name, e.issue);
    TakeEdits(w.(client := client), bundle, id, d, e);
  }

  lemma SubmitEdits(w: World, id: nat, e: SubmitEnv)
    ensures Edits(w, SubmitChallenge(w, id, e).0, id)
  {
    hide ObtainCertificate, A.Complete;
    assert EditsTable(w.domains, w.domains, id);
    if id in w.domains {
      hide EditsTable;
      var d := w.domains[id].(status := PendingCertificate);
      var marked := Note(Put(w, id, d), Submitted(id, d.value));
      PutEdits(w, id, d);
      FailEdits(marked, id, d, "ACME validation failed: " + e.detail, e.failWrite);
      ObtainEdits(Note(marked, Validated(id)), id, d, e);
      hide Fail;
      var t := SubmitChallenge(w, id, e).0;
      if t != w && t != marked {
        EditsTwice(w.domains, marked.domains, t.domains, id);
      }
    }
  }

  lemma SubmitEndpointEdits(w: World, id: nat, read: bool, e: SubmitEnv)
    ensures Edits(w, SubmitACMEChallenge(w, id, read, e), id)
  {
    SubmitEdits(w, id, e);
    var t := SubmitChallenge(w, id, e).0;
    if id in t.domains {
      PutEdits(t, id, t.domains[id].(status := Active, isActive := true, errorMessage := ""));
      EditsTwice(w.domains, t.domains, Activate(t, id, e.activate).domains, id);
    }
  }

  lemma ReplaceLeavesDomains(w: World, bundle: Option<A.Bundle>, id: nat, name: string, e: RenewEnv)
    ensures Replace(w, bundle, id, name, e).domains == w.domains && Replace(w, bundle, id, name, e).nextId == w.nextId
  {
  }

  lemma RenewLeavesDomains(w: World, id: nat, e: RenewEnv)
    ensures RenewCertificate(w, id, e).domains == w.domains && RenewCertificate(w, id, e).nextId == w.nextId
  {
    if id in w.domains {
      var name := w.domains[id].name;
      var (ordered, info) := A.GetDNSChallenge(w.client, name, e.order);
      var (client, bundle) := A.RequestCertificate(ordered, name, e.issue);
      ReplaceLeavesDomains(Note(w.(client := client), Validated(id)), bundle, id, name, e);
    }
  }

  lemma VerifyDNSEdits(w: World, id: nat, e: VerifyDNSEnv)
    ensures Edits(w, VerifyDNS(w, id, e), id)
  {
    if id in w.domains {
      PutEdits(w, id, w.domains[id].(status := DNSVerified, errorMessage := ""));
    }
  }

  lemma RetryEdits(w: World, id: nat, resetTo: string, read: bool, db: ReadWrite)
    ensures Edits(w, Retry(w, id, resetTo, read, db), id)
  {
    hide BlamesCertificate;
  }

  lemma VerifyEdits(w: World, id: nat, e: VerifyEnv)
    ensures Edits(w, VerifyACMEDNS(w, id, e), id)
  {
    hide FoundValues;
    RenewChallengeEdits(w, id, e.reset, e.renewal);
    if id in w.domains {
      PutEdits(w, id, w.domains[id].(dnsVerified := true, status := ACMEChallengeReady));
    }
  }

  /** Every endpoint edits at most the record it is called for; only create and delete add or remove one. */
  lemma EndpointEditsItsDomain(w: World, call: Call)
    requires !call.CallCreate? && !call.CallDelete? && !call.CallRestart?
    ensures Edits(w, Step(w, call), call.id)
  {
    hide VerifyDNS, Retry, RequestChallenge, VerifyACMEDNS, RenewChallenge, SubmitACMEChallenge, RenewCertificate;
    match call
    case CallVerifyDNS(id, e) => VerifyDNSEdits(w, id, e);
    case CallRetry(id, resetTo, read, db) => RetryEdits(w, id, resetTo, read, db);
    case CallRequest(id, read, e) => RequestEdits(w, id, e);
    case CallVerify(id, e) => VerifyEdits(w, id, e);
    case CallStatus(id, e) => RenewChallengeEdits(w, id, e.reset, e.renewal);
    case CallSubmit(id, read, e) => SubmitEndpointEdits(w, id, read, e);
    case CallRenew(id, e) => RenewLeavesDomains(w, id, e);
  }
}
