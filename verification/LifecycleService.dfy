/**
 The services and handlers behind the setup endpoints, statement by statement:
 they read a record, change the copy, write it back, call the CA and the disk,
 and return at the first failure. Each method is proved to leave behind exactly
 what module Lifecycle says.
 */
module LifecycleService {
  import opened Basics
  import opened Lifecycle
  import Text
  import A = AcmeClient
  import S = CertStorage
  import C = CertStore

  lemma DedupStep(values: seq<string>, v: string)
    ensures Dedup(values + [v]) == if v in Dedup(values) then Dedup(values) else Dedup(values) + [v]
  {
    assert (values + [v])[..|values|] == values;
  }

  /** The values of one resolver's answer added to those seen before. */
  method AddAnswer(seen: seq<string>, texts: seq<string>, ghost all: seq<string>) returns (values: seq<string>)
    requires seen == Dedup(all)
    ensures values == Dedup(all + Trimmed(texts))
  {
    hide Text.TrimSpace, Dedup;
    values := seen;
    ghost var before := all;
    for i := 0 to |texts|
      invariant before == all + Trimmed(texts)[..i]
      invariant values == Dedup(before)
    {
      var trimmed := Text.TrimSpace(texts[i]);
      DedupStep(before, trimmed);
      before := before + [trimmed];
      if trimmed !in values {
        values := values + [trimmed];
      }
    }
    assert Trimmed(texts)[..|texts|] == Trimmed(texts);
  }

  lemma FlattenStep(answers: seq<Option<seq<string>>>, i: nat)
    requires i < |answers|
    ensures Flatten(answers[..i + 1]) ==
            if answers[i].Some? then Flatten(answers[..i]) + Trimmed(answers[i].value) else Flatten(answers[..i])
  {
    assert answers[..i + 1][..i] == answers[..i];
  }

  /** lookupACMETXTRecord: every resolver is asked, failures are skipped, duplicates are dropped. */
  method LookupTXT(answers: seq<Option<seq<string>>>) returns (values: seq<string>)
    ensures values == FoundValues(answers)
  {
    values := [];
    assert Dedup(Flatten(answers[..0])) == [];
    hide Trimmed, Dedup, Flatten;
    for i := 0 to |answers|
      invariant values == Dedup(Flatten(answers[..i]))
    {
      FlattenStep(answers, i);
      if answers[i].Some? {
        values := AddAnswer(values, answers[i].value, Flatten(answers[..i]));
      }
    }
    assert answers[..|answers|] == answers;
  }

  class Service {
    var domains: map<nat, Domain>
    var certs: map<nat, CertRow>
    var client: A.Client
    var disk: S.Disk
    var store: Option<C.Store>
    var nextId: nat
    ghost var log: seq<Event>

    ghost function Value(): World
      reads this
    {
      World(domains, certs, client, disk, store, nextId, log)
    }

    constructor (store: Option<C.Store>)
      ensures Value() == Fresh(store)
    {
      domains, certs, client, disk := map[], map[], A.NEW_CLIENT, S.EMPTY_DISK;
      this.store, nextId, log := store, 0, [];
    }

    // ------------------------------------------------------ domain manager

    method SetStatus(id: nat, status: Status, message: string, db: ReadWrite) returns (ok: bool)
      modifies this
      ensures Value() == UpdateStatus(old(Value()), id, status, message, db)
      ensures ok == (!status.NoStatus? && id in old(domains) && db.read && db.write)
    {
      if status.NoStatus? {
        return false;
      }
      if id !in domains || !db.read {
        return false;
      }
      var domain := domains[id];
      domain := domain.(status := status, errorMessage := message);
      if !status.Failed? {
        domain := domain.(errorMessage := "");
      }
      if !db.write {
        return false;
      }
      domains := domains[id := domain];
      ok := true;
    }

    method ActivateDomain(id: nat, db: ReadWrite)
      modifies this
      ensures Value() == Activate(old(Value()), id, db)
    {
      if id !in domains || !db.read {
        return;
      }
      var domain := domains[id];
      if !domain.status.CertificateIssued? {
        return;
      }
      domain := domain.(status := Active);
      domain := domain.(isActive := true, errorMessage := "");
      if db.write {
        domains := domains[id := domain];
      }
    }

    method HandleVerifyDNS(id: nat, e: VerifyDNSEnv)
      modifies this
      ensures Value() == VerifyDNS(old(Value()), id, e)
    {
      if id !in domains || !e.read {
        return;
      }
      var domain := domains[id];
      if !Legacy(domain) && !domain.status.PendingDNS? && !domain.status.Failed? {
        return;
      }
      if domain.dnsChallenge == "" {
        if e.legacy.read && e.token.Some? {
          var fresher := domains[id];
          fresher := fresher.(dnsChallenge := e.token.value, status := PendingDNS);
          if e.legacy.write {
            domains := domains[id := fresher];
          }
        }
        return;
      }
      if e.allVerified {
        log := log + [DnsPassed(id)];
        var _ := SetStatus(id, DNSVerified, "", e.status);
      }
    }

    method HandleRetry(id: nat, resetTo: string, read: bool, db: ReadWrite)
      modifies this
      ensures Value() == Retry(old(Value()), id, resetTo, read, db)
    {
      if id !in domains || !read {
        return;
      }
      var domain := domains[id];
      var newStatus := domain.status;
      match domain.status {
        case Failed =>
          if resetTo == "dns_verified" {
            newStatus := DNSVerified;
          } else if resetTo == "pending_dns" {
            newStatus := PendingDNS;
          } else if resetTo == "pending_acme_challenge" {
            newStatus := PendingACMEChallenge;
          } else if BlamesCertificate(domain.errorMessage) {
            newStatus := DNSVerified;
          } else {
            newStatus := PendingDNS;
          }
        case PendingDNS => newStatus := PendingDNS;
        case NoStatus => newStatus := PendingDNS;
        case PendingACMEChallenge => newStatus := DNSVerified;
        case PendingCertificate => newStatus := DNSVerified;
        case _ => return;
      }
      var _ := SetStatus(id, newStatus, "", db);
    }

    // ----------------------------------------------------- the challenge

    method RequestACMEChallengeFor(id: nat, e: RequestEnv)
      modifies this
      ensures Value() == RequestChallenge(old(Value()), id, e)
    {
      hide A.GetDNSChallenge;
      if id !in domains || !e.read {
        return;
      }
      var domain := domains[id];
      if !domain.status.DNSVerified? {
        return;
      }
      var (held, info) := A.GetDNSChallenge(client, domain.name, e.answers);
      client := held;
      if info.None? {
        return;
      }
      domain := domain.(token := info.value.token);
      domain := domain.(value := info.value.txtRecord);
      domain := domain.(expiresAt := Some(e.now + DAY));
      domain := domain.(dnsVerified := false);
      domain := domain.(status := PendingACMEChallenge);
      domain := domain.(errorMessage := "");
      if !e.write {
        return;
      }
      domains := domains[id := domain];
      log := log + [Stored(id, domain.value)];
    }

    method HandleVerifyACMEDNS(id: nat, e: VerifyEnv)
      modifies this
      ensures Value() == VerifyACMEDNS(old(Value()), id, e)
    {
      if id !in domains || !e.handlerRead || !HasChallenge(domains[id]) || !e.read {
        return;
      }
      var domain := domains[id];
      if Expired(domain, e.now) {
        domain := domain.(status := DNSVerified);
        if !e.reset {
          return;
        }
        domains := domains[id := domain];
        RequestACMEChallengeFor(id, e.renewal);
        return;
      }
      var foundValues := LookupTXT(e.answers);
      log := log + [Looked(id, foundValues)];
      var verified := false;
      var i := 0;
      while i < |foundValues| && !verified
        invariant 0 <= i <= |foundValues|
        invariant verified <==> domain.value in foundValues[..i]
        decreases |foundValues| - i
      {
        if foundValues[i] == domain.value {
          verified := true;
        }
        i := i + 1;
      }
      if verified {
        domain := domain.(dnsVerified := true);
        domain := domain.(status := ACMEChallengeReady);
        if e.write {
          domains := domains[id := domain];
        }
      }
    }

    method HandleGetACMEStatus(id: nat, e: StatusEnv)
      modifies this
      ensures Value() == GetACMEStatus(old(Value()), id, e)
    {
      if id !in domains || !e.handlerRead || !e.read {
        return;
      }
      var domain := domains[id];
      if domain.status.PendingACMEChallenge? && Expired(domain, e.now) {
        domain := domain.(status := DNSVerified);
        if !e.reset {
          return;
        }
        domains := domains[id := domain];
        RequestACMEChallengeFor(id, e.renewal);
      }
    }

    // ------------------------------------------------------ the submission

    method TriggerHotReload(name: string, parses: C.Parser)
      modifies this`store
      ensures Value() == Reloaded(old(Value()), name, parses)
    {
      if store.Some? {
        store := Some(C.HotReload(store.value, disk, name, parses));
      }
    }

    method ClearACMEChallenge(id: nat, db: ReadWrite)
      modifies this`domains
      ensures domains == if id in old(domains) && db.read && db.write
                         then old(domains)[id := Cleared(old(domains)[id])] else old(domains)
    {
      if id !in domains || !db.read {
        return;
      }
      var domain := domains[id];
      domain := domain.(token := "");
      domain := domain.(value := "");
      domain := domain.(expiresAt := None);
      domain := domain.(dnsVerified := false);
      if db.write {
        domains := domains[id := domain];
      }
    }

    /** The certificate row, the clearing of the challenge and the final write of the snapshot. */
    method RecordCertificate(id: nat, snapshot: Domain, bundle: A.Bundle, e: SubmitEnv) returns (ok: bool)
      requires id in domains
      modifies this
      ensures (Value(), ok) == FinishSubmission(old(Value()), id, snapshot, bundle, e)
    {
      if !e.row.read {
        return false;
      }
      var row;
      if id in certs {
        row := certs[id];
        row := row.(expiresAt := bundle.expiresAt);
      } else {
        row := CertRow(snapshot.name, bundle.expiresAt, true);
      }
      if !e.row.write {
        return false;
      }
      certs := certs[id := row];
      log := log + [RowWritten(id, bundle)];
      ghost var before := domains;
      ClearACMEChallenge(id, e.clear);
      var domain := snapshot.(status := CertificateIssued);
      domain := domain.(errorMessage := "");
      if !e.finish {
        return false;
      }
      domains := domains[id := domain];
      assert domains == before[id := domain];
      TriggerHotReload(domain.name, e.parses);
      ok := true;
    }

    method Submit(id: nat, e: SubmitEnv) returns (ok: bool)
      modifies this
      ensures (Value(), ok) == SubmitChallenge(old(Value()), id, e)
    {
      ok := false;
      if id !in domains || !e.read {
        return;
      }
      var domain := domains[id];
      if !domain.status.ACMEChallengeReady? || !domain.dnsVerified {
        return;
      }
      domain := domain.(status := PendingCertificate);
      if !e.mark {
        return;
      }
      domains := domains[id := domain];
      log := log + [Submitted(id, domain.value)];
      var completion := A.Complete(client, domain.name, e.validation);
      if completion.Crashed? {
        return;
      }
      if completion.Refused? {
        WriteFailure(id, domain, "ACME validation failed: " + e.detail, e.failWrite);
        return;
      }
      log := log + [Validated(id)];
      ok := Obtain(id, domain, e);
    }

    method WriteFailure(id: nat, snapshot: Domain, message: string, write: bool)
      modifies this`domains
      ensures Value() == Fail(old(Value()), id, snapshot, message, write)
    {
      var domain := snapshot.(status := Failed);
      domain := domain.(errorMessage := message);
      if write {
        domains := domains[id := domain];
      }
    }

    method Obtain(id: nat, domain: Domain, e: SubmitEnv) returns (ok: bool)
      requires id in domains
      modifies this
      ensures (Value(), ok) == ObtainCertificate(old(Value()), id, domain, e)
    {
      ok := false;
      var (held, bundle) := A.RequestCertificate(client, domain.name, e.issue);
      client := held;
      if bundle.None? {
        WriteFailure(id, domain, "Certificate request failed: " + e.detail, e.failWrite);
        return;
      }
      log := log + [Obtained(id, bundle.value)];
      disk := S.Save(disk, domain.name, bundle.value, e.save);
      if !S.SaveOk(domain.name, bundle.value, e.save) {
        WriteFailure(id, domain, "Certificate storage failed: " + e.detail, e.failWrite);
        return;
      }
      log := log + [Saved(id, bundle.value)];
      ok := RecordCertificate(id, domain, bundle.value, e);
    }

    method HandleSubmitACMEChallenge(id: nat, read: bool, e: SubmitEnv)
      modifies this
      ensures Value() == SubmitACMEChallenge(old(Value()), id, read, e)
    {
      if !read {
        return;
      }
      var ok := Submit(id, e);
      if ok && e.reread && id in domains && domains[id].status.CertificateIssued? {
        ActivateDomain(id, e.activate);
      }
    }

    // ---------------------------------------------------------- restart

    /** The start of a server on the tables and the disk of an earlier one. */
    method RestartServer(e: RestartEnv)
      modifies this
      ensures Value() == Restart(old(Value()), e)
    {
      client := A.NEW_CLIENT;
      store := None;
      if e.attached {
        var reloaded := new C.CertificateStore();
        var rows := if e.listed.Some? then Some(RowNames(certs, e.listed.value)) else None;
        var ok := reloaded.ReloadAll(rows, disk, e.parses);
        if ok {
          C.BuildIsReload(rows.value, disk, e.parses);
          C.ReloadUnique(reloaded.certificates, C.Build(rows.value, disk, e.parses), rows.value, disk, e.parses);
        }
        store := Some(C.Store(reloaded.certificates, reloaded.fallback));
      }
    }

    // ---------------------------------------------------------- renewal

    method Renew(id: nat, e: RenewEnv)
      modifies this
      ensures Value() == RenewCertificate(old(Value()), id, e)
    {
      hide A.GetDNSChallenge, A.Complete, A.RequestCertificate, S.Save, S.SaveOk;
      if id !in certs || !e.rowRead || id !in domains || !e.read {
        return;
      }
      var row := certs[id];
      var name := domains[id].name;
      var (ordered, info) := A.GetDNSChallenge(client, name, e.order);
      client := ordered;
      if info.None? || !A.Complete(client, name, e.validation).Succeeded? {
        return;
      }
      log := log + [Validated(id)];
      var (held, bundle) := A.RequestCertificate(client, name, e.issue);
      client := held;
      if bundle.None? {
        return;
      }
      log := log + [Obtained(id, bundle.value)];
      disk := S.Save(disk, name, bundle.value, e.save);
      if !S.SaveOk(name, bundle.value, e.save) {
        return;
      }
      log := log + [Saved(id, bundle.value)];
      row := row.(expiresAt := bundle.value.expiresAt);
      if !e.rowWrite {
        return;
      }
      certs := certs[id := row];
      log := log + [RowWritten(id, bundle.value)];
      TriggerHotReload(name, e.parses);
    }
  }
}
