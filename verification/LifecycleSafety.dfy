/**
 What every reachable state of the domain setup keeps, whatever failed on the
 way: a domain is ready to submit only after a lookup found the stored value,
 and it is issued, active or open for mail only with a certificate row that a
 full CA validation, issuance and disk save have earned.
 */
module LifecycleSafety {
  import opened Basics
  import opened Lifecycle
  import Text
  import A = AcmeClient
  import S = CertStorage
  import C = CertStore

  /** Some lookup for id returned v, and no new challenge was stored for id since. */
  ghost predicate Vouched(log: seq<Event>, id: nat, v: string) {
    exists j :: VouchedAt(log, id, v, j)
  }

  predicate VouchedAt(log: seq<Event>, id: nat, v: string, j: int) {
    && 0 <= j < |log| && log[j].Looked? && log[j].id == id && v in log[j].values
    && forall i :: j < i < |log| ==> !StoresFor(log[i], id)
  }

  predicate StoresFor(e: Event, id: nat) {
    e.Stored? && e.id == id
  }

  /** The row written at k was earned: validation, issuance and save of that very bundle come right before it. */
  predicate Earned(log: seq<Event>, k: int) {
    && 3 <= k < |log| && log[k].RowWritten?
    && log[k - 1] == Saved(log[k].id, log[k].bundle)
    && log[k - 2] == Obtained(log[k].id, log[k].bundle)
    && log[k - 3] == Validated(log[k].id)
  }

  /** Entry k of the history is justified by what came before it. */
  ghost predicate Justified(log: seq<Event>, k: int)
    requires 0 <= k < |log|
  {
    && (log[k].Stored? ==> DnsPassed(log[k].id) in log[..k])
    && (log[k].Submitted? ==> Vouched(log[..k], log[k].id, log[k].value))
    && (log[k].RowWritten? ==> Earned(log, k))
  }

  ghost predicate LogOk(log: seq<Event>) {
    forall k :: 0 <= k < |log| ==> Justified(log, k)
  }

  ghost predicate RowEarned(log: seq<Event>, id: nat, row: CertRow) {
    exists k :: Earned(log, k) && log[k].id == id && log[k].bundle.expiresAt == row.expiresAt
  }

  /** The record holds a challenge whose value a lookup can return. */
  predicate Findable(d: Domain) {
    HasChallenge(d) && Text.TrimSpace(d.value) == d.value
  }

  ghost predicate RecordOk(certs: map<nat, CertRow>, nextId: nat, log: seq<Event>, id: nat, d: Domain) {
    && id < nextId
    && (!d.status.PendingDNS? || HasChallenge(d) ==> DnsPassed(id) in log)
    && (d.status.ACMEChallengeReady? ==> d.dnsVerified && Findable(d) && Vouched(log, id, d.value))
    && (d.status.CertificateIssued? ==> Findable(d))
    && (d.status.CertificateIssued? || d.status.Active? || d.isActive ==> id in certs)
    && (d.status.Active? ==> d.isActive)
    && (id in certs ==> certs[id].domainName == d.name)
    && (d.status.Failed? ==> BlamesCertificate(d.errorMessage))
    && !d.status.NoStatus? && d.name != ""
  }

  /** The invariant of the tables and the history. */
  ghost predicate BooksOk(domains: map<nat, Domain>, certs: map<nat, CertRow>, nextId: nat, log: seq<Event>) {
    && LogOk(log)
    && (forall id :: id in domains ==> RecordOk(certs, nextId, log, id, domains[id]))
    && (forall id :: id in certs ==> id < nextId && RowEarned(log, id, certs[id]))
  }

  ghost predicate DomainOk(w: World, id: nat, d: Domain) {
    RecordOk(w.certs, w.nextId, w.log, id, d)
  }

  /** The ACME client, the disk and the SNI store are outside the invariant. */
  ghost predicate Inv(w: World) {
    BooksOk(w.domains, w.certs, w.nextId, w.log)
  }

  // --------------------------------------------------------- history lemmas

  /** An event that stores no challenge for id keeps the vouching lookup. */
  lemma VouchedStays(log: seq<Event>, e: Event, id: nat, v: string)
    requires Vouched(log, id, v) && !StoresFor(e, id)
    ensures Vouched(log + [e], id, v)
  {
    var j :| VouchedAt(log, id, v, j);
    assert VouchedAt(log + [e], id, v, j);
  }

  lemma RowEarnedStays(log: seq<Event>, e: Event, id: nat, row: CertRow)
    requires RowEarned(log, id, row)
    ensures RowEarned(log + [e], id, row)
  {
    var k :| Earned(log, k) && log[k].id == id && log[k].bundle.expiresAt == row.expiresAt;
    assert Earned(log + [e], k);
  }

  lemma LogOkExtends(log: seq<Event>, e: Event)
    requires LogOk(log)
    requires e.Stored? ==> DnsPassed(e.id) in log
    requires e.Submitted? ==> Vouched(log, e.id, e.value)
    requires e.RowWritten? ==> Earned(log + [e], |log|)
    ensures LogOk(log + [e])
  {
    var more := log + [e];
    forall k | 0 <= k < |more|
      ensures Justified(more, k)
    {
      if k < |log| {
        assert more[..k] == log[..k] && more[k] == log[k];
        assert Justified(log, k);
      } else {
        assert more[..k] == log;
      }
    }
  }

  /** Recording an event that stores nothing keeps the invariant. */
  lemma NoteKeeps(w: World, e: Event)
    requires Inv(w) && !e.Stored?
    requires e.Submitted? ==> Vouched(w.log, e.id, e.value)
    requires e.RowWritten? ==> Earned(w.log + [e], |w.log|)
    ensures Inv(Note(w, e))
  {
    LogOkExtends(w.log, e);
    forall id | id in w.domains
      ensures DomainOk(Note(w, e), id, w.domains[id])
    {
      if w.domains[id].status.ACMEChallengeReady? {
        VouchedStays(w.log, e, id, w.domains[id].value);
      }
    }
    forall id | id in w.certs
      ensures RowEarned(w.log + [e], id, w.certs[id])
    {
      RowEarnedStays(w.log, e, id, w.certs[id]);
    }
  }

  lemma PutKeeps(w: World, id: nat, d: Domain)
    requires Inv(w) && DomainOk(w, id, d)
    ensures Inv(Put(w, id, d))
  {
    forall other | other in Put(w, id, d).domains
      ensures DomainOk(Put(w, id, d), other, Put(w, id, d).domains[other])
    {
    }
  }

  /** Recording the challenge just written to a record. */
  lemma StoreKeeps(w: World, id: nat, v: string)
    requires Inv(w) && id in w.domains && w.domains[id].status.PendingACMEChallenge?
    ensures Inv(Note(w, Stored(id, v)))
  {
    var e := Stored(id, v);
    assert DomainOk(w, id, w.domains[id]);
    LogOkExtends(w.log, e);
    forall other | other in w.domains
      ensures DomainOk(Note(w, e), other, w.domains[other])
    {
      if w.domains[other].status.ACMEChallengeReady? {
        VouchedStays(w.log, e, other, w.domains[other].value);
      }
    }
    forall other | other in w.certs
      ensures RowEarned(w.log + [e], other, w.certs[other])
    {
      RowEarnedStays(w.log, e, other, w.certs[other]);
    }
  }

  // ---------------------------------------------------------- the endpoints

  /** A message that starts with one of the submission's prefixes blames the certificate. */
  lemma PrefixBlames(prefix: string, detail: string)
    requires prefix in ["ACME validation failed: ", "Certificate request failed: ", "Certificate storage failed: "]
    ensures BlamesCertificate(prefix + detail)
  {
    hide Text.Contains, Text.ToLower;
    if prefix == "ACME validation failed: " {
      LowerStart(prefix, detail, "acme");
    } else {
      LowerStart(prefix, detail, "certificate");
    }
  }

  lemma LowerStart(prefix: string, detail: string, word: string)
    requires |word| <= |prefix| && forall i :: 0 <= i < |word| ==> word[i] == Text.LowerChar(prefix[i])
    ensures Text.Contains(Text.ToLower(prefix + detail), word)
  {
    hide Text.LowerChar;
    assert Text.ToLower(prefix + detail)[..|word|] == word;
  }

  lemma RequestKeeps(w: World, id: nat, e: RequestEnv)
    requires Inv(w)
    ensures Inv(RequestChallenge(w, id, e))
  {
    if id in w.domains && e.read && w.domains[id].status.DNSVerified? {
      var d := w.domains[id];
      var (client, info) := A.GetDNSChallenge(w.client, d.name, e.answers);
      var asked := w.(client := client);
      if info.Some? && e.write {
        PutKeeps(asked, id, Challenged(d, info.value, e.now));
        StoreKeeps(Put(asked, id, Challenged(d, info.value, e.now)), id, info.value.txtRecord);
      }
    }
  }

  lemma RenewChallengeKeeps(w: World, id: nat, reset: bool, e: RequestEnv)
    requires Inv(w) && id in w.domains && (!w.domains[id].status.PendingDNS? || HasChallenge(w.domains[id]))
    ensures Inv(RenewChallenge(w, id, reset, e))
  {
    if reset {
      assert DomainOk(w, id, w.domains[id]);
      PutKeeps(w, id, w.domains[id].(status := DNSVerified));
      RequestKeeps(Put(w, id, w.domains[id].(status := DNSVerified)), id, e);
    }
  }

  lemma VerifyKeeps(w: World, id: nat, e: VerifyEnv)
    requires Inv(w)
    ensures Inv(VerifyACMEDNS(w, id, e))
  {
    if id in w.domains && e.handlerRead && e.read && HasChallenge(w.domains[id]) {
      var d := w.domains[id];
      if Expired(d, e.now) {
        RenewChallengeKeeps(w, id, e.reset, e.renewal);
      } else {
        var found := FoundValues(e.answers);
        NoteKeeps(w, Looked(id, found));
        var looked := Note(w, Looked(id, found));
        if d.value in found && e.write {
          assert VouchedAt(looked.log, id, d.value, |w.log|);
          FoundValuesMeans(e.answers, d.value);
          PutKeeps(looked, id, d.(dnsVerified := true, status := ACMEChallengeReady));
        }
      }
    }
  }

  /** d may be written back for id in any status short of ready, issued or active. */
  ghost predicate Snapshot(w: World, id: nat, d: Domain) {
    && DnsPassed(id) in w.log && id < w.nextId && Findable(d) && d.status.PendingCertificate? && d.name != ""
    && (d.isActive ==> id in w.certs) && (id in w.certs ==> w.certs[id].domainName == d.name)
  }

  lemma FailKeeps(w: World, id: nat, d: Domain, prefix: string, detail: string, write: bool)
    requires Inv(w) && Snapshot(w, id, d)
    requires prefix in ["ACME validation failed: ", "Certificate request failed: ", "Certificate storage failed: "]
    ensures Inv(Fail(w, id, d, prefix + detail, write))
  {
    PrefixBlames(prefix, detail);
    if write {
      PutKeeps(w, id, d.(status := Failed, errorMessage := prefix + detail));
    }
  }

  /** The history ends with id's validation; with the bundle obtained after it; with that bundle saved after it. */
  predicate JustValidated(log: seq<Event>, id: nat) {
    log != [] && log[|log| - 1] == Validated(id)
  }

  predicate JustObtained(log: seq<Event>, id: nat, b: A.Bundle) {
    |log| >= 2 && log[|log| - 2] == Validated(id) && log[|log| - 1] == Obtained(id, b)
  }

  predicate JustSaved(log: seq<Event>, id: nat, b: A.Bundle) {
    && |log| >= 3 && log[|log| - 3] == Validated(id)
    && log[|log| - 2] == Obtained(id, b) && log[|log| - 1] == Saved(id, b)
  }

  lemma ObtainedNext(log: seq<Event>, id: nat, b: A.Bundle)
    requires JustValidated(log, id)
    ensures JustObtained(log + [Obtained(id, b)], id, b)
  {
  }

  lemma SavedNext(log: seq<Event>, id: nat, b: A.Bundle)
    requires JustObtained(log, id, b)
    ensures JustSaved(log + [Saved(id, b)], id, b)
  {
  }

  lemma RowNext(log: seq<Event>, id: nat, row: CertRow, b: A.Bundle)
    requires JustSaved(log, id, b) && row.expiresAt == b.expiresAt
    ensures Earned(log + [RowWritten(id, b)], |log|) && RowEarned(log + [RowWritten(id, b)], id, row)
  {
    var more := log + [RowWritten(id, b)];
    assert Earned(more, |log|) && more[|log|].id == id && more[|log|].bundle.expiresAt == row.expiresAt;
  }

  lemma RowAdded(w: World, id: nat, row: CertRow)
    requires Inv(w) && id in w.domains && row.domainName == w.domains[id].name && RowEarned(w.log, id, row)
    ensures Inv(w.(certs := w.certs[id := row]))
  {
    hide LogOk, RowEarned, Vouched, Findable, BlamesCertificate;
    var t := w.(certs := w.certs[id := row]);
    forall other | other in t.domains
      ensures DomainOk(t, other, t.domains[other])
    {
      assert DomainOk(w, other, w.domains[other]);
    }
    assert id < t.nextId;
  }

  /** Writing the row that the last three events have earned. */
  lemma RowKeeps(w: World, id: nat, row: CertRow, b: A.Bundle)
    requires Inv(w) && id in w.domains
    requires row.expiresAt == b.expiresAt && row.domainName == w.domains[id].name
    requires JustSaved(w.log, id, b)
    ensures Inv(Note(w.(certs := w.certs[id := row]), RowWritten(id, b)))
  {
    hide BooksOk, Earned, RowEarned, JustSaved;
    RowNext(w.log, id, row, b);
    NoteKeeps(w, RowWritten(id, b));
    RowAdded(Note(w, RowWritten(id, b)), id, row);
  }

  /** The records a finished or half-finished submission may write back. */
  lemma SnapshotOk(w: World, id: nat, d: Domain)
    requires Snapshot(w, id, d) && id in w.certs
    ensures DomainOk(w, id, d.(status := CertificateIssued, errorMessage := ""))
    ensures DomainOk(w, id, Cleared(d))
  {
    hide Vouched, BlamesCertificate;
  }

  lemma FinishKeeps(w: World, id: nat, d: Domain, b: A.Bundle, e: SubmitEnv)
    requires Inv(w) && id in w.domains && w.domains[id] == d && Snapshot(w, id, d)
    requires JustSaved(w.log, id, b)
    ensures Inv(FinishSubmission(w, id, d, b, e).0)
  {
    hide BooksOk, RecordOk, JustSaved, Findable, C.HotReload;
    if e.row.read && e.row.write {
      var row := RowFor(w, id, d.name, b);
      RowKeeps(w, id, row, b);
      var rowed := Note(w.(certs := w.certs[id := row]), RowWritten(id, b));
      SnapshotOk(rowed, id, d);
      PutKeeps(rowed, id, d.(status := CertificateIssued, errorMessage := ""));
      PutKeeps(rowed, id, Cleared(d));
    }
  }

  lemma SubmitKeeps(w: World, id: nat, e: SubmitEnv)
    requires Inv(w)
    ensures Inv(SubmitChallenge(w, id, e).0)
  {
    if id in w.domains && e.read && w.domains[id].status.ACMEChallengeReady? && w.domains[id].dnsVerified && e.mark {
      var d := w.domains[id].(status := PendingCertificate);
      assert DomainOk(w, id, w.domains[id]) && DomainOk(w, id, d) && Snapshot(w, id, d);
      hide BooksOk, RecordOk, ObtainCertificate, Fail, A.Complete;
      PutKeeps(w, id, d);
      NoteKeeps(Put(w, id, d), Submitted(id, d.value));
      var marked := Note(Put(w, id, d), Submitted(id, d.value));
      match A.Complete(marked.client, d.name, e.validation) {
        case Crashed =>
        case Refused => FailKeeps(marked, id, d, "ACME validation failed: ", e.detail, e.failWrite);
        case Succeeded =>
          NoteKeeps(marked, Validated(id));
          ObtainKeeps(Note(marked, Validated(id)), id, d, e);
      }
    }
  }

  lemma TakeKeeps(w: World, bundle: Option<A.Bundle>, id: nat, d: Domain, e: SubmitEnv)
    requires Inv(w) && id in w.domains && w.domains[id] == d && Snapshot(w, id, d)
    requires JustValidated(w.log, id)
    ensures Inv(TakeCertificate(w, bundle, id, d, e).0)
  {
    hide StoreCertificate, BooksOk, Fail;
    if bundle.None? {
      FailKeeps(w, id, d, "Certificate request failed: ", e.detail, e.failWrite);
    } else {
      var b := bundle.value;
      NoteKeeps(w, Obtained(id, b));
      ObtainedNext(w.log, id, b);
      StoreCertificateKeeps(Note(w, Obtained(id, b)), id, d, b, e);
    }
  }

  lemma ObtainKeeps(w: World, id: nat, d: Domain, e: SubmitEnv)
    requires Inv(w) && id in w.domains && w.domains[id] == d && Snapshot(w, id, d)
    requires JustValidated(w.log, id)
    ensures Inv(ObtainCertificate(w, id, d, e).0)
  {
    var (client, bundle) := A.RequestCertificate(w.client, d.name, e.issue);
    TakeKeeps(w.(client := client), bundle, id, d, e);
  }

  lemma StoreCertificateKeeps(w: World, id: nat, d: Domain, b: A.Bundle, e: SubmitEnv)
    requires Inv(w) && id in w.domains && w.domains[id] == d && Snapshot(w, id, d)
    requires JustObtained(w.log, id, b)
    ensures Inv(StoreCertificate(w, id, d, b, e).0)
  {
    hide BooksOk, FinishSubmission, Fail, S.Save, S.SaveOk, JustObtained, JustSaved;
    var saved := w.(disk := S.Save(w.disk, d.name, b, e.save));
    if S.SaveOk(d.name, b, e.save) {
      NoteKeeps(saved, Saved(id, b));
      SavedNext(w.log, id, b);
      FinishKeeps(Note(saved, Saved(id, b)), id, d, b, e);
    } else {
      FailKeeps(saved, id, d, "Certificate storage failed: ", e.detail, e.failWrite);
    }
  }

  lemma RenewKeeps(w: World, id: nat, e: RenewEnv)
    requires Inv(w)
    ensures Inv(RenewCertificate(w, id, e))
  {
    hide A.GetDNSChallenge, A.RequestCertificate, A.Complete, Replace, BooksOk;
    if id in w.certs && id in w.domains && e.rowRead && e.read {
      var name := w.domains[id].name;
      var (ordered, info) := A.GetDNSChallenge(w.client, name, e.order);
      if info.Some? && A.Complete(ordered, name, e.validation).Succeeded? {
        var (client, bundle) := A.RequestCertificate(ordered, name, e.issue);
        NoteKeeps(w.(client := client), Validated(id));
        ReplaceKeeps(Note(w.(client := client), Validated(id)), bundle, id, name, e);
      }
    }
  }

  lemma ReplaceKeeps(w: World, bundle: Option<A.Bundle>, id: nat, name: string, e: RenewEnv)
    requires Inv(w) && id in w.domains && w.domains[id].name == name
    requires JustValidated(w.log, id)
    ensures Inv(Replace(w, bundle, id, name, e))
  {
    hide BooksOk, ReplaceRow, S.Save, S.SaveOk, JustValidated, JustObtained, JustSaved;
    if bundle.Some? {
      var b := bundle.value;
      var stored := w.(disk := S.Save(w.disk, name, b, e.save));
      NoteKeeps(stored, Obtained(id, b));
      var obtained := Note(stored, Obtained(id, b));
      NoteKeeps(obtained, Saved(id, b));
      ObtainedNext(w.log, id, b);
      SavedNext(obtained.log, id, b);
      ReplaceRowKeeps(Note(obtained, Saved(id, b)), b, id, name, e);
    }
  }

  lemma ReplaceRowKeeps(w: World, b: A.Bundle, id: nat, name: string, e: RenewEnv)
    requires Inv(w) && id in w.domains && w.domains[id].name == name
    requires JustSaved(w.log, id, b)
    ensures Inv(ReplaceRow(w, b, id, name, e))
  {
    assert DomainOk(w, id, w.domains[id]);
    RowKeeps(w, id, RowFor(w, id, name, b), b);
    var rowed := Note(w.(certs := w.certs[id := RowFor(w, id, name, b)]), RowWritten(id, b));
  }

  lemma CreateKeeps(w: World, name: string, token: Option<string>, inserted: bool)
    requires Inv(w)
    ensures Inv(CreateDomain(w, name, token, inserted))
  {
    var t := CreateDomain(w, name, token, inserted);
    forall id | id in t.domains
      ensures DomainOk(t, id, t.domains[id])
    {
      if id in w.domains && id != w.nextId {
        assert DomainOk(w, id, w.domains[id]);
      }
    }
  }

  lemma DeleteKeeps(w: World, id: nat, deleted: bool)
    requires Inv(w)
    ensures Inv(DeleteDomain(w, id, deleted))
  {
    var t := DeleteDomain(w, id, deleted);
    forall other | other in t.domains
      ensures DomainOk(t, other, t.domains[other])
    {
      assert DomainOk(w, other, w.domains[other]);
    }
  }

  lemma VerifyDNSKeeps(w: World, id: nat, e: VerifyDNSEnv)
    requires Inv(w)
    ensures Inv(VerifyDNS(w, id, e))
  {
    if id in w.domains {
      var d := w.domains[id];
      assert DomainOk(w, id, d);
      NoteKeeps(w, DnsPassed(id));
      PutKeeps(Note(w, DnsPassed(id)), id, d.(status := DNSVerified, errorMessage := ""));
      if e.token.Some? {
        PutKeeps(w, id, d.(dnsChallenge := e.token.value, status := PendingDNS));
      }
    }
  }

  lemma RetryKeeps(w: World, id: nat, resetTo: string, read: bool, db: ReadWrite)
    requires Inv(w)
    ensures Inv(Retry(w, id, resetTo, read, db))
  {
    if id in w.domains {
      var target := RetryTarget(w.domains[id], resetTo);
      assert DomainOk(w, id, w.domains[id]);
      if target.Some? {
        assert target.value in [DNSVerified, PendingDNS, PendingACMEChallenge];
        PutKeeps(w, id, w.domains[id].(status := target.value, errorMessage := ""));
      }
    }
  }

  lemma SubmitEndpointKeeps(w: World, id: nat, read: bool, e: SubmitEnv)
    requires Inv(w)
    ensures Inv(SubmitACMEChallenge(w, id, read, e))
  {
    SubmitKeeps(w, id, e);
    var t := SubmitChallenge(w, id, e).0;
    if id in t.domains && t.domains[id].status.CertificateIssued? {
      assert DomainOk(t, id, t.domains[id]);
      PutKeeps(t, id, t.domains[id].(status := Active, isActive := true, errorMessage := ""));
    }
  }

  lemma StepKeeps(w: World, call: Call)
    requires Inv(w)
    ensures Inv(Step(w, call))
  {
    match call
    case CallCreate(name, token, inserted) => CreateKeeps(w, name, token, inserted);
    case CallDelete(id, deleted) => DeleteKeeps(w, id, deleted);
    case CallVerifyDNS(id, e) => VerifyDNSKeeps(w, id, e);
    case CallRetry(id, resetTo, read, db) => RetryKeeps(w, id, resetTo, read, db);
    case CallRequest(id, read, e) => RequestKeeps(w, id, e);
    case CallVerify(id, e) => VerifyKeeps(w, id, e);
    case CallStatus(id, e) =>
      if id in w.domains && w.domains[id].status.PendingACMEChallenge? {
        RenewChallengeKeeps(w, id, e.reset, e.renewal);
      }
    case CallSubmit(id, read, e) => SubmitEndpointKeeps(w, id, read, e);
    case CallRenew(id, e) => RenewKeeps(w, id, e);
    case CallRestart(e) =>
  }

  lemma {:induction false} RunKeeps(w: World, calls: seq<Call>)
    requires Inv(w)
    ensures Inv(Run(w, calls))
    decreases |calls|
  {
    if calls != [] {
      StepKeeps(w, calls[0]);
      RunKeeps(Step(w, calls[0]), calls[1..]);
    }
  }

  // ------------------------------------------------------------- the claims

  /**
   From an empty database, in every run: a domain past pending_dns, or with a
   challenge on record, has passed the DNS verification, and every challenge
   ever stored was stored after that.
   */
  lemma NothingPastUnverifiedDNS(store: Option<C.Store>, calls: seq<Call>)
    ensures var w := Run(Fresh(store), calls);
            && (forall id :: id in w.domains && (!w.domains[id].status.PendingDNS? || HasChallenge(w.domains[id])) ==>
                  DnsPassed(id) in w.log)
            && (forall k :: 0 <= k < |w.log| && w.log[k].Stored? ==> DnsPassed(w.log[k].id) in w.log[..k])
  {
    RunKeeps(Fresh(store), calls);
    var w := Run(Fresh(store), calls);
    forall k | 0 <= k < |w.log| && w.log[k].Stored?
      ensures DnsPassed(w.log[k].id) in w.log[..k]
    {
      assert Justified(w.log, k);
    }
  }

  /**
   From an empty database, in every run: a domain ready to submit has its flag,
   its challenge, and a past lookup that returned exactly the value still
   stored with no challenge stored since; and every submission to the CA came
   after such a lookup.
   */
  lemma ReadyMeansLookedUp(store: Option<C.Store>, calls: seq<Call>)
    ensures var w := Run(Fresh(store), calls);
            && (forall id :: id in w.domains && w.domains[id].status.ACMEChallengeReady? ==>
                  w.domains[id].dnsVerified && HasChallenge(w.domains[id]) && Vouched(w.log, id, w.domains[id].value))
            && (forall k :: 0 <= k < |w.log| && w.log[k].Submitted? ==>
                  Vouched(w.log[..k], w.log[k].id, w.log[k].value))
  {
    RunKeeps(Fresh(store), calls);
    var w := Run(Fresh(store), calls);
    forall k | 0 <= k < |w.log| && w.log[k].Submitted?
      ensures Vouched(w.log[..k], w.log[k].id, w.log[k].value)
    {
      assert Justified(w.log, k);
    }
  }

  /**
   From an empty database, in every run: a domain that is issued, active or
   open for mail has a certificate row under its name, an active one is open
   for mail, and every row on the table was written right after validation,
   issuance and save of its bundle.
   */
  lemma ActiveMeansCertified(store: Option<C.Store>, calls: seq<Call>)
    ensures var w := Run(Fresh(store), calls);
            && (forall id :: id in w.domains
                  && (w.domains[id].status.CertificateIssued? || w.domains[id].status.Active? || w.domains[id].isActive)
                  ==> id in w.certs && w.certs[id].domainName == w.domains[id].name)
            && (forall id :: id in w.domains && w.domains[id].status.Active? ==> w.domains[id].isActive)
            && (forall id :: id in w.certs ==> RowEarned(w.log, id, w.certs[id]))
  {
    RunKeeps(Fresh(store), calls);
    var w := Run(Fresh(store), calls);
    forall id | id in w.domains
      ensures DomainOk(w, id, w.domains[id])
    {
    }
  }

  lemma BlamedGoesBack(d: Domain, resetTo: string)
    requires d.status.Failed? && BlamesCertificate(d.errorMessage)
    requires resetTo != "pending_dns" && resetTo != "pending_acme_challenge"
    ensures RetryTarget(d, resetTo) == Some(DNSVerified)
  {
  }

  /** In every run, a retry of a failed domain without a target goes back to dns_verified. */
  lemma DefaultRetryKeepsDNS(store: Option<C.Store>, calls: seq<Call>, id: nat, resetTo: string)
    requires id in Run(Fresh(store), calls).domains && Run(Fresh(store), calls).domains[id].status.Failed?
    requires resetTo != "pending_dns" && resetTo != "pending_acme_challenge"
    ensures RetryTarget(Run(Fresh(store), calls).domains[id], resetTo) == Some(DNSVerified)
  {
    RunKeeps(Fresh(store), calls);
    var w := Run(Fresh(store), calls);
    assert RecordOk(w.certs, w.nextId, w.log, id, w.domains[id]);
    BlamedGoesBack(w.domains[id], resetTo);
  }
}
