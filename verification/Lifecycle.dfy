/**
 The setup of a mail domain, from its creation to `active`: DNS verification,
 the ACME challenge, submission to the CA, the certificate row and activation.

 Every endpoint is one step. The outside world is an argument: whether each
 database call works, what the resolvers and the CA answer, what the disk does,
 what time it is. A record read from the table is a copy, and an update writes
 the whole copy back.

 The functions here say what each endpoint leaves behind; module
 LifecycleService holds the code that does it, statement by statement.
 */
module Lifecycle {
  import opened Basics
  import Text
  import A = AcmeClient
  import S = CertStorage
  import C = CertStore

  datatype Status =
    | NoStatus
    | PendingDNS
    | DNSVerified
    | PendingACMEChallenge
    | ACMEChallengeReady
    | PendingCertificate
    | CertificateIssued
    | Active
    | Failed

  datatype Domain = Domain(
    name: string, isActive: bool, status: Status, dnsChallenge: string, errorMessage: string,
    token: string, value: string, expiresAt: Option<Time>, dnsVerified: bool)

  datatype CertRow = CertRow(domainName: string, expiresAt: Time, autoRenew: bool)

  /** What happened, in order. */
  datatype Event =
    | DnsPassed(id: nat)
    | Looked(id: nat, values: seq<string>)
    | Stored(id: nat, value: string)
    | Submitted(id: nat, value: string)
    | Validated(id: nat)
    | Obtained(id: nat, bundle: A.Bundle)
    | Saved(id: nat, bundle: A.Bundle)
    | RowWritten(id: nat, bundle: A.Bundle)

  /** The tables, the ACME client, the disk, the SNI store if one is attached, and the history. */
  datatype World = World(
    domains: map<nat, Domain>, certs: map<nat, CertRow>, client: A.Client, disk: S.Disk,
    store: Option<C.Store>, nextId: nat, log: seq<Event>)

  function Fresh(store: Option<C.Store>): World {
    World(map[], map[], A.NEW_CLIENT, S.EMPTY_DISK, store, 0, [])
  }

  const DAY: Time := 86400

  function Put(w: World, id: nat, d: Domain): World {
    w.(domains := w.domains[id := d])
  }

  function Note(w: World, e: Event): World {
    w.(log := w.log + [e])
  }

  /** A read followed by a write of the same record; either may fail. */
  datatype ReadWrite = ReadWrite(read: bool, write: bool)

  // ------------------------------------------------------------ pure parts

  predicate Expired(d: Domain, now: Time) {
    d.expiresAt.Some? && now > d.expiresAt.value
  }

  predicate HasChallenge(d: Domain) {
    d.token != "" && d.value != ""
  }

  predicate Legacy(d: Domain) {
    d.status.NoStatus? || (d.isActive && !d.status.Active?)
  }

  /** An error message that Retry reads as a certificate problem. */
  predicate BlamesCertificate(message: string) {
    var m := Text.ToLower(message);
    Text.Contains(m, "acme") || Text.Contains(m, "certificate")
    || Text.Contains(m, "dns txt") || Text.Contains(m, "_acme-challenge")
  }

  /** The status Retry writes; None when it only reports. */
  function RetryTarget(d: Domain, resetTo: string): Option<Status> {
    match d.status
    case Failed =>
      if resetTo == "dns_verified" then Some(DNSVerified)
      else if resetTo == "pending_dns" then Some(PendingDNS)
      else if resetTo == "pending_acme_challenge" then Some(PendingACMEChallenge)
      else if BlamesCertificate(d.errorMessage) then Some(DNSVerified)
      else Some(PendingDNS)
    case PendingDNS | NoStatus => Some(PendingDNS)
    case PendingACMEChallenge | PendingCertificate => Some(DNSVerified)
    case DNSVerified | ACMEChallengeReady | CertificateIssued | Active => None
  }

  /** The texts all resolvers answered, trimmed, in order. */
  function Flatten(answers: seq<Option<seq<string>>>): seq<string> {
    if answers == [] then []
    else
      var n := |answers| - 1;
      Flatten(answers[..n]) + (if answers[n].Some? then Trimmed(answers[n].value) else [])
  }

  function Trimmed(texts: seq<string>): seq<string> {
    seq(|texts|, i requires 0 <= i < |texts| => Text.TrimSpace(texts[i]))
  }

  /** First occurrences only. */
  function Dedup(values: seq<string>): seq<string> {
    if values == [] then []
    else
      var n := |values| - 1;
      var before := Dedup(values[..n]);
      if values[n] in before then before else before + [values[n]]
  }

  function FoundValues(answers: seq<Option<seq<string>>>): seq<string> {
    Dedup(Flatten(answers))
  }

  lemma {:induction false} DedupMeans(values: seq<string>)
    ensures forall v :: v in Dedup(values) <==> v in values
    ensures forall i, j :: 0 <= i < j < |Dedup(values)| ==> Dedup(values)[i] != Dedup(values)[j]
    decreases |values|
  {
    if values != [] {
      var n := |values| - 1;
      DedupMeans(values[..n]);
      assert values == values[..n] + [values[n]];
    }
  }

  /** Resolver i answered, and v is one of its texts, trimmed. */
  predicate AnsweredBy(answers: seq<Option<seq<string>>>, i: int, v: string) {
    0 <= i < |answers| && answers[i].Some? && v in Trimmed(answers[i].value)
  }

  lemma {:induction false} FlattenMeans(answers: seq<Option<seq<string>>>, v: string)
    ensures v in Flatten(answers) <==> exists i :: AnsweredBy(answers, i, v)
    decreases |answers|
  {
    hide Trimmed;
    if answers != [] {
      var n := |answers| - 1;
      FlattenMeans(answers[..n], v);
      assert v in Flatten(answers) <==> v in Flatten(answers[..n]) || AnsweredBy(answers, n, v);
      forall i
        ensures AnsweredBy(answers, i, v) <==> AnsweredBy(answers[..n], i, v) || (i == n && AnsweredBy(answers, n, v))
      {
      }
    }
  }

  /**
   The values found are the trimmed texts of all resolvers that answered, each
   once; so a value with outer white space is never found.
   */
  lemma FoundValuesMeans(answers: seq<Option<seq<string>>>, v: string)
    ensures v in FoundValues(answers) <==> exists i :: AnsweredBy(answers, i, v)
    ensures forall i, j :: 0 <= i < j < |FoundValues(answers)| ==> FoundValues(answers)[i] != FoundValues(answers)[j]
    ensures v in FoundValues(answers) ==> Text.TrimSpace(v) == v
  {
    DedupMeans(Flatten(answers));
    FlattenMeans(answers, v);
    if v in FoundValues(answers) {
      var i :| AnsweredBy(answers, i, v);
      var k :| 0 <= k < |Trimmed(answers[i].value)| && Trimmed(answers[i].value)[k] == v;
      Text.TrimSpaceTwice(answers[i].value[k]);
    }
  }

  // ------------------------------------------------------- creation, status

  function CreateDomain(w: World, name: string, token: Option<string>, inserted: bool): World {
    var clean := Text.TrimSpace(Text.ToLower(name));
    if clean == "" || token.None? || !inserted || (exists i :: i in w.domains && w.domains[i].name == clean) then w
    else
      Put(w, w.nextId, Domain(clean, false, PendingDNS, token.value, "", "", "", None, false)).(nextId := w.nextId + 1)
  }

  function DeleteDomain(w: World, id: nat, deleted: bool): World {
    if deleted then w.(domains := w.domains - {id}, certs := w.certs - {id}) else w
  }

  function UpdateStatus(w: World, id: nat, status: Status, message: string, db: ReadWrite): World {
    if !status.NoStatus? && id in w.domains && db.read && db.write
    then Put(w, id, w.domains[id].(status := status, errorMessage := if status.Failed? then message else ""))
    else w
  }

  datatype VerifyDNSEnv = VerifyDNSEnv(
    read: bool, token: Option<string>, legacy: ReadWrite, allVerified: bool, status: ReadWrite)

  function VerifyDNS(w: World, id: nat, e: VerifyDNSEnv): World {
    if id !in w.domains || !e.read then w
    else
      var d := w.domains[id];
      if !Legacy(d) && !d.status.PendingDNS? && !d.status.Failed? then w
      else if d.dnsChallenge == "" then
        if e.legacy.read && e.token.Some? && e.legacy.write
        then Put(w, id, d.(dnsChallenge := e.token.value, status := PendingDNS)) else w
      else if e.allVerified then UpdateStatus(Note(w, DnsPassed(id)), id, DNSVerified, "", e.status)
      else w
  }

  function Retry(w: World, id: nat, resetTo: string, read: bool, db: ReadWrite): World {
    if id !in w.domains || !read then w
    else
      var target := RetryTarget(w.domains[id], resetTo);
      if target.None? then w else UpdateStatus(w, id, target.value, "", db)
  }

  // ------------------------------------------------------------- challenge

  datatype RequestEnv = RequestEnv(read: bool, answers: A.OrderAnswers, now: Time, write: bool)

  function Challenged(d: Domain, info: A.ChallengeInfo, now: Time): Domain {
    d.(token := info.token, value := info.txtRecord, expiresAt := Some(now + DAY), dnsVerified := false,
       status := PendingACMEChallenge, errorMessage := "")
  }

  /** The client may hold a new challenge even when the record does not. */
  function RequestChallenge(w: World, id: nat, e: RequestEnv): World {
    if id !in w.domains || !e.read || !w.domains[id].status.DNSVerified? then w
    else
      var d := w.domains[id];
      var (client, info) := A.GetDNSChallenge(w.client, d.name, e.answers);
      var asked := w.(client := client);
      if info.Some? && e.write
      then Note(Put(asked, id, Challenged(d, info.value, e.now)), Stored(id, info.value.txtRecord))
      else asked
  }

  /** An expired challenge: back to dns_verified, then a new request. */
  function RenewChallenge(w: World, id: nat, reset: bool, e: RequestEnv): World {
    if id in w.domains && reset
    then RequestChallenge(Put(w, id, w.domains[id].(status := DNSVerified)), id, e)
    else w
  }

  function RequestACMEChallenge(w: World, id: nat, read: bool, e: RequestEnv): World {
    if read then RequestChallenge(w, id, e) else w
  }

  datatype VerifyEnv = VerifyEnv(
    handlerRead: bool, read: bool, now: Time, reset: bool, renewal: RequestEnv,
    answers: seq<Option<seq<string>>>, write: bool)

  function VerifyACMEDNS(w: World, id: nat, e: VerifyEnv): World {
    if id !in w.domains || !e.handlerRead || !e.read || !HasChallenge(w.domains[id]) then w
    else
      var d := w.domains[id];
      if Expired(d, e.now) then RenewChallenge(w, id, e.reset, e.renewal)
      else
        var found := FoundValues(e.answers);
        var looked := Note(w, Looked(id, found));
        if d.value in found && e.write
        then Put(looked, id, d.(dnsVerified := true, status := ACMEChallengeReady)) else looked
  }

  datatype StatusEnv = StatusEnv(handlerRead: bool, read: bool, now: Time, reset: bool, renewal: RequestEnv)

  function GetACMEStatus(w: World, id: nat, e: StatusEnv): World {
    if id in w.domains && e.handlerRead && e.read
       && w.domains[id].status.PendingACMEChallenge? && Expired(w.domains[id], e.now)
    then RenewChallenge(w, id, e.reset, e.renewal)
    else w
  }

  // ------------------------------------------------------------ submission

  datatype SubmitEnv = SubmitEnv(
    read: bool, mark: bool, validation: A.ValidationAnswers, detail: string, failWrite: bool,
    issue: A.IssueAnswers, save: S.SaveFaults, row: ReadWrite, clear: ReadWrite, finish: bool,
    parses: C.Parser, reread: bool, activate: ReadWrite)

  function Cleared(d: Domain): Domain {
    d.(token := "", value := "", expiresAt := None, dnsVerified := false)
  }

  function Fail(w: World, id: nat, d: Domain, message: string, write: bool): World {
    if write then Put(w, id, d.(status := Failed, errorMessage := message)) else w
  }

  function Reloaded(w: World, name: string, parses: C.Parser): World {
    if w.store.Some? then w.(store := Some(C.HotReload(w.store.value, w.disk, name, parses))) else w
  }

  /** The certificate row for a saved bundle; an existing row keeps its name and its renewal flag. */
  function RowFor(w: World, id: nat, name: string, b: A.Bundle): CertRow {
    if id in w.certs then w.certs[id].(expiresAt := b.expiresAt) else CertRow(name, b.expiresAt, true)
  }

  /** Row, clearing, final status. The final write puts the snapshot's challenge back. */
  function FinishSubmission(w: World, id: nat, d: Domain, b: A.Bundle, e: SubmitEnv): (World, bool) {
    if !e.row.read || !e.row.write then (w, false)
    else
      var rowed := Note(w.(certs := w.certs[id := RowFor(w, id, d.name, b)]), RowWritten(id, b));
      if e.finish
      then (Reloaded(Put(rowed, id, d.(status := CertificateIssued, errorMessage := "")), d.name, e.parses), true)
      else if id in rowed.domains && e.clear.read && e.clear.write
      then (Put(rowed, id, Cleared(rowed.domains[id])), false)
      else (rowed, false)
  }

  function StoreCertificate(w: World, id: nat, d: Domain, b: A.Bundle, e: SubmitEnv): (World, bool) {
    var saved := w.(disk := S.Save(w.disk, d.name, b, e.save));
    if S.SaveOk(d.name, b, e.save) then FinishSubmission(Note(saved, Saved(id, b)), id, d, b, e)
    else (Fail(saved, id, d, "Certificate storage failed: " + e.detail, e.failWrite), false)
  }

  /** w with what the client holds after the request, and the bundle it returned. */
  function TakeCertificate(w: World, bundle: Option<A.Bundle>, id: nat, d: Domain, e: SubmitEnv): (World, bool) {
    if bundle.Some? then StoreCertificate(Note(w, Obtained(id, bundle.value)), id, d, bundle.value, e)
    else (Fail(w, id, d, "Certificate request failed: " + e.detail, e.failWrite), false)
  }

  function ObtainCertificate(w: World, id: nat, d: Domain, e: SubmitEnv): (World, bool) {
    var (client, bundle) := A.RequestCertificate(w.client, d.name, e.issue);
    TakeCertificate(w.(client := client), bundle, id, d, e)
  }

  function SubmitChallenge(w: World, id: nat, e: SubmitEnv): (World, bool) {
    if id !in w.domains || !e.read || !w.domains[id].status.ACMEChallengeReady? || !w.domains[id].dnsVerified || !e.mark
    then (w, false)
    else
      var d := w.domains[id].(status := PendingCertificate);
      var marked := Note(Put(w, id, d), Submitted(id, d.value));
      match A.Complete(marked.client, d.name, e.validation)
      case Crashed => (marked, false)
      case Refused => (Fail(marked, id, d, "ACME validation failed: " + e.detail, e.failWrite), false)
      case Succeeded => ObtainCertificate(Note(marked, Validated(id)), id, d, e)
  }

  function Activate(w: World, id: nat, db: ReadWrite): World {
    if id in w.domains && db.read && db.write && w.domains[id].status.CertificateIssued?
    then Put(w, id, w.domains[id].(status := Active, isActive := true, errorMessage := ""))
    else w
  }

  function SubmitACMEChallenge(w: World, id: nat, read: bool, e: SubmitEnv): World {
    if !read then w
    else
      var (submitted, ok) := SubmitChallenge(w, id, e);
      if ok && e.reread then Activate(submitted, id, e.activate) else submitted
  }

  // --------------------------------------------------------------- renewal

  datatype RenewEnv = RenewEnv(
    rowRead: bool, read: bool, order: A.OrderAnswers, validation: A.ValidationAnswers, issue: A.IssueAnswers,
    save: S.SaveFaults, rowWrite: bool, parses: C.Parser)

  function RenewCertificate(w: World, id: nat, e: RenewEnv): World {
    if id !in w.certs || id !in w.domains || !e.rowRead || !e.read then w
    else
      var name := w.domains[id].name;
      var (ordered, info) := A.GetDNSChallenge(w.client, name, e.order);
      if info.None? || !A.Complete(ordered, name, e.validation).Succeeded? then w.(client := ordered)
      else
        var (client, bundle) := A.RequestCertificate(ordered, name, e.issue);
        Replace(Note(w.(client := client), Validated(id)), bundle, id, name, e)
  }

  /** The renewal from the CA's answer on. */
  function Replace(w: World, bundle: Option<A.Bundle>, id: nat, name: string, e: RenewEnv): World {
    if bundle.None? then w
    else
      var b := bundle.value;
      var stored := Note(w.(disk := S.Save(w.disk, name, b, e.save)), Obtained(id, b));
      if S.SaveOk(name, b, e.save) then ReplaceRow(Note(stored, Saved(id, b)), b, id, name, e) else stored
  }

  function ReplaceRow(w: World, b: A.Bundle, id: nat, name: string, e: RenewEnv): World {
    if e.rowWrite
    then Reloaded(Note(w.(certs := w.certs[id := RowFor(w, id, name, b)]), RowWritten(id, b)), name, e.parses)
    else w
  }

  // --------------------------------------------------------------- restart

  /** The domain names of the certificate rows, in the order the database lists them. */
  function RowNames(certs: map<nat, CertRow>, order: seq<nat>): seq<string> {
    if order == [] then []
    else (if order[0] in certs then [certs[order[0]].domainName] else []) + RowNames(certs, order[1..])
  }

  /**
   What a restart makes of its surroundings: a store or none, and the order of
   the rows or None if they cannot be read.
   */
  datatype RestartEnv = RestartEnv(attached: bool, listed: Option<seq<nat>>, parses: C.Parser)

  /** The tables and the disk stay; the client starts anew and the store is loaded from the rows. */
  function Restart(w: World, e: RestartEnv): World {
    var certificates := if e.listed.Some? then C.Build(RowNames(w.certs, e.listed.value), w.disk, e.parses) else map[];
    w.(client := A.NEW_CLIENT, store := if e.attached then Some(C.Store(certificates, None)) else None)
  }

  // ------------------------------------------------------------------ runs

  datatype Call =
    | CallCreate(name: string, token: Option<string>, inserted: bool)
    | CallDelete(id: nat, deleted: bool)
    | CallVerifyDNS(id: nat, dns: VerifyDNSEnv)
    | CallRetry(id: nat, resetTo: string, read: bool, db: ReadWrite)
    | CallRequest(id: nat, read: bool, request: RequestEnv)
    | CallVerify(id: nat, verify: VerifyEnv)
    | CallStatus(id: nat, status: StatusEnv)
    | CallSubmit(id: nat, read: bool, submit: SubmitEnv)
    | CallRenew(id: nat, renew: RenewEnv)
    | CallRestart(restart: RestartEnv)

  function Step(w: World, call: Call): World {
    match call
    case CallCreate(name, token, inserted) => CreateDomain(w, name, token, inserted)
    case CallDelete(id, deleted) => DeleteDomain(w, id, deleted)
    case CallVerifyDNS(id, e) => VerifyDNS(w, id, e)
    case CallRetry(id, resetTo, read, db) => Retry(w, id, resetTo, read, db)
    case CallRequest(id, read, e) => RequestACMEChallenge(w, id, read, e)
    case CallVerify(id, e) => VerifyACMEDNS(w, id, e)
    case CallStatus(id, e) => GetACMEStatus(w, id, e)
    case CallSubmit(id, read, e) => SubmitACMEChallenge(w, id, read, e)
    case CallRenew(id, e) => RenewCertificate(w, id, e)
    case CallRestart(e) => Restart(w, e)
  }

  function Run(w: World, calls: seq<Call>): World
    decreases |calls|
  {
    if calls == [] then w else Run(Step(w, calls[0]), calls[1..])
  }

  /** A run ends with its last call. */
  lemma {:induction false} RunThen(w: World, calls: seq<Call>, call: Call)
    ensures Run(w, calls + [call]) == Step(Run(w, calls), call)
    decreases |calls|
  {
    hide Step;
    if calls == [] {
      assert [call][1..] == [];
      assert Run(w, [call]) == Run(Step(w, call), []);
    } else {
      assert (calls + [call])[1..] == calls[1..] + [call];
      RunThen(Step(w, calls[0]), calls[1..], call);
    }
  }
}
