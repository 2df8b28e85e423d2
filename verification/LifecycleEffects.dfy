/**
 What one call of the domain setup does to the ACME client, to the disk and to
 the SNI store, told from the guards it passes and the answers it gets.
 */
module LifecycleEffects {
  import opened Basics
  import opened Lifecycle
  import A = AcmeClient
  import S = CertStorage
  import C = CertStore

  /** The request for a challenge that the call makes of the ACME client, if it makes one. */
  function AskOf(w: World, call: Call): Option<A.OrderAnswers> {
    match call
    case CallRequest(id, read, e) =>
      if id in w.domains && read && e.read && w.domains[id].status.DNSVerified? then Some(e.answers) else None
    case CallVerify(id, e) =>
      if && id in w.domains && e.handlerRead && e.read && HasChallenge(w.domains[id])
         && Expired(w.domains[id], e.now) && e.reset && e.renewal.read
      then Some(e.renewal.answers) else None
    case CallStatus(id, e) =>
      if && id in w.domains && e.handlerRead && e.read && w.domains[id].status.PendingACMEChallenge?
         && Expired(w.domains[id], e.now) && e.reset && e.renewal.read
      then Some(e.renewal.answers) else None
    case CallRenew(id, e) =>
      if id in w.certs && id in w.domains && e.rowRead && e.read then Some(e.order) else None
    case _ => None
  }

  /** A submission gets as far as the CA. */
  predicate Submits(w: World, id: nat, e: SubmitEnv) {
    && id in w.domains && e.read && e.mark
    && w.domains[id].status.ACMEChallengeReady? && w.domains[id].dnsVerified
  }

  /** The bundle the call gets from the ACME client, if it gets one. */
  function Obtains(w: World, call: Call): Option<A.Bundle> {
    match call
    case CallSubmit(id, read, e) =>
      if read && Submits(w, id, e) && A.Complete(w.client, w.domains[id].name, e.validation).Succeeded?
      then A.RequestCertificate(w.client, w.domains[id].name, e.issue).1 else None
    case CallRenew(id, e) =>
      if AskOf(w, call).None? then None
      else
        var name := w.domains[id].name;
        var (ordered, info) := A.GetDNSChallenge(w.client, name, e.order);
        if info.Some? && A.Complete(ordered, name, e.validation).Succeeded?
        then A.RequestCertificate(ordered, name, e.issue).1 else None
    case _ => None
  }

  function SaveOf(call: Call): S.SaveFaults
    requires call.CallSubmit? || call.CallRenew?
  {
    if call.CallSubmit? then call.submit.save else call.renew.save
  }

  function ParserOf(call: Call): C.Parser
    requires call.CallSubmit? || call.CallRenew?
  {
    if call.CallSubmit? then call.submit.parses else call.renew.parses
  }

  /** The call saves its bundle and makes every write after that, so it ends with a hot reload. */
  predicate Reloads(w: World, call: Call) {
    && (call.CallSubmit? || call.CallRenew?) && call.id in w.domains && Obtains(w, call).Some?
    && S.SaveOk(w.domains[call.id].name, Obtains(w, call).value, SaveOf(call))
    && (if call.CallSubmit? then call.submit.row.read && call.submit.row.write && call.submit.finish
        else call.renew.rowWrite)
  }

  function DiskAfter(w: World, call: Call): S.Disk {
    if (call.CallSubmit? || call.CallRenew?) && call.id in w.domains && Obtains(w, call).Some?
    then S.Save(w.disk, w.domains[call.id].name, Obtains(w, call).value, SaveOf(call))
    else w.disk
  }

  function StoreAfter(w: World, call: Call): Option<C.Store> {
    if Reloads(w, call) && w.store.Some?
    then Some(C.HotReload(w.store.value, DiskAfter(w, call), w.domains[call.id].name, ParserOf(call)))
    else w.store
  }

  /** The client after the request for a challenge, before a certificate is requested. */
  function Ordered(w: World, call: Call): A.Client {
    if AskOf(w, call).Some? && call.id in w.domains
    then A.GetDNSChallenge(w.client, w.domains[call.id].name, AskOf(w, call).value).0 else w.client
  }

  // ------------------------------------------------------------ the effects

  function Refreshed(store: Option<C.Store>, ok: bool, disk: S.Disk, name: string, parses: C.Parser): Option<C.Store> {
    if ok && store.Some? then Some(C.HotReload(store.value, disk, name, parses)) else store
  }

  lemma FinishEffects(w: World, id: nat, d: Domain, b: A.Bundle, e: SubmitEnv)
    ensures var (t, ok) := FinishSubmission(w, id, d, b, e);
            && t.client == w.client && t.disk == w.disk
            && ok == (e.row.read && e.row.write && e.finish)
            && t.store == Refreshed(w.store, ok, w.disk, d.name, e.parses)
  {
    hide C.HotReload;
  }

  lemma TakeEffects(w: World, bundle: Option<A.Bundle>, id: nat, d: Domain, e: SubmitEnv)
    ensures var (t, ok) := TakeCertificate(w, bundle, id, d, e);
            && t.client == w.client
            && t.disk == (if bundle.Some? then S.Save(w.disk, d.name, bundle.value, e.save) else w.disk)
            && ok == (bundle.Some? && S.SaveOk(d.name, bundle.value, e.save) && e.row.read && e.row.write && e.finish)
            && t.store == Refreshed(w.store, ok, t.disk, d.name, e.parses)
  {
    hide C.HotReload, S.Save, S.SaveOk, FinishSubmission;
    if bundle.Some? {
      var saved := Note(w, Obtained(id, bundle.value)).(disk := S.Save(w.disk, d.name, bundle.value, e.save));
      FinishEffects(Note(saved, Saved(id, bundle.value)), id, d, bundle.value, e);
    }
  }

  lemma SubmitEffects(w: World, call: Call)
    requires call.CallSubmit?
    ensures var t := Step(w, call);
            && t.disk == DiskAfter(w, call) && t.store == StoreAfter(w, call)
            && t.client == if call.read && Submits(w, call.id, call.submit)
                              && A.Complete(w.client, w.domains[call.id].name, call.submit.validation).Succeeded?
                           then A.RequestCertificate(w.client, w.domains[call.id].name, call.submit.issue).0
                           else w.client
  {
    hide A.Complete, A.RequestCertificate, S.Save, S.SaveOk, C.HotReload, TakeCertificate;
    var id, e := call.id, call.submit;
    if call.read && Submits(w, id, e) {
      var d := w.domains[id].(status := PendingCertificate);
      var marked := Note(Note(Put(w, id, d), Submitted(id, d.value)), Validated(id));
      var (client, bundle) := A.RequestCertificate(w.client, d.name, e.issue);
      TakeEffects(marked.(client := client), bundle, id, d, e);
    }
  }

  lemma ReplaceEffects(w: World, bundle: Option<A.Bundle>, id: nat, name: string, e: RenewEnv)
    ensures var t := Replace(w, bundle, id, name, e);
            var ok := bundle.Some? && S.SaveOk(name, bundle.value, e.save) && e.rowWrite;
            && t.client == w.client
            && t.disk == (if bundle.Some? then S.Save(w.disk, name, bundle.value, e.save) else w.disk)
            && t.store == Refreshed(w.store, ok, t.disk, name, e.parses)
  {
    hide C.HotReload, S.Save, S.SaveOk;
  }

  lemma RenewEffects(w: World, call: Call)
    requires call.CallRenew?
    ensures var t := Step(w, call);
            && t.disk == DiskAfter(w, call) && t.store == StoreAfter(w, call)
            && t.client == if AskOf(w, call).Some?
                              && A.GetDNSChallenge(w.client, w.domains[call.id].name, call.renew.order).1.Some?
                              && A.Complete(Ordered(w, call), w.domains[call.id].name, call.renew.validation).Succeeded?
                           then A.RequestCertificate(Ordered(w, call), w.domains[call.id].name, call.renew.issue).0
                           else Ordered(w, call)
  {
    hide A.Complete, A.GetDNSChallenge, A.RequestCertificate, S.Save, S.SaveOk, C.HotReload, Replace;
    var id, e := call.id, call.renew;
    if AskOf(w, call).Some? {
      var name := w.domains[id].name;
      var (client, bundle) := A.RequestCertificate(Ordered(w, call), name, e.issue);
      ReplaceEffects(Note(w.(client := client), Validated(id)), bundle, id, name, e);
    }
  }

  lemma OtherEffects(w: World, call: Call)
    requires !call.CallSubmit? && !call.CallRenew? && !call.CallRestart?
    ensures Step(w, call).disk == w.disk && Step(w, call).store == w.store && Step(w, call).client == Ordered(w, call)
  {
    hide A.GetDNSChallenge, FoundValues, RetryTarget, CreateDomain, RenewChallenge, Expired, HasChallenge, Legacy;
    match call
    case CallCreate(name, token, inserted) => CreateEffects(w, name, token, inserted);
    case CallVerify(id, e) => ExpiryEffects(w, id, e.reset, e.renewal);
    case CallStatus(id, e) => ExpiryEffects(w, id, e.reset, e.renewal);
    case _ =>
  }

  lemma ExpiryEffects(w: World, id: nat, reset: bool, e: RequestEnv)
    ensures var t := RenewChallenge(w, id, reset, e);
            && t.disk == w.disk && t.store == w.store
            && t.client == if id in w.domains && reset && e.read
                           then A.GetDNSChallenge(w.client, w.domains[id].name, e.answers).0 else w.client
  {
    hide A.GetDNSChallenge;
  }

  lemma CreateEffects(w: World, name: string, token: Option<string>, inserted: bool)
    ensures var t := CreateDomain(w, name, token, inserted);
            t.disk == w.disk && t.store == w.store && t.client == w.client
  {
  }
}
