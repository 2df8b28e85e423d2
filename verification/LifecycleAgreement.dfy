/**
 The SNI store is a cache of the certificate files. When does what it holds for
 a name agree with the pair on disk? The code reloads a name only at the very
 end of a submission or a renewal, and with it the mail name of the domain.
 */
module LifecycleAgreement {
  import opened Basics
  import opened Lifecycle
  import opened LifecycleEffects
  import A = AcmeClient
  import S = CertStorage
  import C = CertStore

  function OnDisk(w: World, name: string, parses: C.Parser): Option<C.Tls> {
    C.LoadPair(w.disk, name, parses)
  }

  function Entry(s: C.Store, name: string): Option<C.Tls> {
    if name in s.certificates then Some(s.certificates[name]) else None
  }

  /** The store, if there is one, holds for the name what the disk holds. */
  predicate InStep(w: World, name: string, parses: C.Parser) {
    w.store.Some? ==> Entry(w.store.value, name) == OnDisk(w, name, parses)
  }

  /** Whether a pair loads does not change: all calls that parse use the same parser. */
  ghost predicate Uses(call: Call, parses: C.Parser) {
    && (call.CallSubmit? || call.CallRenew? ==> ParserOf(call) == parses)
    && (call.CallRestart? ==> call.restart.parses == parses)
  }

  /**
   The call changes the domain's pair on disk and does not reload it: a save or
   a write after it failed, or what was saved does not load.
   */
  predicate SavesOnly(w: World, call: Call, name: string, parses: C.Parser) {
    var after := C.LoadPair(DiskAfter(w, call), name, parses);
    && (call.CallSubmit? || call.CallRenew?) && call.id in w.domains && w.domains[call.id].name == name
    && after != OnDisk(w, name, parses)
    && !(Reloads(w, call) && after.Some?)
  }

  /** The call reloads a domain whose mail name this is, and that has another pair than the name itself. */
  predicate Overwrites(w: World, call: Call, name: string, parses: C.Parser) {
    && Reloads(w, call) && C.Mail(w.domains[call.id].name) == name
    && var loaded := C.LoadPair(DiskAfter(w, call), w.domains[call.id].name, parses);
       loaded.Some? && loaded != OnDisk(w, name, parses)
  }

  /** A restart whose rows give the name no certificate although it has one on disk, or another one. */
  ghost predicate ReadsOther(w: World, e: RestartEnv, name: string) {
    var own := OnDisk(w, name, e.parses);
    if e.listed.None? then own.Some?
    else
      var rows := RowNames(w.certs, e.listed.value);
      if exists i :: C.LastAnswer(rows, w.disk, e.parses, i, name)
      then exists i :: C.LastAnswer(rows, w.disk, e.parses, i, name) && C.LoadPair(w.disk, rows[i], e.parses) != own
      else own.Some?
  }

  ghost predicate Parts(w: World, call: Call, name: string, parses: C.Parser) {
    if call.CallRestart? then call.restart.attached && ReadsOther(w, call.restart, name)
    else w.store.Some? && (SavesOnly(w, call, name, parses) || Overwrites(w, call, name, parses))
  }

  // --------------------------------------------------------------- one call

  lemma OtherPairsStay(d: S.Disk, saved: string, b: A.Bundle, f: S.SaveFaults, name: string, parses: C.Parser)
    requires name != saved
    ensures C.LoadPair(S.Save(d, saved, b, f), name, parses) == C.LoadPair(d, name, parses)
  {
  }

  lemma MailIsAnother(name: string)
    ensures C.Mail(name) != name
  {
    assert |C.Mail(name)| == |name| + 5;
  }

  lemma ReloadEntry(s: C.Store, d: S.Disk, reloaded: string, parses: C.Parser, name: string)
    ensures var pair := C.LoadPair(d, reloaded, parses);
            Entry(C.HotReload(s, d, reloaded, parses), name) ==
            if pair.Some? && (name == reloaded || name == C.Mail(reloaded)) then pair else Entry(s, name)
  {
    hide C.LoadPair;
  }

  lemma CallPartsExactly(w: World, call: Call, name: string, parses: C.Parser)
    requires InStep(w, name, parses) && Uses(call, parses) && (call.CallSubmit? || call.CallRenew?)
    ensures InStep(Step(w, call), name, parses) <==> !Parts(w, call, name, parses)
  {
    hide Step, C.LoadPair, C.HotReload, C.Mail, S.Save, S.SaveOk, Obtains, Entry;
    if call.CallSubmit? {
      SubmitEffects(w, call);
    } else {
      RenewEffects(w, call);
    }
    if call.id in w.domains && Obtains(w, call).Some? {
      var saved := w.domains[call.id].name;
      MailIsAnother(saved);
      if name != saved {
        OtherPairsStay(w.disk, saved, Obtains(w, call).value, SaveOf(call), name, parses);
      }
      if w.store.Some? {
        ReloadEntry(w.store.value, DiskAfter(w, call), saved, parses, name);
      }
    }
  }

  lemma RestartPartsExactly(w: World, e: RestartEnv, name: string)
    ensures InStep(Restart(w, e), name, e.parses) <==> !(e.attached && ReadsOther(w, e, name))
  {
    hide C.LoadPair, C.Build;
    if e.listed.Some? {
      C.BuildIsReload(RowNames(w.certs, e.listed.value), w.disk, e.parses);
    }
  }

  /** A call leaves the name in step exactly when it does not part it. */
  lemma StepPartsExactly(w: World, call: Call, name: string, parses: C.Parser)
    requires InStep(w, name, parses) && Uses(call, parses)
    ensures InStep(Step(w, call), name, parses) <==> !Parts(w, call, name, parses)
  {
    if call.CallSubmit? || call.CallRenew? {
      CallPartsExactly(w, call, name, parses);
    } else if call.CallRestart? {
      hide ReadsOther;
      RestartPartsExactly(w, call.restart, name);
    } else {
      hide Step, C.LoadPair, Obtains;
      OtherEffects(w, call);
    }
  }

  // ------------------------------------------------------------------- runs

  ghost predicate NeverParts(w: World, calls: seq<Call>, name: string, parses: C.Parser)
    decreases |calls|
  {
    calls == [] || (!Parts(w, calls[0], name, parses) && NeverParts(Step(w, calls[0]), calls[1..], name, parses))
  }

  ghost predicate InStepAlong(w: World, calls: seq<Call>, name: string, parses: C.Parser)
    decreases |calls|
  {
    InStep(w, name, parses) && (calls == [] || InStepAlong(Step(w, calls[0]), calls[1..], name, parses))
  }

  /**
   Over every run, store and disk agree on a name at every point exactly when
   they do at the start and no call saves the name's pair without reloading it,
   overwrites its entry with another domain's, or restarts from rows that give
   it another certificate or none.
   */
  lemma {:induction false} StoreAgreesExactly(w: World, calls: seq<Call>, name: string, parses: C.Parser)
    requires forall i :: 0 <= i < |calls| ==> Uses(calls[i], parses)
    ensures InStepAlong(w, calls, name, parses) <==> InStep(w, name, parses) && NeverParts(w, calls, name, parses)
    decreases |calls|
  {
    hide InStep, Parts, Step, Uses;
    if calls != [] && InStep(w, name, parses) {
      StepPartsExactly(w, calls[0], name, parses);
      StoreAgreesExactly(Step(w, calls[0]), calls[1..], name, parses);
    }
  }

  /**
   The family that matters most: a renewal that saves a loadable new pair and
   then cannot write its row leaves the new pair on disk and the old one served.
   */
  lemma FailedRowKeepsServing(w: World, id: nat, e: RenewEnv, b: A.Bundle)
    requires id in w.domains && Obtains(w, CallRenew(id, e)) == Some(b)
    requires S.SaveOk(w.domains[id].name, b, e.save) && e.parses(b.certificate, b.privateKey) && !e.rowWrite
    ensures var t := RenewCertificate(w, id, e);
            && t.store == w.store
            && OnDisk(t, w.domains[id].name, e.parses) == Some(C.Tls(b.certificate, b.privateKey))
  {
    RenewEffects(w, CallRenew(id, e));
    hide Obtains, RenewCertificate;
    S.SaveThenLoad(w.disk, w.domains[id].name, b, e.save);
  }
}
