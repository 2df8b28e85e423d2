/**
 From the CA to the TLS handshake: after a submission or a renewal that reports
 success, the attached SNI store serves the certificate just saved.
 */
module LifecycleServing {
  import opened Basics
  import opened Lifecycle
  import A = AcmeClient
  import S = CertStorage
  import C = CertStore
  import LifecycleSafety

  /**
   The store serves b's pair for d, its mail name and its one-label children
   without an entry; the rest is as in `before`.
   */
  ghost predicate Serves(before: C.Store, after: C.Store, d: string, b: A.Bundle) {
    var pair := Some(C.Tls(b.certificate, b.privateKey));
    && C.Serve(after, d) == pair
    && C.Serve(after, C.Mail(d)) == pair
    && (forall host: string :: '.' !in host && Below(host, d) !in before.certificates ==>
          C.Serve(after, Below(host, d)) == pair)
    && (forall name :: !ResolvesThrough(before, name, d) ==> C.Serve(after, name) == C.Serve(before, name))
  }

  function Below(host: string, d: string): string {
    host + "." + d
  }

  /** The lookup of name ends at d or at its mail name. */
  predicate ResolvesThrough(s: C.Store, name: string, d: string) {
    || name == d || name == C.Mail(d)
    || (!(name != "" && name in s.certificates) && C.ParentDomain(name) in [d, C.Mail(d)])
  }

  lemma SaveAndReloadServes(s: C.Store, disk: S.Disk, d: string, b: A.Bundle, f: S.SaveFaults, parses: C.Parser)
    requires S.SaveOk(d, b, f) && parses(b.certificate, b.privateKey)
    ensures Serves(s, C.HotReload(s, S.Save(disk, d, b, f), d, parses), d, b)
  {
    var saved := S.Save(disk, d, b, f);
    S.SaveThenLoad(disk, d, b, f);
    C.SavedIsServed(s, disk, d, b, f, parses, "");
    forall host: string | '.' !in host && Below(host, d) !in s.certificates
      ensures C.Serve(C.HotReload(s, saved, d, parses), Below(host, d)) == Some(C.Tls(b.certificate, b.privateKey))
    {
      C.SavedIsServed(s, disk, d, b, f, parses, host);
    }
    forall name | !ResolvesThrough(s, name, d)
      ensures C.Serve(C.HotReload(s, saved, d, parses), name) == C.Serve(s, name)
    {
      C.HotReloadServes(s, saved, d, parses, name);
    }
  }

  /** b is what the CA issued and the key made for it. */
  predicate Issued(b: A.Bundle, a: A.IssueAnswers) {
    && a.blocks.Some? && a.blocks.value != [] && a.privateKey.Some?
    && b.certificate == a.blocks.value[0] && b.privateKey == a.privateKey.value && b.expiresAt == a.expiresAt
  }

  lemma SavedWasIssued(c: A.Client, name: string, a: A.IssueAnswers, f: S.SaveFaults)
    requires A.RequestCertificate(c, name, a).1.Some? && S.SaveOk(name, A.RequestCertificate(c, name, a).1.value, f)
    ensures Issued(A.RequestCertificate(c, name, a).1.value, a)
  {
    hide A.RequestCertificate;
    A.BundleContents(c, name, a);
  }

  /**
   A submission that reports success wrote the row of a bundle b, b is the pair
   the CA's first block and the new key make, and the store now serves b.
   */
  lemma SubmissionServes(w: World, id: nat, e: SubmitEnv) returns (b: A.Bundle)
    requires id in w.domains && w.store.Some? && SubmitChallenge(w, id, e).1
    ensures var t := SubmitChallenge(w, id, e).0;
            && t.log == w.log + [Submitted(id, w.domains[id].value), Validated(id), Obtained(id, b),
                                 Saved(id, b), RowWritten(id, b)]
            && Issued(b, e.issue)
            && t.store.Some?
            && (e.parses(b.certificate, b.privateKey) ==> Serves(w.store.value, t.store.value, w.domains[id].name, b))
  {
    hide A.RequestCertificate, A.Complete, S.Save, S.SaveOk, C.HotReload, Serves, Issued;
    var name := w.domains[id].name;
    b := A.RequestCertificate(w.client, name, e.issue).1.value;
    SavedWasIssued(w.client, name, e.issue, e.save);
    if e.parses(b.certificate, b.privateKey) {
      SaveAndReloadServes(w.store.value, w.disk, name, b, e.save, e.parses);
    }
  }

  /** After a successful submission the handshake for the domain gets the CA's first block with the key made for it. */
  lemma IssuedIsServed(w: World, id: nat, e: SubmitEnv)
    requires id in w.domains && w.store.Some? && SubmitChallenge(w, id, e).1
    ensures e.issue.blocks.Some? && e.issue.blocks.value != [] && e.issue.privateKey.Some?
    ensures var leaf, key := e.issue.blocks.value[0], e.issue.privateKey.value;
            var t := Step(w, CallSubmit(id, true, e));
            e.parses(leaf, key) ==>
              t.store.Some? && C.Serve(t.store.value, w.domains[id].name) == Some(C.Tls(leaf, key))
  {
    hide C.Serve, SubmitChallenge;
    var b := SubmissionServes(w, id, e);
  }

  /** Between w and t the row of bundle b was written for id. */
  ghost predicate WritesRow(w: World, t: World, id: nat, b: A.Bundle) {
    exists k :: |w.log| <= k < |t.log| && t.log[k] == RowWritten(id, b)
  }

  /** A renewal that wrote the row of a bundle b validated, obtained and saved b before, and the store now serves b. */
  lemma RenewalServes(w: World, id: nat, e: RenewEnv, b: A.Bundle)
    requires id in w.domains && w.store.Some?
    requires WritesRow(w, RenewCertificate(w, id, e), id, b)
    ensures var t := RenewCertificate(w, id, e);
            && t.log == w.log + [Validated(id), Obtained(id, b), Saved(id, b), RowWritten(id, b)]
            && Issued(b, e.issue)
            && t.store.Some?
            && (e.parses(b.certificate, b.privateKey) ==> Serves(w.store.value, t.store.value, w.domains[id].name, b))
  {
    hide A.GetDNSChallenge, A.RequestCertificate, A.Complete, S.Save, S.SaveOk, C.HotReload, Serves, Issued;
    var name := w.domains[id].name;
    var (ordered, info) := A.GetDNSChallenge(w.client, name, e.order);
    var bundle := A.RequestCertificate(ordered, name, e.issue).1;
    assert bundle == Some(b);
    SavedWasIssued(ordered, name, e.issue, e.save);
    if e.parses(b.certificate, b.privateKey) {
      SaveAndReloadServes(w.store.value, w.disk, name, b, e.save, e.parses);
    }
  }

  // --------------------------------------------------------------- restart

  lemma {:induction false} RowNamesMean(certs: map<nat, CertRow>, order: seq<nat>, name: string)
    ensures name in RowNames(certs, order) <==> exists i :: i in order && i in certs && certs[i].domainName == name
  {
    if order != [] {
      RowNamesMean(certs, order[1..], name);
      assert forall i :: i in order <==> i == order[0] || i in order[1..];
    }
  }

  /** The pair that the row of certificate i loads answers for the mail name of its domain. */
  predicate Aliases(w: World, parses: C.Parser, i: nat, name: string) {
    i in w.certs && C.Mail(w.certs[i].domainName) == name && C.LoadPair(w.disk, w.certs[i].domainName, parses).Some?
  }

  /**
   In every run, a restart that reads all rows serves every domain open for mail
   the pair in its own directory, if it loads and the domain's name is not the
   mail name of another row that loads.
   */
  lemma RestartServes(store: Option<C.Store>, calls: seq<Call>, id: nat, e: RestartEnv)
    requires var w := Run(Fresh(store), calls);
             && id in w.domains && w.domains[id].isActive
             && e.attached && e.listed.Some? && (forall i :: i in w.certs ==> i in e.listed.value)
             && C.LoadPair(w.disk, w.domains[id].name, e.parses).Some?
             && (forall i :: !Aliases(w, e.parses, i, w.domains[id].name))
    ensures var w := Run(Fresh(store), calls);
            var name := w.domains[id].name;
            && Restart(w, e).store.Some?
            && C.Serve(Restart(w, e).store.value, name) == C.LoadPair(w.disk, name, e.parses)
  {
    hide Run, C.LoadPair, C.Build, RowNames;
    LifecycleSafety.ActiveMeansCertified(store, calls);
    var w := Run(Fresh(store), calls);
    var name := w.domains[id].name;
    var rows := RowNames(w.certs, e.listed.value);
    RowNamesMean(w.certs, e.listed.value, name);
    var i :| 0 <= i < |rows| && rows[i] == name;
    assert C.Answers(rows, w.disk, e.parses, i, name);
    C.LastAnswerExists(rows, w.disk, e.parses, i, name);
    var j :| C.LastAnswer(rows, w.disk, e.parses, j, name);
    RowNamesMean(w.certs, e.listed.value, rows[j]);
    var k :| k in e.listed.value && k in w.certs && w.certs[k].domainName == rows[j];
    assert !Aliases(w, e.parses, k, name);
    assert rows[j] == name;
    C.BuildIsReload(rows, w.disk, e.parses);
    assert name != "" by { NamedPair(w.disk, name, e.parses); }
  }

  lemma NamedPair(d: S.Disk, name: string, parses: C.Parser)
    requires C.LoadPair(d, name, parses).Some?
    ensures name != ""
  {
  }

  /** The rows keep the order in which the database lists them. */
  lemma {:induction false} RowNamesInOrder(certs: map<nat, CertRow>, order: seq<nat>)
    requires forall i :: i in order ==> i in certs
    ensures |RowNames(certs, order)| == |order|
    ensures forall k :: 0 <= k < |order| ==> RowNames(certs, order)[k] == certs[order[k]].domainName
  {
    if order != [] {
      RowNamesInOrder(certs, order[1..]);
    }
  }
}
