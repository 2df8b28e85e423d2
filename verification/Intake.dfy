/**
 Where the domain setup meets the SMTP server: the session looks domains up by
 name in the very table the setup endpoints write. Mail is accepted only for
 domains whose certificate was earned.
 */
module Intake {
  import opened Basics
  import opened Lifecycle
  import LifecycleFrame
  import LifecycleSafety
  import Address
  import D = Delivery
  import C = CertStore
  import Text

  /** The same table, seen by name and by id. */
  ghost predicate Mirrors(rows: map<string, D.DomainRow>, domains: map<nat, Domain>) {
    && (forall name :: name in rows ==>
          && rows[name].id in domains
          && domains[rows[name].id].name == name && domains[rows[name].id].isActive == rows[name].isActive)
    && (forall id :: id in domains ==> domains[id].name in rows && rows[domains[id].name].id == id)
  }

  predicate UniqueNames(w: World) {
    forall a, b :: a in w.domains && b in w.domains && w.domains[a].name == w.domains[b].name ==> a == b
  }

  lemma StepKeepsNamesUnique(w: World, call: Call)
    requires UniqueNames(w)
    ensures UniqueNames(Step(w, call))
  {
    hide Text.TrimSpace, Text.ToLower;
    if !call.CallCreate? && !call.CallDelete? && !call.CallRestart? {
      hide Step;
      LifecycleFrame.EndpointEditsItsDomain(w, call);
    }
  }

  lemma {:induction false} NamesAreUnique(w: World, calls: seq<Call>)
    requires UniqueNames(w)
    ensures UniqueNames(Run(w, calls))
    decreases |calls|
  {
    if calls != [] {
      StepKeepsNamesUnique(w, calls[0]);
      NamesAreUnique(Step(w, calls[0]), calls[1..]);
    }
  }

  /** In every run, names identify domains, so the table can be looked up by name. */
  lemma TableHasNameIndex(store: Option<C.Store>, calls: seq<Call>) returns (rows: map<string, D.DomainRow>)
    ensures Mirrors(rows, Run(Fresh(store), calls).domains)
  {
    NamesAreUnique(Fresh(store), calls);
    var domains := Run(Fresh(store), calls).domains;
    rows := map id | id in domains :: domains[id].name := D.DomainRow(id, domains[id].isActive);
  }

  /**
   In every run from an empty database, RCPT accepts an address only if its
   domain is in the table, open for mail and has a certificate row written
   right after validation, issuance and save of its bundle; with provisioning
   on and the lookup working, it accepts every address of an open domain.
   */
  lemma MailOnlyForCertified(
    store: Option<C.Store>, calls: seq<Call>, db: D.Db, to: string,
    autoProvision: bool, domainRead: bool, mailboxRead: bool)
    requires Mirrors(db.domains, Run(Fresh(store), calls).domains)
    ensures var w := Run(Fresh(store), calls);
            var reply := D.RcptReply(db, to, autoProvision, domainRead, mailboxRead);
            && (reply.Accepted? ==>
                  && Address.Parse(to).Some?
                  && exists id :: Certified(w, id, Address.Parse(to).value.domain))
            && (forall id :: id in w.domains && w.domains[id].isActive && autoProvision && domainRead
                  && Address.Parse(to).Some? && Address.Parse(to).value.domain == w.domains[id].name
                  ==> reply.Accepted?)
  {
    hide Address.Parse, Run;
    LifecycleSafety.ActiveMeansCertified(store, calls);
    var w := Run(Fresh(store), calls);
    if D.RcptReply(db, to, autoProvision, domainRead, mailboxRead).Accepted? {
      var name := Address.Parse(to).value.domain;
      assert Certified(w, db.domains[name].id, name);
    }
  }

  ghost predicate Certified(w: World, id: nat, name: string) {
    && id in w.domains && w.domains[id].name == name && w.domains[id].isActive
    && id in w.certs && LifecycleSafety.RowEarned(w.log, id, w.certs[id])
  }

  // ------------------------------------------------------------- the names

  /** In lower case, without white space at its ends, not empty. */
  predicate CleanName(name: string) {
    name != "" && Text.IsLower(name) && Text.TrimSpace(name) == name
  }

  predicate CleanNames(w: World) {
    forall id :: id in w.domains ==> CleanName(w.domains[id].name)
  }

  lemma CleanedName(name: string)
    requires Text.TrimSpace(Text.ToLower(name)) != ""
    ensures CleanName(Text.TrimSpace(Text.ToLower(name)))
  {
    hide Text.IsSpace, Text.ToLower;
    var lower := Text.ToLower(name);
    Text.ToLowerIdempotent(name);
    Text.TrimSpaceTwice(lower);
    var left := Text.TrimLeft(lower);
    var clean := Text.TrimRight(left);
    assert clean == left[..|clean|] && left == lower[|lower| - |left|..];
    forall i | 0 <= i < |clean|
      ensures !('A' <= clean[i] <= 'Z')
    {
      assert clean[i] == lower[|lower| - |left| + i];
    }
  }

  lemma StepKeepsNamesClean(w: World, call: Call)
    requires CleanNames(w)
    ensures CleanNames(Step(w, call))
  {
    hide CleanName, Text.TrimSpace, Text.ToLower;
    if call.CallCreate? {
      if Text.TrimSpace(Text.ToLower(call.name)) != "" {
        CleanedName(call.name);
      }
    } else if !call.CallDelete? && !call.CallRestart? {
      hide Step;
      LifecycleFrame.EndpointEditsItsDomain(w, call);
    }
  }

  lemma {:induction false} NamesStayClean(w: World, calls: seq<Call>)
    requires CleanNames(w)
    ensures CleanNames(Run(w, calls))
    decreases |calls|
  {
    hide CleanNames, Step;
    if calls != [] {
      StepKeepsNamesClean(w, calls[0]);
      NamesStayClean(Step(w, calls[0]), calls[1..]);
    }
  }

  /**
   In every run a domain is stored under the lower-case, trimmed name it was
   created with, so RCPT finds it for an address in any case, bracketed or not:
   it never answers that such a domain is unknown.
   */
  lemma AnyCaseFindsDomain(
    store: Option<C.Store>, calls: seq<Call>, db: D.Db, id: nat, local: string, domain: string,
    autoProvision: bool, mailboxRead: bool)
    requires id in Run(Fresh(store), calls).domains && Mirrors(db.domains, Run(Fresh(store), calls).domains)
    requires var name := Run(Fresh(store), calls).domains[id].name;
             var p := Address.Parts(Text.ToLower(local), name);
             Text.ToLower(domain) == name && Address.Plain(p) && Address.Survives(p)
    ensures CleanName(Run(Fresh(store), calls).domains[id].name)
    ensures var plain, bracketed := local + "@" + domain, "<" + local + "@" + domain + ">";
            && !D.RcptReply(db, plain, autoProvision, true, mailboxRead).DomainNotFound?
            && !D.RcptReply(db, bracketed, autoProvision, true, mailboxRead).DomainNotFound?
            && !D.RcptReply(db, plain, autoProvision, true, mailboxRead).InvalidAddress?
            && !D.RcptReply(db, bracketed, autoProvision, true, mailboxRead).InvalidAddress?
  {
    hide Run, CleanName, Address.Parse, Address.Plain, Address.Survives;
    NamesStayClean(Fresh(store), calls);
    var name := Run(Fresh(store), calls).domains[id].name;
    var p := Address.Parts(Text.ToLower(local), name);
    Address.SpellingsAgree(p, local, domain);
  }

  /** Creating a domain stores exactly the trimmed lower-case form of what was sent, waiting for DNS with its token. */
  lemma CreatedAsSent(w: World, name: string, token: string)
    requires Text.TrimSpace(Text.ToLower(name)) != ""
    requires forall id :: id in w.domains ==> w.domains[id].name != Text.TrimSpace(Text.ToLower(name))
    ensures var t := Step(w, CallCreate(name, Some(token), true));
            && t.domains.Keys == w.domains.Keys + {w.nextId}
            && t.domains[w.nextId].name == Text.TrimSpace(Text.ToLower(name))
            && t.domains[w.nextId].dnsChallenge == token && t.domains[w.nextId].status.PendingDNS?
            && !t.domains[w.nextId].isActive && !HasChallenge(t.domains[w.nextId])
  {
    hide Text.TrimSpace, Text.ToLower;
  }
}
