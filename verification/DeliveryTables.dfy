/**
 The tables around a delivery: what RCPT and the mailbox endpoint reply, what
 the deletes remove, and whose each mailbox is.
 */
module DeliveryTables {
  import opened Basics
  import opened Delivery
  import opened DeliveryClaims
  import Address

  // --------------------------------------------------------------- replies

  /**
   RCPT's refusals, each exactly: the address first, then what could not be read
   (a temporary refusal, never a permanent one), then what is not there.
   */
  lemma RepliesExactly(db: Db, to: string, autoProvision: bool, domainRead: bool, mailboxRead: bool)
    ensures var r := RcptReply(db, to, autoProvision, domainRead, mailboxRead);
            var parsed := Address.Parse(to);
            var known := parsed.Some? && parsed.value.domain in db.domains;
            var open := known && db.domains[parsed.value.domain].isActive;
            && (r.InvalidAddress? <==> parsed.None?)
            && (r.Temporary? <==> parsed.Some? && (!domainRead || (open && !autoProvision && !mailboxRead)))
            && (r.DomainNotFound? <==> parsed.Some? && domainRead && !known)
            && (r.DomainInactive? <==> domainRead && known && !open)
            && (r.MailboxNotFound? <==> domainRead && open && !autoProvision && mailboxRead && to !in db.mailboxes)
            && (r.Accepted? <==> domainRead && open && (autoProvision || (mailboxRead && to in db.mailboxes)))
  {
    hide Address.Parse;
  }

  /** A table that cannot be read never makes a refusal permanent. */
  lemma UnreadIsTemporary(db: Db, to: string, autoProvision: bool, domainRead: bool, mailboxRead: bool)
    requires Address.Parse(to).Some?
    ensures !domainRead ==> RcptReply(db, to, autoProvision, domainRead, mailboxRead).Temporary?
    ensures !mailboxRead ==> !RcptReply(db, to, autoProvision, domainRead, mailboxRead).MailboxNotFound?
  {
    RepliesExactly(db, to, autoProvision, domainRead, mailboxRead);
  }

  // --------------------------------------------------------------- deletes

  /** Deleting a message removes it and its attachment rows, and nothing else; the files stay. */
  lemma DeletedMessage(db: Db, id: nat)
    requires forall a :: a in db.attachments ==> db.attachments[a].messageId in db.messages
    ensures var t := Do(db, DeleteMessage(id));
            && t.files == db.files && t.mailboxes == db.mailboxes
            && (forall m :: m in t.messages <==> m in db.messages && m != id)
            && (forall m :: m in t.messages ==> t.messages[m] == db.messages[m])
            && (forall a :: a in t.attachments <==> a in db.attachments && db.attachments[a].messageId != id)
            && (forall a :: a in t.attachments ==> t.attachments[a] == db.attachments[a])
  {
  }

  /** Deleting an attachment removes its row and, if the disk lets it, its file. */
  lemma DeletedAttachment(db: Db, id: nat, fileRemoved: bool)
    requires id in db.attachments
    ensures var t := Do(db, DeleteAttachment(id, true, true, fileRemoved));
            && t.messages == db.messages && t.mailboxes == db.mailboxes
            && (forall a :: a in t.attachments <==> a in db.attachments && a != id)
            && (forall a :: a in t.attachments ==> t.attachments[a] == db.attachments[a])
            && (forall f :: f in t.files <==> f in db.files && !(fileRemoved && f == db.attachments[id].path))
  {
  }

  /** Deleting a mailbox removes it with its messages, and nothing else. */
  lemma DeletedMailbox(db: Db, address: string)
    requires address in db.mailboxes
    ensures var t := Do(db, DeleteMailbox(address));
            && (forall a :: a in t.mailboxes <==> a in db.mailboxes && a != address)
            && (forall a :: a in t.mailboxes ==> t.mailboxes[a] == db.mailboxes[a])
            && (forall m :: m in t.messages <==>
                  m in db.messages && db.messages[m].mailboxId != db.mailboxes[address].id)
            && (forall m :: m in t.messages ==> t.messages[m] == db.messages[m])
  {
  }

  // -------------------------------------------------- whose a mailbox is

  /** The mailbox at this address is of the domain with this name: by its address, its local part and its domain id. */
  predicate BelongsTo(db: Db, address: string, name: string) {
    && address in db.mailboxes && name in db.domains
    && db.mailboxes[address].domainId == db.domains[name].id
    && address == db.mailboxes[address].localPart + "@" + name
  }

  ghost predicate MailboxesBelong(db: Db) {
    && (forall a :: a in db.mailboxes ==> exists name :: BelongsTo(db, a, name))
    && (forall x, y :: x in db.domains && y in db.domains && db.domains[x].id == db.domains[y].id ==> x == y)
  }

  lemma AddedBelongs(db: Db, t: Db, address: string, name: string)
    requires MailboxesBelong(db) && t.domains == db.domains
    requires address in t.mailboxes && t.mailboxes == db.mailboxes[address := t.mailboxes[address]]
    requires BelongsTo(t, address, name)
    ensures MailboxesBelong(t)
  {
    forall a | a in t.mailboxes
      ensures exists x :: BelongsTo(t, a, x)
    {
      if a != address {
        var x :| BelongsTo(db, a, x);
        assert BelongsTo(t, a, x);
      }
    }
  }

  lemma ShrunkBelongs(db: Db, t: Db)
    requires MailboxesBelong(db)
    requires forall a :: a in t.mailboxes ==> a in db.mailboxes && t.mailboxes[a] == db.mailboxes[a]
    requires forall x :: x in t.domains ==> x in db.domains && t.domains[x] == db.domains[x]
    requires forall a, x :: a in t.mailboxes && BelongsTo(db, a, x) ==> x in t.domains
    ensures MailboxesBelong(t)
  {
    forall a | a in t.mailboxes
      ensures exists x :: BelongsTo(t, a, x)
    {
      var x :| BelongsTo(db, a, x);
      assert BelongsTo(t, a, x);
    }
  }

  lemma ProcessKeepsBelonging(db: Db, recipient: string, email: Email, e: Env)
    requires MailboxesBelong(db)
    ensures MailboxesBelong(Process(db, recipient, email, e).0)
  {
    hide Address.Parse, SaveParts, AddRows, Owned, MailboxesBelong, BelongsTo;
    var t := Process(db, recipient, email, e).0;
    var parsed := Address.Parse(recipient);
    if t.mailboxes == db.mailboxes && t.domains == db.domains {
      SameBelongs(db, t);
    } else {
      var address := Address.Print(parsed.value);
      NewBelongs(t, address, parsed.value.domain, parsed.value.local);
      AddedBelongs(db, t, address, parsed.value.domain);
    }
  }

  lemma SameBelongs(db: Db, t: Db)
    requires MailboxesBelong(db) && t.mailboxes == db.mailboxes && t.domains == db.domains
    ensures MailboxesBelong(t)
  {
    ShrunkBelongs(db, t);
  }

  lemma NewBelongs(t: Db, address: string, name: string, local: string)
    requires address in t.mailboxes && name in t.domains && address == local + "@" + name
    requires t.mailboxes[address].domainId == t.domains[name].id && t.mailboxes[address].localPart == local
    ensures BelongsTo(t, address, name)
  {
  }

  lemma {:induction false} DeliverKeepsBelonging(db: Db, recipients: seq<string>, email: Email, envs: seq<Env>, n: nat)
    requires n <= |recipients| == |envs| && MailboxesBelong(db)
    ensures MailboxesBelong(Deliver(db, recipients, email, envs, n).0)
  {
    hide Process, MailboxesBelong;
    if n > 0 {
      DeliverKeepsBelonging(db, recipients, email, envs, n - 1);
      ProcessKeepsBelonging(Deliver(db, recipients, email, envs, n - 1).0, recipients[n - 1], email, envs[n - 1]);
    }
  }

  lemma StepKeepsBelonging(db: Db, op: Op)
    requires MailboxesBelong(db)
    ensures MailboxesBelong(Do(db, op))
  {
    hide Deliver;
    match op
    case DataOp(recipients, email, envs) =>
      hide MailboxesBelong;
      if |envs| == |recipients| {
        DeliverKeepsBelonging(db, recipients, email, envs, |recipients|);
      }
    case PostOp(localPart, domain, read, insert) =>
      var t := Do(db, op);
      if t != db {
        hide MailboxesBelong;
        AddedBelongs(db, t, localPart + "@" + domain, domain);
      }
    case _ =>
      hide MailboxesBelong;
      ShrunkBelongs(db, Do(db, op));
  }

  /**
   Along every run each mailbox belongs to a domain that exists: its address is
   its local part at that domain's name, and it carries that domain's id.
   */
  lemma {:induction false} MailboxesKeepBelonging(db: Db, ops: seq<Op>)
    requires MailboxesBelong(db)
    ensures MailboxesBelong(Run(db, ops))
    decreases |ops|
  {
    hide MailboxesBelong, Do;
    if ops != [] {
      StepKeepsBelonging(db, ops[0]);
      MailboxesKeepBelonging(Do(db, ops[0]), ops[1..]);
    }
  }

  // -------------------------------------------------- the mailbox endpoint

  /** The endpoint's replies, each exactly; a mailbox is created only in a domain open for mail and at a new address. */
  lemma PostRepliesExactly(db: Db, localPart: string, domain: string, read: bool, insert: bool)
    ensures var (t, r) := PostMailbox(db, localPart, domain, read, insert);
            var open := domain in db.domains && db.domains[domain].isActive;
            var address := localPart + "@" + domain;
            && (r.Refused? <==> localPart == "" || (read && !open))
            && (r.Conflict? <==> localPart != "" && read && open && address in db.mailboxes)
            && (r.Failure? <==> localPart != "" && (!read || (open && address !in db.mailboxes && !insert)))
            && (!r.Created? ==> t == db)
            && (r.Created? ==>
                  && t == db.(mailboxes := t.mailboxes, nextMailbox := db.nextMailbox + 1)
                  && t.mailboxes == db.mailboxes[address := Mailbox(r.id, localPart, db.domains[domain].id)]
                  && r.id == db.nextMailbox)
  {
  }
}
