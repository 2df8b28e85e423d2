/**
 How a recipient is spelled and where its mail goes. RCPT without provisioning
 looks the address up as written; delivery files under the parsed parts. The two
 agree exactly on addresses in normal form, and which tables hold only such
 addresses depends on what deliveries and the mailbox endpoint put there.
 */
module Spelling {
  import opened Basics
  import opened Text
  import opened Delivery
  import opened DeliveryClaims
  import Address

  // ------------------------------------------------- tables in normal form

  ghost predicate NormalTable(db: Db) {
    forall a :: a in db.mailboxes ==> Address.Normal(a)
  }

  /** Mailbox addresses made of these parts are in normal form. */
  predicate Regular(p: Address.Parts) {
    Address.Plain(p) && Address.Survives(p)
  }

  /** Processing this recipient creates a mailbox for parts that are not regular. */
  predicate FilesOddly(db: Db, recipient: string, e: Env) {
    var parsed := Address.Parse(recipient);
    && parsed.Some? && e.domainRead && parsed.value.domain in db.domains
    && e.mailboxRead && Address.Print(parsed.value) !in db.mailboxes && e.mailboxInsert
    && !Regular(parsed.value)
  }

  /** So does this call of the mailbox endpoint. */
  predicate PostsOddly(db: Db, localPart: string, domain: string, read: bool, insert: bool) {
    PostMailbox(db, localPart, domain, read, insert).1.Created? && !Regular(Address.Parts(localPart, domain))
  }

  lemma ProcessMailboxes(db: Db, recipient: string, email: Email, e: Env)
    ensures var parsed := Address.Parse(recipient);
            Process(db, recipient, email, e).0.mailboxes ==
            if parsed.Some? && e.domainRead && parsed.value.domain in db.domains
            then GetOrCreate(db, parsed.value, e).0.mailboxes else db.mailboxes
  {
    hide Address.Parse, Address.Print, SaveParts, AddRows, Owned;
  }

  lemma ProcessNormalExactly(db: Db, recipient: string, email: Email, e: Env)
    ensures NormalTable(Process(db, recipient, email, e).0) <==> NormalTable(db) && !FilesOddly(db, recipient, e)
  {
    hide Process, Address.Parse, Address.Print, Address.Normal, Regular;
    ProcessMailboxes(db, recipient, email, e);
    var parsed := Address.Parse(recipient);
    if parsed.Some? {
      RegularExactly(parsed.value);
    }
  }

  lemma PostNormalExactly(db: Db, localPart: string, domain: string, read: bool, insert: bool)
    ensures NormalTable(PostMailbox(db, localPart, domain, read, insert).0) <==>
            NormalTable(db) && !PostsOddly(db, localPart, domain, read, insert)
  {
    hide Address.Print, Address.Normal, Regular;
    RegularExactly(Address.Parts(localPart, domain));
  }

  lemma RegularExactly(p: Address.Parts)
    ensures Regular(p) <==> Address.Normal(Address.Print(p))
  {
    Address.NormalExactly(p);
  }

  /** No recipient of the DATA command is filed oddly. */
  ghost predicate FilesPlainly(db: Db, recipients: seq<string>, email: Email, envs: seq<Env>, n: nat)
    requires n <= |recipients| == |envs|
  {
    forall k :: 0 <= k < n ==> !FilesOddly(Deliver(db, recipients, email, envs, k).0, recipients[k], envs[k])
  }

  lemma {:induction false} DeliverNormalExactly(db: Db, recipients: seq<string>, email: Email, envs: seq<Env>, n: nat)
    requires n <= |recipients| == |envs|
    ensures NormalTable(Deliver(db, recipients, email, envs, n).0) <==>
            NormalTable(db) && FilesPlainly(db, recipients, email, envs, n)
  {
    hide Process, NormalTable, FilesOddly;
    if n > 0 {
      DeliverNormalExactly(db, recipients, email, envs, n - 1);
      ProcessNormalExactly(Deliver(db, recipients, email, envs, n - 1).0, recipients[n - 1], email, envs[n - 1]);
    }
  }

  /** The operation creates no mailbox for parts that are not regular. */
  ghost predicate OpFilesPlainly(db: Db, op: Op) {
    match op
    case DataOp(recipients, email, envs) =>
      |envs| == |recipients| ==> FilesPlainly(db, recipients, email, envs, |recipients|)
    case PostOp(localPart, domain, read, insert) => !PostsOddly(db, localPart, domain, read, insert)
    case _ => true
  }

  ghost predicate RunFilesPlainly(db: Db, ops: seq<Op>)
    decreases |ops|
  {
    ops == [] || (OpFilesPlainly(db, ops[0]) && RunFilesPlainly(Do(db, ops[0]), ops[1..]))
  }

  /** The table is normal at every point of the run. */
  ghost predicate NormalAlong(db: Db, ops: seq<Op>)
    decreases |ops|
  {
    NormalTable(db) && (ops == [] || NormalAlong(Do(db, ops[0]), ops[1..]))
  }

  lemma StepNormalExactly(db: Db, op: Op)
    requires NormalTable(db)
    ensures NormalTable(Do(db, op)) <==> OpFilesPlainly(db, op)
  {
    hide Deliver, PostMailbox, Address.Normal, FilesPlainly, PostsOddly;
    match op
    case DataOp(recipients, email, envs) =>
      if |envs| == |recipients| {
        DeliverNormalExactly(db, recipients, email, envs, |recipients|);
      }
    case PostOp(localPart, domain, read, insert) => PostNormalExactly(db, localPart, domain, read, insert);
    case _ =>
  }

  /**
   All mailbox addresses stay in normal form along a run of deliveries, created
   mailboxes and deletes exactly when they are at its start and neither a
   delivery nor the endpoint creates a mailbox for parts that are not regular.
   */
  lemma {:induction false} TableNormalExactly(db: Db, ops: seq<Op>)
    ensures NormalAlong(db, ops) <==> NormalTable(db) && RunFilesPlainly(db, ops)
    ensures NormalAlong(db, ops) ==> NormalTable(Run(db, ops))
    decreases |ops|
  {
    hide NormalTable, OpFilesPlainly, Do;
    if ops != [] {
      TableNormalExactly(Do(db, ops[0]), ops[1..]);
      if NormalTable(db) {
        StepNormalExactly(db, ops[0]);
      }
    }
  }

  // ------------------------------------------------------ what RCPT finds

  /** The address belongs to a domain that is open for mail. */
  predicate Open(db: Db, to: string) {
    && Address.Parse(to).Some? && Address.Parse(to).value.domain in db.domains
    && db.domains[Address.Parse(to).value.domain].isActive
  }

  /** The table has a mailbox under this very spelling, which is not a normal one. */
  predicate OddlyFiled(db: Db, to: string) {
    to in db.mailboxes && !Address.Normal(to)
  }

  /**
   Without provisioning, in every table, a recipient of an open domain whose
   mailbox exists is accepted exactly when it is spelled in normal form or its
   odd spelling is itself on file. The latter never happens after a run that
   starts with a normal table and files nothing oddly.
   */
  lemma RcptNeedsNormalForm(start: Db, ops: seq<Op>, to: string)
    requires var db := Run(start, ops); Open(db, to) && Address.Print(Address.Parse(to).value) in db.mailboxes
    ensures var db := Run(start, ops);
            && (RcptReply(db, to, false, true, true).Accepted? <==> Address.Normal(to) || OddlyFiled(db, to))
            && RcptReply(db, to, true, true, true).Accepted?
    ensures NormalTable(start) && RunFilesPlainly(start, ops) ==> !OddlyFiled(Run(start, ops), to)
  {
    hide Address.Parse, Address.Print, Run, RunFilesPlainly;
    TableNormalExactly(start, ops);
  }

  // ----------------------------------------------- where accepted mail goes

  /** Mailboxes have ids of their own, below the counter. */
  ghost predicate DistinctIds(db: Db) {
    && (forall a :: a in db.mailboxes ==> db.mailboxes[a].id < db.nextMailbox)
    && (forall a, b :: a in db.mailboxes && b in db.mailboxes && db.mailboxes[a].id == db.mailboxes[b].id ==> a == b)
  }

  /** Later than db: ids are not reused. */
  ghost predicate Follows(db: Db, later: Db) {
    && db.nextMailbox <= later.nextMailbox
    && (forall a :: a in later.mailboxes && later.mailboxes[a].id < db.nextMailbox ==>
          a in db.mailboxes && db.mailboxes[a] == later.mailboxes[a])
  }

  /** The table gets at most one new mailbox, under the next id. */
  ghost predicate Grows(db: Db, later: Db) {
    || (later.mailboxes == db.mailboxes && later.nextMailbox == db.nextMailbox)
    || (later.nextMailbox == db.nextMailbox + 1
        && exists a: string, box: Mailbox ::
             box.id == db.nextMailbox && a !in db.mailboxes && later.mailboxes == db.mailboxes[a := box])
  }

  lemma GrownFollows(db: Db, mid: Db, later: Db)
    requires DistinctIds(mid) && Follows(db, mid) && Grows(mid, later)
    ensures DistinctIds(later) && Follows(db, later)
  {
  }

  lemma ProcessGrows(db: Db, recipient: string, email: Email, e: Env)
    ensures Grows(db, Process(db, recipient, email, e).0)
  {
    hide Address.Parse, Address.Print, SaveParts, AddRows, Owned;
  }

  lemma FollowsItself(db: Db)
    ensures Follows(db, db)
  {
  }

  lemma {:induction false} DeliverFollows(db: Db, recipients: seq<string>, email: Email, envs: seq<Env>, n: nat)
    requires n <= |recipients| == |envs| && DistinctIds(db)
    ensures var t := Deliver(db, recipients, email, envs, n).0; DistinctIds(t) && Follows(db, t)
  {
    hide Process, DistinctIds, Follows, Grows;
    if n == 0 {
      FollowsItself(db);
    } else {
      DeliverFollows(db, recipients, email, envs, n - 1);
      var mid := Deliver(db, recipients, email, envs, n - 1).0;
      ProcessGrows(mid, recipients[n - 1], email, envs[n - 1]);
      GrownFollows(db, mid, Process(mid, recipients[n - 1], email, envs[n - 1]).0);
    }
  }

  lemma PostGrows(db: Db, localPart: string, domain: string, read: bool, insert: bool)
    ensures Grows(db, PostMailbox(db, localPart, domain, read, insert).0)
  {
    hide Address.Print;
  }

  /** Mailboxes may go, nothing else happens to them. */
  predicate Shrinks(db: Db, later: Db) {
    && later.nextMailbox == db.nextMailbox
    && forall a :: a in later.mailboxes ==> a in db.mailboxes && later.mailboxes[a] == db.mailboxes[a]
  }

  lemma ShrunkFollows(db: Db, later: Db)
    requires DistinctIds(db) && Shrinks(db, later)
    ensures DistinctIds(later) && Follows(db, later)
  {
  }

  lemma DeleteShrinks(db: Db, op: Op)
    requires !op.DataOp? && !op.PostOp?
    ensures Shrinks(db, Do(db, op))
  {
  }

  lemma StepFollows(db: Db, op: Op)
    requires DistinctIds(db)
    ensures DistinctIds(Do(db, op)) && Follows(db, Do(db, op))
  {
    hide Deliver, PostMailbox, DistinctIds, Follows, Grows, Shrinks;
    FollowsItself(db);
    match op
    case DataOp(recipients, email, envs) =>
      if |envs| == |recipients| {
        DeliverFollows(db, recipients, email, envs, |recipients|);
      }
    case PostOp(localPart, domain, read, insert) =>
      PostGrows(db, localPart, domain, read, insert);
      GrownFollows(db, db, PostMailbox(db, localPart, domain, read, insert).0);
    case _ =>
      DeleteShrinks(db, op);
      ShrunkFollows(db, Do(db, op));
  }

  lemma FollowsOn(a: Db, b: Db, c: Db)
    requires Follows(a, b) && Follows(b, c)
    ensures Follows(a, c)
  {
  }

  lemma {:induction false} RunFollows(db: Db, ops: seq<Op>)
    requires DistinctIds(db)
    ensures DistinctIds(Run(db, ops)) && Follows(db, Run(db, ops))
    decreases |ops|
  {
    if ops != [] {
      StepFollows(db, ops[0]);
      RunFollows(Do(db, ops[0]), ops[1..]);
      hide Do, DistinctIds, Follows;
      FollowsOn(db, Do(db, ops[0]), Run(db, ops));
    }
  }

  /**
   A recipient accepted without provisioning and delivered to later, whatever
   happened in between: its message goes to the mailbox that RCPT found exactly
   when the recipient is spelled in normal form and that mailbox is still there.
   */
  lemma GoesWhereFoundExactly(db: Db, ops: seq<Op>, to: string, email: Email, e: Env)
    requires DistinctIds(db) && RcptReply(db, to, false, true, true).Accepted?
    requires Process(Run(db, ops), to, email, e).1.Some?
    ensures var later := Run(db, ops);
            var found := db.mailboxes[to].id;
            Process(later, to, email, e).1.value.mailboxId == found <==>
              Address.Normal(to) && to in later.mailboxes && later.mailboxes[to].id == found
  {
    hide Address.Parse, Address.Print, Run, SaveParts, AddRows, Owned;
    RunFollows(db, ops);
    var later := Run(db, ops);
    var address := Address.Print(Address.Parse(to).value);
    assert address in later.mailboxes && later.mailboxes[address].id == db.mailboxes[to].id ==> address == to;
  }

  /** Right after RCPT the spelling alone decides. */
  lemma GoesWhereFoundAtOnce(db: Db, to: string, email: Email, e: Env)
    requires DistinctIds(db) && RcptReply(db, to, false, true, true).Accepted? && Process(db, to, email, e).1.Some?
    ensures Process(db, to, email, e).1.value.mailboxId == db.mailboxes[to].id <==> Address.Normal(to)
  {
    GoesWhereFoundExactly(db, [], to, email, e);
  }

  /**
   A mailbox created with capitals in its local part is found as it was spelled
   and not in lower case, and mail accepted for it is filed under a new mailbox.
   */
  lemma CapitalsLeadAstray(db: Db, local: string, domain: string, email: Email, e: Env)
    requires DistinctIds(db) && domain in db.domains && db.domains[domain].isActive
    requires var p := Address.Parts(ToLower(local), domain); Regular(p) && Address.Print(p) !in db.mailboxes
    requires ToLower(local) != local && Address.Print(Address.Parts(local, domain)) !in db.mailboxes
    ensures var odd, regular := Address.Parts(local, domain), Address.Parts(ToLower(local), domain);
            var t := PostMailbox(db, local, domain, true, true).0;
            && RcptReply(t, Address.Print(odd), false, true, true).Accepted?
            && RcptReply(t, Address.Print(regular), false, true, true).MailboxNotFound?
            && (Process(t, Address.Print(odd), email, e).1.Some? ==>
                  var receipt := Process(t, Address.Print(odd), email, e).1.value;
                  receipt.address == Address.Print(regular)
                  && receipt.mailboxId == t.nextMailbox != t.mailboxes[Address.Print(odd)].id)
  {
    hide Address.Parse, SaveParts, AddRows, Owned, Regular, IsSpace;
    var odd, regular := Address.Parts(local, domain), Address.Parts(ToLower(local), domain);
    RegularSpellings(local, domain);
    assert Address.Print(odd)[..|local|] == local && Address.Print(regular)[..|local|] == ToLower(local);
  }

  lemma RegularSpellings(local: string, domain: string)
    requires Regular(Address.Parts(ToLower(local), domain))
    ensures var regular := Address.Parts(ToLower(local), domain);
            && local != ""
            && Address.Parse(Address.Print(Address.Parts(local, domain))) == Some(regular)
            && Address.Parse(Address.Print(regular)) == Some(regular)
  {
    var regular := Address.Parts(ToLower(local), domain);
    ToLowerIdempotent(local);
    ToLowerIdempotent(domain);
    ToLowerIdempotent(regular.local);
    hide Address.Parse;
    Address.SpellingsAgree(regular, local, domain);
    Address.SpellingsAgree(regular, regular.local, domain);
  }

  const ONE_DOMAIN := Db(map["x" := DomainRow(1, true)], map[], map[], map[], {}, [], 0, 0, 0)

  /** A concrete one: the mailbox `Foo` of the domain `x`. */
  lemma FooLeadsAstray(email: Email, e: Env)
    ensures var t := PostMailbox(ONE_DOMAIN, "Foo", "x", true, true).0;
            && RcptReply(t, "Foo@x", false, true, true).Accepted?
            && RcptReply(t, "foo@x", false, true, true).MailboxNotFound?
            && (Process(t, "Foo@x", email, e).1.Some? ==> Process(t, "Foo@x", email, e).1.value.address == "foo@x")
  {
    hide Address.Parse, Process, PostMailbox, RcptReply;
    FooIsRegular();
    assert Address.Print(Address.Parts("Foo", "x")) == "Foo@x" && Address.Print(Address.Parts("foo", "x")) == "foo@x";
    CapitalsLeadAstray(ONE_DOMAIN, "Foo", "x", email, e);
  }

  lemma FooIsRegular()
    ensures ToLower("Foo") == "foo" && Regular(Address.Parts("foo", "x"))
  {
    assert ToLower("Foo")[0] == 'f' && ToLower("Foo")[1] == 'o' && ToLower("Foo")[2] == 'o';
  }

  /**
   The other odd spellings: a mailbox filed under parts that do not survive is
   found under its own spelling, which is not the normal form of the address it
   is read as.
   */
  lemma OddMailboxFound(db: Db, p: Address.Parts)
    requires !Regular(p) && Address.Print(p) in db.mailboxes && Open(db, Address.Print(p))
    ensures RcptReply(db, Address.Print(p), false, true, true).Accepted? && !Address.Normal(Address.Print(p))
  {
    hide Address.Parse, Address.Print, Regular;
    RegularExactly(p);
  }
}
