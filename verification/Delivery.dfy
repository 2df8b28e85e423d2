/**
 SMTP delivery into the store: a mail transaction (section 3.3 of RFC 5321) is
 fanned out to its recipients one by one. For each, the domain is looked up, the
 mailbox is got or created, the attachments are saved to disk, and the message
 and its attachment rows are inserted in one database transaction; then the hub
 is told. Any of these calls may fail, for each recipient separately.

 The functions say what a recipient and what a whole DATA command leave behind;
 class `Session` is the code with its loops and its rollback.
 */
module Delivery {
  import opened Basics
  import Address

  datatype Mailbox = Mailbox(id: nat, localPart: string, domainId: nat)

  datatype Message = Message(mailboxId: nat, sender: string, subject: string, body: string)

  datatype Attachment = Attachment(messageId: nat, filename: string, contentType: string, path: string, size: nat)

  datatype DomainRow = DomainRow(id: nat, isActive: bool)

  /** A broadcast handed to the WebSocket hub. */
  datatype Posting = Posting(mailboxId: nat, messageId: nat)

  /** Domains by name, mailboxes by full address (both are unique indexes), messages and attachments by id. */
  datatype Db = Db(
    domains: map<string, DomainRow>, mailboxes: map<string, Mailbox>,
    messages: map<nat, Message>, attachments: map<nat, Attachment>,
    files: set<string>, posted: seq<Posting>,
    nextMailbox: nat, nextMessage: nat, nextAttachment: nat)

  datatype Part = Part(filename: string, contentType: string, size: nat)

  datatype Email = Email(sender: string, subject: string, body: string, parts: seq<Part>)

  /**
   What the outside does for one recipient. `saves` gives, part by part, the
   path the file was saved under or None; `failsAt` is the number of the
   transaction's statement that fails, if any.
   */
  datatype Env = Env(
    domainRead: bool, mailboxRead: bool, mailboxInsert: bool, saves: seq<Option<string>>, failsAt: Option<nat>)

  /** What a delivered recipient got: its message and its attachment rows, numbered from firstRow. */
  datatype Receipt = Receipt(address: string, mailboxId: nat, messageId: nat, firstRow: nat, rows: seq<Attachment>)

  // -------------------------------------------------- the mailbox endpoint

  datatype PostReply = Created(id: nat) | Refused | Conflict | Failure

  /**
   The endpoint that creates a mailbox: `domain` is the name of the domain whose
   id was sent. The local part is stored as it was sent. The endpoint for a
   random mailbox does the same with a local part of its own, twice at most.
   */
  function PostMailbox(db: Db, localPart: string, domain: string, read: bool, insert: bool): (Db, PostReply) {
    var address := Address.Print(Address.Parts(localPart, domain));
    if localPart == "" then (db, Refused)
    else if !read then (db, Failure)
    else if domain !in db.domains || !db.domains[domain].isActive then (db, Refused)
    else if address in db.mailboxes then (db, Conflict)
    else if !insert then (db, Failure)
    else
      (db.(mailboxes := db.mailboxes[address := Mailbox(db.nextMailbox, localPart, db.domains[domain].id)],
           nextMailbox := db.nextMailbox + 1),
       Created(db.nextMailbox))
  }

  class MailboxHandler {
    var db: Db

    constructor (db: Db)
      ensures this.db == db
    {
      this.db := db;
    }

    method Create(localPart: string, domain: string, read: bool, insert: bool) returns (r: PostReply)
      modifies this`db
      ensures (db, r) == PostMailbox(old(db), localPart, domain, read, insert)
    {
      if localPart == "" {
        return Refused;
      }
      if !read {
        return Failure;
      }
      if domain !in db.domains {
        return Refused;
      }
      var row := db.domains[domain];
      if !row.isActive {
        return Refused;
      }
      var address := localPart + "@" + domain;
      if address in db.mailboxes {
        return Conflict;
      }
      if !insert {
        return Failure;
      }
      var id := db.nextMailbox;
      db := db.(mailboxes := db.mailboxes[address := Mailbox(id, localPart, row.id)], nextMailbox := id + 1);
      r := Created(id);
    }
  }

  // ------------------------------------------------------- one recipient

  /** The mailbox table after get-or-create; None when a call failed. */
  function GetOrCreate(db: Db, p: Address.Parts, e: Env): (Db, Option<nat>)
    requires p.domain in db.domains
  {
    var address := Address.Print(p);
    if !e.mailboxRead then (db, None)
    else if address in db.mailboxes then (db, Some(db.mailboxes[address].id))
    else if !e.mailboxInsert then (db, None)
    else
      (db.(mailboxes := db.mailboxes[address := Mailbox(db.nextMailbox, p.local, db.domains[p.domain].id)],
           nextMailbox := db.nextMailbox + 1),
       Some(db.nextMailbox))
  }

  function SaveOf(e: Env, i: nat): Option<string> {
    if i < |e.saves| then e.saves[i] else None
  }

  /** The files and the attachment rows after the first n parts; a part that cannot be saved is skipped. */
  function SaveParts(files: set<string>, parts: seq<Part>, e: Env, n: nat): (set<string>, seq<Attachment>)
    requires n <= |parts|
  {
    if n == 0 then (files, [])
    else
      var (before, rows) := SaveParts(files, parts, e, n - 1);
      var saved := SaveOf(e, n - 1);
      if saved.None? then (before, rows)
      else (before + {saved.value},
            rows + [Attachment(0, parts[n - 1].filename, parts[n - 1].contentType, saved.value, parts[n - 1].size)])
  }

  /** The rows with the message's id filled in. */
  function Owned(rows: seq<Attachment>, messageId: nat): seq<Attachment> {
    seq(|rows|, i requires 0 <= i < |rows| => rows[i].(messageId := messageId))
  }

  /** The table with the rows added, numbered from `first`. */
  function AddRows(table: map<nat, Attachment>, first: nat, rows: seq<Attachment>): map<nat, Attachment> {
    if rows == [] then table
    else
      var n := |rows| - 1;
      AddRows(table, first, rows[..n])[first + n := rows[n]]
  }

  /** The message and its rows, all or nothing; the ids used are spent either way. */
  function Insert(db: Db, m: Message, rows: seq<Attachment>, e: Env): (Db, bool) {
    var spent := db.(nextMessage := db.nextMessage + 1, nextAttachment := db.nextAttachment + |rows|);
    if e.failsAt.Some? && e.failsAt.value <= |rows| then (spent, false)
    else (spent.(messages := db.messages[db.nextMessage := m],
                 attachments := AddRows(db.attachments, db.nextAttachment, Owned(rows, db.nextMessage))),
          true)
  }

  function Process(db: Db, recipient: string, email: Email, e: Env): (Db, Option<Receipt>) {
    var parsed := Address.Parse(recipient);
    if parsed.None? || !e.domainRead || parsed.value.domain !in db.domains then (db, None)
    else
      var (withMailbox, mailbox) := GetOrCreate(db, parsed.value, e);
      if mailbox.None? then (withMailbox, None)
      else
        var (files, rows) := SaveParts(withMailbox.files, email.parts, e, |email.parts|);
        var stored := withMailbox.(files := files);
        var (inserted, ok) := Insert(stored, Message(mailbox.value, email.sender, email.subject, email.body), rows, e);
        if !ok then (inserted, None)
        else
          (inserted.(posted := inserted.posted + [Posting(mailbox.value, db.nextMessage)]),
           Some(Receipt(Address.Print(parsed.value), mailbox.value, db.nextMessage, db.nextAttachment,
                        Owned(rows, db.nextMessage))))
  }

  /** The first n recipients of one DATA command. */
  function Deliver(db: Db, recipients: seq<string>, email: Email, envs: seq<Env>, n: nat): (Db, seq<Option<Receipt>>)
    requires n <= |recipients| == |envs|
  {
    if n == 0 then (db, [])
    else
      var (before, outcomes) := Deliver(db, recipients, email, envs, n - 1);
      var (after, outcome) := Process(before, recipients[n - 1], email, envs[n - 1]);
      (after, outcomes + [outcome])
  }

  /** A message without a sender of its own gets the envelope's. */
  function WithSender(email: Email, from: string): Email {
    if email.sender == "" then email.(sender := from) else email
  }

  // ------------------------------------------------------------- the code

  datatype Reply =
    | Accepted | InvalidAddress | DomainNotFound | Temporary | DomainInactive | MailboxNotFound
    | NoRecipients | BadMessage

  function RcptReply(db: Db, to: string, autoProvision: bool, domainRead: bool, mailboxRead: bool): Reply {
    var parsed := Address.Parse(to);
    if parsed.None? then InvalidAddress
    else if !domainRead then Temporary
    else if parsed.value.domain !in db.domains then DomainNotFound
    else if !db.domains[parsed.value.domain].isActive then DomainInactive
    else if autoProvision then Accepted
    else if !mailboxRead then Temporary
    else if to !in db.mailboxes then MailboxNotFound
    else Accepted
  }

  class Session {
    var from: string
    var recipients: seq<string>
    var db: Db

    constructor (db: Db)
      ensures from == "" && recipients == [] && this.db == db
    {
      from, recipients, this.db := "", [], db;
    }

    method Mail(sender: string)
      modifies this`from
      ensures from == sender
    {
      from := sender;
    }

    method Rcpt(to: string, autoProvision: bool, domainRead: bool, mailboxRead: bool) returns (r: Reply)
      modifies this`recipients
      ensures r == RcptReply(db, to, autoProvision, domainRead, mailboxRead)
      ensures recipients == if r.Accepted? then old(recipients) + [to] else old(recipients)
    {
      var parsed := Address.Parse(to);
      if parsed.None? {
        return InvalidAddress;
      }
      if !domainRead {
        return Temporary;
      }
      if parsed.value.domain !in db.domains {
        return DomainNotFound;
      }
      if !db.domains[parsed.value.domain].isActive {
        return DomainInactive;
      }
      if !autoProvision {
        if !mailboxRead {
          return Temporary;
        }
        if to !in db.mailboxes {
          return MailboxNotFound;
        }
      }
      recipients := recipients + [to];
      r := Accepted;
    }

    method Reset()
      modifies this`from, this`recipients
      ensures from == "" && recipients == []
    {
      from, recipients := "", [];
    }

    /** The transaction: it works on a copy that is kept only if every statement succeeds. */
    method CreateWithAttachments(m: Message, rows: seq<Attachment>, e: Env) returns (ok: bool)
      modifies this`db
      ensures (db, ok) == Insert(old(db), m, rows, e)
    {
      var id, first := db.nextMessage, db.nextAttachment;
      var before := db.(nextMessage := id + 1, nextAttachment := first + |rows|);
      if e.failsAt == Some(0) {
        db := before;
        return false;
      }
      var messages := db.messages[id := m];
      var attachments := db.attachments;
      for i := 0 to |rows|
        invariant e.failsAt.Some? ==> e.failsAt.value > i
        invariant attachments == AddRows(db.attachments, first, Owned(rows, id)[..i])
        invariant db == old(db)
      {
        var row := rows[i].(messageId := id);
        if e.failsAt == Some(i + 1) {
          db := before;
          return false;
        }
        assert Owned(rows, id)[..i + 1][..i] == Owned(rows, id)[..i];
        attachments := attachments[first + i := row];
      }
      assert Owned(rows, id)[..|rows|] == Owned(rows, id);
      db := before.(messages := messages, attachments := attachments);
      ok := true;
    }

    method ProcessEmail(recipient: string, email: Email, e: Env) returns (receipt: Option<Receipt>)
      modifies this`db
      ensures (db, receipt) == Process(old(db), recipient, email, e)
    {
      hide Address.Parse, Address.Print, Insert, Owned;
      receipt := None;
      var parsed := Address.Parse(recipient);
      if parsed.None? || !e.domainRead || parsed.value.domain !in db.domains {
        return;
      }
      var (found, mailbox) := GetOrCreate(db, parsed.value, e);
      db := found;
      if mailbox.None? {
        return;
      }
      var message := Message(mailbox.value, email.sender, email.subject, email.body);
      var rows := [];
      var files := db.files;
      for i := 0 to |email.parts|
        invariant (files, rows) == SaveParts(db.files, email.parts, e, i)
      {
        var saved := SaveOf(e, i);
        if saved.Some? {
          files := files + {saved.value};
          var part := email.parts[i];
          rows := rows + [Attachment(0, part.filename, part.contentType, saved.value, part.size)];
        }
      }
      db := db.(files := files);
      var id, first := db.nextMessage, db.nextAttachment;
      var ok := CreateWithAttachments(message, rows, e);
      if !ok {
        return;
      }
      db := db.(posted := db.posted + [Posting(mailbox.value, id)]);
      receipt := Some(Receipt(Address.Print(parsed.value), mailbox.value, id, first, Owned(rows, id)));
    }

    /** DATA: failed recipients are skipped, and the reply does not tell. */
    method Data(email: Option<Email>, envs: seq<Env>) returns (r: Reply, outcomes: seq<Option<Receipt>>)
      requires |envs| == |recipients|
      modifies this`db
      ensures r == if recipients == [] then NoRecipients else if email.None? then BadMessage else Accepted
      ensures r.Accepted? ==>
                (db, outcomes) == Deliver(old(db), recipients, WithSender(email.value, from), envs, |recipients|)
      ensures !r.Accepted? ==> db == old(db) && outcomes == []
    {
      outcomes := [];
      if recipients == [] {
        return NoRecipients, [];
      }
      if email.None? {
        return BadMessage, [];
      }
      var parsed := email.value;
      if parsed.sender == "" {
        parsed := parsed.(sender := from);
      }
      for i := 0 to |recipients|
        invariant (db, outcomes) == Deliver(old(db), recipients, parsed, envs, i)
      {
        var receipt := ProcessEmail(recipients[i], parsed, envs[i]);
        outcomes := outcomes + [receipt];
      }
      r := Accepted;
    }
  }
}
