/**
 What one DATA command leaves in the store, and what every state of the store
 keeps: attachment rows always have their file.
 */
module DeliveryClaims {
  import opened Basics
  import opened Delivery
  import Address

  // ------------------------------------------------ what was delivered

  /** The table has these rows, numbered from `first`. */
  ghost predicate HoldsRows(table: map<nat, Attachment>, first: nat, rows: seq<Attachment>) {
    forall a :: first <= a < first + |rows| ==> a in table && table[a] == rows[a - first]
  }

  /**
   The receipt's message is in db, in the mailbox of its address, and its rows
   are exactly db's rows for that message.
   */
  ghost predicate Honoured(db: Db, r: Receipt, email: Email) {
    && r.messageId in db.messages
    && db.messages[r.messageId] == Message(r.mailboxId, email.sender, email.subject, email.body)
    && r.address in db.mailboxes && db.mailboxes[r.address].id == r.mailboxId
    && (forall i :: 0 <= i < |r.rows| ==> r.rows[i].messageId == r.messageId)
    && HoldsRows(db.attachments, r.firstRow, r.rows)
    && (forall a :: a in db.attachments ==>
          (db.attachments[a].messageId == r.messageId <==> r.firstRow <= a < r.firstRow + |r.rows|))
  }

  function Postings(outcomes: seq<Option<Receipt>>): seq<Posting> {
    if outcomes == [] then []
    else
      var n := |outcomes| - 1;
      Postings(outcomes[..n])
      + (if outcomes[n].Some? then [Posting(outcomes[n].value.mailboxId, outcomes[n].value.messageId)] else [])
  }

  predicate HasReceipt(outcomes: seq<Option<Receipt>>, k: int, messageId: nat) {
    0 <= k < |outcomes| && outcomes[k].Some? && outcomes[k].value.messageId == messageId
  }

  /** New messages and new attachment rows are those of the receipts and no others; nothing old changed. */
  ghost predicate OnlyReceipts(before: Db, after: Db, outcomes: seq<Option<Receipt>>) {
    && (forall m :: m in before.messages ==> m in after.messages && after.messages[m] == before.messages[m])
    && (forall m :: m in after.messages && m !in before.messages ==> exists k :: HasReceipt(outcomes, k, m))
    && (forall a :: a in before.attachments ==> a in after.attachments && after.attachments[a] == before.attachments[a])
    && (forall a :: a in after.attachments && a !in before.attachments ==>
                    exists k :: HasReceipt(outcomes, k, after.attachments[a].messageId))
    && after.posted == before.posted + Postings(outcomes)
  }

  /** Ids in use are below the counters, and attachments belong to messages that exist. */
  ghost predicate Numbered(db: Db) {
    && (forall m :: m in db.messages ==> m < db.nextMessage)
    && (forall a :: a in db.attachments ==> a < db.nextAttachment && db.attachments[a].messageId < db.nextMessage)
  }

  lemma {:induction false} AddRowsMeans(table: map<nat, Attachment>, first: nat, rows: seq<Attachment>)
    requires forall a :: a in table ==> a < first
    ensures var t := AddRows(table, first, rows);
            && (forall a :: a in t <==> a in table || first <= a < first + |rows|)
            && (forall a :: a in table ==> t[a] == table[a])
            && HoldsRows(t, first, rows)
    decreases |rows|
  {
    if rows != [] {
      AddRowsMeans(table, first, rows[..|rows| - 1]);
    }
  }

  /** The files written are exactly those of the parts that could be saved; nothing is removed. */
  lemma {:induction false} SavedFilesExactly(files: set<string>, parts: seq<Part>, e: Env, n: nat)
    requires n <= |parts|
    ensures forall path :: path in SaveParts(files, parts, e, n).0 <==>
              path in files || exists i: nat :: i < n && SaveOf(e, i) == Some(path)
  {
    if n > 0 {
      SavedFilesExactly(files, parts, e, n - 1);
    }
  }

  /** The rows do not depend on the files already there. */
  lemma {:induction false} RowsIgnoreFiles(files: set<string>, parts: seq<Part>, e: Env, n: nat)
    requires n <= |parts|
    ensures SaveParts(files, parts, e, n).1 == SaveParts({}, parts, e, n).1
  {
    if n > 0 {
      RowsIgnoreFiles(files, parts, e, n - 1);
    }
  }

  /** The rows a recipient should get: one per part that could be saved, in order. */
  function RowsFor(email: Email, e: Env, messageId: nat): seq<Attachment> {
    Owned(SaveParts({}, email.parts, e, |email.parts|).1, messageId)
  }

  predicate Climbing(at: seq<nat>) {
    forall i, j :: 0 <= i < j < |at| ==> at[i] < at[j]
  }

  /** The list names the parts that could be saved, in their order. */
  ghost predicate NamesSaved(at: seq<nat>, parts: seq<Part>, e: Env, n: nat) {
    && Climbing(at)
    && (forall i: nat :: i in at <==> i < n <= |parts| && SaveOf(e, i).Some?)
  }

  /** Row by row, what the parts named by the list say, with the path each was saved under. */
  ghost predicate RowsOf(rows: seq<Attachment>, messageId: nat, at: seq<nat>, parts: seq<Part>, e: Env) {
    && |rows| == |at|
    && forall j :: 0 <= j < |at| ==>
         && at[j] < |parts| && SaveOf(e, at[j]).Some?
         && rows[j].messageId == messageId
         && rows[j].filename == parts[at[j]].filename
         && rows[j].contentType == parts[at[j]].contentType
         && rows[j].path == SaveOf(e, at[j]).value
         && rows[j].size == parts[at[j]].size
  }

  /** One row per part that could be saved and no other, in order, under the message's id. */
  ghost predicate RowsTell(rows: seq<Attachment>, messageId: nat, parts: seq<Part>, e: Env) {
    exists at: seq<nat> :: NamesSaved(at, parts, e, |parts|) && RowsOf(rows, messageId, at, parts, e)
  }

  lemma SavedNamesGrow(before: seq<nat>, parts: seq<Part>, e: Env, n: nat)
    requires 0 < n <= |parts| && NamesSaved(before, parts, e, n - 1)
    ensures NamesSaved(if SaveOf(e, n - 1).Some? then before + [n - 1] else before, parts, e, n)
  {
    hide SaveOf;
    var at := if SaveOf(e, n - 1).Some? then before + [n - 1] else before;
    forall i: nat
      ensures i in at <==> i < n && SaveOf(e, i).Some?
    {
      assert i in at <==> i in before || (i == n - 1 && SaveOf(e, i).Some?);
    }
    assert forall i :: 0 <= i < |before| ==> before[i] in before;
  }

  lemma RowsGrow(before: seq<nat>, rows: seq<Attachment>, row: Attachment, parts: seq<Part>, e: Env, n: nat)
    requires 0 < n <= |parts| && RowsOf(rows, 0, before, parts, e) && SaveOf(e, n - 1).Some?
    requires var part := parts[n - 1];
             row == Attachment(0, part.filename, part.contentType, SaveOf(e, n - 1).value, part.size)
    ensures RowsOf(rows + [row], 0, before + [n - 1], parts, e)
  {
    hide SaveOf;
  }

  lemma SavePartsStep(parts: seq<Part>, e: Env, n: nat)
    requires 0 < n <= |parts|
    ensures var before, after := SaveParts({}, parts, e, n - 1).1, SaveParts({}, parts, e, n).1;
            && (SaveOf(e, n - 1).None? ==> after == before)
            && (SaveOf(e, n - 1).Some? ==>
                  && |after| == |before| + 1 && after == before + [after[|before|]]
                  && after[|before|] == Attachment(0, parts[n - 1].filename, parts[n - 1].contentType,
                                                   SaveOf(e, n - 1).value, parts[n - 1].size))
  {
    hide SaveOf;
  }

  lemma NothingSaved(parts: seq<Part>, e: Env)
    ensures NamesSaved([], parts, e, 0) && RowsOf(SaveParts({}, parts, e, 0).1, 0, [], parts, e)
  {
  }

  lemma {:induction false} SavedRowsTell(parts: seq<Part>, e: Env, n: nat) returns (at: seq<nat>)
    requires n <= |parts|
    ensures NamesSaved(at, parts, e, n)
    ensures RowsOf(SaveParts({}, parts, e, n).1, 0, at, parts, e)
  {
    hide NamesSaved, RowsOf, SaveOf, SaveParts;
    if n == 0 {
      NothingSaved(parts, e);
      at := [];
    } else {
      at := SavedRowsTell(parts, e, n - 1);
      SavedNamesGrow(at, parts, e, n);
      SavePartsStep(parts, e, n);
      if SaveOf(e, n - 1).Some? {
        var rows := SaveParts({}, parts, e, n - 1).1;
        RowsGrow(at, rows, SaveParts({}, parts, e, n).1[|rows|], parts, e, n);
        at := at + [n - 1];
      }
    }
  }

  lemma RowsForTell(email: Email, e: Env, messageId: nat)
    ensures RowsTell(RowsFor(email, e, messageId), messageId, email.parts, e)
  {
    hide SaveParts, NamesSaved;
    var at := SavedRowsTell(email.parts, e, |email.parts|);
    assert RowsOf(RowsFor(email, e, messageId), messageId, at, email.parts, e);
  }

  /** How many of the parts can be saved. */
  ghost function SavedCount(parts: seq<Part>, e: Env): nat {
    |set i | 0 <= i < |parts| && SaveOf(e, i).Some?|
  }

  lemma {:induction false} ClimbingCount(at: seq<nat>, s: set<nat>)
    requires Climbing(at) && forall i: nat :: i in at <==> i in s
    ensures |at| == |s|
    decreases |at|
  {
    if at == [] {
      assert s == {};
    } else {
      var n := |at| - 1;
      forall i: nat
        ensures i in at[..n] <==> i in s - {at[n]}
      {
        assert i in at <==> i in at[..n] || i == at[n];
      }
      ClimbingCount(at[..n], s - {at[n]});
      assert at[n] in s;
    }
  }

  lemma RowsForCount(email: Email, e: Env, messageId: nat)
    ensures |RowsFor(email, e, messageId)| == SavedCount(email.parts, e)
  {
    hide SaveParts;
    var at := SavedRowsTell(email.parts, e, |email.parts|);
    var saved := set i: nat | i < |email.parts| && SaveOf(e, i).Some?;
    assert saved == set i | 0 <= i < |email.parts| && SaveOf(e, i).Some?;
    ClimbingCount(at, saved);
  }

  /**
   A failed recipient adds no message, no attachment row and no broadcast; a
   delivered one adds exactly its receipt.
   */
  ghost predicate ProcessedWell(db: Db, t: Db, recipient: string, email: Email, e: Env, out: Option<Receipt>) {
    && Numbered(t) && db.nextMessage <= t.nextMessage && db.nextAttachment <= t.nextAttachment
    && (forall x :: x in db.mailboxes ==> x in t.mailboxes && t.mailboxes[x] == db.mailboxes[x])
    && (out.None? ==> t.messages == db.messages && t.attachments == db.attachments && t.posted == db.posted)
    && (out.Some? ==>
          var r := out.value;
          && Address.Parse(recipient).Some? && r.address == Address.Print(Address.Parse(recipient).value)
          && r.messageId == db.nextMessage && r.messageId < t.nextMessage && r.firstRow == db.nextAttachment
          && r.rows == RowsFor(email, e, r.messageId) && RowsTell(r.rows, r.messageId, email.parts, e)
          && r.address in t.mailboxes && t.mailboxes[r.address].id == r.mailboxId
          && t.messages == db.messages[r.messageId := Message(r.mailboxId, email.sender, email.subject, email.body)]
          && t.attachments == AddRows(db.attachments, db.nextAttachment, r.rows)
          && t.posted == db.posted + [Posting(r.mailboxId, r.messageId)])
  }

  /** The transaction: on success the message and its rows are there, on failure neither is. */
  lemma InsertMeans(db: Db, m: Message, rows: seq<Attachment>, e: Env)
    requires Numbered(db)
    ensures var (t, ok) := Insert(db, m, rows, e);
            && Numbered(t) && t.nextMessage == db.nextMessage + 1 && t.nextAttachment == db.nextAttachment + |rows|
            && (ok ==> t.messages == db.messages[db.nextMessage := m]
                       && t.attachments == AddRows(db.attachments, db.nextAttachment, Owned(rows, db.nextMessage)))
            && (!ok ==> t.messages == db.messages && t.attachments == db.attachments)
  {
    hide AddRows;
    var owned := Owned(rows, db.nextMessage);
    AddRowsMeans(db.attachments, db.nextAttachment, owned);
    var table := AddRows(db.attachments, db.nextAttachment, owned);
    forall a | a in table && a !in db.attachments
      ensures table[a].messageId == db.nextMessage
    {
      assert table[a] == owned[a - db.nextAttachment];
    }
  }

  lemma ProcessMeans(db: Db, recipient: string, email: Email, e: Env)
    requires Numbered(db)
    ensures var (t, out) := Process(db, recipient, email, e); ProcessedWell(db, t, recipient, email, e, out)
  {
    hide Address.Parse, SaveParts, Insert, Owned, AddRows, RowsTell;
    RowsForTell(email, e, db.nextMessage);
    var (t, out) := Process(db, recipient, email, e);
    var parsed := Address.Parse(recipient);
    if parsed.Some? && e.domainRead && parsed.value.domain in db.domains {
      var (withMailbox, mailbox) := GetOrCreate(db, parsed.value, e);
      RowsIgnoreFiles(withMailbox.files, email.parts, e, |email.parts|);
      if mailbox.Some? {
        var (files, rows) := SaveParts(withMailbox.files, email.parts, e, |email.parts|);
        var message := Message(mailbox.value, email.sender, email.subject, email.body);
        InsertMeans(withMailbox.(files := files), message, rows, e);
        InsertLeavesRest(withMailbox.(files := files), message, rows, e);
      }
    }
  }

  /**
   A recipient is delivered to exactly when its address parses, its domain and
   mailbox calls work, and the transaction fails at none of its statements: the
   message and one row per part that could be saved.
   */
  lemma DeliveredExactlyWhen(db: Db, recipient: string, email: Email, e: Env)
    ensures Process(db, recipient, email, e).1.Some? <==>
              && Address.Parse(recipient).Some? && e.domainRead && Address.Parse(recipient).value.domain in db.domains
              && e.mailboxRead && (Address.Print(Address.Parse(recipient).value) in db.mailboxes || e.mailboxInsert)
              && (e.failsAt.Some? ==> e.failsAt.value > SavedCount(email.parts, e))
  {
    hide Address.Parse, Address.Print, SaveParts, SavedCount;
    RowsForCount(email, e, 0);
    var parsed := Address.Parse(recipient);
    if parsed.Some? && e.domainRead && parsed.value.domain in db.domains {
      RowsIgnoreFiles(GetOrCreate(db, parsed.value, e).0.files, email.parts, e, |email.parts|);
    }
  }

  lemma InsertLeavesRest(db: Db, m: Message, rows: seq<Attachment>, e: Env)
    ensures var t := Insert(db, m, rows, e).0;
            t.mailboxes == db.mailboxes && t.posted == db.posted && t.files == db.files
  {
  }

  lemma FreshReceiptHonoured(db: Db, t: Db, recipient: string, email: Email, e: Env, out: Option<Receipt>)
    requires Numbered(db) && ProcessedWell(db, t, recipient, email, e, out) && out.Some?
    ensures Honoured(t, out.value, email)
    ensures forall a :: a in t.attachments && a !in db.attachments ==> t.attachments[a].messageId == out.value.messageId
    ensures forall a :: a in db.attachments ==> a in t.attachments && t.attachments[a] == db.attachments[a]
  {
    hide RowsFor, RowsTell, AddRows;
    var r := out.value;
    OwnedMeans(email, e, r.messageId);
    hide Address.Parse, Address.Print;
    NewRowsBelong(db.attachments, db.nextAttachment, r.rows, r.messageId);
  }

  /** Rows of one message, added above the table: they and only they are the new ones. */
  lemma NewRowsBelong(table: map<nat, Attachment>, first: nat, rows: seq<Attachment>, messageId: nat)
    requires forall a :: a in table ==> a < first
    requires forall i :: 0 <= i < |rows| ==> rows[i].messageId == messageId
    ensures var t := AddRows(table, first, rows);
            && HoldsRows(t, first, rows)
            && (forall a :: a in table ==> a in t && t[a] == table[a])
            && (forall a :: a in t && a !in table ==> first <= a < first + |rows| && t[a].messageId == messageId)
  {
    hide AddRows;
    AddRowsMeans(table, first, rows);
    var t := AddRows(table, first, rows);
    forall a | a in t && a !in table
      ensures t[a].messageId == messageId
    {
      assert t[a] == rows[a - first];
    }
  }

  lemma OwnedMeans(email: Email, e: Env, messageId: nat)
    ensures var rows := RowsFor(email, e, messageId);
            forall i :: 0 <= i < |rows| ==> rows[i].messageId == messageId
  {
  }

  lemma HonouredFrame(db: Db, t: Db, r: Receipt, email: Email)
    requires Honoured(db, r, email)
    requires r.messageId in t.messages && t.messages[r.messageId] == db.messages[r.messageId]
    requires r.address in t.mailboxes && t.mailboxes[r.address] == db.mailboxes[r.address]
    requires forall a :: a in db.attachments ==> a in t.attachments && t.attachments[a] == db.attachments[a]
    requires forall a :: a in t.attachments && a !in db.attachments ==> t.attachments[a].messageId != r.messageId
    ensures Honoured(t, r, email)
  {
  }

  /** Later recipients do not disturb an earlier receipt. */
  lemma HonouredStays(db: Db, t: Db, recipient: string, email: Email, e: Env, out: Option<Receipt>, r: Receipt)
    requires Numbered(db) && ProcessedWell(db, t, recipient, email, e, out)
    requires Honoured(db, r, email)
    ensures Honoured(t, r, email)
  {
    hide RowsFor, AddRows, HoldsRows;
    if out.Some? {
      FreshReceiptHonoured(db, t, recipient, email, e, out);
    }
    HonouredFrame(db, t, r, email);
  }

  /** What DATA has done after n recipients. */
  ghost predicate DeliveredWell(
    db: Db, t: Db, recipients: seq<string>, email: Email, envs: seq<Env>, outcomes: seq<Option<Receipt>>)
    requires |envs| == |recipients|
  {
    && |outcomes| <= |recipients|
    && Numbered(t) && db.nextMessage <= t.nextMessage
    && OnlyReceipts(db, t, outcomes)
    && (forall k :: 0 <= k < |outcomes| && outcomes[k].Some? ==>
          && Honoured(t, outcomes[k].value, email)
          && db.nextMessage <= outcomes[k].value.messageId
          && AddressedTo(outcomes[k].value, recipients[k])
          && RowsTell(outcomes[k].value.rows, outcomes[k].value.messageId, email.parts, envs[k]))
    && (forall i, j :: 0 <= i < j < |outcomes| && outcomes[i].Some? && outcomes[j].Some? ==>
          outcomes[i].value.messageId < outcomes[j].value.messageId)
  }

  predicate AddressedTo(r: Receipt, recipient: string) {
    Address.Parse(recipient).Some? && r.address == Address.Print(Address.Parse(recipient).value)
  }

  lemma {:induction false} DeliverMeans(db: Db, recipients: seq<string>, email: Email, envs: seq<Env>, n: nat)
    requires Numbered(db) && n <= |recipients| == |envs|
    ensures |Deliver(db, recipients, email, envs, n).1| == n
    ensures DeliveredWell(db, Deliver(db, recipients, email, envs, n).0, recipients, email, envs,
                          Deliver(db, recipients, email, envs, n).1)
  {
    hide Process, Address.Parse;
    if n > 0 {
      DeliverMeans(db, recipients, email, envs, n - 1);
      var (mid, outcomes) := Deliver(db, recipients, email, envs, n - 1);
      ProcessMeans(mid, recipients[n - 1], email, envs[n - 1]);
      var (t, out) := Process(mid, recipients[n - 1], email, envs[n - 1]);
      OneMoreRecipient(db, mid, t, recipients, email, envs, outcomes, out);
    }
  }

  lemma OneMoreRecipient(db: Db, mid: Db, t: Db, recipients: seq<string>, email: Email, envs: seq<Env>,
                         outcomes: seq<Option<Receipt>>, out: Option<Receipt>)
    requires |envs| == |recipients| && |outcomes| < |recipients|
    requires DeliveredWell(db, mid, recipients, email, envs, outcomes)
    requires ProcessedWell(mid, t, recipients[|outcomes|], email, envs[|outcomes|], out)
    ensures DeliveredWell(db, t, recipients, email, envs, outcomes + [out])
  {
    hide RowsFor, Address.Parse, Honoured;
    var n := |outcomes|;
    var more := outcomes + [out];
    assert more[..n] == outcomes;
    forall k | 0 <= k < n && outcomes[k].Some?
      ensures Honoured(t, outcomes[k].value, email) && outcomes[k].value.messageId < mid.nextMessage
    {
      HonouredStays(mid, t, recipients[n], email, envs[n], out, outcomes[k].value);
      ReceiptIsOld(mid, outcomes[k].value, email);
    }
    if out.Some? {
      FreshReceiptHonoured(mid, t, recipients[n], email, envs[n], out);
    }
    ReceiptsExtend(db, mid, t, outcomes, out);
  }

  lemma ReceiptIsOld(db: Db, r: Receipt, email: Email)
    requires Numbered(db) && Honoured(db, r, email)
    ensures r.messageId < db.nextMessage
  {
  }

  lemma ReceiptsExtend(db: Db, mid: Db, t: Db, outcomes: seq<Option<Receipt>>, out: Option<Receipt>)
    requires OnlyReceipts(db, mid, outcomes)
    requires out.None? ==> t.messages == mid.messages && t.attachments == mid.attachments && t.posted == mid.posted
    requires out.Some? ==>
               && (forall m :: m in mid.messages ==> m in t.messages && t.messages[m] == mid.messages[m])
               && (forall m :: m in t.messages && m !in mid.messages ==> m == out.value.messageId)
               && (forall a :: a in mid.attachments ==> a in t.attachments && t.attachments[a] == mid.attachments[a])
               && (forall a :: a in t.attachments && a !in mid.attachments ==>
                     t.attachments[a].messageId == out.value.messageId)
               && t.posted == mid.posted + [Posting(out.value.mailboxId, out.value.messageId)]
    ensures OnlyReceipts(db, t, outcomes + [out])
  {
    var n := |outcomes|;
    var more := outcomes + [out];
    assert more[..n] == outcomes;
    forall k, m: nat | HasReceipt(outcomes, k, m)
      ensures HasReceipt(more, k, m)
    {
    }
    if out.Some? {
      assert HasReceipt(more, n, out.value.messageId);
    }
  }

  /**
   One DATA command adds, for each recipient processed successfully, exactly
   one message in the mailbox of that recipient's normalised address, with one
   attachment row per saved part and all of them under that message's id; for
   a failed recipient it adds neither. Every broadcast names a message that is
   committed, in the mailbox it is filed in, one per success, in order.
   */
  lemma DataAddsExactlyTheReceipts(db: Db, recipients: seq<string>, email: Email, envs: seq<Env>)
    requires Numbered(db) && |recipients| == |envs|
    ensures var (t, outcomes) := Deliver(db, recipients, email, envs, |recipients|);
            && |outcomes| == |recipients|
            && DeliveredWell(db, t, recipients, email, envs, outcomes)
            && t.posted == db.posted + Postings(outcomes)
            && (forall k :: 0 <= k < |outcomes| && outcomes[k].Some? ==>
                  outcomes[k].value.messageId in t.messages
                  && t.messages[outcomes[k].value.messageId].mailboxId == outcomes[k].value.mailboxId)
  {
    hide Address.Parse;
    DeliverMeans(db, recipients, email, envs, |recipients|);
  }

  /**
   What DATA files says who sent it: the message's own sender, or the
   envelope's if it names none; the rest is as parsed.
   */
  lemma FiledAsSent(db: Db, from: string, recipients: seq<string>, email: Email, envs: seq<Env>)
    requires Numbered(db) && |recipients| == |envs|
    ensures var (t, outcomes) := Deliver(db, recipients, WithSender(email, from), envs, |recipients|);
            |outcomes| == |recipients| &&
            forall k :: 0 <= k < |outcomes| && outcomes[k].Some? ==>
              var r := outcomes[k].value;
              && r.messageId in t.messages
              && t.messages[r.messageId].sender == (if email.sender != "" then email.sender else from)
              && t.messages[r.messageId].subject == email.subject
              && t.messages[r.messageId].body == email.body
              && RowsTell(r.rows, r.messageId, email.parts, envs[k])
  {
    hide Deliver, RowsTell, Numbered, OnlyReceipts, AddressedTo, Climbing, HoldsRows, WithSender;
    var sent := WithSender(email, from);
    DataAddsExactlyTheReceipts(db, recipients, sent, envs);
    SentFields(email, from);
    var (t, outcomes) := Deliver(db, recipients, sent, envs, |recipients|);
    forall k | 0 <= k < |outcomes| && outcomes[k].Some?
      ensures Honoured(t, outcomes[k].value, sent)
    {
    }
  }

  lemma SentFields(email: Email, from: string)
    ensures var sent := WithSender(email, from);
            && sent.sender == (if email.sender != "" then email.sender else from)
            && sent.subject == email.subject && sent.body == email.body && sent.parts == email.parts
  {
  }

  // --------------------------------------------------- every row has its file

  datatype Op =
    | DataOp(recipients: seq<string>, email: Email, envs: seq<Env>)
    | PostOp(localPart: string, domain: string, read: bool, insert: bool)
    | DeleteAttachment(id: nat, read: bool, deleted: bool, fileRemoved: bool)
    | DeleteMessage(id: nat)
    | DeleteMailbox(address: string)
    | DeleteDomain(name: string)

  /** Messages whose mailbox is gone go, and attachments whose message is gone go; files stay. */
  function Cascade(db: Db, mailboxes: map<string, Mailbox>, gone: set<nat>): Db {
    var messages := map m | m in db.messages && m !in gone :: db.messages[m];
    db.(mailboxes := mailboxes, messages := messages,
        attachments := map a | a in db.attachments && db.attachments[a].messageId in messages :: db.attachments[a])
  }

  function MessagesIn(db: Db, boxes: set<nat>): set<nat> {
    set m | m in db.messages && db.messages[m].mailboxId in boxes
  }

  function Do(db: Db, op: Op): Db {
    match op
    case DataOp(recipients, email, envs) =>
      if |envs| == |recipients| then Deliver(db, recipients, email, envs, |recipients|).0 else db
    case PostOp(localPart, domain, read, insert) => PostMailbox(db, localPart, domain, read, insert).0
    case DeleteAttachment(id, read, deleted, fileRemoved) =>
      if id !in db.attachments || !read || !deleted then db
      else db.(attachments := db.attachments - {id},
               files := if fileRemoved then db.files - {db.attachments[id].path} else db.files)
    case DeleteMessage(id) => Cascade(db, db.mailboxes, {id})
    case DeleteMailbox(address) =>
      if address !in db.mailboxes then db
      else Cascade(db, db.mailboxes - {address}, MessagesIn(db, {db.mailboxes[address].id}))
    case DeleteDomain(name) =>
      if name !in db.domains then db
      else
        var boxes := set a | a in db.mailboxes && db.mailboxes[a].domainId == db.domains[name].id :: db.mailboxes[a].id;
        Cascade(db.(domains := db.domains - {name}),
                map a | a in db.mailboxes && db.mailboxes[a].domainId != db.domains[name].id :: db.mailboxes[a],
                MessagesIn(db, boxes))
  }

  function Run(db: Db, ops: seq<Op>): Db
    decreases |ops|
  {
    if ops == [] then db else Run(Do(db, ops[0]), ops[1..])
  }

  /** Every saved file gets a name that no file has. */
  ghost predicate FreshSaves(files: set<string>, parts: seq<Part>, e: Env) {
    forall n :: 0 <= n < |parts| && SaveOf(e, n).Some? ==> SaveOf(e, n).value !in SaveParts(files, parts, e, n).0
  }

  ghost predicate FreshOp(db: Db, op: Op) {
    op.DataOp? && |op.envs| == |op.recipients| ==>
      forall n :: 0 <= n < |op.recipients| ==>
        FreshSaves(Deliver(db, op.recipients, op.email, op.envs, n).0.files, op.email.parts, op.envs[n])
  }

  ghost predicate FreshRun(db: Db, ops: seq<Op>)
    decreases |ops|
  {
    ops == [] || (FreshOp(db, ops[0]) && FreshRun(Do(db, ops[0]), ops[1..]))
  }

  /** Every attachment row's file is on disk, no two rows share one, and every row's message exists. */
  ghost predicate FilesKept(db: Db) {
    && Numbered(db)
    && (forall a :: a in db.attachments ==>
          db.attachments[a].path in db.files && db.attachments[a].messageId in db.messages)
    && (forall a, b ::
          a in db.attachments && b in db.attachments && db.attachments[a].path == db.attachments[b].path ==> a == b)
  }

  /** The paths saved for one recipient are new, on disk, and pairwise different. */
  lemma {:induction false} SavedPaths(files: set<string>, parts: seq<Part>, e: Env, n: nat)
    requires n <= |parts| && FreshSaves(files, parts, e)
    ensures var (after, rows) := SaveParts(files, parts, e, n);
            && files <= after
            && (forall i :: 0 <= i < |rows| ==> rows[i].path in after && rows[i].path !in files)
            && (forall i, j :: 0 <= i < j < |rows| ==> rows[i].path != rows[j].path)
  {
    if n > 0 {
      SavedPaths(files, parts, e, n - 1);
      var (before, rows) := SaveParts(files, parts, e, n - 1);
      var more := SaveParts(files, parts, e, n).1;
      assert more == rows || more == rows + [more[|rows|]];
      forall i | 0 <= i < |rows|
        ensures more[i] == rows[i] && rows[i].path in before
      {
      }
    }
  }

  lemma ProcessKeepsFiles(db: Db, recipient: string, email: Email, e: Env)
    requires FilesKept(db) && FreshSaves(db.files, email.parts, e)
    ensures FilesKept(Process(db, recipient, email, e).0)
  {
    hide Address.Parse, SaveParts;
    var (t, out) := Process(db, recipient, email, e);
    ProcessMeans(db, recipient, email, e);
    SavedPaths(db.files, email.parts, e, |email.parts|);
    RowsIgnoreFiles(db.files, email.parts, e, |email.parts|);
    assert db.files <= t.files;
    if out.Some? {
      FreshReceiptHonoured(db, t, recipient, email, e, out);
      var (files, rows) := SaveParts(db.files, email.parts, e, |email.parts|);
      assert t.files == files && out.value.rows == Owned(rows, db.nextMessage);
      NewRowsKeepFiles(db, t, out.value, rows, files);
    }
  }

  lemma NewRowsKeepFiles(db: Db, t: Db, r: Receipt, rows: seq<Attachment>, files: set<string>)
    requires FilesKept(db) && Numbered(t) && t.files == files && db.files <= files
    requires r.rows == Owned(rows, r.messageId) && r.messageId in t.messages && r.firstRow == db.nextAttachment
    requires forall m :: m in db.messages ==> m in t.messages
    requires t.attachments == AddRows(db.attachments, db.nextAttachment, r.rows)
    requires forall i :: 0 <= i < |rows| ==> rows[i].path in files && rows[i].path !in db.files
    requires forall i, j :: 0 <= i < j < |rows| ==> rows[i].path != rows[j].path
    ensures FilesKept(t)
  {
    AddRowsMeans(db.attachments, db.nextAttachment, r.rows);
    var first := db.nextAttachment;
    forall a | a in t.attachments && a !in db.attachments
      ensures first <= a < first + |rows| && t.attachments[a] == rows[a - first].(messageId := r.messageId)
    {
      assert t.attachments[a] == r.rows[a - first];
    }
  }

  lemma {:induction false} DeliverKeepsFiles(db: Db, recipients: seq<string>, email: Email, envs: seq<Env>, n: nat)
    requires FilesKept(db) && n <= |recipients| == |envs|
    requires FreshOp(db, DataOp(recipients, email, envs))
    ensures FilesKept(Deliver(db, recipients, email, envs, n).0)
  {
    hide Process, Address.Parse;
    if n > 0 {
      DeliverKeepsFiles(db, recipients, email, envs, n - 1);
      var mid := Deliver(db, recipients, email, envs, n - 1).0;
      assert FreshSaves(mid.files, email.parts, envs[n - 1]);
      ProcessKeepsFiles(mid, recipients[n - 1], email, envs[n - 1]);
    }
  }

  lemma CascadeKeepsFiles(db: Db, mailboxes: map<string, Mailbox>, gone: set<nat>)
    requires FilesKept(db)
    ensures FilesKept(Cascade(db, mailboxes, gone))
  {
  }

  lemma StepKeepsFiles(db: Db, op: Op)
    requires FilesKept(db) && FreshOp(db, op)
    ensures FilesKept(Do(db, op))
  {
    match op
    case DataOp(recipients, email, envs) =>
      if |envs| == |recipients| {
        DeliverKeepsFiles(db, recipients, email, envs, |recipients|);
      }
    case PostOp(localPart, domain, read, insert) =>
    case DeleteAttachment(id, read, deleted, fileRemoved) =>
    case DeleteMessage(id) => CascadeKeepsFiles(db, db.mailboxes, {id});
    case DeleteMailbox(address) =>
      if address in db.mailboxes {
        CascadeKeepsFiles(db, db.mailboxes - {address}, MessagesIn(db, {db.mailboxes[address].id}));
      }
    case DeleteDomain(name) =>
  }

  /**
   Through deliveries with any failures, rolled-back transactions, cascading
   deletes and attachment deletes, every attachment row's file is on disk.
   */
  lemma {:induction false} RowsKeepTheirFiles(db: Db, ops: seq<Op>)
    requires FilesKept(db) && FreshRun(db, ops)
    ensures FilesKept(Run(db, ops))
    decreases |ops|
  {
    if ops != [] {
      var op := ops[0];
      StepKeepsFiles(db, op);
      hide FilesKept, FreshOp, Do;
      RowsKeepTheirFiles(Do(db, op), ops[1..]);
    }
  }
}
