/**
 What a submission leaves on record, exit by exit, told from the guards it
 passes and from what the CA, the disk and the database answer.
 */
module LifecycleExits {
  import opened Basics
  import opened Lifecycle
  import opened LifecycleEffects
  import Text
  import A = AcmeClient
  import S = CertStorage
  import C = CertStore

  /** How far the submission for d gets. */
  datatype Exit = CrashExit | RefusedExit | NoCertificateExit | NotSavedExit | RowExit | FinalWriteExit | IssuedExit

  function ExitOf(c: A.Client, name: string, e: SubmitEnv): Exit {
    match A.Complete(c, name, e.validation)
    case Crashed => CrashExit
    case Refused => RefusedExit
    case Succeeded =>
      var bundle := A.RequestCertificate(c, name, e.issue).1;
      if bundle.None? then NoCertificateExit
      else if !S.SaveOk(name, bundle.value, e.save) then NotSavedExit
      else if !e.row.read || !e.row.write then RowExit
      else if !e.finish then FinalWriteExit
      else IssuedExit
  }

  /** The words a failure message starts with. */
  function StageWords(exit: Exit): string {
    match exit
    case RefusedExit => "ACME validation failed: "
    case NoCertificateExit => "Certificate request failed: "
    case NotSavedExit => "Certificate storage failed: "
    case _ => ""
  }

  /** The submission stops at a stage whose failure is written to the record. */
  predicate Reported(exit: Exit) {
    exit.RefusedExit? || exit.NoCertificateExit? || exit.NotSavedExit?
  }

  lemma TakenRecord(w: World, bundle: Option<A.Bundle>, id: nat, d: Domain, e: SubmitEnv)
    requires id in w.domains && w.domains[id] == d
    ensures var (t, ok) := TakeCertificate(w, bundle, id, d, e);
            && id in t.domains
            && (bundle.None? && e.failWrite ==>
                  t.domains[id] == d.(status := Failed, errorMessage := "Certificate request failed: " + e.detail))
            && (bundle.Some? && !S.SaveOk(d.name, bundle.value, e.save) && e.failWrite ==>
                  t.domains[id] == d.(status := Failed, errorMessage := "Certificate storage failed: " + e.detail))
            && ((bundle.None? || !S.SaveOk(d.name, bundle.value, e.save)) && !e.failWrite ==> t.domains[id] == d)
            && (bundle.Some? && S.SaveOk(d.name, bundle.value, e.save) ==>
                  t.domains[id] ==
                  if !e.row.read || !e.row.write then d
                  else if e.finish then d.(status := CertificateIssued, errorMessage := "")
                  else if e.clear.read && e.clear.write then Cleared(d) else d)
            && (ok <==> bundle.Some? && S.SaveOk(d.name, bundle.value, e.save) && e.row.read && e.row.write && e.finish)
  {
    hide S.Save, S.SaveOk, C.HotReload;
  }

  /** What remains on record, for every exit and whether or not the writes work. */
  lemma RecordAfterSubmission(w: World, id: nat, e: SubmitEnv)
    requires Submits(w, id, e)
    ensures var was := w.domains[id];
            var exit := ExitOf(w.client, was.name, e);
            var t := Step(w, CallSubmit(id, true, e));
            && id in t.domains
            && (Reported(exit) && e.failWrite ==>
                  t.domains[id] == was.(status := Failed, errorMessage := StageWords(exit) + e.detail))
            && (exit.CrashExit? || exit.RowExit? || (Reported(exit) && !e.failWrite) ==>
                  t.domains[id] == was.(status := PendingCertificate))
            && (exit.FinalWriteExit? ==>
                  t.domains[id] ==
                  if e.clear.read && e.clear.write
                  then was.(status := PendingCertificate,
                            token := "", value := "", expiresAt := None, dnsVerified := false)
                  else was.(status := PendingCertificate))
            && (exit.IssuedExit? ==>
                  t.domains[id] ==
                  if e.reread && e.activate.read && e.activate.write
                  then was.(status := Active, isActive := true, errorMessage := "")
                  else was.(status := CertificateIssued, errorMessage := ""))
  {
    hide A.Complete, A.RequestCertificate, S.SaveOk, TakeCertificate;
    var d := w.domains[id].(status := PendingCertificate);
    var marked := Note(Put(w, id, d), Submitted(id, d.value));
    var (client, bundle) := A.RequestCertificate(w.client, d.name, e.issue);
    TakenRecord(Note(marked, Validated(id)).(client := client), bundle, id, d, e);
  }

  /** A submission that is not let through changes no record. */
  lemma NoSubmissionNoChange(w: World, id: nat, read: bool, e: SubmitEnv)
    requires !read || !Submits(w, id, e)
    ensures Step(w, CallSubmit(id, read, e)) == w
  {
  }

  /**
   A submission that reached the CA, did not crash and whose database writes
   all worked never leaves the domain waiting: it ends failed, issued or active.
   */
  lemma SubmissionConcludes(w: World, id: nat, e: SubmitEnv)
    requires Submits(w, id, e) && !A.Complete(w.client, w.domains[id].name, e.validation).Crashed?
    requires e.failWrite && e.row.read && e.row.write && e.finish
    ensures var t := Step(w, CallSubmit(id, true, e));
            && id in t.domains
            && (t.domains[id].status.Failed? || t.domains[id].status.CertificateIssued? || t.domains[id].status.Active?)
  {
    RecordAfterSubmission(w, id, e);
    hide Step, A.Complete, A.RequestCertificate, S.SaveOk;
  }

  // ------------------------------------------------------------------- rows

  /** The row a saved bundle gets: the one there with its expiry moved, or a new one that renews itself. */
  function RowOf(certs: map<nat, CertRow>, id: nat, name: string, b: A.Bundle): CertRow {
    if id in certs then CertRow(certs[id].domainName, b.expiresAt, certs[id].autoRenew)
    else CertRow(name, b.expiresAt, true)
  }

  lemma TakenRows(w: World, b: A.Bundle, id: nat, d: Domain, e: SubmitEnv)
    requires S.SaveOk(d.name, b, e.save)
    ensures TakeCertificate(w, Some(b), id, d, e).0.certs ==
            if e.row.read && e.row.write then w.certs[id := RowOf(w.certs, id, d.name, b)] else w.certs
  {
    hide S.Save, S.SaveOk, C.HotReload;
  }

  lemma SubmittedRows(w: World, id: nat, e: SubmitEnv, b: A.Bundle)
    requires id in w.domains && Obtains(w, CallSubmit(id, true, e)) == Some(b)
    requires S.SaveOk(w.domains[id].name, b, e.save)
    ensures Step(w, CallSubmit(id, true, e)).certs ==
            if e.row.read && e.row.write then w.certs[id := RowOf(w.certs, id, w.domains[id].name, b)] else w.certs
  {
    hide A.Complete, A.RequestCertificate, S.SaveOk, TakeCertificate, RowOf;
    var d := w.domains[id].(status := PendingCertificate);
    var marked := Note(Put(w, id, d), Submitted(id, d.value));
    var client := A.RequestCertificate(w.client, d.name, e.issue).0;
    TakenRows(Note(marked, Validated(id)).(client := client), b, id, d, e);
  }

  lemma RenewedRows(w: World, id: nat, e: RenewEnv, b: A.Bundle)
    requires id in w.domains && Obtains(w, CallRenew(id, e)) == Some(b)
    requires S.SaveOk(w.domains[id].name, b, e.save)
    ensures Step(w, CallRenew(id, e)).certs ==
            if e.rowWrite then w.certs[id := RowOf(w.certs, id, w.domains[id].name, b)] else w.certs
  {
    hide A.Complete, A.RequestCertificate, A.GetDNSChallenge, S.Save, S.SaveOk, C.HotReload;
  }

  /** A deleted domain is gone with its certificate row, and nothing else is. */
  lemma DeletedGoes(w: World, id: nat)
    ensures var t := Step(w, CallDelete(id, true));
            && id !in t.domains && id !in t.certs
            && (forall o :: o != id ==> (o in t.domains <==> o in w.domains) && (o in t.certs <==> o in w.certs))
            && (forall o :: o in t.domains ==> t.domains[o] == w.domains[o])
            && (forall o :: o in t.certs ==> t.certs[o] == w.certs[o])
  {
  }

  // ------------------------------------------------- challenge and lookup

  /**
   A request that works puts the CA's token and the record computed for it on
   file, to expire a day after, not verified, and waits for the user.
   */
  lemma RecordAfterRequest(w: World, id: nat, e: RequestEnv)
    requires id in w.domains && w.domains[id].status.DNSVerified? && e.read && e.write
    requires (w.client.registered || e.answers.registers) && A.Fruitful(e.answers) && e.answers.record.Some?
    ensures var was := w.domains[id];
            var t := Step(w, CallRequest(id, true, e));
            exists i :: A.FirstDns01(e.answers.authorization.value, i) &&
              t.domains == w.domains[id :=
                Domain(was.name, was.isActive, PendingACMEChallenge, was.dnsChallenge, "",
                       e.answers.authorization.value[i].token, e.answers.record.value, Some(e.now + 86400), false)]
  {
    hide A.GetDNSChallenge, A.FirstDns01;
    RequestFinds(w.client, w.domains[id].name, e.answers);
    A.ChallengeContents(w.client, w.domains[id].name, e.answers);
  }

  lemma RequestFinds(c: A.Client, d: string, a: A.OrderAnswers)
    requires (c.registered || a.registers) && A.Fruitful(a) && a.record.Some?
    ensures A.GetDNSChallenge(c, d, a).1.Some?
  {
  }

  /** A lookup in time marks the record exactly when some resolver showed the stored value, and changes nothing else. */
  lemma RecordAfterLookup(w: World, id: nat, e: VerifyEnv)
    requires id in w.domains && e.handlerRead && e.read && e.write
    requires w.domains[id].token != "" && w.domains[id].value != ""
    requires w.domains[id].expiresAt.Some? ==> e.now <= w.domains[id].expiresAt.value
    ensures var was := w.domains[id];
            Step(w, CallVerify(id, e)).domains ==
            if exists i :: AnsweredBy(e.answers, i, was.value)
            then w.domains[id := was.(status := ACMEChallengeReady, dnsVerified := true)] else w.domains
  {
    hide FoundValues, AnsweredBy;
    FoundValuesMeans(e.answers, w.domains[id].value);
  }

  /** Without a complete challenge on file there is nothing to look up. */
  lemma NoLookupWithoutChallenge(w: World, id: nat, e: VerifyEnv)
    requires id in w.domains && (w.domains[id].token == "" || w.domains[id].value == "")
    ensures Step(w, CallVerify(id, e)) == w
  {
    hide FoundValues;
  }

  /**
   After its expiry a challenge is replaced, by a lookup or by asking for its
   status; before, asking changes nothing.
   */
  lemma RecordAfterExpiry(w: World, id: nat, e: VerifyEnv, s: StatusEnv)
    requires id in w.domains && e.handlerRead && e.read && s.handlerRead && s.read
    requires w.domains[id].token != "" && w.domains[id].value != "" && w.domains[id].status.PendingACMEChallenge?
    requires w.domains[id].expiresAt.Some?
    ensures var back := w.(domains := w.domains[id := w.domains[id].(status := DNSVerified)]);
            && (e.now > w.domains[id].expiresAt.value ==>
                  Step(w, CallVerify(id, e)) == if e.reset then Step(back, CallRequest(id, true, e.renewal)) else w)
            && (s.now > w.domains[id].expiresAt.value ==>
                  Step(w, CallStatus(id, s)) == if s.reset then Step(back, CallRequest(id, true, s.renewal)) else w)
            && (s.now <= w.domains[id].expiresAt.value ==> Step(w, CallStatus(id, s)) == w)
  {
    hide RequestChallenge, FoundValues;
  }

  // ------------------------------------------------------ DNS and retry

  /**
   A waiting domain without a token gets the new one and goes on waiting; with
   one, only a full verification moves it.
   */
  lemma RecordAfterVerifyDNS(w: World, id: nat, e: VerifyDNSEnv, token: string)
    requires id in w.domains && (w.domains[id].status.PendingDNS? || w.domains[id].status.Failed?)
    requires e.read && e.legacy == ReadWrite(true, true) && e.status == ReadWrite(true, true) && e.token == Some(token)
    ensures var was := w.domains[id];
            Step(w, CallVerifyDNS(id, e)).domains ==
            if was.dnsChallenge == "" then w.domains[id := was.(dnsChallenge := token, status := PendingDNS)]
            else if e.allVerified then w.domains[id := was.(status := DNSVerified, errorMessage := "")]
            else w.domains
  {
  }

  /** The message has the word at this place, in any case. */
  predicate HasWordAt(message: string, word: string, i: int) {
    && 0 <= i <= |message| - |word|
    && forall k :: 0 <= k < |word| ==>
         message[i + k] == word[k] || (message[i + k] as int + 32 == word[k] as int && 'A' <= message[i + k] <= 'Z')
  }

  ghost predicate HasWord(message: string, word: string) {
    exists i :: HasWordAt(message, word, i)
  }

  predicate PieceAt(s: string, piece: string, i: int) {
    0 <= i <= |s| - |piece| && s[i..i + |piece|] == piece
  }

  lemma {:induction false} ContainsExactly(s: string, piece: string)
    ensures Text.Contains(s, piece) <==> exists i :: PieceAt(s, piece, i)
    decreases |s|
  {
    if piece <= s {
      assert PieceAt(s, piece, 0);
    } else if s != "" {
      ContainsExactly(s[1..], piece);
      forall i
        ensures PieceAt(s, piece, i) <==> PieceAt(s[1..], piece, i - 1)
      {
        if 1 <= i <= |s| - |piece| {
          assert s[i..i + |piece|] == s[1..][i - 1..i - 1 + |piece|];
        }
      }
      if i :| PieceAt(s[1..], piece, i) {
        assert PieceAt(s, piece, i + 1);
      }
    }
  }

  lemma WordExactly(message: string, word: string)
    requires Text.IsLower(word)
    ensures Text.Contains(Text.ToLower(message), word) <==> HasWord(message, word)
  {
    hide Text.Contains;
    var m := Text.ToLower(message);
    ContainsExactly(m, word);
    forall i
      ensures PieceAt(m, word, i) <==> HasWordAt(message, word, i)
    {
      if 0 <= i <= |m| - |word| {
        LetterByLetter(message, word, i);
      }
    }
  }

  lemma LetterByLetter(message: string, word: string, i: int)
    requires Text.IsLower(word) && 0 <= i <= |message| - |word|
    ensures Text.ToLower(message)[i..i + |word|] == word <==> HasWordAt(message, word, i)
  {
    hide Text.LowerChar;
    var part := Text.ToLower(message)[i..i + |word|];
    assert part == word <==> forall k :: 0 <= k < |word| ==> part[k] == word[k];
    forall k | 0 <= k < |word|
      ensures part[k] == Text.LowerChar(message[i + k])
      ensures part[k] == word[k] <==>
              || message[i + k] == word[k]
              || (message[i + k] as int + 32 == word[k] as int && 'A' <= message[i + k] <= 'Z')
    {
      LowerLetter(message[i + k], word[k]);
      assert !('A' <= word[k] <= 'Z');
    }
  }

  lemma LowerLetter(c: char, d: char)
    requires !('A' <= d <= 'Z')
    ensures Text.LowerChar(c) == d <==> c == d || (c as int + 32 == d as int && 'A' <= c <= 'Z')
  {
  }

  /** The message speaks of a certificate problem. */
  ghost predicate SpeaksOfCertificates(message: string) {
    || HasWord(message, "acme") || HasWord(message, "certificate")
    || HasWord(message, "dns txt") || HasWord(message, "_acme-challenge")
  }

  lemma BlamesExactly(message: string)
    ensures BlamesCertificate(message) <==> SpeaksOfCertificates(message)
  {
    hide Text.Contains, Text.ToLower, HasWord;
    WordExactly(message, "acme");
    WordExactly(message, "certificate");
    WordExactly(message, "dns txt");
    WordExactly(message, "_acme-challenge");
  }

  /** Where a retry leaves a failed domain: where it is told to, else where its error message points. */
  lemma RetryAfterFailure(w: World, id: nat, resetTo: string)
    requires id in w.domains && w.domains[id].status.Failed?
    ensures Step(w, CallRetry(id, resetTo, true, ReadWrite(true, true))).domains ==
            w.domains[id := w.domains[id].(errorMessage := "", status :=
              if resetTo == "pending_dns" then PendingDNS
              else if resetTo == "pending_acme_challenge" then PendingACMEChallenge
              else if resetTo == "dns_verified" || SpeaksOfCertificates(w.domains[id].errorMessage) then DNSVerified
              else PendingDNS)]
  {
    hide BlamesCertificate, SpeaksOfCertificates;
    BlamesExactly(w.domains[id].errorMessage);
  }

  /** Elsewhere a retry goes back to the last safe point, and a domain that needs none is left alone. */
  lemma RetryElsewhere(w: World, id: nat, resetTo: string)
    requires id in w.domains && !w.domains[id].status.Failed?
    ensures var was := w.domains[id];
            Step(w, CallRetry(id, resetTo, true, ReadWrite(true, true))).domains ==
            if was.status.PendingDNS? || was.status.NoStatus?
            then w.domains[id := was.(status := PendingDNS, errorMessage := "")]
            else if was.status.PendingACMEChallenge? || was.status.PendingCertificate?
            then w.domains[id := was.(status := DNSVerified, errorMessage := "")]
            else w.domains
  {
    hide BlamesCertificate;
  }

  // ------------------------------------------------------ the status writes

  /** Only an issued domain is activated, and it is then open for mail. */
  lemma ActivatesOnlyIssued(w: World, id: nat)
    requires id in w.domains
    ensures Activate(w, id, ReadWrite(true, true)).domains ==
            if w.domains[id].status.CertificateIssued?
            then w.domains[id := w.domains[id].(status := Active, isActive := true, errorMessage := "")] else w.domains
  {
  }

  /** A status write keeps its message for failed alone, and an invalid status is not written. */
  lemma StatusWritten(w: World, id: nat, status: Status, message: string)
    requires id in w.domains
    ensures var t := UpdateStatus(w, id, status, message, ReadWrite(true, true));
            && (status.NoStatus? ==> t == w)
            && (status.Failed? ==>
                  t.domains == w.domains[id := w.domains[id].(status := Failed, errorMessage := message)])
            && (!status.NoStatus? && !status.Failed? ==>
                  t.domains == w.domains[id := w.domains[id].(status := status, errorMessage := "")])
  {
  }
}
