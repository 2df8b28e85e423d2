/**
 The DNS guide handed to the user and the verifier that checks what the user
 did with it. Each of the three records is looked up with retries; the resolver
 may answer differently at every attempt.
 */
module DnsCheck {
  import opened Basics
  import opened Text

  datatype Config = Config(smtpHostname: string, serverIP: string, maxRetries: int)

  datatype Record = Record(kind: string, name: string, value: string)

  datatype Guide = Guide(mx: Record, a: Record, txt: Record)

  /** What one lookup of a name answered; None is an error. */
  type Answer = Option<seq<string>>

  /** A resolver: kind of record and name to answer. */
  type Resolver = (string, string) -> Answer

  predicate HasMailPrefix(name: string) {
    "mail." <= ToLower(name)
  }

  function ParentName(name: string): string {
    if HasMailPrefix(name) then name[5..] else name
  }

  function MailHostname(name: string): string {
    if HasMailPrefix(name) then name else "mail." + name
  }

  /** The guide's own copies of the two name functions. */
  function GuideParentName(name: string): string {
    if "mail." <= ToLower(name) then name[5..] else name
  }

  function GuideMailHostname(name: string): string {
    if "mail." <= ToLower(name) then name else "mail." + name
  }

  /** Guide and verifier name the same hosts. */
  lemma NamesAgree(name: string)
    ensures GuideParentName(name) == ParentName(name) && GuideMailHostname(name) == MailHostname(name)
  {
  }

  function GuideFor(name: string, token: string, c: Config): Guide {
    Guide(Record("MX", GuideParentName(name), c.smtpHostname),
          Record("A", GuideMailHostname(name), c.serverIP),
          Record("TXT", "_infinimail." + GuideParentName(name), "infinimail-verify=" + token))
  }

  // ---------------------------------------------------------- the verifier

  function HostForm(host: string): string {
    TrimSuffix(ToLower(host), ".")
  }

  /** How a record's answers are compared with its expected value. */
  predicate Matches(kind: string, answered: string, expected: string) {
    if kind == "MX" then HostForm(answered) == HostForm(expected)
    else if kind == "A" then TrimSpace(answered) == TrimSpace(expected)
    else TrimSpace(answered) == expected
  }

  /** The arguments a check refuses before any lookup. For TXT the name and value checked are those without prefix. */
  predicate Usable(r: Record) {
    if r.kind == "TXT" then r.name != "_infinimail." && r.value != "infinimail-verify="
    else r.name != "" && r.value != ""
  }

  /** One check of a record: verified, or an error. */
  predicate Verified(r: Record, resolve: Resolver) {
    && Usable(r)
    && resolve(r.kind, r.name).Some?
    && var values := resolve(r.kind, r.name).value;
       exists i :: 0 <= i < |values| && Matches(r.kind, values[i], r.value)
  }

  /** The lookup and the loop over its answers. */
  method CheckRecord(r: Record, resolve: Resolver) returns (ok: bool)
    ensures ok == Verified(r, resolve)
  {
    hide Matches, Usable;
    if !Usable(r) {
      return false;
    }
    var answer := resolve(r.kind, r.name);
    if answer.None? {
      return false;
    }
    var values := answer.value;
    if |values| == 0 {
      return false;
    }
    for i := 0 to |values|
      invariant forall j :: 0 <= j < i ==> !Matches(r.kind, values[j], r.value)
    {
      if Matches(r.kind, values[i], r.value) {
        return true;
      }
    }
    return false;
  }

  /**
   The world over time: the resolver at each attempt, and whether the request
   is cancelled before it or in the pause after it.
   */
  datatype Weather = Weather(resolver: nat -> Resolver, cancelledBefore: nat -> bool, cancelledAfter: nat -> bool)

  /** Attempt k is made and verifies: all earlier ones failed and nothing was cancelled. */
  predicate VerifiedAt(r: Record, maxRetries: int, w: Weather, k: nat) {
    && k <= maxRetries && Verified(r, w.resolver(k)) && !w.cancelledBefore(k)
    && forall i: nat :: i < k ==>
         !Verified(r, w.resolver(i)) && !w.cancelledBefore(i) && !w.cancelledAfter(i)
  }

  /** Verified within the allowed attempts. */
  predicate InTime(r: Record, maxRetries: int, w: Weather) {
    exists k: nat :: k <= maxRetries && VerifiedAt(r, maxRetries, w, k)
  }

  /** verifyWithRetry: at most maxRetries + 1 attempts; `failed` tells whether an error is reported. */
  method VerifyWithRetry(r: Record, maxRetries: int, w: Weather) returns (ok: bool, failed: bool, attempts: nat)
    ensures ok <==> InTime(r, maxRetries, w)
    ensures ok ==> attempts > 0 && VerifiedAt(r, maxRetries, w, attempts - 1)
    ensures failed <==> !ok && maxRetries >= 0
    ensures attempts <= if maxRetries < 0 then 0 else maxRetries + 1
  {
    hide Verified;
    ok, failed, attempts := false, false, 0;
    while attempts <= maxRetries
      invariant attempts <= if maxRetries < 0 then 0 else maxRetries + 1
      invariant !ok && failed == (attempts > 0)
      invariant forall i: nat :: i < attempts ==>
                  !Verified(r, w.resolver(i)) && !w.cancelledBefore(i) && (i < maxRetries ==> !w.cancelledAfter(i))
    {
      if w.cancelledBefore(attempts) {
        failed := true;
        return;
      }
      var verified := CheckRecord(r, w.resolver(attempts));
      var at := attempts;
      attempts := attempts + 1;
      if verified {
        assert VerifiedAt(r, maxRetries, w, at);
        return true, false, attempts;
      }
      // an unverified check always reports an error
      failed := true;
      if at < maxRetries && w.cancelledAfter(at) {
        return;
      }
    }
  }

  datatype Result = Result(mx: bool, a: bool, txt: bool, errors: nat)

  predicate AllVerified(r: Result) {
    r.mx && r.a && r.txt
  }

  /** The weather while each of the three records is checked. */
  datatype Forecast = Forecast(mx: Weather, a: Weather, txt: Weather)

  function Unverified(ok: bool): nat {
    if ok then 0 else 1
  }

  /** What is verified, record by record, is the guide; every record that stays unverified is reported. */
  method VerifyDNS(name: string, token: string, c: Config, f: Forecast) returns (r: Result)
    ensures var g := GuideFor(name, token, c);
            && r.mx == InTime(g.mx, c.maxRetries, f.mx)
            && r.a == InTime(g.a, c.maxRetries, f.a)
            && r.txt == InTime(g.txt, c.maxRetries, f.txt)
    ensures AllVerified(r) ==> r.errors == 0
    ensures c.maxRetries >= 0 ==> r.errors == Unverified(r.mx) + Unverified(r.a) + Unverified(r.txt)
  {
    hide InTime, VerifiedAt;
    NamesAgree(name);
    var parentDomain := ParentName(name);
    var mailHostname := MailHostname(name);
    var errors := 0;
    var mx, mxFailed, _ := VerifyWithRetry(Record("MX", parentDomain, c.smtpHostname), c.maxRetries, f.mx);
    if mxFailed {
      errors := errors + 1;
    }
    var a, aFailed, _ := VerifyWithRetry(Record("A", mailHostname, c.serverIP), c.maxRetries, f.a);
    if aFailed {
      errors := errors + 1;
    }
    var txt, txtFailed, _ :=
      VerifyWithRetry(Record("TXT", "_infinimail." + parentDomain, "infinimail-verify=" + token), c.maxRetries, f.txt);
    if txtFailed {
      errors := errors + 1;
    }
    r := Result(mx, a, txt, errors);
  }

  // ------------------------------------------- which answers match a record

  /** Two letters that differ in case alone, or the same character. */
  predicate SameLetter(c: char, d: char) {
    || c == d
    || ('A' <= c <= 'Z' && d as int == c as int + 32)
    || ('A' <= d <= 'Z' && c as int == d as int + 32)
  }

  /** The length of a host name without a dot at its end. */
  function BareLength(host: string): nat {
    if host != "" && host[|host| - 1] == '.' then |host| - 1 else |host|
  }

  /** The same host, whatever the case and with or without a dot at either end. */
  ghost predicate SameHost(a: string, b: string) {
    BareLength(a) == BareLength(b) && forall i :: 0 <= i < BareLength(a) ==> SameLetter(a[i], b[i])
  }

  lemma LettersAgree(c: char, d: char)
    ensures LowerChar(c) == LowerChar(d) <==> SameLetter(c, d)
  {
  }

  lemma HostFormIsBare(host: string)
    ensures |HostForm(host)| == BareLength(host)
    ensures forall i :: 0 <= i < BareLength(host) ==> HostForm(host)[i] == LowerChar(host[i])
  {
    var lower := ToLower(host);
    if host != "" {
      assert lower[|host| - 1..] == [lower[|host| - 1]];
      assert lower[|host| - 1] == '.' <==> host[|host| - 1] == '.';
    }
  }

  lemma HostsMatchExactly(a: string, b: string)
    ensures HostForm(a) == HostForm(b) <==> SameHost(a, b)
  {
    hide HostForm, LowerChar, SameLetter;
    HostFormIsBare(a);
    HostFormIsBare(b);
    if HostForm(a) == HostForm(b) {
      forall i | 0 <= i < BareLength(a)
        ensures SameLetter(a[i], b[i])
      {
        assert HostForm(a)[i] == HostForm(b)[i];
        LettersAgree(a[i], b[i]);
      }
    }
    if SameHost(a, b) {
      forall i | 0 <= i < BareLength(a)
        ensures HostForm(a)[i] == HostForm(b)[i]
      {
        LettersAgree(a[i], b[i]);
      }
    }
  }

  /** s is x, starting at i, with white space before and after, and x has none at its ends. */
  predicate PaddedAt(s: string, x: string, i: nat) {
    && (x == "" || (!IsSpace(x[0]) && !IsSpace(x[|x| - 1])))
    && i + |x| <= |s| && s[i..i + |x|] == x
    && (forall k :: 0 <= k < i ==> IsSpace(s[k])) && (forall k :: i + |x| <= k < |s| ==> IsSpace(s[k]))
  }

  ghost predicate Padded(s: string, x: string) {
    exists i: nat :: PaddedAt(s, x, i)
  }

  lemma TrimmedIsPadded(s: string)
    ensures Padded(s, TrimSpace(s))
  {
    hide IsSpace, TrimLeft, TrimRight;
    var left := TrimLeft(s);
    var x, i := TrimRight(left), |s| - |left|;
    assert s[i..][..|x|] == s[i..i + |x|];
    if x != "" {
      assert x[0] == left[0];
    }
    forall k | i + |x| <= k < |s|
      ensures IsSpace(s[k])
    {
      assert s[k] == left[k - i];
    }
    assert PaddedAt(s, x, i);
  }

  /** Only one string fits: two strings that s pads are the same. */
  lemma PaddedOnce(s: string, x: string, y: string)
    requires Padded(s, x) && Padded(s, y)
    ensures x == y
  {
    hide IsSpace;
    var i: nat :| PaddedAt(s, x, i);
    var j: nat :| PaddedAt(s, y, j);
    if x != "" {
      assert s[i] == x[0] && s[i + |x| - 1] == x[|x| - 1];
    }
    if y != "" {
      assert s[j] == y[0] && s[j + |y| - 1] == y[|y| - 1];
    }
  }

  lemma TrimExactly(s: string, x: string)
    ensures TrimSpace(s) == x <==> Padded(s, x)
  {
    hide TrimSpace, Padded;
    TrimmedIsPadded(s);
    if Padded(s, x) {
      PaddedOnce(s, x, TrimSpace(s));
    }
  }

  /**
   Which answers match: for MX the same host; for A the same address up to outer
   white space on either side; for TXT the value with white space around it.
   */
  lemma MatchesExactly(answered: string, expected: string)
    ensures Matches("MX", answered, expected) <==> SameHost(answered, expected)
    ensures Matches("A", answered, expected) <==> exists x :: Padded(answered, x) && Padded(expected, x)
    ensures Matches("TXT", answered, expected) <==> Padded(answered, expected)
  {
    hide HostForm, SameHost, TrimSpace, Padded;
    HostsMatchExactly(answered, expected);
    TrimExactly(answered, expected);
    TrimExactly(answered, TrimSpace(answered));
    TrimExactly(expected, TrimSpace(answered));
    if x :| Padded(answered, x) && Padded(expected, x) {
      TrimExactly(answered, x);
      TrimExactly(expected, x);
    }
  }

  /** The guide's names for a domain without and with the mail prefix, in any case. */
  lemma GuideSays(domain: string, token: string, c: Config)
    requires !HasMailPrefix(domain)
    ensures var g := GuideFor(domain, token, c);
            && g.mx == Record("MX", domain, c.smtpHostname)
            && g.a == Record("A", "mail." + domain, c.serverIP)
            && g.txt == Record("TXT", "_infinimail." + domain, "infinimail-verify=" + token)
            && GuideFor("mail." + domain, token, c) == g
  {
    hide LowerChar;
    MailPrefixed(domain);
  }

  lemma MailPrefixed(domain: string)
    ensures HasMailPrefix("mail." + domain) && ("mail." + domain)[5..] == domain
  {
    var lower := ToLower("mail." + domain);
    assert lower[..5] == "mail.";
  }

  // ---------------------------------------------------------------- claims

  /** The resolver answers the record asked for, at every attempt, and nobody cancels. */
  ghost predicate Published(r: Record, w: Weather) {
    forall k: nat :: !w.cancelledBefore(k) && !w.cancelledAfter(k) && Publishes(r, w.resolver(k))
  }

  /** For an MX record the answer may be the host in any spelling; for the others it is the value itself. */
  ghost predicate Publishes(r: Record, resolve: Resolver) {
    && resolve(r.kind, r.name).Some? && |resolve(r.kind, r.name).value| == 1
    && var answer := resolve(r.kind, r.name).value[0];
       if r.kind == "MX" then SameHost(answer, r.value) else answer == r.value
  }

  predicate PassesPublished(r: Record) {
    Usable(r) && (r.kind == "MX" || r.kind == "A" || TrimSpace(r.value) == r.value)
  }

  /** A published record verifies exactly when it is usable and, for TXT, its value has no outer white space. */
  lemma PublishedVerifies(r: Record, resolve: Resolver)
    requires Publishes(r, resolve)
    ensures Verified(r, resolve) <==> PassesPublished(r)
  {
    hide SameHost, HostForm, TrimSpace;
    if r.kind == "MX" {
      HostsMatchExactly(resolve(r.kind, r.name).value[0], r.value);
    }
    assert Verified(r, resolve) ==> Matches(r.kind, resolve(r.kind, r.name).value[0], r.value);
  }

  /**
   What the guide says is what the verifier checks: with the guide's records
   published, the mail host in any case and with or without a dot at its end,
   all three verify, at the first attempt, exactly when the parent
   name, the configured host and address and the token are not empty and the
   token does not end in white space (a hex token never does).
   */
  lemma GuideVerifies(name: string, token: string, c: Config, f: Forecast)
    requires c.maxRetries >= 0
    requires var g := GuideFor(name, token, c); Published(g.mx, f.mx) && Published(g.a, f.a) && Published(g.txt, f.txt)
    ensures var g := GuideFor(name, token, c);
            && InTime(g.mx, c.maxRetries, f.mx)
            && InTime(g.a, c.maxRetries, f.a)
            && InTime(g.txt, c.maxRetries, f.txt)
            <==>
            && ParentName(name) != "" && c.smtpHostname != "" && c.serverIP != ""
            && token != "" && !IsSpace(token[|token| - 1])
  {
    hide InTime, Published, TrimSpace, IsSpace, ToLower;
    var g := GuideFor(name, token, c);
    FirstAttemptDecides(g.mx, c.maxRetries, f.mx);
    FirstAttemptDecides(g.a, c.maxRetries, f.a);
    FirstAttemptDecides(g.txt, c.maxRetries, f.txt);
    if token != "" {
      TxtValueTrims(token);
    }
  }

  lemma TxtValueTrims(token: string)
    requires token != ""
    ensures TrimSpace("infinimail-verify=" + token) == "infinimail-verify=" + token <==> !IsSpace(token[|token| - 1])
  {
    var v := "infinimail-verify=" + token;
    TrimSpaceKeeps(v);
    assert v[0] == 'i' && v[|v| - 1] == token[|token| - 1];
  }

  lemma FirstAttemptDecides(r: Record, maxRetries: int, w: Weather)
    requires maxRetries >= 0
    requires Published(r, w)
    ensures InTime(r, maxRetries, w) <==> PassesPublished(r)
  {
    hide Verified, PassesPublished, Publishes;
    forall k: nat
      ensures Verified(r, w.resolver(k)) <==> PassesPublished(r)
    {
      PublishedVerifies(r, w.resolver(k));
    }
    if Verified(r, w.resolver(0)) {
      assert VerifiedAt(r, maxRetries, w, 0);
    }
  }

  /**
   Conversely, a verified record was answered, at the guide's name and within
   the allowed attempts, with a matching value.
   */
  lemma VerifiedWasAnswered(r: Record, maxRetries: int, w: Weather) returns (k: nat, i: nat)
    requires InTime(r, maxRetries, w)
    ensures k <= maxRetries && w.resolver(k)(r.kind, r.name).Some?
    ensures var values := w.resolver(k)(r.kind, r.name).value;
            i < |values| && Matches(r.kind, values[i], r.value)
  {
    k :| k <= maxRetries && VerifiedAt(r, maxRetries, w, k);
    var values := w.resolver(k)(r.kind, r.name).value;
    i :| 0 <= i < |values| && Matches(r.kind, values[i], r.value);
  }

  /** A cancelled request stops trying: what an attempt after the cancellation would see does not count. */
  lemma CancellationEnds(r: Record, maxRetries: int, w: Weather, j: nat)
    requires forall i: nat :: i < j ==> !Verified(r, w.resolver(i))
    requires w.cancelledBefore(j) || (w.cancelledAfter(j) && !Verified(r, w.resolver(j)))
    ensures !InTime(r, maxRetries, w)
  {
    hide Verified;
  }
}
