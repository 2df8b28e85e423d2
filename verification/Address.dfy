/** Recipient addresses: parseEmailAddress and the mailbox address built from its parts. */
module Address {
  import opened Basics
  import opened Text

  datatype Parts = Parts(local: string, domain: string)

  /** One leading `<` and one trailing `>` go, then white space. */
  function Bare(address: string): string {
    TrimSpace(TrimSuffix(TrimPrefix(address, "<"), ">"))
  }

  /** Exactly one `@`, with something on both sides, must remain. */
  function Parse(address: string): Option<Parts> {
    var parts := Split(Bare(address), '@');
    if |parts| != 2 || parts[0] == "" || parts[1] == "" then None
    else Some(Parts(ToLower(parts[0]), ToLower(parts[1])))
  }

  function Print(p: Parts): string {
    p.local + "@" + p.domain
  }

  predicate Plain(p: Parts) {
    && p.local != "" && p.domain != "" && '@' !in p.local && '@' !in p.domain
    && IsLower(p.local) && IsLower(p.domain)
  }

  /** The printed form survives the trimming. */
  predicate Survives(p: Parts)
    requires p.local != "" && p.domain != ""
  {
    && p.local[0] != '<' && !IsSpace(p.local[0])
    && p.domain[|p.domain| - 1] != '>' && !IsSpace(p.domain[|p.domain| - 1])
  }

  /** Whatever parses has plain parts. */
  lemma ParsedIsPlain(address: string)
    requires Parse(address).Some?
    ensures Plain(Parse(address).value)
  {
    hide Bare, Split;
    var parts := Split(Bare(address), '@');
    SplitPieces(Bare(address), '@');
    ToLowerIdempotent(parts[0]);
    ToLowerIdempotent(parts[1]);
    LowerKeepsAt(parts[0]);
    LowerKeepsAt(parts[1]);
  }

  lemma LowerKeepsAt(s: string)
    ensures '@' in ToLower(s) <==> '@' in s
  {
    if '@' in s {
      var i :| 0 <= i < |s| && s[i] == '@';
      assert ToLower(s)[i] == '@';
    }
    if '@' in ToLower(s) {
      var i :| 0 <= i < |s| && ToLower(s)[i] == '@';
      assert s[i] == '@';
    }
  }

  /** Splitting local@domain gives the two parts back. */
  lemma SplitPrinted(local: string, domain: string)
    requires '@' !in local && '@' !in domain
    ensures Split(local + "@" + domain, '@') == [local, domain]
  {
    SplitAcross(local, domain, '@');
    SplitWithout(local, '@');
    SplitWithout(domain, '@');
  }

  /** Trimming changes nothing in an address whose ends are neither brackets nor spaces. */
  lemma BareKeeps(s: string)
    requires s != "" && s[0] != '<' && s[|s| - 1] != '>' && !IsSpace(s[0]) && !IsSpace(s[|s| - 1])
    ensures Bare(s) == s
  {
    hide TrimSpace, IsSpace;
    TrimSpaceKeeps(s);
    assert s[|s| - 1..] == [s[|s| - 1]];
  }

  /** One bracket goes at each end, whatever is inside. */
  lemma BareUnwraps(s: string)
    requires s != "" && !IsSpace(s[0]) && !IsSpace(s[|s| - 1])
    ensures Bare("<" + s + ">") == s
    ensures s[|s| - 1] != '>' ==> Bare("<" + s) == s
  {
    hide TrimSpace, IsSpace;
    TrimSpaceKeeps(s);
    assert ("<" + s + ">")[1..] == s + ">" && ("<" + s)[1..] == s;
    assert (s + ">")[|s|..] == ">" && (s + ">")[..|s|] == s;
    assert s[|s| - 1..] == [s[|s| - 1]];
  }

  lemma TrimKeepsPrinted(local: string, domain: string)
    requires local != "" && domain != ""
    requires Survives(Parts(local, domain))
    ensures var s := local + "@" + domain;
            Bare(s) == s && Bare("<" + s + ">") == s
  {
    hide Bare, IsSpace;
    var s := local + "@" + domain;
    assert s[0] == local[0] && s[|s| - 1] == domain[|domain| - 1];
    BareKeeps(s);
    BareUnwraps(s);
  }

  lemma BareParses(address: string, local: string, domain: string)
    requires Bare(address) == local + "@" + domain
    requires local != "" && domain != "" && '@' !in local && '@' !in domain
    ensures Parse(address) == Some(Parts(ToLower(local), ToLower(domain)))
  {
    hide Bare, Split;
    SplitPrinted(local, domain);
  }

  lemma ParsedLength(address: string)
    requires Parse(address).Some?
    ensures |Bare(address)| == |Parse(address).value.local| + 1 + |Parse(address).value.domain|
  {
    hide Bare, Split;
    JoinOfSplit(Bare(address), '@');
  }

  /** Only an address whose ends survive keeps its length. */
  lemma FullLengthSurvives(s: string)
    requires s != "" && |Bare(s)| == |s|
    ensures s[0] != '<' && !IsSpace(s[0]) && s[|s| - 1] != '>' && !IsSpace(s[|s| - 1])
  {
    var unbracketed := TrimPrefix(s, "<");
    var closed := TrimSuffix(unbracketed, ">");
    TrimSpaceKeeps(closed);
    assert unbracketed == s && closed == s;
    assert |TrimLeft(s)| == |s| && TrimLeft(s) == s;
    assert TrimSpace(s) == s;
    assert s[|s| - 1..] == [s[|s| - 1]];
  }

  /**
   Printing plain parts and parsing them gives them back exactly when the
   printed form survives the trimming.
   */
  lemma RoundTripExactly(p: Parts)
    requires Plain(p)
    ensures Parse(Print(p)) == Some(p) <==> Survives(p)
  {
    hide Bare, Parse;
    var s := Print(p);
    if Survives(p) {
      ToLowerIdempotent(p.local);
      ToLowerIdempotent(p.domain);
      TrimKeepsPrinted(p.local, p.domain);
      BareParses(s, p.local, p.domain);
    }
    if Parse(s) == Some(p) {
      ParsedLength(s);
      FullLengthSurvives(s);
      assert s[|s| - 1] == p.domain[|p.domain| - 1];
    }
  }

  /** The address is what its own parts print to. */
  predicate Normal(address: string) {
    Parse(address).Some? && Print(Parse(address).value) == address
  }

  /** What is printed from one pair of parts and from plain parts is printed from those plain parts. */
  lemma PrintedPlainly(p: Parts, q: Parts)
    requires Plain(q) && Print(p) == Print(q)
    ensures p == q
  {
    hide Split, Join;
    SplitAcross(p.local, p.domain, '@');
    SplitPrinted(q.local, q.domain);
    JoinOfSplit(p.local, '@');
    JoinOfSplit(p.domain, '@');
    JoinOne(Split(p.local, '@'));
    JoinOne(Split(p.domain, '@'));
    var sum := Split(p.local, '@') + Split(p.domain, '@');
    assert sum == [q.local, q.domain];
    assert sum[0] == Split(p.local, '@')[0] && sum[1] == Split(p.domain, '@')[0];
  }

  lemma JoinOne(parts: seq<string>)
    ensures |parts| == 1 ==> Join(parts, '@') == parts[0]
  {
  }

  /** A printed address is in normal form exactly when its parts are plain and survive the trimming. */
  lemma NormalExactly(p: Parts)
    ensures Normal(Print(p)) <==> Plain(p) && Survives(p)
  {
    hide Parse, Survives;
    if Normal(Print(p)) {
      ParsedIsPlain(Print(p));
      PrintedPlainly(p, Parse(Print(p)).value);
    }
    if Plain(p) {
      RoundTripExactly(p);
    }
  }

  /**
   Parts that do not survive do come up: of two opening brackets one is kept,
   and the address printed from these parts is read as another one.
   */
  lemma ExtraBracketStays(p: Parts)
    requires Plain(p) && Survives(p)
    ensures var odd := Parts("<" + p.local, p.domain);
            && Parse("<" + Print(odd) + ">") == Some(odd)
            && Plain(odd) && !Survives(odd)
            && Parse(Print(odd)) == Some(p)
  {
    hide Bare, Parse, IsSpace;
    var odd := Parts("<" + p.local, p.domain);
    var s, t := Print(p), Print(odd);
    assert t == "<" + s;
    assert s[0] == p.local[0] && t[0] == '<' && s[|s| - 1] == t[|t| - 1] == p.domain[|p.domain| - 1];
    assert !IsSpace('<') by { BracketIsNoSpace(); }
    BareUnwraps(t);
    BareUnwraps(s);
    assert Plain(odd);
    BareParses("<" + t + ">", odd.local, odd.domain);
    BareParses(t, p.local, p.domain);
    ToLowerIdempotent(odd.local);
    ToLowerIdempotent(p.local);
    ToLowerIdempotent(p.domain);
  }

  lemma BracketIsNoSpace()
    ensures !IsSpace('<')
  {
  }

  lemma LowerKeepsEnds(c: char)
    ensures IsSpace(LowerChar(c)) <==> IsSpace(c)
    ensures (LowerChar(c) == '<' <==> c == '<') && (LowerChar(c) == '>' <==> c == '>')
  {
  }

  /** Upper-case and bracketed spellings of an address parse to the same parts, hence reach the same mailbox. */
  lemma SpellingsAgree(p: Parts, local: string, domain: string)
    requires Plain(p) && Survives(p)
    requires ToLower(local) == p.local && ToLower(domain) == p.domain
    ensures Parse(local + "@" + domain) == Some(p)
    ensures Parse("<" + local + "@" + domain + ">") == Some(p)
  {
    hide Bare, Parse, IsSpace, LowerChar;
    LowerKeepsAt(local);
    LowerKeepsAt(domain);
    var n := |domain| - 1;
    assert p.local[0] == LowerChar(local[0]) && p.domain[n] == LowerChar(domain[n]);
    LowerKeepsEnds(local[0]);
    LowerKeepsEnds(domain[n]);
    TrimKeepsPrinted(local, domain);
    var s := local + "@" + domain;
    assert "<" + local + "@" + domain + ">" == "<" + s + ">";
    BareParses(s, local, domain);
    BareParses("<" + s + ">", local, domain);
  }
}
