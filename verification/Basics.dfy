/** Shared value types and the few string operations the program relies on. */
module Basics {
  datatype Option<+T> = None | Some(value: T)

  /** Times are seconds on an arbitrary clock. */
  type Time = int

  /** File and certificate contents. */
  type Bytes = string
}

/**
 Go's strings functions as the program uses them. Letter case is folded for
 ASCII; the white space is Unicode's, as strings.TrimSpace has it.
 */
module Text {
  function LowerChar(c: char): (r: char)
    ensures !('A' <= r <= 'Z')
  {
    if 'A' <= c <= 'Z' then ((c as int) + 32) as char else c
  }

  function ToLower(s: string): (r: string)
    ensures |r| == |s|
    ensures forall i :: 0 <= i < |s| ==> r[i] == LowerChar(s[i])
  {
    seq(|s|, i requires 0 <= i < |s| => LowerChar(s[i]))
  }

  predicate IsLower(s: string) {
    forall i :: 0 <= i < |s| ==> !('A' <= s[i] <= 'Z')
  }

  predicate IsSpace(c: char) {
    || c in ['\t', '\n', '\U{B}', '\U{C}', '\r', ' ', '\U{85}', '\U{A0}', '\U{1680}']
    || '\U{2000}' <= c <= '\U{200A}'
    || c in ['\U{2028}', '\U{2029}', '\U{202F}', '\U{205F}', '\U{3000}']
  }

  function TrimLeft(s: string): (r: string)
    ensures r == "" || !IsSpace(r[0])
    ensures |r| <= |s| && r == s[|s| - |r|..]
    ensures forall i :: 0 <= i < |s| - |r| ==> IsSpace(s[i])
  {
    if s != "" && IsSpace(s[0]) then TrimLeft(s[1..]) else s
  }

  function TrimRight(s: string): (r: string)
    ensures r == "" || !IsSpace(r[|r| - 1])
    ensures |r| <= |s| && r == s[..|r|]
    ensures forall i :: |r| <= i < |s| ==> IsSpace(s[i])
  {
    if s != "" && IsSpace(s[|s| - 1]) then TrimRight(s[..|s| - 1]) else s
  }

  function TrimSpace(s: string): string {
    TrimRight(TrimLeft(s))
  }

  function TrimPrefix(s: string, p: string): string {
    if p <= s then s[|p|..] else s
  }

  predicate HasSuffix(s: string, p: string) {
    |p| <= |s| && s[|s| - |p|..] == p
  }

  function TrimSuffix(s: string, p: string): string {
    if HasSuffix(s, p) then s[..|s| - |p|] else s
  }

  predicate Contains(s: string, p: string) {
    p <= s || (s != "" && Contains(s[1..], p))
  }

  /** The pieces of s between the separators; never empty. */
  function Split(s: string, sep: char): (r: seq<string>)
    ensures |r| > 0
    decreases |s|
  {
    if s == "" then [""]
    else
      var rest := Split(s[1..], sep);
      if s[0] == sep then [""] + rest
      else [[s[0]] + rest[0]] + rest[1..]
  }

  function Join(parts: seq<string>, sep: char): string {
    if parts == [] then ""
    else if |parts| == 1 then parts[0]
    else parts[0] + [sep] + Join(parts[1..], sep)
  }

  // ---------------------------------------------------------------- lemmas

  lemma ToLowerIdempotent(s: string)
    ensures IsLower(ToLower(s))
    ensures IsLower(s) ==> ToLower(s) == s
  {
    if IsLower(s) {
      assert forall i :: 0 <= i < |s| ==> ToLower(s)[i] == s[i];
    }
  }

  /** Trimming keeps a string exactly when it has no space at either end. */
  lemma TrimSpaceKeeps(s: string)
    ensures TrimSpace(s) == s <==> s == "" || (!IsSpace(s[0]) && !IsSpace(s[|s| - 1]))
    ensures |TrimSpace(s)| <= |s|
  {
    if TrimSpace(s) == s {
      assert |TrimLeft(s)| == |s|;
      assert TrimLeft(s) == s;
    }
  }

  lemma TrimSpaceTwice(s: string)
    ensures TrimSpace(TrimSpace(s)) == TrimSpace(s)
  {
    var r := TrimSpace(s);
    if r != "" {
      assert r[0] == TrimLeft(s)[0];
    }
    TrimSpaceKeeps(r);
  }

  lemma {:induction false} SplitWithout(s: string, sep: char)
    requires sep !in s
    ensures Split(s, sep) == [s]
    decreases |s|
  {
    if s != "" {
      SplitWithout(s[1..], sep);
      assert s == [s[0]] + s[1..];
    }
  }

  /** One character more at the front. */
  lemma SplitHead(s: string, sep: char)
    requires s != ""
    ensures Split(s, sep) == Prepend(s[0], sep, Split(s[1..], sep))
  {
  }

  function Prepend(c: char, sep: char, parts: seq<string>): seq<string>
    requires parts != []
  {
    if c == sep then [""] + parts else [[c] + parts[0]] + parts[1..]
  }

  lemma PrependToSum(c: char, sep: char, a: seq<string>, b: seq<string>)
    requires a != []
    ensures Prepend(c, sep, a + b) == Prepend(c, sep, a) + b
  {
    assert (a + b)[0] == a[0] && (a + b)[1..] == a[1..] + b;
  }

  /** A separator between two strings splits their pieces apart. */
  lemma {:induction false} SplitAcross(a: string, b: string, sep: char)
    ensures Split(a + [sep] + b, sep) == Split(a, sep) + Split(b, sep)
    decreases |a|
  {
    var s := a + [sep] + b;
    SplitHead(s, sep);
    if a == "" {
      assert s[1..] == b;
    } else {
      hide Split, Prepend;
      assert s[1..] == a[1..] + [sep] + b && s[0] == a[0];
      SplitAcross(a[1..], b, sep);
      SplitHead(a, sep);
      PrependToSum(a[0], sep, Split(a[1..], sep), Split(b, sep));
    }
  }

  lemma {:induction false} SplitOfJoin(parts: seq<string>, sep: char)
    requires parts != []
    requires forall i :: 0 <= i < |parts| ==> sep !in parts[i]
    ensures Split(Join(parts, sep), sep) == parts
  {
    SplitWithout(parts[0], sep);
    if |parts| > 1 {
      SplitAcross(parts[0], Join(parts[1..], sep), sep);
      SplitOfJoin(parts[1..], sep);
      assert [parts[0]] + parts[1..] == parts;
    } else {
      assert parts == [parts[0]];
    }
  }

  lemma {:induction false} SplitPieces(s: string, sep: char)
    ensures forall i :: 0 <= i < |Split(s, sep)| ==> sep !in Split(s, sep)[i]
    decreases |s|
  {
    if s != "" {
      SplitPieces(s[1..], sep);
    }
  }

  lemma {:induction false} JoinOfSplit(s: string, sep: char)
    ensures Join(Split(s, sep), sep) == s
    decreases |s|
  {
    if s != "" {
      JoinOfSplit(s[1..], sep);
      var rest := Split(s[1..], sep);
      if s[0] == sep {
        assert ([""] + rest)[1..] == rest;
        assert s == [sep] + s[1..];
      } else {
        assert ([[s[0]] + rest[0]] + rest[1..])[1..] == rest[1..];
        assert s == [s[0]] + s[1..];
      }
    }
  }
}
