/**
 The in-memory certificate store behind SNI (section 3 of RFC 6066): names to
 certificates, loaded from the files on disk, with a `mail.` alias per domain
 and a fallback from a host to its parent domain.
 */
module CertStore {
  import opened Basics
  import opened AcmeClient
  import opened CertStorage

  /** A parsed key pair: it is known by the two files it was parsed from. */
  datatype Tls = Tls(certificate: Bytes, key: Bytes)

  /** Which certificate/key contents parse as a pair. */
  type Parser = (Bytes, Bytes) -> bool

  datatype Store = Store(certificates: map<string, Tls>, fallback: Option<Tls>)

  function Mail(name: string): string {
    "mail." + name
  }

  function LoadPair(d: Disk, name: string, parses: Parser): Option<Tls> {
    var folder := FolderOf(d, name);
    if name == "" || !Exists(d, name) then None
    else if parses(folder.certificate.value.data, folder.key.value.data)
    then Some(Tls(folder.certificate.value.data, folder.key.value.data))
    else None
  }

  /** Everything after the first dot; empty when there is no dot or nothing follows it. */
  function ParentDomain(name: string): string {
    if name == "" then "" else if name[0] == '.' then name[1..] else ParentDomain(name[1..])
  }

  /** The certificate served for a name: its own, its parent's, or the default. */
  function Serve(s: Store, name: string): Option<Tls> {
    if name != "" && name in s.certificates then Some(s.certificates[name])
    else if ParentDomain(name) != "" && ParentDomain(name) in s.certificates
    then Some(s.certificates[ParentDomain(name)])
    else s.fallback
  }

  /** LoadAndAddCertificate: a pair that does not load leaves the store as it was. */
  function HotReload(s: Store, d: Disk, name: string, parses: Parser): Store {
    var pair := LoadPair(d, name, parses);
    if pair.None? then s
    else s.(certificates := s.certificates[name := pair.value][Mail(name) := pair.value])
  }

  /** Row i of the table answers for key: it loads, and the key is its name or its mail name. */
  predicate Answers(rows: seq<string>, d: Disk, parses: Parser, i: int, key: string) {
    0 <= i < |rows| && LoadPair(d, rows[i], parses).Some? && (rows[i] == key || Mail(rows[i]) == key)
  }

  /** The last row that answers for key. */
  ghost predicate LastAnswer(rows: seq<string>, d: Disk, parses: Parser, i: int, key: string) {
    Answers(rows, d, parses, i, key) && forall j :: i < j < |rows| ==> !Answers(rows, d, parses, j, key)
  }

  /** The map holds, for every key, the certificate of the last row that answers for it, and nothing else. */
  ghost predicate IsReloadOf(certificates: map<string, Tls>, rows: seq<string>, d: Disk, parses: Parser) {
    && (forall key :: key in certificates <==> exists i :: LastAnswer(rows, d, parses, i, key))
    && (forall key, i :: LastAnswer(rows, d, parses, i, key) ==>
          key in certificates && certificates[key] == LoadPair(d, rows[i], parses).value)
  }

  class CertificateStore {
    var certificates: map<string, Tls>
    var fallback: Option<Tls>

    ghost function Value(): Store
      reads this
    {
      Store(certificates, fallback)
    }

    constructor ()
      ensures Value() == Store(map[], None)
    {
      certificates, fallback := map[], None;
    }

    /** ReloadAll; no rows means the table could not be read. */
    method ReloadAll(rows: Option<seq<string>>, d: Disk, parses: Parser) returns (ok: bool)
      modifies this`certificates
      ensures ok == rows.Some?
      ensures !ok ==> certificates == old(certificates)
      ensures ok ==> IsReloadOf(certificates, rows.value, d, parses)
    {
      if rows.None? {
        return false;
      }
      var list := rows.value;
      var loaded: map<string, Tls> := map[];
      for i := 0 to |list|
        invariant IsReloadOf(loaded, list[..i], d, parses)
      {
        var pair := LoadPair(d, list[i], parses);
        ghost var before := loaded;
        if pair.Some? {
          loaded := loaded[list[i] := pair.value];
          loaded := loaded[Mail(list[i]) := pair.value];
        }
        OneMoreRow(before, loaded, list[..i], list[i], d, parses);
        assert list[..i + 1] == list[..i] + [list[i]];
      }
      assert list[..|list|] == list;
      certificates := loaded;
      ok := true;
    }

    /** extractParentDomain: a scan for the first dot. */
    static method ExtractParentDomain(name: string) returns (parent: string)
      ensures parent == ParentDomain(name)
    {
      var i := 0;
      while i < |name|
        invariant 0 <= i <= |name|
        invariant ParentDomain(name) == ParentDomain(name[i..])
      {
        assert name[i..][1..] == name[i + 1..];
        if name[i] == '.' {
          if i + 1 < |name| {
            return name[i + 1..];
          }
          return "";
        }
        i := i + 1;
      }
      return "";
    }

    method GetCertificate(name: string) returns (r: Option<Tls>)
      ensures r == Serve(Value(), name)
    {
      if name != "" {
        if name in certificates {
          return Some(certificates[name]);
        }
        var parent := ExtractParentDomain(name);
        ParentIsShorter(name);
        if parent != "" && parent != name && parent in certificates {
          return Some(certificates[parent]);
        }
      }
      r := fallback;
    }

    method LoadAndAddCertificate(name: string, d: Disk, parses: Parser) returns (ok: bool)
      modifies this`certificates
      ensures Value() == HotReload(old(Value()), d, name, parses)
      ensures ok == LoadPair(d, name, parses).Some?
    {
      var pair := LoadPair(d, name, parses);
      if pair.None? {
        return false;
      }
      certificates := certificates[name := pair.value];
      certificates := certificates[Mail(name) := pair.value];
      ok := true;
    }
  }

  // ------------------------------------------------------------ reloading

  lemma OneMoreRow(
    before: map<string, Tls>, after: map<string, Tls>, rows: seq<string>, row: string, d: Disk, parses: Parser)
    requires IsReloadOf(before, rows, d, parses)
    requires var pair := LoadPair(d, row, parses);
             after == if pair.Some? then before[row := pair.value][Mail(row) := pair.value] else before
    ensures IsReloadOf(after, rows + [row], d, parses)
  {
    var more := rows + [row];
    var n := |rows|;
    forall key, i
      ensures Answers(more, d, parses, i, key) <==>
              || Answers(rows, d, parses, i, key)
              || (i == n && LoadPair(d, row, parses).Some? && (row == key || Mail(row) == key))
    {
    }
    forall key, i | LastAnswer(more, d, parses, i, key)
      ensures key in after && after[key] == LoadPair(d, more[i], parses).value
    {
      if i < n {
        assert !Answers(more, d, parses, n, key);
        assert LastAnswer(rows, d, parses, i, key);
      }
    }
    forall key | key in after
      ensures exists i :: LastAnswer(more, d, parses, i, key)
    {
      if Answers(more, d, parses, n, key) {
        assert LastAnswer(more, d, parses, n, key);
      } else {
        var i :| LastAnswer(rows, d, parses, i, key);
        assert LastAnswer(more, d, parses, i, key);
      }
    }
  }

  function Loadable(rows: seq<string>, d: Disk, parses: Parser): seq<string> {
    if rows == [] then []
    else (if LoadPair(d, rows[0], parses).Some? then [rows[0]] else []) + Loadable(rows[1..], d, parses)
  }

  /** Reloading from the rows or from the loadable rows alone gives the same answers. */
  lemma {:induction false} UnloadableRowsChangeNothing(rows: seq<string>, d: Disk, parses: Parser, m: map<string, Tls>)
    requires IsReloadOf(m, rows, d, parses)
    ensures IsReloadOf(m, Loadable(rows, d, parses), d, parses)
  {
    var built := Build(Loadable(rows, d, parses), d, parses);
    BuildSkips(rows, d, parses);
    BuildIsReload(rows, d, parses);
    BuildIsReload(Loadable(rows, d, parses), d, parses);
    ReloadUnique(m, built, rows, d, parses);
  }

  /** The reload as a recursive function, last row last. */
  function Build(rows: seq<string>, d: Disk, parses: Parser): map<string, Tls>
    decreases |rows|
  {
    if rows == [] then map[] else
    var n := |rows| - 1;
    var before := Build(rows[..n], d, parses);
    var pair := LoadPair(d, rows[n], parses);
    if pair.Some? then before[rows[n] := pair.value][Mail(rows[n]) := pair.value] else before
  }

  lemma {:induction false} BuildIsReload(rows: seq<string>, d: Disk, parses: Parser)
    ensures IsReloadOf(Build(rows, d, parses), rows, d, parses)
    decreases |rows|
  {
    if rows != [] {
      var n := |rows| - 1;
      BuildIsReload(rows[..n], d, parses);
      OneMoreRow(Build(rows[..n], d, parses), Build(rows, d, parses), rows[..n], rows[n], d, parses);
      assert rows == rows[..n] + [rows[n]];
    }
  }

  lemma {:induction false} LoadableAppend(a: seq<string>, row: string, d: Disk, parses: Parser)
    ensures Loadable(a + [row], d, parses) ==
            Loadable(a, d, parses) + (if LoadPair(d, row, parses).Some? then [row] else [])
    decreases |a|
  {
    if a == [] {
      assert Loadable([row][1..], d, parses) == [];
    } else {
      assert (a + [row])[1..] == a[1..] + [row];
      LoadableAppend(a[1..], row, d, parses);
    }
  }

  lemma {:induction false} BuildSkips(rows: seq<string>, d: Disk, parses: Parser)
    ensures Build(Loadable(rows, d, parses), d, parses) == Build(rows, d, parses)
    decreases |rows|
  {
    if rows != [] {
      var n := |rows| - 1;
      var before := Loadable(rows[..n], d, parses);
      BuildSkips(rows[..n], d, parses);
      LoadableAppend(rows[..n], rows[n], d, parses);
      assert rows == rows[..n] + [rows[n]];
      if LoadPair(d, rows[n], parses).Some? {
        assert (before + [rows[n]])[..|before|] == before;
      } else {
        assert before + [] == before;
      }
    }
  }

  /** If some row answers for a key, some row is the last to do so. */
  lemma {:induction false} LastAnswerExists(rows: seq<string>, d: Disk, parses: Parser, i: int, key: string)
    requires Answers(rows, d, parses, i, key)
    ensures exists j :: LastAnswer(rows, d, parses, j, key)
    decreases |rows| - i
  {
    if j :| i < j < |rows| && Answers(rows, d, parses, j, key) {
      LastAnswerExists(rows, d, parses, j, key);
    } else {
      assert LastAnswer(rows, d, parses, i, key);
    }
  }

  lemma ReloadUnique(m: map<string, Tls>, m': map<string, Tls>, rows: seq<string>, d: Disk, parses: Parser)
    requires IsReloadOf(m, rows, d, parses) && IsReloadOf(m', rows, d, parses)
    ensures m == m'
  {
    forall key | key in m
      ensures m[key] == m'[key]
    {
      var i :| LastAnswer(rows, d, parses, i, key);
    }
  }

  // ------------------------------------------------- rows named mail.x

  /**
   A domain named mail.x beside a domain x: mail.x is served its own certificate
   exactly when x's row comes before its own, in whatever order the database
   lists the names; otherwise x's alias has overwritten it.
   */
  lemma MailRowKeepsItsOwn(m: map<string, Tls>, rows: seq<string>, d: Disk, parses: Parser, x: string, i: int, j: int)
    requires IsReloadOf(m, rows, d, parses)
    requires forall a, b :: 0 <= a < b < |rows| ==> rows[a] != rows[b]
    requires 0 <= i < |rows| && rows[i] == Mail(x) && LoadPair(d, Mail(x), parses).Some?
    requires 0 <= j < |rows| && rows[j] == x && LoadPair(d, x, parses).Some?
    requires LoadPair(d, Mail(x), parses) != LoadPair(d, x, parses)
    ensures Mail(x) in m
    ensures m[Mail(x)] == LoadPair(d, Mail(x), parses).value <==> j < i
  {
    assert Answers(rows, d, parses, i, Mail(x)) && Answers(rows, d, parses, j, Mail(x));
    assert |Mail(x)| == |x| + 5;
    assert i != j;
    var last := if i < j then j else i;
    forall k | last < k < |rows|
      ensures !Answers(rows, d, parses, k, Mail(x))
    {
      assert Mail(rows[k])[5..] == rows[k] && Mail(x)[5..] == x;
    }
    assert LastAnswer(rows, d, parses, last, Mail(x));
  }

  // ---------------------------------------------------------- hot reload

  lemma {:induction false} ParentIsShorter(name: string)
    ensures name != "" ==> |ParentDomain(name)| < |name|
  {
    if name != "" && name[0] != '.' {
      ParentIsShorter(name[1..]);
    }
  }

  /** The part after the first dot, by position; empty exactly when no dot has anything after it. */
  lemma {:induction false} ParentExactly(name: string, parent: string)
    ensures ParentDomain(name) == parent <==>
              if '.' !in name then parent == ""
              else exists i :: FirstDot(name, i) && parent == name[i + 1..]
  {
    if name != "" && name[0] != '.' {
      var rest := name[1..];
      ParentExactly(rest, parent);
      forall i
        ensures FirstDot(name, i) <==> i >= 1 && FirstDot(rest, i - 1)
        ensures FirstDot(name, i) ==> name[i + 1..] == rest[i..]
      {
      }
      if ParentDomain(rest) == parent && '.' in rest {
        var i :| FirstDot(rest, i) && parent == rest[i + 1..];
        assert FirstDot(name, i + 1);
      }
    } else if name != "" {
      assert FirstDot(name, 0);
    }
  }

  predicate FirstDot(name: string, i: int) {
    0 <= i < |name| && name[i] == '.' && forall j :: 0 <= j < i ==> name[j] != '.'
  }

  /**
   The answer for every name, by what is on file: an entry of its own wins, then
   one of the name after its first dot; with neither it is the default.
   */
  lemma ServesInOrder(s: Store, name: string, i: int)
    ensures name != "" && name in s.certificates ==> Serve(s, name) == Some(s.certificates[name])
    ensures name !in s.certificates && FirstDot(name, i) && i + 1 < |name| ==>
              Serve(s, name) ==
              if name[i + 1..] in s.certificates then Some(s.certificates[name[i + 1..]]) else s.fallback
    ensures name !in s.certificates && (name == "" || '.' !in name[..|name| - 1]) ==> Serve(s, name) == s.fallback
  {
    ParentExactly(name, ParentDomain(name));
    if name != "" {
      var front := name[..|name| - 1];
      assert forall j :: 0 <= j < |front| ==> name[j] in front;
    }
  }

  /** A host one label below d has d as its parent. */
  lemma {:induction false} ChildOf(host: string, d: string)
    requires '.' !in host
    ensures ParentDomain(host + "." + d) == d
  {
    var name := host + "." + d;
    if host == "" {
      assert name == "." + d;
      assert name[1..] == d;
    } else {
      assert name[1..] == host[1..] + "." + d;
      ChildOf(host[1..], d);
    }
  }

  /**
   After a hot reload of a loadable domain, every name is answered as follows:
   the domain, its mail name and the hosts below either of them that have no
   entry of their own get the new pair; every other name is answered as before.
   */
  lemma HotReloadServes(s: Store, disk: Disk, d: string, parses: Parser, name: string)
    requires LoadPair(disk, d, parses).Some?
    ensures var t := HotReload(s, disk, d, parses);
            var loaded := LoadPair(disk, d, parses);
            Serve(t, name) ==
            if name == d || name == Mail(d) then loaded
            else if name != "" && name in s.certificates then Serve(s, name)
            else if ParentDomain(name) == d || ParentDomain(name) == Mail(d) then loaded
            else Serve(s, name)
  {
  }

  /**
   Saving a bundle that parses and then hot-reloading its domain serves exactly
   that bundle's pair for the domain, its mail name and every one-label child
   without an entry of its own.
   */
  lemma SavedIsServed(s: Store, disk: Disk, d: string, b: Bundle, f: SaveFaults, parses: Parser, host: string)
    requires SaveOk(d, b, f) && parses(b.certificate, b.privateKey)
    requires '.' !in host
    ensures var t := HotReload(s, Save(disk, d, b, f), d, parses);
            var pair := Some(Tls(b.certificate, b.privateKey));
            && Serve(t, d) == pair
            && Serve(t, Mail(d)) == pair
            && (host + "." + d !in s.certificates ==> Serve(t, host + "." + d) == pair)
  {
    var after := Save(disk, d, b, f);
    SaveThenLoad(disk, d, b, f);
    HotReloadServes(s, after, d, parses, d);
    HotReloadServes(s, after, d, parses, Mail(d));
    HotReloadServes(s, after, d, parses, host + "." + d);
    ChildOf(host, d);
  }
}
