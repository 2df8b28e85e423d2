/**
 The file storage's paths: Go's lexical path functions (Clean, Join, Abs, Ext),
 the name Save gives a file, and the check that Get and Delete make on a path.
 */
module FilePath {
  import opened Basics
  import opened Text

  predicate IsAbs(p: string) {
    p != "" && p[0] == '/'
  }

  /** One path element applied to a cleaned prefix. */
  function Enter(at: seq<string>, element: string, rooted: bool): seq<string> {
    if element == "" || element == "." then at
    else if element == ".." then
      if at != [] && at[|at| - 1] != ".." then at[..|at| - 1]
      else if rooted then at else at + [".."]
    else at + [element]
  }

  /** All elements applied, left to right. */
  function Walk(at: seq<string>, elements: seq<string>, rooted: bool): seq<string>
    decreases |elements|
  {
    if elements == [] then at
    else
      var n := |elements| - 1;
      Enter(Walk(at, elements[..n], rooted), elements[n], rooted)
  }

  function Render(elements: seq<string>, rooted: bool): string {
    if rooted then "/" + Join(elements, '/')
    else if elements == [] then "." else Join(elements, '/')
  }

  function Clean(p: string): string {
    if p == "" then "." else Render(Walk([], Split(p, '/'), IsAbs(p)), IsAbs(p))
  }

  function JoinPaths(a: string, b: string): string {
    if a == "" then (if b == "" then "" else Clean(b))
    else if b == "" then Clean(a) else Clean(a + "/" + b)
  }

  function Absolute(cwd: string, p: string): string {
    if IsAbs(p) then Clean(p) else JoinPaths(cwd, p)
  }

  predicate SlashAfter(name: string, i: int) {
    exists j :: 0 <= i < j < |name| && name[j] == '/'
  }

  /** The extension: from the last dot of the last element on. */
  function Ext(name: string): (r: string)
    ensures HasSuffix(name, r)
    ensures r == "" <==> forall i :: 0 <= i < |name| && name[i] == '.' ==> SlashAfter(name, i)
    ensures r != "" ==> r[0] == '.' && forall i :: 1 <= i < |r| ==> r[i] != '.' && r[i] != '/'
    decreases |name|
  {
    if name == "" then ""
    else
      var n := |name| - 1;
      if name[n] == '/' then ""
      else if name[n] == '.' then "."
      else
        var before := Ext(name[..n]);
        if before == "" then "" else before + [name[n]]
  }

  predicate IsUuid(u: string) {
    |u| == 36 && forall i :: 0 <= i < |u| ==> u[i] in "0123456789abcdef-"
  }

  /** The relative path under which Save stores a file. */
  function SavedAs(uuid: string, filename: string): string
    requires IsUuid(uuid)
  {
    var name := uuid + Ext(filename);
    JoinPaths(name[..2], name)
  }

  /** validatePath: the absolute path, or None for a path that is refused. */
  function Validate(cwd: string, base: string, p: string): Option<string> {
    var clean := Clean(p);
    if IsAbs(clean) || Contains(clean, "..") then None
    else
      var path := Absolute(cwd, JoinPaths(base, clean));
      var root := Absolute(cwd, base);
      if root + "/" <= path || path == root then Some(path) else None
  }

  // ------------------------------------------------------- path elements

  /** An ordinary element: a name, not a step. */
  predicate Ordinary(element: string) {
    element != "" && element != "." && element != ".." && '/' !in element
  }

  predicate AllOrdinary(elements: seq<string>) {
    forall i :: 0 <= i < |elements| ==> Ordinary(elements[i])
  }

  /** A cleaned relative path may start with steps up. */
  predicate Cleaned(elements: seq<string>) {
    forall i :: 0 <= i < |elements| ==> Ordinary(elements[i]) || elements[i] == ".."
  }

  lemma {:induction false} WalkAppend(at: seq<string>, a: seq<string>, b: seq<string>, rooted: bool)
    ensures Walk(at, a + b, rooted) == Walk(Walk(at, a, rooted), b, rooted)
    decreases |b|
  {
    if b == [] {
      assert a + b == a;
    } else {
      var n := |b| - 1;
      assert (a + b)[..|a + b| - 1] == a + b[..n];
      WalkAppend(at, a, b[..n], rooted);
    }
  }

  lemma WalkTwo(at: seq<string>, x: string, y: string, rooted: bool)
    requires Ordinary(x) && Ordinary(y)
    ensures Walk(at, [x, y], rooted) == at + [x, y]
  {
    assert [x, y][..1] == [x] && [x][..0] == [];
    assert Walk(at, [x], rooted) == at + [x];
    assert at + [x] + [y] == at + [x, y];
  }

  lemma {:induction false} WalkShape(at: seq<string>, elements: seq<string>, rooted: bool)
    requires forall i :: 0 <= i < |elements| ==> '/' !in elements[i]
    requires if rooted then AllOrdinary(at) else Cleaned(at)
    ensures if rooted then AllOrdinary(Walk(at, elements, rooted)) else Cleaned(Walk(at, elements, rooted))
    decreases |elements|
  {
    if elements != [] {
      WalkShape(at, elements[..|elements| - 1], rooted);
    }
  }

  /** Walking a cleaned rooted path from the root changes nothing. */
  lemma {:induction false} WalkOrdinary(at: seq<string>, elements: seq<string>)
    requires AllOrdinary(elements)
    ensures Walk(at, elements, true) == at + elements
    decreases |elements|
  {
    if elements != [] {
      var n := |elements| - 1;
      WalkOrdinary(at, elements[..n]);
      assert elements == elements[..n] + [elements[n]];
    }
  }

  /** Cleaning a relative path first does not change where it leads from a rooted place. */
  lemma {:induction false} CleanedLeadsSame(at: seq<string>, elements: seq<string>)
    requires AllOrdinary(at)
    requires forall i :: 0 <= i < |elements| ==> '/' !in elements[i]
    ensures Walk(at, Walk([], elements, false), true) == Walk(at, elements, true)
    decreases |elements|
  {
    if elements != [] {
      var n := |elements| - 1;
      var before, e := elements[..n], elements[n];
      CleanedLeadsSame(at, before);
      WalkShape([], before, false);
      WalkShape(at, before, true);
      EnterLeadsSame(at, Walk([], before, false), e);
    }
  }

  lemma EnterLeadsSame(at: seq<string>, cleaned: seq<string>, e: string)
    requires AllOrdinary(at) && Cleaned(cleaned) && '/' !in e
    ensures Walk(at, Enter(cleaned, e, false), true) == Enter(Walk(at, cleaned, true), e, true)
  {
    var n := |cleaned| - 1;
    if e == ".." && cleaned != [] && cleaned[n] != ".." {
      var prefix := Walk(at, cleaned[..n], true);
      assert Walk(at, cleaned, true) == prefix + [cleaned[n]];
      assert (prefix + [cleaned[n]])[..|prefix|] == prefix;
    } else if e != "" && e != "." {
      assert (cleaned + [e])[..|cleaned|] == cleaned;
    }
  }

  // ------------------------------------------------------------- rendering

  lemma {:induction false} JoinAppend(elements: seq<string>, more: seq<string>)
    requires elements != [] && more != []
    ensures Join(elements + more, '/') == Join(elements, '/') + "/" + Join(more, '/')
    decreases |elements|
  {
    if |elements| == 1 {
      assert (elements + more)[1..] == more;
    } else {
      assert (elements + more)[1..] == elements[1..] + more;
      JoinAppend(elements[1..], more);
    }
  }

  lemma SplitRooted(p: string)
    ensures Split("/" + p, '/') == [""] + Split(p, '/')
  {
    assert ("/" + p)[1..] == p;
  }

  /** Cleaning a rendered rooted path gives it back. */
  lemma CleanRooted(elements: seq<string>)
    requires elements != [] && AllOrdinary(elements)
    ensures Clean(Render(elements, true)) == Render(elements, true)
  {
    hide Split, Join;
    var p := Join(elements, '/');
    SplitRooted(p);
    SplitOfJoin(elements, '/');
    WalkAppend([], [""], elements, true);
    assert Walk([], [""], true) == [] by { assert [""][..0] == []; }
    WalkOrdinary([], elements);
    assert [] + elements == elements;
  }

  lemma {:induction false} RenderedStart(elements: seq<string>)
    requires elements != [] && Cleaned(elements)
    ensures Join(elements, '/') != "" && !IsAbs(Join(elements, '/'))
  {
    assert Ordinary(elements[0]) || elements[0] == "..";
    assert Join(elements, '/')[0] == elements[0][0];
    assert elements[0][0] in elements[0];
  }

  // ------------------------------------------------------- the saved name

  lemma SavedElements(uuid: string, filename: string)
    requires IsUuid(uuid)
    ensures var name := uuid + Ext(filename); Ordinary(name) && Ordinary(name[..2])
  {
    hide Ext, IsUuid;
    var name := uuid + Ext(filename);
    UuidIsPlain(uuid);
    assert name[..2] == uuid[..2] && name[0] == uuid[0];
    forall i | 0 <= i < |name|
      ensures name[i] != '/'
    {
      if i >= |uuid| {
        assert name[i] == Ext(filename)[i - |uuid|];
      }
    }
  }

  lemma UuidIsPlain(uuid: string)
    requires IsUuid(uuid)
    ensures |uuid| == 36 && forall i :: 0 <= i < |uuid| ==> uuid[i] != '.' && uuid[i] != '/'
  {
  }

  /** The name has at most one dot, so no two in a row. */
  lemma NoDoubleDot(uuid: string, filename: string)
    requires IsUuid(uuid)
    ensures var name := uuid + Ext(filename); !Contains(name[..2] + "/" + name, "..")
  {
    hide Ext;
    var name := uuid + Ext(filename);
    var path := name[..2] + "/" + name;
    forall i | 0 <= i < |path| - 1
      ensures !(path[i] == '.' && path[i + 1] == '.')
    {
      if i >= 3 {
        assert path[i] == name[i - 3] && path[i + 1] == name[i - 2];
      }
    }
    ContainsMeans(path);
  }

  lemma {:induction false} ContainsMeans(s: string)
    requires forall i :: 0 <= i < |s| - 1 ==> !(s[i] == '.' && s[i + 1] == '.')
    ensures !Contains(s, "..")
    decreases |s|
  {
    assert |s| >= 2 ==> !(s[0] == '.' && s[0 + 1] == '.');
    if s != "" {
      ContainsMeans(s[1..]);
    }
  }

  /** The path Save returns is already clean: directory, slash, name. */
  lemma SavedIsClean(uuid: string, filename: string)
    requires IsUuid(uuid)
    ensures var name := uuid + Ext(filename);
            && SavedAs(uuid, filename) == name[..2] + "/" + name
            && Clean(SavedAs(uuid, filename)) == SavedAs(uuid, filename)
  {
    hide Ext, Split;
    var name := uuid + Ext(filename);
    SavedElements(uuid, filename);
    var dir := name[..2];
    var p := dir + "/" + name;
    SplitAcross(dir, name, '/');
    SplitWithout(dir, '/');
    SplitWithout(name, '/');
    assert Split(p, '/') == [dir, name];
    assert p[0] == dir[0] && dir[0] in dir;
    assert !IsAbs(p);
    WalkTwo([], dir, name, false);
    assert Walk([], Split(p, '/'), false) == [dir, name];
    assert [dir, name][1..] == [name];
    assert Join([name], '/') == name;
    assert Join([dir, name], '/') == p;
    assert Clean(p) == p;
  }

  /** Where base/dir/name leads: the elements of the base, then the directory and the name. */
  lemma BelowBase(cwd: string, base: string, dir: string, name: string) returns (root: seq<string>)
    requires IsAbs(cwd) && base != "" && Ordinary(dir) && Ordinary(name)
    ensures AllOrdinary(root)
    ensures Absolute(cwd, base) == Render(root, true)
    ensures Absolute(cwd, JoinPaths(base, dir + "/" + name)) == Render(root + [dir, name], true)
  {
    hide Split, Join, Walk;
    var rel := dir + "/" + name;
    var elements := Split(base, '/');
    SplitPieces(base, '/');
    SplitAcross(base, rel, '/');
    SplitAcross(dir, name, '/');
    SplitWithout(dir, '/');
    SplitWithout(name, '/');
    assert Split(base + "/" + rel, '/') == elements + [dir, name];
    var rooted := IsAbs(base);
    assert IsAbs(base + "/" + rel) == rooted;
    var cleaned := Walk([], elements, rooted);
    WalkAppend([], elements, [dir, name], rooted);
    WalkTwo(cleaned, dir, name, rooted);
    WalkShape([], elements, rooted);
    var full := JoinPaths(base, rel);
    assert full == Render(cleaned + [dir, name], rooted);
    if rooted {
      root := cleaned;
      CleanRooted(cleaned + [dir, name]);
    } else {
      root := BelowRelative(cwd, base, cleaned, dir, name);
    }
  }

  lemma BelowRelative(cwd: string, base: string, cleaned: seq<string>, dir: string, name: string)
    returns (root: seq<string>)
    requires IsAbs(cwd) && base != "" && !IsAbs(base) && Ordinary(dir) && Ordinary(name)
    requires cleaned == Walk([], Split(base, '/'), false) && Cleaned(cleaned)
    ensures AllOrdinary(root)
    ensures Absolute(cwd, base) == Render(root, true)
    ensures Absolute(cwd, Render(cleaned + [dir, name], false)) == Render(root + [dir, name], true)
  {
    hide Split, Join, Walk;
    var above := Split(cwd, '/');
    var at := Walk([], above, true);
    SplitPieces(cwd, '/');
    WalkShape([], above, true);
    SplitPieces(base, '/');
    root := Walk(at, Split(base, '/'), true);
    WalkShape(at, Split(base, '/'), true);
    SplitAcross(cwd, base, '/');
    WalkAppend([], above, Split(base, '/'), true);
    assert IsAbs(cwd + "/" + base);
    var full := Join(cleaned + [dir, name], '/');
    RenderedStart(cleaned + [dir, name]);
    SplitAcross(cwd, full, '/');
    SplitOfJoin(cleaned + [dir, name], '/');
    WalkAppend([], above, cleaned + [dir, name], true);
    WalkAppend(at, cleaned, [dir, name], true);
    CleanedLeadsSame(at, Split(base, '/'));
    WalkTwo(root, dir, name, true);
    assert IsAbs(cwd + "/" + full);
  }

  /**
   For any file name and any base directory, the path Save returns is accepted
   by the check exactly when the base is not the root directory; the accepted
   path is the file Save wrote.
   */
  lemma SavedPathAccepted(cwd: string, base: string, uuid: string, filename: string)
    requires IsAbs(cwd) && base != "" && IsUuid(uuid)
    ensures var p := SavedAs(uuid, filename);
            && (Validate(cwd, base, p).Some? <==> Absolute(cwd, base) != "/")
            && (Validate(cwd, base, p).Some? ==> Validate(cwd, base, p).value == Absolute(cwd, JoinPaths(base, p)))
  {
    hide Ext, Clean, JoinPaths, Absolute, Join;
    var name := uuid + Ext(filename);
    var dir := name[..2];
    var p := SavedAs(uuid, filename);
    SavedIsClean(uuid, filename);
    SavedElements(uuid, filename);
    NoDoubleDot(uuid, filename);
    assert p[0] == dir[0] && dir[0] in dir;
    var root := BelowBase(cwd, base, dir, name);
    PrefixExactly(root, dir, name);
  }

  /** The rendered root is a proper prefix of what lies below it, except for "/" itself. */
  lemma PrefixExactly(root: seq<string>, dir: string, name: string)
    requires AllOrdinary(root) && Ordinary(dir) && Ordinary(name)
    ensures var r, p := Render(root, true), Render(root + [dir, name], true);
            && p != r
            && (r + "/" <= p <==> root != [])
            && (r == "/" <==> root == [])
  {
    var p := Render(root + [dir, name], true);
    if root == [] {
      assert root + [dir, name] == [dir, name];
      assert p[1] == dir[0] && dir[0] in dir;
    } else {
      JoinAppend(root, [dir, name]);
      RenderedStart(root);
    }
  }

  // ---------------------------------------------------- what is accepted

  /** An absolute path is rendered from ordinary elements. */
  lemma AbsoluteElements(cwd: string, p: string) returns (elements: seq<string>)
    requires IsAbs(cwd)
    ensures AllOrdinary(elements) && Absolute(cwd, p) == Render(elements, true)
  {
    hide Split, Join, Walk;
    var q := if IsAbs(p) then p else if p == "" then cwd else cwd + "/" + p;
    elements := Walk([], Split(q, '/'), true);
    SplitPieces(q, '/');
    WalkShape([], Split(q, '/'), true);
    assert IsAbs(q);
  }

  /** A path rendered from ordinary elements that starts with another one and a slash goes on from its elements. */
  lemma PrefixGoesOn(root: seq<string>, elements: seq<string>)
    requires AllOrdinary(root) && AllOrdinary(elements)
    requires Render(root, true) + "/" <= Render(elements, true)
    ensures root <= elements && |elements| > |root|
  {
    hide Split, Join;
    var r, p := Join(root, '/'), Join(elements, '/');
    assert ("/" + r + "/")[1..] == r + "/" && ("/" + p)[1..] == p;
    assert r + "/" == p[..|r| + 1] by {
      assert ("/" + p)[..|r| + 2] == "/" + r + "/";
      assert ("/" + p)[1..][..|r| + 1] == ("/" + p)[..|r| + 2][1..];
    }
    var rest := p[|r| + 1..];
    assert p == r + "/" + rest;
    SplitAcross(r, rest, '/');
    if elements == [] {
      JoinNothing();
    } else {
      SplitOfJoin(elements, '/');
      if root == [] {
        JoinNothing();
        SplitNothing();
        assert elements[0] == "";
      } else {
        SplitOfJoin(root, '/');
        assert elements == root + Split(rest, '/');
      }
    }
  }

  lemma JoinNothing()
    ensures Join([], '/') == ""
  {
  }

  lemma SplitNothing()
    ensures Split("", '/') == [""]
  {
  }

  /** Different lists of ordinary elements are rendered differently. */
  lemma RenderOnce(a: seq<string>, b: seq<string>)
    requires AllOrdinary(a) && AllOrdinary(b) && Render(a, true) == Render(b, true)
    ensures a == b
  {
    hide Split, Join;
    assert Render(a, true)[1..] == Join(a, '/') && Render(b, true)[1..] == Join(b, '/');
    if a != [] && b != [] {
      SplitOfJoin(a, '/');
      SplitOfJoin(b, '/');
    } else if a != [] {
      JoinNothing();
      RenderedStart(a);
    } else if b != [] {
      JoinNothing();
      RenderedStart(b);
    }
  }

  /**
   Nothing outside the base is accepted: an accepted path consists of the base's
   elements and further ordinary ones, so it is the base or lies below it. And
   the paths refused before the base is looked at are exactly the absolute ones
   and those with two dots in a row after cleaning.
   */
  lemma AcceptedIsBelowBase(cwd: string, base: string, p: string) returns (root: seq<string>, more: seq<string>)
    requires IsAbs(cwd) && Validate(cwd, base, p).Some?
    ensures AllOrdinary(root) && AllOrdinary(more)
    ensures Absolute(cwd, base) == Render(root, true)
    ensures Validate(cwd, base, p) == Some(Render(root + more, true))
    ensures Validate(cwd, base, p) == Some(Absolute(cwd, JoinPaths(base, Clean(p))))
    ensures !IsAbs(Clean(p)) && !Contains(Clean(p), "..")
  {
    hide Clean, JoinPaths, Absolute, Contains, Render;
    root := AbsoluteElements(cwd, base);
    var elements := AbsoluteElements(cwd, JoinPaths(base, Clean(p)));
    if Render(elements, true) == Render(root, true) {
      RenderOnce(elements, root);
      more := [];
      assert root + more == elements;
    } else {
      PrefixGoesOn(root, elements);
      more := elements[|root|..];
      assert root + more == elements;
    }
  }

  /**
   A step up undoes the element before it; from the root it leads nowhere, and
   at the start of a relative path it stays.
   */
  lemma StepsUp(at: seq<string>, x: string, rooted: bool)
    requires Ordinary(x)
    ensures Walk(at, [x, ".."], rooted) == at
    ensures Walk([], [".."], true) == [] && Walk([], [".."], false) == [".."]
    ensures Walk(at, ["."], rooted) == at && Walk(at, [""], rooted) == at
  {
    assert [x, ".."][..1] == [x] && [x][..0] == [] && [".."][..0] == [] && ["."][..0] == [] && [""][..0] == [];
    assert Walk(at, [x], rooted) == at + [x];
    assert (at + [x])[..|at|] == at;
  }
}
