/** The parts of Node's POSIX `path` module that the proxy calls: `join`,
    `dirname`, `basename` and the `ext` field of `parse`. `join` is modelled
    without normalisation (see the README). */
module NodePath {
  import opened Wrappers

  /** `path.join(root, p)` for a root without a trailing slash, leaving out
      the normalisation of `.`, `..` and repeated slashes. */
  function Join(root: string, p: string): string
  {
    if p == [] then root
    else if p[0] == '/' then root + p
    else root + "/" + p
  }

  /** The segment at the start of `s`: everything before its first slash. */
  function FirstSegment(s: string): (r: string)
    ensures |r| <= |s| && r == s[..|r|] && '/' !in r
    ensures |r| < |s| ==> s[|r|] == '/'
  {
    if s == [] || s[0] == '/' then [] else [s[0]] + FirstSegment(s[1..])
  }

  /** A request path that `path.join` leaves as it is: it starts with a
      slash and no segment is empty, "." or "..". For such a path
      `path.join(root, p)` is `root + p`, which is what `Join` gives; other
      paths ("/a//b", "/a/./b", "/c/../a/b") are normalised by Node and not
      by `Join`. */
  predicate Normalised(p: string) {
    && p != [] && p[0] == '/'
    && forall i :: 0 <= i < |p| && p[i] == '/' ==> FirstSegment(p[i + 1..]) !in {"", ".", ".."}
  }

  /** Different normalised request paths land on different files. */
  lemma JoinInjective(root: string, p: string, q: string)
    requires Normalised(p) && Normalised(q)
    requires Join(root, p) == Join(root, q)
    ensures p == q
  {
    assert p == Join(root, p)[|root|..];
    assert q == Join(root, q)[|root|..];
  }

  /** The index of the last slash. */
  function LastSlash(s: string): (r: Option<nat>)
    ensures r.Some? ==> r.value < |s| && s[r.value] == '/' && '/' !in s[r.value + 1..]
    ensures r.None? ==> '/' !in s
  {
    if s == [] then None
    else if s[|s| - 1] == '/' then Some(|s| - 1)
    else
      var r := LastSlash(s[..|s| - 1]);
      assert s == s[..|s| - 1] + [s[|s| - 1]];
      if r.Some? then
        assert s[r.value + 1..] == s[..|s| - 1][r.value + 1..] + [s[|s| - 1]];
        r
      else r
  }

  /** Drops every trailing slash. */
  function DropTrailingSlashes(s: string): (r: string)
    ensures |r| <= |s| && r == s[..|r|]
    ensures r == [] || r[|r| - 1] != '/'
    ensures forall k :: |r| <= k < |s| ==> s[k] == '/'
  {
    if s != [] && s[|s| - 1] == '/' then DropTrailingSlashes(s[..|s| - 1]) else s
  }

  /** `path.basename(p)`: the last run of characters that are not slashes. */
  function Basename(p: string): (r: string)
    ensures '/' !in r
  {
    var q := DropTrailingSlashes(p);
    match LastSlash(q)
    case None => q
    case Some(i) => q[i + 1..]
  }

  /** `path.dirname(p)`: everything before the last separator that has a
      name after it; "/" or "." when there is none, "//" for a path
      that starts with two slashes and has nothing else before its last name. */
  function Dirname(p: string): (r: string)
    ensures r == "." || r == "/" || r == "//" || (|r| < |p| && r == p[..|r|] && p[|r|] == '/')
    ensures r == p || r == "." || |r| < |p|
  {
    if p == [] then "."
    else
      var q := DropTrailingSlashes(p);
      var hasRoot := p[0] == '/';
      match LastSlash(q)
      case None => if hasRoot then "/" else "."
      case Some(i) =>
        if i == 0 then (if hasRoot then "/" else ".")
        else if hasRoot && i == 1 then "//"
        else q[..i]
  }

  /** The extension of a file name, as `path.parse` computes it: from the
      last dot on, unless the name has no dot, starts with its only dot
      before the name proper, or is "..". */
  function ExtOf(name: string): (r: string)
    ensures r == [] || (r[0] == '.' && '.' !in r[1..])
    ensures |r| <= |name| && r == name[|name| - |r|..]
  {
    match LastDot(name)
    case None => []
    case Some(d) => if d == 0 || name == ".." then [] else name[d..]
  }

  function LastDot(s: string): (r: Option<nat>)
    ensures r.Some? ==> r.value < |s| && s[r.value] == '.' && '.' !in s[r.value + 1..]
    ensures r.None? ==> '.' !in s
  {
    if s == [] then None
    else if s[|s| - 1] == '.' then Some(|s| - 1)
    else
      var r := LastDot(s[..|s| - 1]);
      assert s == s[..|s| - 1] + [s[|s| - 1]];
      if r.Some? then
        assert s[r.value + 1..] == s[..|s| - 1][r.value + 1..] + [s[|s| - 1]];
        r
      else r
  }

  /** A name of a stem, a dot and a dot-free suffix has that suffix, with
      its dot, as its extension. */
  lemma ExtOfDotted(stem: string, e: string)
    requires stem != [] && '.' !in e && stem + "." + e != ".."
    ensures ExtOf(stem + "." + e) == "." + e
  {
    var a := stem + ".";
    var name := a + e;
    assert a[|a| - 1] == '.';
    LastDotBefore(a, e);
    assert name[|stem|..] == "." + e by {
      assert name[|stem|..] == name[|a| - 1..];
      assert forall k :: 0 <= k < |e| ==> name[|a| + k] == e[k];
    }
  }

  /** A file "<stem>.<e>" appended to a directory has that name as its base
      name and "." + e as its extension. */
  lemma JoinDotted(root: string, stem: string, e: string)
    requires |root| >= 2 && root[0] == '/' && root[1] != '/' && root[|root| - 1] != '/'
    requires stem != [] && '/' !in stem && '/' !in e && '.' !in e && stem + "." + e != ".."
    ensures var name := stem + "." + e;
      Basename(Join(root, "/" + name)) == name && Ext(Join(root, "/" + name)) == "." + e
  {
    var name := stem + "." + e;
    assert '/' !in name by {
      assert forall c :: c in name ==> c in stem || c == '.' || c in e;
    }
    JoinName(root, name);
    ExtOfDotted(stem, e);
  }

  /** The last dot of `a + e` is the last character of `a` when `e` has no dot. */
  lemma {:induction false} LastDotBefore(a: string, e: string)
    requires a != [] && a[|a| - 1] == '.' && '.' !in e
    ensures LastDot(a + e) == Some(|a| - 1)
    decreases |e|
  {
    if e == [] {
      assert a + e == a;
    } else {
      var s := a + e;
      var f := e[..|e| - 1];
      assert s[..|s| - 1] == a + f;
      assert s[|s| - 1] == e[|e| - 1];
      LastDotBefore(a, f);
    }
  }

  /** `path.parse(p).ext`. */
  function Ext(p: string): (r: string)
    ensures r == [] || (r[0] == '.' && '.' !in r[1..])
    ensures '/' !in r
  {
    var name := Basename(p);
    var r := ExtOf(name);
    assert forall k :: 0 <= k < |r| ==> r[k] == name[|name| - |r| + k];
    r
  }

  /** An extension holds exactly one dot, so a key such as ".nar.xz" in a
      suffix table can never be looked up. */
  lemma ExtHasOneDot(p: string, key: string)
    requires |key| >= 2 && '.' in key[1..]
    ensures Ext(p) != key
  {
  }

  /** A name appended to a directory comes back out as its base name, with
      the directory as its parent. */
  lemma {:induction false} JoinName(root: string, name: string)
    requires |root| >= 2 && root[0] == '/' && root[1] != '/' && root[|root| - 1] != '/'
    requires name != [] && '/' !in name
    ensures Basename(Join(root, "/" + name)) == name
    ensures Dirname(Join(root, "/" + name)) == root
  {
    var p := Join(root, "/" + name);
    assert p == root + "/" + name;
    assert DropTrailingSlashes(p) == p;
    assert p[|root|] == '/';
    assert p[|root| + 1..] == name;
    assert LastSlash(p) == Some(|root|);
  }
}
