/** The part of the WHATWG `URL` constructor that `new URL(req.url, substituter)`
    exercises: parsing an absolute hierarchical URL, resolving a reference
    against it (section 5.2 of RFC 3986) and reading its `hostname`. */
module Url {
  import opened Wrappers

  /** An absolute URL `scheme://authority path`; `path` keeps any query. */
  datatype Url = Url(scheme: string, authority: string, path: string)

  predicate IsAlpha(c: char) {
    ('a' <= c <= 'z') || ('A' <= c <= 'Z')
  }

  predicate IsSchemeChar(c: char) {
    IsAlpha(c) || ('0' <= c <= '9') || c == '+' || c == '-' || c == '.'
  }

  /** Characters that end an authority. */
  predicate IsDelimiter(c: char) {
    c == '/' || c == '?' || c == '#'
  }

  /** The characters that may continue a scheme, an authority, or a host
      name. */
  datatype Class = SchemeChars | AuthorityChars | HostChars

  predicate Keeps(keep: Class, c: char) {
    match keep
    case SchemeChars => IsSchemeChar(c)
    case AuthorityChars => !IsDelimiter(c)
    case HostChars => c != ':'
  }

  /** The length of the longest prefix of `s` whose characters are all in `keep`. */
  function Span(s: string, keep: Class): (n: nat)
    ensures n <= |s|
  {
    if s != [] && Keeps(keep, s[0]) then 1 + Span(s[1..], keep) else 0
  }

  /** The span is the longest such prefix. */
  lemma {:induction false} SpanShape(s: string, keep: Class)
    ensures forall k :: 0 <= k < Span(s, keep) ==> Keeps(keep, s[k])
    ensures Span(s, keep) < |s| ==> !Keeps(keep, s[Span(s, keep)])
  {
    if s != [] && Keeps(keep, s[0]) {
      SpanShape(s[1..], keep);
      forall k | 1 <= k < Span(s, keep)
        ensures Keeps(keep, s[k])
      {
        assert s[k] == s[1..][k - 1];
      }
    }
  }

  lemma {:induction false} SpanOf(a: string, b: string, keep: Class)
    requires forall k :: 0 <= k < |a| ==> Keeps(keep, a[k])
    requires b == [] || !Keeps(keep, b[0])
    ensures Span(a + b, keep) == |a|
  {
    if a != [] {
      assert (a + b)[1..] == a[1..] + b;
      SpanOf(a[1..], b, keep);
    } else {
      assert a + b == b;
    }
  }

  function SchemeLength(s: string): nat
  {
    Span(s, SchemeChars)
  }

  function AuthorityLength(s: string): nat
  {
    Span(s, AuthorityChars)
  }

  /** True when `s` starts with a scheme and its colon. */
  predicate HasScheme(s: string) {
    var n := SchemeLength(s);
    1 <= n < |s| && IsAlpha(s[0]) && s[n] == ':'
  }

  /** Parses `scheme://authority path`; `None` is the `TypeError` that the
      constructor throws ("Invalid URL"). */
  function ParseAbsolute(s: string): (r: Option<Url>)
    ensures r.Some? ==> r.value.authority != [] && Href(r.value) == s
  {
    if !HasScheme(s) then None
    else
      var n := SchemeLength(s);
      var rest := s[n + 1..];
      if |rest| < 2 || rest[0] != '/' || rest[1] != '/' then None
      else
        var tail := rest[2..];
        var a := AuthorityLength(tail);
        if a == 0 then None
        else
          var u := Url(s[..n], tail[..a], tail[a..]);
          assert s == s[..n] + "://" + tail;
          assert tail == tail[..a] + tail[a..];
          Some(u)
  }

  function Href(u: Url): string
  {
    u.scheme + "://" + u.authority + u.path
  }

  /** The URLs that `ParseAbsolute` produces. */
  predicate WellFormed(u: Url) {
    && u.scheme != [] && IsAlpha(u.scheme[0])
    && (forall k :: 0 <= k < |u.scheme| ==> IsSchemeChar(u.scheme[k]))
    && u.authority != []
    && (forall k :: 0 <= k < |u.authority| ==> !IsDelimiter(u.authority[k]))
    && (u.path == [] || IsDelimiter(u.path[0]))
  }

  /** Parsing reads back every well-formed URL from its text. */
  lemma ParseHref(u: Url)
    requires WellFormed(u)
    ensures ParseAbsolute(Href(u)) == Some(u)
  {
    HrefScheme(u);
    HrefAuthority(u);
    ParseAbsoluteOf(Href(u), |u.scheme|, u.authority + u.path, |u.authority|);
  }

  /** `ParseAbsolute` on a text whose scheme and authority are known. */
  lemma ParseAbsoluteOf(s: string, n: nat, tail: string, a: nat)
    requires HasScheme(s) && SchemeLength(s) == n
    requires s[n + 1..] == "//" + tail
    requires AuthorityLength(tail) == a && 0 < a <= |tail|
    ensures ParseAbsolute(s) == Some(Url(s[..n], tail[..a], tail[a..]))
  {
    assert s[n + 1..][2..] == tail;
  }

  lemma HrefScheme(u: Url)
    requires WellFormed(u)
    ensures HasScheme(Href(u)) && SchemeLength(Href(u)) == |u.scheme|
    ensures Href(u)[..|u.scheme|] == u.scheme
    ensures Href(u)[|u.scheme| + 1..] == "//" + u.authority + u.path
  {
    var rest := "://" + u.authority + u.path;
    assert Href(u) == u.scheme + rest;
    SpanOf(u.scheme, rest, SchemeChars);
  }

  lemma HrefAuthority(u: Url)
    requires WellFormed(u)
    ensures AuthorityLength(u.authority + u.path) == |u.authority|
    ensures (u.authority + u.path)[..|u.authority|] == u.authority
    ensures (u.authority + u.path)[|u.authority|..] == u.path
  {
    SpanOf(u.authority, u.path, AuthorityChars);
  }

  /** RFC 3986 section 5.2.3: a relative path replaces the last segment of
      the base path. */
  function Merge(basePath: string, ref: string): string
  {
    if basePath == [] then "/" + ref
    else
      var keep := LastSlashEnd(basePath);
      basePath[..keep] + ref
  }

  /** One past the last slash of `s`, or 0. */
  function LastSlashEnd(s: string): (n: nat)
    ensures n <= |s|
  {
    if s == [] then 0
    else if s[|s| - 1] == '/' then |s|
    else LastSlashEnd(s[..|s| - 1])
  }

  /** `new URL(ref, base)`. */
  function Resolve(ref: string, base: string): (r: Option<Url>)
    ensures ParseAbsolute(base).None? ==> r.None?
    ensures r.Some? ==> r.value.authority != []
    ensures ParseAbsolute(base).Some? && !HasScheme(ref) && !(|ref| >= 2 && ref[0] == '/' && ref[1] == '/') ==>
      r.Some? && r.value.scheme == ParseAbsolute(base).value.scheme && r.value.authority == ParseAbsolute(base).value.authority
  {
    match ParseAbsolute(base)
    case None => None
    case Some(b) =>
      if HasScheme(ref) then ParseAbsolute(ref)
      else if |ref| >= 2 && ref[0] == '/' && ref[1] == '/' then ParseAbsolute(b.scheme + ":" + ref)
      else if ref != [] && ref[0] == '/' then Some(Url(b.scheme, b.authority, ref))
      else if ref == [] then Some(b)
      else Some(Url(b.scheme, b.authority, Merge(b.path, ref)))
  }

  /** A request path such as "/nix-cache-info": resolution keeps the base's
      scheme and authority and replaces its path (RFC 3986 section 5.2.2). */
  predicate IsAbsolutePath(ref: string) {
    ref != [] && ref[0] == '/' && (|ref| == 1 || ref[1] != '/')
  }

  /** The base's own path never survives an absolute-path reference: two
      bases with the same scheme and authority resolve it alike, and the
      result's path is the reference itself. */
  lemma BasePathDiscarded(ref: string, base1: string, base2: string)
    requires IsAbsolutePath(ref)
    requires ParseAbsolute(base1).Some? && ParseAbsolute(base2).Some?
    requires ParseAbsolute(base1).value.scheme == ParseAbsolute(base2).value.scheme
    requires ParseAbsolute(base1).value.authority == ParseAbsolute(base2).value.authority
    ensures Resolve(ref, base1) == Resolve(ref, base2)
    ensures Resolve(ref, base1).Some? && Resolve(ref, base1).value.path == ref
  {
    assert SchemeLength(ref) == 0;
  }

  /** A base that does not parse makes the constructor throw, whatever the
      reference. */
  lemma InvalidBaseThrows(ref: string, base: string)
    requires ParseAbsolute(base).None?
    ensures Resolve(ref, base).None?
  {
  }

  /** `url.hostname`: the authority without user information and port. */
  function Hostname(authority: string): (r: string)
    ensures ':' !in r && '@' !in r
  {
    var afterUser := AfterLast(authority, '@');
    SpanShape(afterUser, HostChars);
    afterUser[..Span(afterUser, HostChars)]
  }

  /** An authority that is just a host name is its own host name. */
  lemma HostnameOfHost(host: string)
    requires ':' !in host && '@' !in host
    ensures Hostname(host) == host
  {
    AfterLastNone(host, '@');
    SpanOf(host, [], HostChars);
    assert host + [] == host;
  }

  /** `user@host:port` has the host name `host`. */
  lemma HostnameOf(user: string, host: string, port: string)
    requires ':' !in host && '@' !in host && '@' !in port
    ensures Hostname(user + "@" + host + ":" + port) == host
  {
    var tail := host + ":" + port;
    assert user + "@" + host + ":" + port == user + ['@'] + tail;
    AfterLastOf(user, '@', tail);
    assert tail == host + (":" + port);
    SpanOf(host, ":" + port, HostChars);
    assert tail[..|host|] == host;
  }

  lemma {:induction false} AfterLastNone(s: string, c: char)
    requires c !in s
    ensures AfterLast(s, c) == s
  {
    if s != [] {
      AfterLastNone(s[..|s| - 1], c);
      assert s[..|s| - 1] + [s[|s| - 1]] == s;
    }
  }

  lemma {:induction false} AfterLastOf(a: string, c: char, b: string)
    requires c !in b
    ensures AfterLast(a + [c] + b, c) == b
  {
    var s := a + [c] + b;
    if b != [] {
      var front := b[..|b| - 1];
      assert s[..|s| - 1] == a + [c] + front;
      AfterLastOf(a, c, front);
      assert front + [b[|b| - 1]] == b;
    }
  }

  function AfterLast(s: string, c: char): (r: string)
    ensures c !in r
    ensures |r| <= |s| && r == s[|s| - |r|..]
  {
    if s == [] then []
    else if s[|s| - 1] == c then []
    else
      var r := AfterLast(s[..|s| - 1], c);
      assert s[..|s| - 1][|s| - 1 - |r|..] + [s[|s| - 1]] == s[|s| - 1 - |r|..];
      r + [s[|s| - 1]]
  }
}
