/** The part of Go's `net/url.Parse` that decides a URL's path component:
    the '#' fragment and '?' query are cut off, control characters are
    rejected, `getScheme` splits off a scheme (lower-cased), a scheme followed by a
    non-'/' rest is opaque (the path stays empty), a colon in the first segment of a relative
    reference is an error, and `//authority` is split from the path at the
    first '/'. Percent-decoding of the path and the fragment, and validation
    of the authority (userinfo, port, host characters), are not modelled. */
module Url {
  import opened Wrappers
  import opened Strings

  datatype ParseError =
    | MissingProtocolScheme
    | InvalidControlCharacter
    | ColonInFirstSegment

  /** The components the adapters can observe. */
  datatype URL = URL(scheme: string, schemeSpecific: string, host: string, path: string)

  datatype SchemeSplit = SchemeSplit(scheme: string, rest: string)

  predicate IsAsciiLetter(c: char)
  {
    'a' <= c <= 'z' || 'A' <= c <= 'Z'
  }

  predicate IsSchemeChar(c: char)
  {
    IsAsciiLetter(c) || '0' <= c <= '9' || c == '+' || c == '-' || c == '.'
  }

  predicate IsCtl(c: char)
  {
    (c as int) < 0x20 || (c as int) == 0x7f
  }

  predicate ContainsCtl(s: string)
  {
    exists k :: 0 <= k < |s| && IsCtl(s[k])
  }

  /** strings.ToLower on the ASCII letters a scheme is made of. */
  function LowerAscii(c: char): (d: char)
    ensures 'A' <= c <= 'Z' ==> 'a' <= d <= 'z' && d as int - c as int == 'a' as int - 'A' as int
    ensures !('A' <= c <= 'Z') ==> d == c
  {
    if 'A' <= c <= 'Z' then (c as int - 'A' as int + 'a' as int) as char else c
  }

  function ToLower(s: string): (r: string)
    ensures |r| == |s|
    ensures forall k :: 0 <= k < |s| ==> r[k] == LowerAscii(s[k])
    ensures forall k :: 0 <= k < |r| ==> !('A' <= r[k] <= 'Z')
  {
    seq(|s|, k requires 0 <= k < |s| => LowerAscii(s[k]))
  }

  /** getScheme, continuing the scan at index `i` once `s[..i]` has been
      accepted as the start of a scheme. */
  function ScanScheme(s: string, i: nat): (r: Result<SchemeSplit, ParseError>)
    requires i <= |s|
    requires forall k :: 0 <= k < i ==> IsSchemeChar(s[k])
    requires i > 0 ==> IsAsciiLetter(s[0])
    ensures r.Err? <==> i == 0 && |s| > 0 && s[0] == ':'
    ensures r.Ok? && r.value.scheme == [] ==> r.value.rest == s
    ensures r.Ok? && r.value.scheme != [] ==>
              s == r.value.scheme + ":" + r.value.rest && IsAsciiLetter(s[0]) &&
              forall k :: 0 <= k < |r.value.scheme| ==> IsSchemeChar(r.value.scheme[k])
    decreases |s| - i
  {
    if i == |s| then Ok(SchemeSplit([], s))
    else if IsAsciiLetter(s[i]) then ScanScheme(s, i + 1)
    else if IsSchemeChar(s[i]) then
      if i == 0 then Ok(SchemeSplit([], s)) else ScanScheme(s, i + 1)
    else if s[i] == ':' then
      if i == 0 then Err(MissingProtocolScheme)
      else
        assert s == s[..i] + ":" + s[i + 1..];
        Ok(SchemeSplit(s[..i], s[i + 1..]))
    else Ok(SchemeSplit([], s))
  }

  /** getScheme: a leading run of scheme characters that starts with a letter
      and ends at ':' is the scheme; a leading ':' is an error; anything else
      leaves the whole input as the rest. */
  function GetScheme(s: string): Result<SchemeSplit, ParseError>
  {
    ScanScheme(s, 0)
  }

  /** The authority runs up to the first '/' after `//`; the path is the rest. */
  function SplitAuthority(a: string): (r: (string, string))
    ensures '/' !in r.0
    ensures a == r.0 + r.1
    ensures r.1 == [] || r.1[0] == '/'
  {
    var (host, after, found) := Cut(a, '/');
    if found then (host, "/" + after) else (a, [])
  }

  /** url.Parse: the fragment after the first '#' is cut off before the rest
      is parsed. A control character before the fragment is rejected, a
      missing-scheme error means the text starts with ':', and the scheme
      comes back in lower case. */
  function Parse(raw: string): (r: Result<URL, ParseError>)
    ensures r == Err(InvalidControlCharacter) <==> ContainsCtl(Cut(raw, '#').0)
    ensures r == Err(MissingProtocolScheme) ==> raw != [] && raw[0] == ':'
    ensures r.Ok? ==> forall k :: 0 <= k < |r.value.scheme| ==> !('A' <= r.value.scheme[k] <= 'Z')
  {
    var u := Cut(raw, '#').0;
    assert u != [] ==> u[0] == raw[0];
    ParseReference(u)
  }

  /** The unexported `parse` of net/url, for a reference that is not a request
      line; the scheme is lower-cased as soon as it is split off. */
  function ParseReference(u: string): (r: Result<URL, ParseError>)
    ensures r == Err(InvalidControlCharacter) <==> ContainsCtl(u)
    ensures r == Err(MissingProtocolScheme) ==> u != [] && u[0] == ':'
    ensures r.Ok? ==> forall k :: 0 <= k < |r.value.scheme| ==> !('A' <= r.value.scheme[k] <= 'Z')
  {
    if ContainsCtl(u) then Err(InvalidControlCharacter)
    else if u == "*" then Ok(URL([], [], [], "*"))
    else
      match GetScheme(u)
      case Err(e) => Err(e)
      case Ok(SchemeSplit(scheme, afterScheme)) => ParseAfterScheme(ToLower(scheme), afterScheme)
  }

  /** `s` starts with at least `n` slashes. */
  predicate LeadingSlashes(s: string, n: nat)
  {
    n <= |s| && forall k :: 0 <= k < n ==> s[k] == '/'
  }

  /** What `parse` does once the scheme is split off: drop the query, then
      tell opaque, relative and authority forms apart. */
  function ParseAfterScheme(scheme: string, afterScheme: string): (r: Result<URL, ParseError>)
    ensures r.Ok? ==> r.value.scheme == scheme
    ensures r.Err? ==> r.error == ColonInFirstSegment
  {
    var rest := Cut(afterScheme, '?').0;
    if !LeadingSlashes(rest, 1) && scheme != [] then Ok(URL(scheme, rest, [], []))
    else if !LeadingSlashes(rest, 1) && ':' in Cut(rest, '/').0 then Err(ColonInFirstSegment)
    else if (scheme != [] || !LeadingSlashes(rest, 3)) && LeadingSlashes(rest, 2) then
      var (host, path) := SplitAuthority(rest[2..]);
      Ok(URL(scheme, [], host, path))
    else Ok(URL(scheme, [], [], rest))
  }

  /** A URL's path is always a piece of its text: parsing only cuts, it never
      adds characters. It never carries the query or the fragment. */
  lemma ParsePathIsInfix(raw: string)
    requires Parse(raw).Ok?
    ensures IsInfix(Parse(raw).value.path, raw)
    ensures '#' !in Parse(raw).value.path && '?' !in Parse(raw).value.path
  {
    var u := Cut(raw, '#').0;
    assert u == raw[..|u|];
    PrefixIsInfix(raw, |u|);
    ReferencePathIsInfix(u);
    InfixTrans(Parse(raw).value.path, u, raw);
  }

  lemma ReferencePathIsInfix(u: string)
    requires ParseReference(u).Ok? && '#' !in u
    ensures IsInfix(ParseReference(u).value.path, u)
    ensures '#' !in ParseReference(u).value.path && '?' !in ParseReference(u).value.path
  {
    if u == "*" {
      assert u[0..1] == "*";
    } else {
      var sp := GetScheme(u).value;
      SchemeRestIsInfix(u);
      AfterSchemePathIsInfix(ToLower(sp.scheme), sp.rest);
      InfixTrans(ParseReference(u).value.path, sp.rest, u);
    }
  }

  lemma AfterSchemePathIsInfix(scheme: string, afterScheme: string)
    requires ParseAfterScheme(scheme, afterScheme).Ok? && '#' !in afterScheme
    ensures var path := ParseAfterScheme(scheme, afterScheme).value.path;
      IsInfix(path, afterScheme) && '#' !in path && '?' !in path
  {
    var rest := Cut(afterScheme, '?').0;
    var path := ParseAfterScheme(scheme, afterScheme).value.path;
    QueryCutIsInfix(afterScheme);
    if !LeadingSlashes(rest, 1) && scheme != [] {
      InfixAt(path, afterScheme, 0, 0);
    } else if (scheme != [] || !LeadingSlashes(rest, 3)) && LeadingSlashes(rest, 2) {
      AuthorityPathIsInfix(rest);
      InfixTrans(path, rest, afterScheme);
    }
  }

  lemma AuthorityPathIsInfix(rest: string)
    requires LeadingSlashes(rest, 2) && '?' !in rest && '#' !in rest
    ensures var path := SplitAuthority(rest[2..]).1;
      IsInfix(path, rest) && '#' !in path && '?' !in path
  {
    var (host, path) := SplitAuthority(rest[2..]);
    assert path == rest[2 + |host|..];
    SuffixIsInfix(rest, 2 + |host|);
    assert forall k :: 0 <= k < |path| ==> path[k] == rest[2 + |host| + k];
  }

  lemma QueryCutIsInfix(afterScheme: string)
    requires '#' !in afterScheme
    ensures var rest := Cut(afterScheme, '?').0;
      IsInfix(rest, afterScheme) && '#' !in rest && '?' !in rest
  {
    var rest := Cut(afterScheme, '?').0;
    assert rest == afterScheme[..|rest|];
    InfixAt(rest, afterScheme, 0, |rest|);
  }

  lemma InfixAt(t: string, s: string, i: nat, j: nat)
    requires i <= j <= |s| && t == s[i..j]
    ensures IsInfix(t, s)
  {
  }

  lemma SchemeRestIsInfix(u: string)
    requires GetScheme(u).Ok?
    ensures IsInfix(GetScheme(u).value.rest, u)
  {
    var sp := GetScheme(u).value;
    if sp.scheme != [] {
      assert sp.rest == u[|sp.scheme| + 1..];
      SuffixIsInfix(u, |sp.scheme| + 1);
    } else {
      assert u == u[0..|u|];
    }
  }

  lemma PrefixIsInfix(s: string, j: nat)
    requires j <= |s|
    ensures IsInfix(s[..j], s)
  {
    assert s[..j] == s[0..j];
  }

  lemma SuffixIsInfix(s: string, i: nat)
    requires i <= |s|
    ensures IsInfix(s[i..], s)
  {
    assert s[i..] == s[i..|s|];
  }

  lemma InfixTrans(a: string, b: string, c: string)
    requires IsInfix(a, b) && IsInfix(b, c)
    ensures IsInfix(a, c)
  {
    var i, j :| 0 <= i <= j <= |b| && a == b[i..j];
    var i', j' :| 0 <= i' <= j' <= |c| && b == c[i'..j'];
    SliceOfSlice(c, i', j', i, j);
    InfixAt(a, c, i' + i, i' + j);
  }

  lemma SliceOfSlice(c: string, i': nat, j': nat, i: nat, j: nat)
    requires i' <= j' <= |c| && i <= j <= j' - i'
    ensures c[i'..j'][i..j] == c[i' + i..i' + j]
  {
    assert forall k :: 0 <= k < j - i ==> c[i'..j'][i..j][k] == c[i' + i + k];
  }

  predicate IsLetters(w: string)
  {
    forall k :: 0 <= k < |w| ==> IsAsciiLetter(w[k])
  }

  /** Host characters `url.Parse` keeps as they are: no userinfo '@', no port
      ':', no escape '%', nothing it rejects. */
  predicate IsHostChar(c: char)
  {
    IsAsciiLetter(c) || '0' <= c <= '9' || c == '_' || c == '.' || c == '-'
  }

  predicate IsHostText(h: string)
  {
    h != [] && forall k :: 0 <= k < |h| ==> IsHostChar(h[k])
  }

  /** A URL written as `scheme://host/path` or `//host/path`, with a plain host
      and no query, fragment or control character in the path, parses to the
      lower-cased scheme and exactly that host and path. A path with a '%' is
      left out: `url.Parse` decodes its escapes, which this model does not. */
  lemma ParseUrlShape(scheme: string, host: string, path: string)
    requires IsLetters(scheme)
    requires IsHostText(host)
    requires path != [] && path[0] == '/' && '?' !in path && '#' !in path && '%' !in path
    requires !ContainsCtl(path)
    ensures Parse((if scheme == [] then [] else scheme + ":") + "//" + host + path)
         == Ok(URL(ToLower(scheme), [], host, path))
  {
    HostTextIsPlain(host);
    var afterScheme := "//" + host + path;
    var raw := (if scheme == [] then [] else scheme + ":") + afterScheme;
    assert raw == (if scheme == [] then [] else scheme + ":") + "//" + host + path;
    assert '#' !in raw;
    CutAbsent(raw, '#');
    NoCtlInUrlShape(scheme, host, path);
    assert raw != "*";
    if scheme == [] {
      assert raw == afterScheme;
      assert GetScheme(raw) == Ok(SchemeSplit([], raw));
    } else {
      assert raw == scheme + ":" + afterScheme;
      LetterSchemeSplits(scheme, afterScheme, 0);
    }
    assert GetScheme(raw) == Ok(SchemeSplit(scheme, afterScheme));
    assert ParseReference(raw) == ParseAfterScheme(ToLower(scheme), afterScheme);
    AuthorityForm(ToLower(scheme), host, path);
    assert Parse(raw) == ParseReference(raw);
  }

  lemma HostTextIsPlain(host: string)
    requires IsHostText(host)
    ensures host[0] != '/' && '/' !in host && '?' !in host && '#' !in host && !ContainsCtl(host)
  {
    assert IsHostChar(host[0]);
    assert !ContainsCtl(host) by {
      forall k | 0 <= k < |host|
        ensures !IsCtl(host[k])
      {
        assert IsHostChar(host[k]);
      }
    }
  }

  lemma NoCtlInUrlShape(scheme: string, host: string, path: string)
    requires IsLetters(scheme) && !ContainsCtl(host) && !ContainsCtl(path)
    ensures !ContainsCtl((if scheme == [] then [] else scheme + ":") + "//" + host + path)
  {
    var raw := (if scheme == [] then [] else scheme + ":") + "//" + host + path;
    var n := |raw| - |path| - |host|;
    forall k | 0 <= k < |raw|
      ensures !IsCtl(raw[k])
    {
      if k >= n + |host| {
        assert raw[k] == path[k - n - |host|];
      } else if k >= n {
        assert raw[k] == host[k - n];
      } else if scheme != [] && k < |scheme| {
        assert raw[k] == scheme[k];
      }
    }
  }

  lemma AuthorityForm(scheme: string, host: string, path: string)
    requires host != [] && host[0] != '/' && '/' !in host && '?' !in host
    requires path != [] && path[0] == '/' && '?' !in path
    ensures ParseAfterScheme(scheme, "//" + host + path) == Ok(URL(scheme, [], host, path))
  {
    var rest := "//" + host + path;
    NoQueryInAuthority(host, path);
    CutAbsent(rest, '?');
    DoubleSlashHost(host, path);
    AuthorityBranch(scheme, rest);
    SplitHostPath(host, path);
  }

  lemma AuthorityBranch(scheme: string, rest: string)
    requires Cut(rest, '?').0 == rest && LeadingSlashes(rest, 2) && !LeadingSlashes(rest, 3)
    ensures ParseAfterScheme(scheme, rest)
         == Ok(URL(scheme, [], SplitAuthority(rest[2..]).0, SplitAuthority(rest[2..]).1))
  {
  }

  lemma NoQueryInAuthority(host: string, path: string)
    requires '?' !in host && '?' !in path
    ensures '?' !in "//" + host + path
  {
  }

  lemma DoubleSlashHost(host: string, path: string)
    requires host != [] && host[0] != '/'
    ensures var rest := "//" + host + path;
      LeadingSlashes(rest, 2) && !LeadingSlashes(rest, 3) && rest[2..] == host + path
  {
    var rest := "//" + host + path;
    assert rest[2] == host[0];
  }

  lemma SplitHostPath(host: string, path: string)
    requires '/' !in host && path != [] && path[0] == '/'
    ensures SplitAuthority(host + path) == (host, path)
  {
    assert host + path == host + ['/'] + path[1..];
    CutAt(host, path[1..], '/');
    assert "/" + path[1..] == path;
  }

  lemma CutAbsent(s: string, c: char)
    requires c !in s
    ensures Cut(s, c) == (s, [], false)
  {
  }

  lemma {:induction false} LetterSchemeSplits(scheme: string, rest: string, i: nat)
    requires scheme != [] && IsLetters(scheme) && i <= |scheme|
    ensures ScanScheme(scheme + ":" + rest, i) == Ok(SchemeSplit(scheme, rest))
    decreases |scheme| - i
  {
    var s := scheme + ":" + rest;
    if i < |scheme| {
      assert s[i] == scheme[i];
      LetterSchemeSplits(scheme, rest, i + 1);
    } else {
      assert s[i] == ':' && s[..i] == scheme && s[i + 1..] == rest;
    }
  }

  lemma {:induction false} CutAt(a: string, b: string, c: char)
    requires c !in a
    ensures Cut(a + [c] + b, c) == (a, b, true)
    decreases |a|
  {
    if a != [] {
      CutAt(a[1..], b, c);
      assert (a + [c] + b)[0] == a[0] != c;
      assert (a + [c] + b)[1..] == a[1..] + [c] + b;
      assert [a[0]] + a[1..] == a;
    } else {
      assert a + [c] + b == [c] + b;
    }
  }
}
