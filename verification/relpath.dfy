/** `ToRelativePath`, the key normalisation both adapters apply to every path
    argument. The MinIO and Aliyun adapters carry character-for-character the
    same regular expression and the same body, so the model defines it once
    and both adapter modules call this definition. */
module RelativePath {
  import opened Wrappers
  import opened Strings
  import opened UrlPattern
  import opened Url

  /** Input the URL pattern recognises is parsed and its path taken; in every
      case one leading '/' is removed. A parse failure falls back to the raw
      input, so the function is total and reports no error. */
  function ToRelativePath(urlPath: string): (r: string)
    ensures IsInfix(r, urlPath)
  {
    if MatchString(urlPath) then
      match Parse(urlPath)
      case Ok(u) =>
        ParsePathIsInfix(urlPath);
        TrimmedIsInfix(u.path);
        InfixTrans(TrimPrefix(u.path, "/"), u.path, urlPath);
        TrimPrefix(u.path, "/")
      case Err(_) =>
        TrimmedIsInfix(urlPath);
        TrimPrefix(urlPath, "/")
    else
      TrimmedIsInfix(urlPath);
      TrimPrefix(urlPath, "/")
  }

  lemma TrimmedIsInfix(s: string)
    ensures IsInfix(TrimPrefix(s, "/"), s)
  {
    if HasPrefix(s, "/") {
      InfixAt(s[1..], s, 1, |s|);
    } else {
      InfixAt(s, s, 0, |s|);
    }
  }

  /** Without a URL match the result is the input with at most one leading '/'
      removed, whatever follows it. */
  lemma NonUrlStripsOneSlash(s: string)
    requires !MatchString(s)
    ensures |s| > 0 && s[0] == '/' ==> ToRelativePath(s) == s[1..]
    ensures (|s| == 0 || s[0] != '/') ==> ToRelativePath(s) == s
  {
  }

  /** A path with no "//" cannot look like a URL, so only one leading '/' goes. */
  lemma PlainPathStripsOneSlash(s: string)
    requires !HasDoubleSlash(s)
    ensures |s| > 0 && s[0] == '/' ==> ToRelativePath(s) == s[1..]
    ensures (|s| == 0 || s[0] != '/') ==> ToRelativePath(s) == s
  {
    MatchNeedsDoubleSlash(s);
  }

  /** On paths with no "//" the normalisation is idempotent. */
  lemma PlainPathIdempotent(s: string)
    requires !HasDoubleSlash(s)
    ensures !HasDoubleSlash(ToRelativePath(s))
    ensures ToRelativePath(ToRelativePath(s)) == ToRelativePath(s)
    ensures ToRelativePath(s) == [] || ToRelativePath(s)[0] != '/'
  {
    PlainPathStripsOneSlash(s);
    if |s| > 0 && s[0] == '/' {
      NoDoubleSlashSuffix(s);
      assert |s| >= 2 ==> s[..2] != "//";
    }
    PlainPathStripsOneSlash(ToRelativePath(s));
  }

  lemma {:induction false} NoDoubleSlashSuffix(s: string)
    requires |s| > 0 && !HasDoubleSlash(s)
    ensures !HasDoubleSlash(s[1..])
  {
  }

  /** Idempotence fails in general: "//a" is no URL, loses one '/', and the
      result "/a" then loses another. */
  lemma NotIdempotentOnDoubleSlash()
    ensures ToRelativePath("//a") == "/a"
    ensures ToRelativePath("/a") == "a"
  {
    assert !MatchString("//a") by {
      assert !GroupStart("a") by {
        assert "a"[1..] == [];
      }
      assert "//a"[2..] == "a";
      assert !MatchString("/a");
    }
    PlainPathStripsOneSlash("/a");
  }

  /** A URL `scheme://host/path` or `//host/path` whose host is at least two
      dotted word labels, with no query, fragment, percent escape or control
      character, normalises to its path without the leading '/'. */
  lemma UrlNormalisesToPath(scheme: string, labels: seq<string>, path: string)
    requires IsLetters(scheme)
    requires |labels| >= 2 && AllWords(labels)
    requires path != [] && path[0] == '/' && '?' !in path && '#' !in path && '%' !in path && !ContainsCtl(path)
    ensures ToRelativePath((if scheme == [] then [] else scheme + ":") + "//" + JoinDots(labels) + path)
         == path[1..]
  {
    var pre := if scheme == [] then [] else scheme + ":";
    var host := JoinDots(labels);
    var s := pre + "//" + host + path;
    assert MatchString(s) by {
      UrlShapeMatches(pre, labels, path[1..]);
      SlashSplit(pre + "//" + host, path);
    }
    assert Parse(s) == Ok(URL(ToLower(scheme), [], host, path)) by {
      HostCharacters(labels);
      assert IsHostText(host) by {
        forall k | 0 <= k < |host|
          ensures IsHostChar(host[k])
        {
          assert IsWordChar(host[k]) || host[k] == '.';
        }
      }
      ParseUrlShape(scheme, host, path);
    }
    ParsedUrlCase(s);
    assert HasPrefix(path, "/");
  }

  lemma SlashSplit(a: string, path: string)
    requires path != [] && path[0] == '/'
    ensures a + "/" + path[1..] == a + path
  {
    assert "/" + path[1..] == path;
  }

  lemma ParsedUrlCase(s: string)
    requires MatchString(s) && Parse(s).Ok?
    ensures ToRelativePath(s) == TrimPrefix(Parse(s).value.path, "/")
  {
  }

  /** Text the pattern recognises but `url.Parse` rejects falls back to the
      raw input with one leading '/' removed; the parse error is dropped. */
  lemma ParseFailureFallsBack(s: string)
    requires MatchString(s) && Parse(s).Err?
    ensures ToRelativePath(s) == TrimPrefix(s, "/")
  {
  }

  /** A matched text behind a leading ':' is such a text: the ':' is a
      missing scheme, so the input comes back unchanged. */
  lemma LeadingColonFallsBack(rest: string)
    requires MatchString(rest) && !ContainsCtl(rest)
    ensures MatchString(":" + rest) && Parse(":" + rest) == Err(MissingProtocolScheme)
    ensures ToRelativePath(":" + rest) == ":" + rest
  {
    MatchExtendsLeft(":", rest);
    ColonMissesScheme(rest);
    ParseFailureFallsBack(":" + rest);
    assert !HasPrefix(":" + rest, "/");
  }

  lemma ColonMissesScheme(rest: string)
    requires !ContainsCtl(rest)
    ensures Parse(":" + rest) == Err(MissingProtocolScheme)
  {
    var s := ":" + rest;
    var u := Cut(s, '#').0;
    assert u != [] && u[0] == ':' by {
      assert s[0] == ':' && s[0] != '#';
    }
    assert !ContainsCtl(u) by {
      if Cut(s, '#').2 {
        assert s == u + "#" + Cut(s, '#').1;
        assert forall k :: 0 <= k < |u| ==> u[k] == s[k];
      }
      assert forall k :: 0 < k < |s| ==> s[k] == rest[k - 1];
    }
    assert GetScheme(u) == Err(MissingProtocolScheme);
  }

  /** ":x//a.b/", for one. */
  lemma ParseFailureExample(s: string)
    requires s == ":x//a.b/"
    ensures MatchString(s) && Parse(s) == Err(MissingProtocolScheme)
    ensures ToRelativePath(s) == s
  {
    var rest := s[1..];
    assert MatchString(rest) by {
      ShortUrlMatches("x", "//a.b/");
      assert rest == "x" + "//a.b/";
    }
    assert !ContainsCtl(rest) by {
      forall k | 0 <= k < |rest|
        ensures !IsCtl(rest[k])
      {
        assert rest[k] in "x/a.b";
      }
    }
    LeadingColonFallsBack(rest);
    assert s == ":" + rest;
  }

  /** The pattern is searched for in the whole text, the fragment included,
      while `url.Parse` cuts the fragment off first: "*#" followed by any
      text the pattern matches, such as "//a.b/", parses to the path "*" and
      normalises to "*". The fragment is free of '%': `url.Parse` also
      unescapes it, and rejects a malformed escape there. */
  lemma StarBeforeFragment(star: string, fragment: string)
    requires star == "*" && MatchString(fragment) && '%' !in fragment
    ensures MatchString(star + "#" + fragment) && Parse(star + "#" + fragment) == Ok(URL([], [], [], star))
    ensures ToRelativePath(star + "#" + fragment) == star
  {
    var s := star + "#" + fragment;
    assert MatchString(s) by {
      MatchExtendsLeft(star + "#", fragment);
    }
    assert Cut(s, '#').0 == star by {
      assert s == star + ['#'] + fragment;
      CutAt(star, fragment, '#');
    }
    assert !ContainsCtl(star);
    assert !HasPrefix(star, "/");
  }

  /** "*#//a.b/" is such a text. */
  lemma StarExample(star: string, fragment: string)
    requires star == "*" && fragment == "//a.b/"
    ensures ToRelativePath(star + "#" + fragment) == star
  {
    ShortUrlMatches([], fragment);
    assert [] + fragment == fragment;
    StarBeforeFragment(star, fragment);
  }

  /** "//a.b/", the shortest kind of text the pattern matches, after any prefix. */
  lemma ShortUrlMatches(pre: string, u: string)
    requires u == "//a.b/"
    ensures MatchString(pre + u)
  {
    assert GroupStart("a.b/") by {
      assert AfterGroup("b/") by {
        assert InTail("/");
        assert "b/"[1..] == "/";
      }
      assert ".b/"[1..] == "b/";
      assert InGroup(".b/");
      assert "a.b/"[1..] == ".b/";
    }
    assert u[..2] == "//" && u[2..] == "a.b/";
    MatchExtendsLeft(pre, u);
  }

  /** A bare key and its URL spelling `scheme://host/key` normalise alike. */
  lemma UrlAndKeyAgree(scheme: string, labels: seq<string>, key: string)
    requires !HasDoubleSlash(key) && key != [] && key[0] != '/'
    requires '?' !in key && '#' !in key && '%' !in key && !ContainsCtl(key)
    requires IsLetters(scheme) && |labels| >= 2 && AllWords(labels)
    ensures ToRelativePath((if scheme == [] then [] else scheme + ":") + "//" + JoinDots(labels) + "/" + key) == key
    ensures ToRelativePath(key) == key
  {
    var path := "/" + key;
    assert !ContainsCtl(path) by {
      forall k | 0 <= k < |path|
        ensures !IsCtl(path[k])
      {
        if k > 0 {
          assert path[k] == key[k - 1];
        }
      }
    }
    UrlNormalisesToPath(scheme, labels, path);
    assert path[1..] == key;
    PlainPathStripsOneSlash(key);
    var pre := if scheme == [] then [] else scheme + ":";
    assert pre + "//" + JoinDots(labels) + "/" + key == pre + "//" + JoinDots(labels) + path;
  }

  /** A dotted host starts with a word character and holds only word characters and '.'. */
  lemma {:induction false} HostCharacters(labels: seq<string>)
    requires |labels| >= 1 && AllWords(labels)
    ensures var h := JoinDots(labels);
      h != [] && IsWordChar(h[0]) &&
      forall k :: 0 <= k < |h| ==> IsWordChar(h[k]) || h[k] == '.'
    ensures var h := JoinDots(labels);
      '/' !in h && '?' !in h && '#' !in h && !ContainsCtl(h)
    decreases |labels|
  {
    var h := JoinDots(labels);
    if |labels| > 1 {
      AllWordsTail(labels);
      HostCharacters(labels[1..]);
      var t := JoinDots(labels[1..]);
      assert h == labels[0] + "." + t;
      forall k | 0 <= k < |h|
        ensures IsWordChar(h[k]) || h[k] == '.'
      {
        if k > |labels[0]| {
          assert h[k] == t[k - |labels[0]| - 1];
        }
      }
    }
    assert forall k :: 0 <= k < |h| ==> IsWordChar(h[k]) || h[k] == '.';
    assert !ContainsCtl(h) by {
      forall k | 0 <= k < |h|
        ensures !IsCtl(h[k])
      {
        assert IsWordChar(h[k]) || h[k] == '.';
      }
    }
  }

  /** The four spellings of one object path name the same key: a URL with a
      scheme, a scheme-relative URL, a root-relative path and a bare key. */
  lemma PlainKeyExamples(s: string)
    requires s == "/a/b.txt" || s == "a/b.txt"
    ensures ToRelativePath(s) == "a/b.txt"
  {
    if HasDoubleSlash(s) {
      DoubleSlashAt(s);
    }
    PlainPathStripsOneSlash(s);
  }

  lemma UrlKeyExamples(scheme: string)
    requires scheme == "https" || scheme == []
    ensures ToRelativePath((if scheme == [] then [] else scheme + ":") + "//host.example.com/a/b.txt") == "a/b.txt"
  {
    var labels := ["host", "example", "com"];
    ExampleHost("host", "example", "com");
    ExamplePath("/a/b.txt");
    assert IsLetters(scheme);
    UrlNormalisesToPath(scheme, labels, "/a/b.txt");
    ExampleConcat(if scheme == [] then [] else scheme + ":");
  }

  // The example helpers below take their strings as parameters fixed by a
  // `requires` rather than writing the literals inline: the solver then
  // unfolds each literal once, in a small proof of its own, instead of in
  // every obligation of the example that uses it.

  lemma ExampleHost(a: string, b: string, c: string)
    requires a == "host" && b == "example" && c == "com"
    ensures AllWords([a, b, c]) && JoinDots([a, b, c]) == "host.example.com"
  {
    ExampleWords(a, b, c);
    ThreeLabels(a, b, c);
    ExampleDots(a, b, c);
  }

  lemma ExampleWords(a: string, b: string, c: string)
    requires a == "host" && b == "example" && c == "com"
    ensures a != [] && b != [] && c != [] && IsWord(a) && IsWord(b) && IsWord(c)
  {
  }

  lemma ExampleDots(a: string, b: string, c: string)
    requires a == "host" && b == "example" && c == "com"
    ensures a + "." + b + "." + c == "host.example.com"
  {
  }

  lemma ThreeLabels(a: string, b: string, c: string)
    requires a != [] && b != [] && c != [] && IsWord(a) && IsWord(b) && IsWord(c)
    ensures AllWords([a, b, c])
    ensures JoinDots([a, b, c]) == a + "." + b + "." + c
  {
    assert [a, b, c][1..] == [b, c];
    assert [b, c][1..] == [c];
    assert JoinDots([b, c]) == b + "." + c;
    assert JoinDots([a, b, c]) == a + "." + (b + "." + c);
    assert a + "." + (b + "." + c) == a + "." + b + "." + c;
  }

  lemma ExamplePath(path: string)
    requires path == "/a/b.txt"
    ensures path != [] && path[0] == '/' && '?' !in path && '#' !in path && '%' !in path && !ContainsCtl(path)
    ensures path[1..] == "a/b.txt"
  {
  }

  lemma ExampleConcat(pre: string)
    ensures pre + "//" + "host.example.com" + "/a/b.txt" == pre + "//host.example.com/a/b.txt"
  {
  }
}
