/** The adapters' URL detector `(https?:)?//((\w+).)+(\w+)/`, as Go's regexp
    `MatchString` uses it: unanchored, so it holds when the pattern matches
    anywhere in the input. Because the search is unanchored, the optional
    `(https?:)?` group never changes the verdict and is not represented.
    `\w` is the ASCII class [0-9A-Za-z_]; the unescaped `.` is Go's "any
    character except a newline", so it also matches '/', ':' and '.'. */
module UrlPattern {
  import opened Strings

  predicate IsWordChar(c: char)
  {
    'a' <= c <= 'z' || 'A' <= c <= 'Z' || '0' <= c <= '9' || c == '_'
  }

  predicate IsAnyChar(c: char)
  {
    c != '\n'
  }

  predicate IsWord(w: string)
  {
    forall k :: 0 <= k < |w| ==> IsWordChar(w[k])
  }

  // The part after `//` is recognised by four states of an automaton:
  //   GroupStart  expects the first `\w` of the mandatory first `(\w+).`
  //   InGroup     has read `\w+` of that group and expects more `\w` or the `.`
  //   AfterGroup  has read at least one whole group and expects a `\w`
  //   InTail      has read `\w+` after a group: more `\w`, a `.` closing another
  //               group, or the final '/'
  // Each predicate holds when some prefix of `t` completes the pattern.

  predicate GroupStart(t: string)
  {
    |t| > 0 && IsWordChar(t[0]) && InGroup(t[1..])
  }

  predicate InGroup(t: string)
    decreases |t|
  {
    |t| > 0 &&
    ((IsWordChar(t[0]) && InGroup(t[1..])) || (IsAnyChar(t[0]) && AfterGroup(t[1..])))
  }

  predicate AfterGroup(t: string)
    decreases |t|
  {
    |t| > 0 && IsWordChar(t[0]) && InTail(t[1..])
  }

  predicate InTail(t: string)
    decreases |t|
  {
    |t| > 0 &&
    ((IsWordChar(t[0]) && InTail(t[1..])) || (IsAnyChar(t[0]) && AfterGroup(t[1..])) || t[0] == '/')
  }

  /** The pattern matches starting at index `i` of `s`. */
  predicate MatchesAt(s: string, i: nat)
  {
    i + 2 <= |s| && s[i] == '/' && s[i + 1] == '/' && GroupStart(s[i + 2..])
  }

  /** regexp.MatchString with the adapters' urlRegexp. */
  predicate MatchString(s: string)
  {
    |s| >= 2 && ((s[..2] == "//" && GroupStart(s[2..])) || MatchString(s[1..]))
  }

  /** MatchString is a search: it holds exactly when the pattern matches
      starting at some index of the input. */
  lemma {:induction false} MatchIsSearch(s: string)
    ensures MatchString(s) <==> exists i: nat :: MatchesAt(s, i)
    decreases |s|
  {
    if |s| < 2 {
      assert forall i: nat :: !MatchesAt(s, i);
    } else {
      MatchIsSearch(s[1..]);
      assert MatchesAt(s, 0) <==> s[..2] == "//" && GroupStart(s[2..]) by {
        assert s[..2] == "//" <==> s[0] == '/' && s[1] == '/';
      }
      forall i: nat ensures MatchesAt(s, i + 1) <==> MatchesAt(s[1..], i) {
        if i + 3 <= |s| { assert s[i + 3..] == s[1..][i + 2..]; }
      }
      if exists i: nat :: MatchesAt(s, i) {
        var i: nat :| MatchesAt(s, i);
        if i > 0 { assert MatchesAt(s[1..], i - 1); }
      }
    }
  }

  /** Host names written as word labels joined by '.'. */
  function JoinDots(labels: seq<string>): string
    requires |labels| >= 1
  {
    if |labels| == 1 then labels[0] else labels[0] + "." + JoinDots(labels[1..])
  }

  predicate AllWords(labels: seq<string>)
  {
    forall k :: 0 <= k < |labels| ==> labels[k] != [] && IsWord(labels[k])
  }

  /** The pattern needs a "//" in the input: a string without one never matches. */
  lemma {:induction false} MatchNeedsDoubleSlash(s: string)
    ensures MatchString(s) ==> HasDoubleSlash(s)
    decreases |s|
  {
    if |s| >= 2 {
      MatchNeedsDoubleSlash(s[1..]);
    }
  }

  /** A match inside a suffix is a match of the whole string. */
  lemma {:induction false} MatchExtendsLeft(pre: string, s: string)
    requires MatchString(s)
    ensures MatchString(pre + s)
    decreases |pre|
  {
    if pre != [] {
      MatchExtendsLeft(pre[1..], s);
      assert (pre + s)[1..] == pre[1..] + s;
      assert MatchString((pre + s)[1..]);
    } else {
      assert pre + s == s;
    }
  }

  /** `//` followed by at least two dotted word labels and a '/' matches,
      whatever precedes and follows. */
  lemma UrlShapeMatches(pre: string, labels: seq<string>, rest: string)
    requires |labels| >= 2 && AllWords(labels)
    ensures MatchString(pre + "//" + JoinDots(labels) + "/" + rest)
  {
    var u := JoinDots(labels) + "/" + rest;
    HostMatches(labels, rest);
    var s := "//" + u;
    assert s[..2] == "//" && s[2..] == u;
    MatchExtendsLeft(pre, s);
    assert pre + "//" + JoinDots(labels) + "/" + rest == pre + s;
  }

  lemma HostMatches(labels: seq<string>, rest: string)
    requires |labels| >= 2 && AllWords(labels)
    ensures GroupStart(JoinDots(labels) + "/" + rest)
  {
    var w := labels[0];
    var tail := JoinDots(labels[1..]) + "/" + rest;
    AllWordsTail(labels);
    LabelsThenSlash(labels[1..], rest);
    DotThenAfterGroup(tail);
    WordThenInGroup(w[1..], "." + tail);
    WordStartsGroup(w, "." + tail);
    JoinDotsSplit(labels, rest);
  }

  lemma DotThenAfterGroup(t: string)
    requires AfterGroup(t)
    ensures InGroup("." + t)
  {
    assert ("." + t)[1..] == t;
  }

  lemma WordStartsGroup(w: string, v: string)
    requires w != [] && IsWord(w) && InGroup(w[1..] + v)
    ensures GroupStart(w + v)
  {
    assert (w + v)[0] == w[0];
    assert (w + v)[1..] == w[1..] + v;
  }

  lemma AllWordsTail(labels: seq<string>)
    requires |labels| >= 1 && AllWords(labels)
    ensures AllWords(labels[1..])
  {
    forall k | 0 <= k < |labels[1..]|
      ensures labels[1..][k] != [] && IsWord(labels[1..][k])
    {
      assert labels[1..][k] == labels[k + 1];
    }
  }

  lemma JoinDotsSplit(labels: seq<string>, rest: string)
    requires |labels| >= 2
    ensures JoinDots(labels) + "/" + rest == labels[0] + ("." + (JoinDots(labels[1..]) + "/" + rest))
  {
  }

  lemma {:induction false} LabelsThenSlash(labels: seq<string>, rest: string)
    requires |labels| >= 1 && AllWords(labels)
    ensures AfterGroup(JoinDots(labels) + "/" + rest)
    decreases |labels|
  {
    var w := labels[0];
    if |labels| == 1 {
      SlashEndsTail(rest);
      WordThenInTail(w[1..], "/" + rest);
      WordStartsTail(w, "/" + rest);
      assert JoinDots(labels) + "/" + rest == w + ("/" + rest);
    } else {
      AllWordsTail(labels);
      var tail := JoinDots(labels[1..]) + "/" + rest;
      LabelsThenSlash(labels[1..], rest);
      DotThenInTail(tail);
      WordThenInTail(w[1..], "." + tail);
      WordStartsTail(w, "." + tail);
      JoinDotsSplit(labels, rest);
    }
  }

  lemma SlashEndsTail(rest: string)
    ensures InTail("/" + rest)
  {
  }

  lemma DotThenInTail(t: string)
    requires AfterGroup(t)
    ensures InTail("." + t)
  {
    assert ("." + t)[1..] == t;
  }

  lemma WordStartsTail(w: string, v: string)
    requires w != [] && IsWord(w) && InTail(w[1..] + v)
    ensures AfterGroup(w + v)
  {
    assert (w + v)[0] == w[0];
    assert (w + v)[1..] == w[1..] + v;
  }

  lemma {:induction false} WordThenInGroup(w: string, u: string)
    requires IsWord(w) && InGroup(u)
    ensures InGroup(w + u)
    decreases |w|
  {
    if w != [] {
      WordThenInGroup(w[1..], u);
      assert (w + u)[1..] == w[1..] + u;
    } else {
      assert w + u == u;
    }
  }

  lemma {:induction false} WordThenInTail(w: string, u: string)
    requires IsWord(w) && InTail(u)
    ensures InTail(w + u)
    decreases |w|
  {
    if w != [] {
      WordThenInTail(w[1..], u);
      assert (w + u)[1..] == w[1..] + u;
    } else {
      assert w + u == u;
    }
  }
}
