/** The few helpers of Go's `strings` package that the adapters call, on `string` = `seq<char>`. */
module Strings {

  predicate HasPrefix(s: string, p: string)
  {
    |p| <= |s| && s[..|p|] == p
  }

  predicate HasSuffix(s: string, x: string)
  {
    |x| <= |s| && s[|s| - |x|..] == x
  }

  /** strings.TrimPrefix: removes one copy of `p` from the front of `s`, if it is there. */
  function TrimPrefix(s: string, p: string): (r: string)
    ensures HasPrefix(s, p) ==> s == p + r
    ensures !HasPrefix(s, p) ==> r == s
  {
    if HasPrefix(s, p) then s[|p|..] else s
  }

  /** strings.Cut on one separator character: the text before the first `c`,
      the text after it, and whether `c` occurs at all. */
  function Cut(s: string, c: char): (r: (string, string, bool))
    ensures c !in r.0
    ensures r.2 ==> s == r.0 + [c] + r.1
    ensures !r.2 ==> r.0 == s && r.1 == ""
    ensures r.2 <==> c in s
  {
    if s == [] then (s, [], false)
    else if s[0] == c then ([], s[1..], true)
    else
      var (before, after, found) := Cut(s[1..], c);
      ([s[0]] + before, after, found)
  }

  /** `s` contains two adjacent '/' somewhere. */
  predicate HasDoubleSlash(s: string)
  {
    |s| >= 2 && (s[..2] == "//" || HasDoubleSlash(s[1..]))
  }

  /** `t` is a contiguous piece of `s`. */
  predicate IsInfix(t: string, s: string)
  {
    exists i, j :: 0 <= i <= j <= |s| && t == s[i..j]
  }

  /** A double slash is a pair of adjacent '/' at some index. */
  lemma {:induction false} DoubleSlashAt(s: string)
    requires HasDoubleSlash(s)
    ensures exists i :: 0 <= i < |s| - 1 && s[i] == '/' && s[i + 1] == '/'
    decreases |s|
  {
    if s[..2] != "//" {
      DoubleSlashAt(s[1..]);
      var i :| 0 <= i < |s| - 2 && s[1..][i] == '/' && s[1..][i + 1] == '/';
      assert s[i + 1] == '/' && s[i + 2] == '/';
    } else {
      assert s[0] == '/' && s[1] == '/';
    }
  }
}
