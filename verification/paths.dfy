/** Go's `path/filepath.Base` (with the Unix separator '/') and `path.Ext`. */
module Paths {
  import opened Strings

  /** The text after the last '/' of `p` (all of `p` when it has no '/'). */
  function LastElement(p: string): (e: string)
    ensures HasSuffix(p, e) && '/' !in e
    ensures |e| < |p| ==> p[|p| - |e| - 1] == '/'
  {
    if p == [] || p[|p| - 1] == '/' then []
    else LastElement(p[..|p| - 1]) + [p[|p| - 1]]
  }

  /** `p` without its trailing run of '/'. */
  function TrimTrailingSlashes(p: string): (t: string)
    ensures HasPrefix(p, t)
    ensures t == [] || t[|t| - 1] != '/'
    ensures forall k :: |t| <= k < |p| ==> p[k] == '/'
  {
    if p != [] && p[|p| - 1] == '/' then TrimTrailingSlashes(p[..|p| - 1]) else p
  }

  /** filepath.Base: the last element of `p` once trailing slashes are dropped;
      "." for the empty path and "/" for a path made only of slashes. */
  function Base(p: string): (r: string)
    ensures r != []
    ensures '/' in r ==> r == "/"
    ensures p == [] ==> r == "."
  {
    if p == [] then "."
    else
      var t := TrimTrailingSlashes(p);
      if t == [] then "/" else LastElement(t)
  }

  /** path.Ext: the suffix of the last element starting at its last '.', or ""
      when the last element has no '.'. */
  function Ext(p: string): (r: string)
    ensures r == [] <==> '.' !in LastElement(p)
    ensures r != [] ==> r[0] == '.' && '.' !in r[1..] && HasSuffix(LastElement(p), r)
  {
    if p == [] || p[|p| - 1] == '/' then []
    else if p[|p| - 1] == '.' then
      ExtStep(p);
      p[|p| - 1..]
    else
      var e := Ext(p[..|p| - 1]);
      ExtStep(p);
      if e == [] then [] else
        SuffixExtend(LastElement(p[..|p| - 1]), e, p[|p| - 1]);
        DotlessAppend(e, p[|p| - 1]);
        e + [p[|p| - 1]]
  }

  lemma ExtStep(p: string)
    requires p != [] && p[|p| - 1] != '/'
    ensures LastElement(p) == LastElement(p[..|p| - 1]) + [p[|p| - 1]]
    ensures '.' in LastElement(p) <==> '.' in LastElement(p[..|p| - 1]) || p[|p| - 1] == '.'
  {
  }

  lemma DotlessAppend(e: string, c: char)
    requires e != [] && e[0] == '.' && '.' !in e[1..] && c != '.'
    ensures (e + [c])[0] == '.' && '.' !in (e + [c])[1..]
  {
    assert (e + [c])[1..] == e[1..] + [c];
  }

  lemma SuffixExtend(s: string, x: string, c: char)
    requires HasSuffix(s, x)
    ensures HasSuffix(s + [c], x + [c])
  {
    assert (s + [c])[|s + [c]| - |x + [c]|..] == s[|s| - |x|..] + [c];
  }

  /** The last segment of a path with a trailing name is that name. */
  lemma BaseOfSegment(dir: string, name: string)
    requires name != [] && '/' !in name
    ensures Base(dir + "/" + name) == name
    ensures Base(name) == name
  {
    LastElementOfSegment(dir + "/", name);
    LastElementOfSegment([], name);
  }

  lemma {:induction false} LastElementOfSegment(dir: string, name: string)
    requires '/' !in name
    requires dir == [] || dir[|dir| - 1] == '/'
    ensures LastElement(dir + name) == name
    decreases |name|
  {
    if name != [] {
      var init := name[..|name| - 1];
      var last := name[|name| - 1];
      SplitLast(dir, name);
      LastElementOfSegment(dir, init);
      ExtStep(dir + name);
    } else {
      assert dir + name == dir;
    }
  }

  lemma SplitLast(dir: string, name: string)
    requires name != [] && '/' !in name
    ensures var p := dir + name;
      p[|p| - 1] == name[|name| - 1] != '/' && p[..|p| - 1] == dir + name[..|name| - 1] &&
      '/' !in name[..|name| - 1] && name == name[..|name| - 1] + [name[|name| - 1]]
  {
    var p := dir + name;
    assert p[..|p| - 1] == dir + name[..|name| - 1];
  }

  /** Putting one '/' in front of a path does not change its base name, unless the
      path is empty or only slashes. */
  lemma BasePrependSlash(x: string)
    requires TrimTrailingSlashes(x) != []
    ensures Base("/" + x) == Base(x)
  {
    TrimTrailingPrependSlash(x);
    LastElementPrependSlash(TrimTrailingSlashes(x));
  }

  lemma {:induction false} TrimTrailingPrependSlash(x: string)
    requires TrimTrailingSlashes(x) != []
    ensures TrimTrailingSlashes("/" + x) == "/" + TrimTrailingSlashes(x)
    decreases |x|
  {
    var p := "/" + x;
    if x[|x| - 1] == '/' {
      assert p[..|p| - 1] == "/" + x[..|x| - 1];
      TrimTrailingPrependSlash(x[..|x| - 1]);
    }
  }

  lemma {:induction false} LastElementPrependSlash(x: string)
    ensures LastElement("/" + x) == LastElement(x)
    decreases |x|
  {
    var p := "/" + x;
    if x == [] {
    } else if x[|x| - 1] != '/' {
      assert p[..|p| - 1] == "/" + x[..|x| - 1];
      LastElementPrependSlash(x[..|x| - 1]);
    }
  }
}
