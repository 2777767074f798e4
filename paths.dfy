/**
 * A simplified POSIX reading of Node's `path.parse(p).name` and
 * `path.extname(p)`: the base name is what follows the last '/' once
 * trailing slashes are dropped; the extension runs from the base name's last
 * '.' to its end, except when that '.' is the base name's first character or
 * the base name is "..", where it is empty.
 */
module Paths {

  /** Index of the last `c` in `s`, or -1 when there is none. */
  function LastIndexOf(s: string, c: char): (i: int)
    ensures -1 <= i < |s|
    ensures 0 <= i ==> s[i] == c
    ensures forall k :: i < k < |s| ==> s[k] != c
  {
    if s == [] then -1
    else if s[|s| - 1] == c then |s| - 1
    else LastIndexOf(s[..|s| - 1], c)
  }

  /** `p` without its trailing slashes; a path of slashes only becomes empty. */
  function StripTrailingSlashes(p: string): (r: string)
    ensures |r| <= |p| && r == p[..|r|]
    ensures r == [] || r[|r| - 1] != '/'
    ensures forall k :: |r| <= k < |p| ==> p[k] == '/'
  {
    if p != [] && p[|p| - 1] == '/' then StripTrailingSlashes(p[..|p| - 1]) else p
  }

  /** The last path segment. */
  function BaseName(p: string): (b: string)
    ensures '/' !in b
    ensures var t := StripTrailingSlashes(p); |b| <= |t| && b == t[|t| - |b|..]
  {
    var t := StripTrailingSlashes(p);
    t[LastIndexOf(t, '/') + 1..]
  }

  /** The base name is the whole last segment: it starts the path or follows a '/'. */
  lemma BaseNameWhole(p: string)
    ensures var t, b := StripTrailingSlashes(p), BaseName(p);
      |b| == |t| || t[|t| - |b| - 1] == '/'
  {
  }

  /** `path.extname(p)`: empty, or a '.' followed by characters other than '.' and '/'. */
  function ExtName(p: string): (e: string)
    ensures e == [] || (e[0] == '.' && '.' !in e[1..])
    ensures '/' !in e
    ensures var b := BaseName(p); |e| <= |b| && e == b[|b| - |e|..]
    ensures |e| < |BaseName(p)| || e == []
  {
    var b := BaseName(p);
    var d := LastIndexOf(b, '.');
    if d <= 0 || b == ".." then "" else b[d..]
  }

  /**
   * The extension is non-empty whenever the base name has a '.' after its
   * first character and is not "..".
   */
  lemma ExtNameFound(p: string, k: nat)
    requires var b := BaseName(p); 0 < k < |b| && b[k] == '.' && b != ".."
    ensures ExtName(p) != []
    ensures var b := BaseName(p); ExtName(p) == b[LastIndexOf(b, '.')..]
  {
    var b := BaseName(p);
    var d := LastIndexOf(b, '.');
    assert k <= d;
  }

  /** A string is the part before a suffix followed by that suffix. */
  lemma SuffixSplit(b: string, e: string)
    requires |e| <= |b| && e == b[|b| - |e|..]
    ensures b[..|b| - |e|] + e == b
  {
  }

  /** `path.parse(p).name`: the base name without its extension. */
  function FileStem(p: string): (n: string)
    ensures n + ExtName(p) == BaseName(p)
    ensures n == [] ==> BaseName(p) == []
  {
    var b, e := BaseName(p), ExtName(p);
    SuffixSplit(b, e);
    b[..|b| - |e|]
  }
}
