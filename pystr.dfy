/** The Python string operations the core relies on (str.find, str.rfind,
    str.strip, str.startswith, str.endswith, str.isdigit, str.join, slicing
    with clamped bounds and lexicographic comparison), each characterised by
    its contract rather than by its code. Whitespace is space, \t, \n, \r,
    \v and \f. */
module PyStr {

  /** `sub` occurs in `s` starting at index `k`. */
  predicate OccursAt(s: string, sub: string, k: int)
  {
    0 <= k && k + |sub| <= |s| && s[k..k + |sub|] == sub
  }

  ghost predicate Contains(s: string, sub: string)
  {
    exists k :: OccursAt(s, sub, k)
  }

  /** Lowest index at or after `i` where `sub` occurs, or -1. */
  function FindFrom(s: string, sub: string, i: nat): (r: int)
    requires i <= |s| + 1
    decreases |s| + 1 - i
    ensures r == -1 || (i <= r && OccursAt(s, sub, r))
    ensures r >= 0 ==> forall j :: i <= j < r ==> !OccursAt(s, sub, j)
    ensures r == -1 ==> forall j :: i <= j ==> !OccursAt(s, sub, j)
  {
    if i + |sub| > |s| then -1
    else if s[i..i + |sub|] == sub then i
    else FindFrom(s, sub, i + 1)
  }

  /** str.find: the lowest index of `sub` in `s`, or -1 when it does not occur. */
  function Find(s: string, sub: string): (r: int)
    ensures r == -1 <==> !Contains(s, sub)
    ensures r >= 0 ==> OccursAt(s, sub, r) && forall j :: 0 <= j < r ==> !OccursAt(s, sub, j)
  {
    FindFrom(s, sub, 0)
  }

  /** Highest index below `n` where `sub` occurs, or -1. */
  function RFindBelow(s: string, sub: string, n: nat): (r: int)
    ensures r == -1 || (r < n && OccursAt(s, sub, r))
    ensures r >= 0 ==> forall j :: r < j < n ==> !OccursAt(s, sub, j)
    ensures r == -1 ==> forall j :: 0 <= j < n ==> !OccursAt(s, sub, j)
  {
    if n == 0 then -1
    else if OccursAt(s, sub, n - 1) then n - 1
    else RFindBelow(s, sub, n - 1)
  }

  /** str.rfind: the highest index of `sub` in `s`, or -1 when it does not occur. */
  function RFind(s: string, sub: string): (r: int)
    ensures r == -1 <==> !Contains(s, sub)
    ensures r >= 0 ==> OccursAt(s, sub, r) && forall j :: r < j ==> !OccursAt(s, sub, j)
  {
    RFindBelow(s, sub, |s| + 1)
  }

  predicate StartsWith(s: string, prefix: string)
  {
    |prefix| <= |s| && s[..|prefix|] == prefix
  }

  predicate EndsWith(s: string, suffix: string)
  {
    |suffix| <= |s| && s[|s| - |suffix|..] == suffix
  }

  /** s[from:] with Python's clamping: past the end gives ''. */
  function Drop(s: string, from: nat): (r: string)
    ensures from <= |s| ==> s == s[..from] + r
    ensures from >= |s| ==> r == ""
  {
    if from >= |s| then "" else s[from..]
  }

  /** s[:to] with Python's clamping. */
  function Take(s: string, to: nat): (r: string)
    ensures StartsWith(s, r)
    ensures |r| == if to <= |s| then to else |s|
  {
    if to >= |s| then s else s[..to]
  }

  const Whitespace: set<char> := {' ', '\t', '\n', '\r', '\U{000B}', '\U{000C}'}

  predicate IsSpace(c: char)
  {
    c in Whitespace
  }

  /** Drops every leading character that is in `cs`. */
  function LStrip(s: string, cs: set<char>): (r: string)
    ensures EndsWith(s, r)
    ensures r == "" || r[0] !in cs
    ensures forall k :: 0 <= k < |s| - |r| ==> s[k] in cs
  {
    if s != [] && s[0] in cs then LStrip(s[1..], cs) else s
  }

  /** Drops every trailing character that is in `cs`. */
  function RStrip(s: string, cs: set<char>): (r: string)
    ensures StartsWith(s, r)
    ensures r == "" || r[|r| - 1] !in cs
    ensures forall k :: |r| <= k < |s| ==> s[k] in cs
  {
    if s != [] && s[|s| - 1] in cs then RStrip(s[..|s| - 1], cs) else s
  }

  /** str.strip(chars): `s` without its leading and trailing characters from `cs`. */
  function StripChars(s: string, cs: set<char>): (r: string)
    ensures Contains(s, r)
    ensures r == "" || (r[0] !in cs && r[|r| - 1] !in cs)
  {
    var l := LStrip(s, cs);
    var r := RStrip(l, cs);
    assert OccursAt(s, r, |s| - |l|);
    r
  }

  /** str.strip() with no argument. */
  function Strip(s: string): (r: string)
    ensures |r| <= |s|
    ensures r == "" || (!IsSpace(r[0]) && !IsSpace(r[|r| - 1]))
  {
    StripChars(s, Whitespace)
  }

  predicate IsDigitChar(c: char)
  {
    '0' <= c <= '9'
  }

  /** str.isdigit: non-empty and every character a decimal digit. */
  predicate IsDigits(s: string)
  {
    |s| > 0 && forall k :: 0 <= k < |s| ==> IsDigitChar(s[k])
  }

  /** sep.join(xs). */
  function Join(sep: string, xs: seq<string>): (r: string)
    ensures xs == [] ==> r == ""
    ensures |xs| == 1 ==> r == xs[0]
    ensures |xs| > 1 ==> r == xs[0] + sep + Join(sep, xs[1..])
  {
    if xs == [] then "" else if |xs| == 1 then xs[0] else xs[0] + sep + Join(sep, xs[1..])
  }

  /** A string whose ends are not whitespace strips to itself. */
  lemma StripKeeps(s: string)
    requires s == [] || (!IsSpace(s[0]) && !IsSpace(s[|s| - 1]))
    ensures Strip(s) == s
  {
  }

  /** One trailing space is stripped away. */
  lemma {:induction false} StripDropsTrailingSpace(s: string)
    requires s != [] && !IsSpace(s[0]) && !IsSpace(s[|s| - 1])
    ensures Strip(s + " ") == s
  {
    var t := s + " ";
    assert t[0] == s[0];
    assert LStrip(t, Whitespace) == t;
    assert t[..|t| - 1] == s;
    assert RStrip(t, Whitespace) == RStrip(s, Whitespace);
  }

  /** `sub` cannot occur in `s` when one of its characters is missing from `s`. */
  lemma NotContainedIfCharMissing(s: string, sub: string, i: nat)
    requires i < |sub| && sub[i] !in s
    ensures !Contains(s, sub)
  {
  }

  /** The first occurrence is where `find` points. */
  lemma FindIs(s: string, sub: string, k: nat)
    requires OccursAt(s, sub, k) && forall j :: 0 <= j < k ==> !OccursAt(s, sub, j)
    ensures Find(s, sub) == k
  {
  }

  /** The last occurrence is where `rfind` points. */
  lemma RFindIs(s: string, sub: string, k: nat)
    requires OccursAt(s, sub, k) && forall j :: k < j ==> !OccursAt(s, sub, j)
    ensures RFind(s, sub) == k
  {
  }

  /** Python's `x < y` on strings: lexicographic by code point. */
  predicate StrLess(x: string, y: string)
  {
    if x == [] then y != []
    else if y == [] then false
    else if x[0] != y[0] then x[0] < y[0]
    else StrLess(x[1..], y[1..])
  }

  /** `x` is a prefix of `y` and shorter. */
  predicate ProperPrefix(x: string, y: string)
  {
    |x| < |y| && y[..|x|] == x
  }

  /** A common prefix does not change the comparison. */
  lemma {:induction false} StrLessCommonPrefix(p: string, x: string, y: string)
    ensures StrLess(p + x, p + y) <==> StrLess(x, y)
  {
    if p != [] {
      assert (p + x)[0] == (p + y)[0];
      assert (p + x)[1..] == p[1..] + x;
      assert (p + y)[1..] == p[1..] + y;
      StrLessCommonPrefix(p[1..], x, y);
    } else {
      assert p + x == x && p + y == y;
    }
  }

  /** A common last character `c` does not change the comparison, unless one
      side is a proper prefix of the other. */
  lemma {:induction false} StrLessCommonSuffix(x: string, y: string, c: char)
    requires !ProperPrefix(x, y) && !ProperPrefix(y, x)
    ensures StrLess(x + [c], y + [c]) <==> StrLess(x, y)
  {
    if x == [] || y == [] {
      assert x == y;
    } else if x[0] == y[0] {
      assert (x + [c])[1..] == x[1..] + [c];
      assert (y + [c])[1..] == y[1..] + [c];
      StrLessCommonSuffix(x[1..], y[1..], c);
    }
  }

  /** No string is less than itself. */
  lemma {:induction false} StrLessIrreflexive(s: string)
    ensures !StrLess(s, s)
  {
    if s != [] {
      StrLessIrreflexive(s[1..]);
    }
  }
}
