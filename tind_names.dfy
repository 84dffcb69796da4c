/** The title and author heuristics of checkit/tind.py (`title_and_author`
    and `first_author`). The catalog's combined title field is cut at the
    first " / ", else at the first "[by]", else at the last ", by"; the author
    text is cleaned and its first name fragment handed to a name parser,
    which is an oracle here (None stands for the parser raising). */
module TindNames {
  import opened Errors
  import opened PyStr

  // ---------------------------------------------------------------------------
  // The separator pattern  \s\[?and\]?\s | , | \.\.\. | ;

  /** `\s\[?and\]?\s` matches at index p. The optional brackets leave no
      choice: a '[' after the space must be taken, since "and" cannot start
      with it, and likewise a ']' after "and". */
  predicate AndSepAt(t: string, p: nat)
  {
    p < |t| && IsSpace(t[p])
    && var q := if p + 1 < |t| && t[p + 1] == '[' then p + 2 else p + 1;
       OccursAt(t, "and", q)
       && var e := if q + 3 < |t| && t[q + 3] == ']' then q + 4 else q + 3;
          e < |t| && IsSpace(t[e])
  }

  /** Some alternative of the separator pattern matches at index p. */
  predicate SepAt(t: string, p: nat)
  {
    p < |t| && (t[p] == ',' || t[p] == ';' || OccursAt(t, "...", p) || AndSepAt(t, p))
  }

  /** The first index at or after p where the pattern matches, or |t|. */
  function FirstSepFrom(t: string, p: nat): (r: nat)
    requires p <= |t|
    decreases |t| - p
    ensures p <= r <= |t|
    ensures r < |t| ==> SepAt(t, r)
    ensures forall j :: p <= j < r ==> !SepAt(t, j)
  {
    if p == |t| || SepAt(t, p) then p else FirstSepFrom(t, p + 1)
  }

  /** `re.split(pattern, t)[0]`: the text before the first match. */
  function FirstSegment(t: string): (r: string)
    ensures StartsWith(t, r)
    ensures forall j :: 0 <= j < |r| ==> !SepAt(t, j)
    ensures |r| < |t| ==> SepAt(t, |r|)
  {
    t[..FirstSepFrom(t, 0)]
  }

  // ---------------------------------------------------------------------------
  // first_author

  /** The author text after dropping one trailing '.' and then, if it starts
      with "by", its first three characters. */
  function Cleaned(a: string): string
  {
    var t := if EndsWith(a, ".") then a[..|a| - 1] else a;
    if StartsWith(t, "by") then Drop(t, 3) else t
  }

  /** The name fragment `first_author` hands to the name parser. */
  function NameFragment(a: string): string
  {
    var t := Cleaned(a);
    if StartsWith(t, "edited by") then
      var f := Drop(t, 10);
      var k := Find(f, "and");
      if k > 0 then Strip(f[..k])
      else
        var k2 := Find(f, "...");
        if k2 > 0 then Strip(f[..k2]) else f
    else Strip(FirstSegment(t))
  }

  /** The parsed last name, or the fragment itself when parsing fails. */
  function LastNameOr(fragment: string, lastName: string -> Option<string>): string
  {
    match lastName(fragment)
    case Some(n) => n
    case None => fragment
  }

  /** `first_author(a)`. */
  function FirstAuthor(a: string, lastName: string -> Option<string>): string
  {
    if a == "" then "" else LastNameOr(NameFragment(a), lastName)
  }

  /** Empty author text gives an empty author without consulting the parser. */
  lemma EmptyAuthorText(lastName: string -> Option<string>)
    ensures FirstAuthor("", lastName) == ""
  {
  }

  /** Exactly one trailing period is ignored. */
  lemma {:induction false} TrailingPeriodIgnored(t: string)
    requires t != "" && !EndsWith(t, ".")
    ensures NameFragment(t + ".") == NameFragment(t)
  {
    var s := t + ".";
    assert EndsWith(s, ".");
    assert s[..|s| - 1] == t;
  }

  /** A leading "by " is dropped (three characters). */
  lemma {:induction false} LeadingByIgnored(t: string)
    requires !EndsWith(t, ".") && !StartsWith(t, "by")
    ensures NameFragment("by " + t) == NameFragment(t)
  {
    var s := "by " + t;
    if t != "" {
      assert s[|s| - 1..] == t[|t| - 1..];
    } else {
      assert s[|s| - 1..] == " ";
    }
    assert StartsWith(s, "by");
    assert Drop(s, 3) == t;
  }

  /** No separator starts inside `x` when `x` has no ',', ';', '.', 'a' or
      '[' and does not end in whitespace, whatever follows it. */
  lemma NoSeparatorWithin(t: string, x: string)
    requires StartsWith(t, x)
    requires ',' !in x && ';' !in x && '.' !in x && 'a' !in x && '[' !in x
    requires x == [] || !IsSpace(x[|x| - 1])
    ensures forall j :: 0 <= j < |x| ==> !SepAt(t, j)
  {
    forall j | 0 <= j < |x|
      ensures !SepAt(t, j)
    {
      assert t[j] == x[j];
      if j + 3 <= |t| {
        assert t[j..j + 3][0] == x[j];
      }
      if IsSpace(t[j]) {
        assert j + 1 < |x|;
        assert t[j + 1] == x[j + 1];
        if j + 4 <= |t| {
          assert t[j + 1..j + 4][0] == x[j + 1];
        }
      }
    }
  }

  /** The first fragment ends at the first separator. */
  lemma FirstSegmentAt(t: string, n: nat)
    requires n < |t| && SepAt(t, n)
    requires forall j :: 0 <= j < n ==> !SepAt(t, j)
    ensures FirstSegment(t) == t[..n]
  {
  }

  /** The first fragment of a text without separators is the whole text. */
  lemma {:induction false} FirstSegmentOfPlainText(x: string)
    requires ',' !in x && ';' !in x && '.' !in x && 'a' !in x && '[' !in x
    requires x == [] || !IsSpace(x[|x| - 1])
    ensures FirstSegment(x) == x
  {
    NoSeparatorWithin(x, x);
  }

  /** Each kind of separator ends the first fragment: a comma, a semicolon,
      an ellipsis and a spaced "and" with or without brackets. */
  lemma {:induction false} FirstSegmentBeforeSeparator(x: string, sep: string, y: string)
    requires sep in {",", ";", "...", " and ", " [and] "}
    requires ',' !in x && ';' !in x && '.' !in x && 'a' !in x && '[' !in x
    requires x == [] || !IsSpace(x[|x| - 1])
    ensures FirstSegment(x + sep + y) == x
  {
    var t := x + sep + y;
    var n := |x|;
    assert t[..n] == x;
    assert t[n..n + |sep|] == sep;
    NoSeparatorWithin(t, x);
    SeparatorMatches(t, n, sep);
    FirstSegmentAt(t, n);
  }

  /** Each alternative of the separator pattern matches where it occurs. */
  lemma SeparatorMatches(t: string, n: nat, sep: string)
    requires sep in {",", ";", "...", " and ", " [and] "}
    requires n + |sep| <= |t| && t[n..n + |sep|] == sep
    ensures SepAt(t, n)
  {
    var w := t[n..n + |sep|];
    if sep == " and " {
      assert w == " and ";
      assert w[0] == ' ' && w[1] == 'a' && w[2] == 'n' && w[3] == 'd' && w[4] == ' ';
      assert t[n + 1..n + 4] == "and";
      assert AndSepAt(t, n);
    } else if sep == " [and] " {
      assert w == " [and] ";
      assert w[0] == ' ' && w[1] == '[' && w[2] == 'a' && w[3] == 'n' && w[4] == 'd';
      assert w[5] == ']' && w[6] == ' ';
      assert t[n + 2..n + 5] == "and";
      assert AndSepAt(t, n);
    } else if sep == "..." {
      assert w == "...";
            assert OccursAt(t, "...", n);
    } else {
      assert t[n] == w[0];
    }
  }

  /** An "edited by" text without a trailing period is searched after its
      first ten characters. */
  lemma EditedByBranch(s: string)
    requires StartsWith(s, "edited by") && !EndsWith(s, ".")
    ensures var f := Drop(s, 10);
            var k := Find(f, "and");
            var k2 := Find(f, "...");
            NameFragment(s) == (if k > 0 then Strip(f[..k]) else if k2 > 0 then Strip(f[..k2]) else f)
  {
    assert s[..2][0] == s[..9][0] == 'e';
    assert Cleaned(s) == s;
  }

  /** A separator whose first character is absent from `x` is first found
      right after `x`. */
  lemma FindAfterClear(x: string, sep: string, y: string)
    requires sep != [] && sep[0] !in x
    ensures Find(x + sep + y, sep) == |x|
    ensures (x + sep + y)[..|x|] == x
  {
    var f := x + sep + y;
    assert f[..|x|] == x;
    assert f[|x|..|x| + |sep|] == sep;
    forall j | 0 <= j < |x|
      ensures !OccursAt(f, sep, j)
    {
      assert f[j] == x[j];
      if j + |sep| <= |f| {
        assert f[j..j + |sep|][0] == x[j];
      }
    }
    FindIs(f, sep, |x|);
  }

  /** "edited by" takes the text before the first "and". */
  lemma {:induction false} EditedByStopsAtAnd(x: string, y: string)
    requires x != "" && 'a' !in x
    requires !EndsWith("edited by " + x + "and" + y, ".")
    ensures NameFragment("edited by " + x + "and" + y) == Strip(x)
  {
    var s := "edited by " + x + "and" + y;
    var f := x + "and" + y;
    assert s == "edited by " + f;
    assert s[..9] == "edited by" && Drop(s, 10) == f;
    EditedByBranch(s);
    FindAfterClear(x, "and", y);
    assert NameFragment(s) == Strip(f[..|x|]);
  }

  /** Without any "and", "edited by" takes the text before the first "...". */
  lemma {:induction false} EditedByStopsAtEllipsis(x: string, y: string)
    requires x != "" && 'a' !in x && '.' !in x && 'a' !in y
    requires !EndsWith("edited by " + x + "..." + y, ".")
    ensures NameFragment("edited by " + x + "..." + y) == Strip(x)
  {
    var s := "edited by " + x + "..." + y;
    var f := x + "..." + y;
    assert s == "edited by " + f;
    assert s[..9] == "edited by" && Drop(s, 10) == f;
    EditedByBranch(s);
    assert 'a' !in f;
    NotContainedIfCharMissing(f, "and", 0);
    FindAfterClear(x, "...", y);
    assert Find(f, "and") == -1 && Find(f, "...") == |x|;
    assert NameFragment(s) == Strip(f[..|x|]);
  }

  // ---------------------------------------------------------------------------
  // title_and_author

  /** `title_and_author(s)`: (title, author). */
  function TitleAndAuthor(s: string, lastName: string -> Option<string>): (string, string)
  {
    var slash := Find(s, " / ");
    var bracketBy := Find(s, "[by]");
    var commaBy := RFind(s, ", by");
    if slash > 0 then (Strip(s[..slash]), FirstAuthor(Strip(Drop(s, slash + 3)), lastName))
    else if bracketBy > 0 then (Strip(s[..bracketBy]), FirstAuthor(Strip(Drop(s, bracketBy + 5)), lastName))
    else if commaBy > 0 then (Strip(s[..commaBy]), FirstAuthor(Strip(Drop(s, commaBy + 5)), lastName))
    else (s, FirstAuthor("", lastName))
  }

  lemma OccursWithin(s: string, m: string, r: string, i: nat, j: nat)
    requires OccursAt(s, m, i) && OccursAt(m, r, j)
    ensures OccursAt(s, r, i + j)
  {
    forall k | 0 <= k < |r|
      ensures s[i + j + k] == r[k]
    {
      assert r[k] == m[j + k];
      assert m[j + k] == s[i..i + |m|][j + k];
    }
    assert s[i + j..i + j + |r|] == r;
  }

  /** Occurrence is transitive. */
  lemma ContainsTransitive(s: string, m: string, r: string)
    ensures Contains(s, m) && Contains(m, r) ==> Contains(s, r)
  {
    if Contains(s, m) && Contains(m, r) {
      var i :| OccursAt(s, m, i);
      var j :| OccursAt(m, r, j);
      OccursWithin(s, m, r, i, j);
    }
  }

  /** What precedes the first occurrence of `sub` does not contain it. */
  lemma PrefixBeforeFind(s: string, sub: string)
    requires sub != "" && Find(s, sub) >= 0
    ensures !Contains(s[..Find(s, sub)], sub)
  {
    var k := Find(s, sub);
    forall j | 0 <= j
      ensures !OccursAt(s[..k], sub, j)
    {
      if j + |sub| <= k {
        assert s[..k][j..j + |sub|] == s[j..j + |sub|];
        assert !OccursAt(s, sub, j);
      }
    }
  }

  lemma StrippedPrefixWithin(s: string, k: nat)
    requires k <= |s|
    ensures Contains(s, Strip(s[..k]))
  {
    var m := s[..k];
    assert OccursAt(s, m, 0);
    var j :| OccursAt(m, Strip(m), j);
    OccursWithin(s, m, Strip(m), 0, j);
  }

  /** The title is always a piece of the input. */
  lemma {:induction false} TitleIsPartOfInput(s: string, lastName: string -> Option<string>)
    ensures Contains(s, TitleAndAuthor(s, lastName).0)
  {
    var slash := Find(s, " / ");
    var bracketBy := Find(s, "[by]");
    var commaBy := RFind(s, ", by");
    if slash > 0 {
      StrippedPrefixWithin(s, slash);
    } else if bracketBy > 0 {
      StrippedPrefixWithin(s, bracketBy);
    } else if commaBy > 0 {
      StrippedPrefixWithin(s, commaBy);
    } else {
      assert OccursAt(s, s, 0);
    }
  }

  /** When the title is cut at " / ", the cut is at the first " / ": the title
      holds none. */
  lemma {:induction false} SlashTitleHasNoSlash(s: string, lastName: string -> Option<string>)
    requires Find(s, " / ") > 0
    ensures !Contains(TitleAndAuthor(s, lastName).0, " / ")
  {
    var m := s[..Find(s, " / ")];
    PrefixBeforeFind(s, " / ");
    ContainsTransitive(m, Strip(m), " / ");
  }

  /** " / " wins: the title is what precedes the first " / " and the author
      comes from what follows it, whatever "[by]" or ", by" the text holds. */
  lemma {:induction false} SlashSplit(t: string, a: string, lastName: string -> Option<string>)
    requires t != "" && '/' !in t
    ensures TitleAndAuthor(t + " / " + a, lastName) == (Strip(t), FirstAuthor(Strip(a), lastName))
  {
    var s := t + " / " + a;
    assert s[..|t|] == t;
    assert s[|t|..|t| + 3] == " / ";
    forall j | 0 <= j < |t|
      ensures !OccursAt(s, " / ", j)
    {
      if j + 3 <= |s| {
        assert s[j..j + 3][1] == s[j + 1];
        if j + 1 < |t| {
          assert s[j + 1] == t[j + 1];
        } else {
          assert s[j + 1] == ' ';
        }
      }
    }
    FindIs(s, " / ", |t|);
    assert Drop(s, |t| + 3) == a;
  }

  /** Without " / ", "[by]" wins over ", by": the author text starts five
      characters past it. */
  lemma {:induction false} BracketBySplit(t: string, a: string, lastName: string -> Option<string>)
    requires t != "" && '[' !in t && '/' !in t && '/' !in a
    ensures TitleAndAuthor(t + "[by] " + a, lastName) == (Strip(t), FirstAuthor(Strip(a), lastName))
  {
    var s := t + "[by] " + a;
    assert '/' !in s;
    NotContainedIfCharMissing(s, " / ", 1);
    assert s[..|t|] == t;
    assert s[|t|..|t| + 4] == "[by]";
    forall j | 0 <= j < |t|
      ensures !OccursAt(s, "[by]", j)
    {
      assert s[j] == t[j];
      if j + 4 <= |s| {
        assert s[j..j + 4][0] == t[j];
      }
    }
    FindIs(s, "[by]", |t|);
    assert Find(s, " / ") == -1 && Find(s, "[by]") == |t|;
    assert s[|t| + 5..] == a;
    assert Drop(s, |t| + 5) == a;
    assert TitleAndAuthor(s, lastName) == (Strip(s[..|t|]), FirstAuthor(Strip(Drop(s, |t| + 5)), lastName));
    assert Strip(s[..|t|]) == Strip(t);
    assert FirstAuthor(Strip(Drop(s, |t| + 5)), lastName) == FirstAuthor(Strip(a), lastName);
  }

  /** Otherwise the LAST ", by" is the cut. */
  lemma {:induction false} CommaBySplit(t: string, a: string, lastName: string -> Option<string>)
    requires t != "" && '/' !in t && '/' !in a && '[' !in t && '[' !in a && ',' !in a
    ensures TitleAndAuthor(t + ", by " + a, lastName) == (Strip(t), FirstAuthor(Strip(a), lastName))
  {
    var s := t + ", by " + a;
    assert '/' !in s && '[' !in s;
    NotContainedIfCharMissing(s, " / ", 1);
    NotContainedIfCharMissing(s, "[by]", 0);
    var n := |t|;
    assert s[..n] == t;
    assert s[n..n + 4] == ", by";
    forall j | n < j
      ensures !OccursAt(s, ", by", j)
    {
      if j + 4 <= |s| {
        assert s[j..j + 4][0] == s[j];
        if j < n + 5 {
          assert s[j] == ", by "[j - n];
        } else {
          assert s[j] == a[j - n - 5];
        }
      }
    }
    RFindIs(s, ", by", n);
    assert Drop(s, n + 5) == a;
  }

  /** A marker at index 0 does not count, whichever of the three it is: the
      text stays the title and the author is empty. */
  lemma {:induction false} MarkerAtStartIgnored(m: string, a: string, lastName: string -> Option<string>)
    requires m in {" / ", "[by]", ", by"}
    requires '/' !in a && '[' !in a && ',' !in a
    ensures TitleAndAuthor(m + a, lastName) == (m + a, "")
  {
    var s := m + a;
    assert s[..|m|] == m;
    if m == " / " {
      FindIs(s, " / ", 0);
      assert '[' !in s && ',' !in s;
      NotContainedIfCharMissing(s, "[by]", 0);
      NotContainedIfCharMissing(s, ", by", 0);
    } else if m == "[by]" {
      assert '/' !in s && ',' !in s;
      NotContainedIfCharMissing(s, " / ", 1);
      FindIs(s, "[by]", 0);
      NotContainedIfCharMissing(s, ", by", 0);
    } else {
      assert '/' !in s && '[' !in s;
      NotContainedIfCharMissing(s, " / ", 1);
      NotContainedIfCharMissing(s, "[by]", 0);
      forall j | 0 < j
        ensures !OccursAt(s, ", by", j)
      {
        if j + 4 <= |s| {
          assert s[j..j + 4][0] == s[j];
          assert s[j] != ',' by {
            if j < 4 {
              assert s[j] == m[j];
            } else {
              assert s[j] == a[j - 4];
            }
          }
        }
      }
      RFindIs(s, ", by", 0);
    }
  }

  /** With none of the three markers, the whole input (unstripped) is the
      title and the author is empty. */
  lemma NoMarkerKeepsWholeTitle(s: string, lastName: string -> Option<string>)
    requires !Contains(s, " / ") && !Contains(s, "[by]") && !Contains(s, ", by")
    ensures TitleAndAuthor(s, lastName) == (s, "")
  {
  }

  /** A plain name is its own first fragment. */
  lemma PlainNameFragment()
    ensures NameFragment("John Smith") == "John Smith"
  {
    var name := "John Smith";
    assert name[|name| - 1] == 'h';
    FirstSegmentOfPlainText(name);
    StripKeeps(name);
    assert name[|name| - 1..][0] == 'h';
    assert name[..2][0] == 'J';
    assert name[..9][0] == 'J';
  }
}
