/** The Python string operations the gateway relies on, over code points:
    `strip()`, `lstrip("/")`, `lower()` + `endswith`, `replace(pat, "")`,
    `sep.join(parts)` and, as its inverse, `split(sep)`. */
module PyText {

  /** Python's `str.isspace` for one code point: the characters `strip()` removes. */
  predicate IsSpace(c: char)
  {
    || ('\t' <= c <= '\r')
    || ('\U{1C}' <= c <= '\U{1F}')
    || c == ' '
    || c == '\U{85}'
    || c == '\U{A0}'
    || c == '\U{1680}'
    || ('\U{2000}' <= c <= '\U{200A}')
    || c == '\U{2028}'
    || c == '\U{2029}'
    || c == '\U{202F}'
    || c == '\U{205F}'
    || c == '\U{3000}'
  }

  predicate IsSlash(c: char)
  {
    c == '/'
  }

  /** Every character of `s` satisfies `p`. */
  predicate All(s: string, p: char -> bool)
  {
    forall i :: 0 <= i < |s| ==> p(s[i])
  }

  /** `s` is empty once `strip()` has run: Python's `not s.strip()`. */
  predicate IsBlank(s: string)
  {
    All(s, IsSpace)
  }

  /** Drop the longest prefix whose characters satisfy `p` (`lstrip`). */
  function TrimLeft(s: string, p: char -> bool): (r: string)
    ensures |r| <= |s| && r == s[|s| - |r|..]
    ensures All(s[..|s| - |r|], p)
    ensures r == [] || !p(r[0])
    decreases |s|
  {
    if |s| > 0 && p(s[0]) then TrimLeft(s[1..], p) else s
  }

  /** Drop the longest suffix whose characters satisfy `p` (`rstrip`). */
  function TrimRight(s: string, p: char -> bool): (r: string)
    ensures |r| <= |s| && r == s[..|r|]
    ensures All(s[|r|..], p)
    ensures r == [] || !p(r[|r| - 1])
    decreases |s|
  {
    if |s| > 0 && p(s[|s| - 1]) then
      var init := s[..|s| - 1];
      var r := TrimRight(init, p);
      assert init[..|r|] == s[..|r|];
      assert forall i :: |r| <= i < |s| - 1 ==> s[i] == init[|r|..][i - |r|];
      r
    else s
  }

  /** `s.strip()`: whitespace removed from both ends. */
  function Strip(s: string): (r: string)
    ensures r == [] || (!IsSpace(r[0]) && !IsSpace(r[|r| - 1]))
    ensures r == [] <==> IsBlank(s)
  {
    TrimRight(TrimLeft(s, IsSpace), IsSpace)
  }

  /** `s.lstrip("/")`. */
  function LStripSlashes(s: string): string
  {
    TrimLeft(s, IsSlash)
  }

  /** A run of `n` slashes. */
  function Slashes(n: nat): (r: string)
    ensures |r| == n && All(r, IsSlash)
  {
    seq(n, _ => '/')
  }

  /** `strip()` keeps exactly the part between surrounding whitespace: if `m`
      neither starts nor ends with whitespace, `Strip(a + m + b) == m` for all
      whitespace `a`, `b`. Together with the contract of `Strip` this pins the
      result down uniquely. */
  lemma {:induction false} StripRemovesExactlySurroundingSpace(a: string, m: string, b: string)
    requires IsBlank(a) && IsBlank(b)
    requires m == [] || (!IsSpace(m[0]) && !IsSpace(m[|m| - 1]))
    ensures m != [] ==> Strip(a + m + b) == m
    ensures m == [] ==> Strip(a + m + b) == []
  {
    if m == [] {
      assert a + m + b == a + b;
      BlankConcat(a, b);
    } else {
      assert a + m + b == a + (m + b);
      TrimLeftDropsBlankPrefix(a, m + b, IsSpace);
      TrimRightDropsBlankSuffix(m, b, IsSpace);
      assert Strip(a + m + b) == TrimRight(TrimLeft(a + (m + b), IsSpace), IsSpace);
    }
  }

  lemma BlankConcat(a: string, b: string)
    requires IsBlank(a) && IsBlank(b)
    ensures IsBlank(a + b)
  {
    forall i | 0 <= i < |a + b| ensures IsSpace((a + b)[i]) {
      if i < |a| { assert (a + b)[i] == a[i]; } else { assert (a + b)[i] == b[i - |a|]; }
    }
  }

  lemma {:induction false} TrimLeftDropsBlankPrefix(a: string, s: string, p: char -> bool)
    requires All(a, p)
    requires s != [] && !p(s[0])
    ensures TrimLeft(a + s, p) == s
    decreases |a|
  {
    if a == [] {
      assert a + s == s;
    } else {
      assert (a + s)[0] == a[0];
      assert (a + s)[1..] == a[1..] + s;
      TrimLeftDropsBlankPrefix(a[1..], s, p);
    }
  }

  lemma {:induction false} TrimRightDropsBlankSuffix(s: string, b: string, p: char -> bool)
    requires All(b, p)
    requires s != [] && !p(s[|s| - 1])
    ensures TrimRight(s + b, p) == s
    decreases |b|
  {
    if b == [] {
      assert s + b == s;
    } else {
      var b' := b[..|b| - 1];
      assert (s + b)[|s + b| - 1] == b[|b| - 1];
      assert (s + b)[..|s + b| - 1] == s + b';
      TrimRightDropsBlankSuffix(s, b', p);
    }
  }

  /** A string with no surrounding whitespace is its own strip. */
  lemma StripKeepsUnpadded(m: string)
    requires m == [] || (!IsSpace(m[0]) && !IsSpace(m[|m| - 1]))
    ensures Strip(m) == m
  {
    if m != [] {
      assert TrimLeft(m, IsSpace) == m;
    }
  }

  /** `lstrip("/")` ignores any number of extra leading slashes. */
  lemma {:induction false} LStripSlashesIgnoresLeadingSlashes(n: nat, s: string)
    ensures LStripSlashes(Slashes(n) + s) == LStripSlashes(s)
    decreases n
  {
    if n > 0 {
      var t := Slashes(n) + s;
      assert t[0] == '/';
      assert t[1..] == Slashes(n - 1) + s;
      LStripSlashesIgnoresLeadingSlashes(n - 1, s);
    } else {
      assert Slashes(n) + s == s;
    }
  }

  // ---- case-insensitive suffix test ----

  function LowerChar(c: char): char
  {
    if 'A' <= c <= 'Z' then (c as int + 32) as char else c
  }

  /** `s.lower()`, for the ASCII letters that decide the file-type dispatch. */
  function Lower(s: string): (r: string)
    ensures |r| == |s|
    ensures forall i :: 0 <= i < |s| ==> r[i] == LowerChar(s[i])
  {
    seq(|s|, i requires 0 <= i < |s| => LowerChar(s[i]))
  }

  predicate StartsWith(s: string, prefix: string)
  {
    |prefix| <= |s| && s[..|prefix|] == prefix
  }

  predicate EndsWith(s: string, suffix: string)
  {
    |suffix| <= |s| && s[|s| - |suffix|..] == suffix
  }

  // ---- str.replace(pat, "") ----

  /** `pat` occurs in `s` starting at index `i`. */
  predicate OccursAt(s: string, pat: string, i: int)
  {
    0 <= i && i + |pat| <= |s| && s[i..i + |pat|] == pat
  }

  predicate Contains(s: string, pat: string)
  {
    exists i :: 0 <= i <= |s| && OccursAt(s, pat, i)
  }

  /** `s.replace(pat, "")`: one left-to-right pass deleting non-overlapping
      occurrences of `pat`. The result is never longer, and is `s` itself when `pat` does not occur in `s`. */
  function RemoveAll(s: string, pat: string): (r: string)
    requires |pat| > 0
    ensures |r| <= |s|
    ensures !Contains(s, pat) ==> r == s
    decreases |s|
  {
    if |s| == 0 then s
    else if StartsWith(s, pat) then
      var rest := RemoveAll(s[|pat|..], pat);
      assert OccursAt(s, pat, 0);
      rest
    else
      var rest := RemoveAll(s[1..], pat);
      TailContainsOnlyIfWhole(s, pat);
      [s[0]] + rest
  }

  /** An occurrence of `pat` at the front is deleted and the pass resumes
      right after it. */
  lemma RemoveAllDropsLeadingOccurrence(pat: string, s: string)
    requires |pat| > 0
    ensures RemoveAll(pat + s, pat) == RemoveAll(s, pat)
  {
    var t := pat + s;
    assert t[..|pat|] == pat;
    assert t[|pat|..] == s;
  }

  /** Text before the first occurrence of `pat` is kept as it is. */
  lemma {:induction false} RemoveAllKeepsPrefixBeforeOccurrence(a: string, s: string, pat: string)
    requires |pat| > 0
    requires forall i :: 0 <= i < |a| ==> !OccursAt(a + s, pat, i)
    ensures RemoveAll(a + s, pat) == a + RemoveAll(s, pat)
    decreases |a|
  {
    if |a| > 0 {
      var t := a + s;
      assert !OccursAt(t, pat, 0);
      assert t[1..] == a[1..] + s;
      NoEarlyOccurrenceInTail(a, s, pat);
      RemoveAllKeepsPrefixBeforeOccurrence(a[1..], s, pat);
      var rest := RemoveAll(s, pat);
      RemoveAllKeepsFirstChar(t, pat);
      assert RemoveAll(t, pat) == [t[0]] + (a[1..] + rest);
      assert [t[0]] + (a[1..] + rest) == ([a[0]] + a[1..]) + rest;
      assert [a[0]] + a[1..] == a;
    } else {
      assert a + s == s;
    }
  }

  /** A first character that does not start an occurrence is kept. */
  lemma RemoveAllKeepsFirstChar(t: string, pat: string)
    requires |pat| > 0 && |t| > 0 && !OccursAt(t, pat, 0)
    ensures RemoveAll(t, pat) == [t[0]] + RemoveAll(t[1..], pat)
  {
  }

  lemma NoEarlyOccurrenceInTail(a: string, s: string, pat: string)
    requires |a| > 0
    requires forall i :: 0 <= i < |a| ==> !OccursAt(a + s, pat, i)
    ensures forall i :: 0 <= i < |a[1..]| ==> !OccursAt(a[1..] + s, pat, i)
  {
    var t := a + s;
    assert t[1..] == a[1..] + s;
    forall i | 0 <= i < |a[1..]| ensures !OccursAt(t[1..], pat, i) {
      OccurrenceShifts(t, pat, i);
    }
  }

  /** An occurrence in `t[1..]` at `i` is an occurrence in `t` at `i + 1`. */
  lemma OccurrenceShifts(t: string, pat: string, i: int)
    requires |t| > 0 && 0 <= i
    ensures OccursAt(t[1..], pat, i) ==> OccursAt(t, pat, i + 1)
  {
    if OccursAt(t[1..], pat, i) {
      assert t[1..][i..i + |pat|] == t[i + 1..i + 1 + |pat|];
    }
  }

  /** `s.replace(pat, "")` where the first occurrence of `pat` starts at `|a|`:
      everything before it is kept, the occurrence is deleted, and the pass
      continues on what follows. */
  lemma RemoveAllAtFirstOccurrence(a: string, s: string, pat: string)
    requires |pat| > 0
    requires forall i :: 0 <= i < |a| ==> !OccursAt(a + (pat + s), pat, i)
    ensures RemoveAll(a + (pat + s), pat) == a + RemoveAll(s, pat)
  {
    RemoveAllKeepsPrefixBeforeOccurrence(a, pat + s, pat);
    RemoveAllDropsLeadingOccurrence(pat, s);
  }

  /** An occurrence in `s[1..]` is an occurrence in `s`. */
  lemma TailContainsOnlyIfWhole(s: string, pat: string)
    requires |s| > 0
    ensures Contains(s[1..], pat) ==> Contains(s, pat)
  {
    if Contains(s[1..], pat) {
      var i :| 0 <= i <= |s[1..]| && OccursAt(s[1..], pat, i);
      assert s[i + 1..i + 1 + |pat|] == s[1..][i..i + |pat|];
      assert OccursAt(s, pat, i + 1);
    }
  }

  // ---- sep.join(parts) and s.split(sep) ----

  /** `sep.join(parts)` for a one-character separator. */
  function Join(parts: seq<string>, sep: char): (r: string)
    ensures |parts| == 0 ==> r == ""
    ensures |parts| == 1 ==> r == parts[0]
    ensures |parts| >= 1 ==> StartsWith(r, parts[0])
    ensures |parts| >= 2 ==> |parts[0]| < |r| && r[|parts[0]|] == sep
    decreases |parts|
  {
    if |parts| == 0 then ""
    else if |parts| == 1 then parts[0]
    else parts[0] + [sep] + Join(parts[1..], sep)
  }

  /** `s.split(sep)`: the pieces between separators, never an empty list and
      never a piece containing the separator. */
  function Split(s: string, sep: char): (r: seq<string>)
    ensures |r| >= 1
    ensures forall i :: 0 <= i < |r| ==> sep !in r[i]
    decreases |s|
  {
    if |s| == 0 then [""]
    else if s[0] == sep then [""] + Split(s[1..], sep)
    else
      var t := Split(s[1..], sep);
      [[s[0]] + t[0]] + t[1..]
  }

  /** Joining the pieces of a split gives back the string. */
  lemma {:induction false} JoinSplit(s: string, sep: char)
    ensures Join(Split(s, sep), sep) == s
    decreases |s|
  {
    if |s| == 0 {
    } else if s[0] == sep {
      var t := Split(s[1..], sep);
      JoinSplit(s[1..], sep);
      assert ([""] + t)[1..] == t;
      assert Join([""] + t, sep) == "" + [sep] + Join(t, sep);
    } else {
      var t := Split(s[1..], sep);
      JoinSplit(s[1..], sep);
      var r := [[s[0]] + t[0]] + t[1..];
      if |t| == 1 {
        assert Join(t, sep) == t[0];
      } else {
        assert r[1..] == t[1..];
        assert Join(t, sep) == t[0] + [sep] + Join(t[1..], sep);
      }
    }
  }

  /** Splitting `a + [sep] + b`, where `a` has no separator, yields `a` first. */
  lemma {:induction false} SplitAtFirstSeparator(a: string, b: string, sep: char)
    requires sep !in a
    ensures Split(a + [sep] + b, sep) == [a] + Split(b, sep)
    decreases |a|
  {
    if |a| == 0 {
      assert a + [sep] + b == [sep] + b;
      assert ([sep] + b)[1..] == b;
    } else {
      var s := a + [sep] + b;
      assert s[0] == a[0];
      assert s[1..] == a[1..] + [sep] + b;
      SplitAtFirstSeparator(a[1..], b, sep);
      assert [a[0]] + a[1..] == a;
    }
  }

  /** Splitting a join gives back the parts, when there is at least one part
      and no part contains the separator. */
  lemma {:induction false} SplitJoin(parts: seq<string>, sep: char)
    requires |parts| >= 1
    requires forall i :: 0 <= i < |parts| ==> sep !in parts[i]
    ensures Split(Join(parts, sep), sep) == parts
    decreases |parts|
  {
    if |parts| == 1 {
      SplitWithoutSeparator(parts[0], sep);
    } else {
      SplitAtFirstSeparator(parts[0], Join(parts[1..], sep), sep);
      SplitJoin(parts[1..], sep);
      assert [parts[0]] + parts[1..] == parts;
    }
  }

  lemma {:induction false} SplitWithoutSeparator(s: string, sep: char)
    requires sep !in s
    ensures Split(s, sep) == [s]
    decreases |s|
  {
    if |s| > 0 {
      SplitWithoutSeparator(s[1..], sep);
      assert [s[0]] + s[1..] == s;
    }
  }
}
