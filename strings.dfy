/**
 * The handful of Python `str` operations the handler relies on, on `seq<char>`:
 * `strip()`, `split(c)[0]`, `replace(pat, rep)` and the `in` test for substrings.
 */
module Strings {

  // ---------------------------------------------------------------------------
  // Whitespace and strip()
  // ---------------------------------------------------------------------------

  /**
   * Python's `str.isspace()`: the characters that `str.strip()` without arguments
   * removes (tab to carriage return, the four information separators, space, NEL,
   * no-break space and the Unicode space separators).
   */
  predicate IsSpace(c: char)
  {
    || ('\t' <= c <= '\r')
    || ('\U{1C}' <= c <= ' ')
    || c == '\U{85}' || c == '\U{A0}' || c == '\U{1680}'
    || ('\U{2000}' <= c <= '\U{200A}')
    || c == '\U{2028}' || c == '\U{2029}' || c == '\U{202F}' || c == '\U{205F}'
    || c == '\U{3000}'
  }

  predicate AllSpace(s: string)
  {
    forall i :: 0 <= i < |s| ==> IsSpace(s[i])
  }

  /** Neither the first nor the last character is whitespace. */
  predicate Bare(s: string)
  {
    s == [] || (!IsSpace(s[0]) && !IsSpace(s[|s| - 1]))
  }

  /** `s.lstrip()`: does not start with whitespace (see TrimLeftIsSuffix, TrimLeftUnique). */
  function TrimLeft(s: string): (r: string)
    ensures |r| <= |s|
    ensures r == [] || !IsSpace(r[0])
  {
    if s != [] && IsSpace(s[0]) then TrimLeft(s[1..]) else s
  }

  /** lstrip drops an all-whitespace prefix and keeps the rest. */
  lemma {:induction false} TrimLeftIsSuffix(s: string)
    ensures TrimLeft(s) == s[|s| - |TrimLeft(s)|..]
    ensures AllSpace(s[..|s| - |TrimLeft(s)|])
    decreases |s|
  {
    if s != [] && IsSpace(s[0]) {
      var r := TrimLeft(s[1..]);
      TrimLeftIsSuffix(s[1..]);
      assert s[..|s| - |r|] == [s[0]] + s[1..][..|s| - 1 - |r|];
    }
  }

  /** `s.rstrip()`: the prefix left after dropping the trailing whitespace. */
  function TrimRight(s: string): (r: string)
    ensures |r| <= |s| && r == s[..|r|]
    ensures s != [] && !IsSpace(s[0]) ==> r != []
    ensures AllSpace(s[|r|..])
    ensures r == [] || !IsSpace(r[|r| - 1])
  {
    if s != [] && IsSpace(s[|s| - 1]) then
      var r := TrimRight(s[..|s| - 1]);
      assert s[|r|..] == s[..|s| - 1][|r|..] + [s[|s| - 1]];
      r
    else
      s
  }

  /** `s.strip()`: neither starts nor ends with whitespace (see StripIsSlice, StripUnique). */
  function Strip(s: string): (r: string)
    ensures Bare(r) && |r| <= |s|
  {
    TrimRight(TrimLeft(s))
  }

  /** The strip of `s` is a slice of `s` whose surroundings are all whitespace. */
  lemma StripIsSlice(s: string)
    ensures exists i, j :: 0 <= i <= j <= |s| && Strip(s) == s[i..j] && AllSpace(s[..i]) && AllSpace(s[j..])
  {
    var t := TrimLeft(s);
    TrimLeftIsSuffix(s);
    var r := TrimRight(t);
    var i := |s| - |t|;
    assert r == s[i..i + |r|] && s[i + |r|..] == t[|r|..];
  }

  /** A suffix after an all-whitespace prefix that does not start with whitespace is the lstrip. */
  lemma {:induction false} TrimLeftUnique(s: string, i: nat)
    requires i <= |s| && AllSpace(s[..i]) && (i == |s| || !IsSpace(s[i]))
    ensures TrimLeft(s) == s[i..]
    decreases i
  {
    if i > 0 {
      assert s[..i][0] == s[0];
      assert s[1..][..i - 1] == s[1..i] == s[..i][1..];
      assert i - 1 < |s[1..]| ==> s[1..][i - 1] == s[i];
      TrimLeftUnique(s[1..], i - 1);
      assert s[1..][i - 1..] == s[i..];
    }
  }

  /** A prefix before an all-whitespace suffix that does not end with whitespace is the rstrip. */
  lemma {:induction false} TrimRightUnique(s: string, j: nat)
    requires j <= |s| && AllSpace(s[j..]) && (j == 0 || !IsSpace(s[j - 1]))
    ensures TrimRight(s) == s[..j]
    decreases |s| - j
  {
    if j < |s| {
      var s' := s[..|s| - 1];
      assert s[j..][|s| - 1 - j] == s[|s| - 1];
      assert s'[j..] == s[j..|s| - 1];
      assert forall k :: 0 <= k < |s'[j..]| ==> s'[j..][k] == s[j..][k];
      TrimRightUnique(s', j);
      assert s'[..j] == s[..j];
    }
  }

  /** The contract of Strip determines its result: any such slice is the strip. */
  lemma StripUnique(s: string, i: nat, j: nat)
    requires i <= j <= |s|
    requires AllSpace(s[..i]) && AllSpace(s[j..]) && Bare(s[i..j])
    ensures Strip(s) == s[i..j]
  {
    if i < j {
      StripAround(s, i, j);
    } else {
      forall k | 0 <= k < |s| ensures IsSpace(s[k]) {
        if k < i { assert s[..i][k] == s[k]; } else { assert s[j..][k - j] == s[k]; }
      }
      StripAllSpace(s);
    }
  }

  lemma StripAround(s: string, i: nat, j: nat)
    requires i < j <= |s|
    requires AllSpace(s[..i]) && AllSpace(s[j..]) && !IsSpace(s[i]) && !IsSpace(s[j - 1])
    ensures Strip(s) == s[i..j]
  {
    TrimLeftUnique(s, i);
    var t := s[i..];
    assert t[j - i..] == s[j..] && t[j - i - 1] == s[j - 1];
    TrimRightUnique(t, j - i);
    assert t[..j - i] == s[i..j];
  }

  lemma StripAllSpace(s: string)
    requires AllSpace(s)
    ensures Strip(s) == []
  {
    assert s[..|s|] == s;
    TrimLeftUnique(s, |s|);
  }

  /** Leading whitespace of `a` is all lstrip removes when a non-space follows `a`. */
  lemma {:induction false} TrimLeftAppend(a: string, t: string)
    requires t != [] && !IsSpace(t[0])
    ensures TrimLeft(a + t) == TrimLeft(a) + t
    decreases |a|
  {
    if a == [] {
      assert a + t == t;
    } else if IsSpace(a[0]) {
      assert (a + t)[1..] == a[1..] + t;
      TrimLeftAppend(a[1..], t);
    }
  }

  /** rstrip only looks at the end: a prefix in front of a part that survives is kept. */
  lemma {:induction false} TrimRightAppend(x: string, y: string)
    requires TrimRight(y) != []
    ensures TrimRight(x + y) == x + TrimRight(y)
    decreases |y|
  {
    if IsSpace(y[|y| - 1]) {
      assert (x + y)[..|x + y| - 1] == x + y[..|y| - 1];
      TrimRightAppend(x, y[..|y| - 1]);
    }
  }

  /** Before a part that starts with a non-space, only lstrip acts; after it, only rstrip. */
  lemma StripJoin(a: string, y: string)
    requires y != [] && !IsSpace(y[0])
    ensures Strip(a + y) == TrimLeft(a) + TrimRight(y)
  {
    TrimLeftAppend(a, y);
    TrimRightAppend(TrimLeft(a), y);
  }

  /** A non-space character shields what precedes it from rstrip and what follows from lstrip. */
  lemma StripAroundChar(a: string, c: char, b: string)
    requires !IsSpace(c)
    ensures Strip(a + [c] + b) == TrimLeft(a) + [c] + TrimRight([c] + b)[1..]
  {
    var y := [c] + b;
    assert a + [c] + b == a + y;
    StripJoin(a, y);
    TrimRightKeepsHead(c, b);
    var w := TrimRight(y);
    assert TrimLeft(a) + ([c] + w[1..]) == TrimLeft(a) + [c] + w[1..];
  }

  /** rstrip never removes a non-space first character. */
  lemma TrimRightKeepsHead(c: char, b: string)
    requires !IsSpace(c)
    ensures TrimRight([c] + b) == [c] + TrimRight([c] + b)[1..]
  {
    var w := TrimRight([c] + b);
    assert w[0] == ([c] + b)[0] == c;
  }

  /** Stripping a string that has no whitespace border changes nothing. */
  lemma StripBare(s: string)
    requires Bare(s)
    ensures Strip(s) == s
  {
    assert s[..0] == [] && s[|s|..] == [] && s[0..|s|] == s;
    StripUnique(s, 0, |s|);
  }

  // ---------------------------------------------------------------------------
  // Substrings
  // ---------------------------------------------------------------------------

  /** `pat` occurs in `s` starting at index `i`. */
  predicate OccursAt(s: string, pat: string, i: nat)
  {
    i + |pat| <= |s| && s[i..i + |pat|] == pat
  }

  /** Python's `pat in s`. */
  predicate Contains(s: string, pat: string)
  {
    exists i :: 0 <= i <= |s| && OccursAt(s, pat, i)
  }

  /** An occurrence in a slice is an occurrence in the whole string. */
  lemma ContainsSlice(s: string, i: nat, j: nat, pat: string)
    requires i <= j <= |s|
    ensures Contains(s[i..j], pat) ==> Contains(s, pat)
  {
    if Contains(s[i..j], pat) {
      var t := s[i..j];
      var k :| 0 <= k <= |t| && OccursAt(t, pat, k);
      assert k + |pat| <= |t| && t[k..k + |pat|] == pat;
      assert forall m :: 0 <= m < |pat| ==> s[i + k..i + k + |pat|][m] == pat[m];
      assert OccursAt(s, pat, i + k);
    }
  }

  /** A character absent from `s` is absent from every slice of it. */
  lemma NotInSlice(s: string, c: char, i: nat, j: nat)
    requires i <= j <= |s| && c !in s
    ensures c !in s[i..j]
  {
    forall k | 0 <= k < j - i ensures s[i..j][k] != c {
      assert s[i..j][k] == s[i + k];
    }
  }

  /** Occurrences in the tail of `s` are the occurrences in `s` shifted by one. */
  lemma OccursAtShift(s: string, pat: string, k: nat)
    requires s != []
    ensures OccursAt(s[1..], pat, k) <==> OccursAt(s, pat, k + 1)
  {
    if k + 1 + |pat| <= |s| {
      assert s[1..][k..k + |pat|] == s[k + 1..k + 1 + |pat|];
    }
  }

  /** The tail of a string without `pat` has no `pat` either. */
  lemma NotContainsTail(s: string, pat: string)
    requires s != [] && !Contains(s, pat)
    ensures !Contains(s[1..], pat)
  {
    forall k | 0 <= k <= |s[1..]| ensures !OccursAt(s[1..], pat, k) {
      OccursAtShift(s, pat, k);
    }
  }

  /** A string that holds `p + q` holds `p`. */
  lemma ContainsPrefixOfPattern(s: string, p: string, q: string)
    ensures Contains(s, p + q) ==> Contains(s, p)
  {
    if Contains(s, p + q) {
      var k :| 0 <= k <= |s| && OccursAt(s, p + q, k);
      assert s[k..k + |p|] == s[k..k + |p + q|][..|p|] == (p + q)[..|p|] == p;
      assert OccursAt(s, p, k);
    }
  }

  /** A pattern that starts with a character absent from `s` does not occur in `s`. */
  lemma AbsentLeadDisallows(s: string, pat: string)
    requires pat != [] && pat[0] !in s
    ensures !Contains(s, pat)
  {
    forall k | 0 <= k <= |s| ensures !OccursAt(s, pat, k) {
      if k + |pat| <= |s| {
        assert s[k..k + |pat|][0] == s[k];
      }
    }
  }

  // ---------------------------------------------------------------------------
  // split(c)[0]
  // ---------------------------------------------------------------------------

  /**
   * `s.split(c)[0]`: the longest prefix of `s` without `c`; it stops either at
   * the end of `s` or just before the first `c`.
   */
  function PrefixBeforeFirst(s: string, c: char): (r: string)
    ensures |r| <= |s| && r == s[..|r|]
    ensures c !in r
    ensures |r| == |s| || s[|r|] == c
  {
    if s == [] || s[0] == c then [] else [s[0]] + PrefixBeforeFirst(s[1..], c)
  }

  /** Whatever follows the first `c` has no influence on the prefix. */
  lemma {:induction false} PrefixBeforeFirstStops(u: string, c: char, w: string)
    requires c !in u
    ensures PrefixBeforeFirst(u + [c] + w, c) == u
  {
    if u != [] {
      assert (u + [c] + w)[1..] == u[1..] + [c] + w;
      PrefixBeforeFirstStops(u[1..], c, w);
    }
  }

  // ---------------------------------------------------------------------------
  // replace(pat, rep)
  // ---------------------------------------------------------------------------

  /**
   * `s.replace(pat, rep)` for a non-empty `pat`: scanning from the left, every
   * occurrence of `pat` that does not overlap an earlier replaced one becomes
   * `rep`.
   */
  function ReplaceAll(s: string, pat: string, rep: string): (r: string)
    requires pat != []
    ensures rep == [] ==> |r| <= |s|
    decreases |s|
  {
    if |s| < |pat| then s
    else if s[..|pat|] == pat then rep + ReplaceAll(s[|pat|..], pat, rep)
    else [s[0]] + ReplaceAll(s[1..], pat, rep)
  }

  /** Every character of the result comes from `s` or from `rep`. */
  lemma {:induction false} ReplaceAllChars(s: string, pat: string, rep: string, x: char)
    requires pat != []
    ensures x in ReplaceAll(s, pat, rep) ==> x in s || x in rep
    decreases |s|
  {
    if |s| < |pat| {
    } else if s[..|pat|] == pat {
      ReplaceAllChars(s[|pat|..], pat, rep, x);
      assert x in s[|pat|..] ==> x in s;
    } else {
      ReplaceAllChars(s[1..], pat, rep, x);
      assert x in s[1..] ==> x in s;
    }
  }

  /** With no occurrence of `pat`, replace changes nothing. */
  lemma {:induction false} ReplaceAllAbsent(s: string, pat: string, rep: string)
    requires pat != [] && !Contains(s, pat)
    ensures ReplaceAll(s, pat, rep) == s
    decreases |s|
  {
    if |s| >= |pat| {
      assert !OccursAt(s, pat, 0);
      NotContainsTail(s, pat);
      ReplaceAllAbsent(s[1..], pat, rep);
    }
  }

  /**
   * Leftmost matching: when the first occurrence of `pat` is at `i`, the text
   * before it is kept, that occurrence becomes `rep`, and the scan resumes
   * right after it.
   */
  lemma {:induction false} ReplaceAllLeftmost(s: string, pat: string, rep: string, i: nat)
    requires pat != [] && OccursAt(s, pat, i)
    requires forall k :: 0 <= k < i ==> !OccursAt(s, pat, k)
    ensures ReplaceAll(s, pat, rep) == s[..i] + rep + ReplaceAll(s[i + |pat|..], pat, rep)
    decreases i
  {
    if i == 0 {
      assert s[..|pat|] == pat && s[..0] == [];
    } else {
      FirstOccurrenceShift(s, pat, i);
      var t := s[1..];
      var u := t[i - 1 + |pat|..];
      assert u == s[i + |pat|..];
      var rest := ReplaceAll(u, pat, rep);
      calc {
        ReplaceAll(s, pat, rep);
        { ReplaceAllSkip(s, pat, rep); }
        [s[0]] + ReplaceAll(t, pat, rep);
        { ReplaceAllLeftmost(t, pat, rep, i - 1); }
        [s[0]] + (t[..i - 1] + rep + rest);
        { ConsAssoc(s[0], t[..i - 1], rep, rest); }
        ([s[0]] + t[..i - 1]) + rep + rest;
        { assert [s[0]] + t[..i - 1] == s[..i]; }
        s[..i] + rep + rest;
      }
    }
  }

  lemma ConsAssoc(c: char, a: string, b: string, d: string)
    ensures [c] + (a + b + d) == ([c] + a) + b + d
  {
  }

  /** The first occurrence of `pat` moves one place left when the first character goes. */
  lemma FirstOccurrenceShift(s: string, pat: string, i: nat)
    requires pat != [] && 0 < i && OccursAt(s, pat, i)
    requires forall k :: 0 <= k < i ==> !OccursAt(s, pat, k)
    ensures |s| >= |pat| && !OccursAt(s, pat, 0)
    ensures OccursAt(s[1..], pat, i - 1)
    ensures forall k :: 0 <= k < i - 1 ==> !OccursAt(s[1..], pat, k)
  {
    assert !OccursAt(s, pat, 0);
    OccursAtShift(s, pat, i - 1);
    forall k | 0 <= k < i - 1 ensures !OccursAt(s[1..], pat, k) {
      OccursAtShift(s, pat, k);
    }
  }

  /** Where `pat` does not start at the front, the first character is kept. */
  lemma ReplaceAllSkip(s: string, pat: string, rep: string)
    requires pat != [] && |s| >= |pat| && !OccursAt(s, pat, 0)
    ensures ReplaceAll(s, pat, rep) == [s[0]] + ReplaceAll(s[1..], pat, rep)
  {
    assert s[..|pat|] != pat;
  }

  /** A final character that `pat` cannot contain is never part of a match. */
  lemma {:induction false} ReplaceAllKeepsForeignLast(a: string, pat: string, rep: string, c: char)
    requires pat != [] && c !in pat
    ensures ReplaceAll(a + [c], pat, rep) == ReplaceAll(a, pat, rep) + [c]
    decreases |a|
  {
    var s := a + [c];
    if |s| < |pat| {
    } else if s[..|pat|] == pat {
      assert s[|pat| - 1] == pat[|pat| - 1] && pat[|pat| - 1] in pat;
      assert a[..|pat|] == pat;
      assert s[|pat|..] == a[|pat|..] + [c];
      ReplaceAllKeepsForeignLast(a[|pat|..], pat, rep, c);
    } else if a == [] {
      assert s == [c] && s[1..] == [];
    } else {
      assert s[1..] == a[1..] + [c];
      ReplaceAllKeepsForeignLast(a[1..], pat, rep, c);
      if |a| >= |pat| {
        assert a[..|pat|] == s[..|pat|];
      } else {
        assert ReplaceAll(a[1..], pat, rep) == a[1..];
      }
    }
  }

  // ---------------------------------------------------------------------------
  // Removing a run pattern c^n leaves no run of n c's
  // ---------------------------------------------------------------------------

  /** The string of `n` copies of `c`. */
  function Repeat(c: char, n: nat): (r: string)
    ensures |r| == n && forall k :: 0 <= k < n ==> r[k] == c
  {
    if n == 0 then [] else [c] + Repeat(c, n - 1)
  }

  /** The length of the run of `c` at the start of `s`. */
  function LeadingRun(s: string, c: char): (n: nat)
    ensures n <= |s| && s[..n] == Repeat(c, n)
    ensures n == |s| || s[n] != c
  {
    if s != [] && s[0] == c then
      var n := 1 + LeadingRun(s[1..], c);
      assert s[..n] == [c] + s[1..][..n - 1];
      n
    else
      0
  }

  /** `s` starts with `n` copies of `c` exactly when its leading run is at least `n`. */
  lemma RunCoversPrefix(s: string, c: char, n: nat)
    requires n <= |s|
    ensures s[..n] == Repeat(c, n) <==> LeadingRun(s, c) >= n
  {
    var m := LeadingRun(s, c);
    if m >= n {
      assert s[..n] == s[..m][..n];
    } else {
      assert s[..n][m] != Repeat(c, n)[m];
    }
  }

  /** Prepending one character to a run-free string keeps it run-free unless it completes a run. */
  lemma ConsKeepsRunFree(x: char, t: string, c: char, n: nat)
    requires 1 <= n && !Contains(t, Repeat(c, n))
    requires x == c ==> LeadingRun(t, c) < n - 1
    ensures !Contains([x] + t, Repeat(c, n))
  {
    var p := Repeat(c, n);
    RunNotAtFront(x, t, c, n);
    forall i | 1 <= i <= |[x] + t| ensures !OccursAt([x] + t, p, i) {
      assert !OccursAt(t, p, i - 1);
      OccursAtCons(x, t, p, i - 1);
    }
  }

  /** A run of n copies of `c` cannot start at an `x` followed by fewer than n - 1 copies. */
  lemma RunNotAtFront(x: char, t: string, c: char, n: nat)
    requires 1 <= n
    requires x == c ==> LeadingRun(t, c) < n - 1
    ensures !OccursAt([x] + t, Repeat(c, n), 0)
  {
    var s := [x] + t;
    if n <= |s| {
      if x == c {
        var m := LeadingRun(t, c);
        assert s[m + 1] == t[m] != c;
        assert s[..n][m + 1] != Repeat(c, n)[m + 1];
      } else {
        assert s[..n][0] == x;
      }
    }
  }

  lemma OccursAtCons(x: char, t: string, pat: string, k: nat)
    ensures OccursAt([x] + t, pat, k + 1) <==> OccursAt(t, pat, k)
  {
    if k + |pat| <= |t| {
      assert ([x] + t)[k + 1..k + 1 + |pat|] == t[k..k + |pat|];
    }
  }

  /** Removing every c^n from a string whose leading run is short leaves that run as it was. */
  lemma {:induction false} RemovalKeepsShortRun(s: string, c: char, n: nat)
    requires 1 <= n && LeadingRun(s, c) < n
    ensures LeadingRun(ReplaceAll(s, Repeat(c, n), ""), c) == LeadingRun(s, c)
    decreases |s|
  {
    var p := Repeat(c, n);
    if |s| >= n {
      RunCoversPrefix(s, c, n);
      assert ReplaceAll(s, p, "") == [s[0]] + ReplaceAll(s[1..], p, "");
      if s[0] == c {
        RemovalKeepsShortRun(s[1..], c, n);
      }
    }
  }

  /**
   * After removing every c^n (leftmost, non-overlapping) no c^n is left. This
   * relies on the pattern being one repeated character: for a general pattern
   * it fails (see ReplaceAllMayRecreate).
   */
  lemma {:induction false} RemovalLeavesNoRun(s: string, c: char, n: nat)
    requires 1 <= n
    ensures !Contains(ReplaceAll(s, Repeat(c, n), ""), Repeat(c, n))
    decreases |s|
  {
    var p := Repeat(c, n);
    if |s| < n {
      assert ReplaceAll(s, p, "") == s;
    } else if s[..n] == p {
      assert ReplaceAll(s, p, "") == ReplaceAll(s[n..], p, "");
      RemovalLeavesNoRun(s[n..], c, n);
    } else {
      RemovalLeavesNoRun(s[1..], c, n);
      var t := ReplaceAll(s[1..], p, "");
      if s[0] == c {
        RunCoversPrefix(s, c, n);
        RemovalKeepsShortRun(s[1..], c, n);
      }
      ConsKeepsRunFree(s[0], t, c, n);
    }
  }

  /** For a pattern of two different characters, removal can create a new occurrence. */
  lemma ReplaceAllMayRecreate()
    ensures ReplaceAll("aabb", "ab", "") == "ab"
    ensures Contains(ReplaceAll("aabb", "ab", ""), "ab")
  {
    assert "aabb"[..2] == "aa" && "aabb"[1..] == "abb";
    assert "abb"[..2] == "ab" && "abb"[2..] == "b";
    assert ReplaceAll("abb", "ab", "") == "b";
    assert OccursAt("ab", "ab", 0);
  }
}
