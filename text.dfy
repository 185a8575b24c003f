/**
  The three string operations of Python's `str` that the chat script relies on:
  `lower()` (on ASCII letters), the substring test `pat in text`, and `strip()`.
 */
module Text {

  /** `c.lower()` for ASCII letters; every other character is left alone. */
  function LowerChar(c: char): char {
    if 'A' <= c <= 'Z' then (c as int - 'A' as int + 'a' as int) as char else c
  }

  /** `s.lower()`: the string with every ASCII capital replaced by its small letter. */
  function Lower(s: string): (r: string)
    ensures |r| == |s|
    ensures forall i :: 0 <= i < |s| ==> r[i] == LowerChar(s[i])
  {
    seq(|s|, i requires 0 <= i < |s| => LowerChar(s[i]))
  }

  /** Lowercasing twice is lowercasing once. */
  lemma LowerIdempotent(s: string)
    ensures Lower(Lower(s)) == Lower(s)
  {
    assert forall i :: 0 <= i < |s| ==> Lower(Lower(s))[i] == Lower(s)[i];
  }

  /** Lowercasing works character by character, so it distributes over concatenation. */
  lemma LowerAppend(a: string, b: string)
    ensures Lower(a + b) == Lower(a) + Lower(b)
  {
    assert forall i :: 0 <= i < |a + b| ==> Lower(a + b)[i] == (Lower(a) + Lower(b))[i];
  }

  /** `pat` occurs in `text` starting at position `i`. */
  predicate OccursAt(text: string, pat: string, i: int) {
    0 <= i && i + |pat| <= |text| && text[i..i + |pat|] == pat
  }

  /** An occurrence in `text[1..]` is an occurrence in `text` one position later, and back. */
  lemma OccursShift(text: string, pat: string)
    requires text != []
    ensures forall j :: 0 <= j ==> (OccursAt(text[1..], pat, j) <==> OccursAt(text, pat, j + 1))
  {
    forall j | 0 <= j
      ensures OccursAt(text[1..], pat, j) <==> OccursAt(text, pat, j + 1)
    {
      if 0 <= j && j + |pat| <= |text| - 1 {
        assert text[1..][j..j + |pat|] == text[j + 1..j + 1 + |pat|];
      }
    }
  }

  /** Python's substring test `pat in text`: true exactly when `pat` occurs somewhere in `text`. */
  function Contains(text: string, pat: string): (r: bool)
    ensures r <==> exists i :: OccursAt(text, pat, i)
    decreases |text|
  {
    if |pat| > |text| then
      false
    else if text[..|pat|] == pat then
      assert OccursAt(text, pat, 0);
      true
    else
      OccursShift(text, pat);
      assert !OccursAt(text, pat, 0);
      assert forall i :: OccursAt(text, pat, i) ==> OccursAt(text[1..], pat, i - 1);
      Contains(text[1..], pat)
  }

  /** Text around an occurrence never hides it: `pat in text` implies `pat in a + text + b`. */
  lemma ContainsInContext(a: string, text: string, b: string, pat: string)
    requires Contains(text, pat)
    ensures Contains(a + text + b, pat)
  {
    var i :| OccursAt(text, pat, i);
    assert (a + text + b)[|a| + i..|a| + i + |pat|] == text[i..i + |pat|];
    assert OccursAt(a + text + b, pat, |a| + i);
  }

  /** The empty text contains no non-empty pattern. */
  lemma EmptyContainsNothing(pat: string)
    requires pat != []
    ensures !Contains([], pat)
  {
  }

  /** A pattern with a character that the text lacks does not occur in the text. */
  lemma MissingCharRulesOut(text: string, pat: string, c: char)
    requires c in pat && c !in text
    ensures !Contains(text, pat)
  {
    var k :| 0 <= k < |pat| && pat[k] == c;
    forall i
      ensures !OccursAt(text, pat, i)
    {
      if 0 <= i && i + |pat| <= |text| {
        assert text[i..i + |pat|][k] == text[i + k];
      }
    }
  }

  /** A pattern with a part that the text lacks does not occur in the text. */
  lemma PartRulesOut(text: string, pat: string, part: string)
    requires Contains(pat, part) && !Contains(text, part)
    ensures !Contains(text, pat)
  {
    var k :| OccursAt(pat, part, k);
    forall i
      ensures !OccursAt(text, pat, i)
    {
      if 0 <= i && i + |pat| <= |text| {
        assert !OccursAt(text, part, i + k);
        var m :| 0 <= m < |part| && text[i + k + m] != part[m];
        assert text[i..i + |pat|][k + m] != pat[k + m];
      }
    }
  }

  /** No position from `k` on holds `x` immediately followed by `y`. */
  predicate PairFreeFrom(s: string, x: char, y: char, k: nat)
    decreases |s| - k
  {
    k + 1 >= |s| || (!(s[k] == x && s[k + 1] == y) && PairFreeFrom(s, x, y, k + 1))
  }

  /** `PairFreeFrom` is the search for the two-letter pattern `[x, y]` from position `k` on. */
  lemma {:induction false} PairFreeFromIsAbsent(s: string, x: char, y: char, k: nat)
    ensures PairFreeFrom(s, x, y, k) <==> forall i :: k <= i ==> !OccursAt(s, [x, y], i)
    decreases |s| - k
  {
    if k + 1 < |s| {
      PairFreeFromIsAbsent(s, x, y, k + 1);
      assert s[k..k + 2] == [s[k], s[k + 1]];
      assert OccursAt(s, [x, y], k) <==> s[k] == x && s[k + 1] == y;
      assert (forall i :: k <= i ==> !OccursAt(s, [x, y], i))
        <==> !OccursAt(s, [x, y], k) && forall i :: k + 1 <= i ==> !OccursAt(s, [x, y], i);
    }
  }

  /** For a two-letter pattern, `PairFreeFrom` from the start decides `pat in s`. */
  lemma PairSearch(s: string, pat: string)
    requires |pat| == 2
    ensures PairFreeFrom(s, pat[0], pat[1], 0) <==> !Contains(s, pat)
  {
    assert pat == [pat[0], pat[1]];
    PairFreeFromIsAbsent(s, pat[0], pat[1], 0);
  }

  /** A pattern without spaces found in neither `a` nor `b` is not found in `a + " " + b`. */
  lemma SpacedLacksPart(a: string, b: string, pat: string)
    requires forall k :: 0 <= k < |pat| ==> pat[k] != ' '
    requires !Contains(a, pat) && !Contains(b, pat)
    ensures !Contains(a + " " + b, pat)
  {
    var t := a + " " + b;
    forall i
      ensures !OccursAt(t, pat, i)
    {
      SpacedWindow(a, b, pat, i);
    }
  }

  /** One window of `a + " " + b`: it lies in `a`, covers the space, or lies in `b`. */
  lemma SpacedWindow(a: string, b: string, pat: string, i: int)
    requires forall k :: 0 <= k < |pat| ==> pat[k] != ' '
    requires forall k :: !OccursAt(a, pat, k)
    requires forall k :: !OccursAt(b, pat, k)
    ensures !OccursAt(a + " " + b, pat, i)
  {
    var t := a + " " + b;
    if 0 <= i && i + |pat| <= |t| {
      if i + |pat| <= |a| {
        assert !OccursAt(a, pat, i);
        var m :| 0 <= m < |pat| && a[i + m] != pat[m];
        assert t[i..i + |pat|][m] == a[i + m];
      } else if i <= |a| {
        assert t[i..i + |pat|][|a| - i] == ' ';
      } else {
        var j := i - |a| - 1;
        assert !OccursAt(b, pat, j);
        var m :| 0 <= m < |pat| && b[j + m] != pat[m];
        assert t[i..i + |pat|][m] == b[j + m];
      }
    }
  }

  /** Python's `c.isspace()`: the ASCII whitespace and separators and the Unicode space characters. */
  predicate IsSpace(c: char) {
    || '\U{9}' <= c <= '\U{D}'
    || '\U{1C}' <= c <= '\U{20}'
    || c == '\U{85}' || c == '\U{A0}' || c == '\U{1680}'
    || '\U{2000}' <= c <= '\U{200A}'
    || c == '\U{2028}' || c == '\U{2029}' || c == '\U{202F}' || c == '\U{205F}' || c == '\U{3000}'
  }

  /** `s.lstrip()`: the longest suffix of `s` that does not start with whitespace. */
  function StripLeading(s: string): (r: string)
    ensures |r| <= |s| && r == s[|s| - |r|..]
    ensures forall k :: 0 <= k < |s| - |r| ==> IsSpace(s[k])
    ensures r != [] ==> !IsSpace(r[0])
  {
    if s != [] && IsSpace(s[0]) then
      var r := StripLeading(s[1..]);
      assert forall k :: 1 <= k < |s| ==> s[k] == s[1..][k - 1];
      r
    else
      s
  }

  /** `s.rstrip()`: the longest prefix of `s` that does not end with whitespace. */
  function StripTrailing(s: string): (r: string)
    ensures |r| <= |s| && r == s[..|r|]
    ensures forall k :: |r| <= k < |s| ==> IsSpace(s[k])
    ensures r != [] ==> !IsSpace(r[|r| - 1])
  {
    if s != [] && IsSpace(s[|s| - 1]) then StripTrailing(s[..|s| - 1]) else s
  }

  /**
    `r` is the window `s[lo..hi]`, everything outside the window is whitespace, and
    `r` neither starts nor ends with whitespace.
   */
  ghost predicate StrippedAt(s: string, r: string, lo: int, hi: int) {
    && 0 <= lo <= hi <= |s|
    && r == s[lo..hi]
    && (forall k :: 0 <= k < lo ==> IsSpace(s[k]))
    && (forall k :: hi <= k < |s| ==> IsSpace(s[k]))
    && (r != [] ==> !IsSpace(r[0]) && !IsSpace(r[|r| - 1]))
  }

  /** `r` is what `s.strip()` leaves: `s` with its leading and trailing whitespace removed. */
  ghost predicate IsStripOf(s: string, r: string) {
    exists lo, hi :: StrippedAt(s, r, lo, hi)
  }

  /**
    Removing the leading whitespace of `s` (leaving `t`) and then the trailing whitespace of
    `t` (leaving `u`) leaves the window of `s` between the two paddings.
   */
  lemma StripWindow(s: string, t: string, u: string)
    requires |t| <= |s| && t == s[|s| - |t|..]
    requires forall k :: 0 <= k < |s| - |t| ==> IsSpace(s[k])
    requires t != [] ==> !IsSpace(t[0])
    requires |u| <= |t| && u == t[..|u|]
    requires forall k :: |u| <= k < |t| ==> IsSpace(t[k])
    requires u != [] ==> !IsSpace(u[|u| - 1])
    ensures StrippedAt(s, u, |s| - |t|, |s| - |t| + |u|)
  {
    var lo := |s| - |t|;
    assert u == s[lo..lo + |u|];
    forall k | lo + |u| <= k < |s|
      ensures IsSpace(s[k])
    {
      assert s[k] == t[k - lo];
    }
    if u != [] {
      assert u[0] == t[0];
    }
  }

  /** `s.strip()`. */
  function Strip(s: string): (r: string)
    ensures IsStripOf(s, r)
  {
    var t := StripLeading(s);
    var u := StripTrailing(t);
    StripWindow(s, t, u);
    u
  }

  /** `IsStripOf` pins the result down: a string has exactly one stripped form. */
  lemma StripUnique(s: string, r1: string, r2: string)
    requires IsStripOf(s, r1) && IsStripOf(s, r2)
    ensures r1 == r2
  {
    var lo1, hi1 :| StrippedAt(s, r1, lo1, hi1);
    var lo2, hi2 :| StrippedAt(s, r2, lo2, hi2);
    if r1 != [] {
      assert s[lo1] == r1[0] && s[hi1 - 1] == r1[|r1| - 1];
    }
    if r2 != [] {
      assert s[lo2] == r2[0] && s[hi2 - 1] == r2[|r2| - 1];
    }
  }

  /** Whitespace put around a text that neither starts nor ends with whitespace is exactly what `strip()` removes. */
  lemma StripRemovesPadding(before: string, core: string, after: string)
    requires forall k :: 0 <= k < |before| ==> IsSpace(before[k])
    requires forall k :: 0 <= k < |after| ==> IsSpace(after[k])
    requires core != [] ==> !IsSpace(core[0]) && !IsSpace(core[|core| - 1])
    ensures Strip(before + core + after) == core
  {
    var s := before + core + after;
    var lo, hi := |before|, |before| + |core|;
    assert s[lo..hi] == core;
    assert forall k :: hi <= k < |s| ==> s[k] == after[k - hi];
    assert StrippedAt(s, core, lo, hi);
    StripUnique(s, Strip(s), core);
  }

  /** Stripping an already stripped string changes nothing. */
  lemma StripIdempotent(s: string)
    ensures Strip(Strip(s)) == Strip(s)
  {
    var r := Strip(s);
    var lo, hi :| StrippedAt(s, r, lo, hi);
    assert StrippedAt(r, r, 0, |r|);
    StripUnique(r, Strip(r), r);
  }
}
