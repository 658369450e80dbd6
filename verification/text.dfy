/** Character classes and string operations of Python's `str` that the
    decision policy relies on: `isspace`/`strip`, `lower`, `upper`, the
    regular-expression class `\d`, and the substring test `t in s`.
    Strings are sequences of Unicode scalar values. */
module TextOps {

  /** Python's `str.isspace` for one character: the ASCII controls
      TAB..CR and FS..US, SPACE, NEL, NBSP, the Unicode space separators and
      the line and paragraph separators. */
  predicate IsSpace(c: char) {
    || c == ' '
    || ('\t' <= c <= '\r')
    || ('\U{1C}' <= c <= '\U{1F}')
    || c == '\U{85}'
    || c == '\U{A0}'
    || c == '\U{1680}'
    || ('\U{2000}' <= c <= '\U{200A}')
    || c == '\U{2028}'
    || c == '\U{2029}'
    || c == '\U{202F}'
    || c == '\U{205F}'
    || c == '\U{3000}'
  }

  /** Membership in Python's `\d` (Unicode category Nd), restricted to the
      decimal-digit blocks a finance question in English or Hindi can plausibly
      carry: ASCII, Arabic-Indic, Extended Arabic-Indic, Devanagari, Bengali
      and fullwidth digits. */
  predicate IsDigit(c: char) {
    || ('0' <= c <= '9')
    || ('\U{0660}' <= c <= '\U{0669}')
    || ('\U{06F0}' <= c <= '\U{06F9}')
    || ('\U{0966}' <= c <= '\U{096F}')
    || ('\U{09E6}' <= c <= '\U{09EF}')
    || ('\U{FF10}' <= c <= '\U{FF19}')
  }

  predicate AllSpace(s: string) {
    forall k :: 0 <= k < |s| ==> IsSpace(s[k])
  }

  predicate AllDigits(s: string) {
    forall k :: 0 <= k < |s| ==> IsDigit(s[k])
  }

  /** Lower-casing as a character map: ASCII capitals become small letters,
      every other character (Devanagari included, which has no case) is kept. */
  function LowerChar(c: char): char {
    if 'A' <= c <= 'Z' then (c as int + 32) as char else c
  }

  /** Upper-casing as a character map: ASCII small letters become capitals and
      U+017F LATIN SMALL LETTER LONG S becomes `S`, as Python does. */
  function UpperChar(c: char): char {
    if 'a' <= c <= 'z' then (c as int - 32) as char
    else if c == '\U{017F}' then 'S'
    else c
  }

  function Lower(s: string): string {
    seq(|s|, k requires 0 <= k < |s| => LowerChar(s[k]))
  }

  function Upper(s: string): string {
    seq(|s|, k requires 0 <= k < |s| => UpperChar(s[k]))
  }

  /** Number of whitespace characters at the start of `s`. */
  function LeadingSpaces(s: string): (n: nat)
    ensures n <= |s|
  {
    if |s| > 0 && IsSpace(s[0]) then 1 + LeadingSpaces(s[1..]) else 0
  }

  /** The leading whitespace is all of it: the next character, if any, is
      not whitespace. */
  lemma {:induction false} LeadingSpacesSpec(s: string)
    ensures AllSpace(s[..LeadingSpaces(s)])
    ensures LeadingSpaces(s) == |s| || !IsSpace(s[LeadingSpaces(s)])
    decreases |s|
  {
    if |s| > 0 && IsSpace(s[0]) {
      var n := LeadingSpaces(s[1..]);
      LeadingSpacesSpec(s[1..]);
      assert s[..n + 1] == [s[0]] + s[1..][..n];
      if n + 1 < |s| {
        assert s[n + 1] == s[1..][n];
      }
    }
  }

  /** Number of whitespace characters at the end of `s`. */
  function TrailingSpaces(s: string): (n: nat)
    ensures n <= |s|
  {
    if |s| > 0 && IsSpace(s[|s| - 1]) then 1 + TrailingSpaces(s[..|s| - 1]) else 0
  }

  /** The trailing whitespace is all of it: the character before it, if any,
      is not whitespace. */
  lemma {:induction false} TrailingSpacesSpec(s: string)
    ensures AllSpace(s[|s| - TrailingSpaces(s)..])
    ensures TrailingSpaces(s) == |s| || !IsSpace(s[|s| - TrailingSpaces(s) - 1])
    decreases |s|
  {
    if |s| > 0 && IsSpace(s[|s| - 1]) {
      var t := s[..|s| - 1];
      var n := TrailingSpaces(t);
      TrailingSpacesSpec(t);
      assert s[|s| - (n + 1)..] == t[|t| - n..] + [s[|s| - 1]];
      if n + 1 < |s| {
        assert s[|s| - (n + 1) - 1] == t[|t| - n - 1];
      }
    }
  }

  /** `r` is `s[i..j]`, only whitespace lies outside it, and `r` neither
      starts nor ends with whitespace. */
  predicate StripAt(s: string, r: string, i: int, j: int) {
    && 0 <= i <= j <= |s|
    && r == s[i..j]
    && AllSpace(s[..i])
    && AllSpace(s[j..])
    && (r == [] || (!IsSpace(r[0]) && !IsSpace(r[|r| - 1])))
  }

  /** `r` is `s` with the whitespace on both ends removed. */
  ghost predicate IsStripOf(s: string, r: string) {
    exists i, j :: StripAt(s, r, i, j)
  }

  /** Python's `str.strip()` with no argument. */
  function Strip(s: string): (r: string)
    ensures |r| <= |s|
  {
    var i := LeadingSpaces(s);
    s[i..|s| - TrailingSpaces(s[i..])]
  }

  /** `Strip` removes exactly the whitespace on both ends, and leaves nothing
      exactly when the input is all whitespace. */
  lemma StripSpec(s: string)
    ensures IsStripOf(s, Strip(s))
    ensures Strip(s) == [] <==> AllSpace(s)
  {
    var i := LeadingSpaces(s);
    var n := TrailingSpaces(s[i..]);
    LeadingSpacesSpec(s);
    StripTail(s, i, n);
    StripCuts(s, i, |s| - n);
  }

  /** The whitespace cut from the end of the remainder is whitespace at the
      end of `s`. */
  lemma StripTail(s: string, i: nat, n: nat)
    requires i <= |s| && n == TrailingSpaces(s[i..])
    ensures i <= |s| - n
    ensures AllSpace(s[|s| - n..])
    ensures n == |s| - i || !IsSpace(s[|s| - n - 1])
  {
    var t := s[i..];
    TrailingSpacesSpec(t);
    assert s[|s| - n..] == t[|t| - n..];
    if n < |t| {
      assert s[|s| - n - 1] == t[|t| - n - 1];
    }
  }

  /** Two cuts with only whitespace outside them and none just inside them
      give the stripped string, which is empty exactly when `s` is all
      whitespace. */
  lemma StripCuts(s: string, i: int, j: int)
    requires 0 <= i <= j <= |s|
    requires AllSpace(s[..i]) && AllSpace(s[j..])
    requires i == |s| || !IsSpace(s[i])
    requires i == j || !IsSpace(s[j - 1])
    ensures IsStripOf(s, s[i..j])
    ensures s[i..j] == [] <==> AllSpace(s)
  {
    var r := s[i..j];
    if r != [] {
      assert r[0] == s[i];
      assert r[|r| - 1] == s[j - 1];
    } else {
      // An empty middle cannot be followed by a non-space, so it ends `s`.
      assert i == |s|;
      assert s[..i] == s;
    }
    assert StripAt(s, r, i, j);
  }

  /** A non-empty stripped part starts after the leading whitespace: no
      other decomposition can start elsewhere. */
  lemma StripAtStart(s: string, r1: string, i1: int, j1: int, r2: string, i2: int, j2: int)
    requires StripAt(s, r1, i1, j1) && StripAt(s, r2, i2, j2)
    requires r1 != []
    ensures i2 <= i1
  {
  }

  /** A non-empty stripped part ends before the trailing whitespace. */
  lemma StripAtEnd(s: string, r1: string, i1: int, j1: int, r2: string, i2: int, j2: int)
    requires StripAt(s, r1, i1, j1) && StripAt(s, r2, i2, j2)
    requires r1 != []
    ensures j1 <= j2
  {
  }

  /** `IsStripOf` determines the stripped string. */
  lemma StripOfUnique(s: string, r1: string, r2: string)
    requires IsStripOf(s, r1) && IsStripOf(s, r2)
    ensures r1 == r2
  {
    var i1, j1 :| StripAt(s, r1, i1, j1);
    var i2, j2 :| StripAt(s, r2, i2, j2);
    if r1 != [] {
      StripAtStart(s, r1, i1, j1, r2, i2, j2);
      StripAtEnd(s, r1, i1, j1, r2, i2, j2);
    }
    if r2 != [] {
      StripAtStart(s, r2, i2, j2, r1, i1, j1);
      StripAtEnd(s, r2, i2, j2, r1, i1, j1);
    }
  }

  /** Any decomposition of `s` into surrounding whitespace and a middle that
      neither starts nor ends with whitespace gives `Strip(s)`. */
  lemma StripAtIsStrip(s: string, r: string, i: int, j: int)
    requires StripAt(s, r, i, j)
    ensures Strip(s) == r
  {
    StripSpec(s);
    StripOfUnique(s, Strip(s), r);
  }

  /** `t` occurs in `s` starting at index `i`. */
  predicate OccursAt(t: string, s: string, i: int) {
    0 <= i && i + |t| <= |s| && s[i..i + |t|] == t
  }

  /** Python's substring test `t in s`. */
  function Contains(s: string, t: string): bool
    decreases |s|
  {
    if |s| < |t| then false
    else if s[..|t|] == t then true
    else if |s| == 0 then false
    else Contains(s[1..], t)
  }

  /** `Contains` holds exactly when `t` occurs in `s` at some index. */
  lemma {:induction false} ContainsIff(s: string, t: string)
    ensures Contains(s, t) <==> exists i :: OccursAt(t, s, i)
    decreases |s|
  {
    if |s| < |t| {
    } else if s[..|t|] == t {
      assert OccursAt(t, s, 0);
    } else if |s| > 0 {
      ContainsIff(s[1..], t);
      forall i | OccursAt(t, s[1..], i) ensures OccursAt(t, s, i + 1) {
        assert s[1..][i..i + |t|] == s[i + 1..i + 1 + |t|];
      }
      if exists i :: OccursAt(t, s, i) {
        var i :| OccursAt(t, s, i);
        assert i != 0;
        assert s[1..][i - 1..i - 1 + |t|] == s[i..i + |t|];
        assert OccursAt(t, s[1..], i - 1);
      }
    }
  }

  /** Every prefix of a string that occurs in `s` occurs in `s` as well. */
  lemma ContainsPrefix(s: string, t: string, u: string)
    requires Contains(s, t)
    requires |u| <= |t| && t[..|u|] == u
    ensures Contains(s, u)
  {
    ContainsIff(s, t);
    ContainsIff(s, u);
    var i :| OccursAt(t, s, i);
    assert s[i..i + |u|] == t[..|u|];
    assert OccursAt(u, s, i);
  }

  /** Strings made of lower-case-invariant characters are fixed by `Lower`. */
  lemma LowerFixed(s: string)
    requires forall k :: 0 <= k < |s| ==> !('A' <= s[k] <= 'Z')
    ensures Lower(s) == s
  {
  }

  /** An occurrence in either half of a concatenation is an occurrence in
      the whole. */
  lemma ContainsInConcat(a: string, b: string, t: string)
    ensures Contains(a, t) ==> Contains(a + b, t)
    ensures Contains(b, t) ==> Contains(a + b, t)
  {
    ContainsIff(a, t);
    ContainsIff(b, t);
    ContainsIff(a + b, t);
    if Contains(a, t) {
      var i :| OccursAt(t, a, i);
      assert (a + b)[i..i + |t|] == a[i..i + |t|];
      assert OccursAt(t, a + b, i);
    }
    if Contains(b, t) {
      var i :| OccursAt(t, b, i);
      assert (a + b)[|a| + i..|a| + i + |t|] == b[i..i + |t|];
      assert OccursAt(t, a + b, |a| + i);
    }
  }

  /** Python's `sep.join(parts)`. */
  function Join(parts: seq<string>, sep: string): string
  {
    if |parts| == 0 then ""
    else if |parts| == 1 then parts[0]
    else parts[0] + sep + Join(parts[1..], sep)
  }

  /** Every part joined appears verbatim in the joined text. */
  lemma {:induction false} JoinContainsPart(parts: seq<string>, sep: string, i: int)
    requires 0 <= i < |parts|
    ensures Contains(Join(parts, sep), parts[i])
  {
    if |parts| == 1 {
      assert OccursAt(parts[0], Join(parts, sep), 0);
      ContainsIff(Join(parts, sep), parts[0]);
    } else if i == 0 {
      assert Join(parts, sep)[..|parts[0]|] == parts[0];
      assert OccursAt(parts[0], Join(parts, sep), 0);
      ContainsIff(Join(parts, sep), parts[0]);
    } else {
      JoinContainsPart(parts[1..], sep, i - 1);
      ContainsInConcat(parts[0] + sep, Join(parts[1..], sep), parts[i]);
    }
  }
}
