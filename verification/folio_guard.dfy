/** The sensitive-data guard that runs before anything else in `rag_answer`:
    a question that mentions a folio and carries a number of eight or more
    digits is refused outright. */
module FolioGuard {
  import opened TextOps

  const FolioRefusalText: string := "Sorry, I can't provide information about folio numbers."

  /** The guard's keywords, in the order `folio_keywords` lists them in
      `rag_answer`. */
  const FolioKeywords: seq<string> := ["folio", "folio number", "फोलियो", "फोलियो नंबर"]

  /** Length of the digit run at the start of `s`. */
  function LeadingDigits(s: string): (n: nat)
    ensures n <= |s|
    ensures AllDigits(s[..n])
    ensures n == |s| || !IsDigit(s[n])
  {
    if |s| > 0 && IsDigit(s[0]) then 1 + LeadingDigits(s[1..]) else 0
  }

  /** `r` is a maximal run of digits of `s` that starts at index `i`: it is
      non-empty, made of digits only, and neither neighbour is a digit. */
  predicate MaximalRunAt(r: string, s: string, i: int) {
    && OccursAt(r, s, i)
    && |r| > 0
    && AllDigits(r)
    && (i == 0 || !IsDigit(s[i - 1]))
    && (i + |r| == |s| || !IsDigit(s[i + |r|]))
  }

  /** A maximal run found in a suffix of `s` is a maximal run of `s`, provided
      it does not start the suffix right after a digit. */
  lemma MaximalRunShift(r: string, s: string, k: nat, i: int)
    requires 0 < k <= |s| && (i > 0 || !IsDigit(s[k - 1]))
    requires MaximalRunAt(r, s[k..], i)
    ensures MaximalRunAt(r, s, i + k)
  {
    assert s[k..][i..i + |r|] == s[i + k..i + k + |r|];
    if i == 0 {
      assert s[i + k - 1] == s[k - 1];
    } else {
      assert s[i + k - 1] == s[k..][i - 1];
    }
  }

  /** A maximal run of `s` at or after index `k` is a maximal run of the
      suffix `s[k..]`. */
  lemma MaximalRunUnshift(r: string, s: string, k: nat, i: int)
    requires k <= i && MaximalRunAt(r, s, i)
    ensures MaximalRunAt(r, s[k..], i - k)
  {
    assert s[k..][i - k..i - k + |r|] == s[i..i + |r|];
    if i - k > 0 {
      assert s[k..][i - k - 1] == s[i - 1];
    }
    if i + |r| < |s| {
      assert s[k..][i - k + |r|] == s[i + |r|];
    }
  }

  /** The strings `re.findall(r'\d+', s)` returns: the maximal digit runs of
      `s`, from left to right. */
  function DigitRuns(s: string): (runs: seq<string>)
    ensures forall r :: r in runs ==> exists i :: MaximalRunAt(r, s, i)
    decreases |s|
  {
    if |s| == 0 then []
    else if !IsDigit(s[0]) then
      var rest := DigitRuns(s[1..]);
      assert forall r :: r in rest ==> exists i :: MaximalRunAt(r, s, i) by {
        forall r | r in rest ensures exists i :: MaximalRunAt(r, s, i) {
          var i :| MaximalRunAt(r, s[1..], i);
          MaximalRunShift(r, s, 1, i);
        }
      }
      rest
    else
      var n := LeadingDigits(s);
      var rest := DigitRuns(s[n..]);
      assert MaximalRunAt(s[..n], s, 0);
      assert forall r :: r in rest ==> exists i :: MaximalRunAt(r, s, i) by {
        forall r | r in rest ensures exists i :: MaximalRunAt(r, s, i) {
          var i :| MaximalRunAt(r, s[n..], i);
          MaximalRunShift(r, s, n, i);
        }
      }
      [s[..n]] + rest
  }

  /** `re.findall` misses no number: every maximal digit run is returned. */
  lemma {:induction false} DigitRunsComplete(s: string, r: string, i: int)
    requires MaximalRunAt(r, s, i)
    ensures r in DigitRuns(s)
    decreases |s|
  {
    assert r[0] == s[i];
    if !IsDigit(s[0]) {
      assert i > 0;
      MaximalRunUnshift(r, s, 1, i);
      DigitRunsComplete(s[1..], r, i - 1);
    } else {
      var n := LeadingDigits(s);
      assert forall k :: 0 <= k < n ==> IsDigit(s[k]) by {
        forall k | 0 <= k < n ensures IsDigit(s[k]) {
          assert s[..n][k] == s[k];
        }
      }
      assert forall k :: i <= k < i + |r| ==> IsDigit(s[k]) by {
        forall k | i <= k < i + |r| ensures IsDigit(s[k]) {
          assert r[k - i] == s[k];
        }
      }
      if i == 0 {
        assert |r| == n;
        assert r == s[..n];
      } else {
        assert i > n;
        MaximalRunUnshift(r, s, n, i);
        DigitRunsComplete(s[n..], r, i - n);
      }
    }
  }

  /** The `w` characters of `s` from index `i` on are all digits. */
  predicate DigitWindowAt(s: string, i: int, w: nat) {
    0 <= i && i + w <= |s| && AllDigits(s[i..i + w])
  }

  /** `s` has `w` consecutive digits somewhere. */
  ghost predicate HasDigitWindow(s: string, w: nat) {
    exists i :: DigitWindowAt(s, i, w)
  }

  /** A number longer than seven digits is eight consecutive digits. */
  lemma LongRunGivesWindow(s: string, r: string)
    requires r in DigitRuns(s) && |r| > 7
    ensures HasDigitWindow(s, 8)
  {
    var i :| MaximalRunAt(r, s, i);
    assert s[i..i + 8] == r[..8];
    assert DigitWindowAt(s, i, 8);
  }

  /** Eight consecutive digits lie inside one maximal run, which is then
      longer than seven digits. */
  lemma {:induction false} WindowGivesLongRun(s: string, i: int)
    requires DigitWindowAt(s, i, 8)
    ensures exists r :: r in DigitRuns(s) && |r| > 7
    decreases |s|
  {
    var w := s[i..i + 8];
    assert forall k :: 0 <= k < 8 ==> w[k] == s[i + k];
    assert forall k :: i <= k < i + 8 ==> IsDigit(s[k]);
    if !IsDigit(s[0]) {
      assert 0 < i;
      assert s[1..][i - 1..i + 7] == s[i..i + 8];
      assert DigitWindowAt(s[1..], i - 1, 8);
      WindowGivesLongRun(s[1..], i - 1);
    } else {
      var n := LeadingDigits(s);
      assert 0 < n;
      if i < n {
        assert i + 8 <= n;
        assert DigitRuns(s)[0] == s[..n];
        assert s[..n] in DigitRuns(s) && |s[..n]| > 7;
      } else {
        assert s[n..][i - n..i - n + 8] == s[i..i + 8];
        assert DigitWindowAt(s[n..], i - n, 8);
        WindowGivesLongRun(s[n..], i - n);
      }
    }
  }

  /** Some number `re.findall` extracts has more than seven digits exactly
      when the text holds eight consecutive digits. */
  lemma LongRunIffWindow(s: string)
    ensures (exists r :: r in DigitRuns(s) && |r| > 7) <==> HasDigitWindow(s, 8)
  {
    if exists r :: r in DigitRuns(s) && |r| > 7 {
      var r :| r in DigitRuns(s) && |r| > 7;
      LongRunGivesWindow(s, r);
    }
    if HasDigitWindow(s, 8) {
      var i :| DigitWindowAt(s, i, 8);
      WindowGivesLongRun(s, i);
    }
  }

  /** Python's `any(keyword.lower() in user_query.lower() for keyword in folio_keywords)`. */
  predicate MentionsFolio(q: string) {
    exists k :: k in FolioKeywords && Contains(Lower(q), Lower(k))
  }

  /** The guard's loop: some extracted number is longer than seven digits and
      the question mentions a folio keyword. */
  predicate GuardFires(q: string) {
    exists r :: r in DigitRuns(q) && |r| > 7 && MentionsFolio(q)
  }

  /** The guard's condition stated without the keyword list or the regular
      expression: eight consecutive digits, and "folio" or "फोलियो" as a
      substring of the lower-cased question. */
  ghost predicate FolioCondition(q: string) {
    && HasDigitWindow(q, 8)
    && (Contains(Lower(q), "folio") || Contains(Lower(q), "फोलियो"))
  }

  /** The two longer keywords extend the two short ones, so only "folio" and
      "फोलियो" decide the keyword test; lower-casing leaves all four unchanged. */
  lemma MentionsFolioIff(q: string)
    ensures MentionsFolio(q) <==> Contains(Lower(q), "folio") || Contains(Lower(q), "फोलियो")
  {
    var lq := Lower(q);
    LowerFixed("folio");
    LowerFixed("folio number");
    LowerFixed("फोलियो");
    LowerFixed("फोलियो नंबर");
    if Contains(lq, "folio number") {
      ContainsPrefix(lq, "folio number", "folio");
    }
    if Contains(lq, "फोलियो नंबर") {
      ContainsPrefix(lq, "फोलियो नंबर", "फोलियो");
    }
    if Contains(lq, "folio") {
      assert "folio" in FolioKeywords;
    }
    if Contains(lq, "फोलियो") {
      assert "फोलियो" in FolioKeywords;
    }
  }

  /** The guard fires exactly on the condition stated above. */
  lemma GuardFiresIff(q: string)
    ensures GuardFires(q) <==> FolioCondition(q)
  {
    LongRunIffWindow(q);
    MentionsFolioIff(q);
  }

  /** Keyword matching is by substring: "PORTFOLIO 12345678" is refused. */
  lemma PortfolioIsRefused()
    ensures GuardFires("PORTFOLIO 12345678")
  {
    var q := "PORTFOLIO 12345678";
    assert Lower(q)[4..9] == "folio";
    assert OccursAt("folio", Lower(q), 4);
    ContainsIff(Lower(q), "folio");
    assert DigitWindowAt(q, 10, 8);
    GuardFiresIff(q);
  }
}
