/** Stop-name normalisation, app/core/stop_name.py. */
module StopName {
  import opened Text

  /** Where a match of \s+\d{2}$ starts in s: blanks up to the last two characters, which are digits. */
  predicate SuffixAt(s: string, i: int) {
    0 <= i < |s| - 2 && IsDigit(s[|s| - 2]) && IsDigit(s[|s| - 1]) &&
    forall k :: i <= k < |s| - 2 ==> IsSpace(s[k])
  }

  ghost predicate HasSuffix(s: string) { exists i :: SuffixAt(s, i) }

  /** re.sub of the pattern by nothing: the search is leftmost, so the whole run of blanks goes. */
  function RemoveSuffix(s: string): string {
    var n := |s| - 2;
    if n > 0 && IsSpace(s[n - 1]) && IsDigit(s[n]) && IsDigit(s[n + 1]) then StripRight(s[..n]) else s
  }

  /** normalize_stop_name. */
  function Normalize(value: string): string { RemoveSuffix(Strip(value)) }

  /**
   * RemoveSuffix cuts at the leftmost match, and only when there is one. The text is trimmed, so $ can only
   * mean its end.
   */
  lemma RemoveSuffixIsLeftmostMatch(s: string)
    requires Trimmed(s)
    ensures HasSuffix(s) <==> RemoveSuffix(s) != s
    ensures RemoveSuffix(s) != s ==>
              RemoveSuffix(s) == s[..|RemoveSuffix(s)|] && SuffixAt(s, |RemoveSuffix(s)|) &&
              forall i :: SuffixAt(s, i) ==> |RemoveSuffix(s)| <= i
  {
    var n := |s| - 2;
    forall i | SuffixAt(s, i) ensures n > 0 && IsSpace(s[n - 1]) && IsDigit(s[n]) && IsDigit(s[n + 1]) {}
    if n > 0 && IsSpace(s[n - 1]) && IsDigit(s[n]) && IsDigit(s[n + 1]) {
      var r := StripRight(s[..n]);
      assert forall k :: |r| <= k < n ==> IsSpace(s[..n][k]) && s[..n][k] == s[k];
      assert |r| < n;
      assert SuffixAt(s, |r|);
      if r != "" {
        assert r[|r| - 1] == s[|r| - 1];
        assert !IsSpace(s[|r| - 1]);
      }
    }
  }

  /**
   * A normalised name is the trimmed name up to its leftmost position suffix; it is trimmed, and is empty only when
   * the name was blank.
   */
  lemma NormalizeMeaning(value: string)
    ensures var s := Strip(value);
      if HasSuffix(s)
      then SuffixAt(s, |Normalize(value)|) && forall i :: SuffixAt(s, i) ==> |Normalize(value)| <= i
      else Normalize(value) == s
    ensures Trimmed(Normalize(value))
    ensures Normalize(value) == "" <==> Strip(value) == ""
    ensures Normalize(value) <= Strip(value)
  {
    var s := Strip(value);
    var n := |s| - 2;
    RemoveSuffixIsLeftmostMatch(s);
    if n > 0 && IsSpace(s[n - 1]) && IsDigit(s[n]) && IsDigit(s[n + 1]) {
      var r := StripRight(s[..n]);
      assert s[..n][0] == s[0];
      assert !IsSpace(s[..n][0]);
      assert r != "" && r[0] == s[0];
    }
  }

  /** s ends in a position suffix, and so does what stands before that suffix. */
  ghost predicate EndsInTwoSuffixes(s: string) {
    exists i :: 0 < i < |s| - 2 && SuffixAt(s, i) && SuffixAt(s[..i], i - 3)
  }

  /** Normalising is idempotent on a name exactly when the trimmed name does not end in two position suffixes. */
  lemma IdempotentExactly(value: string)
    ensures Normalize(Normalize(value)) == Normalize(value) <==> !EndsInTwoSuffixes(Strip(value))
  {
    hide Strip, StripRight;
    var s, r := Strip(value), Normalize(value);
    NormalizeTwice(value);
    RemoveSuffixIsLeftmostMatch(s);
    if j :| SuffixAt(r, j) {
      assert SuffixAt(s, |r|) && SuffixAt(s[..|r|], |r| - 3);
    }
    if i :| 0 < i < |s| - 2 && SuffixAt(s, i) && SuffixAt(s[..i], i - 3) {
      assert s[..i][i - 1] == s[i - 1];
      assert |r| == i;
    }
  }

  /** One more pass changes the result exactly when a position suffix is left at its end. */
  lemma NormalizeTwice(value: string)
    ensures Normalize(Normalize(value)) == Normalize(value) <==> !HasSuffix(Normalize(value))
    ensures Normalize(Normalize(value)) != Normalize(value) ==> |Normalize(Normalize(value))| < |Normalize(value)|
  {
    hide RemoveSuffix, StripRight;
    NormalizeMeaning(value);
    RemoveSuffixIsLeftmostMatch(Normalize(value));
  }

  /** Normalising is not idempotent: a name with two suffixes loses one each time. */
  lemma NormalizeIsNotIdempotent()
    ensures Normalize("A 01 02") == "A 01" && Normalize("A 01") == "A"
  {
    assert StripRight("A 01 ") == "A 01" by { assert "A 01 "[..4] == "A 01"; }
    assert "A 01 02"[..5] == "A 01 ";
    assert StripRight("A ") == "A" by { assert "A "[..1] == "A"; }
    assert "A 01"[..2] == "A ";
  }

  /** The name after n starts of the program, each of which normalises the stored names once. */
  function AfterStarts(name: string, n: nat): string {
    if n == 0 then name else Normalize(AfterStarts(name, n - 1))
  }

  /**
   * Startup normalisation settles: a start that changes the name shortens it, and so did every start
   * before it.
   */
  lemma {:induction false} StartsShorten(name: string, n: nat)
    ensures AfterStarts(name, n + 1) == AfterStarts(name, n) ||
            (|AfterStarts(name, n + 1)| < |AfterStarts(name, n)| && |AfterStarts(name, n)| + n <= |name|)
  {
    hide Normalize, Strip;
    var current := AfterStarts(name, n);
    ShorterOrSame(current);
    if n > 0 {
      StartsShorten(name, n - 1);
    }
  }

  lemma ShorterOrSame(name: string)
    ensures Normalize(name) == name || |Normalize(name)| < |name|
  {
    NormalizeMeaning(name);
    RemoveSuffixIsLeftmostMatch(Strip(name));
    StripOnlyShortens(name);
  }

  lemma StripOnlyShortens(s: string)
    ensures Strip(s) == s || |Strip(s)| < |s|
  {
    StripLeftMeaning(s);
    var l := StripLeft(s);
    if |l| == |s| { assert l == s; }
  }

  /** After as many starts as the name has characters the stored name is final and has no suffix. */
  lemma StartsReachFixpoint(name: string, n: nat)
    requires n > |name|
    ensures AfterStarts(name, n + 1) == AfterStarts(name, n)
    ensures !HasSuffix(AfterStarts(name, n))
  {
    StartsShorten(name, n);
    NormalizeTwice(AfterStarts(name, n - 1));
  }
}
