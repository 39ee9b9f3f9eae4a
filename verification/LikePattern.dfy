/** SQLite's LIKE without ESCAPE: % is any text, _ any character, ASCII letters compare without case. */
module LikePattern {
  function AsciiLower(c: char): char { if 'A' <= c <= 'Z' then c - 'A' + 'a' else c }

  predicate Like(pattern: string, text: string)
    decreases |pattern| + |text|
  {
    if pattern == "" then text == ""
    else if pattern[0] == '%' then Like(pattern[1..], text) || (text != "" && Like(pattern, text[1..]))
    else
      text != "" && (pattern[0] == '_' || AsciiLower(pattern[0]) == AsciiLower(text[0])) &&
      Like(pattern[1..], text[1..])
  }

  /** One letter in two cases: the small letters stand 32 places after the capitals. */
  predicate IsCapitalOf(x: char, y: char) { 'A' <= x <= 'Z' && y as int == x as int + 32 }

  predicate SameLetter(x: char, y: char) { x == y || IsCapitalOf(x, y) || IsCapitalOf(y, x) }

  /** Equal up to ASCII case. */
  predicate SameUpToCase(a: string, b: string) {
    |a| == |b| && forall i :: 0 <= i < |a| ==> SameLetter(a[i], b[i])
  }

  lemma LowerIsSameLetter(x: char, y: char)
    ensures AsciiLower(x) == AsciiLower(y) <==> SameLetter(x, y)
  {
  }

  predicate HasWildcard(s: string) { '%' in s || '_' in s }

  lemma {:induction false} AnyPrefix(pattern: string, text: string)
    ensures Like("%" + pattern, text) <==> exists i :: 0 <= i <= |text| && Like(pattern, text[i..])
    decreases |text|
  {
    assert ("%" + pattern)[1..] == pattern && text[0..] == text;
    if text != "" {
      AnyPrefix(pattern, text[1..]);
      assert forall i :: 0 <= i < |text| ==> text[1..][i..] == text[i + 1..];
      if i :| 0 <= i <= |text| && Like(pattern, text[i..]) && i > 0 {
        assert Like(pattern, text[1..][i - 1..]);
      }
    }
  }

  lemma {:induction false} AnySuffix(pattern: string, text: string)
    ensures Like(pattern + "%", text) <==> exists j :: 0 <= j <= |text| && Like(pattern, text[..j])
    decreases |pattern| + |text|
  {
    var p := pattern + "%";
    assert text[..0] == "";
    if pattern == "" {
      OnlyPercent(text);
      assert p == "%" && Like(pattern, text[..0]);
    } else {
      assert p[0] == pattern[0] && p[1..] == pattern[1..] + "%";
      assert text != "" ==> forall j :: 0 < j <= |text| ==> text[..j][1..] == text[1..][..j - 1];
      if pattern[0] == '%' {
        AnySuffix(pattern[1..], text);
        if text != "" { AnySuffix(pattern, text[1..]); }
        SuffixOfPercent(pattern, text);
      } else if text != "" {
        AnySuffix(pattern[1..], text[1..]);
        SuffixOfCharacter(pattern, text);
      }
    }
  }

  lemma {:induction false} OnlyPercent(text: string)
    ensures Like("%", text)
    decreases |text|
  {
    assert "%"[1..] == "";
    if text != "" { OnlyPercent(text[1..]); }
  }

  lemma SuffixOfPercent(pattern: string, text: string)
    requires pattern != "" && pattern[0] == '%'
    ensures (exists j :: 0 <= j <= |text| && Like(pattern, text[..j])) <==>
            (exists j :: 0 <= j <= |text| && Like(pattern[1..], text[..j])) ||
            (text != "" && exists j :: 0 <= j <= |text| - 1 && Like(pattern, text[1..][..j]))
  {
    if j :| 0 <= j <= |text| && Like(pattern, text[..j]) && !Like(pattern[1..], text[..j]) {
      assert j > 0 && text[..j][1..] == text[1..][..j - 1];
    }
    if text != "" {
      if j :| 0 <= j <= |text| - 1 && Like(pattern, text[1..][..j]) {
        assert text[..j + 1][1..] == text[1..][..j];
        assert Like(pattern, text[..j + 1]);
      }
    }
    if j :| 0 <= j <= |text| && Like(pattern[1..], text[..j]) {
      assert Like(pattern, text[..j]);
    }
  }

  lemma SuffixOfCharacter(pattern: string, text: string)
    requires pattern != "" && pattern[0] != '%' && text != ""
    ensures (exists j :: 0 <= j <= |text| && Like(pattern, text[..j])) <==>
            (pattern[0] == '_' || AsciiLower(pattern[0]) == AsciiLower(text[0])) &&
            exists j :: 0 <= j <= |text| - 1 && Like(pattern[1..], text[1..][..j])
  {
    if j :| 0 <= j <= |text| && Like(pattern, text[..j]) {
      assert j > 0 && text[..j][1..] == text[1..][..j - 1] && text[..j][0] == text[0];
    }
    if j :| 0 <= j <= |text| - 1 && Like(pattern[1..], text[1..][..j]) {
      assert text[..j + 1][1..] == text[1..][..j] && text[..j + 1][0] == text[0];
      assert (pattern[0] == '_' || AsciiLower(pattern[0]) == AsciiLower(text[0])) ==> Like(pattern, text[..j + 1]);
    }
  }

  /** What %fragment% matches, for every fragment: some stretch of the text matches the fragment as a pattern. */
  lemma FragmentMatchesSomewhere(fragment: string, text: string)
    ensures Like("%" + fragment + "%", text) <==> exists i, j :: 0 <= i <= j <= |text| && Like(fragment, text[i..j])
  {
    hide Like;
    var tail := fragment + "%";
    assert "%" + fragment + "%" == "%" + tail;
    AnyPrefix(tail, text);
    if i :| 0 <= i <= |text| && Like(tail, text[i..]) {
      var j := PrefixOfRest(fragment, text, i);
    }
    if i, j :| 0 <= i <= j <= |text| && Like(fragment, text[i..j]) {
      assert text[i..j] == text[i..][..j - i];
      AnySuffix(fragment, text[i..]);
      assert Like(tail, text[i..]);
    }
  }

  lemma PrefixOfRest(fragment: string, text: string, i: nat) returns (j: nat)
    requires i <= |text| && Like(fragment + "%", text[i..])
    ensures i <= j <= |text| && Like(fragment, text[i..j])
  {
    hide Like;
    AnySuffix(fragment, text[i..]);
    var n :| 0 <= n <= |text| - i && Like(fragment, text[i..][..n]);
    j := i + n;
    assert text[i..][..n] == text[i..j];
  }

  /** Without wildcards a pattern matches itself, up to ASCII case. */
  lemma {:induction false} PlainPattern(pattern: string, text: string)
    requires !HasWildcard(pattern)
    ensures Like(pattern, text) <==> SameUpToCase(pattern, text)
  {
    if pattern != "" && text != "" {
      assert pattern[0] in pattern;
      assert forall c :: c in pattern[1..] ==> c in pattern;
      PlainPattern(pattern[1..], text[1..]);
      LowerIsSameLetter(pattern[0], text[0]);
      hide SameLetter, AsciiLower;
      if SameUpToCase(pattern[1..], text[1..]) && SameLetter(pattern[0], text[0]) {
        forall i | 0 <= i < |pattern| && |pattern| == |text| ensures SameLetter(pattern[i], text[i]) {
          if i > 0 { assert pattern[i] == pattern[1..][i - 1] && text[i] == text[1..][i - 1]; }
        }
      }
      if SameUpToCase(pattern, text) {
        assert forall i :: 0 <= i < |pattern| - 1 ==> pattern[1..][i] == pattern[i + 1] && text[1..][i] == text[i + 1];
      }
    } else if pattern != "" {
      assert pattern[0] in pattern;
    }
  }

  /** The fragment stands in the text at position i, up to ASCII case. */
  predicate OccursAt(fragment: string, text: string, i: int) {
    0 <= i <= |text| - |fragment| && SameUpToCase(fragment, text[i..i + |fragment|])
  }

  ghost predicate IsSubstring(fragment: string, text: string) { exists i :: OccursAt(fragment, text, i) }

  /** %fragment% is a substring test, up to ASCII case, for fragments without wildcards. */
  lemma PlainFragmentIsSubstring(fragment: string, text: string)
    requires !HasWildcard(fragment)
    ensures Like("%" + fragment + "%", text) <==> IsSubstring(fragment, text)
  {
    hide Like, SameUpToCase;
    FragmentMatchesSomewhere(fragment, text);
    if i, j :| 0 <= i <= j <= |text| && Like(fragment, text[i..j]) {
      PlainPattern(fragment, text[i..j]);
      SameLength(fragment, text[i..j]);
      assert OccursAt(fragment, text, i);
    }
    if i :| OccursAt(fragment, text, i) {
      PlainPattern(fragment, text[i..i + |fragment|]);
    }
  }

  lemma SameLength(a: string, b: string)
    requires SameUpToCase(a, b)
    ensures |a| == |b|
  {
  }

  /** A text for the fragment's wildcards: nothing for %, a letter for _. */
  function Filled(fragment: string): string {
    if fragment == "" then ""
    else if fragment[0] == '%' then Filled(fragment[1..])
    else [if fragment[0] == '_' then 'x' else fragment[0]] + Filled(fragment[1..])
  }

  lemma {:induction false} FilledMatches(fragment: string)
    ensures Like(fragment, Filled(fragment))
    ensures |Filled(fragment)| <= |fragment|
    ensures '%' in fragment ==> |Filled(fragment)| < |fragment|
    ensures |Filled(fragment)| == |fragment| ==>
              forall i :: 0 <= i < |fragment| && fragment[i] == '_' ==> Filled(fragment)[i] == 'x'
  {
    if fragment != "" {
      var tail := fragment[1..];
      FilledMatches(tail);
      assert fragment == [fragment[0]] + tail;
      if fragment[0] != '%' {
        assert Filled(fragment)[1..] == Filled(tail);
      }
    }
  }

  /** A wildcard in a fragment finds a text that does not hold the fragment. */
  lemma WildcardBreaksSubstring(fragment: string)
    requires HasWildcard(fragment)
    ensures Like("%" + fragment + "%", Filled(fragment)) && !IsSubstring(fragment, Filled(fragment))
  {
    hide Like;
    var text := Filled(fragment);
    FilledMatches(fragment);
    FragmentMatchesSomewhere(fragment, text);
    assert text[0..|text|] == text;
    if '%' !in fragment && |text| == |fragment| {
      var j :| 0 <= j < |fragment| && fragment[j] == '_';
      assert !SameUpToCase(fragment, text) by { assert text[j] == 'x'; }
    }
  }

  /**
   * Wildcards in a request are not escaped: asking for a fragment is asking for the texts that hold it, up to
   * ASCII case, exactly when the fragment has no wildcard.
   */
  lemma SubstringExactlyWithoutWildcards(fragment: string)
    ensures (forall text :: Like("%" + fragment + "%", text) <==> IsSubstring(fragment, text)) <==>
            !HasWildcard(fragment)
  {
    hide Like, IsSubstring, HasWildcard;
    if HasWildcard(fragment) {
      WildcardBreaksSubstring(fragment);
    } else {
      forall text ensures Like("%" + fragment + "%", text) <==> IsSubstring(fragment, text) {
        PlainFragmentIsSubstring(fragment, text);
      }
    }
  }

  /** Wildcards in a request are not escaped: an underscore finds texts that do not hold one. */
  lemma UnderscoreIsNotEscaped()
    ensures Like("%" + "_" + "%", "a") && !IsSubstring("_", "a")
  {
    assert Like("_", "a"[0..1]) by { assert "_"[1..] == "" && "a"[0..1] == "a" && "a"[1..] == ""; }
    FragmentMatchesSomewhere("_", "a");
    assert "a"[0..1][0] == 'a' && "_"[0] == '_';
  }
}
