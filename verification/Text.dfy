/** Character classes (ASCII), trimming, numbers and text order, as the importers and SQLite use them. */
module Text {
  import opened Prelude

  predicate IsSpace(c: char) { '\t' <= c <= '\r' || '\U{1C}' <= c <= ' ' }

  predicate IsDigit(c: char) { '0' <= c <= '9' }

  predicate AllDigits(s: string) { forall i :: 0 <= i < |s| ==> IsDigit(s[i]) }

  /** str.isdigit: at least one character, all of them digits. */
  predicate IsDigitText(s: string) { s != "" && AllDigits(s) }

  // ---------------------------------------------------------------- trimming

  predicate Trimmed(s: string) { s == "" || (!IsSpace(s[0]) && !IsSpace(s[|s| - 1])) }

  function StripLeft(s: string): string {
    if s != "" && IsSpace(s[0]) then StripLeft(s[1..]) else s
  }

  function StripRight(s: string): (r: string)
    ensures r <= s
    ensures r == "" || !IsSpace(r[|r| - 1])
    ensures forall i :: |r| <= i < |s| ==> IsSpace(s[i])
  {
    if s != "" && IsSpace(s[|s| - 1]) then StripRight(s[..|s| - 1]) else s
  }

  /** str.strip. */
  function Strip(s: string): (r: string)
    ensures Trimmed(r)
    ensures Trimmed(s) ==> r == s
    ensures r == "" <==> forall i :: 0 <= i < |s| ==> IsSpace(s[i])
    ensures |r| <= |s|
  {
    StripLeftMeaning(s);
    StripRight(StripLeft(s))
  }

  lemma {:induction false} StripLeftMeaning(s: string)
    ensures var r := StripLeft(s);
      |r| <= |s| && r == s[|s| - |r|..] &&
      (r == "" || !IsSpace(r[0])) && forall i :: 0 <= i < |s| - |r| ==> IsSpace(s[i])
  {
    if s != "" && IsSpace(s[0]) {
      StripLeftMeaning(s[1..]);
      var r := StripLeft(s);
      forall i | 0 <= i < |s| - |r| ensures IsSpace(s[i]) {
        if i > 0 { assert s[i] == s[1..][i - 1]; }
      }
    }
  }

  /** The blanks of ASCII: tab, line feed, vertical tab, form feed, carriage return, the separators, space. */
  const BLANKS: string := "\t\n\U{0B}\U{0C}\r\U{1C}\U{1D}\U{1E}\U{1F} "

  predicate IsBlank(c: char) { c in BLANKS }

  /** s[i..j] with nothing but blanks around it, and none at its ends. */
  ghost predicate IsCore(s: string, i: nat, j: nat) {
    i <= j <= |s| && (forall k :: 0 <= k < i || j <= k < |s| ==> IsBlank(s[k])) &&
    (i < j ==> !IsBlank(s[i]) && !IsBlank(s[j - 1]))
  }

  /** Stripping leaves what stands between the blanks at both ends. */
  lemma StripExactly(s: string, r: string)
    ensures Strip(s) == r <==> exists i: nat, j: nat :: IsCore(s, i, j) && r == s[i..j]
  {
    hide Strip, IsBlank;
    var i, j := StrippedCore(s);
    if i': nat, j': nat :| IsCore(s, i', j') && r == s[i'..j'] {
      CoreIsUnique(s, i, j, i', j');
    }
  }

  lemma StrippedCore(s: string) returns (i: nat, j: nat)
    ensures IsCore(s, i, j) && Strip(s) == s[i..j]
  {
    StripLeftMeaning(s);
    var l := StripLeft(s);
    i, j := |s| - |l|, |s| - |l| + |Strip(s)|;
    hide IsSpace, IsBlank, StripLeft, StripRight;
    forall k | 0 <= k < i ensures IsBlank(s[k]) {
      BlanksAreSpaces(s[k]);
    }
    forall k | j <= k < |s| ensures IsBlank(s[k]) {
      assert s[k] == l[k - i];
      BlanksAreSpaces(s[k]);
    }
    if i < j {
      BlanksAreSpaces(s[i]);
      BlanksAreSpaces(s[j - 1]);
      assert s[i] == Strip(s)[0] && s[j - 1] == Strip(s)[|Strip(s)| - 1];
    }
  }

  lemma BlanksAreSpaces(c: char)
    ensures IsBlank(c) <==> IsSpace(c)
  {
    var code := c as int;
    if IsSpace(c) {
      var k := if code <= 13 then code - 9 else code - 28 + 5;
      assert BLANKS[k] == c;
    }
  }

  lemma CoreIsUnique(s: string, i: nat, j: nat, i': nat, j': nat)
    requires IsCore(s, i, j) && IsCore(s, i', j')
    ensures s[i..j] == s[i'..j']
  {
    hide IsBlank;
    if i < j {
      assert !IsBlank(s[i]) && !IsBlank(s[j - 1]);
      assert i' <= i && j <= j';
      assert !IsBlank(s[i']) && !IsBlank(s[j' - 1]);
    }
  }

  // ---------------------------------------------------------------- decimal numbers

  function DigitValue(c: char): nat
    requires IsDigit(c)
  {
    (c - '0') as int
  }

  function Digit(n: nat): (c: char)
    requires n < 10
    ensures IsDigit(c) && DigitValue(c) == n
  {
    '0' + n as char
  }

  /** int() of a digit string. */
  function NatValue(s: string): nat
    requires AllDigits(s)
  {
    if s == "" then 0 else 10 * NatValue(s[..|s| - 1]) + DigitValue(s[|s| - 1])
  }

  function Pow10(w: nat): (p: nat)
    ensures p > 0
  {
    if w == 0 then 1 else 10 * Pow10(w - 1)
  }

  /** A number in exactly w decimal digits, zero padded. */
  function Pad(n: nat, w: nat): (s: string)
    ensures |s| == w && AllDigits(s)
  {
    if w == 0 then "" else Pad(n / 10, w - 1) + [Digit(n % 10)]
  }

  lemma {:induction false} NatValueBound(s: string)
    requires AllDigits(s)
    ensures NatValue(s) < Pow10(|s|)
  {
    if s != "" { NatValueBound(s[..|s| - 1]); }
  }

  lemma NatValueOfLonger(init: string, last: char)
    requires AllDigits(init) && IsDigit(last)
    ensures AllDigits(init + [last]) && NatValue(init + [last]) == 10 * NatValue(init) + DigitValue(last)
  {
    assert (init + [last])[..|init|] == init;
  }

  lemma {:induction false} NatValueOfPad(n: nat, w: nat)
    requires n < Pow10(w)
    ensures NatValue(Pad(n, w)) == n
  {
    hide NatValue;
    if w == 0 {
      assert NatValue("") == 0 by { NatValueOfNone(); }
    } else {
      assert n / 10 < Pow10(w - 1);
      NatValueOfPad(n / 10, w - 1);
      hide Pow10;
      NatValueOfLonger(Pad(n / 10, w - 1), Digit(n % 10));
    }
  }

  lemma NatValueOfNone()
    ensures NatValue("") == 0
  {
  }

  lemma {:induction false} PadOfNatValue(s: string)
    requires AllDigits(s)
    ensures Pad(NatValue(s), |s|) == s
  {
    if s != "" {
      PadOfNatValue(s[..|s| - 1]);
      assert s == s[..|s| - 1] + [s[|s| - 1]];
    }
  }

  // ---------------------------------------------------------------- text order

  /** Code point order, which is SQLite's BINARY collation of TEXT and Python's order of str. */
  predicate TextLe(a: string, b: string) {
    a == "" || (b != "" && (a[0] < b[0] || (a[0] == b[0] && TextLe(a[1..], b[1..]))))
  }

  lemma {:induction false} TextLeReflexive(a: string)
    ensures TextLe(a, a)
  {
    if a != "" { TextLeReflexive(a[1..]); }
  }

  lemma {:induction false} TextLeTotal(a: string, b: string)
    ensures TextLe(a, b) || TextLe(b, a)
  {
    if a != "" && b != "" { TextLeTotal(a[1..], b[1..]); }
  }

  lemma {:induction false} TextLeTransitive(a: string, b: string, c: string)
    requires TextLe(a, b) && TextLe(b, c)
    ensures TextLe(a, c)
  {
    if a != "" && a[0] == b[0] == c[0] { TextLeTransitive(a[1..], b[1..], c[1..]); }
  }

  lemma {:induction false} TextLeAntisymmetric(a: string, b: string)
    requires TextLe(a, b) && TextLe(b, a)
    ensures a == b
  {
    if a != "" {
      TextLeAntisymmetric(a[1..], b[1..]);
      assert a == [a[0]] + a[1..] && b == [b[0]] + b[1..];
    }
  }

  /** Texts with prefixes of one length are ordered by the prefix first, then by the rest. */
  lemma {:induction false} TextLeConcat(p: string, q: string, a: string, b: string)
    requires |p| == |q|
    ensures TextLe(p + a, q + b) <==> (p != q && TextLe(p, q)) || (p == q && TextLe(a, b))
  {
    if p == "" {
      assert p + a == a && q + b == b;
    } else {
      TextLeConcat(p[1..], q[1..], a, b);
      assert (p + a)[1..] == p[1..] + a && (q + b)[1..] == q[1..] + b;
      assert p == q <==> p[0] == q[0] && p[1..] == q[1..] by {
        assert p == [p[0]] + p[1..] && q == [q[0]] + q[1..];
      }
    }
  }

  lemma TextLeOfChar(x: char, y: char)
    ensures TextLe([x], [y]) <==> x <= y
  {
    assert [x][1..] == "" && [y][1..] == "";
  }

  /** Digit strings of one length are ordered as the numbers they denote. */
  lemma {:induction false} TextLeOfDigits(a: string, b: string)
    requires |a| == |b| && AllDigits(a) && AllDigits(b)
    ensures TextLe(a, b) <==> NatValue(a) <= NatValue(b)
  {
    if a != "" {
      var n := |a| - 1;
      var p, q := a[..n], b[..n];
      assert a == p + [a[n]] && b == q + [b[n]];
      TextLeOfDigits(p, q);
      TextLeConcat(p, q, [a[n]], [b[n]]);
      TextLeOfChar(a[n], b[n]);
      DigitsInjective(p, q);
    }
  }

  lemma DigitsInjective(p: string, q: string)
    requires |p| == |q| && AllDigits(p) && AllDigits(q)
    ensures p == q <==> NatValue(p) == NatValue(q)
  {
    PadOfNatValue(p);
    PadOfNatValue(q);
  }

  // ---------------------------------------------------------------- splitting

  function Split(s: string, c: char): (pieces: seq<string>)
    ensures |pieces| >= 1
  {
    if s == "" then [""]
    else
      var rest := Split(s[1..], c);
      if s[0] == c then [""] + rest else [[s[0]] + rest[0]] + rest[1..]
  }

  /** The inverse of Split for pieces that do not hold the separator. */
  function Join(pieces: seq<string>, c: char): string
    requires pieces != []
  {
    if |pieces| == 1 then pieces[0] else pieces[0] + [c] + Join(pieces[1..], c)
  }

  lemma {:induction false} JoinOfSplit(s: string, c: char)
    ensures Join(Split(s, c), c) == s
    ensures forall i :: 0 <= i < |Split(s, c)| ==> c !in Split(s, c)[i]
  {
    if s != "" {
      JoinOfSplit(s[1..], c);
      var rest := Split(s[1..], c);
      assert s == [s[0]] + s[1..];
      if s[0] == c {
        assert ([""] + rest)[1..] == rest;
        assert "" + [c] + Join(rest, c) == [c] + Join(rest, c);
      } else {
        assert ([[s[0]] + rest[0]] + rest[1..])[1..] == rest[1..];
      }
    }
  }

  lemma {:induction false} SplitOfPrefix(p: string, s: string, c: char)
    requires c !in p
    ensures Split(p, c) == [p]
    ensures Split(p + [c] + s, c) == [p] + Split(s, c)
  {
    if p == "" {
      assert p + [c] + s == [c] + s && ([c] + s)[1..] == s;
    } else {
      SplitOfPrefix(p[1..], s, c);
      var t := p + [c] + s;
      assert t[1..] == p[1..] + [c] + s;
      assert p == [p[0]] + p[1..];
      assert Split(t, c) == [[p[0]] + p[1..]] + Split(s, c);
    }
  }

  // ---------------------------------------------------------------- field values

  /** _optional_text: the trimmed text, unless nothing is left. */
  function OptionalText(value: Option<string>): (r: Option<string>)
    ensures r.Some? ==> r.value != "" && Trimmed(r.value)
    ensures r.Some? <==> value.Some? && exists i :: 0 <= i < |value.value| && !IsSpace(value.value[i])
  {
    if value.Some? && Strip(value.value) != "" then Some(Strip(value.value)) else None
  }

  predicate AllDigitTexts(pieces: seq<string>) { forall i :: 0 <= i < |pieces| ==> IsDigitText(pieces[i]) }

  /** The pieces one after another. */
  function Flat(pieces: seq<string>): string { if pieces == [] then "" else pieces[0] + Flat(pieces[1..]) }

  lemma {:induction false} FlatIsDigits(pieces: seq<string>)
    requires AllDigitTexts(pieces)
    ensures AllDigits(Flat(pieces))
  {
    if pieces != [] {
      FlatIsDigits(pieces[1..]);
      assert IsDigitText(pieces[0]);
    }
  }

  /** CPython's limit: int() raises ValueError for a text of more digits, leading zeros included. */
  const DIGIT_LIMIT: nat := 4300

  /** The text after the sign of int(): digits, in groups between single underscores. */
  function UnsignedOrNone(body: string): Option<int> {
    var groups := Split(body, '_');
    if AllDigitTexts(groups) && |Flat(groups)| <= DIGIT_LIMIT then
      FlatIsDigits(groups);
      Some(NatValue(Flat(groups)))
    else None
  }

  /** The four separators that str.strip removes, while int() accepts no text that holds one. */
  predicate HasSeparator(s: string) { exists i :: 0 <= i < |s| && '\U{1C}' <= s[i] <= '\U{1F}' }

  /** _integer_or_none: Python's int() of a text, None where it raises ValueError. */
  function IntegerOrNone(value: Option<string>): Option<int> {
    if value.None? || HasSeparator(value.value) then None
    else
      var s := Strip(value.value);
      if s != "" && s[0] == '-' then
        match UnsignedOrNone(s[1..]) case None => None case Some(n) => Some(-n)
      else if s != "" && s[0] == '+' then UnsignedOrNone(s[1..])
      else UnsignedOrNone(s)
  }

  lemma UnsignedOfDigits(s: string)
    requires IsDigitText(s)
    ensures UnsignedOrNone(s) == if |s| <= DIGIT_LIMIT then Some(NatValue(s)) else None
  {
    assert '_' !in s;
    SplitOfPrefix(s, "", '_');
    assert [s][1..] == [] && Flat([s]) == s + "" == s;
  }

  lemma DigitsAreNoBlanks(s: string)
    requires IsDigitText(s)
    ensures Trimmed(s) && !HasSeparator(s) && s[0] != '-' && s[0] != '+'
  {
    assert IsDigit(s[0]) && IsDigit(s[|s| - 1]);
  }

  /** A plain digit string is read as the number it denotes, unless it is too long. */
  lemma IntegerOfDigits(s: string)
    requires IsDigitText(s)
    ensures IntegerOrNone(Some(s)) == if |s| <= DIGIT_LIMIT then Some(NatValue(s)) else None
  {
    hide NatValue, UnsignedOrNone, Strip;
    UnsignedOfDigits(s);
    DigitsAreNoBlanks(s);
    hide IsDigitText, HasSeparator;
    assert Strip(s) == s;
  }

  lemma {:induction false} JoinedDigits(pieces: seq<string>)
    requires pieces != [] && AllDigitTexts(pieces)
    ensures forall i :: 0 <= i < |Join(pieces, '_')| ==> Join(pieces, '_')[i] == '_' || IsDigit(Join(pieces, '_')[i])
  {
    assert IsDigitText(pieces[0]);
    if |pieces| > 1 { JoinedDigits(pieces[1..]); }
  }

  lemma NoSeparatorInNumber(t: string, n: int)
    requires t != "" && t[0] == '-' && UnsignedOrNone(t[1..]) == Some(n)
    ensures !HasSeparator(t)
  {
    hide NatValue, Flat, Split;
    JoinOfSplit(t[1..], '_');
    JoinedDigits(Split(t[1..], '_'));
    forall i | 0 <= i < |t| ensures !('\U{1C}' <= t[i] <= '\U{1F}') {
      if i > 0 { assert t[i] == t[1..][i - 1]; }
    }
  }

  /** A leading minus negates the number after it. */
  lemma IntegerOfNegated(t: string, n: int)
    requires t != "" && t[0] == '-' && !IsSpace(t[|t| - 1]) && UnsignedOrNone(t[1..]) == Some(n)
    ensures IntegerOrNone(Some(t)) == Some(-n)
  {
    NoSeparatorInNumber(t, n);
    hide UnsignedOrNone, Strip, HasSeparator;
    assert Strip(t) == t;
  }

  /** At most 4300 digits in groups between single underscores, and the number they denote. */
  ghost predicate SpellsNatural(text: string, groups: seq<string>, n: int) {
    groups != [] && AllDigitTexts(groups) && text == Join(groups, '_') && |Flat(groups)| <= 4300 &&
    AllDigits(Flat(groups)) && n == NatValue(Flat(groups))
  }

  lemma {:induction false} SplitOfJoin(pieces: seq<string>)
    requires pieces != [] && AllDigitTexts(pieces)
    ensures Split(Join(pieces, '_'), '_') == pieces
    ensures Join(pieces, '_') != "" && IsDigit(Join(pieces, '_')[0])
  {
    var first := pieces[0];
    assert IsDigitText(first);
    assert '_' !in first;
    SplitOfPrefix(first, "", '_');
    if |pieces| == 1 {
      assert [first] == pieces;
    } else {
      SplitOfJoin(pieces[1..]);
      SplitOfPrefix(first, Join(pieces[1..], '_'), '_');
      assert [first] + pieces[1..] == pieces;
    }
  }

  lemma UnsignedExactly(body: string, n: int)
    ensures UnsignedOrNone(body) == Some(n) <==> exists groups :: SpellsNatural(body, groups, n)
  {
    hide Split, Join, NatValue, Flat, AllDigitTexts;
    JoinOfSplit(body, '_');
    if UnsignedOrNone(body) == Some(n) {
      FlatIsDigits(Split(body, '_'));
      assert SpellsNatural(body, Split(body, '_'), n);
    }
    if groups :| SpellsNatural(body, groups, n) {
      SplitOfJoin(groups);
    }
  }

  ghost predicate IsSpelled(text: string, n: int) { exists groups :: SpellsNatural(text, groups, n) }

  lemma SpelledStartsWithDigit(text: string, n: int)
    requires IsSpelled(text, n)
    ensures text != "" && IsDigit(text[0])
  {
    var groups :| SpellsNatural(text, groups, n);
    SplitOfJoin(groups);
  }

  /** The numbers that the importer takes, and what they denote: a natural number, or one after a sign. */
  lemma IntegerExactly(v: string, n: int)
    ensures IntegerOrNone(Some(v)) == Some(n) <==>
            (forall i :: 0 <= i < |v| ==> v[i] !in {'\U{1C}', '\U{1D}', '\U{1E}', '\U{1F}'}) &&
            var s := Strip(v);
            IsSpelled(s, n) || (s != "" && s[0] == '+' && IsSpelled(s[1..], n)) ||
            (s != "" && s[0] == '-' && IsSpelled(s[1..], -n))
  {
    hide Strip, UnsignedOrNone, IsSpelled;
    var s := Strip(v);
    SeparatorExactly(v);
    IsSpelledExactly(s, n);
    if IsSpelled(s, n) { SpelledStartsWithDigit(s, n); }
    if s != "" {
      IsSpelledExactly(s[1..], n);
      IsSpelledExactly(s[1..], -n);
    }
  }

  lemma IsSpelledExactly(body: string, n: int)
    ensures UnsignedOrNone(body) == Some(n) <==> IsSpelled(body, n)
  {
    hide UnsignedOrNone, SpellsNatural;
    UnsignedExactly(body, n);
  }

  lemma SeparatorExactly(v: string)
    ensures HasSeparator(v) <==> exists i :: 0 <= i < |v| && v[i] in {'\U{1C}', '\U{1D}', '\U{1E}', '\U{1F}'}
  {
    forall i | 0 <= i < |v| && '\U{1C}' <= v[i] <= '\U{1F}'
      ensures v[i] in {'\U{1C}', '\U{1D}', '\U{1E}', '\U{1F}'}
    {
      assert 28 <= v[i] as int <= 31;
    }
  }

  /** One past the latest accepted departure time, 47:59:59. */
  const TIME_LIMIT: int := 172800

  /** _time_seconds_or_none: H:M:S with hours up to 47. A group of too many digits raises. */
  function TimeSecondsOrNone(value: Option<string>): (r: Result<Option<int>>)
    ensures r.Success? && r.value.Some? ==> 0 <= r.value.value < TIME_LIMIT
  {
    if value.None? then Success(None)
    else
      var pieces := Split(Strip(value.value), ':');
      if |pieces| != 3 || !IsDigitText(pieces[0]) || !IsDigitText(pieces[1]) ||
        !IsDigitText(pieces[2]) then Success(None)
      else if |pieces[0]| > DIGIT_LIMIT || |pieces[1]| > DIGIT_LIMIT || |pieces[2]| > DIGIT_LIMIT then Failure
      else
        var hour, minute, second := NatValue(pieces[0]), NatValue(pieces[1]), NatValue(pieces[2]);
        if hour > 47 || minute > 59 || second > 59 then Success(None)
        else Success(Some(hour * 3600 + minute * 60 + second))
  }

  /** HH:MM:SS, hours counted on past 24. */
  function FormatTime(seconds: nat): string {
    Join([Pad(seconds / 3600, 2), Pad(seconds / 60 % 60, 2), Pad(seconds % 60, 2)], ':')
  }

  lemma SplitOfThree(h: string, m: string, s: string)
    requires IsDigitText(h) && IsDigitText(m) && IsDigitText(s)
    ensures Split(Join([h, m, s], ':'), ':') == [h, m, s]
    ensures Trimmed(Join([h, m, s], ':'))
  {
    assert [h, m, s][1..] == [m, s] && [m, s][1..] == [s];
    assert Join([m, s], ':') == m + [':'] + s;
    hide Split;
    SplitOfPrefix(h, m + [':'] + s, ':');
    SplitOfPrefix(m, s, ':');
    SplitOfPrefix(s, "", ':');
    assert [h] + ([m] + [s]) == [h, m, s];
    EndsOfJoin(h, m, s);
  }

  lemma EndsOfJoin(h: string, m: string, s: string)
    requires IsDigitText(h) && IsDigitText(m) && IsDigitText(s)
    ensures Trimmed(h + [':'] + (m + [':'] + s))
  {
    var text := h + [':'] + (m + [':'] + s);
    assert text[0] == h[0] && text[|text| - 1] == s[|s| - 1];
  }

  lemma TwoDigits(n: nat)
    requires n < 100
    ensures NatValue(Pad(n, 2)) == n
  {
    assert Pow10(2) == 100 by { assert Pow10(0) == 1; }
    NatValueOfPad(n, 2);
  }

  lemma TimeOfThree(h: string, m: string, s: string)
    requires IsDigitText(h) && IsDigitText(m) && IsDigitText(s)
    requires |h| <= DIGIT_LIMIT && |m| <= DIGIT_LIMIT && |s| <= DIGIT_LIMIT
    requires NatValue(h) <= 47 && NatValue(m) <= 59 && NatValue(s) <= 59
    ensures TimeSecondsOrNone(Some(Join([h, m, s], ':'))) ==
            Success(Some(NatValue(h) * 3600 + NatValue(m) * 60 + NatValue(s)))
  {
    hide Join, Split, NatValue, Strip;
    SplitOfThree(h, m, s);
  }

  lemma HoursMinutesSeconds(seconds: nat, h: nat, m: nat, s: nat)
    requires seconds < TIME_LIMIT
    requires h == seconds / 3600 && m == seconds / 60 % 60 && s == seconds % 60
    ensures h * 3600 + m * 60 + s == seconds && h <= 47 && m <= 59 && s <= 59
  {
    var minutes := seconds / 60;
    assert seconds == minutes * 60 + s;
    assert minutes == minutes / 60 * 60 + m;
    assert minutes / 60 == h;
  }

  /** The parser accepts every second below the limit, and reads back the second that was written. */
  lemma TimeRoundTrip(seconds: nat)
    requires seconds < TIME_LIMIT
    ensures TimeSecondsOrNone(Some(FormatTime(seconds))) == Success(Some(seconds))
  {
    var h, m, s := seconds / 3600, seconds / 60 % 60, seconds % 60;
    HoursMinutesSeconds(seconds, h, m, s);
    var hh, mm, ss := Pad(h, 2), Pad(m, 2), Pad(s, 2);
    assert NatValue(hh) == h && NatValue(mm) == m && NatValue(ss) == s by {
      TwoDigits(h);
      TwoDigits(m);
      TwoDigits(s);
    }
    TimeOfThree(hh, mm, ss);
  }

  lemma JoinOfThree(h: string, m: string, s: string)
    ensures Join([h, m, s], ':') == h + ":" + m + ":" + s
  {
    assert [h, m, s][1..] == [m, s] && [m, s][1..] == [s];
    assert Join([m, s], ':') == m + [':'] + s;
    assert h + ":" + m + ":" + s == h + [':'] + (m + [':'] + s);
  }

  predicate IsGroupTime(text: string, h: string, m: string, s: string) {
    IsDigitText(h) && IsDigitText(m) && IsDigitText(s) && text == h + ":" + m + ":" + s
  }

  predicate IsShort(h: string, m: string, s: string) { |h| <= 4300 && |m| <= 4300 && |s| <= 4300 }

  /**
   * The times that the importer takes, and the seconds they denote: up to outer blanks three digit groups between
   * colons, up to 47 hours, 59 minutes and 59 seconds. Groups of more than 4300 digits are not read.
   */
  lemma TimeExactly(v: string, seconds: int)
    ensures TimeSecondsOrNone(Some(v)) == Success(Some(seconds)) <==>
            exists h, m, s :: IsGroupTime(Strip(v), h, m, s) && IsShort(h, m, s) &&
                              NatValue(h) <= 47 && NatValue(m) <= 59 && NatValue(s) <= 59 &&
                              seconds == NatValue(h) * 3600 + NatValue(m) * 60 + NatValue(s)
    ensures TimeSecondsOrNone(Some(v)).Failure? <==>
            exists h, m, s :: IsGroupTime(Strip(v), h, m, s) && !IsShort(h, m, s)
  {
    hide NatValue, Split, Strip, AllDigits, Join;
    var text := Strip(v);
    var pieces := Split(text, ':');
    JoinOfSplit(text, ':');
    if |pieces| == 3 {
      assert pieces == [pieces[0], pieces[1], pieces[2]];
      JoinOfThree(pieces[0], pieces[1], pieces[2]);
      if IsDigitText(pieces[0]) && IsDigitText(pieces[1]) && IsDigitText(pieces[2]) {
        assert IsGroupTime(text, pieces[0], pieces[1], pieces[2]);
      }
    }
    forall h, m, s | IsGroupTime(text, h, m, s) ensures pieces == [h, m, s] {
      JoinOfThree(h, m, s);
      SplitOfThree(h, m, s);
    }
  }
}
