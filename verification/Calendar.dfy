/**
 * The proleptic Gregorian calendar of Python's datetime.date. A day is its ordinal (day 1 is
 * 0001-01-01); the texts YYYYMMDD and YYYY-MM-DD are read and written through Civil dates.
 */
module Calendar {
  import opened Prelude
  import opened Text

  type Day = int

  datatype Civil = Civil(year: int, month: int, day: int)

  /** date.max, 9999-12-31. */
  const MAX_DAY: Day := 3652059

  /** 1970-01-01, the day of POSIX time zero. */
  const EPOCH_DAY: Day := 719163

  const SECONDS_PER_DAY: int := 86400

  predicate IsLeap(y: int) { y % 4 == 0 && (y % 100 != 0 || y % 400 == 0) }

  function DaysInMonth(y: int, m: int): int
    requires 1 <= m <= 12
  {
    if m == 2 then (if IsLeap(y) then 29 else 28)
    else if m == 4 || m == 6 || m == 9 || m == 11 then 30
    else 31
  }

  predicate IsCivil(c: Civil) {
    1 <= c.year && 1 <= c.month <= 12 && 1 <= c.day <= DaysInMonth(c.year, c.month)
  }

  function DaysBeforeYear(y: int): int {
    365 * (y - 1) + (y - 1) / 4 - (y - 1) / 100 + (y - 1) / 400
  }

  function DaysBeforeMonth(y: int, m: int): int
    requires 1 <= m <= 13
  {
    if m == 1 then 0 else DaysBeforeMonth(y, m - 1) + DaysInMonth(y, m - 1)
  }

  /** date.toordinal. */
  function ToDay(c: Civil): Day
    requires IsCivil(c)
  {
    DaysBeforeYear(c.year) + DaysBeforeMonth(c.year, c.month) + c.day
  }

  /** The civil date after c. */
  function Next(c: Civil): (n: Civil)
    requires IsCivil(c)
    ensures IsCivil(n)
  {
    if c.day < DaysInMonth(c.year, c.month) then Civil(c.year, c.month, c.day + 1)
    else if c.month < 12 then Civil(c.year, c.month + 1, 1)
    else Civil(c.year + 1, 1, 1)
  }

  /** date.fromordinal: count civil dates up from 0001-01-01. */
  function ToCivil(d: Day): (c: Civil)
    requires d >= 1
    ensures IsCivil(c)
  {
    if d == 1 then Civil(1, 1, 1) else Next(ToCivil(d - 1))
  }

  /** date.weekday: 0 is Monday. */
  function Weekday(d: Day): (w: int)
    ensures 0 <= w < 7
  {
    (d + 6) % 7
  }

  // ---------------------------------------------------------------- days and civil dates

  lemma QuotientSteps(y: int)
    ensures y / 4 == (y - 1) / 4 + (if y % 4 == 0 then 1 else 0)
    ensures y / 100 == (y - 1) / 100 + (if y % 100 == 0 then 1 else 0)
    ensures y / 400 == (y - 1) / 400 + (if y % 400 == 0 then 1 else 0)
  {
  }

  lemma MultipleOf400(y: int, q: int)
    requires y == 400 * q
    ensures y % 100 == 0
  {
  }

  lemma MultipleOf100(y: int, q: int)
    requires y == 100 * q
    ensures y % 4 == 0
  {
  }

  lemma YearLength(y: int)
    ensures DaysBeforeYear(y + 1) == DaysBeforeYear(y) + (if IsLeap(y) then 366 else 365)
    ensures DaysBeforeMonth(y, 13) == if IsLeap(y) then 366 else 365
  {
    QuotientSteps(y);
    if y % 400 == 0 { MultipleOf400(y, y / 400); }
    if y % 100 == 0 { MultipleOf100(y, y / 100); }
    MonthStarts(y);
  }

  lemma MonthStarts(y: int)
    ensures var leap := if IsLeap(y) then 1 else 0;
      DaysBeforeMonth(y, 2) == 31 && DaysBeforeMonth(y, 3) == 59 + leap &&
      DaysBeforeMonth(y, 6) == 151 + leap && DaysBeforeMonth(y, 9) == 243 + leap &&
      DaysBeforeMonth(y, 12) == 334 + leap && DaysBeforeMonth(y, 13) == 365 + leap
  {
    assert DaysBeforeMonth(y, 4) == DaysBeforeMonth(y, 3) + 31;
    assert DaysBeforeMonth(y, 5) == DaysBeforeMonth(y, 4) + 30;
    assert DaysBeforeMonth(y, 7) == DaysBeforeMonth(y, 6) + 30;
    assert DaysBeforeMonth(y, 8) == DaysBeforeMonth(y, 7) + 31;
    assert DaysBeforeMonth(y, 10) == DaysBeforeMonth(y, 9) + 30;
    assert DaysBeforeMonth(y, 11) == DaysBeforeMonth(y, 10) + 31;
  }

  lemma NextIsOneDayLater(c: Civil)
    requires IsCivil(c)
    ensures ToDay(Next(c)) == ToDay(c) + 1
  {
    if c.day < DaysInMonth(c.year, c.month) {
    } else if c.month < 12 {
    } else {
      YearLength(c.year);
    }
  }

  lemma {:induction false} DayOfCivil(d: Day)
    requires d >= 1
    ensures ToDay(ToCivil(d)) == d
  {
    if d > 1 {
      DayOfCivil(d - 1);
      NextIsOneDayLater(ToCivil(d - 1));
    }
  }

  /** Chronological order of civil dates: by year, then month, then day. */
  predicate Before(a: Civil, b: Civil) {
    a.year < b.year || (a.year == b.year && (a.month < b.month || (a.month == b.month && a.day < b.day)))
  }

  lemma {:induction false} MonthsGrow(y: int, m: int, k: int)
    requires 1 <= m < k <= 13
    ensures DaysBeforeMonth(y, m) + DaysInMonth(y, m) <= DaysBeforeMonth(y, k)
    decreases k
  {
    if k > m + 1 { MonthsGrow(y, m, k - 1); }
  }

  lemma {:induction false} YearsGrow(y: int, z: int)
    requires y < z
    ensures DaysBeforeYear(y) + DaysBeforeMonth(y, 13) <= DaysBeforeYear(z)
    decreases z - y
  {
    if z == y + 1 {
      YearLength(y);
    } else {
      YearsGrow(y, z - 1);
      YearLength(z - 1);
    }
  }

  lemma LaterDay(a: Civil, b: Civil)
    requires IsCivil(a) && IsCivil(b) && Before(a, b)
    ensures ToDay(a) < ToDay(b)
  {
    if a.year < b.year {
      YearsGrow(a.year, b.year);
      MonthsGrow(a.year, a.month, 13);
      if b.month > 1 { MonthsGrow(b.year, 1, b.month); }
    } else if a.month < b.month {
      MonthsGrow(a.year, a.month, b.month);
    }
  }

  lemma DayInjective(a: Civil, b: Civil)
    requires IsCivil(a) && IsCivil(b) && ToDay(a) == ToDay(b)
    ensures a == b
  {
    if Before(a, b) { LaterDay(a, b); }
    if Before(b, a) { LaterDay(b, a); }
  }

  lemma DayPositive(c: Civil)
    requires IsCivil(c)
    ensures ToDay(c) >= 1
  {
    YearLength(1);
    if c.year > 1 { YearsGrow(1, c.year); }
    if c.month > 1 { MonthsGrow(c.year, 1, c.month); }
  }

  lemma CivilOfDay(c: Civil)
    requires IsCivil(c)
    ensures ToDay(c) >= 1 && ToCivil(ToDay(c)) == c
  {
    DayPositive(c);
    DayOfCivil(ToDay(c));
    DayInjective(c, ToCivil(ToDay(c)));
  }

  lemma KnownDays()
    ensures ToDay(Civil(1970, 1, 1)) == EPOCH_DAY && Weekday(EPOCH_DAY) == 3
    ensures ToDay(Civil(9999, 12, 31)) == MAX_DAY
    ensures ToDay(Civil(2000, 1, 1)) == 730120 && ToDay(Civil(2100, 12, 31)) == 767009
  {
    MonthStarts(9999);
    MonthStarts(2100);
  }

  lemma YearOfDay(d: Day)
    requires 1 <= d <= MAX_DAY
    ensures 1 <= ToCivil(d).year <= 9999
  {
    DayOfCivil(d);
    KnownDays();
    var c := ToCivil(d);
    if c.year > 9999 {
      LaterDay(Civil(9999, 12, 31), c);
    }
  }

  // ---------------------------------------------------------------- texts

  /** date.isoformat: YYYY-MM-DD. */
  function Iso(d: Day): (s: string)
    requires 1 <= d <= MAX_DAY
    ensures |s| == 10
  {
    var c := ToCivil(d);
    YearOfDay(d);
    Pad(c.year, 4) + "-" + (Pad(c.month, 2) + "-" + Pad(c.day, 2))
  }

  /** _date_or_none: eight digits naming a real day of the years 2000 to 2100. */
  function DateOrNone(value: Option<string>): Option<Day> {
    if value.None? || |value.value| != 8 || !AllDigits(value.value) then None
    else
      var v := value.value;
      var c := Civil(NatValue(v[..4]), NatValue(v[4..6]), NatValue(v[6..]));
      if !IsCivil(c) || c.year > 9999 || !(2000 <= c.year <= 2100) then None else Some(ToDay(c))
  }

  const FIRST_SERVICE_DAY: Day := 730120
  const LAST_SERVICE_DAY: Day := 767009

  function WithoutHyphens(iso: string): string
    requires |iso| == 10
  {
    iso[..4] + iso[5..7] + iso[8..]
  }

  function WithHyphens(v: string): string
    requires |v| == 8
  {
    v[..4] + "-" + v[4..6] + "-" + v[6..]
  }

  lemma AcceptedRange(value: Option<string>)
    requires DateOrNone(value).Some?
    ensures FIRST_SERVICE_DAY <= DateOrNone(value).value <= LAST_SERVICE_DAY
  {
    var v := value.value;
    var c := Civil(NatValue(v[..4]), NatValue(v[4..6]), NatValue(v[6..]));
    KnownDays();
    if c != Civil(2000, 1, 1) { LaterDay(Civil(2000, 1, 1), c); }
    if c != Civil(2100, 12, 31) { LaterDay(c, Civil(2100, 12, 31)); }
  }

  /** Reading an accepted YYYYMMDD and writing ISO only inserts the hyphens. */
  lemma IsoOfAccepted(v: string)
    requires DateOrNone(Some(v)).Some?
    ensures 1 <= DateOrNone(Some(v)).value <= MAX_DAY
    ensures Iso(DateOrNone(Some(v)).value) == WithHyphens(v)
  {
    AcceptedRange(Some(v));
    CivilOfDay(Civil(NatValue(v[..4]), NatValue(v[4..6]), NatValue(v[6..])));
    PadOfNatValue(v[..4]);
    PadOfNatValue(v[4..6]);
    PadOfNatValue(v[6..]);
  }

  /** The three fields of an ISO text, as digit groups and as numbers. */
  ghost predicate Spells(s: string, c: Civil) {
    |s| == 10 && s[4] == '-' && s[7] == '-' &&
    AllDigits(s[..4]) && AllDigits(s[5..7]) && AllDigits(s[8..]) &&
    c == Civil(NatValue(s[..4]), NatValue(s[5..7]), NatValue(s[8..]))
  }

  lemma IsoParts(d: Day)
    requires 1 <= d <= MAX_DAY
    ensures Spells(Iso(d), ToCivil(d))
  {
    var c := ToCivil(d);
    YearOfDay(d);
    var y, m, e := Pad(c.year, 4), Pad(c.month, 2), Pad(c.day, 2);
    assert NatValue(y) == c.year && NatValue(m) == c.month && NatValue(e) == c.day by {
      assert Pow10(2) == 100 by { assert Pow10(0) == 1; }
      assert Pow10(4) == 10000;
      NatValueOfPad(c.year, 4);
      NatValueOfPad(c.month, 2);
      NatValueOfPad(c.day, 2);
    }
    HyphenatedParts(y, m, e);
  }

  lemma HyphenatedParts(y: string, m: string, e: string)
    requires |y| == 4 && |m| == 2 && |e| == 2
    ensures var s := y + "-" + (m + "-" + e);
      |s| == 10 && s[..4] == y && s[5..7] == m && s[8..] == e && s[4] == '-' && s[7] == '-'
  {
  }

  /** Every day of 2000 to 2100 is read back from its own ISO text: no accepted day is lost. */
  lemma AcceptedOfIso(d: Day)
    requires FIRST_SERVICE_DAY <= d <= LAST_SERVICE_DAY
    ensures DateOrNone(Some(WithoutHyphens(Iso(d)))) == Some(d)
  {
    var c := ToCivil(d);
    var v := WithoutHyphens(Iso(d));
    IsoParts(d);
    DayOfCivil(d);
    KnownDays();
    if c.year < 2000 { LaterDay(c, Civil(2000, 1, 1)); }
    if c.year > 2100 { LaterDay(Civil(2100, 12, 31), c); }
    assert v[..4] == Iso(d)[..4] && v[4..6] == Iso(d)[5..7] && v[6..] == Iso(d)[8..];
    assert AllDigits(v) by {
      forall i | 0 <= i < 8 ensures IsDigit(v[i]) {
        if i < 4 { assert v[i] == v[..4][i]; }
        else if i < 6 { assert v[i] == v[4..6][i - 4]; }
        else { assert v[i] == v[6..][i - 6]; }
      }
    }
  }

  /** The dates that the importer takes: the days of 2000-01-01 to 2100-12-31, each in one spelling. */
  lemma DateExactly(v: string, d: Day)
    ensures DateOrNone(Some(v)) == Some(d) <==> 730120 <= d <= 767009 && v == WithoutHyphens(Iso(d))
    ensures ToDay(Civil(2000, 1, 1)) == 730120 && ToDay(Civil(2100, 12, 31)) == 767009
  {
    KnownDays();
    hide Iso, ToDay, DateOrNone;
    if DateOrNone(Some(v)) == Some(d) {
      AcceptedRange(Some(v));
      IsoOfAccepted(v);
      HyphensOff(v);
    }
    if 730120 <= d <= 767009 { AcceptedOfIso(d); }
  }

  lemma HyphensOff(v: string)
    requires DateOrNone(Some(v)).Some?
    ensures |v| == 8 && WithoutHyphens(WithHyphens(v)) == v
  {
    hide NatValue, ToDay;
    var w := WithHyphens(v);
    assert w[..4] == v[..4] && w[5..7] == v[4..6] && w[8..] == v[6..];
    assert v == v[..4] + v[4..6] + v[6..];
  }

  /** Text order of ISO dates is chronological order. */
  lemma IsoOrder(a: Day, b: Day)
    requires 1 <= a <= MAX_DAY && 1 <= b <= MAX_DAY
    ensures TextLe(Iso(a), Iso(b)) <==> a <= b
    ensures Iso(a) == Iso(b) <==> a == b
  {
    IsoParts(a);
    IsoParts(b);
    IsoTextOrder(a, b);
    var c, e := ToCivil(a), ToCivil(b);
    DayOfCivil(a);
    DayOfCivil(b);
    if Before(c, e) { LaterDay(c, e); }
    if Before(e, c) { LaterDay(e, c); }
  }

  lemma IsoTextOrder(a: Day, b: Day)
    requires 1 <= a <= MAX_DAY && 1 <= b <= MAX_DAY
    ensures TextLe(Iso(a), Iso(b)) <==> !Before(ToCivil(b), ToCivil(a))
  {
    IsoParts(a);
    IsoParts(b);
    HyphenatedOrder(Iso(a), Iso(b), ToCivil(a), ToCivil(b));
  }

  lemma HyphenatedOrder(s: string, t: string, a: Civil, b: Civil)
    requires Spells(s, a) && Spells(t, b)
    ensures TextLe(s, t) <==> !Before(b, a)
  {
    var s', t' := s[5..], t[5..];
    assert s'[..2] == s[5..7] && t'[..2] == t[5..7] && s'[3..] == s[8..] && t'[3..] == t[8..];
    FieldOrder(s, t, 4);
    FieldOrder(s', t', 2);
    TextLeOfDigits(s[8..], t[8..]);
  }

  lemma FieldOrder(s: string, t: string, k: nat)
    requires k < |s| && k < |t| && s[k] == t[k] == '-'
    requires AllDigits(s[..k]) && AllDigits(t[..k])
    ensures TextLe(s, t) <==>
            (NatValue(s[..k]) < NatValue(t[..k]) ||
             (NatValue(s[..k]) == NatValue(t[..k]) && TextLe(s[k + 1..], t[k + 1..])))
  {
    assert s == s[..k] + s[k..] && t == t[..k] + t[k..];
    TextLeConcat(s[..k], t[..k], s[k..], t[k..]);
    assert s[k..][1..] == s[k + 1..] && t[k..][1..] == t[k + 1..];
    TextLeOfDigits(s[..k], t[..k]);
    DigitsInjective(s[..k], t[..k]);
  }

  /** date.fromisoformat, for the ten-character form. */
  function FromIso(s: string): Option<Day> {
    if |s| == 10 && s[4] == '-' && s[7] == '-' && AllDigits(s[..4]) && AllDigits(s[5..7]) && AllDigits(s[8..]) then
      var c := Civil(NatValue(s[..4]), NatValue(s[5..7]), NatValue(s[8..]));
      if IsCivil(c) then Some(ToDay(c)) else None
    else None
  }

  /** A stored ISO date denotes the day it was written from. */
  lemma FromIsoOfIso(d: Day)
    requires 1 <= d <= MAX_DAY
    ensures FromIso(Iso(d)) == Some(d)
  {
    IsoParts(d);
    DayOfCivil(d);
  }

  /** SQL's textual BETWEEN on ISO dates selects exactly the days of the interval. */
  predicate TextBetween(s: string, low: string, high: string) { TextLe(low, s) && TextLe(s, high) }

  lemma BetweenIsInterval(d: Day, low: Day, high: Day)
    requires 1 <= d <= MAX_DAY && 1 <= low <= MAX_DAY && 1 <= high <= MAX_DAY
    ensures TextBetween(Iso(d), Iso(low), Iso(high)) <==> low <= d <= high
  {
    IsoOrder(low, d);
    IsoOrder(d, high);
  }

  /** The accepted years hold 36890 days, which bounds the dates of one service. */
  lemma AcceptedDays(service: string, dates: set<(string, Day)>)
    requires forall p :: p in dates ==> p.0 == service && FIRST_SERVICE_DAY <= p.1 <= LAST_SERVICE_DAY
    ensures |dates| <= 36890
  {
    IntervalSize(service, dates, FIRST_SERVICE_DAY, LAST_SERVICE_DAY);
  }

  lemma {:induction false} IntervalSize(service: string, dates: set<(string, Day)>, low: Day, high: Day)
    requires low <= high + 1
    requires forall p :: p in dates ==> p.0 == service && low <= p.1 <= high
    ensures |dates| <= high - low + 1
    decreases high - low + 1
  {
    if dates != {} {
      var p :| p in dates;
      IntervalSize(service, dates - {(service, high)}, low, high - 1);
    }
  }
}
