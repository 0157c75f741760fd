/**
 * The ISO week key of the weekly review (packages/daemon/src/review.ts:62-70, 158), on days counted
 * from 1970-01-01.
 */
module IsoWeek {

  // ---- the proleptic Gregorian calendar ----

  function LeapsUpTo(y: int): int { y / 4 - y / 100 + y / 400 }

  predicate IsLeap(y: int) { y % 4 == 0 && (y % 100 != 0 || y % 400 == 0) }

  /** The day number of January 1. */
  function YearStart(y: int): int { 365 * (y - 1970) + LeapsUpTo(y - 1) - LeapsUpTo(1969) }

  lemma DivisionStep4(y: int)
    ensures y / 4 - (y - 1) / 4 == if y % 4 == 0 then 1 else 0
  {
  }

  lemma DivisionStep100(y: int)
    ensures y / 100 - (y - 1) / 100 == if y % 100 == 0 then 1 else 0
  {
  }

  lemma DivisionStep400(y: int)
    ensures y / 400 - (y - 1) / 400 == if y % 400 == 0 then 1 else 0
  {
  }

  lemma CenturiesAreFourths(y: int)
    ensures y % 400 == 0 ==> y % 100 == 0
    ensures y % 100 == 0 ==> y % 4 == 0
  {
    var c, q := y / 100, y / 400;
    if y % 400 == 0 {
      assert y == 400 * q;
      assert y == 100 * (4 * q);
    }
    if y % 100 == 0 {
      assert y == 100 * c;
      assert y == 4 * (25 * c);
    }
  }

  lemma {:induction false} YearLength(y: int)
    ensures YearStart(y + 1) - YearStart(y) == if IsLeap(y) then 366 else 365
  {
    DivisionStep4(y);
    DivisionStep100(y);
    DivisionStep400(y);
    CenturiesAreFourths(y);
  }

  lemma {:induction false} YearsAscend(y: int, z: int)
    requires y < z
    ensures YearStart(y) + 365 <= YearStart(z)
    decreases z - y
  {
    YearLength(y);
    if y + 1 < z {
      YearsAscend(y + 1, z);
    }
  }

  function Distance(day: int, y: int): nat {
    if day < YearStart(y) then YearStart(y) - day
    else if day >= YearStart(y + 1) then day - YearStart(y)
    else 0
  }

  function YearFrom(day: int, y: int): (r: int)
    ensures YearStart(r) <= day < YearStart(r + 1)
    decreases Distance(day, y)
  {
    YearLength(y);
    YearLength(y - 1);
    YearLength(y + 1);
    if day < YearStart(y) then YearFrom(day, y - 1)
    else if day >= YearStart(y + 1) then YearFrom(day, y + 1)
    else y
  }

  function YearOf(day: int): (r: int)
    ensures YearStart(r) <= day < YearStart(r + 1)
  {
    YearFrom(day, 1970)
  }

  lemma YearIsUnique(day: int, y: int)
    requires YearStart(y) <= day < YearStart(y + 1)
    ensures YearOf(day) == y
  {
    var r := YearOf(day);
    if r < y {
      if r + 1 < y { YearsAscend(r + 1, y); }
    } else if y < r {
      if y + 1 < r { YearsAscend(y + 1, r); }
    }
  }

  // ---- the key ----

  predicate TwoDigits(year: int) { 0 <= year <= 99 }

  /** `Date.UTC` reads the years 0 to 99 as 1900 to 1999. */
  function UtcYear(year: int): int { if TwoDigits(year) then 1900 + year else year }

  const FEBRUARY_29 := 59

  /**
   * `Date.UTC` of a day's year, month and day of the month. The year read may lack a leap day in one case only:
   * February 29 of the year 0 becomes March 1, 1900, and the days behind it move up.
   */
  function Utc(day: int): int {
    var year := YearOf(day);
    if !TwoDigits(year) then day
    else
      var k := day - YearStart(year);
      YearStart(1900 + year) + if year == 0 && k > FEBRUARY_29 then k - 1 else k
  }

  /** The year read is as long as the year written, but for 1900, and the day is in it. */
  lemma {:induction false} UtcIsInYear(day: int)
    ensures YearOf(Utc(day)) == UtcYear(YearOf(day))
  {
    var year := YearOf(day);
    if TwoDigits(year) {
      YearLength(year);
      YearLength(1900 + year);
      SameLeaps(year);
      YearIsUnique(Utc(day), 1900 + year);
    }
  }

  lemma SameLeaps(year: int)
    requires TwoDigits(year)
    ensures IsLeap(1900 + year) <==> IsLeap(year) && year != 0
  {
  }

  /** Only dates of the years 0 to 99 are taken for others. */
  lemma {:induction false} UtcIsItselfExactly(day: int)
    ensures Utc(day) == day <==> !TwoDigits(YearOf(day))
  {
    UtcIsInYear(day);
  }

  /** 0 is Sunday. */
  function Weekday(day: int): int { (day + 4) % 7 }

  /** The Thursday of the day's week. */
  function ThursdayOf(day: int): int {
    day + 4 - (if Weekday(day) == 0 then 7 else Weekday(day))
  }

  function WeekOf(day: int): (int, int) {
    var t := ThursdayOf(Utc(day));
    var year := YearOf(t);
    (year, WeekIn(t, year))
  }

  /** `ceil` of the days since the start of the year as it is read, in weeks. */
  function WeekIn(t: int, year: int): int { (t - YearStart(UtcYear(year)) + 1 + 6) / 7 }

  /** The week's Thursday falls in a year whose start is read as that of another. */
  predicate Straddles(day: int) { TwoDigits(YearOf(ThursdayOf(Utc(day)))) }

  function DigitChar(d: int): char
    requires 0 <= d < 10
  {
    ('0' as int + d) as char
  }

  function Decimal(n: nat): string {
    if n < 10 then [DigitChar(n)] else Decimal(n / 10) + [DigitChar(n % 10)]
  }

  function Text(n: int): string { if n < 0 then "-" + Decimal(-n) else Decimal(n) }

  function PadTwo(n: int): string { if 0 <= n < 10 then "0" + Decimal(n) else Text(n) }

  /** The week number is between 1 and 53. */
  lemma {:induction false} WeekBounds(day: int)
    requires !Straddles(day)
    ensures 1 <= WeekOf(day).1 <= 53
  {
    YearLength(YearOf(ThursdayOf(Utc(day))));
  }

  function IsoWeekKey(day: int): string { Text(WeekOf(day).0) + "-W" + PadTwo(WeekOf(day).1) }

  method ComputeIsoWeek(day: int) returns (key: string)
    ensures key == IsoWeekKey(day)
  {
    var t := Utc(day);
    t := t + 4 - (if Weekday(t) == 0 then 7 else Weekday(t));
    var year := YearOf(t);
    var yearStart := YearStart(UtcYear(year));
    var week := (t - yearStart + 1 + 6) / 7;
    assert WeekOf(day) == (year, week);
    key := Text(year) + "-W" + PadTwo(week);
  }

  function ReviewKey(projectId: string, day: int): string { "review:" + projectId + ":" + IsoWeekKey(day) }

  // ---- weeks ----

  function MondayOf(day: int): int { day - (day + 3) % 7 }

  predicate SameWeek(a: int, b: int) { MondayOf(a) == MondayOf(b) }

  /** The days of a week share their Thursday, and weeks begin on Monday. */
  lemma ThursdayOfWeek(day: int)
    ensures ThursdayOf(day) == MondayOf(day) + 3 && Weekday(MondayOf(day)) == 1 && Weekday(ThursdayOf(day)) == 4
    ensures MondayOf(day) <= day < MondayOf(day) + 7
  {
  }

  predicate IsFirstThursday(year: int, day: int) {
    Weekday(day) == 4 && YearStart(year) <= day < YearStart(year) + 7
  }

  /** Clause 2.2.10 of ISO 8601:2004: week 1 holds the year's first Thursday, and weeks count from it. */
  lemma {:induction false} FirstThursdayRule(day: int) returns (first: int)
    requires !Straddles(day)
    ensures IsFirstThursday(WeekOf(day).0, first)
    ensures MondayOf(Utc(day)) == MondayOf(first) + 7 * (WeekOf(day).1 - 1)
  {
    first := NextThursday(YearStart(WeekOf(day).0));
    var t, start := ThursdayOf(Utc(day)), YearStart(WeekOf(day).0);
    ThursdayOfWeek(Utc(day));
    ThursdayOfWeek(first);
    ThursdaysAreSevenths(t);
    ThursdaysAreSevenths(first);
    WeeksBetween(t / 7, first / 7, start);
  }

  lemma ThursdaysAreSevenths(day: int)
    requires Weekday(day) == 4
    ensures day == 7 * (day / 7) && ThursdayOf(day) == day
  {
  }

  lemma WeeksBetween(a: int, b: int, start: int)
    requires start <= 7 * a && start <= 7 * b < start + 7
    ensures (7 * a - start + 1 + 6) / 7 - 1 == a - b
  {
    var r := 7 * b - start;
    assert 7 * a - start + 7 == 7 * (a - b + 1) + r;
  }

  lemma NextThursday(start: int) returns (t: int)
    ensures Weekday(t) == 4 && start <= t < start + 7
  {
    var k := (start + 6) / 7;
    t := 7 * k;
    SeventhsAreThursdays(k);
  }

  lemma SeventhsAreThursdays(k: int)
    ensures Weekday(7 * k) == 4
  {
    assert (7 * k + 4) / 7 == k;
  }

  lemma {:induction false} DecimalInjective(m: nat, n: nat)
    requires Decimal(m) == Decimal(n)
    ensures m == n
    decreases m
  {
    var a, b := Decimal(m), Decimal(n);
    assert a[|a| - 1] == DigitChar(m % 10) && b[|b| - 1] == DigitChar(n % 10);
    if m >= 10 && n >= 10 {
      assert a[..|a| - 1] == Decimal(m / 10) && b[..|b| - 1] == Decimal(n / 10);
      DecimalInjective(m / 10, n / 10);
    } else {
      DecimalLength(m);
      DecimalLength(n);
    }
  }

  lemma DecimalLength(n: nat)
    ensures |Decimal(n)| >= 1 && (|Decimal(n)| == 1 <==> n < 10)
  {
    if n >= 10 {
      DecimalLength(n / 10);
    }
  }

  lemma {:induction false} DecimalDigits(n: nat, i: nat)
    requires i < |Decimal(n)|
    ensures '0' <= Decimal(n)[i] <= '9'
    ensures i == 0 && n >= 10 ==> Decimal(n)[0] != '0'
  {
    if n >= 10 && i < |Decimal(n)| - 1 {
      DecimalDigits(n / 10, i);
    }
  }

  /** Numbers are told apart by their texts, which have no letter. */
  lemma {:induction false} TextInjective(m: int, n: int)
    requires Text(m) == Text(n)
    ensures m == n
  {
    DecimalLength(if m < 0 then -m else m);
    DecimalLength(if n < 0 then -n else n);
    DecimalDigits(if m < 0 then -m else m, 0);
    DecimalDigits(if n < 0 then -n else n, 0);
    if m < 0 && n < 0 {
      assert Text(m)[1..] == Decimal(-m) && Text(n)[1..] == Decimal(-n);
      DecimalInjective(-m, -n);
    } else if m >= 0 && n >= 0 {
      DecimalInjective(m, n);
    }
  }

  lemma {:induction false} FirstCharacter(n: int)
    ensures PadTwo(n) != "" && (PadTwo(n)[0] == '0' <==> 0 <= n < 10)
  {
    var d := if n < 0 then -n else n;
    DecimalLength(d);
    DecimalDigits(d, 0);
  }

  lemma {:induction false} PadTwoInjective(m: int, n: int)
    requires PadTwo(m) == PadTwo(n)
    ensures m == n
  {
    FirstCharacter(m);
    FirstCharacter(n);
    if 0 <= m < 10 && 0 <= n < 10 {
      assert PadTwo(m)[1..] == Decimal(m) && PadTwo(n)[1..] == Decimal(n);
      DecimalInjective(m, n);
    } else if !(0 <= m < 10) && !(0 <= n < 10) {
      TextInjective(m, n);
    }
  }

  lemma {:induction false} TextHasNoLetter(n: int)
    ensures 'W' !in Text(n)
  {
    var d := if n < 0 then -n else n;
    forall i | 0 <= i < |Decimal(d)| ensures Decimal(d)[i] != 'W' {
      DecimalDigits(d, i);
    }
  }

  lemma SplitAtLetter(a: string, x: string, b: string, y: string)
    requires 'W' !in a && 'W' !in b && a + "-W" + x == b + "-W" + y
    ensures a == b && x == y
  {
    var s, t := a + "-W" + x, b + "-W" + y;
    assert s[|a| + 1] == 'W' && t[|b| + 1] == 'W';
    assert forall i | 0 <= i <= |a| :: s[i] != 'W';
    assert forall i | 0 <= i <= |b| :: t[i] != 'W';
    assert |a| == |b|;
    assert s[..|a|] == a && t[..|b|] == b && s[|a| + 2..] == x && t[|b| + 2..] == y;
  }

  lemma {:induction false} SplitKey(ya: int, wa: int, yb: int, wb: int)
    requires Text(ya) + "-W" + PadTwo(wa) == Text(yb) + "-W" + PadTwo(wb)
    ensures ya == yb && wa == wb
  {
    TextHasNoLetter(ya);
    TextHasNoLetter(yb);
    SplitAtLetter(Text(ya), PadTwo(wa), Text(yb), PadTwo(wb));
    TextInjective(ya, yb);
    PadTwoInjective(wa, wb);
  }

  lemma ThursdaysApart(t: int, u: int, start: int)
    requires Weekday(t) == 4 && Weekday(u) == 4 && (t - start + 1 + 6) / 7 == (u - start + 1 + 6) / 7
    ensures t == u
  {
    ThursdaysAreSevenths(t);
    ThursdaysAreSevenths(u);
  }

  /** Two dates of any years have the same key exactly when, as read, they fall in one Monday-to-Sunday week. */
  lemma {:induction false} KeysAreWeeks(a: int, b: int)
    ensures IsoWeekKey(a) == IsoWeekKey(b) <==> SameWeek(Utc(a), Utc(b))
  {
    if IsoWeekKey(a) == IsoWeekKey(b) {
      SplitKey(WeekOf(a).0, WeekOf(a).1, WeekOf(b).0, WeekOf(b).1);
    }
    WeeksAreThursdays(Utc(a), Utc(b));
  }

  /** A year and a week number stand for one Thursday, and a Thursday for one week. */
  lemma {:induction false} WeeksAreThursdays(a: int, b: int)
    ensures SameWeek(a, b) <==> ThursdayOf(a) == ThursdayOf(b)
    ensures var t, u := ThursdayOf(a), ThursdayOf(b);
      YearOf(t) == YearOf(u) && WeekIn(t, YearOf(t)) == WeekIn(u, YearOf(u)) ==> t == u
  {
    ThursdayOfWeek(a);
    ThursdayOfWeek(b);
    var t, u := ThursdayOf(a), ThursdayOf(b);
    if YearOf(t) == YearOf(u) && WeekIn(t, YearOf(t)) == WeekIn(u, YearOf(u)) {
      ThursdaysApart(t, u, YearStart(UtcYear(YearOf(t))));
    }
  }

  /**
   * So the review of a project is filed once a week: one key per week and no two weeks with one, among all dates
   * outside the years 0 to 99.
   */
  lemma {:induction false} ReviewKeyIsWeekly(projectId: string, a: int, b: int)
    ensures ReviewKey(projectId, a) == ReviewKey(projectId, b) <==> SameWeek(Utc(a), Utc(b))
    ensures !TwoDigits(YearOf(a)) && !TwoDigits(YearOf(b)) ==>
      (ReviewKey(projectId, a) == ReviewKey(projectId, b) <==> SameWeek(a, b))
  {
    KeysAreWeeks(a, b);
    UtcIsItselfExactly(a);
    UtcIsItselfExactly(b);
    var head := "review:" + projectId + ":";
    assert ReviewKey(projectId, a)[|head|..] == IsoWeekKey(a) && ReviewKey(projectId, b)[|head|..] == IsoWeekKey(b);
  }

  /** A date of the years 1 to 99 has the key of the date 1900 years later, in quite another week. */
  lemma {:induction false} EarlyDatesCollide(day: int)
    requires TwoDigits(YearOf(day))
    ensures IsoWeekKey(day) == IsoWeekKey(Utc(day)) && !SameWeek(day, Utc(day))
  {
    var year := YearOf(day);
    UtcIsInYear(day);
    UtcIsItselfExactly(Utc(day));
    YearLength(year);
    YearsAscend(year + 1, 1900 + year);
  }
  // ---- what the key says ----

  /** The number a decimal numeral stands for. */
  function Value(digits: string): int {
    if digits == "" then 0
    else 10 * Value(digits[..|digits| - 1]) + (digits[|digits| - 1] as int - '0' as int)
  }

  lemma {:induction false} DecimalIsTheNumeral(n: nat)
    ensures Value(Decimal(n)) == n
  {
    var d := Decimal(n);
    if n >= 10 {
      DecimalIsTheNumeral(n / 10);
      assert d[..|d| - 1] == Decimal(n / 10);
    } else {
      assert d[..|d| - 1] == "";
    }
  }

  /** A numeral without a leading zero. */
  predicate Numeral(s: string) {
    s != "" && (forall i | 0 <= i < |s| :: '0' <= s[i] <= '9') && (|s| > 1 ==> s[0] != '0')
  }

  lemma {:induction false} DecimalIsNumeral(n: nat)
    ensures Numeral(Decimal(n)) && Value(Decimal(n)) == n && (n >= 10 ==> |Decimal(n)| >= 2)
  {
    DecimalLength(n);
    DecimalIsTheNumeral(n);
    forall i: nat | i < |Decimal(n)|
      ensures '0' <= Decimal(n)[i] <= '9' && (i == 0 && n >= 10 ==> Decimal(n)[i] != '0')
    {
      DecimalDigits(n, i);
    }
  }

  lemma TwoDigitWeek(w: int)
    requires 1 <= w <= 53
    ensures |PadTwo(w)| == 2 && Value(PadTwo(w)) == w
  {
    DecimalIsNumeral(w);
    if w < 10 {
      assert PadTwo(w)[..1] == "0" && "0"[..0] == "";
      assert Value("0") == 0;
    } else {
      DecimalLength(w / 10);
    }
  }

  /** The key spells out the week: the year, "-W", and the number of the week in two digits. */
  lemma {:induction false} KeySaysYearAndWeek(day: int) returns (year: string, week: string)
    requires !Straddles(day) && WeekOf(day).0 >= 0
    ensures IsoWeekKey(day) == year + "-W" + week
    ensures Numeral(year) && Value(year) == WeekOf(day).0
    ensures |week| == 2 && Value(week) == WeekOf(day).1
  {
    year, week := Text(WeekOf(day).0), PadTwo(WeekOf(day).1);
    WeekBounds(day);
    DecimalIsNumeral(WeekOf(day).0);
    TwoDigitWeek(WeekOf(day).1);
  }
}
