/** Calendar days. The application keeps dates as ISO 8601 `YYYY-MM-DD` strings and
    compares them with `<`/`>=`; the model keeps them as day numbers and this module
    shows the two agree: the ISO text of a date orders exactly like its day number. */
module Calendar {
  import opened Optional
  import opened Text

  /** A calendar day, counted from 1970-01-01 (day 0); earlier days are negative. */
  type Day = int

  /** A proleptic Gregorian calendar date. */
  datatype CivilDate = CivilDate(year: int, month: int, day: int)

  predicate IsLeapYear(y: int) {
    y % 4 == 0 && (y % 100 != 0 || y % 400 == 0)
  }

  function DaysInYear(y: int): int {
    if IsLeapYear(y) then 366 else 365
  }

  function DaysInMonth(y: int, m: int): int
    requires 1 <= m <= 12
  {
    if m == 2 then (if IsLeapYear(y) then 29 else 28)
    else if m == 4 || m == 6 || m == 9 || m == 11 then 30
    else 31
  }

  predicate Valid(c: CivilDate) {
    1 <= c.month <= 12 && 1 <= c.day <= DaysInMonth(c.year, c.month)
  }

  /** Days of year `y` before the first of month `m`; `m == 13` gives the whole year. */
  function DaysBeforeMonth(y: int, m: int): (n: nat)
    requires 1 <= m <= 13
    ensures m == 13 ==> n == DaysInYear(y)
  {
    var common :=
      if m == 1 then 0 else if m == 2 then 31 else if m == 3 then 59
      else if m == 4 then 90 else if m == 5 then 120 else if m == 6 then 151
      else if m == 7 then 181 else if m == 8 then 212 else if m == 9 then 243
      else if m == 10 then 273 else if m == 11 then 304 else if m == 12 then 334
      else 365;
    common + (if IsLeapYear(y) && m > 2 then 1 else 0)
  }

  /** A month ends where the next one begins. */
  lemma MonthStep(y: int, m: int)
    requires 1 <= m <= 12
    ensures DaysBeforeMonth(y, m) + DaysInMonth(y, m) == DaysBeforeMonth(y, m + 1)
  {
  }

  /** Days from 0000-01-01 to January 1 of year `y` (negative for earlier years). */
  function DaysBeforeYear(y: int): int {
    365 * y + (y + 3) / 4 - (y + 99) / 100 + (y + 399) / 400
  }

  /** Consecutive years are as far apart as the first one is long. */
  lemma YearStep(y: int)
    ensures DaysBeforeYear(y + 1) == DaysBeforeYear(y) + DaysInYear(y)
  {
    CountStep4(y);
    CountStep100(y);
    CountStep400(y);
    LeapIndicator(y);
  }

  /** A leap year adds the multiple-of-4 day, less the century day, plus the 400-year day. */
  lemma LeapIndicator(y: int)
    ensures (if y % 4 == 0 then 1 else 0) - (if y % 100 == 0 then 1 else 0)
            + (if y % 400 == 0 then 1 else 0) == DaysInYear(y) - 365
  {
    if y % 400 == 0 {
      assert y == 400 * (y / 400);
      assert y == 100 * (4 * (y / 400));
      assert y == 4 * (100 * (y / 400));
    } else if y % 100 == 0 {
      assert y == 100 * (y / 100);
      assert y == 4 * (25 * (y / 100));
    }
  }

  /** Multiples of 4, 100 and 400 below a year: one more just after each multiple. */
  lemma CountStep4(y: int)
    ensures (y + 4) / 4 == (y + 3) / 4 + (if y % 4 == 0 then 1 else 0)
  {
    var q, r := y / 4, y % 4;
    assert y == 4 * q + r && 0 <= r < 4;
    assert (y + 4) / 4 == q + 1;
  }

  lemma CountStep100(y: int)
    ensures (y + 100) / 100 == (y + 99) / 100 + (if y % 100 == 0 then 1 else 0)
  {
    var q, r := y / 100, y % 100;
    assert y == 100 * q + r && 0 <= r < 100;
    assert (y + 100) / 100 == q + 1;
  }

  lemma CountStep400(y: int)
    ensures (y + 400) / 400 == (y + 399) / 400 + (if y % 400 == 0 then 1 else 0)
  {
    var q, r := y / 400, y % 400;
    assert y == 400 * q + r && 0 <= r < 400;
    assert (y + 400) / 400 == q + 1;
  }

  lemma {:induction false} YearsAscending(y1: int, y2: int)
    requires y1 < y2
    ensures DaysBeforeYear(y1) + DaysInYear(y1) <= DaysBeforeYear(y2)
    decreases y2 - y1
  {
    YearStep(y1);
    if y1 + 1 < y2 {
      YearsAscending(y1 + 1, y2);
    }
  }

  const EpochOffset: int := DaysBeforeYear(1970)

  /** The day number of a date. Days past the end of the month run on into the next
      months, as JavaScript's `Date` normalises them. */
  function ToDay(c: CivilDate): Day
    requires 1 <= c.month <= 12
  {
    DaysBeforeYear(c.year) + DaysBeforeMonth(c.year, c.month) + c.day - 1 - EpochOffset
  }

  lemma WithinYear(c: CivilDate)
    requires Valid(c)
    ensures DaysBeforeYear(c.year) - EpochOffset <= ToDay(c)
    ensures ToDay(c) < DaysBeforeYear(c.year) + DaysInYear(c.year) - EpochOffset
  {
    MonthStep(c.year, c.month);
    if c.month < 12 {
      MonthsAscending(c.year, c.month, 12);
      MonthStep(c.year, 12);
    }
    assert DaysBeforeMonth(c.year, c.month) + DaysInMonth(c.year, c.month) <= DaysBeforeMonth(c.year, 13);
  }

  /** Strict chronological order of dates: year, then month, then day. */
  predicate Before(a: CivilDate, b: CivilDate) {
    a.year < b.year
    || (a.year == b.year && (a.month < b.month || (a.month == b.month && a.day < b.day)))
  }

  lemma {:induction false} BeforeMeansEarlierDay(a: CivilDate, b: CivilDate)
    requires Valid(a) && Valid(b) && Before(a, b)
    ensures ToDay(a) < ToDay(b)
  {
    if a.year < b.year {
      WithinYear(a);
      WithinYear(b);
      YearsAscending(a.year, b.year);
    } else if a.month < b.month {
      MonthsAscending(a.year, a.month, b.month);
    }
  }

  lemma MonthsAscending(y: int, m1: int, m2: int)
    requires 1 <= m1 < m2 <= 12
    ensures DaysBeforeMonth(y, m1) + DaysInMonth(y, m1) <= DaysBeforeMonth(y, m2)
  {
    MonthStep(y, m1);
  }

  /** Day numbers order valid dates chronologically and name each one once. */
  lemma ToDayOrder(a: CivilDate, b: CivilDate)
    requires Valid(a) && Valid(b)
    ensures ToDay(a) < ToDay(b) <==> Before(a, b)
    ensures ToDay(a) == ToDay(b) <==> a == b
  {
    if Before(a, b) {
      BeforeMeansEarlierDay(a, b);
    } else if Before(b, a) {
      BeforeMeansEarlierDay(b, a);
    }
  }

  /** The date after a valid date. */
  function NextDay(c: CivilDate): (r: CivilDate)
    requires Valid(c)
    ensures Valid(r) && ToDay(r) == ToDay(c) + 1
  {
    if c.day < DaysInMonth(c.year, c.month) then c.(day := c.day + 1)
    else if c.month < 12 then
      MonthStep(c.year, c.month);
      CivilDate(c.year, c.month + 1, 1)
    else
      YearStep(c.year);
      CivilDate(c.year + 1, 1, 1)
  }

  /** The date before a valid date. */
  function PrevDay(c: CivilDate): (r: CivilDate)
    requires Valid(c)
    ensures Valid(r) && ToDay(r) == ToDay(c) - 1
  {
    if c.day > 1 then c.(day := c.day - 1)
    else if c.month > 1 then
      MonthStep(c.year, c.month - 1);
      CivilDate(c.year, c.month - 1, DaysInMonth(c.year, c.month - 1))
    else
      YearStep(c.year - 1);
      CivilDate(c.year - 1, 12, 31)
  }

  /** The date a day number names. */
  function FromDay(n: Day): (c: CivilDate)
    ensures Valid(c) && ToDay(c) == n
    decreases if n < 0 then -n else n
  {
    if n == 0 then CivilDate(1970, 1, 1)
    else if n > 0 then NextDay(FromDay(n - 1))
    else PrevDay(FromDay(n + 1))
  }

  /** Every valid date survives the trip through its day number. */
  lemma FromDayToDay(c: CivilDate)
    requires Valid(c)
    ensures FromDay(ToDay(c)) == c
  {
    ToDayOrder(FromDay(ToDay(c)), c);
  }

  /** `YYYY-MM-DD`, as `toISOString().split('T')[0]` writes dates of years 0..9999. */
  function IsoDate(c: CivilDate): (s: string)
    requires Valid(c) && 0 <= c.year <= 9999
    ensures |s| == 10 && s[4] == '-' && s[7] == '-'
  {
    Pad(c.year, 4) + IsoTail(c)
  }

  /** The `-MM-DD` part of an ISO date. */
  function IsoTail(c: CivilDate): (s: string)
    requires Valid(c)
    ensures |s| == 6
  {
    Dashed(c.month) + Dashed(c.day)
  }

  /** `-NN`: a dash and two digits. */
  function Dashed(n: nat): (s: string)
    requires n < 100
    ensures |s| == 3
  {
    "-" + Pad(n, 2)
  }

  lemma DashedOrder(n: nat, k: nat)
    requires n < 100 && k < 100
    ensures LexLe(Dashed(n), Dashed(k)) <==> n <= k
    ensures Dashed(n) == Dashed(k) <==> n == k
  {
    var a, b := Pad(n, 2), Pad(k, 2);
    assert Pow10(2) == 100;
    PadOrder(n, k, 2);
    assert Dashed(n) == "-" + a && Dashed(k) == "-" + b;
    LexLeConcat("-", a, "-", b);
    ConcatInjective("-", a, "-", b);
    assert !LexLt("-", "-");
  }

  /** Two dashed fields order like (first, second) pairs. */
  lemma DashedPairOrder(m1: nat, d1: nat, m2: nat, d2: nat)
    requires m1 < 100 && d1 < 100 && m2 < 100 && d2 < 100
    ensures LexLe(Dashed(m1) + Dashed(d1), Dashed(m2) + Dashed(d2)) <==> m1 < m2 || (m1 == m2 && d1 <= d2)
    ensures Dashed(m1) + Dashed(d1) == Dashed(m2) + Dashed(d2) <==> m1 == m2 && d1 == d2
  {
    DashedOrder(m1, m2);
    DashedOrder(d1, d2);
    LexLeConcat(Dashed(m1), Dashed(d1), Dashed(m2), Dashed(d2));
    ConcatInjective(Dashed(m1), Dashed(d1), Dashed(m2), Dashed(d2));
  }

  /** Comparing ISO date strings, as the application does with `<`, `>=` and
      `localeCompare`, is comparing day numbers. */
  lemma IsoOrder(a: CivilDate, b: CivilDate)
    requires Valid(a) && 0 <= a.year <= 9999
    requires Valid(b) && 0 <= b.year <= 9999
    ensures LexLe(IsoDate(a), IsoDate(b)) <==> ToDay(a) <= ToDay(b)
  {
    ToDayOrder(a, b);
    ToDayOrder(b, a);
    PadOrder(a.year, b.year, 4);
    DashedPairOrder(a.month, a.day, b.month, b.day);
    LexLeConcat(Pad(a.year, 4), IsoTail(a), Pad(b.year, 4), IsoTail(b));
  }

  /** Reads `YYYY-MM-DD`; anything else, or a day the month does not have, is `None`. */
  function ParseIsoDate(s: string): (r: Option<CivilDate>)
    ensures r.Some? ==> Valid(r.value) && 0 <= r.value.year <= 9999
  {
    if |s| == 10 && s[4] == '-' && s[7] == '-'
       && AllDigits(s[..4]) && AllDigits(s[5..7]) && AllDigits(s[8..]) then
      DigitsValueBound(s[..4]);
      var c := CivilDate(DigitsValue(s[..4]), DigitsValue(s[5..7]), DigitsValue(s[8..]));
      if Valid(c) then Some(c) else None
    else None
  }

  /** Writing a date and reading it back gives the date. */
  lemma ParseIsoOfIsoDate(c: CivilDate)
    requires Valid(c) && 0 <= c.year <= 9999
    ensures ParseIsoDate(IsoDate(c)) == Some(c)
  {
    var s := IsoDate(c);
    assert s[..4] == Pad(c.year, 4);
    assert s[5..7] == Pad(c.month, 2);
    assert s[8..] == Pad(c.day, 2);
  }

  /** Reading a well-formed date and writing it back gives the same text. */
  lemma IsoDateOfParseIso(s: string)
    requires ParseIsoDate(s).Some?
    ensures IsoDate(ParseIsoDate(s).value) == s
  {
    var c := ParseIsoDate(s).value;
    DigitsInjective(Pad(c.year, 4), s[..4]);
    DigitsInjective(Pad(c.month, 2), s[5..7]);
    DigitsInjective(Pad(c.day, 2), s[8..]);
    assert s == s[..4] + (("-" + s[5..7]) + ("-" + s[8..]));
  }

  function MonthAbbreviation(m: int): string
    requires 1 <= m <= 12
  {
    ["Jan", "Feb", "Mar", "Apr", "May", "Jun", "Jul", "Aug", "Sep", "Oct", "Nov", "Dec"][m - 1]
  }

  /** `toLocaleDateString('en-US', { month: 'short', day: 'numeric' })`: "Jan 9". */
  function MonthDayLabel(c: CivilDate): string
    requires Valid(c)
  {
    MonthAbbreviation(c.month) + " " + NatToString(c.day)
  }

  /** The chart label of a day number. */
  function DayLabel(d: Day): string {
    MonthDayLabel(FromDay(d))
  }

  /** Chart labels do not sort chronologically: "Jan 10" comes before "Jan 9". */
  lemma LabelOrderIsNotChronological()
    ensures ToDay(CivilDate(2024, 1, 9)) < ToDay(CivilDate(2024, 1, 10))
    ensures LexLt(DayLabel(ToDay(CivilDate(2024, 1, 10))), DayLabel(ToDay(CivilDate(2024, 1, 9))))
  {
    var jan9, jan10 := CivilDate(2024, 1, 9), CivilDate(2024, 1, 10);
    ToDayOrder(jan9, jan10);
    FromDayToDay(jan9);
    FromDayToDay(jan10);
    assert NatToString(10) == "10";
    assert NatToString(9) == "9";
    assert MonthDayLabel(jan10) == "Jan 10";
    assert MonthDayLabel(jan9) == "Jan 9";
  }

  /** `d.setMonth(d.getMonth() + k)`: same day of month, `k` months later; a day the
      target month lacks runs on into the next month. */
  function ShiftMonths(c: CivilDate, k: int): Day
    requires Valid(c)
  {
    var total := c.month - 1 + k;
    ToDay(CivilDate(c.year + total / 12, total % 12 + 1, 1)) + c.day - 1
  }

  /** `d.setFullYear(y)`: same month and day in year `y`, February 29 running on into
      March 1 when `y` is not a leap year. */
  function WithYear(c: CivilDate, y: int): Day
    requires Valid(c)
  {
    ToDay(CivilDate(y, c.month, 1)) + c.day - 1
  }

  /** Six months back is between 181 and 184 days back. */
  lemma SixMonthsBack(c: CivilDate)
    requires Valid(c)
    ensures ToDay(c) - 184 <= ShiftMonths(c, -6) <= ToDay(c) - 181
  {
    SixMonthsIndex(c.month);
    if c.month <= 6 {
      YearStep(c.year - 1);
      SixMonthsAcrossNewYear(c.year - 1, c.year, c.month);
    } else {
      SixMonthsWithinYear(c.year, c.month);
    }
  }

  /** Month `m` less six: the year before for the first half of the year. */
  lemma SixMonthsIndex(m: int)
    requires 1 <= m <= 12
    ensures m <= 6 ==> (m - 7) / 12 == -1 && (m - 7) % 12 == m + 5
    ensures 7 <= m ==> (m - 7) / 12 == 0 && (m - 7) % 12 == m - 7
  {
  }

  lemma SixMonthsAcrossNewYear(prev: int, y: int, m: int)
    requires 1 <= m <= 6
    ensures 181 <= DaysInYear(prev) - DaysBeforeMonth(prev, m + 6) + DaysBeforeMonth(y, m) <= 184
  {
  }

  lemma SixMonthsWithinYear(y: int, m: int)
    requires 7 <= m <= 12
    ensures 181 <= DaysBeforeMonth(y, m) - DaysBeforeMonth(y, m - 6) <= 184
  {
  }

  /** A year back is 365 or 366 days back. */
  lemma OneYearBack(c: CivilDate)
    requires Valid(c)
    ensures ToDay(c) - 366 <= WithYear(c, c.year - 1) <= ToDay(c) - 365
  {
    YearStep(c.year - 1);
  }

  /** Moving a date to an earlier or the same year never moves it later. */
  lemma WithEarlierYear(c: CivilDate, y: int)
    requires Valid(c) && y <= c.year
    ensures WithYear(c, y) <= ToDay(c)
  {
    if y < c.year {
      YearsAscending(y, c.year);
      assert DaysBeforeMonth(y, c.month) <= DaysBeforeMonth(y, 13);
    }
  }
}
