/** Calendar dates as the template helpers see them.

    A date is a day number: day 0 is 1970-01-01 in the proleptic Gregorian
    calendar that chrono's `NaiveDate` uses. The conversion to and from
    year/month/day counts in 400-year eras of 146097 days, each split into
    centuries, four-year blocks and years that start on March 1st (so that a
    leap day is the last day of its year). */
module Dates {

  import opened Wrappers
  import opened Strings

  datatype Civil = Civil(year: int, month: int, day: int)

  /** Days from 0000-03-01 to 1970-01-01. */
  const EpochShift: int := 719468

  /** Day of the era (from its March 1st) -> (year of era, day of that year). */
  function YearOfEra(doe: int): (r: (int, int))
    requires 0 <= doe < 146097
    ensures 0 <= r.0 <= 399 && 0 <= r.1 <= 365
    ensures EraDays(r.0) + r.1 == doe
    ensures r.1 < YearLength(r.0)
  {
    var c := if doe / 36524 < 3 then doe / 36524 else 3;
    var doc := doe - 36524 * c;
    var q := doc / 1461;
    var doq := doc - 1461 * q;
    var y := if doq / 365 < 3 then doq / 365 else 3;
    EraDaysSplit(c, q, y);
    (100 * c + 4 * q + y, doq - 365 * y)
  }

  /** The proleptic Gregorian leap rule; `%` is Euclidean, so it holds for
      years before 0 as well. */
  predicate IsLeap(y: int) {
    y % 4 == 0 && (y % 100 != 0 || y % 400 == 0)
  }

  function DaysInMonth(year: int, month: int): int {
    if month == 2 then (if IsLeap(year) then 29 else 28)
    else if month == 4 || month == 6 || month == 9 || month == 11 then 30
    else 31
  }

  /** A date the calendar has: a month 1 to 12 and a day within it. */
  predicate ValidCivil(c: Civil) {
    1 <= c.month <= 12 && 1 <= c.day <= DaysInMonth(c.year, c.month)
  }

  /** Days in year `yoe` of an era, which runs from March 1st of `yoe` to the
      end of February of `yoe + 1`. */
  function YearLength(yoe: int): int {
    if IsLeap(yoe + 1) then 366 else 365
  }

  /** Days in the first `yoe` years of an era: 365 each, plus one every fourth
      year, minus one every hundredth. */
  function EraDays(yoe: int): int {
    365 * yoe + yoe / 4 - yoe / 100
  }

  lemma EraDaysSplit(c: int, q: int, y: int)
    requires 0 <= c <= 3 && 0 <= q <= 24 && 0 <= y <= 3
    ensures EraDays(100 * c + 4 * q + y) == 36524 * c + 1461 * q + 365 * y
  {
    assert (100 * c + 4 * q + y) / 4 == 25 * c + q;
    assert (100 * c + 4 * q + y) / 100 == c;
  }

  /** Month index counted from March (0) to February (11). */
  function MonthIndex(doy: int): (mp: int)
    requires 0 <= doy <= 365
    ensures 0 <= mp <= 11
    ensures 0 <= doy - MonthStart(mp) <= 30
  {
    (5 * doy + 2) / 153
  }

  /** Day of the March-based year on which month index `mp` begins. */
  function MonthStart(mp: int): int {
    (153 * mp + 2) / 5
  }

  function CivilFromDays(z: int): (c: Civil)
    ensures 1 <= c.month <= 12 && 1 <= c.day <= 31
  {
    var era := (z + EpochShift) / 146097;
    var doe := z + EpochShift - era * 146097;
    var (yoe, doy) := YearOfEra(doe);
    var mp := MonthIndex(doy);
    Civil(yoe + era * 400 + (if mp >= 10 then 1 else 0),
          if mp < 10 then mp + 3 else mp - 9,
          doy - MonthStart(mp) + 1)
  }

  function DaysFromCivil(c: Civil): int {
    var y := c.year - (if c.month <= 2 then 1 else 0);
    var era := y / 400;
    var yoe := y - era * 400;
    var mp := if c.month > 2 then c.month - 3 else c.month + 9;
    era * 146097 + EraDays(yoe) + MonthStart(mp) + c.day - 1 - EpochShift
  }

  lemma EraOf(era: int, yoe: int)
    requires 0 <= yoe < 400
    ensures (yoe + era * 400) / 400 == era
  {
  }

  /** Converting a day number to a calendar date loses nothing. */
  lemma CivilRoundTrip(z: int)
    ensures DaysFromCivil(CivilFromDays(z)) == z
  {
    var era := (z + EpochShift) / 146097;
    var doe := z + EpochShift - era * 146097;
    var (yoe, doy) := YearOfEra(doe);
    var mp := MonthIndex(doy);
    var c := CivilFromDays(z);
    assert c == Civil(yoe + era * 400 + (if mp >= 10 then 1 else 0),
                      if mp < 10 then mp + 3 else mp - 9,
                      doy - MonthStart(mp) + 1);
    DaysFromCivilParts(c, era, yoe, mp);
  }

  /** `DaysFromCivil` undoes the year and month split of `CivilFromDays`. */
  lemma DaysFromCivilParts(c: Civil, era: int, yoe: int, mp: int)
    requires 0 <= yoe < 400
    requires c.year - (if c.month <= 2 then 1 else 0) == yoe + era * 400
    requires mp == (if c.month > 2 then c.month - 3 else c.month + 9)
    ensures DaysFromCivil(c) == era * 146097 + EraDays(yoe) + MonthStart(mp) + c.day - 1 - EpochShift
  {
    EraOf(era, yoe);
  }

  /** Distinct day numbers are distinct calendar dates. */
  lemma CivilInjective(z1: int, z2: int)
    requires CivilFromDays(z1) == CivilFromDays(z2)
    ensures z1 == z2
  {
    CivilRoundTrip(z1);
    CivilRoundTrip(z2);
  }

  lemma ShiftMod4(y: int, j: int) ensures (y + 4 * j) % 4 == y % 4 {}
  lemma ShiftMod100(y: int, j: int) ensures (y + 100 * j) % 100 == y % 100 {}
  lemma ShiftMod400(y: int, j: int) ensures (y + 400 * j) % 400 == y % 400 {}

  /** Whole eras do not change whether a year is a leap year. */
  lemma LeapShift(y: int, era: int)
    ensures IsLeap(y + era * 400) == IsLeap(y)
  {
    ShiftMod4(y, 100 * era);
    ShiftMod100(y, 4 * era);
    ShiftMod400(y, era);
    assert y + era * 400 == y + 4 * (100 * era) == y + 100 * (4 * era) == y + 400 * era;
  }

  /** Within an era, the next year starts where this one ends. */
  lemma EraDaysNext(yoe: int)
    requires 0 <= yoe < 399
    ensures EraDays(yoe + 1) == EraDays(yoe) + YearLength(yoe)
  {
    assert (yoe + 1) / 4 == yoe / 4 + (if (yoe + 1) % 4 == 0 then 1 else 0);
    assert (yoe + 1) / 100 == yoe / 100 + (if (yoe + 1) % 100 == 0 then 1 else 0);
    assert (yoe + 1) % 400 != 0;
  }

  lemma EraDaysMonotone(a: int, b: int)
    requires 0 <= a <= b
    ensures EraDays(a) <= EraDays(b)
  {
    assert a / 4 <= b / 4;
    assert b / 100 - a / 100 <= b - a;
  }

  /** A day of an era has one year of era and one day of that year. */
  lemma YearOfEraUnique(a: int, da: int, b: int, db: int)
    requires 0 <= a <= 399 && 0 <= da < YearLength(a)
    requires 0 <= b <= 399 && 0 <= db < YearLength(b)
    requires EraDays(a) + da == EraDays(b) + db
    ensures a == b && da == db
  {
    if a < b {
      EraDaysNext(a);
      EraDaysMonotone(a + 1, b);
    } else if b < a {
      EraDaysNext(b);
      EraDaysMonotone(b + 1, a);
    }
  }

  /** A day of a month-index's span has that month index. */
  lemma MonthIndexOf(mp: int, d: int)
    requires 0 <= mp <= 11 && 0 <= d
    requires mp < 11 ==> MonthStart(mp) + d < MonthStart(mp + 1)
    requires mp == 11 ==> d <= 28
    ensures MonthIndex(MonthStart(mp) + d) == mp
  {
  }

  /** The month index spans have the lengths of the months March to January. */
  lemma MonthSpan(mp: int, year: int)
    requires 0 <= mp < 11
    ensures MonthStart(mp + 1) - MonthStart(mp)
         == DaysInMonth(year, if mp < 10 then mp + 3 else mp - 9)
  {
  }

  /** Every day number names a date the calendar has: no April 31st, and
      February 29th only in leap years. */
  lemma CivilFromDaysValid(z: int)
    ensures ValidCivil(CivilFromDays(z))
  {
    var era := (z + EpochShift) / 146097;
    var doe := z + EpochShift - era * 146097;
    var (yoe, doy) := YearOfEra(doe);
    var mp := MonthIndex(doy);
    var c := CivilFromDays(z);
    assert c == Civil(yoe + era * 400 + (if mp >= 10 then 1 else 0),
                      if mp < 10 then mp + 3 else mp - 9,
                      doy - MonthStart(mp) + 1);
    if mp < 11 {
      MonthSpan(mp, c.year);
    } else {
      LeapShift(yoe + 1, era);
      assert c.year == yoe + 1 + era * 400;
    }
  }

  /** The day of the March-based year on which a valid date falls lies in
      that year and in the date's month. */
  lemma DayOfYearOf(c: Civil, era: int, yoe: int, mp: int)
    requires ValidCivil(c) && 0 <= yoe < 400
    requires c.year - (if c.month <= 2 then 1 else 0) == yoe + era * 400
    requires mp == (if c.month > 2 then c.month - 3 else c.month + 9)
    ensures 0 <= MonthStart(mp) + c.day - 1 < YearLength(yoe)
    ensures MonthIndex(MonthStart(mp) + c.day - 1) == mp
  {
    if mp < 11 {
      MonthSpan(mp, c.year);
    } else {
      LeapShift(yoe + 1, era);
      assert c.year == yoe + 1 + era * 400;
    }
    MonthIndexOf(mp, c.day - 1);
  }

  /** `CivilFromDays` given the era, year of era, day of year and month index
      of its argument. */
  lemma CivilFromDaysParts(z: int, era: int, doe: int, yoe: int, doy: int, mp: int)
    requires 0 <= doe < 146097 && z + EpochShift == era * 146097 + doe
    requires YearOfEra(doe) == (yoe, doy) && MonthIndex(doy) == mp
    ensures CivilFromDays(z) == Civil(yoe + era * 400 + (if mp >= 10 then 1 else 0),
                                      if mp < 10 then mp + 3 else mp - 9,
                                      doy - MonthStart(mp) + 1)
  {
    assert (z + EpochShift) / 146097 == era;
  }

  /** Converting a valid calendar date to a day number and back gives the
      same date. */
  lemma CivilRoundTripBack(c: Civil)
    requires ValidCivil(c)
    ensures CivilFromDays(DaysFromCivil(c)) == c
  {
    var y := c.year - (if c.month <= 2 then 1 else 0);
    var era := y / 400;
    var yoe := y - era * 400;
    var mp := if c.month > 2 then c.month - 3 else c.month + 9;
    var doy := MonthStart(mp) + c.day - 1;
    DayOfYearOf(c, era, yoe, mp);
    EraDaysMonotone(yoe, 399);
    var doe := EraDays(yoe) + doy;
    var z := DaysFromCivil(c);
    DaysFromCivilParts(c, era, yoe, mp);
    var r := YearOfEra(doe);
    YearOfEraUnique(r.0, r.1, yoe, doy);
    CivilFromDaysParts(z, era, doe, yoe, doy, mp);
  }

  /** Day 0 is 1970-01-01, the epoch. */
  lemma EpochDay()
    ensures CivilFromDays(0) == Civil(1970, 1, 1)
  {
    assert DaysFromCivil(Civil(1970, 1, 1)) == 0 by {
      assert EraDays(369) == 134774;
      assert MonthStart(10) == 306;
    }
    CivilRoundTripBack(Civil(1970, 1, 1));
  }

  /** Day 11016 is 2000-02-29, a leap day of a year divisible by 400. */
  lemma LeapDay2000()
    ensures CivilFromDays(11016) == Civil(2000, 2, 29)
  {
    assert DaysFromCivil(Civil(2000, 2, 29)) == 11016 by {
      assert EraDays(399) == 145731;
      assert MonthStart(11) == 337;
    }
    CivilRoundTripBack(Civil(2000, 2, 29));
  }

  /** The range of chrono's `NaiveDate`: years -262143 to 262142. */
  const MinYear: int := -262143
  const MaxYear: int := 262142
  const MinDay: int := DaysFromCivil(Civil(MinYear, 1, 1))
  const MaxDay: int := DaysFromCivil(Civil(MaxYear, 12, 31))

  predicate InRange(z: int) {
    MinDay <= z <= MaxDay
  }

  // ---- Formatting with "%Y-%m-%d" ----

  /** chrono's `%Y`: four digits for years 0 to 9999, otherwise a sign and at
      least four digits. */
  function FormatYear(y: int): string {
    if 0 <= y <= 9999 then Padded(y, 4)
    else if y < 0 then "-" + Padded(-y, 4)
    else "+" + Padded(y, 4)
  }

  /** `date.format("%Y-%m-%d")`. */
  function FormatDate(z: int): string {
    var c := CivilFromDays(z);
    FormatYear(c.year) + "-" + Padded(c.month, 2) + "-" + Padded(c.day, 2)
  }

  /** For the years 0 to 9999 the text is exactly YYYY-MM-DD. */
  lemma FormatDateShape(z: int)
    requires 0 <= CivilFromDays(z).year <= 9999
    ensures var s := FormatDate(z);
      && |s| == 10 && s[4] == '-' && s[7] == '-'
      && AllDigits(s[..4]) && AllDigits(s[5..7]) && AllDigits(s[8..])
  {
    var c := CivilFromDays(z);
    var y := Padded(c.year, 4);
    var m := Padded(c.month, 2);
    var d := Padded(c.day, 2);
    var s := FormatDate(z);
    assert s == y + "-" + m + "-" + d;
    assert s[..4] == y;
    assert s[5..7] == m;
    assert s[8..] == d;
  }

  /** Text of the shape YYYY-MM-DD. */
  predicate IsDateText(s: string) {
    && |s| == 10 && s[4] == '-' && s[7] == '-'
    && AllDigits(s[..4]) && AllDigits(s[5..7]) && AllDigits(s[8..])
  }

  /** Reads YYYY-MM-DD text back into a calendar date. */
  function ReadDate(s: string): Option<Civil> {
    if IsDateText(s) then Some(Civil(DecimalValue(s[..4]), DecimalValue(s[5..7]), DecimalValue(s[8..])))
    else None
  }

  /** For the years 0 to 9999 the date text reads back as the date it
      formats. */
  lemma FormatDateReadsBack(z: int)
    requires 0 <= CivilFromDays(z).year <= 9999
    ensures ReadDate(FormatDate(z)) == Some(CivilFromDays(z))
  {
    var c := CivilFromDays(z);
    var s := FormatDate(z);
    FormatDateShape(z);
    assert s[..4] == Padded(c.year, 4);
    assert s[5..7] == Padded(c.month, 2);
    assert s[8..] == Padded(c.day, 2);
    PaddedRoundTrip(c.year, 4);
    PaddedRoundTrip(c.month, 2);
    PaddedRoundTrip(c.day, 2);
  }
}
