/** Instants as text: the printer counts calendar dates from days, the parser days from calendar
    dates. The two were written apart; here they are shown to undo each other and to follow the
    proleptic Gregorian calendar. The text form is the one in section 5.6 of RFC 3339. */
module Calendar {
  import opened Basics

  datatype Date = Date(year: int, month: int, day: int)

  predicate IsLeap(year: int) {
    year % 4 == 0 && (year % 100 != 0 || year % 400 == 0)
  }

  function DaysInMonth(year: int, month: int): int {
    if month == 2 then (if IsLeap(year) then 29 else 28)
    else if month == 4 || month == 6 || month == 9 || month == 11 then 30
    else 31
  }

  predicate IsDate(d: Date) {
    1 <= d.month <= 12 && 1 <= d.day <= DaysInMonth(d.year, d.month)
  }

  /** The calendar by its own rule, independent of any day count. */
  function NextDay(d: Date): Date {
    if d.day < DaysInMonth(d.year, d.month) then d.(day := d.day + 1)
    else if d.month < 12 then Date(d.year, d.month + 1, 1)
    else Date(d.year + 1, 1, 1)
  }

  // ---------------------------------------------------------------- days to date, as printed

  function YearOfEra(doe: int): int {
    (doe - doe / 1460 + doe / 36_524 - doe / 146_096) / 365
  }

  function CivilFromDays(days: int): Date {
    var z := days + 719_468;
    var era := TruncDiv(if z >= 0 then z else z - 146_096, 146_097);
    DateInEra(era, z - era * 146_097)
  }

  function DateInEra(era: int, doe: int): Date {
    var yoe := YearOfEra(doe);
    var doy := doe - (365 * yoe + yoe / 4 - yoe / 100);
    var mp := (5 * doy + 2) / 153;
    var day := doy - (153 * mp + 2) / 5 + 1;
    var month := if mp < 10 then mp + 3 else mp - 9;
    Date(yoe + era * 400 + (if month <= 2 then 1 else 0), month, day)
  }

  // ---------------------------------------------------------------- date to days, as parsed

  function DaysFromCivil(d: Date): int {
    var adjusted := d.year - (if d.month <= 2 then 1 else 0);
    var era := TruncDiv(if adjusted >= 0 then adjusted else adjusted - 399, 400);
    var yoe := adjusted - era * 400;
    var shifted := d.month + (if d.month > 2 then -3 else 9);
    var doy := (153 * shifted + 2) / 5 + d.day - 1;
    var doe := yoe * 365 + yoe / 4 - yoe / 100 + doy;
    era * 146_097 + doe - 719_468
  }

  // ---------------------------------------------------------------- the two undo each other

  /** The source's guarded truncating divisions are flooring divisions. */
  lemma ErasFloor(a: int)
    ensures TruncDiv(if a >= 0 then a else a - 146_096, 146_097) == a / 146_097
    ensures TruncDiv(if a >= 0 then a else a - 399, 400) == a / 400
  {
  }

  /** First day of a year within its 400-year era; years start on March 1. */
  function YearStart(yoe: int): int {
    365 * yoe + yoe / 4 - yoe / 100
  }

  /** Days in the March-based year `yoe`: its last day is February 28 or 29 of the next. */
  function YearLength(yoe: int): int {
    if IsLeap(yoe + 1) then 366 else 365
  }

  /** Within a century (`c`), the four-year cycle (`q`) and the day inside it (`t`). */
  lemma YearInCentury(c: int, q: int, t: int)
    requires 0 <= c < 4 && 0 <= q < 25 && 0 <= t < 1461 && 1461 * q + t < 36_524
    ensures YearOfEra(36_524 * c + 1461 * q + t) == 100 * c + 4 * q + (if t == 1460 then 3 else t / 365)
  {
    var doe := 36_524 * c + 1461 * q + t;
    var k := if q + t + 24 * c < 1460 then q else q + 1;
    assert doe / 1460 == 25 * c + k;
    assert doe / 36_524 == c;
    assert doe / 146_096 == 0;
    assert doe - doe / 1460 + doe / 36_524 - doe / 146_096 == 365 * (100 * c + 4 * q) + (q + t - k);
  }

  lemma YearStartInCentury(c: int, q: int, y: int)
    requires 0 <= c < 4 && 0 <= q < 25 && 0 <= y < 4
    ensures YearStart(100 * c + 4 * q + y) == 36_524 * c + 1461 * q + 365 * y
    ensures IsLeap(100 * c + 4 * q + y + 1) <==> y == 3 && (q < 24 || c == 3)
  {
    assert (100 * c + 4 * q + y) / 100 == c;
    assert (100 * c + 4 * q + y) / 4 == 25 * c + q;
  }

  lemma YearOfEraCorrect(doe: int)
    requires 0 <= doe < 146_097
    ensures 0 <= YearOfEra(doe) < 400
    ensures YearStart(YearOfEra(doe)) <= doe < YearStart(YearOfEra(doe)) + YearLength(YearOfEra(doe))
  {
    if doe == 146_096 {
      assert YearOfEra(doe) == 399;
    } else {
      var c, q, t := doe / 36_524, doe % 36_524 / 1461, doe % 36_524 % 1461;
      YearInCentury(c, q, t);
      YearStartInCentury(c, q, if t == 1460 then 3 else t / 365);
    }
  }

  /** Every day of every March-based year is assigned to that year. */
  lemma YearOfEraInverts(yoe: int, doy: int)
    requires 0 <= yoe < 400 && 0 <= doy < YearLength(yoe)
    ensures YearOfEra(YearStart(yoe) + doy) == yoe
    ensures 0 <= YearStart(yoe) + doy < 146_097
  {
    var c, q, y := yoe / 100, yoe % 100 / 4, yoe % 4;
    assert yoe == 100 * c + 4 * q + y;
    YearStartInCentury(c, q, y);
    if 1461 * q + 365 * y + doy < 36_524 {
      YearInCentury(c, q, 365 * y + doy);
    } else {
      assert YearStart(yoe) + doy == 146_096;
    }
  }

  /** Month and day within a March-based year, both ways. */
  lemma MonthOfDay(yoe: int, doy: int)
    requires 0 <= yoe < 400 && 0 <= doy < YearLength(yoe)
    ensures var mp := (5 * doy + 2) / 153;
            var day := doy - (153 * mp + 2) / 5 + 1;
            IsMarchDate(yoe, mp, day) && (153 * mp + 2) / 5 + day - 1 == doy
  {
  }

  predicate IsMarchDate(yoe: int, mp: int, day: int) {
    && 0 <= yoe < 400 && 0 <= mp < 12
    && 1 <= day <= (if mp == 11 then (if IsLeap(yoe + 1) then 29 else 28)
                    else if mp == 1 || mp == 3 || mp == 6 || mp == 8 then 30 else 31)
  }

  lemma DayOfMonth(yoe: int, mp: int, day: int)
    requires IsMarchDate(yoe, mp, day)
    ensures var doy := (153 * mp + 2) / 5 + day - 1;
            (5 * doy + 2) / 153 == mp && 0 <= doy < YearLength(yoe)
  {
  }

  /** A year's leap day depends only on its place in the era. */
  lemma LeapInEra(era: int, yoe: int)
    ensures IsLeap(yoe + era * 400) <==> IsLeap(yoe)
  {
    Mod4(yoe, 100 * era);
    Mod100(yoe, 4 * era);
    Mod400(yoe, era);
  }

  lemma Mod4(a: int, k: int)
    ensures (a + 4 * k) % 4 == a % 4
  {
  }

  lemma Mod100(a: int, k: int)
    ensures (a + 100 * k) % 100 == a % 100
  {
  }

  lemma Mod400(a: int, k: int)
    ensures (a + 400 * k) % 400 == a % 400
  {
  }

  /** The date of a day given by its era, March-based year, March-based month and day of month. */
  function MarchDate(era: int, yoe: int, mp: int, day: int): Date {
    Date(yoe + era * 400 + (if mp < 10 then 0 else 1), if mp < 10 then mp + 3 else mp - 9, day)
  }

  function DayNumber(era: int, yoe: int, doy: int): int {
    era * 146_097 + YearStart(yoe) + doy - 719_468
  }

  lemma MarchDateIsDate(era: int, yoe: int, mp: int, day: int)
    requires 0 <= yoe < 400 && 0 <= mp < 12
    ensures IsDate(MarchDate(era, yoe, mp, day)) <==> IsMarchDate(yoe, mp, day)
  {
    LeapInEra(era, yoe + 1);
  }

  lemma DateIsMarchDate(d: Date) returns (era: int, yoe: int, mp: int)
    requires IsDate(d)
    ensures 0 <= yoe < 400 && 0 <= mp < 12 && d == MarchDate(era, yoe, mp, d.day)
  {
    var adjusted := d.year - (if d.month <= 2 then 1 else 0);
    era, yoe := adjusted / 400, adjusted % 400;
    mp := d.month + (if d.month > 2 then -3 else 9);
  }

  lemma CountsMarchDate(era: int, yoe: int, mp: int, day: int)
    requires 0 <= yoe < 400 && 0 <= mp < 12
    ensures DaysFromCivil(MarchDate(era, yoe, mp, day)) == DayNumber(era, yoe, (153 * mp + 2) / 5 + day - 1)
  {
    var adjusted := yoe + era * 400;
    ErasFloor(adjusted);
    assert adjusted / 400 == era;
  }

  lemma PrintsInEra(era: int, yoe: int, doy: int)
    requires 0 <= yoe < 400 && 0 <= doy < YearLength(yoe)
    ensures var mp := (5 * doy + 2) / 153;
            DateInEra(era, YearStart(yoe) + doy) == MarchDate(era, yoe, mp, doy - (153 * mp + 2) / 5 + 1)
  {
    hide YearOfEra;
    YearOfEraInverts(yoe, doy);
    MonthOfDay(yoe, doy);
  }

  lemma PrintsMarchDate(era: int, yoe: int, doy: int)
    requires 0 <= yoe < 400 && 0 <= doy < YearLength(yoe)
    ensures var mp := (5 * doy + 2) / 153;
            CivilFromDays(DayNumber(era, yoe, doy)) == MarchDate(era, yoe, mp, doy - (153 * mp + 2) / 5 + 1)
  {
    hide DateInEra, YearStart, YearLength, MarchDate;
    YearOfEraInverts(yoe, doy);
    EraOfDay(era, YearStart(yoe) + doy);
    PrintsInEra(era, yoe, doy);
  }

  lemma EraOfDay(era: int, doe: int)
    requires 0 <= doe < 146_097
    ensures var z := era * 146_097 + doe; TruncDiv(if z >= 0 then z else z - 146_096, 146_097) == era
  {
  }

  lemma DayNumberOf(days: int) returns (era: int, yoe: int, doy: int)
    ensures 0 <= yoe < 400 && 0 <= doy < YearLength(yoe) && days == DayNumber(era, yoe, doy)
  {
    var z := days + 719_468;
    era := z / 146_097;
    var doe := z % 146_097;
    yoe := YearOfEra(doe);
    YearOfEraCorrect(doe);
    doy := doe - YearStart(yoe);
  }

  /** Every day count prints as a valid date, and that date parses back to the day count. */
  lemma DaysRoundTrip(days: int)
    ensures IsDate(CivilFromDays(days))
    ensures DaysFromCivil(CivilFromDays(days)) == days
  {
    hide *;
    var era, yoe, doy := DayNumberOf(days);
    PrintsMarchDate(era, yoe, doy);
    MonthOfDay(yoe, doy);
    var mp := (5 * doy + 2) / 153;
    MarchDateIsDate(era, yoe, mp, doy - (153 * mp + 2) / 5 + 1);
    CountsMarchDate(era, yoe, mp, doy - (153 * mp + 2) / 5 + 1);
  }

  /** Every valid date, in any year, comes back from its day count. */
  lemma DateRoundTrip(d: Date)
    requires IsDate(d)
    ensures CivilFromDays(DaysFromCivil(d)) == d
  {
    hide *;
    var era, yoe, mp := DateIsMarchDate(d);
    MarchDateIsDate(era, yoe, mp, d.day);
    CountsMarchDate(era, yoe, mp, d.day);
    DayOfMonth(yoe, mp, d.day);
    PrintsMarchDate(era, yoe, (153 * mp + 2) / 5 + d.day - 1);
  }

  // ---------------------------------------------------------------- and both follow the calendar

  lemma NextDayIsDate(d: Date)
    requires IsDate(d)
    ensures IsDate(NextDay(d))
  {
  }

  lemma YearStep(yoe: int)
    requires 0 <= yoe < 400
    ensures YearStart(yoe) + YearLength(yoe) == if yoe == 399 then 146_097 else YearStart(yoe + 1)
    ensures YearStart(0) == 0
  {
    var c, q, y := yoe / 100, yoe % 100 / 4, yoe % 4;
    assert yoe == 100 * c + 4 * q + y;
    YearStartInCentury(c, q, y);
    if y < 3 {
      YearStartInCentury(c, q, y + 1);
    } else if q < 24 {
      YearStartInCentury(c, q + 1, 0);
    } else if c < 3 {
      YearStartInCentury(c + 1, 0, 0);
    }
  }

  /** One day later in the Gregorian calendar is one more day in the count. */
  lemma NextDayCountsOne(d: Date)
    requires IsDate(d)
    ensures DaysFromCivil(NextDay(d)) == DaysFromCivil(d) + 1
  {
    hide DaysFromCivil, YearStart;
    var era, yoe, mp := DateIsMarchDate(d);
    MarchDateIsDate(era, yoe, mp, d.day);
    LeapInEra(era, yoe + 1);
    CountsMarchDate(era, yoe, mp, d.day);
    if d.day < DaysInMonth(d.year, d.month) {
      CountsMarchDate(era, yoe, mp, d.day + 1);
    } else if mp < 11 {
      assert NextDay(d) == MarchDate(era, yoe, mp + 1, 1);
      CountsMarchDate(era, yoe, mp + 1, 1);
    } else {
      YearStep(yoe);
      var era', yoe' := if yoe == 399 then era + 1 else era, if yoe == 399 then 0 else yoe + 1;
      assert NextDay(d) == MarchDate(era', yoe', 0, 1);
      CountsMarchDate(era', yoe', 0, 1);
    }
  }

  lemma EpochIsDayZero()
    ensures DaysFromCivil(Date(1970, 1, 1)) == 0
  {
  }

  /** The printed dates are the Gregorian calendar: day 0 is 1970-01-01 and each further day, in
      either direction without bound, is the calendar's next one. */
  lemma PrintsTheCalendar(days: int)
    ensures CivilFromDays(0) == Date(1970, 1, 1)
    ensures CivilFromDays(days + 1) == NextDay(CivilFromDays(days))
  {
    hide CivilFromDays, DaysFromCivil, NextDay;
    var d := CivilFromDays(days);
    DaysRoundTrip(days);
    NextDayIsDate(d);
    NextDayCountsOne(d);
    DateRoundTrip(NextDay(d));
    EpochIsDayZero();
    DateRoundTrip(Date(1970, 1, 1));
  }
}
