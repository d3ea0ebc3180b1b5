/** Times as dates and clocks in UTC, before the epoch too. */
module Calendar {

  datatype Date = Date(year: int, month: nat, day: nat)

  datatype Clock = Clock(hour: nat, minute: nat, second: nat, milli: nat)

  const MS_PER_DAY := 86_400_000

  // -------------------------------------------------------------- the calendar

  /** The proleptic Gregorian calendar. */
  predicate IsLeap(year: int) { year % 4 == 0 && (year % 100 != 0 || year % 400 == 0) }

  function DaysInMonth(year: int, month: nat): nat
    requires 1 <= month <= 12
  {
    if month == 2 then (if IsLeap(year) then 29 else 28)
    else if month == 4 || month == 6 || month == 9 || month == 11 then 30
    else 31
  }

  predicate IsDate(d: Date) { 1 <= d.month <= 12 && 1 <= d.day <= DaysInMonth(d.year, d.month) }

  /** The days of a year before a month. */
  function DaysBefore(year: int, month: nat): nat
    requires 1 <= month <= 13
  {
    if month == 1 then 0 else DaysBefore(year, month - 1) + DaysInMonth(year, month - 1)
  }

  /** The days from the first of January of the year 1 to that of `year`. */
  function YearStart(year: int): int {
    var y := year - 1;
    365 * y + y / 4 - y / 100 + y / 400
  }

  /** The days from the epoch, the first of January 1970, to a date. */
  function DayNumber(d: Date): int
    requires IsDate(d)
  {
    YearStart(d.year) - YearStart(1970) + DaysBefore(d.year, d.month) + d.day - 1
  }

  function NextDate(d: Date): Date
    requires IsDate(d)
  {
    if d.day < DaysInMonth(d.year, d.month) then d.(day := d.day + 1)
    else if d.month < 12 then Date(d.year, d.month + 1, 1)
    else Date(d.year + 1, 1, 1)
  }

  /** A year is as long as its months, and the next begins after it. */
  lemma YearIsItsMonths(year: int)
    ensures YearStart(year + 1) == YearStart(year) + DaysBefore(year, 13)
    ensures DaysBefore(year, 13) == if IsLeap(year) then 366 else 365
  {
    MonthsAre(year);
    LeapStep(year);
  }

  lemma LeapStep(year: int)
    ensures YearStart(year + 1) - YearStart(year) == if IsLeap(year) then 366 else 365
  {
    StepBy4(year);
    StepBy100(year);
    StepBy400(year);
  }

  lemma StepBy4(year: int)
    ensures year / 4 - (year - 1) / 4 == if year % 4 == 0 then 1 else 0
  {
  }

  lemma StepBy100(year: int)
    ensures year / 100 - (year - 1) / 100 == if year % 100 == 0 then 1 else 0
    ensures year % 100 == 0 ==> year % 4 == 0
  {
    var q, r := year / 100, year % 100;
    if r == 0 {
      ByHundred(year - 1, q - 1, 99);
      ByFour(year, 25 * q);
    } else {
      ByHundred(year - 1, q, r - 1);
    }
  }

  lemma StepBy400(year: int)
    ensures year / 400 - (year - 1) / 400 == if year % 400 == 0 then 1 else 0
    ensures year % 400 == 0 ==> year % 100 == 0
  {
    var q, r := year / 400, year % 400;
    if r == 0 {
      ByEra(year - 1, q - 1, 399);
      ByHundred(year, 4 * q, 0);
    } else {
      ByEra(year - 1, q, r - 1);
    }
  }

  lemma ByFour(n: int, q: int)
    requires n == 4 * q
    ensures n % 4 == 0
  {
  }

  lemma ByHundred(n: int, q: int, r: int)
    requires 0 <= r < 100 && n == 100 * q + r
    ensures n / 100 == q && n % 100 == r
  {
  }

  lemma ByEra(n: int, q: int, r: int)
    requires 0 <= r < 400 && n == 400 * q + r
    ensures n / 400 == q
  {
  }

  lemma MonthsAre(year: int)
    ensures var leap := if IsLeap(year) then 1 else 0;
            && DaysBefore(year, 1) == 0 && DaysBefore(year, 2) == 31 && DaysBefore(year, 3) == 59 + leap
            && DaysBefore(year, 4) == 90 + leap && DaysBefore(year, 5) == 120 + leap
            && DaysBefore(year, 6) == 151 + leap
            && DaysBefore(year, 7) == 181 + leap && DaysBefore(year, 8) == 212 + leap
            && DaysBefore(year, 9) == 243 + leap
            && DaysBefore(year, 10) == 273 + leap && DaysBefore(year, 11) == 304 + leap
            && DaysBefore(year, 12) == 334 + leap
            && DaysBefore(year, 13) == 365 + leap
  {
    hide IsLeap;
    assert DaysBefore(year, 1) == 0 && DaysBefore(year, 2) == 31;
    assert DaysBefore(year, 4) == DaysBefore(year, 3) + 31 && DaysBefore(year, 5) == DaysBefore(year, 4) + 30;
    assert DaysBefore(year, 7) == DaysBefore(year, 6) + 30 && DaysBefore(year, 6) == DaysBefore(year, 5) + 31;
    assert DaysBefore(year, 9) == DaysBefore(year, 8) + 31 && DaysBefore(year, 8) == DaysBefore(year, 7) + 31;
    assert DaysBefore(year, 11) == DaysBefore(year, 10) + 31 && DaysBefore(year, 10) == DaysBefore(year, 9) + 30;
    assert DaysBefore(year, 13) == DaysBefore(year, 12) + 31 && DaysBefore(year, 12) == DaysBefore(year, 11) + 30;
  }

  /** The day after a date has the next number. */
  lemma NextIsOneMore(d: Date)
    requires IsDate(d)
    ensures IsDate(NextDate(d)) && DayNumber(NextDate(d)) == DayNumber(d) + 1
  {
    hide YearStart, IsLeap;
    YearIsItsMonths(d.year);
    assert DaysBefore(d.year, d.month + 1) == DaysBefore(d.year, d.month) + DaysInMonth(d.year, d.month);
  }

  lemma {:induction false} LaterYearsStartLater(a: int, b: int)
    requires a <= b
    ensures YearStart(a) + 365 * (b - a) <= YearStart(b)
    decreases b - a
  {
    hide YearStart, IsLeap;
    if a < b {
      LaterYearsStartLater(a, b - 1);
      LeapStep(b - 1);
    }
  }

  lemma {:induction false} LaterMonthsStartLater(year: int, m: nat, n: nat)
    requires 1 <= m < n <= 13
    ensures DaysBefore(year, m) + DaysInMonth(year, m) <= DaysBefore(year, n)
  {
    if m < n - 1 { LaterMonthsStartLater(year, m, n - 1); }
  }

  /** No two dates have one number. */
  lemma NumbersTellApart(a: Date, b: Date)
    requires IsDate(a) && IsDate(b) && DayNumber(a) == DayNumber(b)
    ensures a == b
  {
    WithinYear(a);
    WithinYear(b);
    hide YearStart, IsLeap, DaysInMonth;
    if a.year < b.year {
      LaterYearsStartLater(a.year + 1, b.year);
    } else if b.year < a.year {
      LaterYearsStartLater(b.year + 1, a.year);
    } else if a.month < b.month {
      LaterMonthsStartLater(a.year, a.month, b.month);
    } else if b.month < a.month {
      LaterMonthsStartLater(a.year, b.month, a.month);
    }
  }

  lemma WithinYear(d: Date)
    requires IsDate(d)
    ensures YearStart(d.year) <= DayNumber(d) + YearStart(1970) < YearStart(d.year + 1)
  {
    hide YearStart, IsLeap;
    YearIsItsMonths(d.year);
    if d.month < 12 { LaterMonthsStartLater(d.year, d.month, 13); }
  }

  // ------------------------------------------------------- from days to a date

  /** The year of an era, counted from March, of a day of it. */
  function YearOfEra(ofEra: nat): int { (ofEra - ofEra / 1_460 + ofEra / 36_524 - ofEra / 146_096) / 365 }

  /** The month, counted from March, of a day of a year. */
  function Shifted(ofYear: int): int { (5 * ofYear + 2) / 153 }

  /** Days to a civil date. */
  function CivilFromDays(days: int): Date {
    var z := days + 719_468;
    var era := z / 146_097;
    var ofEra := z % 146_097;
    var y := YearOfEra(ofEra);
    OfYearInBounds(ofEra);
    var ofYear := ofEra - EraYearStart(y);
    var shifted := Shifted(ofYear);
    var day := ofYear - (153 * shifted + 2) / 5 + 1;
    var month := if shifted < 10 then shifted + 3 else shifted - 9;
    Date(y + era * 400 + (if month <= 2 then 1 else 0), month, day)
  }

  /** The days of an era before a year of it. */
  function EraYearStart(y: int): int { 365 * y + y / 4 - y / 100 }

  /** A day of an era as its century, the four years of it, the year of those,
      and the day of the year. */
  lemma InParts(ofEra: nat) returns (century: nat, four: nat, one: nat, rest: nat)
    requires ofEra < 146_097
    ensures century < 4 && four < 25 && one < 4 && rest <= 365
    ensures ofEra == 36_524 * century + 1_461 * four + 365 * one + rest
    ensures rest == 365 ==> one == 3 && (four < 24 || century == 3)
  {
    century := if ofEra / 36_524 < 3 then ofEra / 36_524 else 3;
    var ofCentury: nat := ofEra - 36_524 * century;
    four := if ofCentury / 1_461 < 24 then ofCentury / 1_461 else 24;
    var ofFour: nat := ofCentury - 1_461 * four;
    one := if ofFour / 365 < 3 then ofFour / 365 else 3;
    rest := ofFour - 365 * one;
  }

  lemma StartOfParts(century: nat, four: nat, one: nat)
    requires century < 4 && four < 25 && one < 4
    ensures EraYearStart(100 * century + 4 * four + one) == 36_524 * century + 1_461 * four + 365 * one
    ensures var y := 100 * century + 4 * four + one;
            EraYearStart(y + 1) - EraYearStart(y) ==
            if one < 3 || (four == 24 && century < 3) then 365 else if y == 399 then 365 else 366
  {
    var y := 100 * century + 4 * four + one;
    assert y / 4 == 25 * century + four && y / 100 == century;
    assert (y + 1) / 4 == 25 * century + four + (if one == 3 then 1 else 0);
    assert (y + 1) / 100 == century + (if one == 3 && four == 24 then 1 else 0);
  }

  lemma YearOfParts(ofEra: nat, century: nat, four: nat, one: nat, rest: nat)
    requires century < 4 && four < 25 && one < 4 && rest <= 365 && ofEra < 146_097
    requires ofEra == 36_524 * century + 1_461 * four + 365 * one + rest
    requires rest == 365 ==> one == 3 && (four < 24 || century == 3)
    ensures YearOfEra(ofEra) == 100 * century + 4 * four + one
  {
    var over := if 24 * century + four + 365 * one + rest >= 1_460 then 1 else 0;
    assert ofEra == 1_460 * (25 * century + four) + (24 * century + four + 365 * one + rest);
    assert ofEra / 1_460 == 25 * century + four + over;
    var last := ofEra == 146_096;
    assert ofEra / 146_096 == if last then 1 else 0;
    assert ofEra / 36_524 == century + if last then 1 else 0;
    var v := ofEra - ofEra / 1_460 + ofEra / 36_524 - ofEra / 146_096;
    assert v == 365 * (100 * century + 4 * four + one) + (rest - over);
    assert 0 <= rest - over < 365;
  }

  lemma OfYearInBounds(ofEra: nat)
    requires ofEra < 146_097
    ensures var y := YearOfEra(ofEra);
            var ofYear := ofEra - EraYearStart(y);
            && 0 <= y < 400 && 0 <= ofYear <= 365
            && (ofYear == 365 ==> y == 399 || EraYearStart(y + 1) - EraYearStart(y) == 366)
            && 0 <= Shifted(ofYear) < 12 && ofYear - (153 * Shifted(ofYear) + 2) / 5 >= 0
  {
    var century, four, one, rest := InParts(ofEra);
    YearOfParts(ofEra, century, four, one, rest);
    StartOfParts(century, four, one);
    MonthOfYear(rest);
    hide YearOfEra, EraYearStart, Shifted;
  }

  /** Days of the months from March on, before the one a day is in. */
  lemma MonthOfYear(ofYear: nat)
    requires ofYear <= 365
    ensures var m := Shifted(ofYear);
            && 0 <= m < 12 && (153 * m + 2) / 5 <= ofYear < (153 * (m + 1) + 2) / 5
  {
    var m := Shifted(ofYear);
    assert 153 * m <= 5 * ofYear + 2 < 153 * (m + 1);
  }

  // ------------------------------------------------------------- what it gives

  /** The days of a year that begins in March, before its months. */
  lemma MarchMonths(year: int, shifted: nat)
    requires shifted < 12
    ensures var month := if shifted < 10 then shifted + 3 else shifted - 9;
            var calendar := if shifted < 10 then year else year + 1;
            && (153 * shifted + 2) / 5 == DaysBefore(calendar, month)
                                         + (if shifted < 10 then 0 else YearStart(year + 1) - YearStart(year))
                                         - DaysBefore(year, 3)
            && (shifted < 11 ==>
                (153 * (shifted + 1) + 2) / 5 - (153 * shifted + 2) / 5 == DaysInMonth(calendar, month))
  {
    MonthsAre(year);
    MonthsAre(year + 1);
    LeapStep(year);
    hide YearStart, IsLeap, DaysBefore;
  }

  /** A year from March on starts where its era's years say. */
  lemma MarchStarts(era: int, y: nat)
    requires y < 400
    ensures var year := y + era * 400;
            && YearStart(year) - YearStart(1970) + DaysBefore(year, 3) + 719_468 == era * 146_097 + EraYearStart(y)
            && (IsLeap(year + 1) <==> (if y == 399 then true else EraYearStart(y + 1) - EraYearStart(y) == 366))
  {
    var year := y + era * 400;
    MonthsAre(year);
    YearStartOfEra(era, y);
    LeapInEra(era, y);
    hide YearStart, IsLeap, DaysBefore;
  }

  lemma WholeEras(x: int, era: int)
    ensures (x + era * 400) / 4 == x / 4 + era * 100 && (x + era * 400) % 4 == x % 4
    ensures (x + era * 400) / 100 == x / 100 + era * 4 && (x + era * 400) % 100 == x % 100
    ensures (x + era * 400) / 400 == x / 400 + era && (x + era * 400) % 400 == x % 400
  {
    WholeTimes(x, era * 100, 4);
    WholeTimes(x, era * 4, 100);
    WholeTimes(x, era, 400);
  }

  lemma WholeTimes(x: int, times: int, n: int)
    requires n == 4 || n == 100 || n == 400
    ensures (x + times * n) / n == x / n + times && (x + times * n) % n == x % n
  {
    if n == 4 {
      assert x + times * 4 == 4 * (x / 4 + times) + x % 4;
    } else if n == 100 {
      assert x + times * 100 == 100 * (x / 100 + times) + x % 100;
    } else {
      assert x + times * 400 == 400 * (x / 400 + times) + x % 400;
    }
  }

  lemma YearStartOfEra(era: int, y: nat)
    requires y < 400
    ensures YearStart(y + era * 400) == era * 146_097 + YearStart(y)
    ensures YearStart(y) - YearStart(1970) + 719_468 + 59 + (if IsLeap(y) then 1 else 0) == EraYearStart(y)
    ensures IsLeap(y + era * 400) <==> IsLeap(y)
  {
    WholeEras(y - 1, era);
    WholeEras(y, era);
    assert y + era * 400 - 1 == (y - 1) + era * 400;
    FirstEra(y);
  }

  lemma FirstEra(y: nat)
    requires y < 400
    ensures YearStart(y) - YearStart(1970) + 719_468 + 59 + (if IsLeap(y) then 1 else 0) == EraYearStart(y)
  {
    LeapStep(y);
    assert YearStart(1970) == 719_162;
    assert y / 400 == 0;
    hide IsLeap;
  }

  lemma LeapInEra(era: int, y: nat)
    requires y < 400
    ensures IsLeap(y + era * 400 + 1) <==> (if y == 399 then true else EraYearStart(y + 1) - EraYearStart(y) == 366)
  {
    WholeEras(y + 1, era);
    assert y + era * 400 + 1 == (y + 1) + era * 400;
    assert IsLeap(y + era * 400 + 1) <==> IsLeap(y + 1);
    LeapInFirstEra(y);
  }

  lemma LeapInFirstEra(y: nat)
    requires y < 400
    ensures IsLeap(y + 1) <==> (if y == 399 then true else EraYearStart(y + 1) - EraYearStart(y) == 366)
  {
    if y < 399 {
      FirstEra(y);
      FirstEra(y + 1);
      LeapStep(y);
      hide YearStart, EraYearStart;
    }
  }

  /** The date of a day of a year from March on. */
  function FromMarch(year: int, ofYear: nat): Date
    requires ofYear <= 365
  {
    MonthOfYear(ofYear);
    var shifted := Shifted(ofYear);
    var month := if shifted < 10 then shifted + 3 else shifted - 9;
    Date(year + (if month <= 2 then 1 else 0), month, ofYear - (153 * shifted + 2) / 5 + 1)
  }

  lemma FromMarchIsDate(year: int, ofYear: nat)
    requires ofYear <= 365 && (ofYear == 365 ==> IsLeap(year + 1))
    ensures IsDate(FromMarch(year, ofYear))
  {
    MonthOfYear(ofYear);
    MarchMonths(year, Shifted(ofYear));
    hide YearStart, DaysBefore, IsLeap, Shifted;
  }

  lemma FromMarchHasItsNumber(year: int, ofYear: nat)
    requires ofYear <= 365 && (ofYear == 365 ==> IsLeap(year + 1))
    ensures IsDate(FromMarch(year, ofYear))
    ensures DayNumber(FromMarch(year, ofYear)) == YearStart(year) - YearStart(1970) + DaysBefore(year, 3) + ofYear
  {
    FromMarchIsDate(year, ofYear);
    MonthOfYear(ofYear);
    MarchMonths(year, Shifted(ofYear));
    hide YearStart, DaysBefore, IsLeap, Shifted, IsDate;
  }

  /** The date computed from a number of days is that of a day of a year that
      starts in March. */
  lemma CivilIsFromMarch(days: int) returns (era: int, y: nat, ofYear: nat)
    ensures y < 400 && ofYear <= 365 && (ofYear == 365 ==> y == 399 || EraYearStart(y + 1) - EraYearStart(y) == 366)
    ensures days + 719_468 == era * 146_097 + EraYearStart(y) + ofYear
    ensures CivilFromDays(days) == FromMarch(y + era * 400, ofYear)
  {
    var z := days + 719_468;
    era := z / 146_097;
    var ofEra := z % 146_097;
    OfYearInBounds(ofEra);
    y := YearOfEra(ofEra);
    hide EraYearStart, YearOfEra, Shifted;
    ofYear := ofEra - EraYearStart(y);
  }

  /** The date computed from a number of days is a date of the calendar, and its
      number is that number of days. */
  lemma DateHasItsNumber(days: int)
    ensures IsDate(CivilFromDays(days)) && DayNumber(CivilFromDays(days)) == days
  {
    hide CivilFromDays, FromMarch, EraYearStart, YearStart, DaysBefore, IsLeap, IsDate, DayNumber;
    var era, y, ofYear := CivilIsFromMarch(days);
    MarchStarts(era, y);
    FromMarchHasItsNumber(y + era * 400, ofYear);
  }

  /** Days to dates and dates to days undo each other, for every day and every
      date of the calendar. */
  lemma DatesAndDaysUndoEachOther(days: int, d: Date)
    ensures IsDate(CivilFromDays(days)) && DayNumber(CivilFromDays(days)) == days
    ensures IsDate(d) ==> CivilFromDays(DayNumber(d)) == d
    ensures IsDate(d) ==> (DayNumber(d) == days <==> CivilFromDays(days) == d)
  {
    hide CivilFromDays, DayNumber;
    DateHasItsNumber(days);
    if IsDate(d) {
      DateHasItsNumber(DayNumber(d));
      NumbersTellApart(CivilFromDays(DayNumber(d)), d);
    }
  }

  /** The next day has the calendar's next date, and the epoch has its own. */
  lemma DaysFollowTheCalendar(days: int)
    ensures CivilFromDays(0) == Date(1970, 1, 1)
    ensures IsDate(CivilFromDays(days)) && CivilFromDays(days + 1) == NextDate(CivilFromDays(days))
  {
    DateHasItsNumber(days);
    DateHasItsNumber(days + 1);
    NextIsOneMore(CivilFromDays(days));
    hide CivilFromDays, DayNumber, NextDate, IsDate;
    NumbersTellApart(CivilFromDays(days + 1), NextDate(CivilFromDays(days)));
    EpochIsItsDate();
  }

  lemma EpochIsItsDate()
    ensures CivilFromDays(0) == Date(1970, 1, 1)
  {
    assert 719_468 / 146_097 == 4 && 719_468 % 146_097 == 135_080;
    assert 135_080 / 1_460 == 92 && 135_080 / 36_524 == 3 && 135_080 / 146_096 == 0 && 134_991 / 365 == 369;
    assert YearOfEra(135_080) == 369 && EraYearStart(369) == 134_774;
    assert Shifted(306) == 10;
  }

  // ----------------------------------------------------------------- the clock

  function ClockOf(ofDay: nat): Clock {
    Clock(ofDay / 3_600_000, ofDay / 60_000 % 60, ofDay / 1_000 % 60, ofDay % 1_000)
  }

  /** The civil date and the time of day of a count of milliseconds, from one
      division by a day. */
  function Stamp(time: int): (Date, Clock) { (CivilFromDays(time / MS_PER_DAY), ClockOf(time % MS_PER_DAY)) }

  function MillisOf(c: Clock): int { c.hour * 3_600_000 + c.minute * 60_000 + c.second * 1_000 + c.milli }

  predicate IsClock(c: Clock) { c.hour < 24 && c.minute < 60 && c.second < 60 && c.milli < 1_000 }

  lemma InUnits(n: nat, small: nat, large: nat)
    requires (small == 1_000 && large == 60) || (small == 60_000 && large == 60)
    ensures n / small == large * (n / (small * large)) + n / small % large
  {
    if small == 1_000 {
      assert n / 1_000 / 60 == n / 60_000;
    } else {
      assert n / 60_000 / 60 == n / 3_600_000;
    }
  }

  lemma ClockRebuilds(ofDay: nat)
    requires ofDay < MS_PER_DAY
    ensures IsClock(ClockOf(ofDay)) && MillisOf(ClockOf(ofDay)) == ofDay
  {
    InUnits(ofDay, 60_000, 60);
    InUnits(ofDay, 1_000, 60);
    assert ofDay == 1_000 * (ofDay / 1_000) + ofDay % 1_000;
    assert ofDay / 3_600_000 < 24;
  }

  /** The date and the clock of a time are in range and rebuild it, before the
      epoch too. */
  lemma StampRebuildsTime(time: int)
    ensures var (date, clock) := Stamp(time);
            IsDate(date) && IsClock(clock) && DayNumber(date) * MS_PER_DAY + MillisOf(clock) == time
  {
    hide CivilFromDays, DayNumber, IsDate;
    DateHasItsNumber(time / MS_PER_DAY);
    ClockRebuilds(time % MS_PER_DAY);
  }
}
