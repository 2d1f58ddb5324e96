/** RtlTimeToTimeFields: 100 ns ticks since 1601-01-01 as calendar and clock fields. */
module Calendar {
  type Int64 = x: int | -0x8000_0000_0000_0000 <= x < 0x8000_0000_0000_0000
  type Int16 = x: int | -0x8000 <= x < 0x8000

  const TICKS_PER_MS: int := 10000
  const MS_PER_DAY: int := 86400000
  const LAST_YEAR: int := 30828

  /** A value stored in a 16-bit field. */
  function ToInt16(x: int): Int16 {
    (x + 0x8000) % 0x1_0000 - 0x8000
  }

  // ---- the proleptic Gregorian calendar -----------------------------------

  predicate Leap(year: int) {
    (year % 4 == 0 && year % 100 != 0) || year % 400 == 0
  }

  function DaysInYear(year: int): int {
    if Leap(year) then 366 else 365
  }

  function DaysInMonth(year: int, month: int): int
    requires 1 <= month <= 12
  {
    if month == 2 then (if Leap(year) then 29 else 28)
    else if month in {4, 6, 9, 11} then 30
    else 31
  }

  /** Days from 1601-01-01 to the first day of `year`. */
  function DaysBeforeYear(year: int): int {
    var n := year - 1601;
    365 * n + n / 4 - n / 100 + n / 400
  }

  /** Days of the year before the first day of `month`. */
  function DaysBeforeMonth(year: int, month: int): int
    requires 1 <= month <= 13
  {
    var shift := if month <= 2 then 0 else if Leap(year) then -1 else -2;
    (367 * month - 362) / 12 + shift
  }

  datatype Date = Date(year: int, month: int, day: int) {
    predicate Valid() {
      1 <= month <= 12 && 1 <= day <= DaysInMonth(year, month)
    }

    /** The number of days since 1601-01-01. */
    function Number(): int
      requires 1 <= month <= 12
    {
      DaysBeforeYear(year) + DaysBeforeMonth(year, month) + day - 1
    }

    predicate Before(other: Date) {
      year < other.year || (year == other.year && (month < other.month || (month == other.month && day < other.day)))
    }
  }

  lemma {:induction false} YearLength(year: int)
    ensures DaysBeforeYear(year + 1) == DaysBeforeYear(year) + DaysInYear(year)
  {
    hide Leap;
    QuartersStep(year);
    CenturiesStep(year);
    CyclesStep(year);
    LeapDay(year);
    NextYear(year);
  }

  /** A leap day is what the three rules add and take away. */
  lemma {:induction false} LeapDay(year: int)
    ensures (if Leap(year) then 1 else 0)
            == (if year % 4 == 0 then 1 else 0) - (if year % 100 == 0 then 1 else 0)
               + (if year % 400 == 0 then 1 else 0)
  {
    if year % 400 == 0 {
      assert year == 4 * (100 * (year / 400)) && year == 100 * (4 * (year / 400));
    } else if year % 100 == 0 {
      assert year == 4 * (25 * (year / 100));
    }
  }

  lemma {:induction false} NextYear(year: int)
    ensures DaysBeforeYear(year + 1)
            == 365 * (year - 1600) + (year - 1600) / 4 - (year - 1600) / 100 + (year - 1600) / 400
  {
  }

  lemma {:induction false} QuartersStep(year: int)
    ensures (year - 1600) / 4 == (year - 1601) / 4 + if year % 4 == 0 then 1 else 0
  {
  }

  lemma {:induction false} CenturiesStep(year: int)
    ensures (year - 1600) / 100 == (year - 1601) / 100 + if year % 100 == 0 then 1 else 0
  {
  }

  lemma {:induction false} CyclesStep(year: int)
    ensures (year - 1600) / 400 == (year - 1601) / 400 + if year % 400 == 0 then 1 else 0
  {
  }

  lemma {:induction false} MonthLength(year: int, month: int)
    requires 1 <= month <= 12
    ensures DaysBeforeMonth(year, month + 1) == DaysBeforeMonth(year, month) + DaysInMonth(year, month)
    ensures DaysBeforeMonth(year, 1) == 0 && DaysBeforeMonth(year, 13) == DaysInYear(year)
  {
  }

  lemma {:induction false} YearsRise(a: int, b: int)
    requires a <= b
    ensures DaysBeforeYear(a) + 365 * (b - a) <= DaysBeforeYear(b)
    decreases b - a
  {
    if a < b {
      YearLength(b - 1);
      YearsRise(a, b - 1);
    }
  }

  lemma {:induction false} MonthsRise(year: int, a: int, b: int)
    requires 1 <= a <= b <= 13
    ensures DaysBeforeMonth(year, a) + 28 * (b - a) <= DaysBeforeMonth(year, b)
    decreases b - a
  {
    if a < b {
      MonthLength(year, b - 1);
      MonthsRise(year, a, b - 1);
    }
  }

  lemma {:induction false} DayOfYear(d: Date)
    requires d.Valid()
    ensures DaysBeforeYear(d.year) <= d.Number() < DaysBeforeYear(d.year + 1)
  {
    MonthLength(d.year, d.month);
    MonthsRise(d.year, 1, d.month);
    MonthsRise(d.year, d.month + 1, 13);
    YearLength(d.year);
  }

  /** Day numbers order valid dates as the calendar does, so no two dates share one. */
  lemma {:induction false} NumbersOrderDates(a: Date, b: Date)
    requires a.Valid() && b.Valid()
    ensures a.Before(b) <==> a.Number() < b.Number()
    ensures a == b <==> a.Number() == b.Number()
  {
    if a.Before(b) {
      EarlierHasSmallerNumber(a, b);
    } else if b.Before(a) {
      EarlierHasSmallerNumber(b, a);
    } else {
      assert a == b;
    }
  }

  lemma {:induction false} EarlierHasSmallerNumber(a: Date, b: Date)
    requires a.Valid() && b.Valid() && a.Before(b)
    ensures a.Number() < b.Number()
  {
    if a.year < b.year {
      DayOfYear(a);
      DayOfYear(b);
      YearsRise(a.year + 1, b.year);
    } else if a.month < b.month {
      MonthLength(a.year, a.month);
      MonthsRise(a.year, a.month + 1, b.month);
    }
  }

  // ---- time fields --------------------------------------------------------

  datatype Fields = Fields(date: Date, hour: int, minute: int, second: int, ms: int, weekday: int) {
    predicate Valid() {
      && date.Valid() && 1601 <= date.year <= LAST_YEAR
      && 0 <= hour < 24 && 0 <= minute < 60 && 0 <= second < 60 && 0 <= ms < 1000 && 0 <= weekday < 7
    }

    /** Milliseconds since 1601-01-01. */
    function Instant(): int
      requires date.Valid()
    {
      date.Number() * MS_PER_DAY + ((hour * 60 + minute) * 60 + second) * 1000 + ms
    }

    predicate SameClock(o: Fields) {
      hour == o.hour && minute == o.minute && second == o.second && ms == o.ms
    }

    predicate EarlierClock(o: Fields) {
      hour < o.hour || (hour == o.hour && (minute < o.minute || (minute == o.minute &&
        (second < o.second || (second == o.second && ms < o.ms)))))
    }

    /** Lexicographic order from year down to millisecond. */
    predicate NotAfter(o: Fields) {
      date.Before(o.date) || (date == o.date && (EarlierClock(o) || SameClock(o)))
    }
  }

  /** Times before 1601 count as the first instant of 1601. */
  function Ticks(time: Int64): int {
    if time < 0 then 0 else time
  }

  /** The fields say what `time` is, truncated to a millisecond; 1601-01-01 was a Monday. */
  predicate Represents(f: Fields, time: Int64) {
    f.Valid() && f.Instant() == Ticks(time) / TICKS_PER_MS && f.weekday == (f.date.Number() + 1) % 7
  }

  /** Later times never have lexicographically earlier fields; a time has one representation. */
  lemma {:induction false} FieldsFollowTime(f: Fields, t: Int64, g: Fields, u: Int64)
    requires Represents(f, t) && Represents(g, u) && t <= u
    ensures f.NotAfter(g)
    ensures t == u ==> f == g
  {
    NumbersOrderDates(f.date, g.date);
    InstantsOrder(f, g);
  }

  /** The millisecond of the day. */
  function Clock(f: Fields): int {
    ((f.hour * 60 + f.minute) * 60 + f.second) * 1000 + f.ms
  }

  lemma {:induction false} InstantsOrder(f: Fields, g: Fields)
    requires f.Valid() && g.Valid() && f.Instant() <= g.Instant()
    ensures f.date.Number() < g.date.Number()
            || (f.date.Number() == g.date.Number() && (f.EarlierClock(g) || f.SameClock(g)))
    ensures f.Instant() == g.Instant() ==> f.date.Number() == g.date.Number() && f.SameClock(g)
  {
    assert 0 <= Clock(f) < MS_PER_DAY && 0 <= Clock(g) < MS_PER_DAY;
    assert f.Instant() == f.date.Number() * MS_PER_DAY + Clock(f);
    assert g.Instant() == g.date.Number() * MS_PER_DAY + Clock(g);
    if f.date.Number() == g.date.Number() {
      ClocksOrder(f, g);
    }
  }

  lemma {:induction false} ClocksOrder(f: Fields, g: Fields)
    requires f.Valid() && g.Valid() && Clock(f) <= Clock(g)
    ensures f.EarlierClock(g) || f.SameClock(g)
    ensures Clock(f) == Clock(g) ==> f.SameClock(g)
  {
  }

  /** One day later the weekday has advanced by one and the clock reads the same. */
  lemma {:induction false} WeekdayAdvances(f: Fields, t: Int64, g: Fields, u: Int64)
    requires Represents(f, t) && Represents(g, u) && 0 <= t && u == t + MS_PER_DAY * TICKS_PER_MS
    ensures g.weekday == (f.weekday + 1) % 7 && g.date.Number() == f.date.Number() + 1 && f.SameClock(g)
  {
    TicksOfDay(t, u);
    NextDayParts(f, g, Ticks(t) / TICKS_PER_MS);
    WeekdayStep(f.date.Number());
  }

  /** The day after `d` in the Gregorian calendar. */
  function DayAfter(d: Date): Date {
    var leap := d.year % 400 == 0 || (d.year % 4 == 0 && d.year % 100 != 0);
    var last := match d.month
                case 2 => if leap then 29 else 28
                case 4 => 30
                case 6 => 30
                case 9 => 30
                case 11 => 30
                case _ => 31;
    if d.day < last then Date(d.year, d.month, d.day + 1)
    else if d.month < 12 then Date(d.year, d.month + 1, 1)
    else Date(d.year + 1, 1, 1)
  }

  /** A day later the date is the next one in the calendar. */
  lemma {:induction false} DateAdvances(f: Fields, t: Int64, g: Fields, u: Int64)
    requires Represents(f, t) && Represents(g, u) && 0 <= t && u == t + MS_PER_DAY * TICKS_PER_MS
    ensures g.date == DayAfter(f.date)
  {
    hide Date.Number, DaysInMonth, DaysBeforeMonth, DaysBeforeYear, Fields.Instant;
    WeekdayAdvances(f, t, g, u);
    DayAfterNumber(f.date);
    NumbersOrderDates(g.date, DayAfter(f.date));
  }

  lemma {:induction false} DayAfterNumber(d: Date)
    requires d.Valid()
    ensures DayAfter(d).Valid() && DayAfter(d).Number() == d.Number() + 1
  {
    hide DaysBeforeMonth, DaysBeforeYear;
    MonthLength(d.year, d.month);
    MonthLength(d.year + 1, 1);
    YearLength(d.year);
  }

  /** Instants known from outside: the first one, the Unix epoch, and the two kinds of century. */
  lemma {:induction false} Landmarks()
    ensures Represents(Fields(Date(1601, 1, 1), 0, 0, 0, 0, 1), 0)
    ensures Represents(Fields(Date(1970, 1, 1), 0, 0, 0, 0, 4), 116444736000000000)
    ensures Represents(Fields(Date(1900, 3, 1), 0, 0, 0, 0, 4), 94405824000000000)
    ensures Represents(Fields(Date(2000, 2, 29), 23, 59, 59, 999, 2), 125963423999990000)
  {
    assert Date(1601, 1, 1).Number() == 0;
    assert Date(1970, 1, 1).Number() == 134774;
    assert Date(1900, 3, 1).Number() == 109266;
    assert Date(2000, 2, 29).Number() == 145790;
  }

  lemma {:induction false} TicksOfDay(t: int, u: int)
    requires u == t + MS_PER_DAY * TICKS_PER_MS
    ensures u / TICKS_PER_MS == t / TICKS_PER_MS + MS_PER_DAY
  {
  }

  lemma {:induction false} NextDayParts(f: Fields, g: Fields, instant: int)
    requires f.Valid() && g.Valid() && f.Instant() == instant && g.Instant() == instant + MS_PER_DAY
    ensures g.date.Number() == f.date.Number() + 1 && f.SameClock(g)
  {
    hide Date.Number;
    assert 0 <= Clock(f) < MS_PER_DAY && 0 <= Clock(g) < MS_PER_DAY;
    DayAndClock(f.date.Number() + 1, Clock(f), g.date.Number(), Clock(g));
    ClocksOrder(f, g);
  }

  /** Day number and millisecond of the day are determined by the instant. */
  lemma {:induction false} DayAndClock(a: int, x: int, b: int, y: int)
    requires a * MS_PER_DAY + x == b * MS_PER_DAY + y && 0 <= x < MS_PER_DAY && 0 <= y < MS_PER_DAY
    ensures a == b && x == y
  {
  }

  lemma {:induction false} WeekdayStep(n: int)
    ensures (n + 2) % 7 == ((n + 1) % 7 + 1) % 7
  {
  }

  // ---- the conversion -----------------------------------------------------

  /** The largest time lies in the year 30828. */
  lemma {:induction false} YearIsBounded(days: int, year: int)
    requires 0 <= days <= 10675199 && DaysBeforeYear(year) <= days
    ensures year <= LAST_YEAR
  {
    if year > LAST_YEAR {
      YearsRise(LAST_YEAR + 1, year);
    }
  }

  method FindYear(days: int) returns (year: int, left: int)
    requires 0 <= days <= 10675199
    ensures 1601 <= year <= LAST_YEAR
    ensures left == days - DaysBeforeYear(year) && 0 <= left < DaysInYear(year)
  {
    year, left := 1601, days;
    while true
      invariant 1601 <= year <= LAST_YEAR && left == days - DaysBeforeYear(year) && 0 <= left
      decreases left
    {
      var leap := (year % 4 == 0 && year % 100 != 0) || year % 400 == 0;
      var diy := if leap then 366 else 365;
      YearLength(year);
      if left >= diy {
        YearIsBounded(days, year + 1);
        left := left - diy;
        year := year + 1;
      } else {
        break;
      }
    }
  }

  const MONTH_DAYS: seq<int> := [31, 28, 31, 30, 31, 30, 31, 31, 30, 31, 30, 31]

  method FindMonth(year: int, days: int) returns (mon: int, left: int)
    requires 0 <= days < DaysInYear(year)
    ensures 0 <= mon < 12
    ensures left == days - DaysBeforeMonth(year, mon + 1) && 0 <= left < DaysInMonth(year, mon + 1)
  {
    var leap := (year % 4 == 0 && year % 100 != 0) || year % 400 == 0;
    mon, left := 0, days;
    MonthLength(year, 1);
    while mon < 12
      invariant 0 <= mon <= 12 && left == days - DaysBeforeMonth(year, mon + 1) && 0 <= left
    {
      var dim := MONTH_DAYS[mon] + if mon == 1 && leap then 1 else 0;
      MonthLength(year, mon + 1);
      assert dim == DaysInMonth(year, mon + 1);
      if left >= dim {
        left := left - dim;
      } else {
        return;
      }
      mon := mon + 1;
    }
    assert false;
  }

  /** The fields as they lie in a TIME_FIELDS record. */
  function Decoded(tf: seq<Int16>): Fields
    requires |tf| >= 8
  {
    Fields(Date(tf[0], tf[1], tf[2]), tf[3], tf[4], tf[5], tf[6], tf[7])
  }

  method RtlTimeToTimeFields(time: Int64, tf: array<Int16>)
    requires tf.Length == 8
    modifies tf
    ensures Represents(Decoded(tf[..]), time)
  {
    var time100: int := if time < 0 then 0 else time;
    var totalSec := time100 / 10000000;
    var msec := time100 / 10000 % 1000;
    var days := totalSec / 86400;
    var sod := totalSec % 86400;
    var weekday := (days + 1) % 7;
    ClockParts(time100);
    var year, left := FindYear(days);
    var mon, day := FindMonth(year, left);
    tf[0] := ToInt16(year);
    tf[1] := ToInt16(mon + 1);
    tf[2] := ToInt16(day + 1);
    tf[3] := ToInt16(sod / 3600);
    tf[4] := ToInt16(sod % 3600 / 60);
    tf[5] := ToInt16(sod % 60);
    tf[6] := ToInt16(msec);
    tf[7] := ToInt16(weekday);
    FieldsFit(time, days, sod, msec, Date(year, mon + 1, day + 1), tf[..]);
  }

  lemma {:induction false} ClockParts(ticks: int)
    requires 0 <= ticks < 0x8000_0000_0000_0000
    ensures var (sec, ms) := (ticks / 10000000, ticks / 10000 % 1000);
            && 0 <= sec / 86400 <= 10675199
            && ticks / TICKS_PER_MS == (sec / 86400 * 86400 + sec % 86400) * 1000 + ms
  {
    var n := ticks / 10000;
    assert ticks / 10000000 == n / 1000;
  }

  lemma {:induction false} FieldsFit(time: Int64, days: int, sod: int, msec: int, date: Date, tf: seq<Int16>)
    requires |tf| == 8 && date.Valid() && 1601 <= date.year <= LAST_YEAR && date.Number() == days
    requires 0 <= sod < 86400 && 0 <= msec < 1000
    requires Ticks(time) / TICKS_PER_MS == (days * 86400 + sod) * 1000 + msec
    requires tf == [ToInt16(date.year), ToInt16(date.month), ToInt16(date.day), ToInt16(sod / 3600),
                    ToInt16(sod % 3600 / 60), ToInt16(sod % 60), ToInt16(msec), ToInt16((days + 1) % 7)]
    ensures Represents(Decoded(tf), time)
  {
    hide Date.Number, Date.Valid;
    SodParts(sod);
    DateRange(date);
    Small(date.year);
    Small(msec);
    assert Decoded(tf) == Fields(date, sod / 3600, sod % 3600 / 60, sod % 60, msec, (days + 1) % 7);
  }

  lemma {:induction false} DateRange(date: Date)
    requires date.Valid()
    ensures 1 <= date.month <= 12 && 1 <= date.day <= 31
  {
  }

  lemma {:induction false} Small(x: int)
    requires 0 <= x < 0x8000
    ensures ToInt16(x) == x
  {
  }

  lemma {:induction false} SodParts(sod: int)
    requires 0 <= sod < 86400
    ensures 0 <= sod / 3600 < 24 && 0 <= sod % 3600 / 60 < 60 && 0 <= sod % 60 < 60
    ensures sod == (sod / 3600 * 60 + sod % 3600 / 60) * 60 + sod % 60
  {
    var (h, rest) := (sod / 3600, sod % 3600);
    assert sod == 3600 * h + rest && rest == 60 * (rest / 60) + rest % 60;
    assert sod % 60 == rest % 60;
  }
}
