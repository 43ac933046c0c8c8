/** The Gregorian calendar and Go's layout "20060102_1504". */
module Calendar {
  import opened Arithmetic
  import opened Decimal

  /** Years before year 1 are 0, -1 and so on. */
  datatype Date = Date(year: int, month: nat, day: nat)

  predicate IsLeap(y: int) {
    y % 4 == 0 && (y % 100 != 0 || y % 400 == 0)
  }

  function DaysIn(y: int, m: nat): nat {
    if m == 2 then if IsLeap(y) then 29 else 28
    else if m == 4 || m == 6 || m == 9 || m == 11 then 30
    else 31
  }

  predicate IsDate(d: Date) {
    1 <= d.month <= 12 && 1 <= d.day <= DaysIn(d.year, d.month)
  }

  function NextDay(d: Date): Date {
    if d.day < DaysIn(d.year, d.month) then Date(d.year, d.month, d.day + 1)
    else if d.month < 12 then Date(d.year, d.month + 1, 1)
    else Date(d.year + 1, 1, 1)
  }

  function PreviousDay(d: Date): (p: Date)
    requires IsDate(d)
    ensures IsDate(p) && NextDay(p) == d
  {
    if d.day > 1 then Date(d.year, d.month, d.day - 1)
    else if d.month > 1 then Date(d.year, d.month - 1, DaysIn(d.year, d.month - 1))
    else Date(d.year - 1, 12, 31)
  }

  /** The date n days after 1 January of year 1, Go's zero time, or -n days before it. */
  function CivilDate(n: int): (d: Date)
    ensures IsDate(d)
    decreases if n < 0 then -n else n
  {
    if n == 0 then Date(1, 1, 1)
    else if n > 0 then NextDay(CivilDate(n - 1))
    else PreviousDay(CivilDate(n + 1))
  }

  predicate Earlier(a: Date, b: Date) {
    a.year < b.year || (a.year == b.year && (a.month < b.month || (a.month == b.month && a.day < b.day)))
  }

  lemma {:induction false} DatesAdvance(m: int, n: int)
    requires m < n
    ensures Earlier(CivilDate(m), CivilDate(n))
    decreases n - m
  {
    assert CivilDate(n) == NextDay(CivilDate(n - 1));
    if m + 1 < n { DatesAdvance(m, n - 1); }
  }

  /** Two digits. */
  function Pad2(n: nat): string
    requires n < 100
  {
    [DigitChar(n / 10), DigitChar(n % 10)]
  }

  function ZeroPad(s: string, width: nat): (r: string)
    requires AllDigits(s)
    ensures AllDigits(r)
    decreases width - |s|
  {
    if |s| >= width then s else ZeroPad("0" + s, width)
  }

  /** At least `width` digits, padded with zeros. */
  function Pad(n: nat, width: nat): (s: string)
    ensures AllDigits(s)
  {
    ZeroPad(Digits(n), width)
  }

  lemma {:induction false} ZeroPadValue(s: string, width: nat)
    requires AllDigits(s)
    ensures Value(ZeroPad(s, width)) == Value(s)
    decreases width - |s|
  {
    if |s| < width {
      LeadingZero(s);
      ZeroPadValue("0" + s, width);
    }
  }

  lemma {:induction false} PadInjective(m: nat, n: nat, width: nat)
    requires Pad(m, width) == Pad(n, width)
    ensures m == n
  {
    ZeroPadValue(Digits(m), width);
    ZeroPadValue(Digits(n), width);
    ValueOfDigits(m);
    ValueOfDigits(n);
  }

  lemma {:induction false} Pad2Injective(m: nat, n: nat)
    requires m < 100 && n < 100 && Pad2(m) == Pad2(n)
    ensures m == n
  {
    assert DigitValue(Pad2(m)[0]) == m / 10 && DigitValue(Pad2(m)[1]) == m % 10;
    assert DigitValue(Pad2(n)[0]) == n / 10 && DigitValue(Pad2(n)[1]) == n % 10;
  }

  /** A year, with a sign before year 0. */
  function PadYear(y: int): string {
    if y < 0 then "-" + Pad(-y, 4) else Pad(y, 4)
  }

  lemma {:induction false} PadNotEmpty(s: string, width: nat)
    requires AllDigits(s) && s != []
    ensures ZeroPad(s, width) != []
    decreases width - |s|
  {
    if |s| < width { PadNotEmpty("0" + s, width); }
  }

  lemma {:induction false} NotSigned(y: int)
    ensures PadYear(y) != [] && (PadYear(y)[0] == '-' <==> y < 0)
  {
    if y >= 0 {
      PadNotEmpty(Digits(y), 4);
      assert IsDigit(Pad(y, 4)[0]);
    }
  }

  lemma {:induction false} PadYearInjective(y: int, z: int)
    requires PadYear(y) == PadYear(z)
    ensures y == z
  {
    NotSigned(y);
    NotSigned(z);
    if y < 0 {
      assert PadYear(y)[1..] == Pad(-y, 4) && PadYear(z)[1..] == Pad(-z, 4);
      PadInjective(-y, -z, 4);
    } else {
      PadInjective(y, z, 4);
    }
  }

  const MINUTES_PER_DAY := 1440

  lemma {:induction false} SameLengthTails(s: string, t: string, s': string, t': string)
    requires s + t == s' + t' && |t| == |t'|
    ensures s == s' && t == t'
  {
    assert |s| == |s'|;
    assert (s + t)[..|s|] == s && (s' + t')[..|s|] == s';
    assert (s + t)[|s|..] == t && (s' + t')[|s|..] == t';
  }

  lemma {:induction false} SameDate(m: int, n: int)
    requires CivilDate(m) == CivilDate(n)
    ensures m == n
  {
    if m < n {
      DatesAdvance(m, n);
    } else if n < m {
      DatesAdvance(n, m);
    }
  }

  /** Month, day, hour and minute, at fixed places. */
  function Tail(month: nat, day: nat, hour: nat, minute: nat): (s: string)
    requires month < 100 && day < 100 && hour < 100 && minute < 100
    ensures |s| == 9
  {
    Pad2(month) + Pad2(day) + "_" + Pad2(hour) + Pad2(minute)
  }

  lemma {:induction false} TailAt(month: nat, day: nat, hour: nat, minute: nat)
    requires month < 100 && day < 100 && hour < 100 && minute < 100
    ensures var s := Tail(month, day, hour, minute);
            s[0..2] == Pad2(month) && s[2..4] == Pad2(day) && s[5..7] == Pad2(hour) && s[7..9] == Pad2(minute)
  {
  }

  /** The minute with the given number from the zero time, as YYYYMMDD_HHMM. */
  function Stamp(minute: int): string {
    var d := CivilDate(minute / MINUTES_PER_DAY);
    var m := minute % MINUTES_PER_DAY;
    PadYear(d.year) + Tail(d.month, d.day, m / 60, m % 60)
  }

  lemma {:induction false} SameTail(d: Date, e: Date, m: nat, n: nat)
    requires IsDate(d) && IsDate(e) && m < MINUTES_PER_DAY && n < MINUTES_PER_DAY
    requires Tail(d.month, d.day, m / 60, m % 60) == Tail(e.month, e.day, n / 60, n % 60)
    ensures d.month == e.month && d.day == e.day && m == n
  {
    TailAt(d.month, d.day, m / 60, m % 60);
    TailAt(e.month, e.day, n / 60, n % 60);
    Pad2Injective(d.month, e.month);
    Pad2Injective(d.day, e.day);
    Pad2Injective(m / 60, n / 60);
    Pad2Injective(m % 60, n % 60);
  }

  /** No two minutes are printed alike. */
  lemma {:induction false} StampInjective(a: int, b: int)
    requires Stamp(a) == Stamp(b)
    ensures a == b
  {
    var d, e := CivilDate(a / MINUTES_PER_DAY), CivilDate(b / MINUTES_PER_DAY);
    var m, n := a % MINUTES_PER_DAY, b % MINUTES_PER_DAY;
    SameLengthTails(PadYear(d.year), Tail(d.month, d.day, m / 60, m % 60),
                    PadYear(e.year), Tail(e.month, e.day, n / 60, n % 60));
    PadYearInjective(d.year, e.year);
    SameTail(d, e, m, n);
    SameDate(a / MINUTES_PER_DAY, b / MINUTES_PER_DAY);
  }

  // ----- against the closed form of the calendar -----

  /** The days from 1 January of year 1 to 1 January of the year. */
  function DaysBeforeYear(y: int): int {
    365 * (y - 1) + (y - 1) / 4 - (y - 1) / 100 + (y - 1) / 400
  }

  function YearLength(y: int): int {
    DaysBeforeYear(y + 1) - DaysBeforeYear(y)
  }

  /** The days of the year before the month. */
  function DaysBeforeMonth(y: int, m: nat): int
    requires 1 <= m <= 12
  {
    [0, 31, 59, 90, 120, 151, 181, 212, 243, 273, 304, 334][m - 1] + if m > 2 then YearLength(y) - 365 else 0
  }

  function DayNumber(d: Date): int
    requires IsDate(d)
  {
    DaysBeforeYear(d.year) + DaysBeforeMonth(d.year, d.month) + d.day - 1
  }

  lemma {:induction false} Centuries(y: int)
    ensures y % 100 == 0 ==> y % 4 == 0
    ensures y % 400 == 0 ==> y % 100 == 0
  {
    if y % 100 == 0 { DivisionIsUnique(y, 25 * (y / 100), 0, 4); }
    if y % 400 == 0 { DivisionIsUnique(y, 4 * (y / 400), 0, 100); }
  }

  lemma {:induction false} LeapYears(y: int)
    ensures YearLength(y) == if IsLeap(y) then 366 else 365
  {
    NextQuotient(y - 1, 4);
    NextQuotient(y - 1, 100);
    NextQuotient(y - 1, 400);
    Centuries(y);
  }

  lemma {:induction false} MonthsAdd(y: int, m: nat)
    requires 1 <= m <= 12
    ensures DaysBeforeMonth(y, m) + DaysIn(y, m) == if m == 12 then YearLength(y) else DaysBeforeMonth(y, m + 1)
  {
    LeapYears(y);
  }

  lemma {:induction false} NextDayAdds(d: Date)
    requires IsDate(d)
    ensures IsDate(NextDay(d)) && DayNumber(NextDay(d)) == DayNumber(d) + 1
  {
    MonthsAdd(d.year, d.month);
  }

  /** The n-th day has the n-th date. */
  lemma {:induction false} CivilDateIs(n: int)
    ensures DayNumber(CivilDate(n)) == n
    decreases if n < 0 then -n else n
  {
    if n > 0 {
      CivilDateIs(n - 1);
      NextDayAdds(CivilDate(n - 1));
    } else if n < 0 {
      CivilDateIs(n + 1);
      NextDayAdds(CivilDate(n));
    }
  }

  lemma {:induction false} MonthsAscend(y: int, m: nat, n: nat)
    requires 1 <= m < n <= 12
    ensures DaysBeforeMonth(y, m) + DaysIn(y, m) <= DaysBeforeMonth(y, n)
  {
    MonthsAdd(y, m);
    if m + 1 < n {
      MonthsAdd(y, n - 1);
      MonthsAscend(y, m, n - 1);
    }
  }

  lemma {:induction false} YearsAscend(y: int, z: int)
    requires y < z
    ensures DaysBeforeYear(y) + YearLength(y) <= DaysBeforeYear(z)
    decreases z - y
  {
    if y + 1 < z {
      YearsAscend(y, z - 1);
      LeapYears(z - 1);
    }
  }

  lemma {:induction false} WithinYear(d: Date)
    requires IsDate(d)
    ensures DaysBeforeYear(d.year) <= DayNumber(d) < DaysBeforeYear(d.year) + YearLength(d.year)
  {
    MonthsAdd(d.year, d.month);
    LeapYears(d.year);
    if d.month < 12 {
      MonthsAscend(d.year, d.month, 12);
      MonthsAdd(d.year, 12);
    }
  }

  lemma {:induction false} LaterDateLaterDay(d: Date, e: Date)
    requires IsDate(d) && IsDate(e) && Earlier(d, e)
    ensures DayNumber(d) < DayNumber(e)
  {
    WithinYear(d);
    WithinYear(e);
    if d.year < e.year {
      YearsAscend(d.year, e.year);
    } else if d.month < e.month {
      MonthsAscend(d.year, d.month, e.month);
    }
  }

  /** And each date is that of its own day. */
  lemma {:induction false} DateOfDay(d: Date)
    requires IsDate(d)
    ensures CivilDate(DayNumber(d)) == d
  {
    var e := CivilDate(DayNumber(d));
    CivilDateIs(DayNumber(d));
    if Earlier(d, e) {
      LaterDateLaterDay(d, e);
    } else if Earlier(e, d) {
      LaterDateLaterDay(e, d);
    }
  }

  /** What two digits stand for. */
  predicate Reads(s: string, n: nat) {
    AllDigits(s) && Value(s) == n
  }

  lemma {:induction false} Pad2Reads(n: nat)
    requires n < 100
    ensures |Pad2(n)| == 2 && Reads(Pad2(n), n)
  {
    var s := Pad2(n);
    assert s[..1] == [DigitChar(n / 10)] && s[..1][..0] == [];
    assert Value(s[..1]) == n / 10;
  }

  lemma {:induction false} ShortDigits(n: nat, width: nat)
    requires width > 0 && TensOff(n, width) == 0
    ensures |Digits(n)| <= width
  {
    if n >= 10 { ShortDigits(n / 10, width - 1); }
  }

  lemma {:induction false} PadLength(s: string, width: nat)
    requires AllDigits(s) && |s| <= width
    ensures |ZeroPad(s, width)| == width
    decreases width - |s|
  {
    if |s| < width { PadLength("0" + s, width); }
  }

  lemma {:induction false} YearReads(y: nat)
    requires y < 10000
    ensures |PadYear(y)| == 4 && Reads(PadYear(y), y)
  {
    assert TensOff(y, 4) == TensOff(y / 10, 3) == TensOff(y / 10 / 10, 2) == TensOff(y / 10 / 10 / 10, 1) == 0;
    ShortDigits(y, 4);
    PadLength(Digits(y), 4);
    ZeroPadValue(Digits(y), 4);
    ValueOfDigits(y);
  }

  /** The text has 13 characters, with these numbers and an underscore at fixed places. */
  predicate Shows(s: string, year: nat, month: nat, day: nat, hour: nat, minute: nat) {
    && |s| == 13 && Reads(s[0..4], year) && Reads(s[4..6], month) && Reads(s[6..8], day)
    && s[8] == '_' && Reads(s[9..11], hour) && Reads(s[11..13], minute)
  }

  lemma {:induction false} TailReads(year: string, month: nat, day: nat, hour: nat, minute: nat)
    requires |year| == 4 && AllDigits(year) && month < 100 && day < 100 && hour < 100 && minute < 100
    ensures Shows(year + Tail(month, day, hour, minute), Value(year), month, day, hour, minute)
  {
    var t := Tail(month, day, hour, minute);
    var s := year + t;
    TailAt(month, day, hour, minute);
    Pad2Reads(month);
    Pad2Reads(day);
    Pad2Reads(hour);
    Pad2Reads(minute);
    assert s[0..4] == year && s[4..6] == t[0..2] && s[6..8] == t[2..4] && s[9..11] == t[5..7] && s[11..13] == t[7..9];
    assert s[8] == t[4];
  }

  lemma {:induction false} MinuteParts(day: int, hour: nat, minute: nat)
    requires hour < 24 && minute < 60
    ensures var n, m := (day * 24 + hour) * 60 + minute, hour * 60 + minute;
            n / MINUTES_PER_DAY == day && n % MINUTES_PER_DAY == m && m / 60 == hour && m % 60 == minute
  {
    DivisionIsUnique((day * 24 + hour) * 60 + minute, day, hour * 60 + minute, 1440);
    DivisionIsUnique(hour * 60 + minute, hour, minute, 60);
  }

  lemma {:induction false} StampOf(d: Date, hour: nat, minute: nat)
    requires IsDate(d) && hour < 24 && minute < 60
    ensures Stamp((DayNumber(d) * 24 + hour) * 60 + minute) == PadYear(d.year) + Tail(d.month, d.day, hour, minute)
  {
    MinuteParts(DayNumber(d), hour, minute);
    DateOfDay(d);
  }

  /** Read back: the minute of a date and a time of day is printed as that date's year, month and day,
      an underscore, and that hour and minute. */
  lemma {:induction false} StampReads(d: Date, hour: nat, minute: nat)
    requires IsDate(d) && 0 <= d.year < 10000 && hour < 24 && minute < 60
    ensures Shows(Stamp((DayNumber(d) * 24 + hour) * 60 + minute), d.year, d.month, d.day, hour, minute)
  {
    StampOf(d, hour, minute);
    YearReads(d.year);
    TailReads(PadYear(d.year), d.month, d.day, hour, minute);
  }
}
