/**
 Civil dates and times (muduo/base/Date.cc and the conversions of muduo/base/TimeZone.cc):
 Julian day arithmetic against the Gregorian calendar, and seconds against days.
 */
module Calendar {

  // ---------------------------------------------------------------- the source

  /** Division and remainder of the source's language: the quotient is rounded towards zero. */
  function Div(a: int, b: int): int
    requires b > 0
  {
    if a >= 0 then a / b else -((-a) / b)
  }

  function Mod(a: int, b: int): int
    requires b > 0
  {
    a - Div(a, b) * b
  }

  function JulianDayNumber(year: int, month: int, day: int): int {
    var a := Div(14 - month, 12);
    var y := year + 4800 - a;
    var m := month + 12 * a - 3;
    day + Div(153 * m + 2, 5) + y * 365 + Div(y, 4) - Div(y, 100) + Div(y, 400) - 32045
  }

  datatype Date = Date(year: int, month: int, day: int)

  function YearMonthDay(julianDayNumber: int): Date {
    var a := julianDayNumber + 32044;
    var b := Div(4 * a + 3, 146097);
    var c := a - Div(b * 146097, 4);
    var d := Div(4 * c + 3, 1461);
    var e := c - Div(1461 * d, 4);
    var m := Div(5 * e + 2, 153);
    Date(b * 100 + d - 4800 + Div(m, 10), m + 3 - 12 * Div(m, 10), e - Div(153 * m + 2, 5) + 1)
  }

  /** The day numbers on which no 32-bit intermediate value overflows. */
  const MIN_DAY: int := -32044
  const MAX_DAY: int := 536838867

  // ---------------------------------------------------------------- the Gregorian calendar

  predicate IsLeap(year: int) { year % 4 == 0 && (year % 100 != 0 || year % 400 == 0) }

  function DaysInMonth(year: int, month: int): int
    requires 1 <= month <= 12
  {
    if month == 2 then (if IsLeap(year) then 29 else 28)
    else if month == 4 || month == 6 || month == 9 || month == 11 then 30
    else 31
  }

  predicate ValidDate(d: Date) { 1 <= d.month <= 12 && 1 <= d.day <= DaysInMonth(d.year, d.month) }

  /** From 1 March of the year -4800, where the day count of the source starts. */
  predicate Counted(d: Date) { d.year > -4800 || (d.year == -4800 && d.month >= 3) }

  function NextDay(d: Date): Date
    requires ValidDate(d)
  {
    if d.day < DaysInMonth(d.year, d.month) then Date(d.year, d.month, d.day + 1)
    else if d.month < 12 then Date(d.year, d.month + 1, 1)
    else Date(d.year + 1, 1, 1)
  }

  // ---------------------------------------------------------------- years that start in March

  /** Days before month m of a year that starts in March (m = 0). */
  function DaysBefore(m: int): int { (153 * m + 2) / 5 }

  function MarchYear(d: Date): int { d.year + 4800 - (if d.month <= 2 then 1 else 0) }

  function MarchMonth(d: Date): int { if d.month <= 2 then d.month + 9 else d.month - 3 }

  /** Day of the year that starts in March, from 0. */
  function MarchDay(d: Date): int { DaysBefore(MarchMonth(d)) + d.day - 1 }

  function DaysBeforeYear(y: int): int { 365 * y + y / 4 - y / 100 + y / 400 }

  lemma MonthFacts(m: int)
    requires 0 <= m <= 11
    ensures DaysBefore(m) ==
      (match m case 0 => 0 case 1 => 31 case 2 => 61 case 3 => 92 case 4 => 122 case 5 => 153 case 6 => 184
               case 7 => 214 case 8 => 245 case 9 => 275 case 10 => 306 case _ => 337)
  {}

  lemma JulianIsCount(d: Date)
    requires ValidDate(d) && Counted(d)
    ensures JulianDayNumber(d.year, d.month, d.day) == DaysBeforeYear(MarchYear(d)) + MarchDay(d) - 32044
    ensures MarchYear(d) >= 0 && 0 <= MarchMonth(d) <= 11
  {
    assert Div(14 - d.month, 12) == if d.month <= 2 then 1 else 0;
  }

  /** A year that starts in March has a 366th day iff the February in it is long. */
  lemma MarchDayBound(d: Date)
    requires ValidDate(d) && Counted(d)
    ensures 0 <= MarchDay(d) <= 365
    ensures MarchDay(d) == 365 ==> IsLeap(MarchYear(d) + 1 - 4800)
  {
    MonthFacts(MarchMonth(d));
  }

  /** The month is found again from the day of the year. */
  lemma MonthFound(d: Date)
    requires ValidDate(d) && Counted(d)
    ensures (5 * MarchDay(d) + 2) / 153 == MarchMonth(d)
  {
    var m := MarchMonth(d);
    MonthFacts(m);
    assert 153 * m <= 5 * MarchDay(d) + 2 < 153 * (m + 1);
  }

  lemma CenturySplit(y: int, century: int, rest: int)
    requires y == 100 * century + rest && 0 <= century && 0 <= rest < 100
    ensures DaysBeforeYear(y) == (146097 * century) / 4 + (1461 * rest) / 4
  {
    assert y / 4 == 25 * century + rest / 4;
    assert y / 100 == century;
    assert y / 400 == century / 4;
    assert (146097 * century) / 4 == 36524 * century + century / 4;
    assert (1461 * rest) / 4 == 365 * rest + rest / 4;
  }

  lemma LeapSplit(y: int, century: int, rest: int)
    requires y == 100 * century + rest && 0 <= century && 0 <= rest < 100
    ensures IsLeap(y + 1 - 4800) ==> rest % 4 == 3 && (rest == 99 ==> century % 4 == 3)
    ensures rest % 4 == 3 && (rest == 99 ==> century % 4 == 3) ==> IsLeap(y + 1 - 4800)
  {
    var z := y + 1 - 4800;
    assert z == 100 * (century - 48) + rest + 1;
    assert z % 4 == (rest + 1) % 4;
    assert z % 100 == (rest + 1) % 100;
    if rest == 99 {
      assert z == 100 * (century - 47);
      assert z % 400 == 100 * ((century - 47) % 4);
    }
  }

  /** The century is found again from the day count. */
  lemma CenturyFound(century: int, rest: int, day: int)
    requires 0 <= century && 0 <= rest < 100 && 0 <= day <= 365
    requires day == 365 ==> rest % 4 == 3 && (rest == 99 ==> century % 4 == 3)
    ensures var a := (146097 * century) / 4 + (1461 * rest) / 4 + day;
            (4 * a + 3) / 146097 == century
  {
    var c := (1461 * rest) / 4 + day;
    var a := (146097 * century) / 4 + c;
    assert c == 365 * rest + rest / 4 + day;
    assert (146097 * century) % 4 == century % 4;
    assert 4 * ((146097 * century) / 4) == 146097 * century - century % 4;
    assert 146097 * century <= 4 * a + 3 < 146097 * (century + 1);
  }

  lemma YearFound(rest: int, day: int)
    requires 0 <= rest < 100 && 0 <= day <= 365
    requires day == 365 ==> rest % 4 == 3
    ensures (4 * ((1461 * rest) / 4 + day) + 3) / 1461 == rest
  {
    assert (1461 * rest) % 4 == rest % 4;
    assert 4 * ((1461 * rest) / 4) == 1461 * rest - rest % 4;
    assert 1461 * rest <= 4 * ((1461 * rest) / 4 + day) + 3 < 1461 * (rest + 1);
  }

  /** The date made of a century, a year in it and a day in that year, both counted from March. */
  function Assemble(century: int, rest: int, day: int): Date {
    var m := (5 * day + 2) / 153;
    Date(100 * century + rest - 4800 + m / 10, m + 3 - 12 * (m / 10), day - DaysBefore(m) + 1)
  }

  /** On counted days no quotient is negative, so truncation does not show. */
  lemma Disassembled(n: int, b: int, d: int)
    requires MIN_DAY <= n
    requires var a := n + 32044; b == (4 * a + 3) / 146097
    requires var c := n + 32044 - (b * 146097) / 4; c >= 0 && d == (4 * c + 3) / 1461 && c - (1461 * d) / 4 >= 0
    ensures YearMonthDay(n) == Assemble(b, d, n + 32044 - (b * 146097) / 4 - (1461 * d) / 4)
  {
    hide Div;
    var a := n + 32044;
    DivNat(4 * a + 3, 146097);
    DivNat(b * 146097, 4);
    var c := a - (b * 146097) / 4;
    DivNat(4 * c + 3, 1461);
    DivNat(1461 * d, 4);
    var e := c - (1461 * d) / 4;
    DivNat(5 * e + 2, 153);
    var m := (5 * e + 2) / 153;
    DivNat(153 * m + 2, 5);
    DivNat(m, 10);
  }

  lemma DivNat(a: int, b: int)
    requires a >= 0 && b > 0
    ensures Div(a, b) == a / b
  {}

  lemma AssembledMonth(d: Date)
    requires ValidDate(d) && Counted(d)
    ensures var y := MarchYear(d); Assemble(y / 100, y % 100, MarchDay(d)) == d
  {
    MonthFound(d);
    var y := MarchYear(d);
    assert 100 * (y / 100) + y % 100 == y;
    hide DaysBefore, ValidDate;
    assert MarchMonth(d) / 10 == if d.month <= 2 then 1 else 0;
  }

  /** getYearMonthDay inverts getJulianDayNumber on every counted date. */
  lemma DateRoundTrip(d: Date)
    requires ValidDate(d) && Counted(d)
    ensures YearMonthDay(JulianDayNumber(d.year, d.month, d.day)) == d
  {
    hide JulianDayNumber, YearMonthDay, ValidDate, DaysBeforeYear, MarchMonth, MarchDay, IsLeap, Assemble;
    var y, e := MarchYear(d), MarchDay(d);
    var century, rest := y / 100, y % 100;
    JulianIsCount(d);
    MarchDayBound(d);
    CenturySplit(y, century, rest);
    LeapSplit(y, century, rest);
    CenturyFound(century, rest, e);
    YearFound(rest, e);
    var n := JulianDayNumber(d.year, d.month, d.day);
    assert n + 32044 == (146097 * century) / 4 + (1461 * rest) / 4 + e;
    Disassembled(n, century, rest);
    AssembledMonth(d);
  }

  // ---------------------------------------------------------------- from day numbers to dates

  lemma CenturyRange(a: int)
    requires a >= 0
    ensures var b := (4 * a + 3) / 146097;
            var c := a - (b * 146097) / 4;
            b >= 0 && 0 <= c <= 36524 && (c == 36524 ==> b % 4 == 3)
  {
    var b := (4 * a + 3) / 146097;
    assert 146097 * b <= 4 * a + 3 < 146097 * (b + 1);
    assert (b * 146097) % 4 == b % 4;
    assert 4 * ((b * 146097) / 4) == b * 146097 - b % 4;
  }

  lemma YearRange(c: int)
    requires 0 <= c <= 36524
    ensures var d := (4 * c + 3) / 1461;
            var e := c - (1461 * d) / 4;
            0 <= d <= 99 && 0 <= e <= 365 && (e == 365 ==> d % 4 == 3 && (d == 99 ==> c == 36524))
  {
    var d := (4 * c + 3) / 1461;
    assert 1461 * d <= 4 * c + 3 < 1461 * (d + 1);
    assert (1461 * d) % 4 == d % 4;
    assert 4 * ((1461 * d) / 4) == 1461 * d - d % 4;
  }

  lemma MonthRange(e: int)
    requires 0 <= e <= 365
    ensures var m := (5 * e + 2) / 153;
            var day := e - DaysBefore(m) + 1;
            && 0 <= m <= 11 && 1 <= day <= 31
            && (m == 1 || m == 3 || m == 6 || m == 8 ==> day <= 30)
            && (m == 11 ==> day <= 29 && (day == 29 ==> e == 365))
  {
    var m := (5 * e + 2) / 153;
    assert 153 * m <= 5 * e + 2 < 153 * (m + 1);
    MonthFacts(m);
  }

  /** Every day number names a valid date, and getJulianDayNumber inverts getYearMonthDay on it. */
  lemma DayRoundTrip(n: int)
    requires MIN_DAY <= n
    ensures var d := YearMonthDay(n);
            ValidDate(d) && Counted(d) && JulianDayNumber(d.year, d.month, d.day) == n
  {
    hide JulianDayNumber, YearMonthDay, IsLeap, DaysInMonth, DaysBeforeYear, ValidDate;
    var a := n + 32044;
    var b := (4 * a + 3) / 146097;
    var c := a - (b * 146097) / 4;
    CenturyRange(a);
    var d := (4 * c + 3) / 1461;
    var e := c - (1461 * d) / 4;
    YearRange(c);
    Disassembled(n, b, d);
    AssembleValid(b, d, e, c);
    var date := YearMonthDay(n);
    JulianIsCount(date);
    CenturySplit(100 * b + d, b, d);
  }

  lemma AssembleValid(b: int, d: int, e: int, c: int)
    requires b >= 0 && 0 <= d <= 99 && 0 <= e <= 365
    requires e == 365 ==> d % 4 == 3 && (d == 99 ==> c == 36524)
    requires c == 36524 ==> b % 4 == 3
    ensures var date := Assemble(b, d, e);
            ValidDate(date) && Counted(date) && MarchYear(date) == 100 * b + d && MarchDay(date) == e
  {
    hide IsLeap;
    var m := (5 * e + 2) / 153;
    MonthRange(e);
    assert m / 10 == if m >= 10 then 1 else 0;
    LeapSplit(100 * b + d, b, d);
  }

  /** The next calendar day always has the next number. */
  lemma NextDayIsSuccessor(d: Date)
    requires ValidDate(d) && Counted(d)
    ensures var e := NextDay(d);
            ValidDate(e) && Counted(e)
            && JulianDayNumber(e.year, e.month, e.day) == JulianDayNumber(d.year, d.month, d.day) + 1
  {
    hide JulianDayNumber, DaysBeforeYear, DaysBefore;
    var e := NextDay(d);
    JulianIsCount(d);
    JulianIsCount(e);
    MonthFacts(MarchMonth(d));
    MonthFacts(MarchMonth(e));
    if d.month == 2 && d.day == DaysInMonth(d.year, 2) {
      YearLength(MarchYear(d));
    }
  }

  lemma FourthYear(z: int)
    ensures z / 4 - (z - 1) / 4 == if z % 4 == 0 then 1 else 0
    ensures (z - 4800) % 4 == z % 4
  {
  }

  lemma HundredthYear(z: int)
    ensures z / 100 - (z - 1) / 100 == if z % 100 == 0 then 1 else 0
    ensures (z - 4800) % 100 == z % 100
  {
  }

  lemma FourHundredthYear(z: int)
    ensures z / 400 - (z - 1) / 400 == if z % 400 == 0 then 1 else 0
    ensures (z - 4800) % 400 == z % 400
  {
  }

  lemma MultiplesNest(z: int)
    ensures z % 400 == 0 ==> z % 100 == 0
    ensures z % 100 == 0 ==> z % 4 == 0
  {
    assert z == 400 * (z / 400) + z % 400 && z == 100 * (z / 100) + z % 100;
  }

  lemma YearLength(y: int)
    requires y >= 0
    ensures DaysBeforeYear(y + 1) - DaysBeforeYear(y) == if IsLeap(y + 1 - 4800) then 366 else 365
  {
    FourthYear(y + 1);
    HundredthYear(y + 1);
    FourHundredthYear(y + 1);
    MultiplesNest(y + 1);
  }

  predicate Int32(v: int) { -0x8000_0000 <= v <= 0x7fff_ffff }

  /** Nor does any value on the way from a date to its number, up to the same bound. */
  lemma NumberDoesNotOverflow(d: Date)
    requires ValidDate(d) && Counted(d) && JulianDayNumber(d.year, d.month, d.day) <= MAX_DAY
    ensures var a := Div(14 - d.month, 12);
            var y := d.year + 4800 - a;
            var m := d.month + 12 * a - 3;
            var days := d.day + Div(153 * m + 2, 5);
            && Int32(d.year + 4800) && Int32(153 * m + 2) && Int32(days) && Int32(y * 365) && Int32(days + y * 365)
            && Int32(days + y * 365 + Div(y, 4)) && Int32(days + y * 365 + Div(y, 4) - Div(y, 100))
            && Int32(days + y * 365 + Div(y, 4) - Div(y, 100) + Div(y, 400))
  {
    JulianIsCount(d);
    MarchDayBound(d);
    YearIsSmall(MarchYear(d));
    assert Div(14 - d.month, 12) == if d.month <= 2 then 1 else 0;
    hide JulianDayNumber, DaysBeforeYear, IsLeap;
  }

  lemma YearIsSmall(y: int)
    requires 0 <= y && DaysBeforeYear(y) <= MAX_DAY + 32044
    ensures 365 * y <= 536870911 && 0 <= y <= 1470879
  {
    assert y / 100 <= y / 4;
  }

  /** Between the two bounds no intermediate value leaves 32 bits; one day later the first product does. */
  lemma NoOverflow(n: int)
    requires MIN_DAY <= n <= MAX_DAY
    ensures var a := n + 32044;
            var b := Div(4 * a + 3, 146097);
            var c := a - Div(b * 146097, 4);
            var d := Div(4 * c + 3, 1461);
            && Int32(4 * a + 3) && Int32(b * 146097) && Int32(4 * c + 3) && Int32(1461 * d)
            && Int32(5 * (c - Div(1461 * d, 4)) + 2)
    ensures !Int32(4 * (MAX_DAY + 1 + 32044) + 3)
  {
    var a := n + 32044;
    var b := (4 * a + 3) / 146097;
    CenturyRange(a);
    YearRange(a - (b * 146097) / 4);
  }

  // ---------------------------------------------------------------- seconds

  datatype DateTime = DateTime(year: int, month: int, day: int, hour: int, minute: int, second: int)

  const SECONDS_PER_DAY: int := 86400
  const EPOCH_DAY: int := 2440588

  lemma EpochDayIs1970()
    ensures JulianDayNumber(1970, 1, 1) == EPOCH_DAY
  {}

  predicate ValidTime(t: DateTime) {
    && ValidDate(Date(t.year, t.month, t.day)) && Counted(Date(t.year, t.month, t.day))
    && 0 <= t.hour < 24 && 0 <= t.minute < 60 && 0 <= t.second < 60
  }

  function BreakTime(t: int): DateTime {
    var (seconds, days) :=
      if Mod(t, SECONDS_PER_DAY) < 0 then (Mod(t, SECONDS_PER_DAY) + SECONDS_PER_DAY, Div(t, SECONDS_PER_DAY) - 1)
      else (Mod(t, SECONDS_PER_DAY), Div(t, SECONDS_PER_DAY));
    var minutes := seconds / 60;
    var d := YearMonthDay(days + EPOCH_DAY);
    DateTime(d.year, d.month, d.day, minutes / 60, minutes % 60, seconds % 60)
  }

  function FromUtcTime(dt: DateTime): int {
    (JulianDayNumber(dt.year, dt.month, dt.day) - EPOCH_DAY) * SECONDS_PER_DAY
    + (dt.hour * 3600 + dt.minute * 60 + dt.second)
  }

  const MIN_TIME: int := (MIN_DAY - EPOCH_DAY) * SECONDS_PER_DAY
  const MAX_TIME: int := (MAX_DAY - EPOCH_DAY) * SECONDS_PER_DAY + SECONDS_PER_DAY - 1

  /** The correction for negative remainders makes the pair that of floored division. */
  lemma BreakIsFloored(t: int)
    ensures var (s, d) := (Mod(t, SECONDS_PER_DAY), Div(t, SECONDS_PER_DAY));
            var (seconds, days) := if s < 0 then (s + SECONDS_PER_DAY, d - 1) else (s, d);
            0 <= seconds < SECONDS_PER_DAY && t == days * SECONDS_PER_DAY + seconds
  {}

  lemma ClockOfSeconds(t: int)
    requires 0 <= t < SECONDS_PER_DAY
    ensures var (h, m, s) := (t / 60 / 60, t / 60 % 60, t % 60);
            0 <= h < 24 && 0 <= m < 60 && 0 <= s < 60 && h * 3600 + m * 60 + s == t
  {}

  lemma DaysFrom(days: int, seconds: int)
    requires 0 <= seconds < SECONDS_PER_DAY && MIN_TIME <= days * SECONDS_PER_DAY + seconds
    ensures MIN_DAY <= days + EPOCH_DAY
  {}

  /** The seconds whose days lie between the two bounds. */
  lemma TimesInRange(t: int)
    ensures var (s, d) := (Mod(t, SECONDS_PER_DAY), Div(t, SECONDS_PER_DAY));
            var days := if s < 0 then d - 1 else d;
            MIN_TIME <= t <= MAX_TIME <==> MIN_DAY <= days + EPOCH_DAY <= MAX_DAY
  {
    BreakIsFloored(t);
    hide Mod, Div;
  }

  /** Times before 1970 included. */
  lemma TimeRoundTrip(t: int)
    requires MIN_TIME <= t
    ensures ValidTime(BreakTime(t)) && FromUtcTime(BreakTime(t)) == t
  {
    hide JulianDayNumber, YearMonthDay, ValidDate, Counted, Mod, Div;
    var (s, d) := (Mod(t, SECONDS_PER_DAY), Div(t, SECONDS_PER_DAY));
    var (seconds, days) := if s < 0 then (s + SECONDS_PER_DAY, d - 1) else (s, d);
    BreakIsFloored(t);
    DaysFrom(days, seconds);
    DayRoundTrip(days + EPOCH_DAY);
    ClockOfSeconds(seconds);
  }

  lemma ClockRoundTrip(h: int, m: int, s: int)
    requires 0 <= h < 24 && 0 <= m < 60 && 0 <= s < 60
    ensures var t := h * 3600 + m * 60 + s;
            0 <= t < SECONDS_PER_DAY && t / 60 / 60 == h && t / 60 % 60 == m && t % 60 == s
  {
    var t := h * 3600 + m * 60 + s;
    assert t / 60 == h * 60 + m;
  }

  lemma FlooredIsUnique(days: int, seconds: int, days': int, seconds': int)
    requires 0 <= seconds < SECONDS_PER_DAY && 0 <= seconds' < SECONDS_PER_DAY
    requires days * SECONDS_PER_DAY + seconds == days' * SECONDS_PER_DAY + seconds'
    ensures days == days' && seconds == seconds'
  {}

  lemma CivilRoundTrip(dt: DateTime)
    requires ValidTime(dt)
    ensures BreakTime(FromUtcTime(dt)) == dt
  {
    hide JulianDayNumber, YearMonthDay, ValidDate, Mod, Div;
    var days := JulianDayNumber(dt.year, dt.month, dt.day) - EPOCH_DAY;
    var seconds := dt.hour * 3600 + dt.minute * 60 + dt.second;
    var t := FromUtcTime(dt);
    DateRoundTrip(Date(dt.year, dt.month, dt.day));
    ClockRoundTrip(dt.hour, dt.minute, dt.second);
    BreakIsFloored(t);
    var (s, d) := (Mod(t, SECONDS_PER_DAY), Div(t, SECONDS_PER_DAY));
    var (seconds', days') := if s < 0 then (s + SECONDS_PER_DAY, d - 1) else (s, d);
    FlooredIsUnique(days, seconds, days', seconds');
  }

  /** One second later, on a clock and in a calendar. */
  function NextSecond(t: DateTime): DateTime
    requires ValidTime(t)
  {
    if t.second < 59 then t.(second := t.second + 1)
    else if t.minute < 59 then t.(minute := t.minute + 1, second := 0)
    else if t.hour < 23 then t.(hour := t.hour + 1, minute := 0, second := 0)
    else
      var d := NextDay(Date(t.year, t.month, t.day));
      DateTime(d.year, d.month, d.day, 0, 0, 0)
  }

  /** Seconds are counted from the start of 1970, one for each second of the clock. */
  lemma SecondsAreCounted(t: DateTime)
    requires ValidTime(t)
    ensures FromUtcTime(DateTime(1970, 1, 1, 0, 0, 0)) == 0
    ensures ValidTime(NextSecond(t)) && FromUtcTime(NextSecond(t)) == FromUtcTime(t) + 1
  {
    EpochDayIs1970();
    hide JulianDayNumber, NextDay;
    var d := Date(t.year, t.month, t.day);
    NextDayIsSuccessor(d);
  }
}
