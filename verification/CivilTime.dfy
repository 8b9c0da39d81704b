/** sdk/brimod.c: between 32-bit UTC seconds and calendar fields. */
module Calendar {
  import opened Arith

  predicate IsLeap(y: int) {
    y % 4 == 0 && (y % 100 != 0 || y % 400 == 0)
  }

  function DaysInYear(y: int): nat {
    if IsLeap(y) then 366 else 365
  }

  function DaysInMonth(y: int, m: nat): nat
    requires 1 <= m <= 12
  {
    if m == 2 then (if IsLeap(y) then 29 else 28)
    else if m == 4 || m == 6 || m == 9 || m == 11 then 30
    else 31
  }

  /** Days from 1 January of year 0 to 1 January of year y, year by year. */
  function YearStart(y: nat): nat {
    if y == 0 then 0 else YearStart(y - 1) + DaysInYear(y - 1)
  }

  /** Days from 1 January to the first of month m, month by month. */
  function MonthStart(y: nat, m: nat): nat
    requires 1 <= m <= 12
  {
    if m == 1 then 0 else MonthStart(y, m - 1) + DaysInMonth(y, m - 1)
  }

  /** A date of the proleptic Gregorian calendar. */
  datatype Date = Date(year: nat, month: nat, day: nat) {
    predicate Valid() {
      1 <= month <= 12 && 1 <= day <= DaysInMonth(year, month)
    }

    /** Days since 1970-01-01. */
    function DayNumber(): int
      requires Valid()
    {
      YearStart(year) + MonthStart(year, month) + (day - 1) - YearStart(1970)
    }

    /** The date of day n after 1970-01-01, on 1 March of year 0 or later. */
    predicate Names(n: int) {
      Valid() && MarchYear(this) >= 0 && DayNumber() == n
    }
  }

  lemma {:induction false} YearStartClosed(y: nat)
    ensures YearStart(y) == 365 * y + (y + 3) / 4 - (y + 99) / 100 + (y + 399) / 400
  {
    if y > 0 {
      YearStartClosed(y - 1);
      LeapStep(y - 1);
    }
  }

  /** The months of a year are its days, and 400 years are 146097. */
  lemma WholeYears(y: nat)
    ensures MonthStart(y, 12) + 31 == DaysInYear(y) && YearStart(y + 400) == YearStart(y) + 146097
  {
    FourCenturies(y);
    Months(y);
    hide YearStart, MonthStart, IsLeap;
  }

  lemma FourCenturies(y: nat)
    ensures YearStart(y + 400) == YearStart(y) + 146097
  {
    YearStartClosed(y);
    YearStartClosed(y + 400);
    hide YearStart;
    Later(y + 3, 4, 100);
    Later(y + 99, 100, 4);
    Later(y + 399, 400, 1);
  }

  lemma Later(x: nat, d: nat, k: nat)
    requires d > 0
    ensures (k * d + x) / d == k + x / d
  {
    AddMultiple(x, k, d);
  }

  lemma Months(y: nat)
    ensures MonthStart(y, 12) == 31 + DaysInMonth(y, 2) + 275
  {
    hide IsLeap;
    assert MonthStart(y, 4) == MonthStart(y, 3) + 31 == MonthStart(y, 2) + DaysInMonth(y, 2) + 31;
    assert MonthStart(y, 8) == MonthStart(y, 7) + 31 == MonthStart(y, 6) + 61 == MonthStart(y, 5) + 92;
    assert MonthStart(y, 12) == MonthStart(y, 11) + 30 == MonthStart(y, 10) + 61 == MonthStart(y, 9) + 91;
  }

  /** Some dates everyone knows: the day counts start in 1970, 1900 had no leap day and 2000 had one; and
      the first days of 1970 and 2000 were a Thursday and a Saturday (Sunday is 0). */
  lemma KnownDates()
    ensures Date(1970, 1, 1).DayNumber() == 0 && Date(2000, 1, 1).DayNumber() == 10957
    ensures Date(2000, 2, 29).Valid() && !Date(1900, 2, 29).Valid() && !Date(2023, 2, 29).Valid()
    ensures (Date(1970, 1, 1).DayNumber() + 4) % 7 == 4 && (Date(2000, 1, 1).DayNumber() + 4) % 7 == 6
  {
    hide YearStart;
    YearStartClosed(1970);
    YearStartClosed(2000);
  }

  lemma LeapStep(y: nat)
    ensures DaysInYear(y) == 365 + ((y + 4) / 4 - (y + 3) / 4) - ((y + 100) / 100 - (y + 99) / 100)
                             + ((y + 400) / 400 - (y + 399) / 400)
  {
    StepUp(y, 4);
    StepUp(y, 100);
    StepUp(y, 400);
    LeapCycles(y);
  }

  lemma LeapCycles(y: nat)
    ensures y % 400 == 0 ==> y % 100 == 0
    ensures y % 100 == 0 ==> y % 4 == 0
  {
    DivBounds(y, 400);
    DivBounds(y, 100);
    if y % 400 == 0 {
      AddMultiple(0, y / 400 * 4, 100);
    }
    if y % 100 == 0 {
      AddMultiple(0, y / 100 * 25, 4);
    }
  }

  /** Rounding up goes one further only past a multiple. */
  lemma StepUp(y: nat, d: nat)
    requires d > 0
    ensures (y + d) / d == y / d + 1
    ensures (y + d - 1) / d == y / d + (if y % d == 0 then 0 else 1)
  {
    DivBounds(y, d);
    MulSucc(y / d, d);
    DivUnique(y + d, d, y / d + 1);
    DivUnique(y + d - 1, d, y / d + (if y % d == 0 then 0 else 1));
  }

  lemma MonthStartTable(y: nat)
    ensures MonthStart(y, 1) == 0 && MonthStart(y, 2) == 31
    ensures var f := if IsLeap(y) then 60 else 59;
            && MonthStart(y, 3) == f && MonthStart(y, 4) == f + 31 && MonthStart(y, 5) == f + 61
            && MonthStart(y, 6) == f + 92 && MonthStart(y, 7) == f + 122 && MonthStart(y, 8) == f + 153
            && MonthStart(y, 9) == f + 184 && MonthStart(y, 10) == f + 214 && MonthStart(y, 11) == f + 245
            && MonthStart(y, 12) == f + 275
  {
    hide IsLeap;
    assert MonthStart(y, 3) == MonthStart(y, 2) + DaysInMonth(y, 2);
    assert MonthStart(y, 4) == MonthStart(y, 3) + 31;
    assert MonthStart(y, 5) == MonthStart(y, 4) + 30;
    assert MonthStart(y, 6) == MonthStart(y, 5) + 31;
    assert MonthStart(y, 7) == MonthStart(y, 6) + 30;
    assert MonthStart(y, 8) == MonthStart(y, 7) + 31;
    assert MonthStart(y, 9) == MonthStart(y, 8) + 31;
    assert MonthStart(y, 10) == MonthStart(y, 9) + 30;
    assert MonthStart(y, 11) == MonthStart(y, 10) + 31;
    assert MonthStart(y, 12) == MonthStart(y, 11) + 30;
  }

  // ---- years that begin in March, in eras of 400 ----

  /** The March year a month belongs to, and its place in it. */
  function MarchYear(d: Date): int {
    if d.month <= 2 then d.year - 1 else d.year
  }

  function MarchMonth(m: nat): nat
    requires 1 <= m <= 12
  {
    if m > 2 then m - 3 else m + 9
  }

  /** Days from 1 March of the era to 1 March of its year yoe. */
  function EraDays(yoe: nat): nat {
    yoe * 365 + yoe / 4 - yoe / 100
  }

  /** Days from 1 March to the first of March month mp. */
  function MarchDays(mp: nat): nat {
    (153 * mp + 2) / 5
  }

  /** From 1 March on the months have the lengths of the formula, whatever February has. */
  lemma MarchMonths(d: Date)
    requires d.Valid() && MarchYear(d) >= 0
    ensures var y := MarchYear(d);
            YearStart(d.year) + MonthStart(d.year, d.month) ==
            YearStart(y) + MonthStart(y, 3) + MarchDays(MarchMonth(d.month))
  {
    MonthStartTable(d.year);
    MonthStartTable(MarchYear(d));
    hide IsLeap, MonthStart;
    if d.month <= 2 {
      assert YearStart(d.year) == YearStart(d.year - 1) + DaysInYear(d.year - 1);
    }
    MarchTable(MarchMonth(d.month));
  }

  lemma MarchTable(mp: nat)
    requires mp < 12
    ensures MarchDays(mp) == [0, 31, 61, 92, 122, 153, 184, 214, 245, 275, 306, 337][mp]
  {
  }

  /** 1 March of year y, counted from 1 January of year 0, in eras. */
  lemma MarchStart(y: nat)
    ensures YearStart(y) + MonthStart(y, 3) == y / 400 * 146097 + EraDays(y % 400) + 60
  {
    YearStartClosed(y);
    MonthStartTable(y);
    LeapStep(y);
    StepUp(y, 4);
    StepUp(y, 100);
    StepUp(y, 400);
    Eras(y);
  }

  lemma Eras(y: nat)
    ensures y / 400 * 146097 + EraDays(y % 400) == 365 * y + y / 4 - y / 100 + y / 400
  {
    DivBounds(y, 400);
    AddMultiple(y % 400, y / 400 * 100, 4);
    AddMultiple(y % 400, y / 400 * 4, 100);
  }

  lemma Epoch()
    ensures YearStart(1970) == 719528
  {
    YearStartClosed(1970);
  }

  /** The formula of brimod_make_time counts days. */
  lemma DaysFromCivil(d: Date)
    requires d.Valid() && MarchYear(d) >= 0
    ensures var y := MarchYear(d);
            d.DayNumber() == y / 400 * 146097 + EraDays(y % 400) + MarchDays(MarchMonth(d.month)) + (d.day - 1) - 719468
  {
    hide YearStart, MonthStart, EraDays, MarchDays, DaysInMonth;
    MarchMonths(d);
    MarchStart(MarchYear(d));
    Epoch();
  }

  // ---- from the day of the era to the date ----

  /** The year of the era of a day of the era, as brimod_split_time computes it. */
  function YearOfEra(doe: nat): int {
    (doe - doe / 1460 + doe / 36524 - doe / 146096) / 365
  }

  /** The day lies in its March year; only the last day of a leap year has number 365. */
  lemma YearOfEraRight(doe: nat)
    requires doe < 146097
    ensures var yoe := YearOfEra(doe);
            && 0 <= yoe < 400 && EraDays(yoe) <= doe <= EraDays(yoe) + 365
            && (doe == EraDays(yoe) + 365 ==> IsLeap(yoe + 1))
  {
    var c := if doe == 146096 then 3 else doe / 36524;
    var r := doe - 36524 * c;
    var q := r / 1461;
    var s := r - 1461 * q;
    YearOfParts(c, q, s, doe);
    EraDaysOfParts(c, q, if s == 1460 then 3 else s / 365);
    hide YearOfEra, EraDays, IsLeap;
    if s == 1460 {
      LastOfFour(c, q);
    }
  }

  /** The day of the era as centuries, cycles of four years and days of the cycle. */
  lemma YearOfParts(c: nat, q: nat, s: nat, doe: nat)
    requires c <= 3 && q <= 24 && s <= 1460 && doe == 36524 * c + 1461 * q + s
    requires 1461 * q + s <= 36524 && (1461 * q + s == 36524 ==> c == 3)
    ensures YearOfEra(doe) == 100 * c + 4 * q + (if s == 1460 then 3 else s / 365)
  {
    var e := if 24 * c + q + s >= 1460 then 1 else 0;
    Quotients(c, q, s, doe);
    assert doe - doe / 1460 + doe / 36524 - doe / 146096 == 365 * (100 * c + 4 * q) + (s - e);
    AddMultiple(s - e, 100 * c + 4 * q, 365);
  }

  lemma EraDaysOfParts(c: nat, q: nat, k: nat)
    requires c <= 3 && q <= 24 && k <= 3
    ensures EraDays(100 * c + 4 * q + k) == 36524 * c + 1461 * q + 365 * k
  {
    AddMultiple(k, 25 * c + q, 4);
    AddMultiple(4 * q + k, c, 100);
  }

  lemma LastOfFour(c: nat, q: nat)
    requires c <= 3 && q <= 24 && (q == 24 ==> c == 3)
    ensures IsLeap(100 * c + 4 * q + 4)
  {
    if q < 24 {
      DivUnique(100 * c + 4 * q + 4, 100, c);
    }
  }

  lemma Quotients(c: nat, q: nat, s: nat, doe: nat)
    requires c <= 3 && q <= 24 && s <= 1460 && doe == 36524 * c + 1461 * q + s
    requires 1461 * q + s <= 36524 && (1461 * q + s == 36524 ==> c == 3)
    ensures doe / 1460 == 25 * c + q + (if 24 * c + q + s >= 1460 then 1 else 0)
    ensures doe / 36524 - doe / 146096 == c
  {
    assert doe == 1460 * (25 * c + q) + (24 * c + q + s);
  }

  lemma LeapByEra(era: nat, y: nat)
    ensures IsLeap(era * 400 + y) == IsLeap(y)
  {
    AddMultiple(y, era, 400);
    AddMultiple(y, era * 4, 100);
    AddMultiple(y, era * 100, 4);
  }

  /** The March month of a day of the March year, and the calendar month of a March month. */
  function MonthOfDay(doy: nat): nat {
    (5 * doy + 2) / 153
  }

  function FromMarch(mp: nat): int {
    if mp < 10 then mp + 3 else mp - 9
  }

  lemma MonthOfDayRight(doy: nat)
    requires doy <= 365
    ensures var mp := MonthOfDay(doy);
            && mp < 12 && MarchDays(mp) <= doy && (mp < 11 ==> doy < MarchDays(mp + 1))
  {
  }

  /** Month and day from the day of the March year. */
  lemma DateOfMarchDay(y: nat, doy: nat)
    requires doy <= 365 && (doy == 365 ==> IsLeap(y + 1))
    ensures var mp := MonthOfDay(doy);
            && mp < 12 && MarchDays(mp) <= doy
            && var m := FromMarch(mp);
               var d := Date(y + (if m <= 2 then 1 else 0), m, doy - MarchDays(mp) + 1);
               d.Valid() && MarchYear(d) == y && MarchMonth(m) == mp
  {
    MonthOfDayRight(doy);
    hide IsLeap, MarchDays, MonthOfDay;
    var mp := MonthOfDay(doy);
    MarchTable(mp);
    if mp < 11 {
      MarchTable(mp + 1);
    }
  }

  /** A day number, split into era, year of the era and day of the year, gives its date back. */
  lemma DateOfDay(days: nat, era: nat, doe: nat)
    requires days + 719468 == era * 146097 + doe && doe < 146097
    ensures var yoe := YearOfEra(doe);
            0 <= yoe < 400 && EraDays(yoe) <= doe &&
            var doy := doe - EraDays(yoe);
            var mp := MonthOfDay(doy);
            MarchDays(mp) <= doy && mp < 12 &&
            var m := FromMarch(mp);
            var d := Date(yoe + era * 400 + (if m <= 2 then 1 else 0), m, doy - MarchDays(mp) + 1);
            d.Names(days)
  {
    hide *;
    YearOfEraRight(doe);
    DateInEra(days, era, YearOfEra(doe), doe - EraDays(YearOfEra(doe)));
  }

  lemma DateInEra(days: nat, era: nat, yoe: nat, doy: nat)
    requires days + 719468 == era * 146097 + EraDays(yoe) + doy
    requires yoe < 400 && doy <= 365 && (doy == 365 ==> IsLeap(yoe + 1))
    ensures var mp := MonthOfDay(doy);
            MarchDays(mp) <= doy && mp < 12 &&
            var m := FromMarch(mp);
            var d := Date(yoe + era * 400 + (if m <= 2 then 1 else 0), m, doy - MarchDays(mp) + 1);
            d.Names(days)
  {
    hide Date.DayNumber, Date.Valid, IsLeap, EraDays, MarchDays, MonthOfDay, DaysInMonth;
    LeapByEra(era, yoe + 1);
    DateOfMarchDay(era * 400 + yoe, doy);
    DivUnique(era * 400 + yoe, 400, era);
    var mp := MonthOfDay(doy);
    var m := FromMarch(mp);
    DaysFromCivil(Date(era * 400 + yoe + (if m <= 2 then 1 else 0), m, doy - MarchDays(mp) + 1));
  }

  // ---- dates are told apart by their numbers ----

  lemma DayInYear(d: Date)
    requires d.Valid()
    ensures 0 <= MonthStart(d.year, d.month) + d.day - 1 < DaysInYear(d.year)
  {
    MonthStartTable(d.year);
  }

  lemma {:induction false} YearStartUp(a: nat, b: nat)
    requires a < b
    ensures YearStart(a) + DaysInYear(a) <= YearStart(b)
    decreases b
  {
    if a + 1 < b {
      YearStartUp(a, b - 1);
    }
  }

  lemma {:induction false} MonthStartUp(y: nat, m: nat, n: nat)
    requires 1 <= m < n <= 12
    ensures MonthStart(y, m) + DaysInMonth(y, m) <= MonthStart(y, n)
    decreases n
  {
    if m + 1 < n {
      MonthStartUp(y, m, n - 1);
    }
  }

  /** No two dates share a day number. */
  lemma DayNumberTellsDates(a: Date, b: Date)
    requires a.Valid() && b.Valid() && a.DayNumber() == b.DayNumber()
    ensures a == b
  {
    hide DaysInYear, DaysInMonth;
    DayInYear(a);
    DayInYear(b);
    if a.year < b.year {
      YearStartUp(a.year, b.year);
    } else if b.year < a.year {
      YearStartUp(b.year, a.year);
    } else {
      assert b.year == a.year;
      SameYear(a, b);
    }
  }

  lemma SameYear(a: Date, b: Date)
    requires a.Valid() && b.Valid() && a.year == b.year
    requires MonthStart(a.year, a.month) + a.day == MonthStart(b.year, b.month) + b.day
    ensures a == b
  {
    if a.month < b.month {
      MonthStartUp(a.year, a.month, b.month);
    } else if b.month < a.month {
      MonthStartUp(a.year, b.month, a.month);
    }
  }
}

/** brimod_split_time and brimod_make_time. */
module Clock {
  import opened Machine
  import opened Arith
  import opened Calendar

  /** The date and time fields of struct brimod_time. */
  datatype Fields = Fields(date: Date, hour: int, min: int, sec: int) {
    predicate Valid() {
      date.Valid() && 0 <= hour < 24 && 0 <= min < 60 && 0 <= sec < 60
    }

    /** Seconds since 1970-01-01 00:00:00. */
    function Seconds(): int
      requires Valid()
    {
      date.DayNumber() * 86400 + hour * 3600 + min * 60 + sec
    }
  }

  /** The minutes of an offset in seconds, in 32 bits. */
  function Shift(tz: int): u32 {
    Wrap((if tz < 0 then -tz else tz) * 60)
  }

  /** Local time; an offset to the west that would pass 1970 is cut to it. */
  function Local(utc: u32, tz: int): u32 {
    if tz >= 0 then Wrap(utc + Shift(tz)) else if utc > Shift(tz) then utc - Shift(tz) else 0
  }

  /** `/` of C on ints truncates. */
  function CDiv(a: int, b: nat): int
    requires b > 0
  {
    if a >= 0 then a / b else -(-a / b)
  }

  /** The days of brimod_make_time: ints until they meet an unsigned operand, then 32-bit words. */
  function CivilDays(year: int, month: int, day: int): u32 {
    var y := year - (if month <= 2 then 1 else 0);
    var era := CDiv(y, 400);
    var yoe := Wrap(y - era * 400);
    var doy := Wrap(CDiv(153 * (if month > 2 then month - 3 else month + 9) + 2, 5) + day - 1);
    var doe := Wrap(Wrap(yoe * 365) + yoe / 4 - yoe / 100 + doy);
    Wrap(Wrap(Wrap(era) * 146097) + doe - 719468)
  }

  /** brimod_make_time. */
  function MakeTime(year: int, month: int, day: int, hour: int, min: int, sec: int, tz: int): u32 {
    var local := Wrap(Wrap(CivilDays(year, month, day) * 86400) + hour * 3600 + min * 60 + sec);
    if tz >= 0 then Wrap(local - Wrap(tz * 60)) else Wrap(local + Wrap(-tz * 60))
  }

  lemma WrapDiffers(x: int, y: int, k: int)
    requires y == x + k * M32
    ensures Wrap(x) == Wrap(y)
  {
    var q := y / M32;
    assert x - (q - k) * M32 == Wrap(y);
  }

  lemma WrapScale(x: int, k: int, c: int)
    ensures Wrap(Wrap(x) * k + c) == Wrap(x * k + c)
  {
    var q := x / M32;
    assert Wrap(x) == x - q * M32;
    assert Wrap(x) * k + c == x * k + c + (-(q * k)) * M32;
    WrapDiffers(x * k + c, Wrap(x) * k + c, -(q * k));
  }

  lemma CivilDaysCount(d: Date)
    requires d.Valid() && MarchYear(d) >= 0
    ensures CivilDays(d.year, d.month, d.day) == Wrap(d.DayNumber())
  {
    hide Date.DayNumber, IsLeap, Wrap, EraDays, YearStart, MonthStart;
    DaysFromCivil(d);
    MarchTable(MarchMonth(d.month));
    EraWords(MarchYear(d), MarchDays(MarchMonth(d.month)) + d.day - 1);
  }

  lemma EraWords(y: nat, doy: nat)
    requires doy <= 400
    ensures var yoe := Wrap(y - y / 400 * 400);
            var doe := Wrap(Wrap(yoe * 365) + yoe / 4 - yoe / 100 + Wrap(doy));
            Wrap(Wrap(Wrap(y / 400) * 146097) + doe - 719468) ==
            Wrap(y / 400 * 146097 + EraDays(y % 400) + doy - 719468)
  {
    hide Wrap, EraDays;
    CivilWords(y, doy);
    WrapScale(y / 400, 146097, 0);
    WrapScale(y / 400 * 146097, 1, EraDays(y % 400) + doy - 719468);
  }

  /** Nothing wraps before the day of the era is known. */
  lemma CivilWords(y: nat, doy: nat)
    requires doy <= 400
    ensures Wrap(y - y / 400 * 400) == y % 400
    ensures Wrap(doy) == doy
    ensures Wrap(Wrap(y % 400 * 365) + y % 400 / 4 - y % 400 / 100 + doy) == EraDays(y % 400) + doy
  {
  }

  /** For every date from 1 March of year 0 on, brimod_make_time is the number of seconds, less the offset. */
  lemma MakeTimeCounts(f: Fields, tz: int)
    requires f.Valid() && MarchYear(f.date) >= 0
    ensures MakeTime(f.date.year, f.date.month, f.date.day, f.hour, f.min, f.sec, tz) == Wrap(f.Seconds() - tz * 60)
  {
    hide Date.DayNumber, Date.Valid, CivilDays, MakeTime, Wrap, Fields.Seconds;
    CivilDaysCount(f.date);
    MakeTimeParts(f, tz);
    Offset(f.date.DayNumber(), f.hour * 3600 + f.min * 60 + f.sec, tz);
  }

  lemma MakeTimeParts(f: Fields, tz: int)
    requires f.Valid() && CivilDays(f.date.year, f.date.month, f.date.day) == Wrap(f.date.DayNumber())
    ensures var n, rest := f.date.DayNumber(), f.hour * 3600 + f.min * 60 + f.sec;
            && f.Seconds() == n * 86400 + rest
            && MakeTime(f.date.year, f.date.month, f.date.day, f.hour, f.min, f.sec, tz) ==
               var local := Wrap(Wrap(Wrap(n) * 86400) + rest);
               if tz >= 0 then Wrap(local - Wrap(tz * 60)) else Wrap(local + Wrap(-tz * 60))
  {
    hide CivilDays, Wrap, Date.DayNumber, Date.Valid;
    var local := Wrap(Wrap(CivilDays(f.date.year, f.date.month, f.date.day) * 86400)
                      + f.hour * 3600 + f.min * 60 + f.sec);
    assert Wrap(CivilDays(f.date.year, f.date.month, f.date.day) * 86400) + f.hour * 3600 + f.min * 60 + f.sec
        == Wrap(Wrap(f.date.DayNumber()) * 86400) + (f.hour * 3600 + f.min * 60 + f.sec);
  }

  lemma Offset(n: int, rest: int, tz: int)
    ensures var local := Wrap(Wrap(Wrap(n) * 86400) + rest);
            (if tz >= 0 then Wrap(local - Wrap(tz * 60)) else Wrap(local + Wrap(-tz * 60)))
            == Wrap(n * 86400 + rest - tz * 60)
  {
    hide Wrap;
    var s := n * 86400 + rest;
    WrapScale(n, 86400, 0);
    WrapScale(n * 86400, 1, rest);
    if tz >= 0 {
      WrapScale(tz * 60, -1, Wrap(s));
      WrapScale(s, 1, -(tz * 60));
    } else {
      WrapScale(-tz * 60, 1, Wrap(s));
      WrapScale(s, 1, -tz * 60);
    }
  }

  /** At most one set of valid fields shows a given second. */
  lemma SecondsTellFields(a: Fields, b: Fields)
    requires a.Valid() && b.Valid() && a.Seconds() == b.Seconds()
    ensures a == b
  {
    var s := a.hour * 3600 + a.min * 60 + a.sec;
    var t := b.hour * 3600 + b.min * 60 + b.sec;
    hide Date.DayNumber, Date.Valid;
    assert a.date.DayNumber() == b.date.DayNumber() && s == t;
    DayNumberTellsDates(a.date, b.date);
  }

  /** Making a time from the fields split from it gives the time back exactly when local time
      was not cut to 1970; an overflow past 2106 wraps and unwraps. */
  lemma MakeOfSplit(f: Fields, utc: u32, tz: int)
    requires f.Valid() && MarchYear(f.date) >= 0 && f.Seconds() == Local(utc, tz)
    ensures MakeTime(f.date.year, f.date.month, f.date.day, f.hour, f.min, f.sec, tz) == utc
            <==> tz >= 0 || utc >= Shift(tz)
  {
    hide Fields.Seconds, Fields.Valid, MakeTime, Wrap, MarchYear;
    MakeTimeCounts(f, tz);
    if tz >= 0 {
      East(utc, tz * 60);
      Small(utc);
    } else {
      West(f.Seconds(), -tz * 60);
      Small(f.Seconds() + Shift(tz));
    }
  }

  lemma East(x: int, p: int)
    ensures Wrap(Wrap(x + Wrap(p)) - p) == Wrap(x) && Wrap(Wrap(x - p) + Wrap(p)) == Wrap(x)
  {
    hide Wrap;
    WrapScale(p, 1, x);
    WrapScale(x + p, 1, -p);
    WrapScale(p, 1, Wrap(x - p));
    WrapScale(x - p, 1, p);
  }

  lemma West(x: int, p: int)
    ensures Wrap(x + p) == Wrap(x + Wrap(p))
  {
    WrapScale(p, 1, x);
  }

  lemma Small(x: nat)
    requires x < 2 * M32
    ensures Wrap(x) == if x < M32 then x else x - M32
  {
  }

  /** Splitting a made time shows the same fields again exactly when the offset to the west does
      not push the time past the last 32-bit second. */
  lemma SplitOfMake(f: Fields, tz: int)
    requires f.Valid() && MarchYear(f.date) >= 0 && 0 <= f.Seconds() < M32
    ensures Local(MakeTime(f.date.year, f.date.month, f.date.day, f.hour, f.min, f.sec, tz), tz) == f.Seconds()
            <==> tz >= 0 || f.Seconds() + Shift(tz) < M32
  {
    hide Fields.Seconds, Fields.Valid, MakeTime, Wrap, MarchYear;
    MakeTimeCounts(f, tz);
    if tz >= 0 {
      East(f.Seconds(), tz * 60);
      Small(f.Seconds());
    } else {
      West(f.Seconds(), -tz * 60);
      Small(f.Seconds() + Shift(tz));
    }
  }

  lemma TimeOfDay(secs: nat)
    requires secs < 86400
    ensures secs / 3600 < 24 && secs / 60 % 60 < 60 && secs % 60 < 60
    ensures secs / 3600 * 3600 + secs / 60 % 60 * 60 + secs % 60 == secs
  {
    DivBounds(secs, 60);
    DivBounds(secs, 3600);
    var m := secs / 60;
    DivBounds(m, 60);
    DivUnique(secs, 3600, m / 60);
  }

  /** The fields a call fills in. */
  class TimeFields {
    var year: int
    var month: int
    var day: int
    var hour: int
    var min: int
    var sec: int
    var wday: int

    /** The fields as a date and a time of day; meaningful once they are not negative. */
    ghost function Shown(): Fields
      reads this
      requires year >= 0 && month >= 0 && day >= 0
    {
      Fields(Date(year, month, day), hour, min, sec)
    }

    /** brimod_split_time: the fields are a valid Gregorian date and time, they show local time,
        and the weekday is that of the date. */
    method Split(utc: u32, tz: int)
      modifies this
      ensures year >= 0 && month >= 0 && day >= 0
      ensures Shown().Valid() && MarchYear(Shown().date) >= 0
      ensures Shown().Seconds() == Local(utc, tz)
      ensures wday == (Shown().date.DayNumber() + 4) % 7
    {
      hide Date.DayNumber, Date.Valid, YearOfEra, EraDays, MonthOfDay, MarchDays;
      var shift := Wrap((if tz < 0 then -tz else tz) * 60);
      var local := if tz >= 0 then Wrap(utc + shift) else if utc > shift then utc - shift else 0;
      var days, secs := local / 86400, local % 86400;
      hour := secs / 3600;
      min := secs / 60 % 60;
      sec := secs % 60;
      wday := (days + 4) % 7;
      var z := days + 719468;
      var era := z / 146097;
      var doe := z - era * 146097;
      DateOfDay(days, era, doe);
      TimeOfDay(secs);
      var yoe := YearOfEra(doe);
      var doy := doe - EraDays(yoe);
      var mp := MonthOfDay(doy);
      day := doy - MarchDays(mp) + 1;
      month := FromMarch(mp);
      year := yoe + era * 400 + (if month <= 2 then 1 else 0);
    }
  }
}
