// Calendar conversion (kernel/lib.c:138-183). Times are milliseconds from the first of
// January of the year 1.
module Calendar {
  import opened Bits
  import opened Division

  // ------------------------------------------- the proleptic Gregorian calendar

  datatype Date = Date(year: nat, month: nat, day: nat)

  predicate Leap(y: nat) { (y % 4 == 0 && y % 100 != 0) || y % 400 == 0 }

  function MonthLength(y: nat, m: nat): nat {
    if m == 2 then if Leap(y) then 29 else 28
    else if m == 4 || m == 6 || m == 9 || m == 11 then 30
    else 31
  }

  predicate Valid(d: Date) {
    1 <= d.year && 1 <= d.month <= 12 && 1 <= d.day <= MonthLength(d.year, d.month)
  }

  function NextDay(d: Date): Date {
    if d.day < MonthLength(d.year, d.month) then Date(d.year, d.month, d.day + 1)
    else if d.month < 12 then Date(d.year, d.month + 1, 1)
    else Date(d.year + 1, 1, 1)
  }

  /** Day by day from 1 January 1. */
  function DateOf(n: nat): Date {
    if n == 0 then Date(1, 1, 1) else NextDay(DateOf(n - 1))
  }

  // --------------------------------------------------------------- day numbers

  /** The days in the first n years. */
  function Years(n: nat): nat { 365 * n + n / 4 - n / 100 + n / 400 }

  const MDAY: seq<nat> := [0, 31, 59, 90, 120, 151, 181, 212, 243, 273, 304, 334, 365]

  function LeapDay(y: nat): nat { if Leap(y) then 1 else 0 }

  function MonthStart(y: nat, m: nat): nat
    requires 1 <= m <= 12
  {
    MDAY[m - 1] + if m > 2 then LeapDay(y) else 0
  }

  function DayNumber(d: Date): int
    requires 1 <= d.year && 1 <= d.month <= 12
  {
    Years(d.year - 1) + MonthStart(d.year, d.month) + d.day - 1
  }

  lemma YearsNext(n: nat)
    ensures Years(n + 1) == Years(n) + 365 + LeapDay(n + 1)
  {
    Fours(n);
    Hundreds(n);
    FourHundreds(n);
  }

  lemma Fours(n: nat)
    ensures (n + 1) / 4 - n / 4 == if (n + 1) % 4 == 0 then 1 else 0
  {
  }

  lemma Hundreds(n: nat)
    ensures (n + 1) / 100 - n / 100 == if (n + 1) % 100 == 0 then 1 else 0
    ensures (n + 1) % 100 == 0 ==> (n + 1) % 4 == 0
  {
    var q := (n + 1) / 100;
    assert (n + 1) % 100 == 0 ==> n + 1 == 4 * (25 * q);
  }

  lemma FourHundreds(n: nat)
    ensures (n + 1) / 400 - n / 400 == if (n + 1) % 400 == 0 then 1 else 0
    ensures (n + 1) % 400 == 0 ==> (n + 1) % 100 == 0
  {
    var q := (n + 1) / 400;
    assert (n + 1) % 400 == 0 ==> n + 1 == 100 * (4 * q);
  }

  lemma {:induction false} YearsMonotone(m: nat, n: nat)
    requires m <= n
    ensures Years(m) <= Years(n)
    ensures m < n ==> Years(m) + 365 <= Years(n)
    decreases n - m
  {
    hide Years, LeapDay;
    if m < n {
      YearsMonotone(m, n - 1);
      YearsNext(n - 1);
    }
  }

  lemma NextNumber(d: Date)
    requires Valid(d)
    ensures Valid(NextDay(d)) && DayNumber(NextDay(d)) == DayNumber(d) + 1
  {
    hide Years, Leap;
    YearsNext(d.year - 1);
  }

  lemma {:induction false} DateOfNumber(n: nat)
    ensures Valid(DateOf(n)) && DayNumber(DateOf(n)) == n
  {
    if n > 0 {
      DateOfNumber(n - 1);
      NextNumber(DateOf(n - 1));
    }
  }

  /** Where in the year a date is. */
  lemma YearOf(d: Date)
    requires Valid(d)
    ensures Years(d.year - 1) <= DayNumber(d) < Years(d.year)
  {
    hide Years, Leap;
    YearsNext(d.year - 1);
  }

  lemma MonthOrder(y: nat, m: nat, n: nat)
    requires 1 <= m < n <= 12
    ensures MonthStart(y, m) + MonthLength(y, m) <= MonthStart(y, n)
  {
    hide Leap;
  }

  predicate Earlier(a: Date, b: Date) {
    a.year < b.year || (a.year == b.year && (a.month < b.month || (a.month == b.month && a.day < b.day)))
  }

  /** Day numbers are in the order of the dates. */
  lemma NumberOrder(a: Date, b: Date)
    requires Valid(a) && Valid(b)
    ensures Earlier(a, b) ==> DayNumber(a) < DayNumber(b)
  {
    hide Years, Leap, MonthStart, MonthLength;
    if a.year < b.year {
      YearOf(a);
      YearOf(b);
      YearsMonotone(a.year, b.year - 1);
    } else if a.year == b.year && a.month < b.month {
      MonthOrder(a.year, a.month, b.month);
    }
  }

  /** A day number belongs to one date. */
  lemma NumberUnique(a: Date, b: Date)
    requires Valid(a) && Valid(b) && DayNumber(a) == DayNumber(b)
    ensures a == b
  {
    hide DayNumber, Valid;
    NumberOrder(a, b);
    NumberOrder(b, a);
  }

  // -------------------------------------------------------------------- gmtime

  datatype Time = Time(year: u32, month: nat, day: nat, hour: nat, minute: nat, second: nat, milli: nat, weekday: nat)

  /** The year-correction loop: days counts from the first of January of the year after
      `year`. */
  method YearAndDay(days: nat) returns (year: nat, day: int)
    requires days <= WORD64 / 86_400_000
    ensures 1 <= year && year <= days / 365 + 1
    ensures Years(year - 1) + day == days + 1 && 1 <= day <= 365 + LeapDay(year)
  {
    hide Years, LeapDay, Leap;
    var y: nat := days / 365;
    var d := days % 365 - y / 4 + y / 100 - y / 400 + 1;
    YearsSplit(y);
    // A 32-bit signed variable holds it.
    assert -0x8000_0000 <= d < 0x8000_0000;
    while d <= 0
      invariant y <= days / 365 && Years(y) + d == days + 1 && d <= 365 + LeapDay(y + 1)
      decreases y
    {
      YearsZero();
      d := d + 365 + if (y % 4 == 0 && y % 100 != 0) || y % 400 == 0 then 1 else 0;
      YearsNext(y - 1);
      LeapIs(y);
      y := y - 1;
    }
    year, day := y + 1, d;
  }

  lemma YearsSplit(y: nat)
    ensures Years(y) == 365 * y + y / 4 - y / 100 + y / 400 && y / 100 <= y / 4 && LeapDay(y + 1) >= 0
  {
  }

  lemma YearsZero()
    ensures Years(0) == 0
  {
  }

  lemma LeapIs(y: nat)
    ensures LeapDay(y) == if (y % 4 == 0 && y % 100 != 0) || y % 400 == 0 then 1 else 0
  {
  }

  /** Month and day of the day-th day of a year; 31 January comes out as 0 February,
      because 31/30 is 31/31. */
  method MonthAndDay(year: nat, day: nat) returns (month: nat, mday: nat)
    requires 1 <= year && 1 <= day <= 365 + LeapDay(year)
    ensures 1 <= month <= 12 && MonthStart(year, month) + mday == day
    ensures if day == 31 then month == 2 && mday == 0 else Valid(Date(year, month, mday))
  {
    hide Leap, Valid, MonthStart;
    var days := day;
    if Leap(year) {
      if days == 60 {
        LeapDate(year);
        return 2, 29;
      } else if days > 60 {
        days := days - 1;
      }
    }
    var bmon := days / 30;
    var mon := days / 31;
    if bmon != mon {
      if days > MDAY[bmon] {
        mon := bmon;
      }
    }
    MonthTable(days, mon);
    DayInMonth(year, day, days, mon);
    month, mday := mon + 1, days - MDAY[mon];
  }

  lemma LeapDate(year: nat)
    requires 1 <= year && Leap(year)
    ensures Valid(Date(year, 2, 29)) && MonthStart(year, 2) + 29 == 60
  {
  }

  /** The table of month ends against the lengths of the months. */
  lemma LengthIs(y: nat, m: nat)
    requires 1 <= m <= 12
    ensures MDAY[m] - MDAY[m - 1] == MonthLength(y, m) - if m == 2 then LeapDay(y) else 0
  {
    hide Leap;
  }

  /** days is the day with 29 February taken out. */
  lemma DayInMonth(year: nat, day: nat, days: nat, mon: nat)
    requires 1 <= year && mon < 12 && !(Leap(year) && day == 60) && day == days + (if day > 60 then LeapDay(year) else 0)
    requires 1 <= day && if days == 31 then mon == 1 else MDAY[mon] < days <= MDAY[mon + 1]
    ensures MonthStart(year, mon + 1) + days - MDAY[mon] == day && days >= MDAY[mon]
    ensures if day == 31 then mon == 1 && days == MDAY[mon] else Valid(Date(year, mon + 1, days - MDAY[mon]))
  {
    hide Leap, MonthLength;
    LengthIs(year, mon + 1);
    if mon >= 2 { assert MDAY[mon] >= 59; } else { assert MDAY[mon + 1] <= 59; }
  }

  /** The month number the divisions come to. */
  lemma MonthTable(days: nat, mon: nat)
    requires 1 <= days <= 365
    requires mon == if days / 30 != days / 31 && days > MDAY[days / 30] then days / 30 else days / 31
    ensures mon < 12 && if days == 31 then mon == 1 else MDAY[mon] < days <= MDAY[mon + 1]
  {
    var q, r := days / 30, days / 31;
    assert 30 * q <= days < 30 * q + 30 && 31 * r <= days < 31 * r + 31;
    assert r <= q <= r + 1;
  }

  /** The day that gmtime gets wrong. */
  predicate EndOfJanuary(n: nat) { DateOf(n).month == 1 && DateOf(n).day == 31 }

  lemma DateFound(n: nat, y: nat, day: nat, month: nat, mday: nat)
    requires 1 <= y && 1 <= day <= 365 + LeapDay(y) && Years(y - 1) + day == n + 1
    requires 1 <= month <= 12 && MonthStart(y, month) + mday == day
    requires if day == 31 then month == 2 && mday == 0 else Valid(Date(y, month, mday))
    ensures DayNumber(Date(y, month, mday)) == n && mday <= 31
    ensures if EndOfJanuary(n) then Date(y, month, mday) == Date(DateOf(n).year, 2, 0) else Date(y, month, mday) == DateOf(n)
  {
    DateOfNumber(n);
    hide Years, Leap, DateOf;
    if day == 31 {
      NumberUnique(Date(y, 1, 31), DateOf(n));
    } else {
      NumberUnique(Date(y, month, mday), DateOf(n));
    }
  }

  /** gmtime of any 64-bit time. Its date is the calendar's on every day but the last
      of a January, and then it is "0 February". */
  method Gmtime(time: u64) returns (ret: Time)
    ensures ret.milli == time % 1000 && ret.second == time / 1000 % 60
    ensures ret.minute == time / 60_000 % 60 && ret.hour == time / 3_600_000 % 24
    ensures ret.weekday == (time / 86_400_000 + 1) % 7
    ensures 1 <= ret.month <= 12 && 1 <= ret.year && ret.day <= 31
    ensures DayNumber(Date(ret.year, ret.month, ret.day)) == time / 86_400_000
    ensures var n := time / 86_400_000;
            Date(ret.year, ret.month, ret.day) == if EndOfJanuary(n) then Date(DateOf(n).year, 2, 0) else DateOf(n)
  {
    hide Years, LeapDay, MonthStart, DateOf, DayNumber;
    var t, milli := DivMod64(time, 1000);
    var second, minute, hour;
    t, second := DivMod64(t, 60);
    t, minute := DivMod64(t, 60);
    t, hour := DivMod64(t, 24);
    Quotients(time);
    var _, w := DivMod64(t + 1, 7);
    var year, days := YearAndDay(t);
    var month, day := MonthAndDay(year, days);
    DateFound(t, year, days, month, day);
    ret := Time(year, month, day, hour, minute, second, milli, w);
  }

  lemma Quotients(t: nat)
    ensures t / 1000 / 60 == t / 60_000 && t / 60_000 / 60 == t / 3_600_000 && t / 3_600_000 / 24 == t / 86_400_000
  {
  }

  // -------------------------------------------------------------------- mktime

  /** The year counted from March on, and the month in it. */
  function MarchYear(year: u32, mon: nat): u32
    requires mon < 256
  {
    if (mon - 2) % 256 == 0 || (mon - 2) % 256 >= 128 then Wrap(year - 1) else year
  }

  function MarchMonth(mon: nat): nat
    requires mon < 256
  {
    if (mon - 2) % 256 == 0 || (mon - 2) % 256 >= 128 then ((mon - 2) % 256 + 12) % 256 else (mon - 2) % 256
  }

  /** The days as mktime works them out, before the 64-bit part. */
  function Days(y: u32, m: nat, day: nat): int {
    Wrap(y / 4 - y / 100 + y / 400 + 367 * m / 12 + day) + Wrap(y * 365) - 337
  }

  function Seconds(days: int, hour: nat, min: nat, sec: nat): int { ((days * 24 + hour) * 60 + min) * 60 + sec }

  /** It counts the days of the calendar, as far as the product goes. */
  lemma DaysCount(d: Date)
    requires 1 <= d.year < WORD / 2 && 1 <= d.month <= 12 && d.day < 256
    ensures var y := MarchYear(d.year, d.month);
            && y == d.year - (if d.month <= 2 then 1 else 0)
            && Days(y, MarchMonth(d.month), d.day) == DayNumber(d) - y * 365 + y * 365 % WORD
  {
    hide MarchYear, MarchMonth, Leap, Years, LeapDay, Days;
    var y, m := MarchYear(d.year, d.month), MarchMonth(d.month);
    MarchTable(d.month);
    MarchYearIs(d.year, d.month);
    YearsNext(d.year - 1);
    DaysSum(y, m, d.day);
  }

  /** The 32-bit part of the sum is small. */
  lemma DaysSum(y: u32, m: nat, day: nat)
    requires y < WORD / 2 && 1 <= m <= 12 && day < 256
    ensures Days(y, m, day) == Years(y) - 365 * y + 367 * m / 12 + day + y * 365 % WORD - 337
  {
    LeapsSmall(y);
    SmallMod(y / 4 - y / 100 + y / 400 + 367 * m / 12 + day);
  }

  lemma LeapsSmall(y: nat)
    ensures 0 <= y / 4 - y / 100 + y / 400 <= y
  {
  }

  lemma MarchYearIs(year: u32, mon: nat)
    requires 1 <= year && 1 <= mon <= 12
    ensures MarchYear(year, mon) == year - if mon <= 2 then 1 else 0
  {
  }

  lemma SmallMod(x: int)
    requires 0 <= x < WORD
    ensures x % WORD == x
  {
  }

  lemma MarchTable(mon: nat)
    requires 1 <= mon <= 12
    ensures 1 <= MarchMonth(mon) <= 12
    ensures 367 * MarchMonth(mon) / 12 + (if mon <= 2 then 0 else 365) == MDAY[mon - 1] + 336
  {
  }

  /** The first day from which the product of the years and 365 no longer fits. */
  const TOO_LATE: nat := 4_297_820_609

  lemma FitsUntil(d: Date, n: nat)
    requires 1 <= d.year && 1 <= d.month <= 12 && DayNumber(d) == n
    requires Valid(d) || (d.month == 2 && d.day == 0)
    ensures var y := d.year - (if d.month <= 2 then 1 else 0);
            y * 365 < WORD <==> n < TOO_LATE
  {
    var y := d.year - (if d.month <= 2 then 1 else 0);
    assert Years(11_767_033) + 59 == TOO_LATE && !Leap(11_767_034);
    YearsNext(d.year - 1);
    hide Years;
    if d.year <= 11_767_033 {
      YearsMonotone(d.year, 11_767_033);
    } else if d.year >= 11_767_035 {
      YearsMonotone(11_767_034, d.year - 1);
      YearsMonotone(11_767_033, 11_767_034);
    }
  }

  /** mktime: the seconds from the first of January of the year 1 to a date and time of
      day, for every date of the day-by-day calendar before the product of the years and
      365 outgrows a word; from then on, and for days that are none of the month's, what is
      left of that product counts. */
  method Mktime(year: u32, mon: nat, day: nat, hour: nat, min: nat, sec: nat) returns (r: u64)
    requires mon < 256 && day < 256 && hour < 256 && min < 256 && sec < 256
    ensures forall n: nat :: Date(year, mon, day) == DateOf(n) && n < TOO_LATE ==> r == Seconds(n, hour, min, sec)
    ensures 1 <= year < WORD / 2 && 1 <= mon <= 12 ==>
              var y := year - (if mon <= 2 then 1 else 0);
              r == Seconds(DayNumber(Date(year, mon, day)) - y * 365 + y * 365 % WORD, hour, min, sec) % WORD64
  {
    hide DateOf, Years, MonthStart, DayNumber, Leap, Days, Seconds, MarchYear, MarchMonth;
    var y, m := FromMarch(year, mon);
    var days := CountDays(y, m, day);
    r := CountSeconds(days, hour, min, sec);
    MktimeCounts(year, mon, day, hour, min, sec, r);
  }

  /** `(s8)(mon-=2)<=0`: January and February are the last months of the year before. */
  method FromMarch(year: u32, mon: nat) returns (y: u32, m: nat)
    requires mon < 256
    ensures y == MarchYear(year, mon) && m == MarchMonth(mon)
  {
    hide Wrap;
    y, m := year, (mon - 2) % 256;
    if m == 0 || m >= 128 {
      m := (m + 12) % 256;
      y := Wrap(y - 1);
    }
  }

  method CountDays(y: u32, m: nat, day: nat) returns (days: int)
    ensures days == Days(y, m, day)
  {
    hide Wrap;
    days := Wrap(y / 4 - y / 100 + y / 400 + 367 * m / 12 + day) + Wrap(y * 365) - 337;
  }

  method CountSeconds(days: int, hour: nat, min: nat, sec: nat) returns (r: u64)
    ensures r == Seconds(days, hour, min, sec) % WORD64
  {
    r := (((days * 24 + hour) * 60 + min) * 60 + sec) % WORD64;
  }

  lemma MktimeCounts(year: u32, mon: nat, day: nat, hour: nat, min: nat, sec: nat, r: u64)
    requires mon < 256 && day < 256 && hour < 256 && min < 256 && sec < 256
    requires r == Seconds(Days(MarchYear(year, mon), MarchMonth(mon), day), hour, min, sec) % WORD64
    ensures forall n: nat :: Date(year, mon, day) == DateOf(n) && n < TOO_LATE ==> r == Seconds(n, hour, min, sec)
    ensures 1 <= year < WORD / 2 && 1 <= mon <= 12 ==>
              var y := year - (if mon <= 2 then 1 else 0);
              r == Seconds(DayNumber(Date(year, mon, day)) - y * 365 + y * 365 % WORD, hour, min, sec) % WORD64
  {
    hide DateOf, Years, MonthStart, DayNumber, Leap, Seconds, MarchYear, MarchMonth, Days, Valid;
    var d := Date(year, mon, day);
    forall n: nat | d == DateOf(n) && n < TOO_LATE
      ensures r == Seconds(n, hour, min, sec)
    {
      DateOfNumber(n);
      ValidParts(d);
      SmallYear(d, n);
      DaysCount(d);
      FitsUntil(d, n);
      FewSeconds(n, hour, min, sec);
    }
    if 1 <= year < WORD / 2 && 1 <= mon <= 12 { DaysCount(d); }
  }

  lemma ValidParts(d: Date)
    requires Valid(d)
    ensures 1 <= d.year && 1 <= d.month <= 12 && 1 <= d.day <= 31
  {
  }

  lemma SmallYear(d: Date, n: nat)
    requires Valid(d) && DayNumber(d) == n < TOO_LATE
    ensures d.year < WORD / 2
  {
    YearsLong(d.year - 1);
    hide Years, Leap;
  }

  lemma FewSeconds(n: nat, hour: nat, min: nat, sec: nat)
    requires n < TOO_LATE && hour < 256 && min < 256 && sec < 256
    ensures Seconds(n, hour, min, sec) % WORD64 == Seconds(n, hour, min, sec) >= 0
  {
  }

  /** There and back gives the whole seconds of the time, 31 January included, exactly
      until the end of February of the year 11767034. */
  method ThereAndBack(time: u64) returns (r: u64)
    ensures r == time / 1000 <==> time / 86_400_000 < TOO_LATE
  {
    hide DateOf, Valid, Years, MonthStart, Leap, EndOfJanuary, Seconds, DayNumber;
    var t := Gmtime(time);
    r := Mktime(t.year, t.month, t.day, t.hour, t.minute, t.second);
    BackAgain(time, t);
  }

  lemma BackAgain(time: u64, t: Time)
    requires 1 <= t.month <= 12 && 1 <= t.year && t.day <= 31 && DayNumber(Date(t.year, t.month, t.day)) == time / 86_400_000
    requires var n := time / 86_400_000;
             Date(t.year, t.month, t.day) == if EndOfJanuary(n) then Date(DateOf(n).year, 2, 0) else DateOf(n)
    requires t.second == time / 1000 % 60 && t.minute == time / 60_000 % 60 && t.hour == time / 3_600_000 % 24
    ensures t.year < WORD / 2
    ensures var y := t.year - (if t.month <= 2 then 1 else 0);
            var s := Seconds(DayNumber(Date(t.year, t.month, t.day)) - y * 365 + y * 365 % WORD, t.hour, t.minute, t.second);
            s % WORD64 == time / 1000 <==> time / 86_400_000 < TOO_LATE
  {
    hide DateOf, EndOfJanuary, Leap, DayNumber, Seconds;
    var n, d := time / 86_400_000, Date(t.year, t.month, t.day);
    DateOfNumber(n);
    assert Valid(d) || (d.month == 2 && d.day == 0);
    YearSmall(d, n);
    FitsUntil(d, n);
    var y: nat := t.year - (if t.month <= 2 then 1 else 0);
    LessDays(n, d, y);
    Recombined(time, n - y * 365 + y * 365 % WORD);
  }

  /** The years are among the days. */
  lemma LessDays(n: nat, d: Date, y: nat)
    requires 1 <= d.year && 1 <= d.month <= 12 && DayNumber(d) == n && y == d.year - if d.month <= 2 then 1 else 0
    requires Valid(d) || (d.month == 2 && d.day == 0)
    ensures 0 <= n - y * 365 + y * 365 % WORD <= n
    ensures n - y * 365 + y * 365 % WORD == n <==> y * 365 < WORD
  {
    hide Leap, LeapDay, Years;
    YearsNext(d.year - 1);
    YearsLong(d.year - 1);
    RestOf(y * 365);
  }

  lemma YearsLong(y: nat)
    ensures Years(y) >= 365 * y && (y >= 2000 ==> Years(y) >= 365 * (y + 1))
  {
  }

  lemma RestOf(x: nat)
    ensures 0 <= x % WORD <= x && (x % WORD == x <==> x < WORD)
  {
  }

  lemma YearSmall(d: Date, n: nat)
    requires 1 <= d.year && 1 <= d.month <= 12 && DayNumber(d) == n < WORD64 / 86_400_000 + 1
    ensures d.year < WORD / 2
  {
  }

  /** Hours, minutes and seconds put back together; days off by d are seconds off by
      86400 times as many. */
  lemma Recombined(time: u64, days: int)
    requires 0 <= days <= time / 86_400_000
    ensures var s := Seconds(days, time / 3_600_000 % 24, time / 60_000 % 60, time / 1000 % 60);
            0 <= s < WORD64 && (s == time / 1000 <==> days == time / 86_400_000)
  {
    Quotients(time);
    Carried(time / 1000, time / 60_000, time / 3_600_000, time / 86_400_000, days);
  }

  lemma Carried(s: nat, m: nat, h: nat, n: nat, days: int)
    requires m == s / 60 && h == m / 60 && n == h / 24 && 0 <= days <= n && s < WORD64
    ensures var r := Seconds(days, h % 24, m % 60, s % 60);
            0 <= r < WORD64 && (r == s <==> days == n)
  {
    assert s == 60 * m + s % 60;
    assert m == 60 * h + m % 60;
    assert h == 24 * n + h % 24;
  }

  /** Two days by the calendar on the wall. */
  lemma KnownDays()
    ensures DateOf(719_162) == Date(1970, 1, 1) && DateOf(735_147) == Date(2013, 10, 7)
  {
    hide DateOf, DayNumber;
    KnownNumbers();
    NumbersDate(Date(1970, 1, 1), 719_162);
    NumbersDate(Date(2013, 10, 7), 735_147);
  }

  lemma KnownNumbers()
    ensures Valid(Date(1970, 1, 1)) && DayNumber(Date(1970, 1, 1)) == 719_162
    ensures Valid(Date(2013, 10, 7)) && DayNumber(Date(2013, 10, 7)) == 735_147
  {
  }

  // ------------------------------------------------------- where they go wrong

  /** The first 31 January there is. */
  method January31() returns (t: Time)
    ensures EndOfJanuary(30) && t.year == 1 && t.month == 2 && t.day == 0
  {
    hide Years, MonthStart, DayNumber, DateOf;
    ThirtyFirst();
    t := Gmtime(30 * 86_400_000);
  }

  lemma ThirtyFirst()
    ensures DateOf(30) == Date(1, 1, 31) && EndOfJanuary(30)
  {
    hide DateOf;
    NumbersDate(Date(1, 1, 31), 30);
  }

  lemma NumbersDate(d: Date, n: nat)
    requires Valid(d) && DayNumber(d) == n
    ensures DateOf(n) == d
  {
    hide DateOf, Valid, DayNumber;
    DateOfNumber(n);
    NumberUnique(DateOf(n), d);
  }

  /** The first time that does not come back. */
  method TooLate() returns (r: u64)
    ensures r != TOO_LATE * 86_400
  {
    r := ThereAndBack(TOO_LATE * 86_400_000);
  }
}
