/** Civil dates from day counts, and the PostgreSQL date and time decoders built on them. */
module Calendar {
  import opened Sequences
  import opened Digits
  import opened Numeric
  import opened Wrappers
  import Wire

  datatype Date = Date(y: int, m: int, d: int)

  // ---------- the Gregorian calendar ------------------------------------------------

  predicate Leap(y: int) { y % 4 == 0 && (y % 100 != 0 || y % 400 == 0) }

  function MonthLength(y: int, m: int): int {
    if m == 2 then (if Leap(y) then 29 else 28)
    else if m == 4 || m == 6 || m == 9 || m == 11 then 30
    else 31
  }

  predicate Valid(t: Date) { 1 <= t.m <= 12 && 1 <= t.d <= MonthLength(t.y, t.m) }

  function NextDay(t: Date): Date {
    if t.d < MonthLength(t.y, t.m) then t.(d := t.d + 1)
    else if t.m < 12 then Date(t.y, t.m + 1, 1)
    else Date(t.y + 1, 1, 1)
  }

  predicate Before(a: Date, b: Date) {
    a.y < b.y || (a.y == b.y && (a.m < b.m || (a.m == b.m && a.d < b.d)))
  }

  // ---------- the algorithm ---------------------------------------------------------

  /** Integer division truncating toward zero. */
  function TruncDiv(a: int, b: int): int
    requires b > 0
  {
    if a >= 0 then a / b else -((-a) / b)
  }

  /** The remainder that goes with it, taking the dividend's sign. */
  function TruncRem(a: int, b: int): int
    requires b > 0
  {
    if a >= 0 then a % b else -((-a) % b)
  }

  /** Year of era, from day of era. */
  function YearOfEra(doe: nat): int { (doe - doe / 1460 + doe / 36524 - doe / 146096) / 365 }

  /** March-based month, from March-based day of year. */
  function MarchMonth(doy: int): int { (5 * doy + 2) / 153 }

  /** The days before March-based month `mp`. */
  function MonthStart(mp: int): int { (153 * mp + 2) / 5 }

  function Era(z: int): (era: int)
    ensures 0 <= z - era * 146097 < 146097
  {
    TruncDiv(if z >= 0 then z else z - 146096, 146097)
  }

  /** Civil date from the day count since 1970-01-01. */
  function CivilFromDays(days: int): Date {
    var z := days + 719468;
    var era := Era(z);
    var doe := z - era * 146097;
    var yoe := YearOfEra(doe);
    var y := yoe + era * 400;
    var doy := doe - (365 * yoe + yoe / 4 - yoe / 100);
    var mp := MarchMonth(doy);
    var d := doy - MonthStart(mp) + 1;
    var m := if mp < 10 then mp + 3 else mp - 9;
    Date(if m <= 2 then y + 1 else y, m, d)
  }

  /** The generated client's version, on unsigned day counts. */
  function CivilUnsigned(days: nat): Date {
    var z := days + 719468;
    var era := z / 146097;
    var doe := z % 146097;
    var yoe := YearOfEra(doe);
    var doy := doe - (365 * yoe + yoe / 4 - yoe / 100);
    var mp := MarchMonth(doy);
    var d := doy - MonthStart(mp) + 1;
    var m := if mp < 10 then mp + 3 else mp - 9;
    Date(yoe + era * 400 + (if m <= 2 then 1 else 0), m, d)
  }

  // ---------- year of era -----------------------------------------------------------

  /** The days of an era before its year `y`. */
  function YearStart(y: int): int { 365 * y + y / 4 - y / 100 + y / 400 }

  function YearLength(y: int): int { YearStart(y + 1) - YearStart(y) }

  lemma YearLengths(y: int)
    requires 0 <= y < 400
    ensures YearLength(y) == if Leap(y + 1) then 366 else 365
  {
    var z := y + 1;
    assert z / 4 - y / 4 == if z % 4 == 0 then 1 else 0;
    assert z / 100 - y / 100 == if z % 100 == 0 then 1 else 0;
    assert z / 400 - y / 400 == if z % 400 == 0 then 1 else 0;
    Divides(z);
  }

  lemma Divides(z: int)
    ensures z % 400 == 0 ==> z % 100 == 0
    ensures z % 100 == 0 ==> z % 4 == 0
  {
    Mod100(4 * (z / 400), 0);
    Mod4(25 * (z / 100), 0);
  }

  lemma YearStartSplit(c: int, q: int, r: int)
    requires 0 <= c < 4 && 0 <= q < 25 && 0 <= r < 4
    ensures YearStart(100 * c + 4 * q + r) == 36524 * c + 1461 * q + 365 * r
    ensures YearLength(100 * c + 4 * q + r) == if r == 3 && (q < 24 || c == 3) then 366 else 365
  {
    var y := 100 * c + 4 * q + r;
    assert y / 4 == 25 * c + q && y / 100 == c && y / 400 == 0;
    assert (y + 1) / 4 == if r == 3 then 25 * c + q + 1 else 25 * c + q;
    assert (y + 1) / 100 == if r == 3 && q == 24 then c + 1 else c;
    assert (y + 1) / 400 == if r == 3 && q == 24 && c == 3 then 1 else 0;
  }

  lemma Corrections(c: int, q: int, r: int, doy: int, doe: int)
    requires 0 <= c < 4 && 0 <= q < 25 && 0 <= r < 4
    requires 0 <= doy < if r == 3 && (q < 24 || c == 3) then 366 else 365
    requires doe == 36524 * c + 1461 * q + 365 * r + doy
    ensures doe / 1460 == 25 * c + q + (if 24 * c + q + 365 * r + doy >= 1460 then 1 else 0)
    ensures doe / 36524 == c + (if doe == 146096 then 1 else 0)
    ensures doe / 146096 == if doe == 146096 then 1 else 0
  {
    var carry := 24 * c + q + 365 * r + doy;
    assert doe == 1460 * (25 * c + q) + carry;
  }

  lemma YearOfEraSplit(c: int, q: int, r: int, doy: int, doe: nat)
    requires 0 <= c < 4 && 0 <= q < 25 && 0 <= r < 4
    requires 0 <= doy < if r == 3 && (q < 24 || c == 3) then 366 else 365
    requires doe == 36524 * c + 1461 * q + 365 * r + doy
    ensures YearOfEra(doe) == 100 * c + 4 * q + r
  {
    Corrections(c, q, r, doy, doe);
    var carry := 24 * c + q + 365 * r + doy;
    var y := 100 * c + 4 * q + r;
    var sum := doe - doe / 1460 + doe / 36524 - doe / 146096;
    assert sum == 365 * y + doy - (if carry >= 1460 then 1 else 0);
    assert sum / 365 == y;
  }

  /** The division formula inverts the year starts. */
  lemma YearOfEraExact(y: int, doy: int)
    requires 0 <= y < 400 && 0 <= doy < YearLength(y)
    ensures YearStart(y) + doy >= 0 && YearOfEra(YearStart(y) + doy) == y
  {
    hide YearOfEra, YearStart, YearLength;
    var c, r := y / 100, y % 4;
    var q := y / 4 - 25 * c;
    assert y == 100 * c + 4 * q + r && 0 <= q < 25;
    YearStartSplit(c, q, r);
    YearOfEraSplit(c, q, r, doy, YearStart(y) + doy);
  }

  lemma YearOfEraBounds(doe: int)
    requires 0 <= doe < 146097
    ensures 0 <= YearOfEra(doe) < 400
    ensures YearStart(YearOfEra(doe)) <= doe < YearStart(YearOfEra(doe) + 1)
  {
    assert YearStart(0) == 0;
    hide YearOfEra, YearStart;
    YearContaining(doe, 0);
    var k :| 0 <= k < 400 && YearStart(k) <= doe < YearStart(k + 1);
    YearOfEraExact(k, doe - YearStart(k));
  }

  lemma YearContaining(doe: int, from: int)
    requires 0 <= from < 400 && YearStart(from) <= doe < 146097
    ensures exists k :: 0 <= k < 400 && YearStart(k) <= doe < YearStart(k + 1)
    decreases 400 - from
  {
    if doe >= YearStart(from + 1) {
      YearContaining(doe, from + 1);
    }
  }

  // ---------- the bijection ---------------------------------------------------------

  lemma MonthTable(doy: int)
    requires 0 <= doy <= 365
    ensures var mp := MarchMonth(doy); 0 <= mp <= 11 && MonthStart(mp) <= doy < MonthStart(mp + 1)
  {
  }

  lemma MarchMonthExact(mp: int, doy: int)
    requires 0 <= mp <= 11 && MonthStart(mp) <= doy < MonthStart(mp + 1)
    ensures MarchMonth(doy) == mp
  {
  }

  /** The March-based month, and the year it belongs to, of a civil date. */
  function MarchOf(m: int): int { if m > 2 then m - 3 else m + 9 }

  function MarchYear(t: Date): int { if t.m <= 2 then t.y - 1 else t.y }

  function DayOfYear(t: Date): int { MonthStart(MarchOf(t.m)) + t.d - 1 }

  /** Days since 1970-01-01 of a civil date. */
  function DaysFromCivil(t: Date): int {
    var y := MarchYear(t);
    y / 400 * 146097 + YearStart(y % 400) + DayOfYear(t) - 719468
  }

  lemma DayOfYearFits(t: Date)
    requires Valid(t)
    ensures 0 <= DayOfYear(t) < YearLength(MarchYear(t) % 400)
    ensures MarchMonth(DayOfYear(t)) == MarchOf(t.m)
  {
    YearLengths(MarchYear(t) % 400);
    LeapPeriod(MarchYear(t) + 1);
    WithinMonth(t);
    hide Leap, YearLength, Valid, MarchMonth;
    MarchMonthExact(MarchOf(t.m), DayOfYear(t));
  }

  lemma WithinMonth(t: Date)
    requires Valid(t)
    ensures 0 <= MarchOf(t.m) <= 11 && MonthStart(MarchOf(t.m)) <= DayOfYear(t) < MonthStart(MarchOf(t.m) + 1)
    ensures 0 <= DayOfYear(t) < if Leap(MarchYear(t) + 1) then 366 else 365
  {
    hide Leap;
  }

  /** Leap years repeat every 400 years. */
  lemma LeapPeriod(y: int)
    ensures Leap(y) <==> Leap((y - 1) % 400 + 1)
  {
    var k, w := (y - 1) / 400, (y - 1) % 400 + 1;
    Mod4(100 * k, w);
    Mod100(4 * k, w);
    Mod400(k, w);
    assert y == 400 * k + w;
  }

  lemma Mod4(k: int, w: int)
    ensures (4 * k + w) % 4 == w % 4
  {
  }

  lemma Mod100(k: int, w: int)
    ensures (100 * k + w) % 100 == w % 100
  {
  }

  lemma Mod400(k: int, w: int)
    ensures (400 * k + w) % 400 == w % 400
  {
  }

  lemma EraOf(era: int, doe: int)
    requires 0 <= doe < 146097
    ensures Era(era * 146097 + doe) == era
  {
    var e := Era(era * 146097 + doe);
    assert 0 <= era * 146097 + doe - e * 146097 < 146097;
  }

  lemma EraDays(y: int, doy: int)
    requires 0 <= y < 400 && 0 <= doy < YearLength(y)
    ensures 0 <= YearStart(y) + doy < 146097
  {
    if y == 399 {
    } else {
      YearStartsGrow(y + 1, 400);
    }
  }

  lemma YearStartsGrow(a: int, b: int)
    requires 0 <= a <= b
    ensures YearStart(a) <= YearStart(b)
  {
  }

  /** Every valid date is reached, from its own day count. */
  lemma EveryDateIsReached(t: Date)
    requires Valid(t)
    ensures CivilFromDays(DaysFromCivil(t)) == t
  {
    hide YearOfEra, MarchMonth, YearLength, Leap;
    var y, doy := MarchYear(t), DayOfYear(t);
    DayOfYearFits(t);
    EraDays(y % 400, doy);
    EraOf(y / 400, YearStart(y % 400) + doy);
    YearOfEraExact(y % 400, doy);
  }

  /** Every day count is a valid date, and is recovered from it. */
  lemma EveryDayHasADate(z: int)
    ensures Valid(CivilFromDays(z)) && DaysFromCivil(CivilFromDays(z)) == z
  {
    hide YearOfEra, MarchMonth, YearLength, MonthStart, Leap, Valid, YearLength, Era;
    var era := Era(z + 719468);
    var doe := z + 719468 - era * 146097;
    YearOfEraBounds(doe);
    var yoe := YearOfEra(doe);
    var doy := doe - YearStart(yoe);
    StartsAndLength(yoe);
    ValidFromParts(era, yoe, doy);
  }

  lemma StartsAndLength(y: int)
    ensures YearStart(y + 1) == YearStart(y) + YearLength(y)
    ensures 0 <= y < 400 ==> YearStart(y) == 365 * y + y / 4 - y / 100
  {
  }

  lemma ValidInYear(y: int, doy: int)
    requires 0 <= doy < if Leap(y + 1) then 366 else 365
    ensures var mp := MarchMonth(doy);
            var m := if mp < 10 then mp + 3 else mp - 9;
            var t := Date(if m <= 2 then y + 1 else y, m, doy - MonthStart(mp) + 1);
            Valid(t) && MarchYear(t) == y && DayOfYear(t) == doy
  {
    hide Leap;
    MonthTable(doy);
  }

  lemma ValidFromParts(era: int, yoe: int, doy: int)
    requires 0 <= yoe < 400 && 0 <= doy < YearLength(yoe)
    ensures var mp := MarchMonth(doy);
            var m := if mp < 10 then mp + 3 else mp - 9;
            var y := yoe + era * 400;
            var t := Date(if m <= 2 then y + 1 else y, m, doy - MonthStart(mp) + 1);
            Valid(t) && MarchYear(t) == y && DayOfYear(t) == doy && y / 400 == era && y % 400 == yoe
  {
    hide Leap, Valid, MarchYear, DayOfYear, MarchMonth, MonthStart;
    var y := yoe + era * 400;
    assert y % 400 == yoe && y / 400 == era;
    YearLengths(yoe);
    LeapPeriod(y + 1);
    ValidInYear(y, doy);
  }

  // ---------- the calendar itself ---------------------------------------------------

  lemma NextDayCounts(t: Date)
    requires Valid(t)
    ensures Valid(NextDay(t)) && DaysFromCivil(NextDay(t)) == DaysFromCivil(t) + 1
  {
    hide YearStart, Leap;
    var y := MarchYear(t);
    if t.d < MonthLength(t.y, t.m) {
      assert MarchYear(NextDay(t)) == y && DayOfYear(NextDay(t)) == DayOfYear(t) + 1;
    } else if t.m == 2 {
      LastOfFebruary(t);
      NextYear(y);
      assert MarchYear(NextDay(t)) == y + 1 && DayOfYear(NextDay(t)) == 0;
    } else {
      MonthLengths(t.y, t.m);
      assert MarchYear(NextDay(t)) == y && DayOfYear(NextDay(t)) == DayOfYear(t) + 1;
    }
  }

  lemma MonthLengths(y: int, m: int)
    requires 1 <= m <= 12 && m != 2
    ensures MonthStart(MarchOf(m) + 1) == MonthStart(MarchOf(m)) + MonthLength(y, m)
    ensures m < 12 ==> MarchOf(m + 1) == MarchOf(m) + 1
    ensures m == 12 ==> MarchOf(1) == MarchOf(12) + 1
  {
  }

  lemma LastOfFebruary(t: Date)
    requires Valid(t) && t.m == 2 && t.d == MonthLength(t.y, 2)
    ensures DayOfYear(t) == YearLength(MarchYear(t) % 400) - 1
  {
    YearLengths(MarchYear(t) % 400);
    LeapPeriod(t.y);
  }

  lemma NextYear(y: int)
    ensures (y + 1) / 400 * 146097 + YearStart((y + 1) % 400) == y / 400 * 146097 + YearStart(y % 400) + YearLength(y % 400)
  {
    if y % 400 == 399 {
      assert (y + 1) / 400 == y / 400 + 1;
    } else {
      assert (y + 1) / 400 == y / 400 && (y + 1) % 400 == y % 400 + 1;
    }
  }

  lemma EpochIsDayZero()
    ensures CivilFromDays(0) == Date(1970, 1, 1)
  {
    assert DaysFromCivil(Date(1970, 1, 1)) == 0;
    EveryDateIsReached(Date(1970, 1, 1));
  }

  /** Day 0 is 1970-01-01, and each day count is followed by the next calendar day: these two
      facts determine the date of every integer. */
  lemma DaysFollowTheCalendar(z: int)
    ensures CivilFromDays(0) == Date(1970, 1, 1)
    ensures CivilFromDays(z + 1) == NextDay(CivilFromDays(z))
  {
    hide CivilFromDays, DaysFromCivil, NextDay;
    EpochIsDayZero();
    EveryDayHasADate(z);
    NextDayCounts(CivilFromDays(z));
    EveryDateIsReached(NextDay(CivilFromDays(z)));
  }

  lemma {:induction false} StrictlyIncreasing(a: int, b: int)
    requires a < b
    ensures Before(CivilFromDays(a), CivilFromDays(b))
    decreases b - a
  {
    hide CivilFromDays;
    DaysFollowTheCalendar(b - 1);
    EveryDayHasADate(b - 1);
    if a < b - 1 {
      StrictlyIncreasing(a, b - 1);
    }
  }

  /** The generated client's calendar agrees from 1970 on. */
  lemma UnsignedAgrees(days: nat)
    ensures CivilUnsigned(days) == CivilFromDays(days)
  {
    EraOf((days + 719468) / 146097, (days + 719468) % 146097);
  }

  // ---------- timestamps, dates and times -------------------------------------------

  const PG_EPOCH_DAYS_FROM_UNIX := 10957
  const MICROS_PER_DAY := 86_400_000_000

  /** A big-endian two's-complement integer. */
  function Signed(b: seq<Byte>): int
    requires b != []
  {
    if |b| == 1 then (if b[0] >= 128 then b[0] as int - 256 else b[0] as int)
    else Signed(b[..|b| - 1]) * 256 + b[|b| - 1] as int
  }

  /** It is read back from any width it fits. */
  lemma {:induction false} SignedReadsBack(n: int, width: nat)
    requires width > 0 && Wire.Fits(n, width)
    ensures Signed(Wire.BigEndian(n, width)) == n
    decreases width
  {
    var b := Wire.BigEndian(n, width);
    if width == 1 {
      assert b == [(n % 256) as Byte];
    } else {
      Wire.FitsShorter(n, width);
      SignedReadsBack(n / 256, width - 1);
      assert b[..width - 1] == Wire.BigEndian(n / 256, width - 1);
    }
  }

  datatype Time = Time(hh: int, mm: int, ss: int, frac: int)

  function TimeOf(micros: nat): Time {
    var secs := micros / 1_000_000;
    Time(secs / 3600, secs % 3600 / 60, secs % 60, micros % 1_000_000)
  }

  function MicrosOf(t: Time): int { ((t.hh * 60 + t.mm) * 60 + t.ss) * 1_000_000 + t.frac }

  /** The fields are a time of day and recombine to the input. */
  lemma TimeRecombines(micros: nat)
    ensures var t := TimeOf(micros);
            MicrosOf(t) == micros && 0 <= t.mm < 60 && 0 <= t.ss < 60 && 0 <= t.frac < 1_000_000
            && (micros < MICROS_PER_DAY ==> 0 <= t.hh < 24)
  {
    var secs := micros / 1_000_000;
    assert secs % 60 == secs % 3600 % 60 by {
      SecondsOfHour(secs);
    }
  }

  lemma SecondsOfHour(secs: nat)
    ensures secs % 3600 % 60 == secs % 60
  {
    var h := secs / 3600;
    assert secs == 60 * (60 * h) + secs % 3600;
    Mod60(60 * h, secs % 3600);
  }

  lemma Mod60(k: int, w: int)
    ensures (60 * k + w) % 60 == w % 60
  {
  }

  /** The date and time a PostgreSQL timestamp counts to. */
  function TimestampOf(micros: int): (Date, Time) {
    (CivilFromDays(micros / MICROS_PER_DAY + PG_EPOCH_DAYS_FROM_UNIX), TimeOf(micros % MICROS_PER_DAY))
  }

  /** A valid date and time of day, recombining to the instant, before or after the epoch alike. */
  lemma TimestampRecombines(micros: int)
    ensures var (date, time) := TimestampOf(micros);
            && Valid(date) && 0 <= time.hh < 24
            && (DaysFromCivil(date) - PG_EPOCH_DAYS_FROM_UNIX) * MICROS_PER_DAY + MicrosOf(time) == micros
  {
    hide CivilFromDays, DaysFromCivil, TimeOf, MicrosOf;
    EveryDayHasADate(micros / MICROS_PER_DAY + PG_EPOCH_DAYS_FROM_UNIX);
    TimeRecombines(micros % MICROS_PER_DAY);
  }

  function DateText(t: Date): string {
    PaddedInt(t.y, 4) + "-" + PaddedInt(t.m, 2) + "-" + PaddedInt(t.d, 2)
  }

  function ClockText(hh: int, mm: int, ss: int): string {
    PaddedInt(hh, 2) + ":" + PaddedInt(mm, 2) + ":" + PaddedInt(ss, 2)
  }

  function TimeText(t: Time): string {
    ClockText(t.hh, t.mm, t.ss) + (if t.frac != 0 then "." + PaddedInt(t.frac, 6) else "")
  }

  function TimestampText(t: (Date, Time)): string { DateText(t.0) + " " + TimeText(t.1) + "+00" }

  /** The server counts from the start of the year 2000. */
  lemma EpochIsTwoThousand()
    ensures PG_EPOCH_DAYS_FROM_UNIX == DaysFromCivil(Date(2000, 1, 1))
    ensures TimestampOf(0) == (Date(2000, 1, 1), Time(0, 0, 0, 0))
  {
    hide CivilFromDays, DaysFromCivil;
    CountOfTwoThousand();
    assert Valid(Date(2000, 1, 1));
    EveryDateIsReached(Date(2000, 1, 1));
  }

  lemma CountOfTwoThousand()
    ensures DaysFromCivil(Date(2000, 1, 1)) == 10957
  {
  }

  method PgTimestamp(b: seq<Byte>) returns (s: string)
    ensures |b| != 8 ==> s == Hex(b)
    ensures |b| == 8 ==> s == TimestampText(TimestampOf(Signed(b)))
  {
    hide CivilFromDays, PaddedInt, Signed, DateText, ClockText;
    if |b| != 8 {
      return Hex(b);
    }
    var micros := Signed(b);
    var days, tod := micros / MICROS_PER_DAY, micros % MICROS_PER_DAY;
    var date := CivilFromDays(days + PG_EPOCH_DAYS_FROM_UNIX);
    var secs, frac := tod / 1_000_000, tod % 1_000_000;
    var hh, mm, ss := secs / 3600, (secs % 3600) / 60, secs % 60;
    s := DateText(date) + " " + ClockText(hh, mm, ss);
    if frac != 0 {
      s := s + ("." + PaddedInt(frac, 6));
    }
    assert s == DateText(date) + " " + TimeText(Time(hh, mm, ss, frac));
    s := s + "+00";
  }

  method PgDate(b: seq<Byte>) returns (s: string)
    ensures |b| != 4 ==> s == Hex(b)
    ensures |b| == 4 ==> s == DateText(CivilFromDays(Signed(b) + PG_EPOCH_DAYS_FROM_UNIX))
  {
    hide CivilFromDays, DateText, Signed;
    if |b| != 4 {
      return Hex(b);
    }
    return DateText(CivilFromDays(Signed(b) + PG_EPOCH_DAYS_FROM_UNIX));
  }

  function Negated(t: Time): Time { Time(-t.hh, -t.mm, -t.ss, -t.frac) }

  /** A time of day. A negative one, which no server sends, has its sign on every field. */
  method PgTime(b: seq<Byte>) returns (s: string)
    ensures |b| != 8 ==> s == Hex(b)
    ensures |b| == 8 && Signed(b) >= 0 ==> s == TimeText(TimeOf(Signed(b)))
    ensures |b| == 8 && Signed(b) < 0 ==> s == TimeText(Negated(TimeOf(-Signed(b))))
  {
    hide PaddedInt, Signed, ClockText;
    if |b| != 8 {
      return Hex(b);
    }
    var micros := Signed(b);
    var secs, frac := TruncDiv(micros, 1_000_000), TruncRem(micros, 1_000_000);
    var hh, mm, ss := TruncDiv(secs, 3600), TruncDiv(TruncRem(secs, 3600), 60), TruncRem(secs, 60);
    if micros >= 0 {
      assert Time(hh, mm, ss, frac) == TimeOf(micros);
    } else {
      assert Time(hh, mm, ss, frac) == Negated(TimeOf(-micros));
    }
    s := ClockText(hh, mm, ss);
    if frac != 0 {
      s := s + ("." + PaddedInt(frac, 6));
    }
  }

  lemma TwoWide(n: int)
    requires 0 <= n < 100
    ensures |PaddedInt(n, 2)| == 2 && AllDigits(PaddedInt(n, 2))
  {
    assert Pow10(2) == 100;
  }

  lemma SixWide(n: int)
    requires 0 <= n < 1_000_000
    ensures |PaddedInt(n, 6)| == 6 && AllDigits(PaddedInt(n, 6))
  {
    assert Pow10(6) == 1_000_000;
  }

  /** Different instants have different texts, so a cursor's timestamp compares exactly. */
  lemma TimestampTextFaithful(a: int, b: int)
    ensures TimestampText(TimestampOf(a)) == TimestampText(TimestampOf(b)) ==> a == b
  {
    hide TimestampOf, TimeText, DateText, DaysFromCivil, MicrosOf;
    if TimestampText(TimestampOf(a)) == TimestampText(TimestampOf(b)) {
      var ta, tb := TimestampOf(a), TimestampOf(b);
      TimestampRecombines(a);
      TimestampRecombines(b);
      InRangeFields(a);
      InRangeFields(b);
      SameCut(DateText(ta.0) + " " + TimeText(ta.1), "+00", DateText(tb.0) + " " + TimeText(tb.1), "+00");
      TextsFaithful(ta.0, ta.1, tb.0, tb.1);
    }
  }

  predicate TimeInRange(t: Time) { 0 <= t.hh < 24 && 0 <= t.mm < 60 && 0 <= t.ss < 60 && 0 <= t.frac < 1_000_000 }

  lemma InRangeFields(micros: int)
    ensures TimeInRange(TimestampOf(micros).1)
  {
    TimeRecombines(micros % MICROS_PER_DAY);
  }

  lemma TextsFaithful(da: Date, ta: Time, db: Date, tb: Time)
    requires Valid(da) && Valid(db) && TimeInRange(ta) && TimeInRange(tb)
    ensures DateText(da) + " " + TimeText(ta) == DateText(db) + " " + TimeText(tb) ==> da == db && ta == tb
  {
    hide DateText, TimeText;
    if DateText(da) + " " + TimeText(ta) == DateText(db) + " " + TimeText(tb) {
      TimeWidth(ta);
      TimeWidth(tb);
      var s, t := DateText(da) + " " + TimeText(ta), DateText(db) + " " + TimeText(tb);
      assert s[|s| - 7] == TimeText(ta)[|TimeText(ta)| - 7] && t[|t| - 7] == TimeText(tb)[|TimeText(tb)| - 7];
      SameCut(DateText(da) + " ", TimeText(ta), DateText(db) + " ", TimeText(tb));
      SameCut(DateText(da), " ", DateText(db), " ");
      DateFaithful(da, db);
      TimeFaithful(ta, tb);
    }
  }

  lemma DateFaithful(a: Date, b: Date)
    requires Valid(a) && Valid(b)
    ensures DateText(a) == DateText(b) ==> a == b
  {
    hide PaddedInt;
    if DateText(a) == DateText(b) {
      TwoWide(a.m);
      TwoWide(a.d);
      TwoWide(b.m);
      TwoWide(b.d);
      SameCut(PaddedInt(a.y, 4) + "-" + PaddedInt(a.m, 2) + "-", PaddedInt(a.d, 2), PaddedInt(b.y, 4) + "-" + PaddedInt(b.m, 2) + "-", PaddedInt(b.d, 2));
      SameCut(PaddedInt(a.y, 4) + "-" + PaddedInt(a.m, 2), "-", PaddedInt(b.y, 4) + "-" + PaddedInt(b.m, 2), "-");
      SameCut(PaddedInt(a.y, 4) + "-", PaddedInt(a.m, 2), PaddedInt(b.y, 4) + "-", PaddedInt(b.m, 2));
      SameCut(PaddedInt(a.y, 4), "-", PaddedInt(b.y, 4), "-");
      PaddedIntInjective(a.y, b.y, 4);
      PaddedIntInjective(a.m, b.m, 2);
      PaddedIntInjective(a.d, b.d, 2);
    }
  }

  lemma TimeFaithful(a: Time, b: Time)
    requires TimeInRange(a) && TimeInRange(b) && (a.frac != 0 <==> b.frac != 0)
    ensures TimeText(a) == TimeText(b) ==> a == b
  {
    hide PaddedInt;
    if TimeText(a) == TimeText(b) {
      if a.frac != 0 {
        SixWide(a.frac);
        SixWide(b.frac);
        SameCut(ClockText(a.hh, a.mm, a.ss), "." + PaddedInt(a.frac, 6), ClockText(b.hh, b.mm, b.ss), "." + PaddedInt(b.frac, 6));
        SameCut(".", PaddedInt(a.frac, 6), ".", PaddedInt(b.frac, 6));
        PaddedIntInjective(a.frac, b.frac, 6);
      } else {
        SameCut(ClockText(a.hh, a.mm, a.ss), "", ClockText(b.hh, b.mm, b.ss), "");
      }
      ClockFaithful(a, b);
    }
  }

  lemma ClockFaithful(a: Time, b: Time)
    requires TimeInRange(a) && TimeInRange(b)
    ensures ClockText(a.hh, a.mm, a.ss) == ClockText(b.hh, b.mm, b.ss) ==> a.hh == b.hh && a.mm == b.mm && a.ss == b.ss
  {
    hide PaddedInt;
    if ClockText(a.hh, a.mm, a.ss) == ClockText(b.hh, b.mm, b.ss) {
      TwoWide(a.hh);
      TwoWide(b.hh);
      TwoWide(a.mm);
      TwoWide(b.mm);
      TwoWide(a.ss);
      TwoWide(b.ss);
      SameCut(PaddedInt(a.hh, 2) + ":" + PaddedInt(a.mm, 2) + ":", PaddedInt(a.ss, 2), PaddedInt(b.hh, 2) + ":" + PaddedInt(b.mm, 2) + ":", PaddedInt(b.ss, 2));
      SameCut(PaddedInt(a.hh, 2) + ":" + PaddedInt(a.mm, 2), ":", PaddedInt(b.hh, 2) + ":" + PaddedInt(b.mm, 2), ":");
      SameCut(PaddedInt(a.hh, 2) + ":", PaddedInt(a.mm, 2), PaddedInt(b.hh, 2) + ":", PaddedInt(b.mm, 2));
      SameCut(PaddedInt(a.hh, 2), ":", PaddedInt(b.hh, 2), ":");
      PaddedIntInjective(a.hh, b.hh, 2);
      PaddedIntInjective(a.mm, b.mm, 2);
      PaddedIntInjective(a.ss, b.ss, 2);
    }
  }

  lemma TimeWidth(t: Time)
    requires TimeInRange(t)
    ensures |TimeText(t)| >= 8
    ensures TimeText(t)[|TimeText(t)| - 7] == '.' <==> t.frac != 0
    ensures t.frac != 0 ==> |TimeText(t)| == 15
    ensures t.frac == 0 ==> |TimeText(t)| == 8
  {
    TwoWide(t.hh);
    TwoWide(t.mm);
    TwoWide(t.ss);
    SixWide(t.frac);
    hide PaddedInt;
    if t.frac == 0 {
      assert TimeText(t)[1] == PaddedInt(t.hh, 2)[1];
    }
  }
}
