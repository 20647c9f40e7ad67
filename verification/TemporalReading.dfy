/** Reading dates and times back as PostgreSQL does: what the decoders' texts mean to the server. */
module TemporalReading {
  import opened Wrappers
  import opened Sequences
  import opened Digits
  import opened Calendar

  /** The first instant past the server's range, the year 294277. */
  const END_TIMESTAMP := 9_223_371_331_200_000_000

  /** The last year a date may have. */
  const LAST_YEAR := 5_874_897

  // ---------- the reader ------------------------------------------------------------

  function ReadTwo(s: string): Option<int>
    requires |s| == 2
  {
    if AllDigits(s) then Some(Digits.Value(s)) else None
  }

  /** `YYYY-MM-DD`, four or more digits of a year of the common era: an earlier year is written with
      a `BC` suffix instead. */
  function ReadDate(s: string): Option<Date> {
    var at := IndexOf(s, '-');
    if |s| != at + 6 || at < 4 || !AllDigits(s[..at]) || s[at + 3] != '-' then None
    else match (ReadTwo(s[at + 1..at + 3]), ReadTwo(s[at + 4..]))
      case (Some(m), Some(d)) =>
        var date := Date(Digits.Value(s[..at]), m, d);
        if 1 <= date.y <= LAST_YEAR && Valid(date) then Some(date) else None
      case _ => None
  }

  /** A clock time the server takes, up to the end of the day. */
  predicate OnTheClock(t: Time) { TimeInRange(t) || t == Time(24, 0, 0, 0) }

  /** `HH:MM:SS`, and up to a microsecond in six digits. */
  function ReadTime(s: string): Option<Time> {
    if |s| < 8 || s[2] != ':' || s[5] != ':' then None
    else match (ReadTwo(s[..2]), ReadTwo(s[3..5]), ReadTwo(s[6..8]))
      case (Some(hh), Some(mm), Some(ss)) =>
        var frac := if |s| == 15 && s[8] == '.' && AllDigits(s[9..]) then Digits.Value(s[9..]) else 0;
        if (|s| == 8 || (|s| == 15 && s[8] == '.' && AllDigits(s[9..]))) && OnTheClock(Time(hh, mm, ss, frac))
        then Some(Time(hh, mm, ss, frac)) else None
      case _ => None
  }

  function ReadTimestamp(s: string): Option<int> {
    var at := IndexOf(s, ' ');
    if at == |s| || |s| < at + 4 || s[|s| - 3..] != "+00" then None
    else match (ReadDate(s[..at]), ReadTime(s[at + 1..|s| - 3]))
      case (Some(date), Some(time)) =>
        var micros := (DaysFromCivil(date) - DaysFromCivil(Date(2000, 1, 1))) * MICROS_PER_DAY + MicrosOf(time);
        if micros < END_TIMESTAMP then Some(micros) else None
      case _ => None
  }

  // ---------- dates -----------------------------------------------------------------

  lemma TwoReadsBack(n: int)
    requires 0 <= n < 100
    ensures |PaddedInt(n, 2)| == 2 && ReadTwo(PaddedInt(n, 2)) == Some(n)
  {
    TwoWide(n);
  }

  lemma NotADigit(s: string, c: char)
    requires AllDigits(s) && !IsDigit(c)
    ensures c !in s
  {
  }

  /** A date reads back exactly when its year is of the common era and in the server's range; an
      infinite date, the largest or smallest 32-bit day count, is neither. */
  lemma DateReadsBack(t: Date)
    requires Valid(t)
    ensures ReadDate(DateText(t)) == if 1 <= t.y <= LAST_YEAR then Some(t) else None
  {
    var y, m, d := PaddedInt(t.y, 4), PaddedInt(t.m, 2), PaddedInt(t.d, 2);
    TwoReadsBack(t.m);
    TwoReadsBack(t.d);
    DatePieces(t);
    if t.y < 0 {
      PaddedIntSign(t.y, 4);
      SignFirst(y + ['-'] + (m + "-" + d));
    } else {
      YearWidth(t.y);
      NotADigit(y, '-');
      IndexOfAfter(y, '-', m + "-" + d);
      hide PaddedInt, Valid, ReadTwo, IndexOf, DateText, ReadDate;
      PartsReadBack(DateText(t), t, y, m, d);
    }
  }

  /** The date the server sends as a day count is read back as that many days from 2000-01-01,
      exactly when its year is of the common era and in the server's range. */
  lemma DayCountReadsBack(days: int)
    ensures var t := CivilFromDays(days + PG_EPOCH_DAYS_FROM_UNIX);
            && ReadDate(DateText(t)) == (if 1 <= t.y <= LAST_YEAR then Some(t) else None)
            && DaysFromCivil(t) == DaysFromCivil(Date(2000, 1, 1)) + days
  {
    EpochIsTwoThousand();
    EveryDayHasADate(days + PG_EPOCH_DAYS_FROM_UNIX);
    hide CivilFromDays, DaysFromCivil;
    DateReadsBack(CivilFromDays(days + PG_EPOCH_DAYS_FROM_UNIX));
  }

  lemma DatePieces(t: Date)
    ensures DateText(t) == PaddedInt(t.y, 4) + ['-'] + (PaddedInt(t.m, 2) + "-" + PaddedInt(t.d, 2))
  {
    hide PaddedInt;
    Regroup(PaddedInt(t.y, 4) + "-", PaddedInt(t.m, 2), "-");
    Regroup(PaddedInt(t.y, 4) + "-", PaddedInt(t.m, 2) + "-", PaddedInt(t.d, 2));
  }

  lemma SignFirst(s: string)
    requires s != "" && s[0] == '-'
    ensures ReadDate(s) == None
  {
  }

  lemma PartsReadBack(s: string, t: Date, y: string, m: string, d: string)
    requires Valid(t) && t.y >= 0 && |y| >= 4 && AllDigits(y) && Digits.Value(y) == t.y
    requires |m| == 2 && |d| == 2 && ReadTwo(m) == Some(t.m) && ReadTwo(d) == Some(t.d)
    requires s == y + ['-'] + (m + "-" + d) && IndexOf(s, '-') == |y|
    ensures ReadDate(s) == if 1 <= t.y <= LAST_YEAR then Some(t) else None
  {
    hide Valid, ReadTwo, IndexOf, AllDigits, Digits.Value, ReadDate;
    DateParts(s, y, m, d);
    DateAt(s, |y|, t);
  }

  lemma DateAt(s: string, at: nat, t: Date)
    requires IndexOf(s, '-') == at && |s| == at + 6 && at >= 4 && s[at + 3] == '-'
    requires AllDigits(s[..at]) && Digits.Value(s[..at]) == t.y && Valid(t)
    requires ReadTwo(s[at + 1..at + 3]) == Some(t.m) && ReadTwo(s[at + 4..]) == Some(t.d)
    ensures ReadDate(s) == if 1 <= t.y <= LAST_YEAR then Some(t) else None
  {
    hide Valid, ReadTwo, IndexOf, AllDigits, Digits.Value;
  }

  lemma YearWidth(y: int)
    requires y >= 0
    ensures AllDigits(PaddedInt(y, 4)) && |PaddedInt(y, 4)| >= 4 && Digits.Value(PaddedInt(y, 4)) == y
  {
  }

  lemma DateParts(s: string, y: string, m: string, d: string)
    requires |m| == 2 && |d| == 2 && s == y + ['-'] + (m + "-" + d)
    ensures |s| == |y| + 6 && s[..|y|] == y && s[|y| + 1..|y| + 3] == m && s[|y| + 3] == '-' && s[|y| + 4..] == d
  {
  }

  // ---------- times -----------------------------------------------------------------

  /** The time a count of microseconds is written as. */
  function TimeSent(micros: int): Time { if micros >= 0 then TimeOf(micros) else Negated(TimeOf(-micros)) }

  /** A time reads back exactly when its count is of one day, its last moment included. */
  lemma TimeReadsBack(micros: int)
    ensures ReadTime(TimeText(TimeSent(micros))) ==
            if 0 <= micros <= MICROS_PER_DAY then Some(TimeSent(micros)) else None
  {
    var t := TimeSent(micros);
    if micros < 0 {
      SignSomewhere(-micros);
      SignedTime(t);
    } else {
      TimeRecombines(micros);
      EndOfDay(t);
      hide TimeOf, ReadTime, TimeText, MicrosOf, OnTheClock;
      if t.hh < 100 {
        FieldsReadBack(t);
      } else {
        LongHour(t);
      }
    }
  }

  lemma EndOfDay(t: Time)
    requires 0 <= t.hh && 0 <= t.mm < 60 && 0 <= t.ss < 60 && 0 <= t.frac < 1_000_000
    ensures OnTheClock(t) <==> MicrosOf(t) <= MICROS_PER_DAY
  {
  }

  lemma SignSomewhere(micros: nat)
    requires micros > 0
    ensures var t := Negated(TimeOf(micros)); t.hh < 0 || t.mm < 0 || t.ss < 0 || t.frac < 0
  {
    TimeRecombines(micros);
    hide TimeOf;
  }

  lemma SignedTime(t: Time)
    requires t.hh < 0 || t.mm < 0 || t.ss < 0 || t.frac < 0
    ensures ReadTime(TimeText(t)) == None
  {
    PaddedIntSign(t.hh, 2);
    PaddedIntSign(t.mm, 2);
    PaddedIntSign(t.ss, 2);
    PaddedIntSign(t.frac, 6);
    hide PaddedInt, ReadTime;
    Concatenated(PaddedInt(t.hh, 2), PaddedInt(t.mm, 2), PaddedInt(t.ss, 2), if t.frac != 0 then "." + PaddedInt(t.frac, 6) else "");
    assert t.frac < 0 ==> '-' == ("." + PaddedInt(t.frac, 6))[1];
    UnsignedOnly(TimeText(t));
  }

  lemma Concatenated(hh: string, mm: string, ss: string, frac: string)
    ensures forall c | c in hh || c in mm || c in ss || c in frac :: c in hh + ":" + mm + ":" + ss + frac
  {
  }

  lemma UnsignedOnly(s: string)
    ensures '-' in s ==> ReadTime(s) == None
  {
    if ReadTime(s).Some? {
      NotADigit(s[..2], '-');
      NotADigit(s[3..5], '-');
      NotADigit(s[6..8], '-');
      if |s| == 15 {
        NotADigit(s[9..], '-');
        assert s == s[..2] + ":" + s[3..5] + ":" + s[6..8] + "." + s[9..];
      } else {
        assert s == s[..2] + ":" + s[3..5] + ":" + s[6..8];
      }
    }
  }

  lemma LongHour(t: Time)
    requires t.hh >= 100
    ensures ReadTime(TimeText(t)) == None
  {
    var hh := PaddedInt(t.hh, 2);
    ThreeWide(t.hh);
    hide PaddedInt;
    assert TimeText(t)[2] == hh[2];
  }

  lemma ThreeWide(n: int)
    requires n >= 100
    ensures |PaddedInt(n, 2)| > 2 && AllDigits(PaddedInt(n, 2))
  {
    ValueBound(PaddedInt(n, 2));
    assert Pow10(2) == 100;
  }

  lemma FieldsReadBack(t: Time)
    requires 0 <= t.hh < 100 && 0 <= t.mm < 60 && 0 <= t.ss < 60 && 0 <= t.frac < 1_000_000
    ensures ReadTime(TimeText(t)) == if OnTheClock(t) then Some(t) else None
  {
    TwoReadsBack(t.hh);
    TwoReadsBack(t.mm);
    TwoReadsBack(t.ss);
    SixReadsBack(t.frac);
    hide PaddedInt, ReadTwo;
    var frac := if t.frac != 0 then "." + PaddedInt(t.frac, 6) else "";
    assert t.frac != 0 ==> frac[1..] == PaddedInt(t.frac, 6);
    ClockParts(PaddedInt(t.hh, 2), PaddedInt(t.mm, 2), PaddedInt(t.ss, 2), frac);
    hide AllDigits, Digits.Value, OnTheClock;
    PartsAreRead(TimeText(t), t, frac);
  }

  lemma PartsAreRead(s: string, t: Time, frac: string)
    requires |s| == 8 + |frac| && s[2] == ':' && s[5] == ':'
    requires ReadTwo(s[..2]) == Some(t.hh) && ReadTwo(s[3..5]) == Some(t.mm) && ReadTwo(s[6..8]) == Some(t.ss)
    requires if t.frac == 0 then frac == "" else
               |frac| == 7 && s[8] == '.' && AllDigits(s[9..]) && Digits.Value(s[9..]) == t.frac
    ensures ReadTime(s) == if OnTheClock(t) then Some(t) else None
  {
    hide ReadTwo, OnTheClock;
  }

  lemma SixReadsBack(n: int)
    requires 0 <= n < 1_000_000
    ensures |PaddedInt(n, 6)| == 6 && AllDigits(PaddedInt(n, 6)) && Digits.Value(PaddedInt(n, 6)) == n
  {
    SixWide(n);
  }

  lemma ClockParts(hh: string, mm: string, ss: string, frac: string)
    requires |hh| == 2 && |mm| == 2 && |ss| == 2
    ensures var s := hh + ":" + mm + ":" + ss + frac;
            && |s| == 8 + |frac| && s[2] == ':' && s[5] == ':'
            && s[..2] == hh && s[3..5] == mm && s[6..8] == ss
            && (frac != "" ==> s[8] == frac[0] && s[9..] == frac[1..])
  {
  }

  // ---------- timestamps ------------------------------------------------------------

  lemma NoSpace(t: Date)
    ensures ' ' !in DateText(t)
  {
    forall n: int, width: nat | width > 0
      ensures ' ' !in PaddedInt(n, width)
    {
    }
  }

  /** The text means the same instant to the server exactly for the years 1 to 294276: earlier years
      need another notation, and the two infinities are written as dates. */
  lemma TimestampReadsBack(micros: int)
    ensures ReadTimestamp(TimestampText(TimestampOf(micros))) ==
            if TimestampOf(micros).0.y >= 1 && micros < END_TIMESTAMP then Some(micros) else None
  {
    hide TimestampOf, DateText, TimeText, ReadDate, ReadTime, DaysFromCivil, MicrosOf;
    var (date, time) := TimestampOf(micros);
    EpochIsTwoThousand();
    TimestampRecombines(micros);
    InRangeFields(micros);
    DateReadsBack(date);
    FieldsReadBack(time);
    NoSpace(date);
    IndexOfAfter(DateText(date), ' ', TimeText(time) + "+00");
    TimestampParts(DateText(date), TimeText(time));
    NotNegative(time);
    if date.y > LAST_YEAR {
      FarYear(date);
    }
  }

  /** The range ends where the year 294277 begins. */
  lemma RangeEnds()
    ensures END_TIMESTAMP == (DaysFromCivil(Date(294277, 1, 1)) - DaysFromCivil(Date(2000, 1, 1))) * MICROS_PER_DAY
  {
    hide DaysFromCivil;
    CountOfTheEnd();
    CountOfTwoThousand();
  }

  lemma CountOfTheEnd()
    ensures DaysFromCivil(Date(294277, 1, 1)) == 10957 + 106751983
  {
  }

  lemma NotNegative(t: Time)
    requires TimeInRange(t)
    ensures MicrosOf(t) >= 0
  {
  }

  lemma FarYear(t: Date)
    requires Valid(t) && t.y > LAST_YEAR
    ensures (DaysFromCivil(t) - PG_EPOCH_DAYS_FROM_UNIX) * MICROS_PER_DAY >= END_TIMESTAMP
  {
    var y := MarchYear(t);
    assert y / 400 >= 14_687;
    DayOfYearFits(t);
    assert DaysFromCivil(t) >= 14_687 * 146_097 - 719_468;
  }

  lemma TimestampParts(date: string, time: string)
    ensures var s := date + " " + time + "+00";
            && s == date + [' '] + (time + "+00") && |s| == |date| + |time| + 4
            && s[..|date|] == date && s[|date| + 1..|s| - 3] == time && s[|s| - 3..] == "+00"
  {
    Regroup(date + " ", time, "+00");
  }

  /** Neither infinity, the largest and the smallest 64-bit value, is read back. */
  lemma InfinitiesAreLost(micros: int)
    requires micros == 0x7fff_ffff_ffff_ffff || micros == -0x8000_0000_0000_0000
    ensures ReadTimestamp(TimestampText(TimestampOf(micros))) == None
  {
    TimestampReadsBack(micros);
    if micros < 0 {
      BeforeTheEra(micros);
    }
  }

  lemma BeforeTheEra(micros: int)
    requires micros < -63_082_281_600_000_000 - 366 * MICROS_PER_DAY
    ensures TimestampOf(micros).0.y < 1
  {
    var day := micros / MICROS_PER_DAY + PG_EPOCH_DAYS_FROM_UNIX;
    EveryDayHasADate(day);
  }
}
