/**
 * Naive local date-times as `datetime` represents them, the three text forms
 * the source writes (`strftime("%Y%m%d_%H%M%S")`, `strftime("%Y-%m-%d %H:%M:%S")`
 * and `isoformat()`), and the reading of a 14-digit stamp with
 * `strptime(..., "%Y%m%d%H%M%S")`.
 */
module Clock {
  import opened Wrappers
  import opened Text

  datatype DateTime = DateTime(year: int, month: int, day: int, hour: int, minute: int, second: int, micro: int)

  predicate IsLeap(y: int) {
    y % 4 == 0 && (y % 100 != 0 || y % 400 == 0)
  }

  function DaysInMonth(y: int, m: int): (n: int)
    requires 1 <= m <= 12
    ensures 28 <= n <= 31
  {
    if m == 2 then (if IsLeap(y) then 29 else 28)
    else if m == 4 || m == 6 || m == 9 || m == 11 then 30
    else 31
  }

  /** What the `datetime` constructor accepts (leap seconds are refused). */
  predicate ValidDateTime(t: DateTime) {
    1 <= t.year <= 9999 && 1 <= t.month <= 12 && 1 <= t.day <= DaysInMonth(t.year, t.month)
    && 0 <= t.hour < 24 && 0 <= t.minute < 60 && 0 <= t.second < 60 && 0 <= t.micro < 1000000
  }

  /** Days of year `y` before the first of month `m` (`m == 13`: the whole year). */
  function DaysBeforeMonth(y: int, m: int): nat
    requires 1 <= m <= 13
  {
    if m == 1 then 0 else DaysBeforeMonth(y, m - 1) + DaysInMonth(y, m - 1)
  }

  /** Days of the proleptic Gregorian calendar before 1 January of year `y`. */
  function DaysBeforeYear(y: int): int
    requires y >= 1
  {
    var p := y - 1;
    p * 365 + p / 4 - p / 100 + p / 400
  }

  /** `t.toordinal()`: 1 January of year 1 is day 1. */
  function Ordinal(t: DateTime): int
    requires ValidDateTime(t)
  {
    DaysBeforeYear(t.year) + DaysBeforeMonth(t.year, t.month) + t.day
  }

  /**
   * The microsecond count on which `datetime` comparison and `datetime -
   * timedelta` operate.
   */
  function Micros(t: DateTime): int
    requires ValidDateTime(t)
  {
    (((Ordinal(t) * 24 + t.hour) * 60 + t.minute) * 60 + t.second) * 1000000 + t.micro
  }

  /** `datetime` order: field by field, the year first. */
  predicate Before(a: DateTime, b: DateTime) {
    a.year < b.year || (a.year == b.year && (a.month < b.month || (a.month == b.month &&
    (a.day < b.day || (a.day == b.day && (a.hour < b.hour || (a.hour == b.hour &&
    (a.minute < b.minute || (a.minute == b.minute && (a.second < b.second || (a.second == b.second &&
    a.micro < b.micro)))))))))))
  }

  // ---------------------------------------------------------------------------
  // The microsecond count orders date-times as the calendar does.
  // ---------------------------------------------------------------------------

  lemma {:induction false} DaysBeforeMonthMono(y: int, m: int, n: int)
    requires 1 <= m <= n <= 13
    ensures DaysBeforeMonth(y, m) <= DaysBeforeMonth(y, n)
    decreases n - m
  {
    if m < n {
      DaysBeforeMonthMono(y, m, n - 1);
    }
  }

  lemma {:induction false} DaysInYear(y: int)
    ensures DaysBeforeMonth(y, 13) == if IsLeap(y) then 366 else 365
  {
    var f := DaysInMonth(y, 2);
    assert DaysBeforeMonth(y, 2) == 31;
    assert DaysBeforeMonth(y, 3) == 31 + f;
    assert DaysBeforeMonth(y, 4) == 62 + f;
    assert DaysBeforeMonth(y, 5) == 92 + f;
    assert DaysBeforeMonth(y, 6) == 123 + f;
    assert DaysBeforeMonth(y, 7) == 153 + f;
    assert DaysBeforeMonth(y, 8) == 184 + f;
    assert DaysBeforeMonth(y, 9) == 215 + f;
    assert DaysBeforeMonth(y, 10) == 245 + f;
    assert DaysBeforeMonth(y, 11) == 276 + f;
    assert DaysBeforeMonth(y, 12) == 306 + f;
  }

  /** `(p + 1) / k` exceeds `p / k` by one exactly when `k` divides `p + 1`. */
  lemma {:induction false} DivStep(p: nat, k: nat)
    requires k == 4 || k == 100 || k == 400
    ensures (p + 1) / k == p / k + (if (p + 1) % k == 0 then 1 else 0)
  {
  }

  lemma {:induction false} NextYear(y: int)
    requires y >= 1
    ensures DaysBeforeYear(y + 1) == DaysBeforeYear(y) + DaysBeforeMonth(y, 13)
  {
    var p := y - 1;
    DivStep(p, 4);
    DivStep(p, 100);
    DivStep(p, 400);
    DaysInYear(y);
    assert (p + 1) % 4 == y % 4 && (p + 1) % 100 == y % 100 && (p + 1) % 400 == y % 400;
  }

  lemma {:induction false} DaysBeforeYearMono(y: int, z: int)
    requires 1 <= y <= z
    ensures DaysBeforeYear(y) + DaysBeforeMonth(y, 13) <= DaysBeforeYear(z + 1)
    decreases z - y
  {
    NextYear(z);
    if y < z {
      DaysBeforeYearMono(y, z - 1);
    } else {
      assert y == z;
    }
  }

  /** A day of the year lies within its year, and a day of the month within its month. */
  lemma {:induction false} DayWithinYear(t: DateTime)
    requires ValidDateTime(t)
    ensures DaysBeforeMonth(t.year, t.month) + t.day <= DaysBeforeMonth(t.year, t.month + 1)
    ensures DaysBeforeMonth(t.year, t.month) + t.day <= DaysBeforeMonth(t.year, 13)
  {
    DaysBeforeMonthMono(t.year, t.month + 1, 13);
  }

  lemma {:induction false} OrdinalOrder(a: DateTime, b: DateTime)
    requires ValidDateTime(a) && ValidDateTime(b)
    requires a.year < b.year || (a.year == b.year && (a.month < b.month || (a.month == b.month && a.day < b.day)))
    ensures Ordinal(a) < Ordinal(b)
  {
    DayWithinYear(a);
    if a.year < b.year {
      DaysBeforeYearMono(a.year, b.year - 1);
    } else if a.month < b.month {
      DaysBeforeMonthMono(a.year, a.month + 1, b.month);
    }
  }

  lemma {:induction false} MicrosOfDay(t: DateTime)
    requires ValidDateTime(t)
    ensures Ordinal(t) * 86400000000 <= Micros(t) < (Ordinal(t) + 1) * 86400000000
  {
  }

  /** Comparing date-times is comparing their microsecond counts. */
  lemma {:induction false} MicrosOrder(a: DateTime, b: DateTime)
    requires ValidDateTime(a) && ValidDateTime(b)
    ensures Before(a, b) <==> Micros(a) < Micros(b)
    ensures a == b <==> Micros(a) == Micros(b)
  {
    if Before(a, b) {
      BeforeMicros(a, b);
    } else if a != b {
      assert Before(b, a);
      BeforeMicros(b, a);
    }
  }

  lemma {:induction false} BeforeMicros(a: DateTime, b: DateTime)
    requires ValidDateTime(a) && ValidDateTime(b) && Before(a, b)
    ensures Micros(a) < Micros(b)
  {
    MicrosOfDay(a);
    MicrosOfDay(b);
    if a.year < b.year || (a.year == b.year && (a.month < b.month || (a.month == b.month && a.day < b.day))) {
      OrdinalOrder(a, b);
    } else {
      assert Ordinal(a) == Ordinal(b);
    }
  }

  // ---------------------------------------------------------------------------
  // Text forms.
  // ---------------------------------------------------------------------------

  /** `t` without its microseconds: what a stamp with one-second resolution keeps. */
  function Truncated(t: DateTime): DateTime {
    t.(micro := 0)
  }

  /** `strftime("%Y%m%d")`. */
  function DateDigits(t: DateTime): string
    requires ValidDateTime(t)
  {
    ZeroPad(t.year, 4) + ZeroPad(t.month, 2) + ZeroPad(t.day, 2)
  }

  /** `strftime("%H%M%S")`. */
  function TimeDigits(t: DateTime): string
    requires ValidDateTime(t)
  {
    ZeroPad(t.hour, 2) + ZeroPad(t.minute, 2) + ZeroPad(t.second, 2)
  }

  /** `strftime("%Y%m%d_%H%M%S")`, the stamp in log file names. */
  function FormatStamp(t: DateTime): string
    requires ValidDateTime(t)
  {
    DateDigits(t) + "_" + TimeDigits(t)
  }

  /** `strftime("%Y-%m-%d %H:%M:%S")`. */
  function FormatSeconds(t: DateTime): string
    requires ValidDateTime(t)
  {
    ZeroPad(t.year, 4) + "-" + ZeroPad(t.month, 2) + "-" + ZeroPad(t.day, 2) + " "
    + ZeroPad(t.hour, 2) + ":" + ZeroPad(t.minute, 2) + ":" + ZeroPad(t.second, 2)
  }

  /** `isoformat()`: the microseconds appear only when they are not zero. */
  function IsoFormat(t: DateTime): string
    requires ValidDateTime(t)
  {
    ZeroPad(t.year, 4) + "-" + ZeroPad(t.month, 2) + "-" + ZeroPad(t.day, 2) + "T"
    + ZeroPad(t.hour, 2) + ":" + ZeroPad(t.minute, 2) + ":" + ZeroPad(t.second, 2)
    + (if t.micro == 0 then "" else "." + ZeroPad(t.micro, 6))
  }

  /**
   * `datetime.strptime(s, "%Y%m%d%H%M%S")` of fourteen decimal digits.  Each
   * field takes at most two digits (the year four), so a stamp that parses is
   * read at fixed widths.  The stamp is refused (ValueError) unless the
   * positions `StrptimeLayout` names are ASCII and the fields form a real
   * date-time; `int()` reads every field, whatever block its digits are from.
   */
  function ParseStamp(s: string): (r: Option<DateTime>)
    requires |s| == 14 && AllDigits(s)
    ensures r.Some? ==> ValidDateTime(r.value) && r.value.micro == 0
    ensures r.Some? ==> StrptimeLayout(s)
  {
    var t := DateTime(DigitsValue(s[..4]), DigitsValue(s[4..6]), DigitsValue(s[6..8]),
                      DigitsValue(s[8..10]), DigitsValue(s[10..12]), DigitsValue(s[12..]), 0);
    if StrptimeLayout(s) && ValidDateTime(t) then Some(t) else None
  }

  /**
   * The positions of a fourteen-digit stamp that `%Y%m%d%H%M%S` reads with
   * `\d` may hold any decimal digit: the year's four, the second digit of a
   * day after `[12]`, of an hour after `[0-1]`, of a minute and of a second.
   * The rest are matched by ASCII ranges such as `0[1-9]` or `[0-5]`: a
   * non-ASCII digit there leaves the pattern a match shorter than the stamp,
   * or none.
   */
  predicate StrptimeLayout(s: string)
    requires |s| == 14
  {
    && IsAsciiDigit(s[4]) && IsAsciiDigit(s[5]) && IsAsciiDigit(s[6]) && IsAsciiDigit(s[8])
    && IsAsciiDigit(s[10]) && IsAsciiDigit(s[12])
    && (IsAsciiDigit(s[7]) || s[6] == '1' || s[6] == '2')
    && (IsAsciiDigit(s[9]) || s[8] == '0' || s[8] == '1')
  }

  lemma {:induction false} ZeroPadFits(n: nat, w: nat)
    requires n < Pow10(w)
    requires w > 0
    ensures |ZeroPad(n, w)| == w
  {
    NatToStringLength(n, w);
  }

  lemma {:induction false} DigitsFit(t: DateTime)
    requires ValidDateTime(t) && t.year >= 1000
    ensures |ZeroPad(t.year, 4)| == 4 && |ZeroPad(t.month, 2)| == 2 && |ZeroPad(t.day, 2)| == 2
    ensures |ZeroPad(t.hour, 2)| == 2 && |ZeroPad(t.minute, 2)| == 2 && |ZeroPad(t.second, 2)| == 2
  {
    assert Pow10(2) == 100;
    assert Pow10(4) == 10000;
    ZeroPadFits(t.year, 4);
    ZeroPadFits(t.month, 2);
    ZeroPadFits(t.day, 2);
    ZeroPadFits(t.hour, 2);
    ZeroPadFits(t.minute, 2);
    ZeroPadFits(t.second, 2);
  }

  /** The date digits are eight digits and the time digits six, for a four-digit year. */
  lemma {:induction false} StampShape(t: DateTime)
    requires ValidDateTime(t) && t.year >= 1000
    ensures |DateDigits(t)| == 8 && AllDigits(DateDigits(t)) && AsciiDigits(DateDigits(t))
    ensures |TimeDigits(t)| == 6 && AllDigits(TimeDigits(t)) && AsciiDigits(TimeDigits(t))
  {
    DigitsFit(t);
    AllDigitsAppend(ZeroPad(t.year, 4), ZeroPad(t.month, 2));
    AllDigitsAppend(ZeroPad(t.year, 4) + ZeroPad(t.month, 2), ZeroPad(t.day, 2));
    AllDigitsAppend(ZeroPad(t.hour, 2), ZeroPad(t.minute, 2));
    AllDigitsAppend(ZeroPad(t.hour, 2) + ZeroPad(t.minute, 2), ZeroPad(t.second, 2));
    AsciiDigitsAppend(ZeroPad(t.year, 4), ZeroPad(t.month, 2));
    AsciiDigitsAppend(ZeroPad(t.year, 4) + ZeroPad(t.month, 2), ZeroPad(t.day, 2));
    AsciiDigitsAppend(ZeroPad(t.hour, 2), ZeroPad(t.minute, 2));
    AsciiDigitsAppend(ZeroPad(t.hour, 2) + ZeroPad(t.minute, 2), ZeroPad(t.second, 2));
  }

  /** Reading back the digits a date-time is written with gives it back, to the second. */
  lemma {:induction false} StampRoundTrip(t: DateTime)
    requires ValidDateTime(t) && t.year >= 1000
    ensures |DateDigits(t) + TimeDigits(t)| == 14 && AllDigits(DateDigits(t) + TimeDigits(t))
    ensures ParseStamp(DateDigits(t) + TimeDigits(t)) == Some(Truncated(t))
  {
    StampShape(t);
    AllDigitsAppend(DateDigits(t), TimeDigits(t));
    AsciiDigitsAppend(DateDigits(t), TimeDigits(t));
    AsciiLayout(DateDigits(t) + TimeDigits(t));
    DigitsFit(t);
    StampSlices(ZeroPad(t.year, 4), ZeroPad(t.month, 2), ZeroPad(t.day, 2),
                ZeroPad(t.hour, 2), ZeroPad(t.minute, 2), ZeroPad(t.second, 2));
  }

  /** A stamp of ASCII digits has every position where strptime wants one. */
  lemma {:induction false} AsciiLayout(s: string)
    requires |s| == 14 && AsciiDigits(s)
    ensures StrptimeLayout(s)
  {
  }

  /** A year written in full-width digits is read like its ASCII digits. */
  lemma {:induction false} WideYearStamp()
    ensures AllDigits("２０２４0105093０00") && ParseStamp("２０２４0105093０00") == Some(DateTime(2024, 1, 5, 9, 30, 0, 0))
  {
    var s := "２０２４0105093０00";
    assert s == ("２０２４" + "01" + "05") + ("09" + "3０" + "00");
    StampSlices("２０２４", "01", "05", "09", "3０", "00");
    assert DigitsValue("２０２４") == 2024 by {
      assert "２０２４"[..3] == "２０２" && "２０２"[..2] == "２０" && "２０"[..1] == "２";
    }
    assert DigitsValue("3０") == 30 by { assert "3０"[..1] == "3"; }
  }

  /** A month digit outside ASCII is refused: `%m` is matched by `1[0-2]|0[1-9]|[1-9]`. */
  lemma {:induction false} WideMonthRefused()
    ensures AllDigits("2024０105093000") && ParseStamp("2024０105093000") == None
  {
    var u := "2024０105093000";
    assert !IsAsciiDigit(u[4]);
  }

  lemma {:induction false} StampSlices(a: string, b: string, c: string, d: string, e: string, f: string)
    requires |a| == 4 && |b| == 2 && |c| == 2 && |d| == 2 && |e| == 2 && |f| == 2
    ensures var s := (a + b + c) + (d + e + f);
      s[..4] == a && s[4..6] == b && s[6..8] == c && s[8..10] == d && s[10..12] == e && s[12..] == f
  {
  }

  /** Dropping the microseconds moves a date-time back by less than a second. */
  lemma {:induction false} TruncatedMicros(t: DateTime)
    requires ValidDateTime(t)
    ensures ValidDateTime(Truncated(t))
    ensures Micros(Truncated(t)) == Micros(t) - t.micro
    ensures Micros(t) - 1000000 < Micros(Truncated(t)) <= Micros(t)
  {
  }
}
