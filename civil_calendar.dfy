/**
 * ECMAScript time values and the proleptic Gregorian calendar in UTC.
 *
 * A time value is a whole number of milliseconds since 1970-01-01T00:00Z; a
 * `Date` holds one only when its magnitude is at most 8.64e15 (TimeClip),
 * otherwise it holds NaN. A day number counts whole UTC days since
 * 1970-01-01. `toISOString` writes the ISO 8601 extended calendar format
 * (ISO 8601:2004 section 4.1.2.2), with the expanded six-digit signed year of
 * section 4.1.2.4 outside 0000..9999.
 */
module CivilCalendar {
  import opened JsText

  const MsPerDay := 86400000
  /** The largest magnitude of a time value a `Date` can hold. */
  const MaxTime := 8640000000000000
  const MinDay := -100000000
  const MaxDay := 100000000

  predicate ValidTime(t: int) { -MaxTime <= t <= MaxTime }

  predicate ValidDay(z: int) { MinDay <= z <= MaxDay }

  /** The UTC day a time value falls on. */
  function DayOf(t: int): (z: int)
    ensures ValidTime(t) ==> ValidDay(z)
  {
    t / MsPerDay
  }

  /** The first millisecond of the UTC day of `t`: what `toUtcMidnight` is meant to give. */
  function DayStart(t: int): (m: int)
    ensures DayOf(m) == DayOf(t) && m <= t < m + MsPerDay && m % MsPerDay == 0
  {
    DayOf(t) * MsPerDay
  }

  datatype Civil = Civil(year: int, month: int, day: int)

  /** Days from 1 March of year 0 of a 400-year era to 1 March of its year `yoe`. */
  function YearStart(yoe: int): int { 365 * yoe + yoe / 4 - yoe / 100 }

  /** Days from 1 March to the first day of the `mp`-th month counted from March. */
  function MonthStart(mp: int): int { (153 * mp + 2) / 5 }

  /** The day number of a civil date: eras of 146097 days counted from 0000-03-01. */
  function DaysFromCivil(c: Civil): int
  {
    var y := if c.month <= 2 then c.year - 1 else c.year;
    var era := y / 400;
    var yoe := y - era * 400;
    var mp := if c.month > 2 then c.month - 3 else c.month + 9;
    era * 146097 + YearStart(yoe) + MonthStart(mp) + c.day - 1 - 719468
  }

  /**
   * Splits a day of a 400-year era into the March-based year of the era and
   * the day of that year: three centuries of 36524 days and a last one of
   * 36525, four-year groups of 1461 days, years of 365 days and a last one
   * of 366.
   */
  function SplitEra(doe: int): (r: (int, int))
    requires 0 <= doe < 146097
    ensures 0 <= r.0 <= 399 && 0 <= r.1 <= 365 && YearStart(r.0) + r.1 == doe
  {
    var cent := if doe / 36524 < 3 then doe / 36524 else 3;
    var doc := doe - 36524 * cent;
    var quad := doc / 1461;
    var doq := doc - 1461 * quad;
    var y4 := if doq / 365 < 3 then doq / 365 else 3;
    var yoe := 100 * cent + 4 * quad + y4;
    assert yoe / 4 == 25 * cent + quad;
    assert yoe / 100 == cent;
    (yoe, doq - 365 * y4)
  }

  /** Splits a day of a March-based year into the month counted from March and the day of the month. */
  function SplitYear(doy: int): (r: (int, int))
    requires 0 <= doy <= 365
    ensures 0 <= r.0 <= 11 && 1 <= r.1 <= 31 && MonthStart(r.0) + r.1 - 1 == doy
  {
    var mp := (5 * doy + 2) / 153;
    (mp, doy - MonthStart(mp) + 1)
  }

  /** The civil date of a day number: its era, its year of the era, its month and its day. */
  function CivilFromDays(z: int): (c: Civil)
    ensures 1 <= c.month <= 12 && 1 <= c.day <= 31
  {
    var s := z + 719468;
    var (yoe, doy) := SplitEra(s % 146097);
    var (mp, d) := SplitYear(doy);
    var m := if mp < 10 then mp + 3 else mp - 9;
    Civil(s / 146097 * 400 + yoe + (if m <= 2 then 1 else 0), m, d)
  }

  lemma EraOfYear(era: int, yoe: int)
    requires 0 <= yoe < 400
    ensures (era * 400 + yoe) / 400 == era
  {
  }

  /** `DaysFromCivil` of a date whose March-based year is year `yoe` of era `era`. */
  lemma DaysFromCivilSplit(c: Civil, era: int, yoe: int, mp: int)
    requires 0 <= yoe < 400
    requires (if c.month <= 2 then c.year - 1 else c.year) == era * 400 + yoe
    requires mp == if c.month > 2 then c.month - 3 else c.month + 9
    ensures DaysFromCivil(c) == era * 146097 + YearStart(yoe) + MonthStart(mp) + c.day - 1 - 719468
  {
    EraOfYear(era, yoe);
  }

  /** `DaysFromCivil` undoes `CivilFromDays`. */
  lemma CivilRoundTrip(z: int)
    ensures DaysFromCivil(CivilFromDays(z)) == z
  {
    var s := z + 719468;
    var era := s / 146097;
    var doe := s % 146097;
    var (yoe, doy) := SplitEra(doe);
    var (mp, d) := SplitYear(doy);
    var c := CivilFromDays(z);
    assert c.day == d;
    assert (if c.month <= 2 then c.year - 1 else c.year) == era * 400 + yoe;
    assert (if c.month > 2 then c.month - 3 else c.month + 9) == mp;
    DaysFromCivilSplit(c, era, yoe, mp);
    assert YearStart(yoe) + MonthStart(mp) + d - 1 == doe;
  }

  lemma CivilFromDaysInjective(a: int, b: int)
    requires CivilFromDays(a) == CivilFromDays(b)
    ensures a == b
  {
    CivilRoundTrip(a);
    CivilRoundTrip(b);
  }

  /** Every valid day lies in a year between -271821 and 275760. */
  lemma ValidDayYear(z: int)
    requires ValidDay(z)
    ensures -271821 <= CivilFromDays(z).year <= 275760
  {
    var s := z + 719468;
    assert -681 <= s / 146097 <= 689;
  }

  /** The year field of `toISOString`: four digits, or a sign and six digits outside 0000..9999. */
  function IsoYear(y: int): (s: string)
    requires -999999 <= y <= 999999
    ensures |s| == if 0 <= y <= 9999 then 4 else 7
    ensures 0 <= y <= 9999 ==> AllDigits(s) && DigitsValue(s) == y
    ensures y < 0 ==> s[0] == '-' && AllDigits(s[1..]) && DigitsValue(s[1..]) == -y
    ensures y > 9999 ==> s[0] == '+' && AllDigits(s[1..]) && DigitsValue(s[1..]) == y
  {
    assert Pow10(4) == 10000;
    assert Pow10(6) == 1000000;
    if 0 <= y <= 9999 then
      PadDigitsValue(y, 4);
      PadDigits(y, 4)
    else if y < 0 then
      PadDigitsValue(-y, 6);
      var s := "-" + PadDigits(-y, 6);
      assert s[1..] == PadDigits(-y, 6);
      s
    else
      PadDigitsValue(y, 6);
      var s := "+" + PadDigits(y, 6);
      assert s[1..] == PadDigits(y, 6);
      s
  }

  lemma IsoYearInjective(a: int, b: int)
    requires -999999 <= a <= 999999 && -999999 <= b <= 999999
    requires IsoYear(a) == IsoYear(b)
    ensures a == b
  {
    var s := IsoYear(a);
    if 0 <= a <= 9999 {
      PadDigitsInjective(a, b, 4);
    } else {
      assert s[0] == IsoYear(b)[0];
      var ma := if a < 0 then -a else a;
      var mb := if b < 0 then -b else b;
      assert s[1..] == PadDigits(ma, 6) && s[1..] == PadDigits(mb, 6);
      PadDigitsInjective(ma, mb, 6);
    }
  }

  /** The calendar-date part of `toISOString` for a day: `YYYY-MM-DD`, or `±YYYYYY-MM-DD`. */
  function DateString(z: int): (s: string)
    requires ValidDay(z)
  {
    ValidDayYear(z);
    var c := CivilFromDays(z);
    IsoYear(c.year) + "-" + PadDigits(c.month, 2) + "-" + PadDigits(c.day, 2)
  }

  /** Two valid days with the same date string are the same day. */
  lemma DateStringInjective(a: int, b: int)
    requires ValidDay(a) && ValidDay(b)
    requires DateString(a) == DateString(b)
    ensures a == b
  {
    ValidDayYear(a);
    ValidDayYear(b);
    var ca, cb := CivilFromDays(a), CivilFromDays(b);
    var ya, yb := IsoYear(ca.year), IsoYear(cb.year);
    var s := DateString(a);
    var n := |ya|;
    assert |yb| == n;
    assert s[..n] == ya && s[..n] == yb;
    IsoYearInjective(ca.year, cb.year);
    assert s[n + 1..n + 3] == PadDigits(ca.month, 2) == PadDigits(cb.month, 2);
    PadDigitsInjective(ca.month, cb.month, 2);
    assert s[n + 4..] == PadDigits(ca.day, 2) == PadDigits(cb.day, 2);
    PadDigitsInjective(ca.day, cb.day, 2);
    CivilFromDaysInjective(a, b);
  }

  /** `toISOString` of a valid time value: `YYYY-MM-DDTHH:mm:ss.sssZ`. */
  function IsoString(t: int): (s: string)
    requires ValidTime(t)
    ensures var date := DateString(DayOf(t));
      && |s| == |date| + 14
      && s[..|date|] == date
      && s[|date|] == 'T' && s[|s| - 1] == 'Z'
  {
    var ms := t % MsPerDay;
    var date := DateString(DayOf(t));
    var s := date + "T" + PadDigits(ms / 3600000, 2) + ":" + PadDigits(ms / 60000 % 60, 2)
      + ":" + PadDigits(ms / 1000 % 60, 2) + "." + PadDigits(ms % 1000, 3) + "Z";
    assert s[..|date|] == date;
    s
  }

  /** `toUtcDayKey` as written: the first ten characters of `toISOString`. */
  function UtcDayKey(t: int): string
    requires ValidTime(t)
  {
    IsoString(t)[..10]
  }

  /** The key as written is the date string cut to ten characters. */
  lemma UtcDayKeyCutsDate(t: int)
    requires ValidTime(t)
    ensures ValidDay(DayOf(t)) && |DateString(DayOf(t))| >= 10
    ensures UtcDayKey(t) == DateString(DayOf(t))[..10]
  {
    ValidDayYear(DayOf(t));
    var date := DateString(DayOf(t));
    var iso := IsoString(t);
    assert iso[..10] == iso[..|date|][..10];
  }

  /**
   * The day key the heatmap means: the whole calendar-date part of
   * `toISOString`, which is what `UtcDayKey` yields for years 0000..9999.
   */
  function DayKey(z: int): string
    requires ValidDay(z)
  {
    DateString(z)
  }

  /** Distinct valid days have distinct keys. */
  lemma DayKeyInjective(a: int, b: int)
    requires ValidDay(a) && ValidDay(b) && a != b
    ensures DayKey(a) != DayKey(b)
  {
    if DayKey(a) == DayKey(b) {
      DateStringInjective(a, b);
    }
  }

  /** For four-digit years the key as written and the intended key agree. */
  lemma UtcDayKeyFourDigitYears(t: int)
    requires ValidTime(t)
    requires 0 <= CivilFromDays(DayOf(t)).year <= 9999
    ensures ValidDay(DayOf(t)) && UtcDayKey(t) == DayKey(DayOf(t))
  {
    UtcDayKeyCutsDate(t);
    assert |DateString(DayOf(t))| == 10;
  }

  /**
   * Keys as written collide after year 9999: `toISOString` gives
   * "+010000-01-01T00:00:00.000Z" and "+010000-01-02T00:00:00.000Z" for the
   * first two days of year 10000, and both cut to "+010000-01".
   */
  lemma ExtendedYearKeysCollide()
    ensures ValidTime(2932897 * MsPerDay) && ValidTime(2932898 * MsPerDay)
    ensures UtcDayKey(2932897 * MsPerDay) == UtcDayKey(2932898 * MsPerDay) == "+010000-01"
    ensures DayOf(2932897 * MsPerDay) != DayOf(2932898 * MsPerDay)
  {
    FirstDaysOfYear10000(2932897, 1);
    FirstDaysOfYear10000(2932898, 2);
  }

  lemma FirstDaysOfYear10000(z: int, d: int)
    requires (z, d) == (2932897, 1) || (z, d) == (2932898, 2)
    ensures ValidTime(z * MsPerDay) && DayOf(z * MsPerDay) == z
    ensures UtcDayKey(z * MsPerDay) == "+010000-01"
  {
    assert ValidTime(z * MsPerDay) && DayOf(z * MsPerDay) == z by {
      if z == 2932897 {
        assert z * MsPerDay == 253402300800000;
      } else {
        assert z * MsPerDay == 253402387200000;
      }
    }
    DateOfYear10000(z, d);
    UtcDayKeyCutsDate(z * MsPerDay);
  }

  lemma DateOfYear10000(z: int, d: int)
    requires (z, d) == (2932897, 1) || (z, d) == (2932898, 2)
    ensures ValidDay(z) && DateString(z)[..10] == "+010000-01"
  {
    CivilOfYear10000(z, d);
    IsoYear10000();
    var c := CivilFromDays(z);
    assert DateString(z) == IsoYear(c.year) + "-" + PadDigits(c.month, 2) + "-" + PadDigits(c.day, 2);
  }

  lemma IsoYear10000()
    ensures IsoYear(10000) == "+010000" && PadDigits(1, 2) == "01"
  {
    assert PadDigits(0, 1) == "0";
    assert PadDigits(1, 2) == "01";
    assert PadDigits(10, 3) == "010";
    assert PadDigits(100, 4) == "0100";
    assert PadDigits(1000, 5) == "01000";
    assert PadDigits(10000, 6) == "010000";
  }

  lemma CivilOfYear10000(z: int, d: int)
    requires (z, d) == (2932897, 1) || (z, d) == (2932898, 2)
    ensures CivilFromDays(z) == Civil(10000, 1, d)
  {
    assert (z + 719468) / 146097 == 24 && (z + 719468) % 146097 == 146036 + d;
    assert SplitEra(146036 + d) == (399, 305 + d);
    assert SplitYear(305 + d) == (10, d);
  }

  // toUtcMidnight as written

  /** `MakeFullYear` of `Date.UTC`: a year from 0 to 99 stands for 1900 to 1999. */
  function FullYear(y: int): (r: int)
    ensures 0 <= y <= 99 ==> r == 1900 + y
    ensures !(0 <= y <= 99) ==> r == y
  {
    if 0 <= y <= 99 then 1900 + y else y
  }

  /** The day `Date.UTC(year, month - 1, day)` falls on: the first of the month of the full year, plus `day - 1` days. */
  function UtcDateDay(c: Civil): int
  {
    DaysFromCivil(Civil(FullYear(c.year), c.month, 1)) + c.day - 1
  }

  /** `toUtcMidnight` as written: `Date.UTC` of the UTC year, month and day of `t`. */
  function UtcMidnight(t: int): (m: int)
    ensures m % MsPerDay == 0
  {
    var day := UtcDateDay(CivilFromDays(DayOf(t)));
    DayMultiple(day);
    day * MsPerDay
  }

  lemma DayMultiple(day: int)
    ensures (day * MsPerDay) % MsPerDay == 0 && (day * MsPerDay) / MsPerDay == day
  {
  }

  /** Outside the years 0..99 the midnight as written is the start of the day of `t`. */
  lemma UtcMidnightOutsideTwoDigitYears(t: int)
    requires !(0 <= CivilFromDays(DayOf(t)).year <= 99)
    ensures UtcMidnight(t) == DayStart(t)
  {
    var c := CivilFromDays(DayOf(t));
    CivilRoundTrip(DayOf(t));
    DaysFromCivilDay(c);
    hide CivilFromDays, DaysFromCivil;
    DayMultiple(DayOf(t));
  }

  /** Only the day term of `DaysFromCivil` depends on the day of the month. */
  lemma DaysFromCivilDay(c: Civil)
    ensures DaysFromCivil(Civil(c.year, c.month, 1)) + c.day - 1 == DaysFromCivil(c)
  {
  }

  lemma CivilOfDay50(z: int)
    requires z == -701100
    ensures CivilFromDays(z) == Civil(50, 6, 15)
  {
    assert (z + 719468) / 146097 == 0 && (z + 719468) % 146097 == 18368;
    assert SplitEra(18368) == (50, 106);
    assert SplitYear(106) == (3, 15);
  }

  lemma CivilOfDay1950(z: int)
    requires z == -7140
    ensures CivilFromDays(z) == Civil(1950, 6, 15)
  {
    assert (z + 719468) / 146097 == 4 && (z + 719468) % 146097 == 127940;
    assert SplitEra(127940) == (350, 106);
    assert SplitYear(106) == (3, 15);
  }

  lemma FirstOfJune1950()
    ensures DaysFromCivil(Civil(1950, 6, 1)) == -7154
  {
  }

  /**
   * In the years 0..99 the midnight as written lies 1900 years later:
   * 0050-06-15T00:00Z (time value -60575040000000) gives the midnight of
   * 1950-06-15.
   */
  lemma TwoDigitYearMidnight()
    ensures DayOf(-60575040000000) == -701100 && CivilFromDays(-701100) == Civil(50, 6, 15)
    ensures DayOf(UtcMidnight(-60575040000000)) == -7140 && CivilFromDays(-7140) == Civil(1950, 6, 15)
    ensures DayOf(UtcMidnight(-60575040000000)) != DayOf(DayStart(-60575040000000))
  {
    hide CivilFromDays, DaysFromCivil;
    var t := -60575040000000;
    assert DayOf(t) == -701100;
    CivilOfDay50(-701100);
    CivilOfDay1950(-7140);
    assert UtcDateDay(Civil(50, 6, 15)) == DaysFromCivil(Civil(1950, 6, 1)) + 14;
    FirstOfJune1950();
    DayMultiple(-7140);
    assert UtcMidnight(t) == -7140 * MsPerDay;
  }
}
