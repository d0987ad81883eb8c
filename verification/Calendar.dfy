/**
 * The timestamps a document is stamped with: `iso_from_unix` turns Unix
 * seconds into `YYYY-MM-DDTHH:MM:SSZ` by closed arithmetic on day numbers.
 * The reference is a calendar anyone can check: start at 1970-01-01 and go to
 * the next day, one day at a time.
 */
module Calendar {
  import opened Decimal

  /** The source's machine integers; every operation below is checked to fit. */
  newtype U64 = x: int | 0 <= x < 0x1_0000_0000_0000_0000
  newtype I64 = x: int | -0x8000_0000_0000_0000 <= x < 0x8000_0000_0000_0000

  datatype Date = Date(year: int, month: int, day: int)

  // ----- The simple calendar -----

  predicate Leap(year: int) {
    year % 4 == 0 && (year % 100 != 0 || year % 400 == 0)
  }

  function DaysInMonth(year: int, month: int): int {
    if month == 2 then (if Leap(year) then 29 else 28)
    else if month == 4 || month == 6 || month == 9 || month == 11 then 30
    else 31
  }

  predicate ValidDate(date: Date) {
    1 <= date.month <= 12 && 1 <= date.day <= DaysInMonth(date.year, date.month)
  }

  function NextDay(date: Date): Date {
    if date.day < DaysInMonth(date.year, date.month) then date.(day := date.day + 1)
    else if date.month < 12 then Date(date.year, date.month + 1, 1)
    else Date(date.year + 1, 1, 1)
  }

  /** The date `n` days after 1970-01-01, by stepping. */
  ghost function DateAfter(n: nat): Date {
    if n == 0 then Date(1970, 1, 1) else NextDay(DateAfter(n - 1))
  }

  // ----- The source's formulas -----

  /** The date part of `iso_from_unix`, in the source's own 64-bit steps. */
  function CivilFromDays(days: I64): Date
    requires 0 <= days <= 213_503_982_334_601
  {
    var z := days + 719_468;
    var era := z / 146_097;
    var doe := z % 146_097;
    var yoe := (doe - doe / 1_460 + doe / 36_524 - doe / 146_096) / 365;
    var y := yoe + era * 400;
    var doy := doe - (365 * yoe + yoe / 4 - yoe / 100);
    var mp := (5 * doy + 2) / 153;
    var d := doy - (153 * mp + 2) / 5 + 1;
    var m := if mp < 10 then mp + 3 else mp - 9;
    var y' := if m <= 2 then y + 1 else y;
    Date(y' as int, m as int, d as int)
  }

  /** `iso_from_unix`. */
  function IsoFromUnix(secs: U64): string {
    var days := (secs / 86_400) as I64;
    var rem := (secs % 86_400) as nat;
    var date := CivilFromDays(days);
    YearsArePositive(days as nat);
    Timestamp(Pad(date.year, 4), Pad(date.month, 2), Pad(date.day, 2),
              Pad(rem / 3_600, 2), Pad((rem % 3_600) / 60, 2), Pad(rem % 60, 2))
  }

  function Timestamp(y: string, mo: string, d: string, h: string, mi: string, s: string): string {
    y + "-" + mo + "-" + d + "T" + h + ":" + mi + ":" + s + "Z"
  }

  // ----- The formulas, one at a time, over the integers -----

  function YearOfEra(doe: int): int {
    (doe - doe / 1_460 + doe / 36_524 - doe / 146_096) / 365
  }

  /** Days of the 400-year era before its year `y` (years start in March). */
  function YearStart(y: int): int { 365 * y + y / 4 - y / 100 }

  /** A March-based year ends with the February of the next calendar year. */
  function YearLength(y: int): int {
    if Leap(y + 1) then 366 else 365
  }

  function MonthOf(doy: int): int {
    var mp := (5 * doy + 2) / 153;
    if mp < 10 then mp + 3 else mp - 9
  }

  function DayOf(doy: int): int {
    var mp := (5 * doy + 2) / 153;
    doy - (153 * mp + 2) / 5 + 1
  }

  function DateOf(era: int, yoe: int, doy: int): Date {
    Date(yoe + era * 400 + (if MonthOf(doy) <= 2 then 1 else 0), MonthOf(doy), DayOf(doy))
  }

  /** The division formula finds the year a day of the era lies in. */
  lemma YearOfEraIs(y: int, r: int)
    requires 0 <= y < 400 && 0 <= r < YearLength(y)
    ensures YearOfEra(YearStart(y) + r) == y
  {
    var c, q, k := y / 100, y % 100 / 4, y % 4;
    assert y == 100 * c + 4 * q + k;
    assert y / 4 == 25 * c + q;
    assert Leap(y + 1) <==> k == 3 && (q != 24 || c == 3);
    YearOfEraFromParts(c, q, k, r);
  }

  /** Centuries, four-year cycles, years and days of an era, and their quotients. */
  lemma YearOfEraFromParts(c: int, q: int, k: int, r: int)
    requires 0 <= c < 4 && 0 <= q < 25 && 0 <= k < 4
    requires 0 <= r < 365 || (r == 365 && k == 3 && (q != 24 || c == 3))
    ensures YearOfEra(36_524 * c + 1_461 * q + 365 * k + r) == 100 * c + 4 * q + k
  {
    var doe := 36_524 * c + 1_461 * q + 365 * k + r;
    assert doe / 1_460 == 25 * c + q + (if 24 * c + q + 365 * k + r >= 1_460 then 1 else 0);
    assert doe / 36_524 == c + (if 1_461 * q + 365 * k + r >= 36_524 then 1 else 0);
    assert doe / 146_096 == (if doe == 146_096 then 1 else 0);
  }

  lemma NextYearStart(y: int)
    requires 0 <= y < 400
    ensures YearStart(y) + YearLength(y) == if y == 399 then 146_097 else YearStart(y + 1)
  {
    assert (y + 1) / 4 == y / 4 + (if (y + 1) % 4 == 0 then 1 else 0);
    assert (y + 1) / 100 == y / 100 + (if (y + 1) % 100 == 0 then 1 else 0);
  }

  /** Every day of the era lies in one of its years. */
  lemma {:induction false} YearHolding(doe: int) returns (y: int, r: int)
    requires 0 <= doe < 146_097
    ensures 0 <= y < 400 && 0 <= r < YearLength(y) && doe == YearStart(y) + r
    decreases doe
  {
    if doe == 0 {
      y, r := 0, 0;
    } else {
      y, r := YearHolding(doe - 1);
      NextYearStart(y);
      if r + 1 < YearLength(y) {
        r := r + 1;
      } else {
        y, r := y + 1, 0;
      }
    }
  }

  lemma Mod4Shift(a: int, k: int)
    ensures (a + 4 * k) % 4 == a % 4
  {
    assert a + 4 * k == 4 * (a / 4 + k) + a % 4;
  }

  lemma Mod100Shift(a: int, k: int)
    ensures (a + 100 * k) % 100 == a % 100
  {
    assert a + 100 * k == 100 * (a / 100 + k) + a % 100;
  }

  lemma Mod400Shift(a: int, k: int)
    ensures (a + 400 * k) % 400 == a % 400
  {
    assert a + 400 * k == 400 * (a / 400 + k) + a % 400;
  }

  lemma LeapRepeats(era: int, y: int)
    ensures Leap(y + era * 400) == Leap(y)
  {
    Mod4Shift(y, 100 * era);
    Mod100Shift(y, 4 * era);
    Mod400Shift(y, era);
  }

  /** Within a March-based year, the next day of the year is the next date. */
  lemma NextDayOfYear(era: int, y: int, doy: int)
    requires 0 <= y < 400 && 0 <= doy < YearLength(y)
    ensures ValidDate(DateOf(era, y, doy))
    ensures doy + 1 < YearLength(y) ==> NextDay(DateOf(era, y, doy)) == DateOf(era, y, doy + 1)
    ensures doy + 1 == YearLength(y) ==> NextDay(DateOf(era, y, doy)) == DateOf(era, y + 1, 0)
  {
    LeapRepeats(era, y + 1);
    var mp := (5 * doy + 2) / 153;
    assert 0 <= mp <= 11;
    var next := (5 * (doy + 1) + 2) / 153;
    assert next == mp || next == mp + 1;
    var date := DateOf(era, y, doy);
    assert mp == 11 ==> date.month == 2 && date.year == y + 1 + era * 400;
  }

  /** The 64-bit steps and the integer formulas agree. */
  lemma CivilFormula(n: nat)
    requires n <= 213_503_982_334_601
    ensures var era, doe := (n + 719_468) / 146_097, (n + 719_468) % 146_097;
            CivilFromDays(n as I64) == DateOf(era, YearOfEra(doe), doe - YearStart(YearOfEra(doe)))
  {
  }

  /** The formulas compute the date of their day number. */
  lemma CivilParts(n: nat) returns (era: int, y: int, doy: int)
    requires n <= 213_503_982_334_601
    ensures 0 <= y < 400 && 0 <= doy < YearLength(y) && era >= 4
    ensures n + 719_468 == era * 146_097 + YearStart(y) + doy
    ensures CivilFromDays(n as I64) == DateOf(era, y, doy)
  {
    hide CivilFromDays, DateOf, YearOfEra, YearLength, YearStart;
    era := (n + 719_468) / 146_097;
    var doe := (n + 719_468) % 146_097;
    y, doy := YearHolding(doe);
    YearOfEraIs(y, doy);
    CivilFormula(n);
  }

  lemma DatesOfOneDay(n: int, e1: int, y1: int, d1: int, e2: int, y2: int, d2: int)
    requires 0 <= y1 < 400 && 0 <= d1 < YearLength(y1) && 0 <= y2 < 400 && 0 <= d2 < YearLength(y2)
    requires n == e1 * 146_097 + YearStart(y1) + d1 == e2 * 146_097 + YearStart(y2) + d2
    ensures e1 == e2 && y1 == y2 && d1 == d2
  {
    YearOfEraIs(y1, d1);
    YearOfEraIs(y2, d2);
    assert 0 <= YearStart(y1) + d1 < 146_097;
    assert 0 <= YearStart(y2) + d2 < 146_097;
  }

  lemma NextParts(n: int, e: int, y: int, d: int, e': int, y': int, d': int)
    requires 0 <= y < 400 && 0 <= d < YearLength(y) && 0 <= y' < 400 && 0 <= d' < YearLength(y')
    requires n == e * 146_097 + YearStart(y) + d
    requires n + 1 == e' * 146_097 + YearStart(y') + d'
    ensures DateOf(e', y', d') == NextDay(DateOf(e, y, d))
  {
    NextDayOfYear(e, y, d);
    NextYearStart(y);
    if d + 1 < YearLength(y) {
      DatesOfOneDay(n + 1, e, y, d + 1, e', y', d');
    } else if y + 1 < 400 {
      DatesOfOneDay(n + 1, e, y + 1, 0, e', y', d');
    } else {
      DatesOfOneDay(n + 1, e + 1, 0, 0, e', y', d');
      assert DateOf(e, 400, 0) == DateOf(e + 1, 0, 0);
    }
  }

  /** One more day gives the next date. */
  lemma CivilStep(n: nat)
    requires n + 1 <= 213_503_982_334_601
    ensures CivilFromDays((n + 1) as I64) == NextDay(CivilFromDays(n as I64))
  {
    var e, y, d := CivilParts(n);
    var e', y', d' := CivilParts(n + 1);
    NextParts(n + 719_468, e, y, d, e', y', d');
  }

  lemma Epoch()
    ensures CivilFromDays(0) == Date(1970, 1, 1)
  {
    var e, y, d := CivilParts(0);
    DatesOfOneDay(719_468, 4, 369, 306, e, y, d);
    hide CivilFromDays;
  }

  /**
   * The closed formulas are the calendar: for every day number a `u64` of
   * seconds can reach, they give the date reached by stepping from 1970-01-01.
   */
  lemma {:induction false} CivilIsTheCalendar(n: nat)
    requires n <= 213_503_982_334_601
    ensures CivilFromDays(n as I64) == DateAfter(n)
    ensures ValidDate(DateAfter(n))
  {
    hide CivilFromDays;
    YearsArePositive(n);
    if n == 0 {
      Epoch();
    } else {
      CivilIsTheCalendar(n - 1);
      CivilStep(n - 1);
    }
  }

  lemma YearsArePositive(n: nat)
    requires n <= 213_503_982_334_601
    ensures ValidDate(CivilFromDays(n as I64))
    ensures CivilFromDays(n as I64).year >= 1600
  {
    var e, y, d := CivilParts(n);
    NextDayOfYear(e, y, d);
  }

  lemma {:induction false} SteppingStaysAfter1970(n: nat)
    ensures DateAfter(n).year >= 1970
  {
    if n > 0 {
      SteppingStaysAfter1970(n - 1);
    }
  }

  /** No timestamp falls before 1970. */
  lemma NeverBefore1970(n: nat)
    requires n <= 213_503_982_334_601
    ensures CivilFromDays(n as I64).year >= 1970
  {
    CivilIsTheCalendar(n);
    SteppingStaysAfter1970(n);
  }

  // ----- The text -----

  /** The instant 10000-01-01T00:00:00Z. */
  const YEAR_10000: int := 253_402_300_800

  predicate AllDigits(s: string) {
    forall i :: 0 <= i < |s| ==> '0' <= s[i] <= '9'
  }

  /** The `date-time` grammar of section 5.6 of RFC 3339, in UTC and without a fraction. */
  predicate DateTimeShape(text: string) {
    && |text| == 20
    && AllDigits(text[0..4]) && text[4] == '-' && AllDigits(text[5..7]) && text[7] == '-'
    && AllDigits(text[8..10]) && text[10] == 'T' && AllDigits(text[11..13]) && text[13] == ':'
    && AllDigits(text[14..16]) && text[16] == ':' && AllDigits(text[17..19]) && text[19] == 'Z'
  }

  function DateIn(text: string): Date
    requires DateTimeShape(text)
  {
    Date(Value(text[0..4]), Value(text[5..7]), Value(text[8..10]))
  }

  function SecondOfDayIn(text: string): int
    requires DateTimeShape(text)
  {
    Value(text[11..13]) * 3_600 + Value(text[14..16]) * 60 + Value(text[17..19])
  }

  /** A `date-time` whose day exists (section 5.7) and whose clock time does. */
  predicate IsDateTime(text: string) {
    && DateTimeShape(text)
    && ValidDate(DateIn(text))
    && Value(text[11..13]) <= 23 && Value(text[14..16]) <= 59 && Value(text[17..19]) <= 59
  }

  lemma FourDigitYears(n: nat)
    requires n <= 213_503_982_334_601
    ensures CivilFromDays(n as I64).year <= 9_999 <==> n <= 2_932_896
  {
    var e, y, d := CivilParts(n);
    FourDigitYearParts(n + 719_468, e, y, d);
  }

  lemma FourDigitYearParts(z: int, e: int, y: int, d: int)
    requires 0 <= y < 400 && 0 <= d < YearLength(y) && z == e * 146_097 + YearStart(y) + d
    ensures DateOf(e, y, d).year <= 9_999 <==> z <= 3_652_364
  {
    NextYearStart(y);
    assert 0 <= YearStart(y) <= YearStart(399);
    assert MonthOf(d) <= 2 <==> d >= 306;
  }

  /** Six fields and their separators, read back field by field. */
  lemma TimestampFields(y: string, mo: string, d: string, h: string, mi: string, s: string, text: string)
    requires |y| >= 4 && |mo| == |d| == |h| == |mi| == |s| == 2
    requires text == Timestamp(y, mo, d, h, mi, s)
    ensures |text| == |y| + 16
    ensures |y| == 4 ==>
              && text[4] == text[7] == '-' && text[10] == 'T' && text[13] == text[16] == ':' && text[19] == 'Z'
              && text[0..4] == y && text[5..7] == mo && text[8..10] == d
              && text[11..13] == h && text[14..16] == mi && text[17..19] == s
  {
  }

  lemma TwoDigits(n: nat)
    requires n < 100
    ensures |Pad(n, 2)| == 2 && AllDigits(Pad(n, 2)) && Value(Pad(n, 2)) == n
  {
    assert Power10(2) == 100;
    PadExact(n, 2);
  }

  lemma FourDigits(n: nat)
    ensures AllDigits(Pad(n, 4)) && |Pad(n, 4)| >= 4
    ensures |Pad(n, 4)| == 4 <==> n < 10_000
    ensures n < 10_000 ==> Value(Pad(n, 4)) == n
  {
    assert Power10(4) == 10_000;
    if n < 10_000 {
      PadExact(n, 4);
    } else {
      DigitsLengthFrom(n, 4);
    }
  }

  lemma IsoParts(secs: U64)
    ensures var date := DateAfter((secs / 86_400) as nat);
            var rem := (secs % 86_400) as nat;
            && ValidDate(date) && date.year >= 0
            && (date.year <= 9_999 <==> secs as int < YEAR_10000)
            && IsoFromUnix(secs) == Timestamp(Pad(date.year, 4), Pad(date.month, 2), Pad(date.day, 2),
                                              Pad(rem / 3_600, 2), Pad(rem % 3_600 / 60, 2), Pad(rem % 60, 2))
  {
    var n := (secs / 86_400) as nat;
    YearsArePositive(n);
    FourDigitYears(n);
    CivilIsTheCalendar(n);
  }

  /**
   * The text is an RFC 3339 date-time exactly up to the year 9999, and then
   * it names the instant it was made from: its date is the calendar's and its
   * clock time the second of that day.
   */
  lemma IsoIsRfc3339(secs: U64)
    ensures IsDateTime(IsoFromUnix(secs)) <==> secs as int < YEAR_10000
    ensures secs as int < YEAR_10000 ==>
              && DateIn(IsoFromUnix(secs)) == DateAfter((secs / 86_400) as nat)
              && SecondOfDayIn(IsoFromUnix(secs)) == (secs % 86_400) as int
  {
    hide IsoFromUnix, Timestamp, Pad, Value, DateAfter;
    var text := IsoFromUnix(secs);
    IsoParts(secs);
    var date, rem := DateAfter((secs / 86_400) as nat), (secs % 86_400) as nat;
    var h, mi, s := rem / 3_600, rem % 3_600 / 60, rem % 60;
    FourDigits(date.year);
    TwoDigits(date.month);
    TwoDigits(date.day);
    TwoDigits(h);
    TwoDigits(mi);
    TwoDigits(s);
    TimestampFields(Pad(date.year, 4), Pad(date.month, 2), Pad(date.day, 2),
                    Pad(h, 2), Pad(mi, 2), Pad(s, 2), text);
    if date.year <= 9_999 {
      FieldsMeanInstant(text, date, rem);
    }
  }

  lemma FieldsMeanInstant(text: string, date: Date, rem: nat)
    requires ValidDate(date) && date.year >= 0 && rem < 86_400 && DateTimeShape(text)
    requires Value(text[0..4]) == date.year
    requires Value(text[5..7]) == date.month && Value(text[8..10]) == date.day
    requires Value(text[11..13]) == rem / 3_600 && Value(text[14..16]) == rem % 3_600 / 60
    requires Value(text[17..19]) == rem % 60
    ensures IsDateTime(text) && DateIn(text) == date && SecondOfDayIn(text) == rem
  {
  }
}
