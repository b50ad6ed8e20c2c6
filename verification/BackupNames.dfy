/**
 The names of pre-update backups (apps/desktop/src/runtime-backup.ts, isoForFilename and
 parseBackupIso), with the calendar of section 21.4.1 of ECMA-262. Times are milliseconds since
 the epoch, in the years 0000 to 9999, where an ISO year has four digits.
 */
module BackupNames {
  import opened Common
  import opened Decimal

  const MS_PER_DAY := 86_400_000
  const FIRST_MS := -62_167_219_200_000  // 0000-01-01T00:00:00.000Z
  const LAST_MS := 253_402_300_799_999   // 9999-12-31T23:59:59.999Z

  // ---------------------------------------------------------------------------
  // The calendar
  // ---------------------------------------------------------------------------

  predicate IsLeap(y: int) {
    y % 4 == 0 && (y % 100 != 0 || y % 400 == 0)
  }

  function DayFromYear(y: int): int {
    365 * (y - 1970) + (y - 1969) / 4 - (y - 1901) / 100 + (y - 1601) / 400
  }

  function DaysInYear(y: int): int { if IsLeap(y) then 366 else 365 }

  /** Days of the year before the first of month `m`, 1 to 13. */
  function MonthStart(m: int, leap: bool): int
    requires 1 <= m <= 13
  {
    [0, 31, 59, 90, 120, 151, 181, 212, 243, 273, 304, 334, 365][m - 1] + (if leap && m > 2 then 1 else 0)
  }

  function DaysInMonth(m: int, leap: bool): int
    requires 1 <= m <= 12
  {
    MonthStart(m + 1, leap) - MonthStart(m, leap)
  }

  datatype Fields = Fields(year: int, month: int, day: int, hour: int, minute: int, second: int, milli: int)

  predicate ValidFields(f: Fields) {
    && 0 <= f.year <= 9999 && 1 <= f.month <= 12 && 1 <= f.day <= DaysInMonth(f.month, IsLeap(f.year))
    && 0 <= f.hour < 24 && 0 <= f.minute < 60 && 0 <= f.second < 60 && 0 <= f.milli < 1000
  }

  function DayNumber(y: int, m: int, d: int): int
    requires 1 <= m <= 12
  {
    DayFromYear(y) + MonthStart(m, IsLeap(y)) + d - 1
  }

  function TimeOfDay(h: int, mi: int, s: int, ms: int): int {
    ((h * 60 + mi) * 60 + s) * 1000 + ms
  }

  /** MakeDate of the fields. */
  function TimeOf(f: Fields): int
    requires 1 <= f.month <= 12
  {
    DayNumber(f.year, f.month, f.day) * MS_PER_DAY + TimeOfDay(f.hour, f.minute, f.second, f.milli)
  }

  lemma FourYears(y: int)
    ensures (y - 1968) / 4 == (y - 1969) / 4 + (if y % 4 == 0 then 1 else 0)
  {
  }

  lemma Century(y: int)
    ensures (y - 1900) / 100 == (y - 1901) / 100 + (if y % 100 == 0 then 1 else 0)
  {
  }

  lemma FourCenturies(y: int)
    ensures (y - 1600) / 400 == (y - 1601) / 400 + (if y % 400 == 0 then 1 else 0)
  {
  }

  lemma LeapNesting(y: int)
    ensures y % 400 == 0 ==> y % 100 == 0
    ensures y % 100 == 0 ==> y % 4 == 0
  {
    if y % 400 == 0 {
      MultipleOf(100, 4, y / 400);
      assert y == 100 * 4 * (y / 400);
    }
    if y % 100 == 0 {
      MultipleOf(4, 25, y / 100);
      assert y == 4 * 25 * (y / 100);
    }
  }

  lemma MultipleOf(a: int, b: int, q: int)
    requires (a == 100 && b == 4) || (a == 4 && b == 25)
    ensures (a * b * q) % a == 0
  {
    if a == 100 {
      assert 400 * q == 100 * (4 * q);
    } else {
      assert 100 * q == 4 * (25 * q);
    }
  }

  lemma YearSteps(y: int)
    ensures DayFromYear(y + 1) == DayFromYear(y) + DaysInYear(y)
  {
    FourYears(y);
    Century(y);
    FourCenturies(y);
    LeapNesting(y);
  }

  /** The length of a month, as everyone knows it. */
  function MonthLength(y: int, m: int): int
    requires 1 <= m <= 12
  {
    if m == 2 then (if y % 400 == 0 || (y % 4 == 0 && y % 100 != 0) then 29 else 28)
    else if m in {4, 6, 9, 11} then 30 else 31
  }

  lemma MonthSteps(y: int, m: int)
    requires 1 <= m <= 12
    ensures DaysInMonth(m, IsLeap(y)) == MonthLength(y, m)
  {
  }

  lemma YearLength(y: int)
    ensures DaysInYear(y) == MonthStart(13, IsLeap(y)) && MonthStart(1, IsLeap(y + 1)) == 0
  {
  }

  /** The days are numbered one after the other, month by month and year by year, from 1970-01-01. */
  lemma DaysFollow(y: int, m: int, d: int)
    requires 1 <= m <= 12
    ensures DayNumber(1970, 1, 1) == 0 && DayNumber(y, m, d + 1) == DayNumber(y, m, d) + 1
    ensures (if m < 12 then DayNumber(y, m + 1, 1) else DayNumber(y + 1, 1, 1)) == DayNumber(y, m, MonthLength(y, m)) + 1
  {
    LeapNesting(y);
    MonthSteps(y, m);
    if m == 12 {
      YearSteps(y);
      YearLength(y);
    }
  }

  /** YearFromTime: the last year that begins no later than `day`, searched down from `y`. */
  function YearFrom(day: int, y: int): (r: int)
    requires DayFromYear(0) <= day < DayFromYear(y + 1) && y >= 0
    ensures 0 <= r <= y && DayFromYear(r) <= day < DayFromYear(r + 1)
    decreases y
  {
    if DayFromYear(y) <= day then y else YearFrom(day, y - 1)
  }

  /** MonthFromTime, searched down from `m`. */
  function MonthFrom(dayInYear: int, leap: bool, m: int): (r: int)
    requires 1 <= m <= 12 && 0 <= dayInYear < MonthStart(m + 1, leap)
    ensures 1 <= r <= m && MonthStart(r, leap) <= dayInYear < MonthStart(r + 1, leap)
    decreases m
  {
    if MonthStart(m, leap) <= dayInYear then m else MonthFrom(dayInYear, leap, m - 1)
  }

  lemma SplitTime(ms: int)
    requires 0 <= ms < MS_PER_DAY
    ensures 0 <= ms / 3_600_000 < 24
    ensures TimeOfDay(ms / 3_600_000, ms / 60_000 % 60, ms / 1000 % 60, ms % 1000) == ms
  {
    var s := ms / 1000;
    var m := s / 60;
    assert ms / 60_000 == m && m / 60 == ms / 3_600_000;
  }

  function FieldsOf(t: int): (f: Fields)
    requires FIRST_MS <= t <= LAST_MS
    ensures ValidFields(f) && TimeOf(f) == t
  {
    var day, ms := t / MS_PER_DAY, t % MS_PER_DAY;
    var y := YearFrom(day, 9999);
    YearSteps(y);
    SplitTime(ms);
    var inYear := day - DayFromYear(y);
    var m := MonthFrom(inYear, IsLeap(y), 12);
    Fields(y, m, inYear - MonthStart(m, IsLeap(y)) + 1, ms / 3_600_000, ms / 60_000 % 60, ms / 1000 % 60, ms % 1000)
  }

  // ---------------------------------------------------------------------------
  // Names
  // ---------------------------------------------------------------------------

  const PRE_UPDATE_SUFFIX := "-pre-update"

  function FormatTime(f: Fields, tail: string): string
    requires ValidFields(f)
  {
    Digits(f.hour, 2) + ("-" + (Digits(f.minute, 2) + ("-" + (Digits(f.second, 2) + ("-" + (Digits(f.milli, 3) + ("Z" + tail)))))))
  }

  /** `toISOString` with colons and dots replaced by hyphens, and what follows it. */
  function FormatFields(f: Fields, tail: string): string
    requires ValidFields(f)
  {
    Digits(f.year, 4) + ("-" + (Digits(f.month, 2) + ("-" + (Digits(f.day, 2) + ("T" + FormatTime(f, tail))))))
  }

  function IsoForFilename(t: int): string
    requires FIRST_MS <= t <= LAST_MS
  {
    FormatFields(FieldsOf(t), "")
  }

  lemma TailMoves(f: Fields, tail: string)
    requires ValidFields(f)
    ensures FormatFields(f, "") + tail == FormatFields(f, tail)
  {
    var d4 := Digits(f.milli, 3) + ("Z" + "");
    var d3 := Digits(f.second, 2) + ("-" + d4);
    var d2 := Digits(f.minute, 2) + ("-" + d3);
    var d1 := FormatTime(f, "");
    var c2 := Digits(f.day, 2) + ("T" + d1);
    var c1 := Digits(f.month, 2) + ("-" + c2);
    assert "" + tail == tail;
  }

  predicate AllDigits(s: string) {
    forall c :: c in s ==> IsDigit(c)
  }

  /** The shape of the source's pattern. */
  predicate Shaped(s: string) {
    && |s| == 24
    && AllDigits(s[..4]) && s[4] == '-' && AllDigits(s[5..7]) && s[7] == '-' && AllDigits(s[8..10]) && s[10] == 'T'
    && AllDigits(s[11..13]) && s[13] == '-' && AllDigits(s[14..16]) && s[16] == '-' && AllDigits(s[17..19]) && s[19] == '-'
    && AllDigits(s[20..23]) && s[23] == 'Z'
  }

  function ReadFields(s: string): Fields
    requires Shaped(s)
  {
    Fields(Value(s[..4]), Value(s[5..7]), Value(s[8..10]), Value(s[11..13]), Value(s[14..16]), Value(s[17..19]), Value(s[20..23]))
  }

  /** `Date.parse` as V8 has it: a day up to 31 counts on into the next month, and hour 24 is midnight
      at the end of the day; other fields out of range are no date. */
  function ParseFields(f: Fields): Option<int> {
    if 1 <= f.month <= 12 && 1 <= f.day <= 31 && ValidTime(f) then Some(TimeOf(f)) else None
  }

  predicate ValidTime(f: Fields) {
    || (0 <= f.hour < 24 && 0 <= f.minute < 60 && 0 <= f.second < 60 && 0 <= f.milli < 1000)
    || (f.hour == 24 && f.minute == 0 && f.second == 0 && f.milli == 0)
  }

  function ParseBackupIso(filename: string): Option<int> {
    if !EndsWith(filename, PRE_UPDATE_SUFFIX) then None
    else
      var isoPart := filename[..|filename| - |PRE_UPDATE_SUFFIX|];
      if !Shaped(isoPart) then None else ParseFields(ReadFields(isoPart))
  }

  /** The field at `at`, its separator, and what follows. */
  lemma Peel(s: string, at: nat, d: string, sep: char, rest: string)
    requires at <= |s| && s[at..] == d + ([sep] + rest)
    ensures at + |d| < |s| && s[at..at + |d|] == d && s[at + |d|] == sep && s[at + |d| + 1..] == rest
  {
    var t := s[at..];
    assert t[..|d|] == d && t[|d|] == sep && t[|d| + 1..] == rest;
    assert s[at..at + |d|] == t[..|d|];
    assert s[at + |d| + 1..] == t[|d| + 1..];
  }

  lemma DateSlices(f: Fields, s: string)
    requires ValidFields(f) && s == FormatFields(f, "")
    ensures Pow10(4) > f.year && Pow10(2) > f.month && Pow10(2) > f.day && |s| > 11
    ensures s[..4] == Digits(f.year, 4) && s[5..7] == Digits(f.month, 2) && s[8..10] == Digits(f.day, 2)
    ensures s[4] == '-' && s[7] == '-' && s[10] == 'T' && s[11..] == FormatTime(f, "")
  {
    var c3 := FormatTime(f, "");
    var c2 := Digits(f.day, 2) + ("T" + c3);
    var c1 := Digits(f.month, 2) + ("-" + c2);
    assert s[0..] == s && s[..4] == s[0..4];
    Peel(s, 0, Digits(f.year, 4), '-', c1);
    Peel(s, 5, Digits(f.month, 2), '-', c2);
    Peel(s, 8, Digits(f.day, 2), 'T', c3);
  }

  lemma TimeSlices(f: Fields, s: string)
    requires ValidFields(f) && |s| > 11 && s[11..] == FormatTime(f, "")
    ensures Pow10(2) > f.hour && Pow10(2) > f.minute && Pow10(2) > f.second && Pow10(3) > f.milli && |s| == 24
    ensures s[11..13] == Digits(f.hour, 2) && s[14..16] == Digits(f.minute, 2) && s[17..19] == Digits(f.second, 2)
    ensures s[20..23] == Digits(f.milli, 3)
    ensures s[13] == '-' && s[16] == '-' && s[19] == '-' && s[23] == 'Z'
  {
    var d4 := Digits(f.milli, 3) + ("Z" + "");
    var d3 := Digits(f.second, 2) + ("-" + d4);
    var d2 := Digits(f.minute, 2) + ("-" + d3);
    Peel(s, 11, Digits(f.hour, 2), '-', d2);
    Peel(s, 14, Digits(f.minute, 2), '-', d3);
    Peel(s, 17, Digits(f.second, 2), '-', d4);
    Peel(s, 20, Digits(f.milli, 3), 'Z', "");
  }

  lemma FormatShape(f: Fields)
    requires ValidFields(f)
    ensures Shaped(FormatFields(f, "")) && ReadFields(FormatFields(f, "")) == f
  {
    var s := FormatFields(f, "");
    DateSlices(f, s);
    TimeSlices(f, s);
    AllValues(f);
  }

  lemma AllValues(f: Fields)
    requires ValidFields(f)
    requires f.year < Pow10(4) && f.month < Pow10(2) && f.day < Pow10(2) && f.hour < Pow10(2) && f.minute < Pow10(2) && f.second < Pow10(2) && f.milli < Pow10(3)
    ensures Value(Digits(f.year, 4)) == f.year && Value(Digits(f.month, 2)) == f.month && Value(Digits(f.day, 2)) == f.day
    ensures Value(Digits(f.hour, 2)) == f.hour && Value(Digits(f.minute, 2)) == f.minute && Value(Digits(f.second, 2)) == f.second
    ensures Value(Digits(f.milli, 3)) == f.milli
  {
    DigitsValue(f.year, 4);
    DigitsValue(f.month, 2);
    DigitsValue(f.day, 2);
    DigitsValue(f.hour, 2);
    DigitsValue(f.minute, 2);
    DigitsValue(f.second, 2);
    DigitsValue(f.milli, 3);
  }

  /** The text of a name: year, month, day, hour, minute, second and millisecond of the time, each in its
      place with hyphens between. */
  lemma NameForm(t: int)
    requires FIRST_MS <= t <= LAST_MS
    ensures var s, f := IsoForFilename(t), FieldsOf(t);
            && |s| == 24 && s[4] == '-' && s[7] == '-' && s[10] == 'T' && s[13] == '-' && s[16] == '-' && s[19] == '-' && s[23] == 'Z'
            && Shaped(s)
            && Value(s[..4]) == f.year && Value(s[5..7]) == f.month && Value(s[8..10]) == f.day
            && Value(s[11..13]) == f.hour && Value(s[14..16]) == f.minute && Value(s[17..19]) == f.second && Value(s[20..23]) == f.milli
  {
    FormatShape(FieldsOf(t));
  }

  /** The fields behind a name are the date and the time of day of its millisecond. */
  lemma TimeOfName(t: int)
    requires FIRST_MS <= t <= LAST_MS
    ensures var f := FieldsOf(t);
            && 1 <= f.month <= 12 && 1 <= f.day <= MonthLength(f.year, f.month)
            && 0 <= f.hour < 24 && 0 <= f.minute < 60 && 0 <= f.second < 60 && 0 <= f.milli < 1000
            && t == DayNumber(f.year, f.month, f.day) * 86_400_000 + f.hour * 3_600_000 + f.minute * 60_000 + f.second * 1000 + f.milli
  {
    var f := FieldsOf(t);
    LeapNesting(f.year);
    MonthSteps(f.year, f.month);
  }

  lemma IsoPart(iso: string)
    requires Shaped(iso)
    ensures ParseBackupIso(iso + PRE_UPDATE_SUFFIX) == ParseFields(ReadFields(iso))
  {
    var name := iso + PRE_UPDATE_SUFFIX;
    assert name[..|name| - |PRE_UPDATE_SUFFIX|] == iso;
  }

  lemma FieldsParse(f: Fields)
    requires ValidFields(f)
    ensures ParseFields(f) == Some(TimeOf(f))
  {
  }

  /** A backup's name tells the millisecond it was made. */
  lemma NameRoundTrip(t: int)
    requires FIRST_MS <= t <= LAST_MS
    ensures ParseBackupIso(IsoForFilename(t) + PRE_UPDATE_SUFFIX) == Some(t)
  {
    var iso, f := IsoForFilename(t), FieldsOf(t);
    FormatShape(f);
    IsoPart(iso);
    FieldsParse(f);
  }

  /** A partial directory is never read as a backup. */
  lemma PartialIsNoBackup(name: string)
    requires EndsWith(name, ".partial")
    ensures ParseBackupIso(name) == None
  {
    LastChar(name, ".partial");
    LastChar(name, PRE_UPDATE_SUFFIX);
  }

  lemma LastChar(s: string, suffix: string)
    requires suffix != ""
    ensures EndsWith(s, suffix) ==> s[|s| - 1] == suffix[|suffix| - 1]
  {
    if EndsWith(s, suffix) {
      assert s[|s| - 1] == s[|s| - |suffix|..][|suffix| - 1];
    }
  }

  // ---------------------------------------------------------------------------
  // Name order is time order
  // ---------------------------------------------------------------------------

  predicate Less(a: string, b: string) {
    b != "" && (a == "" || a[0] < b[0] || (a[0] == b[0] && Less(a[1..], b[1..])))
  }

  lemma {:induction false} LessConcat(a: string, x: string, b: string, y: string)
    requires |a| == |b|
    ensures Less(a + x, b + y) <==> Less(a, b) || (a == b && Less(x, y))
  {
    if a == "" {
      assert a + x == x && b + y == y;
    } else {
      assert (a + x)[1..] == a[1..] + x && (b + y)[1..] == b[1..] + y;
      assert a == [a[0]] + a[1..] && b == [b[0]] + b[1..];
      LessConcat(a[1..], x, b[1..], y);
    }
  }

  lemma {:induction false} DigitsOrder(m: int, n: int, w: nat)
    requires 0 <= m < Pow10(w) && 0 <= n < Pow10(w)
    ensures Less(Digits(m, w), Digits(n, w)) <==> m < n
    ensures Digits(m, w) == Digits(n, w) <==> m == n
  {
    if w > 0 {
      DigitsOrder(m / 10, n / 10, w - 1);
      var a, b := [DigitChar(m % 10)], [DigitChar(n % 10)];
      LessConcat(Digits(m / 10, w - 1), a, Digits(n / 10, w - 1), b);
      assert a[1..] == "" && b[1..] == "";
      DigitsValue(m, w);
      DigitsValue(n, w);
    }
  }

  /** One field and its separator decide, or leave the decision to the rest. */
  lemma FieldOrder(m: int, n: int, w: nat, sep: string, x: string, y: string)
    requires 0 <= m < Pow10(w) && 0 <= n < Pow10(w)
    ensures Less(Digits(m, w) + (sep + x), Digits(n, w) + (sep + y)) <==> m < n || (m == n && Less(x, y))
  {
    DigitsOrder(m, n, w);
    LessConcat(Digits(m, w), sep + x, Digits(n, w), sep + y);
    LessConcat(sep, x, sep, y);
    NotLessSelf(sep);
  }

  lemma {:induction false} NotLessSelf(s: string)
    ensures !Less(s, s)
  {
    if s != "" { NotLessSelf(s[1..]); }
  }

  predicate TimeLess(f: Fields, g: Fields) {
    f.hour < g.hour || (f.hour == g.hour &&
    (f.minute < g.minute || (f.minute == g.minute &&
    (f.second < g.second || (f.second == g.second && f.milli < g.milli)))))
  }

  predicate FieldsLess(f: Fields, g: Fields) {
    f.year < g.year || (f.year == g.year &&
    (f.month < g.month || (f.month == g.month &&
    (f.day < g.day || (f.day == g.day && TimeLess(f, g))))))
  }

  lemma TimeOrder(f: Fields, g: Fields, tail: string)
    requires ValidFields(f) && ValidFields(g)
    ensures Less(FormatTime(f, tail), FormatTime(g, tail)) <==> TimeLess(f, g)
  {
    NotLessSelf(tail);
    var f4, g4 := Digits(f.milli, 3) + ("Z" + tail), Digits(g.milli, 3) + ("Z" + tail);
    FieldOrder(f.milli, g.milli, 3, "Z", tail, tail);
    var f3, g3 := Digits(f.second, 2) + ("-" + f4), Digits(g.second, 2) + ("-" + g4);
    FieldOrder(f.second, g.second, 2, "-", f4, g4);
    var f2, g2 := Digits(f.minute, 2) + ("-" + f3), Digits(g.minute, 2) + ("-" + g3);
    FieldOrder(f.minute, g.minute, 2, "-", f3, g3);
    FieldOrder(f.hour, g.hour, 2, "-", f2, g2);
  }

  lemma FormatOrder(f: Fields, g: Fields, tail: string)
    requires ValidFields(f) && ValidFields(g)
    ensures Less(FormatFields(f, tail), FormatFields(g, tail)) <==> FieldsLess(f, g)
  {
    TimeOrder(f, g, tail);
    var f3, g3 := FormatTime(f, tail), FormatTime(g, tail);
    var f2, g2 := Digits(f.day, 2) + ("T" + f3), Digits(g.day, 2) + ("T" + g3);
    FieldOrder(f.day, g.day, 2, "T", f3, g3);
    var f1, g1 := Digits(f.month, 2) + ("-" + f2), Digits(g.month, 2) + ("-" + g2);
    FieldOrder(f.month, g.month, 2, "-", f2, g2);
    FieldOrder(f.year, g.year, 4, "-", f1, g1);
  }

  lemma {:induction false} YearsApart(y: int, z: int)
    requires y < z
    ensures DayFromYear(y) + DaysInYear(y) <= DayFromYear(z)
    decreases z - y
  {
    YearSteps(y);
    if y + 1 < z { YearsApart(y + 1, z); }
  }

  lemma DatesOrder(f: Fields, g: Fields)
    requires ValidFields(f) && ValidFields(g)
    requires f.year < g.year || (f.year == g.year && (f.month < g.month || (f.month == g.month && f.day < g.day)))
    ensures DayNumber(f.year, f.month, f.day) < DayNumber(g.year, g.month, g.day)
  {
    if f.year < g.year {
      YearsApart(f.year, g.year);
    }
  }

  lemma FieldsOrder(f: Fields, g: Fields)
    requires ValidFields(f) && ValidFields(g) && FieldsLess(f, g)
    ensures TimeOf(f) < TimeOf(g)
  {
    if f.year != g.year || f.month != g.month || f.day != g.day {
      DatesOrder(f, g);
    }
  }

  /** Names sort as the times they stand for. */
  lemma NameOrderIsTimeOrder(t: int, u: int)
    requires FIRST_MS <= t <= LAST_MS && FIRST_MS <= u <= LAST_MS
    ensures Less(IsoForFilename(t) + PRE_UPDATE_SUFFIX, IsoForFilename(u) + PRE_UPDATE_SUFFIX) <==> t < u
  {
    var f, g := FieldsOf(t), FieldsOf(u);
    FormatOrder(f, g, PRE_UPDATE_SUFFIX);
    TailMoves(f, PRE_UPDATE_SUFFIX);
    TailMoves(g, PRE_UPDATE_SUFFIX);
    if FieldsLess(f, g) {
      FieldsOrder(f, g);
    } else if FieldsLess(g, f) {
      FieldsOrder(g, f);
    }
  }
}
