/** `Date.prototype.toISOString` for the years 0000 to 9999, and why comparing such texts compares times.
  *
  * An instant is a number of milliseconds since 1970-01-01T00:00:00Z in the proleptic Gregorian calendar
  * without leap seconds; its text has the form of section 5.6 of RFC 3339, in UTC with milliseconds. */
module Timestamps {
  import opened Text

  // ---------- the calendar ----------

  predicate IsLeap(y: nat) {
    y % 4 == 0 && (y % 100 != 0 || y % 400 == 0)
  }

  function DaysInYear(y: nat): (d: nat)
    ensures 365 <= d <= 366
  {
    if IsLeap(y) then 366 else 365
  }

  function DaysInMonth(y: nat, m: nat): (d: nat)
    requires 1 <= m <= 12
    ensures 28 <= d <= 31
  {
    if m == 2 then (if IsLeap(y) then 29 else 28)
    else if m == 4 || m == 6 || m == 9 || m == 11 then 30
    else 31
  }

  /** Days from 0000-01-01 to the first day of year `y`, and from there to the first day of month `m`. */
  function DaysBeforeYear(y: nat): nat {
    if y == 0 then 0 else DaysBeforeYear(y - 1) + DaysInYear(y - 1)
  }

  function DaysBeforeMonth(y: nat, m: nat): nat
    requires 1 <= m <= 13
  {
    if m == 1 then 0 else DaysBeforeMonth(y, m - 1) + DaysInMonth(y, m - 1)
  }

  lemma MonthsFillYear(y: nat)
    ensures DaysBeforeMonth(y, 13) == DaysInYear(y)
  {
    var february := DaysInMonth(y, 2);
    assert DaysBeforeMonth(y, 2) == 31;
    assert DaysBeforeMonth(y, 3) == 31 + february;
    assert DaysBeforeMonth(y, 4) == 62 + february;
    assert DaysBeforeMonth(y, 5) == 92 + february;
    assert DaysBeforeMonth(y, 6) == 123 + february;
    assert DaysBeforeMonth(y, 7) == 153 + february;
    assert DaysBeforeMonth(y, 8) == 184 + february;
    assert DaysBeforeMonth(y, 9) == 215 + february;
    assert DaysBeforeMonth(y, 10) == 245 + february;
    assert DaysBeforeMonth(y, 11) == 276 + february;
    assert DaysBeforeMonth(y, 12) == 306 + february;
  }

  /** The closed form of the Gregorian calendar. */
  lemma {:induction false} LeapYearRule(y: nat)
    ensures DaysBeforeYear(y + 1) == 365 * (y + 1) + y / 4 - y / 100 + y / 400 + 1
  {
    if y > 0 {
      LeapYearRule(y - 1);
      LeapStep(y);
    }
  }

  lemma LeapStep(y: nat)
    requires y > 0
    ensures y / 4 - y / 100 + y / 400 == (y - 1) / 4 - (y - 1) / 100 + (y - 1) / 400 + (if IsLeap(y) then 1 else 0)
  {
    QuotientStep(y, 4);
    QuotientStep(y, 100);
    QuotientStep(y, 400);
    assert y % 400 == 0 ==> y % 100 == 0;
    assert y % 100 == 0 ==> y % 4 == 0;
  }

  lemma QuotientStep(y: nat, n: nat)
    requires y > 0 && (n == 4 || n == 100 || n == 400)
    ensures y / n == (y - 1) / n + (if y % n == 0 then 1 else 0)
  {
  }

  const EPOCH_DAY: nat := 719528
  const DAY_MS: nat := 86400000

  lemma EpochIsNineteenSeventy()
    ensures DaysBeforeYear(1970) == EPOCH_DAY
  {
    LeapYearRule(1969);
  }

  // ---------- fields of an instant ----------

  datatype Fields = Fields(year: nat, month: nat, day: nat, hour: nat, minute: nat, second: nat, ms: nat)

  predicate IsDate(f: Fields) {
    && f.year <= 9999 && 1 <= f.month <= 12 && 1 <= f.day <= DaysInMonth(f.year, f.month)
    && f.hour < 24 && f.minute < 60 && f.second < 60 && f.ms < 1000
  }

  function DayNumber(f: Fields): nat
    requires IsDate(f)
  {
    DaysBeforeYear(f.year) + DaysBeforeMonth(f.year, f.month) + f.day - 1
  }

  function MsOfDay(f: Fields): nat {
    ((f.hour * 60 + f.minute) * 60 + f.second) * 1000 + f.ms
  }

  /** The instant a date denotes. */
  function Instant(f: Fields): int
    requires IsDate(f)
  {
    (DayNumber(f) - EPOCH_DAY) * DAY_MS + MsOfDay(f)
  }

  const FIRST: int := -62167219200000   // 0000-01-01T00:00:00.000Z
  const LAST: int := 253402300799999    // 9999-12-31T23:59:59.999Z

  function YearOf(day: nat, y: nat): (r: nat)
    requires DaysBeforeYear(y) <= day
    ensures y <= r && DaysBeforeYear(r) <= day < DaysBeforeYear(r + 1)
    decreases day - DaysBeforeYear(y)
  {
    if day < DaysBeforeYear(y + 1) then y else YearOf(day, y + 1)
  }

  function MonthOf(y: nat, dayOfYear: nat, m: nat): (r: nat)
    requires 1 <= m <= 12 && DaysBeforeMonth(y, m) <= dayOfYear < DaysBeforeMonth(y, 13)
    ensures 1 <= r <= 12 && DaysBeforeMonth(y, r) <= dayOfYear < DaysBeforeMonth(y, r + 1)
    decreases 12 - m
  {
    if m == 12 || dayOfYear < DaysBeforeMonth(y, m + 1) then m else MonthOf(y, dayOfYear, m + 1)
  }

  /** The date of an instant: the fields `toISOString` prints. */
  function DateOf(t: int): (f: Fields)
    requires FIRST <= t <= LAST
    ensures IsDate(f) && Instant(f) == t
  {
    var day, rest := t / DAY_MS + EPOCH_DAY, t % DAY_MS;
    var year := YearOf(day, 0);
    MonthsFillYear(year);
    YearInRange(day, year);
    var month := MonthOf(year, day - DaysBeforeYear(year), 1);
    ClockRoundTrip(rest);
    Fields(year, month, day - DaysBeforeYear(year) - DaysBeforeMonth(year, month) + 1,
           rest / 3600000, rest / 60000 % 60, rest / 1000 % 60, rest % 1000)
  }

  lemma {:induction false} YearsGrow(y: nat, z: nat)
    requires y <= z
    ensures DaysBeforeYear(y) + (z - y) <= DaysBeforeYear(z)
    decreases z - y
  {
    if y < z {
      YearsGrow(y, z - 1);
    }
  }

  lemma YearInRange(day: int, year: nat)
    requires 0 <= day < 3652425 && DaysBeforeYear(year) <= day
    ensures year <= 9999
  {
    LeapYearRule(9999);
    YearsGrow(if year < 10000 then year else 10000, year);
  }

  lemma ClockRoundTrip(rest: nat)
    requires rest < DAY_MS
    ensures rest / 3600000 < 24
    ensures ((rest / 3600000 * 60 + rest / 60000 % 60) * 60 + rest / 1000 % 60) * 1000 + rest % 1000 == rest
  {
    assert rest / 60000 == rest / 1000 / 60;
    assert rest / 3600000 == rest / 60000 / 60;
  }

  // ---------- the text ----------

  function Digit(d: nat): char
    requires d < 10
  {
    '0' + d as char
  }

  /** `n` in decimal, padded with zeros to `width` digits. */
  function Padded(n: nat, width: nat): (s: string)
    ensures |s| == width
  {
    if width == 0 then "" else Padded(n / 10, width - 1) + [Digit(n % 10)]
  }

  function ToIsoString(t: int): (s: string)
    requires FIRST <= t <= LAST
    ensures |s| == 24
  {
    Format(DateOf(t))
  }

  function Format(f: Fields): (s: string)
    ensures |s| == 24
  {
    Padded(f.year, 4) + ("-" + (Padded(f.month, 2) + ("-" + (Padded(f.day, 2) + ("T" + ClockText(f))))))
  }

  function ClockText(f: Fields): (s: string)
    ensures |s| == 13
  {
    Padded(f.hour, 2) + (":" + (Padded(f.minute, 2) + (":" + (Padded(f.second, 2) + ("." + (Padded(f.ms, 3) + "Z"))))))
  }

  function Pow10(n: nat): (p: nat)
    ensures p > 0
  {
    if n == 0 then 1 else 10 * Pow10(n - 1)
  }

  lemma {:induction false} PaddedIncreasing(m: nat, n: nat, width: nat)
    requires m < n < Pow10(width)
    ensures Less(Padded(m, width), Padded(n, width))
  {
    if width > 0 {
      var p, q := Padded(m / 10, width - 1), Padded(n / 10, width - 1);
      if m / 10 < n / 10 {
        PaddedIncreasing(m / 10, n / 10, width - 1);
        LessByHead(p, q, [Digit(m % 10)], [Digit(n % 10)]);
      } else {
        LessByTail(p, [Digit(m % 10)], [Digit(n % 10)]);
      }
    }
  }

  /** Two texts that start with a fixed-width number are ordered by the numbers, and then by the rest. */
  lemma NumberThenRest(m: nat, n: nat, width: nat, x: string, y: string)
    requires m < Pow10(width) && n < Pow10(width)
    ensures m < n ==> Less(Padded(m, width) + x, Padded(n, width) + y)
    ensures m == n && Less(x, y) ==> Less(Padded(m, width) + x, Padded(n, width) + y)
  {
    if m < n {
      PaddedIncreasing(m, n, width);
      LessByHead(Padded(m, width), Padded(n, width), x, y);
    } else if m == n {
      LessByTail(Padded(m, width), x, y);
    }
  }

  predicate FieldsLess(f: Fields, g: Fields) {
    f.year < g.year || (f.year == g.year && (f.month < g.month || (f.month == g.month && (
      f.day < g.day || (f.day == g.day && ClockLess(f, g))))))
  }

  predicate ClockLess(f: Fields, g: Fields) {
    f.hour < g.hour || (f.hour == g.hour && (f.minute < g.minute || (f.minute == g.minute && (
      f.second < g.second || (f.second == g.second && f.ms < g.ms)))))
  }

  lemma ClockTextOrder(f: Fields, g: Fields)
    requires IsDate(f) && IsDate(g) && ClockLess(f, g)
    ensures Less(ClockText(f), ClockText(g))
  {
    assert Pow10(1) == 10 && Pow10(2) == 100 && Pow10(3) == 1000;
    NumberThenRest(f.ms, g.ms, 3, "Z", "Z");
    var f4, g4 := Padded(f.ms, 3) + "Z", Padded(g.ms, 3) + "Z";
    LessByTail(".", f4, g4);
    NumberThenRest(f.second, g.second, 2, "." + f4, "." + g4);
    var f3, g3 := Padded(f.second, 2) + ("." + f4), Padded(g.second, 2) + ("." + g4);
    LessByTail(":", f3, g3);
    NumberThenRest(f.minute, g.minute, 2, ":" + f3, ":" + g3);
    var f2, g2 := Padded(f.minute, 2) + (":" + f3), Padded(g.minute, 2) + (":" + g3);
    LessByTail(":", f2, g2);
    NumberThenRest(f.hour, g.hour, 2, ":" + f2, ":" + g2);
  }

  lemma FormatOrder(f: Fields, g: Fields)
    requires IsDate(f) && IsDate(g) && FieldsLess(f, g)
    ensures Less(Format(f), Format(g))
  {
    assert Pow10(1) == 10 && Pow10(2) == 100 && Pow10(3) == 1000 && Pow10(4) == 10000;
    if ClockLess(f, g) {
      ClockTextOrder(f, g);
    }
    var f3, g3 := ClockText(f), ClockText(g);
    LessByTail("T", f3, g3);
    NumberThenRest(f.day, g.day, 2, "T" + f3, "T" + g3);
    var f2, g2 := Padded(f.day, 2) + ("T" + f3), Padded(g.day, 2) + ("T" + g3);
    LessByTail("-", f2, g2);
    NumberThenRest(f.month, g.month, 2, "-" + f2, "-" + g2);
    var f1, g1 := Padded(f.month, 2) + ("-" + f2), Padded(g.month, 2) + ("-" + g2);
    LessByTail("-", f1, g1);
    NumberThenRest(f.year, g.year, 4, "-" + f1, "-" + g1);
  }

  // ---------- text order is time order ----------

  lemma {:induction false} MonthsGrow(y: nat, m: nat, n: nat)
    requires 1 <= m <= n <= 13
    ensures DaysBeforeMonth(y, m) <= DaysBeforeMonth(y, n)
    decreases n - m
  {
    if m < n {
      MonthsGrow(y, m, n - 1);
    }
  }

  lemma DayOfYearBounds(f: Fields)
    requires IsDate(f)
    ensures DaysBeforeYear(f.year) <= DayNumber(f) < DaysBeforeYear(f.year + 1)
    ensures DaysBeforeMonth(f.year, f.month) <= DayNumber(f) - DaysBeforeYear(f.year) < DaysBeforeMonth(f.year, f.month + 1)
  {
    MonthsFillYear(f.year);
    MonthsGrow(f.year, f.month + 1, 13);
  }

  lemma DayOrder(f: Fields, g: Fields)
    requires IsDate(f) && IsDate(g) && DayNumber(f) < DayNumber(g)
    ensures FieldsLess(f, g)
  {
    DayOfYearBounds(f);
    DayOfYearBounds(g);
    if g.year < f.year {
      YearsGrow(g.year + 1, f.year);
    } else if f.year == g.year && g.month < f.month {
      MonthsGrow(f.year, g.month + 1, f.month);
    }
  }

  lemma ClockOrder(f: Fields, g: Fields)
    requires IsDate(f) && IsDate(g) && MsOfDay(f) < MsOfDay(g)
    ensures ClockLess(f, g)
  {
  }

  lemma MsOfDayBound(f: Fields)
    requires IsDate(f)
    ensures MsOfDay(f) < DAY_MS
  {
  }

  lemma SameDay(f: Fields, g: Fields)
    requires IsDate(f) && IsDate(g) && DayNumber(f) == DayNumber(g)
    ensures f.year == g.year && f.month == g.month && f.day == g.day
  {
    DayOfYearBounds(f);
    DayOfYearBounds(g);
    if f.year < g.year {
      YearsGrow(f.year + 1, g.year);
    } else if g.year < f.year {
      YearsGrow(g.year + 1, f.year);
    } else if f.month < g.month {
      MonthsGrow(f.year, f.month + 1, g.month);
    } else if g.month < f.month {
      MonthsGrow(f.year, g.month + 1, f.month);
    }
  }

  lemma EarlierIsLess(t: int, u: int)
    requires FIRST <= t < u <= LAST
    ensures Less(ToIsoString(t), ToIsoString(u))
  {
    var f, g := DateOf(t), DateOf(u);
    MsOfDayBound(f);
    MsOfDayBound(g);
    if DayNumber(f) < DayNumber(g) {
      DayOrder(f, g);
    } else {
      assert DayNumber(f) == DayNumber(g);
      SameDay(f, g);
      ClockOrder(f, g);
    }
    FormatOrder(f, g);
  }

  /** Comparing two `toISOString()` texts is comparing the instants, and equal texts are equal instants. */
  lemma TextOrderIsTimeOrder(t: int, u: int)
    requires FIRST <= t <= LAST && FIRST <= u <= LAST
    ensures Less(ToIsoString(t), ToIsoString(u)) <==> t < u
    ensures AtMost(ToIsoString(t), ToIsoString(u)) <==> t <= u
    ensures ToIsoString(t) == ToIsoString(u) <==> t == u
  {
    Irreflexive(ToIsoString(t));
    if t < u {
      EarlierIsLess(t, u);
      if Less(ToIsoString(u), ToIsoString(t)) {
        Transitive(ToIsoString(t), ToIsoString(u), ToIsoString(t));
      }
    } else if u < t {
      EarlierIsLess(u, t);
      if Less(ToIsoString(t), ToIsoString(u)) {
        Transitive(ToIsoString(t), ToIsoString(u), ToIsoString(t));
      }
    }
  }
}
