/**
 `created_at` as the leaderboard sorts it: the ISO form of a UTC datetime, whose fraction has
 no digits or six (backend/app/modules/analytics/leaderboard.py).
 */
module Timestamps {
  import opened Ordering
  import opened Leaderboard

  /** A UTC datetime. */
  datatype DateTime = DateTime(year: int, month: int, day: int, hour: int, minute: int, second: int, micro: int)

  predicate IsLeap(year: int) {
    year % 4 == 0 && (year % 100 != 0 || year % 400 == 0)
  }

  function DaysInMonth(year: int, month: int): int {
    if month == 2 then if IsLeap(year) then 29 else 28
    else if month in {4, 6, 9, 11} then 30
    else 31
  }

  predicate Valid(d: DateTime) {
    && 1 <= d.year <= 9999 && 1 <= d.month <= 12 && 1 <= d.day <= DaysInMonth(d.year, d.month)
    && 0 <= d.hour < 24 && 0 <= d.minute < 60 && 0 <= d.second < 60 && 0 <= d.micro < 1000000
  }

  // ---------- Printing ----------

  function Power10(width: nat): int {
    if width == 0 then 1 else 10 * Power10(width - 1)
  }

  /** The last `width` decimal digits, zero-padded. */
  function Digits(n: nat, width: nat): string {
    if width == 0 then "" else Digits(n / 10, width - 1) + [('0' as int + n % 10) as char]
  }

  function Fraction(micro: nat): string {
    if micro == 0 then "" else "." + Digits(micro, 6)
  }

  /** `isoformat()` of a UTC datetime, with `sep` between date and time. */
  function IsoFormat(d: DateTime, sep: char): string
    requires Valid(d)
  {
    (Digits(d.year, 4) + "-") + ((Digits(d.month, 2) + "-") + ((Digits(d.day, 2) + [sep]) +
    ((Digits(d.hour, 2) + ":") + ((Digits(d.minute, 2) + ":") + (Digits(d.second, 2) + (Fraction(d.micro) + "+00:00"))))))
  }

  lemma {:induction false} CompareBlocks(a: string, b: string, x: string, y: string)
    requires |a| == |b|
    ensures CompareText(a + x, b + y) == Then(CompareText(a, b), CompareText(x, y))
  {
    if a == [] {
      assert a + x == x && b + y == y;
    } else {
      assert (a + x)[1..] == a[1..] + x && (b + y)[1..] == b[1..] + y;
      if a[0] == b[0] {
        CompareBlocks(a[1..], b[1..], x, y);
      }
    }
  }

  lemma {:induction false} DigitsLength(n: nat, width: nat)
    ensures |Digits(n, width)| == width
  {
    if width > 0 {
      DigitsLength(n / 10, width - 1);
    }
  }

  /** Zero-padded numbers of one width compare like the numbers. */
  lemma {:induction false} DigitsCompare(m: nat, n: nat, width: nat)
    requires m < Power10(width) && n < Power10(width)
    ensures CompareText(Digits(m, width), Digits(n, width)) == Sign(m - n)
  {
    if width > 0 {
      DigitsCompare(m / 10, n / 10, width - 1);
      DigitsLength(m / 10, width - 1);
      DigitsLength(n / 10, width - 1);
      var x, y := [('0' as int + m % 10) as char], [('0' as int + n % 10) as char];
      CompareBlocks(Digits(m / 10, width - 1), Digits(n / 10, width - 1), x, y);
      assert x[1..] == [] && y[1..] == [];
      assert CompareText(x, y) == Sign(m % 10 - n % 10);
    }
  }

  /** A numeric field with its separator, then the rest. */
  lemma FieldCompare(m: nat, n: nat, width: nat, after: string, x: string, y: string)
    requires m < Power10(width) && n < Power10(width)
    ensures CompareText((Digits(m, width) + after) + x, (Digits(n, width) + after) + y)
         == Then(Sign(m - n), CompareText(x, y))
  {
    DigitsLength(m, width);
    DigitsLength(n, width);
    DigitsCompare(m, n, width);
    CompareTextReverses(after, after);
    CompareBlocks(Digits(m, width), Digits(n, width), after, after);
    CompareBlocks(Digits(m, width) + after, Digits(n, width) + after, x, y);
  }

  /** No fraction sorts before any fraction, because `+` precedes `.`. */
  lemma FractionCompare(m: nat, n: nat)
    requires m < 1000000 && n < 1000000
    ensures CompareText(Fraction(m) + "+00:00", Fraction(n) + "+00:00") == Sign(m - n)
  {
    var zone := "+00:00";
    CompareTextReverses(zone, zone);
    assert Power10(6) == 1000000;
    if m != 0 && n != 0 {
      DigitsLength(m, 6);
      DigitsLength(n, 6);
      DigitsCompare(m, n, 6);
      CompareTextReverses(".", ".");
      CompareBlocks(".", ".", Digits(m, 6), Digits(n, 6));
      CompareBlocks("." + Digits(m, 6), "." + Digits(n, 6), zone, zone);
    } else if m != 0 {
      assert (Fraction(m) + zone)[0] == '.' && (Fraction(n) + zone)[0] == '+';
    } else if n != 0 {
      assert (Fraction(m) + zone)[0] == '+' && (Fraction(n) + zone)[0] == '.';
    } else {
      assert Fraction(0) + zone == zone;
    }
  }

  /** Field by field, most significant first. */
  function CompareFields(a: DateTime, b: DateTime): int {
    Then(Sign(a.year - b.year), Then(Sign(a.month - b.month), Then(Sign(a.day - b.day),
    Then(Sign(a.hour - b.hour), Then(Sign(a.minute - b.minute), Then(Sign(a.second - b.second),
         Sign(a.micro - b.micro)))))))
  }

  function TimeText(d: DateTime): string
    requires Valid(d)
  {
    (Digits(d.hour, 2) + ":") + ((Digits(d.minute, 2) + ":") + (Digits(d.second, 2) + (Fraction(d.micro) + "+00:00")))
  }

  lemma TimeTextCompare(a: DateTime, b: DateTime)
    requires Valid(a) && Valid(b)
    ensures CompareText(TimeText(a), TimeText(b)) ==
            Then(Sign(a.hour - b.hour), Then(Sign(a.minute - b.minute), Then(Sign(a.second - b.second),
                 Sign(a.micro - b.micro))))
  {
    assert Power10(1) == 10 && Power10(2) == 100;
    var x, y := Fraction(a.micro) + "+00:00", Fraction(b.micro) + "+00:00";
    FractionCompare(a.micro, b.micro);
    assert Digits(a.second, 2) + "" == Digits(a.second, 2) && Digits(b.second, 2) + "" == Digits(b.second, 2);
    FieldCompare(a.second, b.second, 2, "", x, y);
    FieldCompare(a.minute, b.minute, 2, ":", Digits(a.second, 2) + x, Digits(b.second, 2) + y);
    FieldCompare(a.hour, b.hour, 2, ":", (Digits(a.minute, 2) + ":") + (Digits(a.second, 2) + x),
                 (Digits(b.minute, 2) + ":") + (Digits(b.second, 2) + y));
  }

  lemma TextComparesFields(a: DateTime, b: DateTime, sep: char)
    requires Valid(a) && Valid(b)
    ensures CompareText(IsoFormat(a, sep), IsoFormat(b, sep)) == CompareFields(a, b)
  {
    assert Power10(1) == 10 && Power10(2) == 100 && Power10(3) == 1000 && Power10(4) == 10000;
    TimeTextCompare(a, b);
    FieldCompare(a.day, b.day, 2, [sep], TimeText(a), TimeText(b));
    FieldCompare(a.month, b.month, 2, "-",
                 (Digits(a.day, 2) + [sep]) + TimeText(a), (Digits(b.day, 2) + [sep]) + TimeText(b));
    FieldCompare(a.year, b.year, 4, "-",
                 (Digits(a.month, 2) + "-") + ((Digits(a.day, 2) + [sep]) + TimeText(a)),
                 (Digits(b.month, 2) + "-") + ((Digits(b.day, 2) + [sep]) + TimeText(b)));
  }

  // ---------- Instants ----------

  function DaysBeforeYear(year: int): int
    requires 1 <= year
  {
    if year == 1 then 0 else DaysBeforeYear(year - 1) + if IsLeap(year - 1) then 366 else 365
  }

  function DaysBeforeMonth(year: int, month: int): int
    requires 1 <= month
  {
    if month == 1 then 0 else DaysBeforeMonth(year, month - 1) + DaysInMonth(year, month - 1)
  }

  /** Microseconds since the start of year 1. */
  function Instant(d: DateTime): int
    requires Valid(d)
  {
    (((DayNumber(d) * 24 + d.hour) * 60 + d.minute) * 60 + d.second) * 1000000 + d.micro
  }

  function DayNumber(d: DateTime): int
    requires Valid(d)
  {
    DaysBeforeYear(d.year) + DaysBeforeMonth(d.year, d.month) + d.day - 1
  }

  lemma YearLength(year: int)
    ensures DaysBeforeMonth(year, 13) == if IsLeap(year) then 366 else 365
  {
    var february := DaysInMonth(year, 2);
    assert DaysBeforeMonth(year, 2) == DaysBeforeMonth(year, 1) + 31;
    assert DaysBeforeMonth(year, 3) == DaysBeforeMonth(year, 2) + february;
    assert DaysBeforeMonth(year, 4) == 62 + february;
    assert DaysBeforeMonth(year, 5) == 92 + february;
    assert DaysBeforeMonth(year, 6) == 123 + february;
    assert DaysBeforeMonth(year, 7) == 153 + february;
    assert DaysBeforeMonth(year, 8) == 184 + february;
    assert DaysBeforeMonth(year, 9) == 215 + february;
    assert DaysBeforeMonth(year, 10) == 245 + february;
    assert DaysBeforeMonth(year, 11) == 276 + february;
    assert DaysBeforeMonth(year, 12) == 306 + february;
  }

  lemma {:induction false} MonthsGrow(year: int, m: int, n: int)
    requires 1 <= m < n
    ensures DaysBeforeMonth(year, m) + DaysInMonth(year, m) <= DaysBeforeMonth(year, n)
    decreases n
  {
    if m < n - 1 {
      MonthsGrow(year, m, n - 1);
    }
  }

  lemma {:induction false} YearsGrow(x: int, y: int)
    requires 1 <= x < y
    ensures DaysBeforeYear(x) + (if IsLeap(x) then 366 else 365) <= DaysBeforeYear(y)
    decreases y
  {
    if x < y - 1 {
      YearsGrow(x, y - 1);
    }
  }

  lemma EarlierDay(a: DateTime, b: DateTime)
    requires Valid(a) && Valid(b)
    requires a.year < b.year || (a.year == b.year && a.month < b.month)
    ensures DayNumber(a) < DayNumber(b)
  {
    MonthsGrow(a.year, a.month, 13);
    YearLength(a.year);
    if a.year < b.year {
      YearsGrow(a.year, b.year);
      if b.month > 1 {
        MonthsGrow(b.year, 1, b.month);
      }
    } else {
      MonthsGrow(a.year, a.month, b.month);
    }
  }

  lemma InstantComparesFields(a: DateTime, b: DateTime)
    requires Valid(a) && Valid(b)
    ensures Sign(Instant(a) - Instant(b)) == CompareFields(a, b)
  {
    if a.year < b.year || (a.year == b.year && a.month < b.month) {
      EarlierDay(a, b);
    } else if b.year < a.year || b.month < a.month {
      EarlierDay(b, a);
    }
  }

  /**
   Lexicographic order of the printed timestamps is chronological order, although some have
   no fraction and some have six digits.
   */
  lemma {:induction false} TextOrderIsChronological(a: DateTime, b: DateTime, sep: char)
    requires Valid(a) && Valid(b)
    ensures CompareText(IsoFormat(a, sep), IsoFormat(b, sep)) == Sign(Instant(a) - Instant(b))
  {
    TextComparesFields(a, b, sep);
    InstantComparesFields(a, b);
  }

  /** Hence the leaderboard's string comparison of `created_at` is the comparison of instants. */
  lemma {:induction false} CreatedAtComparesInstants(a: DateTime, b: DateTime, ascending: bool, fold: Casefold)
    requires Valid(a) && Valid(b)
    requires fold(IsoFormat(a, 'T')) == IsoFormat(a, 't') && fold(IsoFormat(b, 'T')) == IsoFormat(b, 't')
    ensures CompareValues(Textual(IsoFormat(a, 'T')), Textual(IsoFormat(b, 'T')), ascending, fold)
         == if ascending then Sign(Instant(a) - Instant(b)) else Sign(Instant(b) - Instant(a))
  {
    TextOrderIsChronological(a, b, 't');
  }
}
