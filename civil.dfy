/**
 * Civil dates and times of the proleptic Gregorian calendar, as Python's
 * datetime module has them: the ordinal day number that date subtraction
 * works with, and the isoformat text `str(date)` gives.
 */
module Civil {
  import opened Text

  datatype Date = Date(year: int, month: int, day: int)

  datatype DateTime = DateTime(date: Date, hour: int, minute: int, second: int)

  predicate IsLeap(y: int) {
    y % 4 == 0 && (y % 100 != 0 || y % 400 == 0)
  }

  function DaysInYear(y: int): int {
    if IsLeap(y) then 366 else 365
  }

  function DaysInMonth(y: int, m: int): (n: int)
    requires 1 <= m <= 12
    ensures 28 <= n <= 31
  {
    if m == 2 then (if IsLeap(y) then 29 else 28)
    else if m == 4 || m == 6 || m == 9 || m == 11 then 30
    else 31
  }

  /** A date datetime.date accepts: years 1 to 9999 and a day that exists in its month. */
  predicate ValidDate(d: Date) {
    1 <= d.year <= 9999 && 1 <= d.month <= 12 && 1 <= d.day <= DaysInMonth(d.year, d.month)
  }

  predicate ValidDateTime(t: DateTime) {
    ValidDate(t.date) && 0 <= t.hour < 24 && 0 <= t.minute < 60 && 0 <= t.second < 60
  }

  function DaysBeforeYear(y: int): int
    requires y >= 1
  {
    var p := y - 1;
    p * 365 + p / 4 - p / 100 + p / 400
  }

  function DaysBeforeMonth(y: int, m: int): int
    requires 1 <= m <= 12
  {
    var common :=
      if m == 1 then 0 else if m == 2 then 31 else if m == 3 then 59
      else if m == 4 then 90 else if m == 5 then 120 else if m == 6 then 151
      else if m == 7 then 181 else if m == 8 then 212 else if m == 9 then 243
      else if m == 10 then 273 else if m == 11 then 304 else 334;
    common + (if m > 2 && IsLeap(y) then 1 else 0)
  }

  /** date.toordinal(): 1 January of year 1 is day 1. */
  function Ordinal(d: Date): int
    requires ValidDate(d)
  {
    DaysBeforeYear(d.year) + DaysBeforeMonth(d.year, d.month) + d.day
  }

  /** Chronological order of dates, field by field. */
  predicate Before(a: Date, b: Date) {
    a.year < b.year ||
    (a.year == b.year && (a.month < b.month || (a.month == b.month && a.day < b.day)))
  }

  /** Each year adds its own length to the days before the next one. */
  lemma YearStep(y: int)
    requires y >= 1
    ensures DaysBeforeYear(y + 1) == DaysBeforeYear(y) + DaysInYear(y)
  {
    DivStep(y - 1, 4);
    DivStep(y - 1, 100);
    DivStep(y - 1, 400);
    DivisorChain(y);
  }

  /** A multiple of 400 is one of 100, and a multiple of 100 is one of 4. */
  lemma DivisorChain(y: int)
    ensures y % 400 == 0 ==> y % 100 == 0
    ensures y % 100 == 0 ==> y % 4 == 0
  {
    if y % 400 == 0 {
      MultipleOf(y, 400, 100);
    }
    if y % 100 == 0 {
      MultipleOf(y, 100, 4);
    }
  }

  /** A multiple of `k` is a multiple of each divisor `d` of `k`. */
  lemma MultipleOf(y: int, k: int, d: int)
    requires (k == 400 && d == 100) || (k == 100 && d == 4)
    requires y % k == 0
    ensures y % d == 0
  {
    var m := (y / k) * (k / d);
    assert y == d * m;
  }

  /** One more year passes a multiple of a leap-rule divisor exactly when it ends on one. */
  lemma DivStep(p: int, k: int)
    requires p >= 0 && (k == 4 || k == 100 || k == 400)
    ensures (p + 1) / k == p / k + (if (p + 1) % k == 0 then 1 else 0)
  {
    if k == 4 {
      assert (p + 1) / 4 == p / 4 + (if (p + 1) % 4 == 0 then 1 else 0);
    } else if k == 100 {
      assert (p + 1) / 100 == p / 100 + (if (p + 1) % 100 == 0 then 1 else 0);
    } else {
      assert (p + 1) / 400 == p / 400 + (if (p + 1) % 400 == 0 then 1 else 0);
    }
  }

  lemma {:induction false} YearsAscend(a: int, b: int)
    requires 1 <= a < b
    ensures DaysBeforeYear(a) + DaysInYear(a) <= DaysBeforeYear(b)
    decreases b - a
  {
    YearStep(a);
    if a + 1 < b {
      YearsAscend(a + 1, b);
    }
  }

  lemma MonthEnd(y: int, m: int)
    requires 1 <= m <= 12
    ensures DaysBeforeMonth(y, m) + DaysInMonth(y, m) <= DaysInYear(y)
    ensures m < 12 ==> DaysBeforeMonth(y, m) + DaysInMonth(y, m) <= DaysBeforeMonth(y, m + 1)
  {
  }

  lemma {:induction false} MonthsAscend(y: int, a: int, b: int)
    requires 1 <= a < b <= 12
    ensures DaysBeforeMonth(y, a) + DaysInMonth(y, a) <= DaysBeforeMonth(y, b)
    decreases b - a
  {
    MonthEnd(y, a);
    if a + 1 < b {
      MonthsAscend(y, a + 1, b);
    }
  }

  /** The day number increases exactly with chronological order. */
  lemma OrdinalOrder(a: Date, b: Date)
    requires ValidDate(a) && ValidDate(b)
    ensures Before(a, b) <==> Ordinal(a) < Ordinal(b)
    ensures a == b <==> Ordinal(a) == Ordinal(b)
  {
    if Before(a, b) {
      OrdinalAscends(a, b);
    } else if Before(b, a) {
      OrdinalAscends(b, a);
    }
  }

  lemma OrdinalAscends(a: Date, b: Date)
    requires ValidDate(a) && ValidDate(b) && Before(a, b)
    ensures Ordinal(a) < Ordinal(b)
  {
    if a.year < b.year {
      MonthEnd(a.year, a.month);
      YearsAscend(a.year, b.year);
    } else if a.month < b.month {
      MonthsAscend(a.year, a.month, b.month);
    }
  }

  /** str(date): the isoformat text YYYY-MM-DD. */
  function DateText(d: Date): string
    requires ValidDate(d)
  {
    Padded(d.year, 4) + "-" + Padded(d.month, 2) + "-" + Padded(d.day, 2)
  }

  /** The text of a date is ten characters long. */
  lemma DateTextLength(d: Date)
    requires ValidDate(d)
    ensures |DateText(d)| == 10
  {
    PaddedDigits(d.year, 4);
    PaddedDigits(d.month, 2);
    PaddedDigits(d.day, 2);
  }

  /** Texts that start with equally long digit fields and a dash compare by the fields' values first. */
  lemma {:induction false} FieldThenRest(p: string, x: string, q: string, y: string)
    requires |p| == |q| && AllDigits(p) && AllDigits(q)
    ensures LexLess(p + "-" + x, q + "-" + y) <==>
      DigitsValue(p) < DigitsValue(q) || (DigitsValue(p) == DigitsValue(q) && LexLess(x, y))
  {
    LexDigits(p, q);
    assert p + "-" + x == p + ("-" + x) && q + "-" + y == q + ("-" + y);
    LexConcat(p, "-" + x, q, "-" + y);
    LexConcat("-", x, "-", y);
    LexIrreflexive("-");
  }

  /** Three dash-separated digit fields of fixed widths compare as text like their values, field by field. */
  lemma {:induction false} ThreeFields(y1: string, m1: string, d1: string, y2: string, m2: string, d2: string)
    requires |y1| == |y2| && |m1| == |m2| && |d1| == |d2|
    requires AllDigits(y1) && AllDigits(m1) && AllDigits(d1)
    requires AllDigits(y2) && AllDigits(m2) && AllDigits(d2)
    ensures LexLess(y1 + "-" + (m1 + "-" + d1), y2 + "-" + (m2 + "-" + d2)) <==>
      DigitsValue(y1) < DigitsValue(y2) ||
      (DigitsValue(y1) == DigitsValue(y2) &&
        (DigitsValue(m1) < DigitsValue(m2) ||
          (DigitsValue(m1) == DigitsValue(m2) && DigitsValue(d1) < DigitsValue(d2))))
  {
    FieldThenRest(y1, m1 + "-" + d1, y2, m2 + "-" + d2);
    FieldThenRest(m1, d1, m2, d2);
    LexDigits(d1, d2);
  }

  /** The same comparison for zero-padded numbers. */
  lemma {:induction false} PaddedFieldsOrder(y1: nat, m1: nat, d1: nat, y2: nat, m2: nat, d2: nat)
    requires y1 < 10000 && y2 < 10000 && m1 < 100 && m2 < 100 && d1 < 100 && d2 < 100
    ensures LexLess(Padded(y1, 4) + "-" + (Padded(m1, 2) + "-" + Padded(d1, 2)),
                    Padded(y2, 4) + "-" + (Padded(m2, 2) + "-" + Padded(d2, 2))) <==>
      y1 < y2 || (y1 == y2 && (m1 < m2 || (m1 == m2 && d1 < d2)))
  {
    PaddedDigits(y1, 4);
    PaddedDigits(m1, 2);
    PaddedDigits(d1, 2);
    PaddedDigits(y2, 4);
    PaddedDigits(m2, 2);
    PaddedDigits(d2, 2);
    ThreeFields(Padded(y1, 4), Padded(m1, 2), Padded(d1, 2), Padded(y2, 4), Padded(m2, 2), Padded(d2, 2));
  }

  lemma DateTextParts(d: Date)
    requires ValidDate(d)
    ensures DateText(d) == Padded(d.year, 4) + "-" + (Padded(d.month, 2) + "-" + Padded(d.day, 2))
  {
  }

  /** Sorting date texts as strings sorts the dates chronologically. */
  lemma {:induction false} DateTextOrder(a: Date, b: Date)
    requires ValidDate(a) && ValidDate(b)
    ensures LexLess(DateText(a), DateText(b)) <==> Before(a, b)
  {
    DateTextParts(a);
    DateTextParts(b);
    PaddedFieldsOrder(a.year, a.month, a.day, b.year, b.month, b.day);
  }

  /** Two dates have the same text only if they are the same date. */
  lemma DateTextInjective(a: Date, b: Date)
    requires ValidDate(a) && ValidDate(b)
    ensures DateText(a) == DateText(b) <==> a == b
  {
    DateTextOrder(a, b);
    DateTextOrder(b, a);
    LexIrreflexive(DateText(a));
  }
}
