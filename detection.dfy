/**
 * The two detection rules of log_analysis.py: IP addresses with more than
 * 100 requests per day of the log on average (lines 113-115) and date-hour
 * buckets above the 0.9 quantile of the bucket counts (line 143).
 */
module Detection {
  import opened Civil
  import opened Series

  // ---------------------------------------------------------------------
  // Extremes of a column of integers
  // ---------------------------------------------------------------------

  function MaxOf(xs: seq<int>): (m: int)
    requires |xs| > 0
    ensures m in xs && forall i :: 0 <= i < |xs| ==> xs[i] <= m
  {
    if |xs| == 1 then xs[0]
    else
      var m := MaxOf(xs[1..]);
      assert m in xs;
      if xs[0] > m then xs[0] else m
  }

  function MinOf(xs: seq<int>): (m: int)
    requires |xs| > 0
    ensures m in xs && forall i :: 0 <= i < |xs| ==> m <= xs[i]
  {
    if |xs| == 1 then xs[0]
    else
      var m := MinOf(xs[1..]);
      assert m in xs;
      if xs[0] < m then xs[0] else m
  }

  // ---------------------------------------------------------------------
  // Alarming IP addresses
  // ---------------------------------------------------------------------

  /**
   * Line 113: days from the earliest to the latest date, both counted,
   * given each record's date as a day number.
   */
  function DayRange(days: seq<int>): (n: int)
    requires |days| > 0
    ensures n >= 1
  {
    MaxOf(days) - MinOf(days) + 1
  }

  /** The dates as day numbers, so that a difference of dates is a difference of numbers. */
  function DayNumbers(dates: seq<Date>): (days: seq<int>)
    requires forall i :: 0 <= i < |dates| ==> ValidDate(dates[i])
    ensures |days| == |dates| && forall i :: 0 <= i < |dates| ==> days[i] == Ordinal(dates[i])
  {
    seq(|dates|, i requires 0 <= i < |dates| => Ordinal(dates[i]))
  }

  /**
   * The day range is one more than the widest gap between two dates of
   * the log: every two dates are at most that many days apart less one,
   * and some two are exactly that.
   */
  lemma DayRangeSpan(dates: seq<Date>)
    requires |dates| > 0 && forall i :: 0 <= i < |dates| ==> ValidDate(dates[i])
    ensures var n := DayRange(DayNumbers(dates));
      (forall i, j :: 0 <= i < |dates| && 0 <= j < |dates| ==> Ordinal(dates[j]) - Ordinal(dates[i]) <= n - 1) &&
      (exists i, j :: 0 <= i < |dates| && 0 <= j < |dates| && Ordinal(dates[j]) - Ordinal(dates[i]) == n - 1)
  {
    var days := DayNumbers(dates);
    var hi := MaxOf(days);
    var lo := MinOf(days);
    var j :| 0 <= j < |days| && days[j] == hi;
    var i :| 0 <= i < |days| && days[i] == lo;
    assert Ordinal(dates[j]) - Ordinal(dates[i]) == DayRange(days) - 1;
  }

  /** A log whose records all fall on one day has a day range of 1. */
  lemma OneDayRange(dates: seq<Date>)
    requires |dates| > 0 && forall i :: 0 <= i < |dates| ==> dates[i] == dates[0] && ValidDate(dates[i])
    ensures DayRange(DayNumbers(dates)) == 1
  {
    var days := DayNumbers(dates);
    var i :| 0 <= i < |days| && days[i] == MaxOf(days);
    var j :| 0 <= j < |days| && days[j] == MinOf(days);
  }

  /** Line 115: the IP entries with more than 100 requests per day of the range. */
  function Alarming(ipCounts: Table<string>, dayRange: int): Table<string> {
    Above(ipCounts, (100 * dayRange) as real)
  }

  /**
   * An IP is flagged exactly when its count is strictly greater than 100
   * times the day range; the flagged entries are entries of the IP table,
   * and the largest counts of it when the table is sorted by count.
   */
  lemma AlarmingExactly(ipCounts: Table<string>, dayRange: int)
    ensures var r := Alarming(ipCounts, dayRange);
      (forall e :: e in r <==> e in ipCounts && e.count > 100 * dayRange) &&
      (ByCountDesc(ipCounts) ==> r == ipCounts[..|r|])
  {
    if ByCountDesc(ipCounts) {
      AbovePrefix(ipCounts, (100 * dayRange) as real);
    }
  }

  /** With a day range of 2, an IP with 200 requests is not flagged and one with 201 is. */
  lemma AlarmingBoundary()
    ensures Alarming([Entry("10.0.0.1", 201), Entry("10.0.0.2", 200)], 2) == [Entry("10.0.0.1", 201)]
  {
    var t := [Entry("10.0.0.1", 201), Entry("10.0.0.2", 200)];
    assert t[1..][1..] == [];
    assert Above(t[1..], 200.0) == [];
  }

  // ---------------------------------------------------------------------
  // The 0.9 quantile and the peak buckets
  // ---------------------------------------------------------------------

  predicate Ascending(v: seq<nat>) {
    forall i, j :: 0 <= i < j < |v| ==> v[i] <= v[j]
  }

  function InsertAsc(x: nat, s: seq<nat>): (r: seq<nat>)
    ensures |r| == |s| + 1
    ensures multiset(r) == multiset(s) + multiset{x}
  {
    if s == [] || x <= s[0] then [x] + s
    else
      assert s == [s[0]] + s[1..];
      [s[0]] + InsertAsc(x, s[1..])
  }

  /** The counts in ascending order, as the quantile reads them. */
  function SortAsc(xs: seq<nat>): (r: seq<nat>)
    ensures |r| == |xs|
    ensures multiset(r) == multiset(xs)
  {
    if xs == [] then []
    else
      assert xs == [xs[0]] + xs[1..];
      InsertAsc(xs[0], SortAsc(xs[1..]))
  }

  /** Inserting a value no smaller than a bound into values no smaller than it keeps the bound. */
  lemma {:induction false} InsertAscLower(x: nat, s: seq<nat>, b: nat)
    requires b <= x && forall i :: 0 <= i < |s| ==> b <= s[i]
    ensures forall i :: 0 <= i < |InsertAsc(x, s)| ==> b <= InsertAsc(x, s)[i]
  {
    if s != [] && x > s[0] {
      InsertAscLower(x, s[1..], b);
      assert InsertAsc(x, s) == [s[0]] + InsertAsc(x, s[1..]);
    }
  }

  lemma {:induction false} InsertAscSorted(x: nat, s: seq<nat>)
    requires Ascending(s)
    ensures Ascending(InsertAsc(x, s))
  {
    if s != [] && x > s[0] {
      InsertAscSorted(x, s[1..]);
      var tail := InsertAsc(x, s[1..]);
      InsertAscLower(x, s[1..], s[0]);
      var r := InsertAsc(x, s);
      assert r == [s[0]] + tail;
      forall i, j | 0 <= i < j < |r|
        ensures r[i] <= r[j]
      {
        assert r[j] == tail[j - 1];
        if i > 0 {
          assert r[i] == tail[i - 1];
        }
      }
    }
  }

  lemma {:induction false} SortAscSorted(xs: seq<nat>)
    ensures Ascending(SortAsc(xs))
  {
    if xs != [] {
      SortAscSorted(xs[1..]);
      InsertAscSorted(xs[0], SortAsc(xs[1..]));
    }
  }

  /** Sorting what is already in order changes nothing. */
  lemma {:induction false} SortAscSortedInput(xs: seq<nat>)
    requires Ascending(xs)
    ensures SortAsc(xs) == xs
  {
    if xs != [] {
      SortAscSortedInput(xs[1..]);
      assert xs == [xs[0]] + xs[1..];
      if xs[1..] != [] {
        assert xs[0] <= xs[1..][0];
      }
    }
  }

  /**
   * The position of `quantile(0.9)` among n sorted values is (n-1)*0.9,
   * 0.9 of the way from the first to the last: its whole part and its
   * tenths. Both are exact, since (n-1)*0.9 == 9*(n-1)/10.
   */
  function PositionWhole(n: nat): (lo: nat)
    requires n > 0
    ensures lo < n && 10 * lo <= 9 * (n - 1) < 10 * lo + 10
  {
    (9 * (n - 1)) / 10
  }

  function PositionTenths(n: nat): (r: nat)
    requires n > 0
    ensures r < 10
  {
    9 * (n - 1) - 10 * PositionWhole(n)
  }

  /**
   * `r` steps of length `d`, one after the other: the `r` tenths of the gap
   * that the linear interpolation of line 143 adds to the lower value.
   */
  function Steps(d: real, r: nat): real {
    if r == 0 then 0.0 else Steps(d, r - 1) + d
  }

  /** r steps of length d cover r * d; gives the interpolated value in closed form. */
  lemma {:induction false} StepsProduct(d: real, r: nat)
    ensures Steps(d, r) == r as real * d
  {
    if r > 0 {
      StepsProduct(d, r - 1);
    }
  }

  /** Steps of a non-negative length cover a non-negative distance: the interpolation never goes below the lower value. */
  lemma {:induction false} StepsNonNegative(d: real, r: nat)
    requires 0.0 <= d
    ensures 0.0 <= Steps(d, r)
  {
    if r > 0 {
      StepsNonNegative(d, r - 1);
    }
  }

  /** r steps and then k more are r + k steps; splits the ten tenths of the gap at the position's tenths. */
  lemma {:induction false} StepsAdd(d: real, r: nat, k: nat)
    ensures Steps(d, r) + Steps(d, k) == Steps(d, r + k)
  {
    if k > 0 {
      StepsAdd(d, r, k - 1);
    }
  }

  /** At most ten steps of a non-negative length cover at most ten of them: the interpolation stays below the upper value. */
  lemma StepsBounds(d: real, r: nat)
    requires 0.0 <= d && r <= 10
    ensures 0.0 <= Steps(d, r) <= 10.0 * d
  {
    StepsAdd(d, r, 10 - r);
    StepsNonNegative(d, r);
    StepsNonNegative(d, 10 - r);
    StepsProduct(d, 10);
  }

  /**
   * The value `r` tenths of the way from `v[lo]` to the next value, as
   * linear interpolation reads it; the last value stands alone.
   */
  function Interpolate(v: seq<nat>, lo: nat, r: nat): real
    requires lo < |v|
  {
    if lo + 1 < |v| then v[lo] as real + Steps(v[lo + 1] as real - v[lo] as real, r) / 10.0
    else v[lo] as real
  }

  /** An interpolated value lies between the two values it interpolates. */
  lemma InterpolateBounds(v: seq<nat>, lo: nat, r: nat)
    requires lo < |v| && r < 10 && Ascending(v)
    ensures v[lo] as real <= Interpolate(v, lo, r)
    ensures lo + 1 < |v| ==> Interpolate(v, lo, r) <= v[lo + 1] as real
    ensures lo + 1 == |v| ==> Interpolate(v, lo, r) == v[lo] as real
  {
    if lo + 1 < |v| {
      StepsBounds(v[lo + 1] as real - v[lo] as real, r);
    }
  }

  /**
   * Series.quantile(0.9) with linear interpolation: the value at position
   * (n-1)*0.9 of the sorted counts, interpolated between its two neighbours.
   */
  function Quantile(xs: seq<nat>): real
    requires |xs| > 0
  {
    Interpolate(SortAsc(xs), PositionWhole(|xs|), PositionTenths(|xs|))
  }

  function Ints(xs: seq<nat>): (r: seq<int>)
    ensures |r| == |xs| && forall i :: 0 <= i < |xs| ==> r[i] == xs[i]
  {
    seq(|xs|, i requires 0 <= i < |xs| => xs[i] as int)
  }

  /** The quantile lies between the smallest and the largest count. */
  lemma QuantileBounds(xs: seq<nat>)
    requires |xs| > 0
    ensures MinOf(Ints(xs)) as real <= Quantile(xs) <= MaxOf(Ints(xs)) as real
  {
    var v := SortAsc(xs);
    SortAscSorted(xs);
    var lo, r := PositionWhole(|xs|), PositionTenths(|xs|);
    InterpolateBounds(v, lo, r);
    var hi := if lo + 1 < |v| then lo + 1 else lo;
    assert v[lo] in multiset(xs) && v[hi] in multiset(xs);
    var a :| 0 <= a < |xs| && xs[a] == v[lo];
    var b :| 0 <= b < |xs| && xs[b] == v[hi];
    assert Ints(xs)[a] == v[lo] && Ints(xs)[b] == v[hi];
  }

  /** The counts of a table, in its order. */
  function Counts<K(!new)>(t: Table<K>): (c: seq<nat>)
    ensures |c| == |t| && forall i :: 0 <= i < |t| ==> c[i] == t[i].count
  {
    seq(|t|, i requires 0 <= i < |t| => t[i].count)
  }

  /**
   * Line 143: the buckets whose count is strictly above the 0.9 quantile of
   * all bucket counts. An empty table has no quantile and no peak.
   */
  function Peaks<K(==,!new)>(t: Table<K>): Table<K> {
    if t == [] then [] else Above(t, Quantile(Counts(t)))
  }

  /** A bucket is a peak exactly when its count exceeds the quantile. */
  lemma PeaksExactly<K(!new)>(t: Table<K>)
    requires t != []
    ensures forall e :: e in Peaks(t) <==> e in t && e.count as real > Quantile(Counts(t))
  {
  }

  /** When every bucket has the same count there is no peak. */
  lemma PeaksOfEqualCounts<K(!new)>(t: Table<K>, c: nat)
    requires forall i :: 0 <= i < |t| ==> t[i].count == c
    ensures Peaks(t) == []
  {
    if t != [] {
      var xs := Counts(t);
      QuantileBounds(xs);
      var i :| 0 <= i < |xs| && Ints(xs)[i] == MaxOf(Ints(xs));
      var j :| 0 <= j < |xs| && Ints(xs)[j] == MinOf(Ints(xs));
      AboveNone(t, Quantile(xs));
    }
  }

  /** The quantile of the counts 1, 2, 3, 4, 5 is 4.6. */
  lemma QuantileOneToFive()
    ensures Quantile([1, 2, 3, 4, 5]) == 4.6
  {
    var xs: seq<nat> := [1, 2, 3, 4, 5];
    assert PositionWhole(5) == 3 && PositionTenths(5) == 6;
    assert Ascending(xs);
    SortAscSortedInput(xs);
    assert Quantile(xs) == Interpolate(xs, 3, 6);
    StepsProduct(1.0, 6);
    assert Interpolate(xs, 3, 6) == 4.0 + Steps(1.0, 6) / 10.0;
  }

  /** For counts 1, 2, 3, 4, 5 only the bucket of 5 is above the quantile. */
  lemma PeaksOfOneToFive<K(!new)>(a: K, b: K, c: K, d: K, e: K)
    ensures Peaks([Entry(a, 1), Entry(b, 2), Entry(c, 3), Entry(d, 4), Entry(e, 5)]) == [Entry(e, 5)]
  {
    var t := [Entry(a, 1), Entry(b, 2), Entry(c, 3), Entry(d, 4), Entry(e, 5)];
    var xs := Counts(t);
    assert xs == [1, 2, 3, 4, 5];
    QuantileOneToFive();
    assert Quantile(xs) == 4.6;
    var t5 := [Entry(e, 5)];
    var t4 := [Entry(d, 4)] + t5;
    var t3 := [Entry(c, 3)] + t4;
    var t2 := [Entry(b, 2)] + t3;
    FiveEntries(Entry(a, 1), Entry(b, 2), Entry(c, 3), Entry(d, 4), Entry(e, 5));
    AboveCons(Entry(e, 5), [], 4.6);
    assert [Entry(e, 5)] + [] == t5;
    AboveCons(Entry(d, 4), t5, 4.6);
    AboveCons(Entry(c, 3), t4, 4.6);
    AboveCons(Entry(b, 2), t3, 4.6);
    AboveCons(Entry(a, 1), t2, 4.6);
  }

  lemma FiveEntries<K>(a: Entry<K>, b: Entry<K>, c: Entry<K>, d: Entry<K>, e: Entry<K>)
    ensures [a, b, c, d, e] == [a] + ([b] + ([c] + ([d] + [e])))
  {
  }
}
