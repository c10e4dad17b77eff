/**
 * The analysis object of log_analysis.py: it loads the csv rows, keeps the
 * cleaned frame, and each analysis stores the frequency tables it builds
 * in its own fields (lines 11-182). Printing is left out: each method
 * returns what it would print.
 */
module Analysis {
  import opened Wrappers
  import opened Text
  import opened Civil
  import opened Records
  import opened Series
  import opened Detection

  // ---------------------------------------------------------------------
  // The cleaned frame and its columns
  // ---------------------------------------------------------------------

  /**
   * What every record the cleaning builds satisfies: a real timestamp, and
   * date, hour, date-hour key and page main derived from it as lines 37-61
   * derive them.
   */
  predicate WellFormed(rec: Record) {
    ValidDateTime(rec.datetime) && rec.hour == rec.datetime.hour &&
    rec.date == DateText(rec.datetime.date) &&
    rec.dateHour == DateHourKey(rec.datetime.date, rec.datetime.hour) &&
    '/' !in rec.pageMain
  }

  predicate AllWellFormed(recs: seq<Record>) {
    forall i :: 0 <= i < |recs| ==> WellFormed(recs[i])
  }

  /** Every record has a real timestamp. */
  predicate AllTimed(recs: seq<Record>) {
    forall i :: 0 <= i < |recs| ==> ValidDateTime(recs[i].datetime)
  }

  /** A well-formed record has a real timestamp. */
  lemma WellFormedTimed(recs: seq<Record>)
    requires AllWellFormed(recs)
    ensures AllTimed(recs)
  { }

  lemma BuildWellFormed(raw: RawRecord, t: DateTime, first: string, pieces: seq<string>, size: int)
    requires ValidDateTime(t) && |pieces| >= 2
    ensures WellFormed(Build(raw, t, first, pieces, size))
  {
    DateTextNoSpace(t.date);
    TrimNoSpace(DateText(t.date));
    DateHourShape(t.date, t.hour);
    PageMainNoSlash(pieces[1]);
  }

  lemma RowWellFormed(row: Row, read: DatetimeReader)
    requires CleanRow(row, read).Success?
    ensures WellFormed(CleanRow(row, read).value)
  {
    var raw := LoadRow(row).value;
    assert CleanRow(row, read) == CleanRaw(raw, read);
    CleanRawRecord(raw, read);
    BuildWellFormed(raw, read(raw.datetime).value, FirstChar(raw).value, RequestPieces(raw.request), ObjectSize(raw).value);
  }

  /** Every record of a cleaned log is well formed. */
  lemma CleanedRecords(rows: seq<Row>)
    requires CleanLog(rows).Success?
    ensures AllWellFormed(CleanLog(rows).value)
  {
    CleanedRecordsWith(rows, LogReader);
  }

  lemma CleanedRecordsWith(rows: seq<Row>, read: DatetimeReader)
    requires Clean(rows, false, read).Success?
    ensures AllWellFormed(Clean(rows, false, read).value)
  {
    var recs := Clean(rows, false, read).value;
    CleanAgreesWithRows(rows, read);
    forall i | 0 <= i < |recs|
      ensures WellFormed(recs[i])
    {
      RowWellFormed(rows[i], read);
    }
  }

  function Ips(recs: seq<Record>): seq<string> {
    seq(|recs|, i requires 0 <= i < |recs| => recs[i].ip)
  }

  function Countries(recs: seq<Record>): seq<string> {
    seq(|recs|, i requires 0 <= i < |recs| => recs[i].country)
  }

  function Datetimes(recs: seq<Record>): seq<DateTime> {
    seq(|recs|, i requires 0 <= i < |recs| => recs[i].datetime)
  }

  /** The Date column after the final strip of line 67: the date as text. */
  function Dates(recs: seq<Record>): seq<string> {
    seq(|recs|, i requires 0 <= i < |recs| => recs[i].date)
  }

  function Hours(recs: seq<Record>): seq<int> {
    seq(|recs|, i requires 0 <= i < |recs| => recs[i].hour)
  }

  function DateHours(recs: seq<Record>): seq<string> {
    seq(|recs|, i requires 0 <= i < |recs| => recs[i].dateHour)
  }

  function CodeClasses(recs: seq<Record>): seq<string> {
    seq(|recs|, i requires 0 <= i < |recs| => recs[i].codeClass)
  }

  function Pages(recs: seq<Record>): seq<string> {
    seq(|recs|, i requires 0 <= i < |recs| => recs[i].page)
  }

  function PageMains(recs: seq<Record>): seq<string> {
    seq(|recs|, i requires 0 <= i < |recs| => recs[i].pageMain)
  }

  function UserAgents(recs: seq<Record>): seq<string> {
    seq(|recs|, i requires 0 <= i < |recs| => recs[i].userAgent)
  }

  /** The index of a table, in its order. */
  function Keys<K>(t: Table<K>): seq<K> {
    seq(|t|, i requires 0 <= i < |t| => t[i].key)
  }

  // ---------------------------------------------------------------------
  // Orders used by sort_index and by min/max of the Datetime column
  // ---------------------------------------------------------------------

  /** Text compares character by character: a total order. */
  lemma StringOrderTotal()
    ensures Total(LexLess)
  {
    forall a: string, b: string | a != b
      ensures LexLess(a, b) || LexLess(b, a)
    {
      LexTotal(a, b);
    }
    forall a: string, b: string, c: string | LexLess(a, b) && LexLess(b, c)
      ensures LexLess(a, c)
    {
      LexTransitive(a, b, c);
    }
  }

  predicate IntLess(a: int, b: int) {
    a < b
  }

  lemma IntOrderTotal()
    ensures Total(IntLess)
  {
  }

  /** Chronological order of timestamps: by date, then hour, minute and second. */
  predicate Earlier(a: DateTime, b: DateTime) {
    Before(a.date, b.date) ||
    (a.date == b.date &&
     (a.hour < b.hour || (a.hour == b.hour &&
      (a.minute < b.minute || (a.minute == b.minute && a.second < b.second)))))
  }

  /** A timestamp as a count of seconds. */
  function Moment(t: DateTime): int
    requires ValidDateTime(t)
  {
    Ordinal(t.date) * 86400 + t.hour * 3600 + t.minute * 60 + t.second
  }

  /** Comparing second counts is comparing timestamps. */
  lemma MomentOrder(a: DateTime, b: DateTime)
    requires ValidDateTime(a) && ValidDateTime(b)
    ensures Earlier(a, b) <==> Moment(a) < Moment(b)
    ensures a == b <==> Moment(a) == Moment(b)
  {
    OrdinalOrder(a.date, b.date);
  }

  /** Line 92: `min()` of the Datetime column. */
  function Earliest(ts: seq<DateTime>): (r: DateTime)
    requires |ts| > 0 && forall i :: 0 <= i < |ts| ==> ValidDateTime(ts[i])
    ensures exists i :: 0 <= i < |ts| && ts[i] == r
    ensures ValidDateTime(r) && forall i :: 0 <= i < |ts| ==> Moment(r) <= Moment(ts[i])
  {
    if |ts| == 1 then ts[0]
    else
      var m := Earliest(ts[1..]);
      if Moment(ts[0]) <= Moment(m) then ts[0] else m
  }

  /** Line 93: `max()` of the Datetime column. */
  function Latest(ts: seq<DateTime>): (r: DateTime)
    requires |ts| > 0 && forall i :: 0 <= i < |ts| ==> ValidDateTime(ts[i])
    ensures exists i :: 0 <= i < |ts| && ts[i] == r
    ensures ValidDateTime(r) && forall i :: 0 <= i < |ts| ==> Moment(ts[i]) <= Moment(r)
  {
    if |ts| == 1 then ts[0]
    else
      var m := Latest(ts[1..]);
      if Moment(m) <= Moment(ts[0]) then ts[0] else m
  }

  // ---------------------------------------------------------------------
  // Summary statistics (lines 87-102)
  // ---------------------------------------------------------------------

  datatype Summary = Summary(total: nat, first: DateTime, last: DateTime,
                             uniqueIps: nat, uniqueCountries: nat, validRequests: nat)

  /**
   * What the summary prints; none when `.loc['2']` raises because no
   * record has code class "2" (an empty log among them).
   */
  function Summarize(recs: seq<Record>): (r: Option<Summary>)
    requires AllTimed(recs)
    ensures r.Some? ==> recs != []
  {
    LookupCounts(CodeClasses(recs), "2");
    match Lookup(ValueCounts(CodeClasses(recs)), "2")
    case None => None
    case Some(valid) =>
      var times := Datetimes(recs);
      Some(Summary(|recs|, Earliest(times), Latest(times), NUnique(Ips(recs)), NUnique(Countries(recs)), valid))
  }

  /** The summary is printed exactly when some record is a 2xx. */
  lemma SummaryExists(recs: seq<Record>)
    requires AllTimed(recs)
    ensures Summarize(recs).Some? <==> exists i :: 0 <= i < |recs| && recs[i].codeClass == "2"
  {
    var classes := CodeClasses(recs);
    LookupCounts(classes, "2");
    if "2" in classes {
      var k :| 0 <= k < |classes| && classes[k] == "2";
      assert recs[k].codeClass == "2";
    }
    if exists i :: 0 <= i < |recs| && recs[i].codeClass == "2" {
      var k :| 0 <= k < |recs| && recs[k].codeClass == "2";
      assert classes[k] == "2";
    }
  }

  /**
   * The first and last logs are timestamps of records, and no record is
   * earlier than the first or later than the last.
   */
  lemma SummaryTimes(recs: seq<Record>)
    requires AllTimed(recs) && Summarize(recs).Some?
    ensures var s := Summarize(recs).value;
      (exists i :: 0 <= i < |recs| && recs[i].datetime == s.first) &&
      (exists i :: 0 <= i < |recs| && recs[i].datetime == s.last) &&
      forall i :: 0 <= i < |recs| ==> !Earlier(recs[i].datetime, s.first) && !Earlier(s.last, recs[i].datetime)
  {
    var s := Summarize(recs).value;
    var times := Datetimes(recs);
    assert s.first == Earliest(times) && s.last == Latest(times);
    forall i | 0 <= i < |recs|
      ensures !Earlier(recs[i].datetime, s.first) && !Earlier(s.last, recs[i].datetime)
    {
      assert times[i] == recs[i].datetime;
      MomentOrder(recs[i].datetime, s.first);
      MomentOrder(s.last, recs[i].datetime);
    }
  }

  /**
   * The counts of the summary: all records, and as many IPs and countries
   * as the records hold distinct values of, which is also the length of
   * their tables.
   */
  lemma SummaryCounts(recs: seq<Record>)
    requires AllTimed(recs) && Summarize(recs).Some?
    ensures var s := Summarize(recs).value;
      s.total == |recs| &&
      s.uniqueIps == |set i | 0 <= i < |recs| :: Ips(recs)[i]| == |ValueCounts(Ips(recs))| &&
      s.uniqueCountries == |set i | 0 <= i < |recs| :: Countries(recs)[i]| == |ValueCounts(Countries(recs))|
  {
    DistinctPositions(Ips(recs), |recs|);
    DistinctPositions(Countries(recs), |recs|);
    ValueCountsSize(Ips(recs));
    ValueCountsSize(Countries(recs));
  }

  /** The valid requests are the records whose code class is "2". */
  lemma SummaryValidRequests(recs: seq<Record>)
    requires AllTimed(recs) && Summarize(recs).Some?
    ensures Summarize(recs).value.validRequests == |set i | 0 <= i < |recs| && CodeClasses(recs)[i] == "2"|
  {
    var classes := CodeClasses(recs);
    LookupCounts(classes, "2");
    OccurrencesCount(classes, "2", |recs|);
  }

  /** `nunique()` counts the distinct values found at the `n` positions. */
  lemma DistinctPositions<K(!new)>(xs: seq<K>, n: nat)
    requires n == |xs|
    ensures NUnique(xs) == |set i | 0 <= i < n :: xs[i]|
  {
    assert (set x | x in xs) == set i | 0 <= i < n :: xs[i];
  }

  /** The number of occurrences of a value is the number of positions holding it. */
  lemma {:induction false} OccurrencesCount(xs: seq<string>, k: string, n: nat)
    requires n == |xs|
    ensures multiset(xs)[k] == |set i | 0 <= i < n && xs[i] == k|
  {
    if xs != [] {
      var init := xs[..|xs| - 1];
      OccurrencesCount(init, k, n - 1);
      assert xs == init + [xs[|xs| - 1]];
      var before := set i | 0 <= i < |init| && init[i] == k;
      var all := set i | 0 <= i < |xs| && xs[i] == k;
      if xs[|xs| - 1] == k {
        assert all == before + {|xs| - 1};
      } else {
        assert all == before;
      }
    }
  }

  // ---------------------------------------------------------------------
  // IP addresses (lines 105-119)
  // ---------------------------------------------------------------------

  /** Line 113: the records' dates. */
  function DayDates(recs: seq<Record>): (dates: seq<Date>)
    requires AllTimed(recs)
    ensures |dates| == |recs| && forall i :: 0 <= i < |recs| ==> ValidDate(dates[i])
  {
    seq(|recs|, i requires 0 <= i < |recs| => recs[i].datetime.date)
  }

  /** Line 113: days from the log's first date to its last, both counted. */
  function LogDayRange(recs: seq<Record>): int
    requires AllTimed(recs) && recs != []
  {
    DayRange(DayNumbers(DayDates(recs)))
  }

  /**
   * The day range is one more than the largest number of days between two
   * records of the log: no two are further apart, and some two are exactly
   * that far apart.
   */
  lemma LogDayRangeSpan(recs: seq<Record>)
    requires AllTimed(recs) && recs != []
    ensures var n := LogDayRange(recs);
      (forall i, j :: 0 <= i < |recs| && 0 <= j < |recs| ==>
         Ordinal(recs[j].datetime.date) - Ordinal(recs[i].datetime.date) <= n - 1) &&
      (exists i, j :: 0 <= i < |recs| && 0 <= j < |recs| &&
         Ordinal(recs[j].datetime.date) - Ordinal(recs[i].datetime.date) == n - 1)
  {
    var dates := DayDates(recs);
    DayRangeSpan(dates);
    assert forall i :: 0 <= i < |recs| ==> dates[i] == recs[i].datetime.date;
  }

  /**
   * Lines 107-108 and 113-115: the IPs with more requests than 100 per day of
   * the log's range. Line 113 raises on an empty log, which has no range.
   */
  function AlarmingIps(recs: seq<Record>): Table<string>
    requires AllTimed(recs) && recs != []
  {
    Alarming(ValueCounts(Ips(recs)), LogDayRange(recs))
  }

  /**
   * An IP is flagged, with its number of requests, exactly when it made
   * more than 100 requests per day of the range.
   */
  lemma AlarmingIpsExactly(recs: seq<Record>)
    requires AllTimed(recs) && recs != []
    ensures forall e :: e in AlarmingIps(recs) <==>
      e.key in Ips(recs) && e.count == multiset(Ips(recs))[e.key] && e.count > 100 * LogDayRange(recs)
  {
    ValueCountsEntries(Ips(recs));
    AlarmingExactly(ValueCounts(Ips(recs)), LogDayRange(recs));
  }

  // ---------------------------------------------------------------------
  // Dates and times (lines 122-145)
  // ---------------------------------------------------------------------

  /**
   * Line 126: requests per day, ordered by the date text, which is the
   * order of the dates: every day of the log once, with its number of
   * records, earliest day first.
   */
  lemma DateCountsChronological(recs: seq<Record>)
    requires AllWellFormed(recs)
    ensures var t := SortByKey(ValueCounts(Dates(recs)), LexLess);
      CountsOf(t, Dates(recs)) && Sum(t) == |recs| &&
      forall i, j, a, b :: (0 <= i < j < |t| && 0 <= a < |recs| && 0 <= b < |recs| &&
        recs[a].date == t[i].key && recs[b].date == t[j].key) ==>
        Before(recs[a].datetime.date, recs[b].datetime.date)
  {
    var t := SortByKey(ValueCounts(Dates(recs)), LexLess);
    StringOrderTotal();
    SortIndexTable(Dates(recs), LexLess);
    forall i, j, a, b | 0 <= i < j < |t| && 0 <= a < |recs| && 0 <= b < |recs| &&
        recs[a].date == t[i].key && recs[b].date == t[j].key
      ensures Before(recs[a].datetime.date, recs[b].datetime.date)
    {
      DateTextOrder(recs[a].datetime.date, recs[b].datetime.date);
    }
  }

  /**
   * Line 131: requests per hour of day, hours ascending; every hour of the
   * log once, each an hour of the clock.
   */
  lemma HourCountsTable(recs: seq<Record>)
    requires AllWellFormed(recs)
    ensures var t := SortByKey(ValueCounts(Hours(recs)), IntLess);
      CountsOf(t, Hours(recs)) && Sum(t) == |recs| &&
      (forall i, j :: 0 <= i < j < |t| ==> t[i].key < t[j].key) &&
      forall i :: 0 <= i < |t| ==> 0 <= t[i].key < 24
  {
    var t := SortByKey(ValueCounts(Hours(recs)), IntLess);
    IntOrderTotal();
    SortIndexTable(Hours(recs), IntLess);
    forall i | 0 <= i < |t|
      ensures 0 <= t[i].key < 24
    {
      assert HasKey(t, t[i].key);
      var a :| 0 <= a < |recs| && Hours(recs)[a] == t[i].key;
    }
  }

  /** Line 135: the top five hours, by number of requests. */
  function TopHours(hourCounts: Table<int>): seq<int> {
    Keys(Head(SortByCount(hourCounts), 5))
  }

  /**
   * The top hours are at most five hours of the table, and no hour left out
   * has more requests than one chosen.
   */
  lemma TopHoursLargest(hourCounts: Table<int>)
    ensures var top := Head(SortByCount(hourCounts), 5);
      TopHours(hourCounts) == Keys(top) && |top| == Min(5, |hourCounts|) &&
      (forall e :: e in top ==> e in hourCounts) &&
      forall e, f :: e in top && f in hourCounts && f !in top ==> e.count >= f.count
  {
    var sorted := SortByCount(hourCounts);
    var top := Head(sorted, 5);
    SortByCountSorted(hourCounts);
    forall e | e in top
      ensures e in hourCounts
    {
      assert e in multiset(sorted);
    }
    forall e, f | e in top && f in hourCounts && f !in top
      ensures e.count >= f.count
    {
      assert f in multiset(sorted);
      var i :| 0 <= i < |top| && top[i] == e;
      var j :| 0 <= j < |sorted| && sorted[j] == f;
      assert j >= |top|;
    }
  }

  /**
   * Lines 138-145: the date-hour buckets in order of day, then hour, and
   * the peaks: the buckets whose count is strictly above the 0.9 quantile.
   */
  lemma DateHourBuckets(recs: seq<Record>)
    requires AllWellFormed(recs)
    ensures var t := SortByKey(ValueCounts(DateHours(recs)), LexLess);
      CountsOf(t, DateHours(recs)) && Sum(t) == |recs| &&
      (forall i, j, a, b :: (0 <= i < j < |t| && 0 <= a < |recs| && 0 <= b < |recs| &&
        recs[a].dateHour == t[i].key && recs[b].dateHour == t[j].key) ==>
        Before(recs[a].datetime.date, recs[b].datetime.date) ||
        (recs[a].datetime.date == recs[b].datetime.date && recs[a].hour < recs[b].hour)) &&
      (t != [] ==> forall e :: e in Peaks(t) <==> e in t && e.count as real > Quantile(Counts(t)))
  {
    var t := SortByKey(ValueCounts(DateHours(recs)), LexLess);
    StringOrderTotal();
    SortIndexTable(DateHours(recs), LexLess);
    forall i, j, a, b | 0 <= i < j < |t| && 0 <= a < |recs| && 0 <= b < |recs| &&
        recs[a].dateHour == t[i].key && recs[b].dateHour == t[j].key
      ensures Before(recs[a].datetime.date, recs[b].datetime.date) ||
        (recs[a].datetime.date == recs[b].datetime.date && recs[a].hour < recs[b].hour)
    {
      var x := recs[a].datetime;
      var y := recs[b].datetime;
      DateHourOrder(x.date, x.hour, y.date, y.hour);
    }
    if t != [] {
      PeaksExactly(t);
    }
  }

  // ---------------------------------------------------------------------
  // The analysis object (lines 11-24 and 69-182)
  // ---------------------------------------------------------------------

  /** Everything the full report prints, in the order it prints it. */
  datatype Report = Report(summary: Summary, topIps: Table<string>, alarming: Table<string>,
                           dateCounts: Table<string>, hourCounts: Table<int>, topHours: seq<int>,
                           dateHourCounts: Table<string>, peaks: Table<string>,
                           countries: Table<string>, topMainPages: Table<string>, topPages: Table<string>,
                           topUserAgents: Table<string>, rareUserAgents: Table<string>)

  class LogFileAnalysis {
    /**
     * Lines 31-34: the reader of the Datetime column, pd.to_datetime with its
     * fixed format; for the log it is `LogReader`.
     */
    const read: DatetimeReader
    /**
     * Line 55 as written when true: the source itself. When false, the
     * cleaning with line 55 corrected, as `CleanLog` runs it.
     */
    const asWritten: bool
    /** Line 17: the rows the csv reader gives, one per log line. */
    var logFile: seq<Row>
    /** Lines 23-67: the cleaned frame, or the error its construction raises. */
    var logDf: Result<seq<Record>, CleanError>
    var ipCounts: Table<string>
    var ipAlarming: Table<string>
    var dateCounts: Table<string>
    var hourCounts: Table<int>
    var dateHourCounts: Table<string>
    var topCountryCodes: Table<string>
    var mainPagesCount: Table<string>
    var pagesCount: Table<string>
    var userAgentCounts: Table<string>

    /** A cleaned frame holds only well-formed records. */
    predicate Valid()
      reads this`logDf
    {
      logDf.Success? ==> AllWellFormed(logDf.value)
    }

    /**
     * Lines 12-14. The file is given as the rows its csv reader yields, and
     * the Datetime column's reader as `read`. A load that raises leaves
     * `logDf` a failure.
     */
    constructor (reader: seq<Row>, read: DatetimeReader, asWritten: bool)
      ensures this.read == read && this.asWritten == asWritten
      ensures logFile == reader && logDf == Clean(reader, asWritten, read) && Valid()
      ensures ipCounts == [] && ipAlarming == [] && dateCounts == [] && hourCounts == [] &&
        dateHourCounts == [] && topCountryCodes == [] && mainPagesCount == [] &&
        pagesCount == [] && userAgentCounts == []
    {
      this.read, this.asWritten := read, asWritten;
      logFile := [];
      logDf := Failure(FieldCountMismatch);
      ipCounts, ipAlarming, dateCounts, hourCounts := [], [], [], [];
      dateHourCounts, topCountryCodes, mainPagesCount := [], [], [];
      pagesCount, userAgentCounts := [], [];
      new;
      LoadData(reader);
    }

    /** Lines 16-24: append every row, then clean. */
    method LoadData(reader: seq<Row>)
      modifies this`logFile, this`logDf
      ensures logFile == reader && logDf == Clean(reader, asWritten, read) && Valid()
    {
      logFile := [];
      var i := 0;
      while i < |reader|
        invariant 0 <= i <= |reader| && logFile == reader[..i]
      {
        logFile := logFile + [reader[i]];
        i := i + 1;
      }
      assert logFile == reader;
      CleanData();
    }

    /** Lines 26-67. */
    method CleanData()
      modifies this`logDf
      ensures logDf == Clean(logFile, asWritten, read) && Valid()
    {
      logDf := Clean(logFile, asWritten, read);
      if logDf.Success? {
        AsWrittenDiffers(logFile, read);
        CleanedRecordsWith(logFile, read);
      }
    }

    /** Lines 87-102: the summary, none when `.loc['2']` raises. */
    method PrintSummaryStatistics() returns (s: Option<Summary>)
      requires Valid() && logDf.Success?
      ensures s == Summarize(logDf.value)
    {
      s := Summarize(logDf.value);
    }

    /**
     * Lines 105-119: stores the IP table and the alarming IPs; returns the
     * top 25. Of the records it reads only what the IP column and the dates
     * give. On an empty frame the IP table is stored and line 113 raises.
     */
    method AnalyseIpAddresses() returns (top: Option<Table<string>>)
      requires logDf.Success? && AllTimed(logDf.value)
      modifies this
      ensures unchanged(this`logFile, this`logDf, this`dateCounts, this`hourCounts,
        this`dateHourCounts, this`topCountryCodes, this`mainPagesCount, this`pagesCount,
        this`userAgentCounts)
      ensures ipCounts == ValueCounts(Ips(logDf.value))
      ensures logDf.value == [] ==> top == None && ipAlarming == old(ipAlarming)
      ensures logDf.value != [] ==> top == Some(Head(ipCounts, 25)) && ipAlarming == AlarmingIps(logDf.value)
    {
      var recs := logDf.value;
      var counts := ValueCounts(Ips(recs));
      if recs == [] {
        top := None;
      } else {
        ipAlarming := AlarmingIps(recs);
        top := Some(Head(counts, 25));
      }
      ipCounts := counts;
    }

    /** Lines 122-145: stores the day, hour and day-hour tables; returns the top hours and the peaks. */
    method AnalyseDatetime() returns (topHours: seq<int>, peaks: Table<string>)
      requires Valid() && logDf.Success?
      modifies this
      ensures unchanged(this`logFile, this`logDf, this`ipCounts, this`ipAlarming,
        this`topCountryCodes, this`mainPagesCount, this`pagesCount, this`userAgentCounts)
      ensures dateCounts == SortByKey(ValueCounts(Dates(logDf.value)), LexLess)
      ensures hourCounts == SortByKey(ValueCounts(Hours(logDf.value)), IntLess)
      ensures topHours == TopHours(hourCounts)
      ensures dateHourCounts == SortByKey(ValueCounts(DateHours(logDf.value)), LexLess)
      ensures peaks == Peaks(dateHourCounts)
    {
      var recs := logDf.value;
      var days := SortByKey(ValueCounts(Dates(recs)), LexLess);
      var hours := SortByKey(ValueCounts(Hours(recs)), IntLess);
      var dayHours := SortByKey(ValueCounts(DateHours(recs)), LexLess);
      topHours, peaks := TopHours(hours), Peaks(dayHours);
      dateCounts, hourCounts, dateHourCounts := days, hours, dayHours;
    }

    /** Lines 148-154. */
    method AnalyseLocation() returns (countries: Table<string>)
      requires Valid() && logDf.Success?
      modifies this
      ensures unchanged(this`logFile, this`logDf, this`ipCounts, this`ipAlarming, this`dateCounts,
        this`hourCounts, this`dateHourCounts, this`mainPagesCount, this`pagesCount,
        this`userAgentCounts)
      ensures topCountryCodes == ValueCounts(Countries(logDf.value)) && countries == topCountryCodes
    {
      topCountryCodes := ValueCounts(Countries(logDf.value));
      countries := topCountryCodes;
    }

    /** Lines 157-169: returns the top 10 page mains and the top 25 pages. */
    method AnalyseWebPages() returns (topMain: Table<string>, topPages: Table<string>)
      requires Valid() && logDf.Success?
      modifies this
      ensures unchanged(this`logFile, this`logDf, this`ipCounts, this`ipAlarming, this`dateCounts,
        this`hourCounts, this`dateHourCounts, this`topCountryCodes, this`userAgentCounts)
      ensures mainPagesCount == ValueCounts(PageMains(logDf.value)) && topMain == Head(mainPagesCount, 10)
      ensures pagesCount == ValueCounts(Pages(logDf.value)) && topPages == Head(pagesCount, 25)
    {
      var recs := logDf.value;
      var mains := ValueCounts(PageMains(recs));
      var pages := ValueCounts(Pages(recs));
      mainPagesCount, pagesCount := mains, pages;
      topMain, topPages := Head(mains, 10), Head(pages, 25);
    }

    /** Lines 172-182: returns the 20 most and the 15 least frequent user agents. */
    method AnalyseUserAgents() returns (most: Table<string>, least: Table<string>)
      requires Valid() && logDf.Success?
      modifies this
      ensures unchanged(this`logFile, this`logDf, this`ipCounts, this`ipAlarming, this`dateCounts,
        this`hourCounts, this`dateHourCounts, this`topCountryCodes, this`mainPagesCount,
        this`pagesCount)
      ensures userAgentCounts == ValueCounts(UserAgents(logDf.value))
      ensures most == Head(userAgentCounts, 20) && least == Tail(userAgentCounts, 15)
    {
      userAgentCounts := ValueCounts(UserAgents(logDf.value));
      most := Head(userAgentCounts, 20);
      least := Tail(userAgentCounts, 15);
    }

    /** The tables the analyses store, for the records `recs`. */
    predicate Stores(recs: seq<Record>)
      requires AllTimed(recs) && recs != []
      reads this
    {
      ipCounts == ValueCounts(Ips(recs)) && ipAlarming == AlarmingIps(recs) &&
      dateCounts == SortByKey(ValueCounts(Dates(recs)), LexLess) &&
      hourCounts == SortByKey(ValueCounts(Hours(recs)), IntLess) &&
      dateHourCounts == SortByKey(ValueCounts(DateHours(recs)), LexLess) &&
      topCountryCodes == ValueCounts(Countries(recs)) &&
      mainPagesCount == ValueCounts(PageMains(recs)) && pagesCount == ValueCounts(Pages(recs)) &&
      userAgentCounts == ValueCounts(UserAgents(recs))
    }

    /** What the report printed: the summary and the selections of the stored tables. */
    predicate Prints(r: Report, summary: Summary)
      reads this
    {
      r.summary == summary && r.topIps == Head(ipCounts, 25) && r.alarming == ipAlarming &&
      r.dateCounts == dateCounts && r.hourCounts == hourCounts && r.topHours == TopHours(hourCounts) &&
      r.dateHourCounts == dateHourCounts && r.peaks == Peaks(dateHourCounts) &&
      r.countries == topCountryCodes && r.topMainPages == Head(mainPagesCount, 10) &&
      r.topPages == Head(pagesCount, 25) &&
      r.topUserAgents == Head(userAgentCounts, 20) && r.rareUserAgents == Tail(userAgentCounts, 15)
    }

    /** Lines 72-85: each analysis in turn, once the summary has printed. */
    method RunAnalyses(summary: Summary) returns (r: Report)
      requires Valid() && logDf.Success? && logDf.value != []
      modifies this
      ensures unchanged(this`logFile, this`logDf)
      ensures Stores(logDf.value) && Prints(r, summary)
    {
      WellFormedTimed(logDf.value);
      var topIps := AnalyseIpAddresses();
      var topHours, peaks := AnalyseDatetime();
      var countries := AnalyseLocation();
      var topMain, topPages := AnalyseWebPages();
      var most, least := AnalyseUserAgents();
      r := Report(summary, topIps.value, ipAlarming, dateCounts, hourCounts, topHours,
                  dateHourCounts, peaks, countries, topMain, topPages, most, least);
    }

    /**
     * Lines 69-85: the summary, then each analysis in turn. When the
     * summary raises, no analysis runs and no table changes.
     */
    method PrintFullReport() returns (report: Option<Report>)
      requires Valid() && logDf.Success?
      modifies this
      ensures unchanged(this`logFile, this`logDf)
      ensures report.Some? <==> Summarize(logDf.value).Some?
      ensures report.None? ==> unchanged(this)
      ensures report.Some? ==> Stores(logDf.value) && Prints(report.value, Summarize(logDf.value).value)
    {
      var summary := PrintSummaryStatistics();
      if summary.None? {
        return None;
      }
      var r := RunAnalyses(summary.value);
      report := Some(r);
    }
  }
}
