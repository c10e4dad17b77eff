/**
 * Loading and cleaning the log (log_analysis.py, lines 16-67): an
 * 11-field row becomes a record with the derived timestamp, date, hour,
 * date-hour key, code class, request verb, page and page main.
 */
module Records {
  import opened Wrappers
  import opened Text
  import opened Civil
  import opened Timestamp

  /** One line of the log as the space-delimited csv reader splits it. */
  type Row = seq<string>

  /** The column layout of line 23: eleven columns, four of them unnamed. */
  const Columns: nat := 11

  /** The seven named columns that survive the drop of line 27. */
  datatype RawRecord = RawRecord(ip: string, country: string, datetime: string, request: string,
                                 code: string, userAgent: string, objectSize: string)

  /** A cleaned record: the kept columns plus the fields derived from them. */
  datatype Record = Record(
    ip: string, country: string, datetime: DateTime, request: string, code: string,
    userAgent: string, objectSize: int,
    date: string, hour: int, dateHour: string,
    codeClass: string, reqCode: string, page: string, pageMain: string)

  /** The step of the cleaning at which the whole load raises. */
  datatype CleanError =
    | FieldCountMismatch     // line 23: a row does not have the eleven columns
    | BadTimestamp           // line 34: the Datetime text does not match the format
    | EmptyCode              // line 50: x[0] of an empty status code
    | RequestColumnMismatch  // line 55: no request has a third piece
    | MissingPage            // line 61: a request with no second piece
    | BadObjectSize          // line 64: the object size is not an integer

  /** The position in the source of the step that raises `e`. */
  function Stage(e: CleanError): nat {
    match e
    case FieldCountMismatch => 0
    case BadTimestamp => 1
    case EmptyCode => 2
    case RequestColumnMismatch => 3
    case MissingPage => 4
    case BadObjectSize => 5
  }

  /**
   * The step numbers of the column errors, in the order the columns are
   * read: lines 34, 50, 61 and 64. Used where a row's stage is compared
   * with the error of the column step that stops it.
   */
  lemma StageNumbers()
    ensures Stage(BadTimestamp) == 1 && Stage(EmptyCode) == 2
    ensures Stage(MissingPage) == 4 && Stage(BadObjectSize) == 5
  {
  }

  /** A row becomes the named columns; the unnamed ones are dropped. */
  function LoadRow(row: Row): (r: Option<RawRecord>)
    ensures r.Some? <==> |row| == Columns
  {
    if |row| != Columns then None
    else Some(RawRecord(row[0], row[2], row[4], row[5], row[6], row[9], row[10]))
  }

  /** The row a raw record came from, with `fill` in every unnamed column. */
  function UnloadRow(r: RawRecord, fill: string): (row: Row)
    ensures |row| == Columns
  {
    [r.ip, fill, r.country, fill, r.datetime, r.request, r.code, fill, fill, r.userAgent, r.objectSize]
  }

  /** The four unnamed positions. */
  predicate Placeholder(k: int) {
    k == 1 || k == 3 || k == 7 || k == 8
  }

  /** Loading undoes unloading, whatever the placeholders hold. */
  lemma LoadUnload(r: RawRecord, fill: string)
    ensures LoadRow(UnloadRow(r, fill)) == Some(r)
  {
  }

  /** Unloading a loaded row gives the row back everywhere but the placeholders. */
  lemma UnloadLoad(row: Row, fill: string)
    requires LoadRow(row).Some?
    ensures var back := UnloadRow(LoadRow(row).value, fill);
      forall k :: 0 <= k < Columns ==> (back[k] == row[k] <==> !Placeholder(k) || row[k] == fill)
  {
  }

  /** Two rows that differ at most in the unnamed columns. */
  predicate SameKept(a: Row, b: Row) {
    |a| == |b| && forall k :: 0 <= k < |a| && !Placeholder(k) ==> a[k] == b[k]
  }

  /** Lifts a per-item step that may fail to a whole column: the column fails if any item does. */
  function MapAll<A, B>(xs: seq<A>, f: A -> Option<B>): (r: Option<seq<B>>)
    ensures r.Some? <==> forall i :: 0 <= i < |xs| ==> f(xs[i]).Some?
    ensures r.Some? ==> |r.value| == |xs| && forall i :: 0 <= i < |xs| ==> r.value[i] == f(xs[i]).value
  {
    if forall i :: 0 <= i < |xs| ==> f(xs[i]).Some? then
      Some(seq(|xs|, i requires 0 <= i < |xs| => f(xs[i]).value))
    else None
  }

  /**
   * A reader of the Datetime column: it gives a real date and time or
   * nothing. The cleaning is stated for any such reader; the log's own is
   * `ReadDatetime`.
   */
  type DatetimeReader = f: string -> Option<DateTime> | forall s :: f(s).Some? ==> ValidDateTime(f(s).value)
    witness s => None

  /** Lines 31-34: strip the brackets, turn the first ':' into a space, parse with the fixed format. */
  function ReadDatetime(s: string): (r: Option<DateTime>)
    ensures r.Some? ==> ValidDateTime(r.value) && Separate(Normalize(s)).Some?
  {
    ParseTimestamp(Normalize(s))
  }

  /** The log's own reader, as a reader of the Datetime column. */
  const LogReader: DatetimeReader := ReadDatetime

  /** Line 50: the first character of the status code, before any trimming. */
  function FirstChar(raw: RawRecord): (r: Option<string>)
    ensures r.Some? <==> raw.code != []
    ensures r.Some? ==> r.value == raw.code[..1]
  {
    if raw.code == [] then None else Some([raw.code[0]])
  }

  /** Line 54: at most two splits on a space. */
  function RequestPieces(request: string): (r: seq<string>)
    ensures 1 <= |r| <= 3
  {
    Split(request, ' ', 2)
  }

  /** Lines 55-61: the second piece of the request, absent when there is none. */
  function PageOf(pieces: seq<string>): (r: Option<string>)
    ensures r.Some? <==> |pieces| >= 2
  {
    if |pieces| < 2 then None else Some(pieces[1])
  }

  /** Line 64. */
  function ObjectSize(raw: RawRecord): Option<int> {
    ParseInt(raw.objectSize)
  }

  predicate IsSlash(c: char) {
    c == '/'
  }

  /**
   * Line 61 before the final strip: slashes stripped from both ends, then
   * the text before the first remaining slash (split('/') has no limit;
   * `|s|` splits are as many as `s` can have).
   */
  function PageRoot(page: string): (r: string)
    ensures '/' !in r
    ensures var s := Strip(page, IsSlash); r <= s && (r == s || r + "/" <= s)
  {
    var s := Strip(page, IsSlash);
    JoinHead(Split(s, '/', |s|), '/');
    Split(s, '/', |s|)[0]
  }

  /** Line 44: the date text, ':', then the hour padded to two digits. */
  function DateHourKey(d: Date, hour: nat): string
    requires ValidDate(d)
  {
    DateText(d) + (":" + Padded(hour, 2))
  }

  /**
   * One record from its raw columns and the values the cleaning read from
   * them; lines 66-67 strip every text column after the derived fields are
   * computed.
   */
  function Build(raw: RawRecord, t: DateTime, first: string, pieces: seq<string>, size: int): Record
    requires ValidDateTime(t) && |pieces| >= 2
  {
    Record(
      Trim(raw.ip), Trim(raw.country), t, Trim(raw.request), Trim(raw.code),
      Trim(raw.userAgent), size,
      Trim(DateText(t.date)), t.hour, Trim(DateHourKey(t.date, t.hour)),
      Trim(first), Trim(pieces[0]), Trim(pieces[1]), Trim(PageRoot(pieces[1])))
  }

  /** Line 55 as written: the three-column frame of the request pieces needs some request with three pieces. */
  predicate NoThirdPiece(raws: seq<RawRecord>) {
    |raws| > 0 && forall i :: 0 <= i < |raws| ==> |RequestPieces(raws[i].request)| < 3
  }

  /** Line 30: the Datetime column. */
  function DatetimeColumn(raws: seq<RawRecord>): (r: seq<string>)
    ensures |r| == |raws| && forall i :: 0 <= i < |raws| ==> r[i] == raws[i].datetime
  {
    seq(|raws|, i requires 0 <= i < |raws| => raws[i].datetime)
  }

  /** Lines 54-55: the pieces of every request. */
  function RequestColumn(raws: seq<RawRecord>): (r: seq<seq<string>>)
    ensures |r| == |raws| && forall i :: 0 <= i < |raws| ==> r[i] == RequestPieces(raws[i].request)
  {
    seq(|raws|, i requires 0 <= i < |raws| => RequestPieces(raws[i].request))
  }

  /** The records, row by row, once every column has been read. */
  function Assemble(raws: seq<RawRecord>, times: seq<DateTime>, firsts: seq<string>,
                    pieces: seq<seq<string>>, sizes: seq<int>): (r: seq<Record>)
    requires |times| == |raws| && |firsts| == |raws| && |pieces| == |raws| && |sizes| == |raws|
    requires forall i :: 0 <= i < |raws| ==> ValidDateTime(times[i]) && |pieces[i]| >= 2
    ensures |r| == |raws|
    ensures forall i :: 0 <= i < |raws| ==> r[i] == Build(raws[i], times[i], firsts[i], pieces[i], sizes[i])
  {
    seq(|raws|, i requires 0 <= i < |raws| => Build(raws[i], times[i], firsts[i], pieces[i], sizes[i]))
  }

  /**
   * The cleaning, column by column as lines 23-67 run it: each step reads
   * its column for every row, and the first step that meets a bad row
   * raises for the whole log. `asWritten` adds the column check of line 55.
   */
  function Clean(rows: seq<Row>, asWritten: bool, read: DatetimeReader): (r: Result<seq<Record>, CleanError>)
    ensures r.Success? ==> |r.value| == |rows|
    ensures r == Failure(FieldCountMismatch) <==> exists i :: 0 <= i < |rows| && |rows[i]| != Columns
    ensures r == Failure(RequestColumnMismatch) ==> asWritten
  {
    match MapAll(rows, LoadRow)
    case None => Failure(FieldCountMismatch)
    case Some(raws) => CleanColumns(raws, asWritten, read)
  }

  /** Lines 30-67 on the named columns. */
  function CleanColumns(raws: seq<RawRecord>, asWritten: bool, read: DatetimeReader): (r: Result<seq<Record>, CleanError>)
    ensures r.Success? ==> |r.value| == |raws|
    ensures r.Failure? ==> r.error != FieldCountMismatch
    ensures r == Failure(RequestColumnMismatch) ==> asWritten && NoThirdPiece(raws)
  {
    match MapAll(DatetimeColumn(raws), read)
    case None => Failure(BadTimestamp)
    case Some(times) =>
      match MapAll(raws, FirstChar)
      case None => Failure(EmptyCode)
      case Some(firsts) =>
        if asWritten && NoThirdPiece(raws) then Failure(RequestColumnMismatch)
        else CleanRequests(raws, times, firsts)
  }

  /** Lines 54-67, once the timestamps and the code classes are read. */
  function CleanRequests(raws: seq<RawRecord>, times: seq<DateTime>, firsts: seq<string>): (r: Result<seq<Record>, CleanError>)
    requires |times| == |raws| && |firsts| == |raws|
    requires forall i :: 0 <= i < |raws| ==> ValidDateTime(times[i])
    ensures r.Success? ==> |r.value| == |raws|
    ensures r.Failure? ==> r.error == MissingPage || r.error == BadObjectSize
  {
    var pieces := RequestColumn(raws);
    match MapAll(pieces, PageOf)
    case None => Failure(MissingPage)
    case Some(_) =>
      match MapAll(raws, ObjectSize)
      case None => Failure(BadObjectSize)
      case Some(sizes) => Success(Assemble(raws, times, firsts, pieces, sizes))
  }

  /** The cleaning with line 55 corrected to accept requests of any number of pieces. */
  function CleanLog(rows: seq<Row>): (r: Result<seq<Record>, CleanError>)
    ensures r != Failure(RequestColumnMismatch)
  {
    Clean(rows, false, LogReader)
  }

  /** The cleaning as line 55 is written. */
  function CleanLogAsWritten(rows: seq<Row>): (r: Result<seq<Record>, CleanError>)
    ensures r.Success? ==> r == CleanLog(rows)
    ensures r != CleanLog(rows) ==> r == Failure(RequestColumnMismatch)
  {
    AsWrittenDiffers(rows, LogReader);
    Clean(rows, true, LogReader)
  }

  /** The step at which a row's named columns fail on their own, 6 when they get through. */
  function RawStage(raw: RawRecord, read: DatetimeReader): (k: nat)
    ensures 1 <= k <= 6 && k != 3
  {
    if read(raw.datetime).None? then 1
    else if FirstChar(raw).None? then 2
    else if PageOf(RequestPieces(raw.request)).None? then 4
    else if ObjectSize(raw).None? then 5
    else 6
  }

  /** The step at which a row fails on its own, 6 when it gets through. */
  function RowStage(row: Row, read: DatetimeReader): (k: nat)
    ensures k <= 6 && k != 3
  {
    match LoadRow(row)
    case None => 0
    case Some(raw) => RawStage(raw, read)
  }

  /**
   * The reference: one row cleaned on its own, its steps in the order of
   * the source. It fails exactly when the row has a failing step, with the
   * error of that step.
   */
  function CleanRow(row: Row, read: DatetimeReader): (r: Result<Record, CleanError>)
    ensures r.Success? <==> RowStage(row, read) == 6
    ensures r.Failure? ==> Stage(r.error) == RowStage(row, read)
  {
    match LoadRow(row)
    case None => Failure(FieldCountMismatch)
    case Some(raw) => CleanRaw(raw, read)
  }

  /**
   * One row's named columns cleaned on their own. Every record built has a
   * real timestamp, an hour in 0..23, a 13-character date-hour key, a code
   * class of at most one character and a page main without '/'.
   */
  function CleanRaw(raw: RawRecord, read: DatetimeReader): (r: Result<Record, CleanError>)
    ensures r.Success? <==> RawStage(raw, read) == 6
    ensures r.Failure? ==> Stage(r.error) == RawStage(raw, read)
    ensures r.Success? ==>
      ValidDateTime(r.value.datetime) && 0 <= r.value.hour < 24 &&
      |r.value.dateHour| == 13 && |r.value.codeClass| <= 1 && '/' !in r.value.pageMain
  {
    StageNumbers();
    match read(raw.datetime)
    case None => Failure(BadTimestamp)
    case Some(t) =>
      match FirstChar(raw)
      case None => Failure(EmptyCode)
      case Some(first) =>
        var pieces := RequestPieces(raw.request);
        match PageOf(pieces)
        case None => Failure(MissingPage)
        case Some(_) =>
          match ObjectSize(raw)
          case None => Failure(BadObjectSize)
          case Some(size) =>
            DateHourShape(t.date, t.hour);
            StripPart(PageRoot(pieces[1]), IsSpace);
            StripPart(first, IsSpace);
            Success(Build(raw, t, first, pieces, size))
  }

  /** A row that gets through every step gives the record built from what the steps read. */
  lemma CleanRawRecord(raw: RawRecord, read: DatetimeReader)
    requires RawStage(raw, read) == 6
    ensures CleanRaw(raw, read) == Success(Build(raw, read(raw.datetime).value, FirstChar(raw).value,
                                           RequestPieces(raw.request), ObjectSize(raw).value))
  {
  }

  /**
   * `c`, the result of the column-wise cleaning of `raws`, fails exactly
   * when some row fails on its own, and then with the error of the earliest
   * step at which any row fails.
   */
  predicate StagesAgree(raws: seq<RawRecord>, read: DatetimeReader, c: Result<seq<Record>, CleanError>) {
    (c.Success? <==> forall i :: 0 <= i < |raws| ==> RawStage(raws[i], read) == 6) &&
    (c.Failure? ==> exists i :: 0 <= i < |raws| && RawStage(raws[i], read) == Stage(c.error)) &&
    (c.Failure? ==> forall i :: 0 <= i < |raws| ==> Stage(c.error) <= RawStage(raws[i], read))
  }

  /** The cleaning of the named columns and the rows' own steps agree. */
  lemma ColumnsEarliestStage(raws: seq<RawRecord>, read: DatetimeReader)
    ensures StagesAgree(raws, read, CleanColumns(raws, false, read))
  {
    if MapAll(DatetimeColumn(raws), read).None? {
      TimestampStage(raws, read);
    } else if MapAll(raws, FirstChar).None? {
      CodeStage(raws, read);
    } else if MapAll(RequestColumn(raws), PageOf).None? {
      PageError(raws, read);
      PageStage(raws, read);
    } else if MapAll(raws, ObjectSize).None? {
      SizeError(raws, read);
      SizeStage(raws, read);
    } else {
      AllStages(raws, read);
    }
  }

  lemma TimestampStage(raws: seq<RawRecord>, read: DatetimeReader)
    requires MapAll(DatetimeColumn(raws), read).None?
    ensures StagesAgree(raws, read, CleanColumns(raws, false, read))
  {
    StageNumbers();
    var i :| 0 <= i < |raws| && read(DatetimeColumn(raws)[i]).None?;
    assert RawStage(raws[i], read) == 1;
    EarliestFailure(raws, read, BadTimestamp, i);
  }

  lemma CodeStage(raws: seq<RawRecord>, read: DatetimeReader)
    requires MapAll(DatetimeColumn(raws), read).Some? && MapAll(raws, FirstChar).None?
    ensures StagesAgree(raws, read, CleanColumns(raws, false, read))
  {
    StageNumbers();
    var i := FirstFailure(raws, read, 2);
    EarliestFailure(raws, read, EmptyCode, i);
  }

  lemma PageStage(raws: seq<RawRecord>, read: DatetimeReader)
    requires MapAll(DatetimeColumn(raws), read).Some? && MapAll(raws, FirstChar).Some?
    requires MapAll(RequestColumn(raws), PageOf).None?
    ensures StagesAgree(raws, read, Failure(MissingPage))
  {
    StageNumbers();
    var i := FirstFailure(raws, read, 4);
    EarliestFailure(raws, read, MissingPage, i);
  }

  lemma SizeStage(raws: seq<RawRecord>, read: DatetimeReader)
    requires MapAll(DatetimeColumn(raws), read).Some? && MapAll(raws, FirstChar).Some?
    requires MapAll(RequestColumn(raws), PageOf).Some? && MapAll(raws, ObjectSize).None?
    ensures StagesAgree(raws, read, Failure(BadObjectSize))
  {
    StageNumbers();
    var i := FirstFailure(raws, read, 5);
    EarliestFailure(raws, read, BadObjectSize, i);
  }

  /** A failure that row `i` has on its own, when no row fails earlier. */
  lemma EarliestFailure(raws: seq<RawRecord>, read: DatetimeReader, e: CleanError, i: int)
    requires 0 <= i < |raws| && RawStage(raws[i], read) == Stage(e)
    requires forall j :: 0 <= j < |raws| ==> Stage(e) <= RawStage(raws[j], read)
    ensures StagesAgree(raws, read, Failure(e))
  {
  }

  lemma AllStages(raws: seq<RawRecord>, read: DatetimeReader)
    requires MapAll(DatetimeColumn(raws), read).Some? && MapAll(raws, FirstChar).Some?
    requires MapAll(RequestColumn(raws), PageOf).Some? && MapAll(raws, ObjectSize).Some?
    ensures CleanColumns(raws, false, read).Success?
    ensures StagesAgree(raws, read, CleanColumns(raws, false, read))
  {
    assert forall i :: 0 <= i < |raws| ==> RawStage(raws[i], read) == 6;
  }

  /** The columns before the request column were read, and the request column fails. */
  lemma PageError(raws: seq<RawRecord>, read: DatetimeReader)
    requires MapAll(DatetimeColumn(raws), read).Some? && MapAll(raws, FirstChar).Some?
    requires MapAll(RequestColumn(raws), PageOf).None?
    ensures CleanColumns(raws, false, read) == Failure(MissingPage)
  {
    var times, firsts := MapAll(DatetimeColumn(raws), read).value, MapAll(raws, FirstChar).value;
    assert CleanColumns(raws, false, read) == CleanRequests(raws, times, firsts);
  }

  /** The columns before the size column were read, and the size column fails. */
  lemma SizeError(raws: seq<RawRecord>, read: DatetimeReader)
    requires MapAll(DatetimeColumn(raws), read).Some? && MapAll(raws, FirstChar).Some?
    requires MapAll(RequestColumn(raws), PageOf).Some? && MapAll(raws, ObjectSize).None?
    ensures CleanColumns(raws, false, read) == Failure(BadObjectSize)
  {
    var times, firsts := MapAll(DatetimeColumn(raws), read).value, MapAll(raws, FirstChar).value;
    assert CleanColumns(raws, false, read) == CleanRequests(raws, times, firsts);
  }

  /**
   * When every column before step `k` was read and the column of step `k`
   * was not, some row fails at step `k` and none fails earlier.
   */
  lemma FirstFailure(raws: seq<RawRecord>, read: DatetimeReader, k: nat) returns (i: int)
    requires k == 2 || k == 4 || k == 5
    requires MapAll(DatetimeColumn(raws), read).Some?
    requires k == 2 <==> MapAll(raws, FirstChar).None?
    requires k >= 4 ==> (k == 4 <==> MapAll(RequestColumn(raws), PageOf).None?)
    requires k == 5 ==> MapAll(raws, ObjectSize).None?
    ensures 0 <= i < |raws| && RawStage(raws[i], read) == k
    ensures forall j :: 0 <= j < |raws| ==> k <= RawStage(raws[j], read)
  {
    if k == 2 {
      i :| 0 <= i < |raws| && FirstChar(raws[i]).None?;
    } else if k == 4 {
      i :| 0 <= i < |raws| && PageOf(RequestColumn(raws)[i]).None?;
    } else {
      i :| 0 <= i < |raws| && ObjectSize(raws[i]).None?;
    }
    ColumnAt(raws, read, i);
    forall j | 0 <= j < |raws|
      ensures k <= RawStage(raws[j], read)
    {
      ColumnAt(raws, read, j);
    }
  }

  /** What the columns that were read say about one row. */
  lemma ColumnAt(raws: seq<RawRecord>, read: DatetimeReader, i: int)
    requires 0 <= i < |raws|
    ensures MapAll(DatetimeColumn(raws), read).Some? ==> read(raws[i].datetime).Some?
    ensures MapAll(raws, FirstChar).Some? ==> FirstChar(raws[i]).Some?
    ensures MapAll(RequestColumn(raws), PageOf).Some? ==> PageOf(RequestPieces(raws[i].request)).Some?
    ensures MapAll(DatetimeColumn(raws), read).Some? ==> 2 <= RawStage(raws[i], read)
    ensures MapAll(DatetimeColumn(raws), read).Some? && MapAll(raws, FirstChar).Some? ==> 4 <= RawStage(raws[i], read)
    ensures (MapAll(DatetimeColumn(raws), read).Some? && MapAll(raws, FirstChar).Some? &&
             MapAll(RequestColumn(raws), PageOf).Some?) ==> 5 <= RawStage(raws[i], read)
  {
    assert DatetimeColumn(raws)[i] == raws[i].datetime;
    assert RequestColumn(raws)[i] == RequestPieces(raws[i].request);
  }

  /** A column-wise cleaning that succeeds has read all four columns. */
  lemma ColumnsRead(raws: seq<RawRecord>, read: DatetimeReader)
    requires CleanColumns(raws, false, read).Success?
    ensures MapAll(DatetimeColumn(raws), read).Some? && MapAll(raws, FirstChar).Some?
    ensures MapAll(RequestColumn(raws), PageOf).Some? && MapAll(raws, ObjectSize).Some?
    ensures CleanColumns(raws, false, read) ==
      Success(Assemble(raws, MapAll(DatetimeColumn(raws), read).value, MapAll(raws, FirstChar).value,
                       RequestColumn(raws), MapAll(raws, ObjectSize).value))
  {
    var times, firsts := MapAll(DatetimeColumn(raws), read).value, MapAll(raws, FirstChar).value;
    assert CleanColumns(raws, false, read) == CleanRequests(raws, times, firsts);
  }

  /** When the column-wise cleaning succeeds, each record is its row's record. */
  lemma {:induction false} ColumnsRecords(raws: seq<RawRecord>, read: DatetimeReader)
    requires CleanColumns(raws, false, read).Success?
    ensures var c := CleanColumns(raws, false, read).value;
      |c| == |raws| && forall i :: 0 <= i < |raws| ==> CleanRaw(raws[i], read) == Success(c[i])
  {
    ColumnsRead(raws, read);
    forall i | 0 <= i < |raws|
      ensures CleanRaw(raws[i], read) == Success(CleanColumns(raws, false, read).value[i])
    {
      RecordAt(raws, read, i);
    }
  }

  /** Row `i`'s record in a successful cleaning is the one its row cleans to on its own. */
  lemma RecordAt(raws: seq<RawRecord>, read: DatetimeReader, i: int)
    requires 0 <= i < |raws| && CleanColumns(raws, false, read).Success?
    ensures |CleanColumns(raws, false, read).value| == |raws|
    ensures CleanRaw(raws[i], read) == Success(CleanColumns(raws, false, read).value[i])
  {
    ColumnsRead(raws, read);
    ColumnAt(raws, read, i);
    assert DatetimeColumn(raws)[i] == raws[i].datetime;
    CleanRawRecord(raws[i], read);
  }

  /**
   * The whole log cleans exactly when every row cleans on its own, and the
   * records are the rows' records in order. Otherwise the error is one a
   * row has on its own, that of the earliest step at which any row fails
   * (lines 23-67).
   */
  lemma {:induction false} CleanAgreesWithRows(rows: seq<Row>, read: DatetimeReader)
    ensures var c := Clean(rows, false, read);
      (c.Success? <==> forall i :: 0 <= i < |rows| ==> CleanRow(rows[i], read).Success?) &&
      (c.Success? ==> |c.value| == |rows| && forall i :: 0 <= i < |rows| ==> CleanRow(rows[i], read) == Success(c.value[i])) &&
      (c.Failure? ==> exists i :: 0 <= i < |rows| && CleanRow(rows[i], read) == Failure(c.error)) &&
      (c.Failure? ==> forall i :: 0 <= i < |rows| ==> Stage(c.error) <= RowStage(rows[i], read))
  {
    var c := Clean(rows, false, read);
    match MapAll(rows, LoadRow)
    case None =>
      var i :| 0 <= i < |rows| && LoadRow(rows[i]).None?;
      assert CleanRow(rows[i], read) == Failure(FieldCountMismatch);
    case Some(raws) =>
      assert c == CleanColumns(raws, false, read);
      assert forall i :: 0 <= i < |rows| ==> CleanRow(rows[i], read) == CleanRaw(raws[i], read);
      assert forall i :: 0 <= i < |rows| ==> RowStage(rows[i], read) == RawStage(raws[i], read);
      ColumnsEarliestStage(raws, read);
      if c.Success? {
        ColumnsRecords(raws, read);
      } else {
        var i :| 0 <= i < |raws| && RawStage(raws[i], read) == Stage(c.error);
        SameStageSameError(CleanRow(rows[i], read), c.error);
      }
  }

  /** A failure is told apart by the step at which it is raised. */
  lemma SameStageSameError(r: Result<Record, CleanError>, e: CleanError)
    requires r.Failure? && Stage(r.error) == Stage(e)
    ensures r == Failure(e)
  {
  }

  /** The same for the log's own reader. */
  lemma CleanLogAgreesWithRows(rows: seq<Row>)
    ensures var c := CleanLog(rows);
      (c.Success? <==> forall i :: 0 <= i < |rows| ==> CleanRow(rows[i], LogReader).Success?) &&
      (c.Success? ==> |c.value| == |rows| && forall i :: 0 <= i < |rows| ==> CleanRow(rows[i], LogReader) == Success(c.value[i])) &&
      (c.Failure? ==> exists i :: 0 <= i < |rows| && CleanRow(rows[i], LogReader) == Failure(c.error)) &&
      (c.Failure? ==> forall i :: 0 <= i < |rows| ==> Stage(c.error) <= RowStage(rows[i], LogReader))
  {
    CleanAgreesWithRows(rows, LogReader);
  }

  /** A cleaned record keeps the named columns of its row, positions 0, 2, 4, 5, 6, 9 and 10. */
  lemma KeptColumns(row: Row, read: DatetimeReader)
    requires CleanRow(row, read).Success?
    ensures var rec := CleanRow(row, read).value;
      |row| == Columns &&
      rec.ip == Trim(row[0]) && rec.country == Trim(row[2]) &&
      read(row[4]) == Some(rec.datetime) &&
      rec.request == Trim(row[5]) && rec.code == Trim(row[6]) &&
      rec.userAgent == Trim(row[9]) && ParseInt(row[10]) == Some(rec.objectSize)
  {
    var raw := LoadRow(row).value;
    assert CleanRow(row, read) == CleanRaw(raw, read);
    CleanRawRecord(raw, read);
    BuildKeeps(raw, read(raw.datetime).value, FirstChar(raw).value, RequestPieces(raw.request), ObjectSize(raw).value);
  }

  /** The kept columns of a built record are its raw columns, stripped. */
  lemma BuildKeeps(raw: RawRecord, t: DateTime, first: string, pieces: seq<string>, size: int)
    requires ValidDateTime(t) && |pieces| >= 2
    ensures var rec := Build(raw, t, first, pieces, size);
      rec.ip == Trim(raw.ip) && rec.country == Trim(raw.country) && rec.datetime == t &&
      rec.request == Trim(raw.request) && rec.code == Trim(raw.code) &&
      rec.userAgent == Trim(raw.userAgent) && rec.objectSize == size
  {
  }

  /** The unnamed columns never reach a record or an error (lines 23, 27). */
  lemma {:induction false} PlaceholdersIgnored(rows1: seq<Row>, rows2: seq<Row>, asWritten: bool, read: DatetimeReader)
    requires |rows1| == |rows2| && forall i :: 0 <= i < |rows1| ==> SameKept(rows1[i], rows2[i])
    ensures Clean(rows1, asWritten, read) == Clean(rows2, asWritten, read)
  {
    assert forall i :: 0 <= i < |rows1| ==> LoadRow(rows1[i]) == LoadRow(rows2[i]);
    var m1 := MapAll(rows1, LoadRow);
    var m2 := MapAll(rows2, LoadRow);
    if m1.Some? {
      assert m1.value == m2.value;
    }
  }

  /** Every request has at most two pieces (no protocol part), in a non-empty log of full rows. */
  predicate NoProtocol(rows: seq<Row>) {
    |rows| > 0 && forall i :: 0 <= i < |rows| ==> |rows[i]| == Columns && |RequestPieces(rows[i][5])| < 3
  }

  /**
   * Line 55 as written differs from the corrected cleaning in one way: a
   * log that would get past line 50 and has no request with a third piece
   * raises there.
   */
  lemma {:induction false} AsWrittenDiffers(rows: seq<Row>, read: DatetimeReader)
    ensures Clean(rows, true, read) ==
      if (Clean(rows, false, read).Success? || Stage(Clean(rows, false, read).error) > 3) && NoProtocol(rows)
      then Failure(RequestColumnMismatch) else Clean(rows, false, read)
  {
    match MapAll(rows, LoadRow)
    case None =>
    case Some(raws) =>
      assert forall i :: 0 <= i < |rows| ==> raws[i].request == rows[i][5];
      assert NoThirdPiece(raws) <==> NoProtocol(rows);
      ColumnsAsWritten(raws, read);
  }

  /**
   * Line 55 as written rejects every non-empty log whose rows all clean on
   * their own but carry no protocol after the page; the corrected cleaning
   * accepts it.
   */
  lemma AsWrittenRejectsShortRequests(rows: seq<Row>, read: DatetimeReader)
    requires |rows| > 0
    requires forall i :: 0 <= i < |rows| ==> CleanRow(rows[i], read).Success?
    requires forall i :: 0 <= i < |rows| ==> |rows[i]| == Columns && |RequestPieces(rows[i][5])| < 3
    ensures Clean(rows, false, read).Success?
    ensures Clean(rows, true, read) == Failure(RequestColumnMismatch)
  {
    CleanAgreesWithRows(rows, read);
    AsWrittenDiffers(rows, read);
    assert NoProtocol(rows);
  }

  /** The log of one row on its own. */
  lemma OneRowAsWritten(row: Row, read: DatetimeReader)
    requires CleanRow(row, read).Success? && |row| == Columns && |RequestPieces(row[5])| < 3
    ensures Clean([row], false, read).Success?
    ensures Clean([row], true, read) == Failure(RequestColumnMismatch)
  {
    AsWrittenRejectsShortRequests([row], read);
  }

  /** A row at time `t` whose request is `verb`, a space and `page`, and whose object size is `size`. */
  function ShortRequestRow(t: DateTime, verb: string, page: string, size: int): (row: Row)
    requires ValidDateTime(t)
  {
    UnloadRow(RawRecord("10.0.0.1", "US", RawTimestamp(t), verb + (" " + page), "200", "curl/8.0", IntText(size)), "-")
  }

  /** Such a row gets through every step on its own, with any reader that reads its timestamp. */
  lemma ShortRequestCleans(t: DateTime, verb: string, page: string, size: int, read: DatetimeReader)
    requires ValidDateTime(t) && ' ' !in verb && ' ' !in page
    requires read(RawTimestamp(t)).Some?
    ensures var row := ShortRequestRow(t, verb, page, size);
      CleanRow(row, read).Success? && |RequestPieces(row[5])| == 2
  {
    var raw := RawRecord("10.0.0.1", "US", RawTimestamp(t), verb + (" " + page), "200", "curl/8.0", IntText(size));
    assert LoadRow(ShortRequestRow(t, verb, page, size)) == Some(raw) by {
      LoadUnload(raw, "-");
    }
    assert RequestPieces(raw.request) == [verb, page] by {
      RequestTwoTokens(verb, page);
    }
    assert ObjectSize(raw) == Some(size) by {
      ParseIntText(size);
    }
    assert RawStage(raw, read) == 6;
  }

  /**
   * The corrected cleaning accepts the one-line log of such a row; line 55
   * as written raises on it.
   */
  lemma ShortRequestLogRejected(t: DateTime, verb: string, page: string, size: int)
    requires ValidDateTime(t) && ' ' !in verb && ' ' !in page
    ensures CleanLog([ShortRequestRow(t, verb, page, size)]).Success?
    ensures CleanLogAsWritten([ShortRequestRow(t, verb, page, size)]) == Failure(RequestColumnMismatch)
  {
    var read := LogReader;
    RawTimestampRoundTrip(t);
    ShortRequestCleans(t, verb, page, size, read);
    OneRowAsWritten(ShortRequestRow(t, verb, page, size), read);
  }

  /** "GET /index.html" at 10/07/2025 14:03:21 cleans, and line 55 as written raises on it. */
  lemma IndexFetchRejected()
    ensures var rows := [ShortRequestRow(DateTime(Date(2025, 7, 10), 14, 3, 21), "GET", "/index.html", 512)];
      CleanLog(rows).Success? && CleanLogAsWritten(rows) == Failure(RequestColumnMismatch)
  {
    ShortRequestLogRejected(DateTime(Date(2025, 7, 10), 14, 3, 21), "GET", "/index.html", 512);
  }

  /** The same on the named columns. */
  lemma ColumnsAsWritten(raws: seq<RawRecord>, read: DatetimeReader)
    ensures var c := CleanColumns(raws, false, read);
      CleanColumns(raws, true, read) ==
        if (c.Success? || Stage(c.error) > 3) && NoThirdPiece(raws) then Failure(RequestColumnMismatch) else c
  {
    match MapAll(DatetimeColumn(raws), read)
    case None =>
    case Some(times) =>
      match MapAll(raws, FirstChar)
      case None =>
      case Some(firsts) =>
        var c := CleanRequests(raws, times, firsts);
        assert CleanColumns(raws, false, read) == c;
        assert c.Failure? ==> Stage(c.error) > 3;
  }

  // ---------------------------------------------------------------------
  // Text helpers
  // ---------------------------------------------------------------------

  predicate NoSpace(s: string) {
    forall k :: 0 <= k < |s| ==> !IsSpace(s[k])
  }

  /** strip() leaves a string without whitespace alone. */
  lemma TrimNoSpace(s: string)
    requires NoSpace(s)
    ensures Trim(s) == s
  {
    StripKeeps(s, IsSpace);
  }

  /** Stripping keeps a slice of the string: no new characters, no longer. */
  lemma StripPart(s: string, drop: char -> bool)
    ensures |Strip(s, drop)| <= |s|
    ensures forall c :: c in Strip(s, drop) ==> c in s
  {
    var r := Strip(s, drop);
    var i := LeadingCount(s, drop);
    forall c | c in r
      ensures c in s
    {
      var k :| 0 <= k < |r| && r[k] == c;
      assert s[i + k] == c;
    }
  }

  /** The first piece of a split is a prefix of the whole. */
  /** The first piece begins the joined text, and a separator follows it unless it is the only piece. */
  lemma {:induction false} JoinHead(parts: seq<string>, sep: char)
    requires parts != []
    ensures parts[0] <= Join(parts, sep)
    ensures |parts| == 1 ==> Join(parts, sep) == parts[0]
    ensures |parts| > 1 ==> parts[0] + [sep] <= Join(parts, sep)
  {
    if |parts| > 1 {
      assert Join(parts, sep) == parts[0] + ([sep] + Join(parts[1..], sep));
    }
  }

  lemma DigitsNoSpace(s: string)
    requires AllDigits(s)
    ensures NoSpace(s)
  {
  }

  // ---------------------------------------------------------------------
  // The date-hour key (line 44)
  // ---------------------------------------------------------------------

  lemma {:induction false} KeyParts(date: string, hh: string)
    requires |date| == 10 && |hh| == 2
    ensures var k := date + (":" + hh);
      |k| == 13 && k[..10] == date && k[10] == ':' && k[11..] == hh
  {
  }

  lemma {:induction false} DateTextNoSpace(d: Date)
    requires ValidDate(d)
    ensures NoSpace(DateText(d))
  {
    PaddedDigits(d.year, 4);
    PaddedDigits(d.month, 2);
    PaddedDigits(d.day, 2);
    DashedNoSpace(Padded(d.year, 4), Padded(d.month, 2), Padded(d.day, 2));
  }

  lemma DashedNoSpace(y: string, m: string, d: string)
    requires AllDigits(y) && AllDigits(m) && AllDigits(d)
    ensures NoSpace(y + "-" + m + "-" + d)
  {
  }

  lemma KeyNoSpace(date: string, hh: string)
    requires NoSpace(date) && AllDigits(hh)
    ensures NoSpace(date + (":" + hh))
  {
  }

  /**
   * The key is the date text, ':', then the hour in exactly two digits,
   * and the final strip leaves it alone.
   */
  lemma {:induction false} DateHourShape(d: Date, hour: nat)
    requires ValidDate(d) && hour < 24
    ensures var k := DateHourKey(d, hour);
      |k| == 13 && k[..10] == DateText(d) && k[10] == ':' &&
      AllDigits(k[11..]) && DigitsValue(k[11..]) == hour && Trim(k) == k
  {
    DateTextLength(d);
    PaddedDigits(hour, 2);
    KeyParts(DateText(d), Padded(hour, 2));
    DateTextNoSpace(d);
    KeyNoSpace(DateText(d), Padded(hour, 2));
    TrimNoSpace(DateHourKey(d, hour));
  }

  /** Two records share a key exactly when they share the date and the hour. */
  lemma {:induction false} DateHourInjective(d1: Date, h1: nat, d2: Date, h2: nat)
    requires ValidDate(d1) && ValidDate(d2) && h1 < 24 && h2 < 24
    ensures DateHourKey(d1, h1) == DateHourKey(d2, h2) <==> d1 == d2 && h1 == h2
  {
    DateHourShape(d1, h1);
    DateHourShape(d2, h2);
    DateTextInjective(d1, d2);
    if DateHourKey(d1, h1) == DateHourKey(d2, h2) {
      assert DateText(d1) == DateHourKey(d1, h1)[..10];
    }
  }

  /** Ordering keys as text orders the buckets by date, then by hour. */
  lemma {:induction false} DateHourOrder(d1: Date, h1: nat, d2: Date, h2: nat)
    requires ValidDate(d1) && ValidDate(d2) && h1 < 24 && h2 < 24
    ensures LexLess(DateHourKey(d1, h1), DateHourKey(d2, h2)) <==>
      Before(d1, d2) || (d1 == d2 && h1 < h2)
  {
    DateTextLength(d1);
    DateTextLength(d2);
    PaddedDigits(h1, 2);
    PaddedDigits(h2, 2);
    LexConcat(DateText(d1), ":" + Padded(h1, 2), DateText(d2), ":" + Padded(h2, 2));
    LexConcat(":", Padded(h1, 2), ":", Padded(h2, 2));
    LexIrreflexive(":");
    LexDigits(Padded(h1, 2), Padded(h2, 2));
    DateTextOrder(d1, d2);
    DateTextInjective(d1, d2);
  }

  // ---------------------------------------------------------------------
  // Code class, method and page, page main (lines 50-61)
  // ---------------------------------------------------------------------

  /** The code class is the code's first character when that is not whitespace. */
  lemma CodeClassFirst(code: string)
    requires code != [] && !IsSpace(code[0])
    ensures Trim(code[..1]) == [code[0]]
  {
    StripKeeps(code[..1], IsSpace);
  }

  /** Method and page are the first two tokens; whatever follows the second space is left in the third piece. */
  lemma {:induction false} RequestTokens(verb: string, page: string, rest: string)
    requires ' ' !in verb && ' ' !in page
    ensures RequestPieces(verb + (" " + (page + (" " + rest)))) == [verb, page, rest]
  {
    SplitAfter(verb, ' ', page + (" " + rest), 2);
    SplitAfter(page, ' ', rest, 1);
    SplitNone(rest, ' ', 0);
  }

  /** A request of two tokens gives the same method and page, with no third piece. */
  lemma {:induction false} RequestTwoTokens(verb: string, page: string)
    requires ' ' !in verb && ' ' !in page
    ensures RequestPieces(verb + (" " + page)) == [verb, page]
  {
    SplitAfter(verb, ' ', page, 2);
    SplitNone(page, ' ', 1);
  }

  /** Anything after the second space does not reach the method or the page. */
  lemma RequestTailIgnored(verb: string, page: string, rest1: string, rest2: string)
    requires ' ' !in verb && ' ' !in page
    ensures var p1 := RequestPieces(verb + (" " + (page + (" " + rest1))));
      var p2 := RequestPieces(verb + (" " + (page + (" " + rest2))));
      p1[0] == p2[0] && p1[1] == p2[1]
  {
    RequestTokens(verb, page, rest1);
    RequestTokens(verb, page, rest2);
  }

  /** The page main never contains '/'. */
  lemma PageMainNoSlash(page: string)
    ensures '/' !in Trim(PageRoot(page))
  {
    StripPart(PageRoot(page), IsSpace);
  }

  /** A page made only of slashes, "/" among them, has the empty page main. */
  lemma {:induction false} AllSlashesPageMain(page: string)
    requires forall k :: 0 <= k < |page| ==> page[k] == '/'
    ensures Trim(PageRoot(page)) == ""
  {
    var s := Strip(page, IsSlash);
    assert s == [];
    SplitNone(s, '/', |s|);
    StripKeeps("", IsSpace);
  }

  /**
   * Strip keeps a prefix of what follows the leading run it drops; for
   * line 61, the stripped page begins right after its leading slashes.
   */
  lemma StripPrefix(s: string, drop: char -> bool)
    ensures Strip(s, drop) <= s[LeadingCount(s, drop)..]
  {
  }

  /** A prefix of text without whitespace has none, so line 67's final strip keeps the site area as it is. */
  lemma PrefixNoSpace(a: string, b: string)
    requires a <= b && NoSpace(b)
    ensures NoSpace(a)
  {
    assert forall k :: 0 <= k < |a| ==> a[k] == b[k];
  }

  /**
   * For a page without whitespace, the page main is the text before the
   * first slash once the leading slashes are gone: a prefix of that text,
   * followed there by a slash unless it is all of the stripped page.
   */
  lemma {:induction false} PageMainPrefix(page: string)
    requires NoSpace(page)
    ensures var main, tail := Trim(PageRoot(page)), page[LeadingCount(page, IsSlash)..];
      main <= tail && (main == Strip(page, IsSlash) || main + "/" <= tail)
  {
    var s := Strip(page, IsSlash);
    var tail := page[LeadingCount(page, IsSlash)..];
    var head := PageRoot(page);
    StripPrefix(page, IsSlash);
    assert head <= tail;
    assert NoSpace(tail);
    PrefixNoSpace(head, tail);
    TrimNoSpace(head);
  }
}
