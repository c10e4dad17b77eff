# Log file analysis, modelled in Dafny

`log_analysis.py` reads a web server log as space-separated rows of eleven
columns, cleans it into a table of requests, and prints a report on it:

- a summary: the number of requests, the first and last timestamp, the
  number of distinct IP addresses and country codes, and the number of valid
  (2xx) requests;
- the busiest IP addresses, and those that made more than 100 requests per
  day of the log's range;
- requests per day, per hour and per day-and-hour, the five busiest hours,
  and the day-hour buckets above the 90th percentile;
- request counts per country, per site area, per page and per user agent.

The model follows the program's pipeline.

| file | module | what it holds |
|---|---|---|
| `wrappers.dfy` | `Wrappers` | `Option` and `Result` |
| `text.dfy` | `Text` | `str.strip`, `str.split` with a limit, `str.join`, `int()` and `str()` on integers, `rjust`, character-wise string order |
| `civil.dfy` | `Civil` | proleptic Gregorian dates, `date.toordinal()` and the ISO text of a date |
| `timestamp.dfy` | `Timestamp` | lines 30-34: the bracketed log timestamp turned into `%d/%m/%Y %H:%M:%S` text and parsed as `strptime` does |
| `records.dfy` | `Records` | lines 16-67: the load and the cleaning, column by column and raising at the first bad column, plus a row-by-row reference |
| `series.dfy` | `Series` | the pandas operations on a series: `value_counts`, `sort_index`, `head`, `tail`, `nunique`, `.loc`, boolean masks |
| `detection.dfy` | `Detection` | the day range and alarming-IP threshold of lines 113-115; `quantile(0.9)` with linear interpolation and the peaks of line 143 |
| `analysis.dfy` | `Analysis` | the class `LogFileAnalysis`: its fields, constructor and report methods, and the facts each report prints |

A series is modelled as a sequence of `Entry(key, count)` pairs. That keeps
both the index order that `sort_index` fixes and the count order that
`value_counts` fixes.

A cleaning error is a `Result` failure that names the step that raises:

- line 23: a row of the wrong width;
- line 34: a timestamp that does not match the format;
- line 50: an empty status code;
- line 55: the request-column frame;
- line 61: a request without a page;
- line 64: an object size that is not an integer.

The class keeps the source's fields and updates them in place. Each method
states the new value of the fields it sets and that it leaves the rest
unchanged. The value it returns is what the source prints, so the report is
a value and not text.

## Model

| member | source | states |
|---|---|---|
| Text.Strip | log_analysis.py:31 | `strip(chars)` removes exactly the leading run and the trailing run of stripped characters: the result is the rest of the text, in place, and neither of its ends is a stripped character |
| Text.Split | log_analysis.py:32 | `split(sep, n)` gives 1 to n+1 pieces; joining them with the separator (`Join`, the `join` of line 33) gives the input back; no piece but the last contains the separator, and the last does only when the limit was reached |
| Text.NatText | log_analysis.py:44 | `str()` of a natural number is a non-empty string of decimal digits that reads back as the number, with no leading zero unless the number is 0 |
| Text.RJust | log_analysis.py:44 | `rjust(width, fill)` keeps the text as the tail of the result and fills in front of it up to the width |
| Text.PaddedDigits | log_analysis.py:44 | a number below 10^width, padded with zeros to width, has exactly width digits that read back as the number |
| Text.ParseIntText | log_analysis.py:64 | `int()` (`ParseInt`) reads back `str()` of every integer, negative ones included |
| Text.ParseDigits | log_analysis.py:64 | `int()` reads a run of decimal digits as their value |
| Text.ParseNegative | log_analysis.py:64 | `int()` reads a minus sign followed by digits as the negated value |
| Text.LexTotal | log_analysis.py:126 | any two strings are equal or ordered one way by character-wise comparison (`LexLess`) |
| Text.LexIrreflexive | log_analysis.py:126 | no string is before itself |
| Text.LexTransitive | log_analysis.py:126 | character-wise string order is transitive |
| Text.LexDigits | log_analysis.py:126 | on digit strings of one length, text order is numeric order and text equality is numeric equality, both ways |
| Civil.DaysInMonth | log_analysis.py:34 | every month has 28 to 31 days |
| Civil.OrdinalOrder | log_analysis.py:113 | for valid dates (`Ordinal` is `toordinal()`), one date is before another exactly when its ordinal day number is smaller, and the ordinals are equal exactly when the dates are |
| Civil.DateTextLength | log_analysis.py:36-44 | the text of a valid date (`DateText`, `str()` of `.dt.date`) has ten characters |
| Civil.DateTextOrder | log_analysis.py:126 | the `YYYY-MM-DD` texts of two valid dates compare as text exactly as the dates compare in time |
| Civil.DateTextInjective | log_analysis.py:44 | two valid dates have the same text exactly when they are the same date |
| Timestamp.NumberField | log_analysis.py:34 | a numeric directive (`%m`, `%H`, `%M`, `%S`) accepts a field exactly when it is one or two ASCII digits denoting a value in the directive's range, and then yields that value |
| Timestamp.DayField | log_analysis.py:34 | `%d` accepts a field exactly when it is one or two ASCII digits, or a space and one digit, denoting a day from 1 to 31, and then yields that day |
| Timestamp.Normalize | log_analysis.py:31-33 | strip, split at the first colon and join with a space replace the first colon of the stripped text by a space and keep everything else; text without a colon is kept as it is |
| Timestamp.ParseTimestamp | log_analysis.py:34 | `to_datetime` with the fixed format gives only valid timestamps: a date that exists and a time within the day; and only for text whose separators the format matches |
| Timestamp.SeparateSound | log_analysis.py:34 | the pieces the format's separators cut out (`Separate`) spell the text back: day, '/', month, '/', a 4-character year, a run of whitespace, hour, ':', minute, ':', second, with no separator inside a field that one ends |
| Timestamp.ParseTimestampShape | log_analysis.py:34 | any text that parses is such pieces, and the result is what its fields denote: day, month, hour, minute and second as 1-2 ASCII digits (the day also as a space and a digit), the year as 4 ASCII digits |
| Timestamp.ParseTimestampExactly | log_analysis.py:34 | the converse: text made of such pieces whose fields denote a valid timestamp parses as that timestamp |
| Timestamp.SeparateSpelled | log_analysis.py:34 | the converse: text made of such pieces, with any run of whitespace as the blank, is cut back into exactly those pieces |
| Timestamp.FromFields | log_analysis.py:34 | the six fields combine only into a valid timestamp, and only into the one they denote |
| Timestamp.FromFieldsExactly | log_analysis.py:34 | the converse: fields that denote a valid timestamp are read as that timestamp |
| Timestamp.StripBrackets | log_analysis.py:31 | `strip('[]')` removes the enclosing brackets and nothing else from a bracketed text |
| Timestamp.FirstColonOnly | log_analysis.py:31-33 | strip, split at the first colon and join with a space turn `[date:time]` into `date time`, leaving the colons of the time alone |
| Timestamp.TimeFields | log_analysis.py:34 | the time part splits at its colons into hour, minute and second |
| Timestamp.DateFields | log_analysis.py:34 | the date part splits at its slashes into day, month and the rest |
| Timestamp.LayoutFields | log_analysis.py:34 | parsing text laid out as the format is reading its six fields |
| Timestamp.RawLayoutNormalizes | log_analysis.py:30-33 | the normalisation turns the raw bracketed layout into the format's layout |
| Timestamp.PaddedFields | log_analysis.py:34 | the zero-padded fields of a valid timestamp read back as that timestamp |
| Timestamp.ParseTimestampText | log_analysis.py:34 | parsing the format's text of a valid timestamp gives that timestamp back |
| Timestamp.RawTimestampRoundTrip | log_analysis.py:30-34 | for every valid timestamp, its bracketed log field with a numeric month is read back exactly by lines 30-34 |
| Timestamp.MonthNameRejected | log_analysis.py:34 | a month field that is not all digits, such as `Jul`, makes the parse fail, because the format reads the month with `%m` |
| Timestamp.JulyRejected | log_analysis.py:30-34 | the log field `[10/Jul/2025:14:03:21]`, normalised as lines 31-33 do, does not parse |
| Timestamp.UnpaddedAccepted | log_analysis.py:34 | `1/7/2025 3:4:5` parses as 1 July 2025, 03:04:05: the format does not require zero padding |
| Timestamp.TrailingTextRejected | log_analysis.py:34 | `10/07/2025 14:03:21x` does not parse: the whole text must match the format |
| Records.LoadRow | log_analysis.py:23 | a row loads exactly when it has the eleven columns |
| Records.UnloadRow | log_analysis.py:23 | a record written back as a row has the eleven columns |
| Records.LoadUnload | log_analysis.py:23-27 | loading a row written from a record gives the record back, whatever the four dropped columns hold |
| Records.UnloadLoad | log_analysis.py:23-27 | writing back a loaded row restores every named column; a dropped column comes back only when it held the filler |
| Records.MapAll | log_analysis.py:30-64 | a column-wide conversion succeeds exactly when every item converts, and then holds the items' values in order |
| Records.ReadDatetime | log_analysis.py:30-34 | the log's timestamp reader yields only valid timestamps, and only for a field whose normalised text has the format's shape |
| Records.FirstChar | log_analysis.py:50 | `x[0]` of a status code exists exactly when the code is non-empty, and is its first character |
| Records.RequestPieces | log_analysis.py:54 | `split(' ', n=2)` gives one to three pieces |
| Records.PageOf | log_analysis.py:55-59 | the page exists exactly when the request has a second piece |
| Records.PageRoot | log_analysis.py:61 | before the final strip, the site area is the longest slash-free start of the page with its end slashes stripped: it has no slash, begins that text, and is either all of it or followed there by a slash |
| Records.CleanRequests | log_analysis.py:54-67 | once the timestamps and code classes are read, the only errors left are a missing page and a bad object size; a success has one record per row |
| Records.Clean | log_analysis.py:23-67 | a success has one record per row; the load fails at line 23 exactly when some row is not eleven wide; only the cleaning as written fails at line 55 |
| Records.CleanColumns | log_analysis.py:30-67 | a success has one record per row; the named columns never fail the width check; a failure at line 55 happens only as written, and only when no request has a third piece |
| Records.CleanLog | log_analysis.py:23-67 | the cleaning with line 55 corrected never fails at line 55 |
| Records.CleanLogAsWritten | log_analysis.py:23-67 | the cleaning as line 55 is written succeeds only with the corrected cleaning's records, and differs from it only by failing at line 55 |
| Records.RawStage | log_analysis.py:30-64 | a row's named columns stop at one of the column steps, or get through all of them |
| Records.RowStage | log_analysis.py:23-64 | a row stops at its width or at a column step, or gets through |
| Records.CleanRaw | log_analysis.py:30-67 | a row's record exists exactly when it gets through every step; an error names the step it stopped at; a record has a valid timestamp, an hour from 0 to 23, a 13-character date-hour key, a code class of at most one character and a site area without a slash |
| Records.CleanRow | log_analysis.py:23-67 | as for `CleanRaw`, with the row's width checked first |
| Records.ColumnsEarliestStage | log_analysis.py:30-64 | the column-by-column cleaning succeeds exactly when every row gets through; when it fails, its error is the earliest step at which any row fails, and some row fails there |
| Records.ColumnsRecords | log_analysis.py:30-67 | each cleaned record is the row-by-row cleaning of its own row |
| Records.CleanAgreesWithRows | log_analysis.py:23-67 | the whole cleaning succeeds exactly when every row cleans on its own; it then holds each row's record in order, and otherwise fails with the error of a row at the earliest failing step |
| Records.CleanLogAgreesWithRows | log_analysis.py:16-67 | as for `CleanAgreesWithRows`, with the log's own timestamp reader |
| Records.KeptColumns | log_analysis.py:27-67 | a cleaned record (made by `Build`) keeps the IP, country, request, code and user agent stripped of whitespace; its timestamp is what the reader read from column 4; its object size is what `int()` reads from column 10 |
| Records.PlaceholdersIgnored | log_analysis.py:27 | the four unnamed columns never change the result of the cleaning |
| Records.ColumnsAsWritten | log_analysis.py:55 | on the named columns, the cleaning as written differs from the corrected one only when no request has a third piece and the corrected one gets past line 50: it then fails at line 55 |
| Records.AsWrittenDiffers | log_analysis.py:55 | the same on whole rows |
| Records.AsWrittenRejectsShortRequests | log_analysis.py:55 | a non-empty log of clean rows whose requests have at most two pieces is accepted by the corrected cleaning and rejected as written |
| Records.OneRowAsWritten | log_analysis.py:55 | the same for a single clean row with a two-piece request |
| Records.ShortRequestCleans | log_analysis.py:23-67 | a row whose request is `VERB PAGE` with a valid timestamp cleans on its own |
| Records.ShortRequestLogRejected | log_analysis.py:55 | a one-row log whose request is `VERB PAGE` is cleaned by the corrected cleaning and rejected as written |
| Records.IndexFetchRejected | log_analysis.py:55 | the log of the single request `GET /index.html` is rejected as written |
| Records.DateHourShape | log_analysis.py:44 | a date-hour key (`DateHourKey`) is 13 characters: the date text, a colon, and two digits that read as the hour; the final strip leaves it unchanged |
| Records.DateHourInjective | log_analysis.py:44 | two date-hour keys are equal exactly when their dates and hours are |
| Records.DateHourOrder | log_analysis.py:44 | date-hour keys compare as text exactly as (date, hour) pairs compare in time |
| Records.CodeClassFirst | log_analysis.py:50 | the code class of a code that does not start with whitespace is its first character |
| Records.RequestTokens | log_analysis.py:54 | `VERB PAGE REST` splits into the verb, the page and everything after |
| Records.RequestTwoTokens | log_analysis.py:54 | `VERB PAGE` splits into the verb and the page |
| Records.RequestTailIgnored | log_analysis.py:54-56 | the verb and the page do not depend on what follows the second space |
| Records.PageMainNoSlash | log_analysis.py:61-67 | the site area never holds a slash |
| Records.AllSlashesPageMain | log_analysis.py:61 | a page made only of slashes has the empty site area |
| Records.PageMainPrefix | log_analysis.py:61-67 | for a page without whitespace, the site area after the final strip begins the page after its leading slashes, and is either the whole stripped page or followed there by a slash |
| Series.IndexOf | log_analysis.py:102 | the position of a key in the index, or -1 exactly when it is not there |
| Series.TallyCounts | log_analysis.py:107 | the tally (`Tally`) of a column has each of its values once, with the number of times it occurs; the counts total the column's length |
| Series.SortByCount | log_analysis.py:107 | sorting by count keeps exactly the same entries |
| Series.SortByCountSorted | log_analysis.py:107 | sorting by count puts larger counts first |
| Series.ValueCountsTable | log_analysis.py:107 | `value_counts` (`ValueCounts`) lists every distinct value once, with its number of occurrences, largest count first; each count is at least 1 and the counts total the column's length |
| Series.ValueCountsEntries | log_analysis.py:107 | an entry is in `value_counts` exactly when its key occurs in the column and its count is the number of occurrences |
| Series.ValueCountsSize | log_analysis.py:96-99 | `value_counts` has as many entries as `nunique` (`NUnique`) counts |
| Series.Lookup | log_analysis.py:102 | `.loc[k]` has a value exactly when `k` is in the index |
| Series.LookupCounts | log_analysis.py:102 | `.loc[k]` of `value_counts` is the number of times `k` occurs, and is missing when `k` does not occur |
| Series.SortByKey | log_analysis.py:126 | `sort_index` keeps exactly the same entries |
| Series.SortByKeySorted | log_analysis.py:126 | `sort_index` under a total order puts the distinct keys in strictly increasing order |
| Series.SortIndexTable | log_analysis.py:126 | `value_counts().sort_index()` keeps every value's count and the total, and orders the index |
| Series.Head | log_analysis.py:110 | `head(n)` is the first n entries, or all of them when there are fewer |
| Series.Tail | log_analysis.py:181 | `tail(n)` is the last n entries, or all of them when there are fewer |
| Series.HeadLargest | log_analysis.py:110 | on a table sorted by count, no entry left out of `head(n)` has a larger count than one kept |
| Series.TailSmallest | log_analysis.py:181 | on a table sorted by count, no entry left out of `tail(n)` has a smaller count than one kept |
| Series.Above | log_analysis.py:115 | the boolean mask `t[t > q]` keeps exactly the entries whose count exceeds q, and no more of them than the table has |
| Series.AboveKept | log_analysis.py:115 | the mask keeps the entries at exactly the positions whose count exceeds q (`Kept`), in increasing order of position, one entry per position: the k-th entry kept is the one at the k-th such position |
| Series.AbovePrefix | log_analysis.py:115 | on a table sorted by count, the masked entries are a leading part of it |
| Series.AboveNone | log_analysis.py:143 | a mask above every count keeps nothing |
| Detection.MaxOf | log_analysis.py:113 | `max()` is one of the values and no value exceeds it |
| Detection.MinOf | log_analysis.py:113 | `min()` is one of the values and no value is below it |
| Detection.DayRange | log_analysis.py:113 | the day range is at least one day |
| Detection.DayRangeSpan | log_analysis.py:113 | the day range is one more than the widest gap in days between two of the dates, and some two dates are exactly that far apart |
| Detection.OneDayRange | log_analysis.py:113 | dates that are all the same day have a range of one day |
| Detection.AlarmingExactly | log_analysis.py:115 | in `Alarming`, an IP is flagged, with its count, exactly when its count is strictly greater than 100 times the day range; on a table sorted by count, the flagged IPs are a leading part of it |
| Detection.AlarmingBoundary | log_analysis.py:115 | with a range of two days, 201 requests are flagged and 200 are not |
| Detection.SortAsc | log_analysis.py:143 | sorting the counts keeps them as a permutation |
| Detection.SortAscSorted | log_analysis.py:143 | sorting the counts puts them in ascending order |
| Detection.SortAscSortedInput | log_analysis.py:143 | sorting counts that are already in order leaves them unchanged |
| Detection.PositionWhole | log_analysis.py:143 | the whole part of the quantile's position 0.9·(n−1) is a valid index |
| Detection.InterpolateBounds | log_analysis.py:143 | an interpolated value lies between the two sorted values it interpolates |
| Detection.QuantileBounds | log_analysis.py:143 | `quantile(0.9)` (`Quantile`) lies between the smallest and the largest count |
| Detection.QuantileOneToFive | log_analysis.py:143 | `quantile(0.9)` of the counts 1, 2, 3, 4, 5 is 4.6 |
| Detection.PeaksExactly | log_analysis.py:143 | in `Peaks`, a bucket is a peak exactly when its count is strictly greater than `quantile(0.9)` of all bucket counts |
| Detection.PeaksOfEqualCounts | log_analysis.py:143 | when every bucket has the same count, there is no peak |
| Detection.PeaksOfOneToFive | log_analysis.py:143 | of buckets with counts 1 to 5, only the bucket with 5 is a peak |
| Analysis.BuildWellFormed | log_analysis.py:37-67 | a built record has a valid timestamp, with the date, hour and date-hour key derived from it, and a site area without a slash |
| Analysis.RowWellFormed | log_analysis.py:23-67 | every row that cleans gives such a record |
| Analysis.CleanedRecords | log_analysis.py:16-67 | every record of a successfully cleaned log is well formed |
| Analysis.StringOrderTotal | log_analysis.py:126 | string order is a total order, so `sort_index` on text is defined |
| Analysis.MomentOrder | log_analysis.py:92-93 | under `Moment`, one timestamp is before another exactly when its count of seconds is smaller, and equal exactly when the counts are |
| Analysis.Earliest | log_analysis.py:92 | `min()` of the Datetime column is one of its timestamps and none is earlier |
| Analysis.Latest | log_analysis.py:93 | `max()` of the Datetime column is one of its timestamps and none is later |
| Analysis.Summarize | log_analysis.py:87-102 | a summary exists only for a non-empty log |
| Analysis.SummaryExists | log_analysis.py:102 | the summary prints exactly when some record has code class `2`; otherwise `.loc['2']` raises |
| Analysis.SummaryTimes | log_analysis.py:92-93 | the first and last log are timestamps of records, and no record is earlier than the first or later than the last |
| Analysis.SummaryCounts | log_analysis.py:89-99 | the total is the number of records; the unique IP and country counts are the numbers of distinct values, which are also the sizes of their `value_counts` |
| Analysis.SummaryValidRequests | log_analysis.py:102 | the number of valid requests is the number of records with code class `2` |
| Analysis.LogDayRangeSpan | log_analysis.py:113 | the log's day range (`LogDayRange`) is one more than the widest gap in days between two records, and two records are exactly that far apart |
| Analysis.AlarmingIpsExactly | log_analysis.py:107-115 | in `AlarmingIps`, an IP is flagged, with its number of requests, exactly when it made more than 100 requests per day of the log's range |
| Analysis.DateCountsChronological | log_analysis.py:125-126 | the per-day table counts every date and totals the log; its dates are in chronological order |
| Analysis.HourCountsTable | log_analysis.py:130-131 | the per-hour table counts every hour and totals the log; its hours are in strictly increasing order and each lies from 0 to 23 |
| Analysis.TopHoursLargest | log_analysis.py:135-136 | the top hours (`TopHours`) are at most five hours of the table, and no hour left out has more requests than one chosen |
| Analysis.DateHourBuckets | log_analysis.py:138-145 | the day-hour table counts every bucket and totals the log; its buckets are in chronological order; its peaks are exactly the buckets above `quantile(0.9)` |
| Analysis.LogFileAnalysis.constructor | log_analysis.py:12-14 | the object holds the rows read, the Datetime reader and line-55 mode it is given, and the rows' cleaning in that mode; with `LogReader` and line 55 as written, that is `CleanLogAsWritten`, so the construction fails exactly where the source raises; no report table is set yet |
| Analysis.LogFileAnalysis.LoadData | log_analysis.py:16-24 | the loaded rows are the csv reader's rows, in order, and the frame is their cleaning by the object's Datetime reader and line-55 mode |
| Analysis.LogFileAnalysis.CleanData | log_analysis.py:26-67 | the frame becomes the cleaning of the loaded rows by the object's Datetime reader and line-55 mode, and every record of a successful one is well formed, whichever the mode |
| Analysis.LogFileAnalysis.PrintSummaryStatistics | log_analysis.py:87-102 | the summary printed is the log's summary, and it is missing exactly when line 102 raises |
| Analysis.LogFileAnalysis.AnalyseIpAddresses | log_analysis.py:104-119 | stores the IP table; on a non-empty log also stores the alarming IPs and returns the top 25; on an empty log returns nothing and leaves the alarming IPs unchanged, since line 113 raises; no other table changes |
| Analysis.LogFileAnalysis.AnalyseDatetime | log_analysis.py:122-145 | stores the per-day, per-hour and per-day-hour tables in index order, and returns the top hours and the peak buckets; no other table changes |
| Analysis.LogFileAnalysis.AnalyseLocation | log_analysis.py:148-154 | stores and returns the per-country table; no other table changes |
| Analysis.LogFileAnalysis.AnalyseWebPages | log_analysis.py:157-169 | stores the site-area and page tables, and returns their top 10 and top 25; no other table changes |
| Analysis.LogFileAnalysis.AnalyseUserAgents | log_analysis.py:172-182 | stores the user-agent table, and returns its top 20 and its last 15; no other table changes |
| Analysis.LogFileAnalysis.RunAnalyses | log_analysis.py:72-85 | after the analyses, every table is the one its analysis stores for the log, and the report holds what each analysis prints |
| Analysis.LogFileAnalysis.PrintFullReport | log_analysis.py:69-85 | a report exists exactly when the summary prints; without one, nothing changes; with one, every table is stored and printed |

## Left out

- Reading the file (lines 17-21) is not modelled. The constructor and `LoadData` take the rows that `csv.reader` with a space delimiter yields. Quoting and the splitting of lines into fields are not modelled.
- `print` is left out. Each method returns what it prints, as a value.
- The `__main__` block (lines 185-188) is left out. It only names a file and calls the report.
- A load that raises at construction is modelled as a frame that holds a `Failure`. The analysis methods require a successful load, because the source would have raised before they could run.
- The written design of the program describes skipping bad lines and counting them. The code has no per-line recovery: any bad row makes a pandas step raise for the whole load. The model follows the code, so the cleaning is a `Result` for the whole log.
- The written design reads a month name (`Jul`) and strips only one slash at each end of a page. The code reads the month with `%m` and strips every leading and trailing slash. The model follows the code: `Timestamp.MonthNameRejected` shows that a named month makes the load fail.
- Records.ReadDatetime: pandas turns an empty Datetime field, a field of only brackets (`[]`), and the texts `NaT`, `nat`, `NAT`, `nan`, `NaN` and `NAN` into a missing timestamp (NaT) and carries on; the `Hour` column then holds floating point. The model has no missing timestamp: it rejects these fields, so the whole load fails with `BadTimestamp`.
- Records.ReadDatetime: pandas' `strptime` also accepts a second of 60 or 61, which the model rejects. The year bounds of `to_datetime` are not modelled either.
- Records.ReadDatetime: the directives' `\d` also matches non-ASCII decimal digits (Arabic-Indic, fullwidth and the like), which pandas reads by their digit value; the model reads only the ASCII digits `0`-`9` and rejects the rest.
- Text.ParseInt: `astype('int32')` on text also accepts underscores, Unicode digits and surrounding whitespace. The model reads ASCII digits with an optional sign after stripping whitespace.
- Text.ParseInt: 32-bit overflow (`astype('int32')` raises for values out of range) is not modelled. The object size is never used by the analyses.
- The cleaning's timestamp reader is a parameter (`DatetimeReader`), so that the agreement lemmas hold for any reader. `CleanLog` uses the log's own reader. The class is given its reader by the constructor, as the field `read`: lines 31-34 are fixed in the source, and `LogReader` is the reader that models them. It is likewise given the line-55 mode, as the field `asWritten`: `true` is the source as written, `false` the corrected program of the finding below.
- The `Year`, `Month`, `Day` and `Minute` columns (lines 38-42) are left out, since no analysis reads them.
- Rows that are shorter than others are not padded the way pandas pads ragged lists. A row of the wrong width is the line-23 error.
- Series.SortByCount: `value_counts` and `sort_values` order equal counts in an order pandas does not promise. The model keeps first occurrence order among equal counts and proves only the descending order.
- Detection.Quantile: the quantile is computed on exact reals, not floating point, and only at 0.9, the level the source uses.
- Analysis.Summarize requires every record to have a valid timestamp. A successful cleaning guarantees this.
- Analysis.LogFileAnalysis.RunAnalyses is not a method of the source. It is lines 72-85 of `print_full_report`, run once the summary has printed.

## Findings

| source | as written | input that shows it | evidently intended | confidence | as-written member | corrected member |
|---|---|---|---|---|---|---|
| log_analysis.py:55 | `pd.DataFrame(temp_request.to_list(), columns=['Req Code', 'Page', 'other'])` asks for three columns, but when no request has a third space-separated piece the lists have only two items and pandas raises, so the whole load fails | a log whose only request is `GET /index.html` (no protocol part) | the cleaning keeps verb and page whether or not a third piece exists | not executed | Records.CleanLogAsWritten, Records.AsWrittenRejectsShortRequests, Records.ShortRequestLogRejected, Records.IndexFetchRejected | Records.CleanLog, Records.CleanLogAgreesWithRows |
