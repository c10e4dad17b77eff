/**
 * The `Datetime` column: a raw log token such as `[10/07/2025:14:03:21]`
 * turned into a civil date and time (log_analysis.py, lines 30-34).
 */
module Timestamp {
  import opened Wrappers
  import opened Text
  import opened Civil

  /**
   * strip('[]'), split(':', n=1), then join with ' ': the brackets go and
   * only the first ':' becomes a space.
   */
  function Normalize(raw: string): (r: string)
    ensures var s := Strip(raw, IsBracket);
      if ':' in s then r == s[..FirstIndex(s, ':')] + " " + s[FirstIndex(s, ':') + 1..] else r == s
  {
    var s := Strip(raw, IsBracket);
    if ':' in s then
      var i := FirstIndex(s, ':');
      assert Split(s, ':', 1) == [s[..i], s[i + 1..]];
      JoinTwo(s[..i], s[i + 1..], ' ');
      Join(Split(s, ':', 1), ' ')
    else
      Join(Split(s, ':', 1), ' ')
  }

  /** The characters of strip('[]'). */
  predicate IsBracket(c: char) {
    c == '[' || c == ']'
  }

  /** The field is one or two ASCII digits that denote `v`. */
  predicate Reads(f: string, v: int) {
    1 <= |f| <= 2 && AllDigits(f) && DigitsValue(f) == v
  }

  /** The day field denotes `v`: as one or two digits, or as a space and one digit. */
  predicate DayReads(f: string, v: int) {
    Reads(f, v) || (|f| == 2 && f[0] == ' ' && Reads(f[1..], v))
  }

  /**
   * A numeric strptime directive of one or two digits: any single digit
   * not below `lo`, or exactly two digits whose value lies in lo..hi.
   * It accepts a field exactly when the field reads as a number in range.
   */
  function NumberField(f: string, lo: nat, hi: nat): (r: Option<nat>)
    requires lo <= 9 <= hi
    ensures r.Some? ==> Reads(f, r.value) && lo <= r.value <= hi
    ensures forall v :: Reads(f, v) && lo <= v <= hi ==> r == Some(v)
  {
    if |f| == 1 && IsDigit(f[0]) then
      OneDigit(f);
      if lo <= DigitValue(f[0]) then Some(DigitValue(f[0])) else None
    else if |f| == 2 && AllDigits(f) && lo <= DigitsValue(f) <= hi then Some(DigitsValue(f))
    else None
  }

  /**
   * %d also takes a space followed by a digit 1-9. It accepts a field
   * exactly when the field reads as a day 1-31.
   */
  function DayField(f: string): (r: Option<nat>)
    ensures r.Some? ==> DayReads(f, r.value) && 1 <= r.value <= 31
    ensures forall v :: DayReads(f, v) && 1 <= v <= 31 ==> r == Some(v)
  {
    if |f| == 2 && f[0] == ' ' && IsDigit(f[1]) then
      OneDigit(f[1..]);
      if '1' <= f[1] then Some(DigitValue(f[1])) else NumberField(f, 1, 31)
    else NumberField(f, 1, 31)
  }

  /** A single digit denotes its own value. */
  lemma OneDigit(g: string)
    requires |g| == 1 && IsDigit(g[0])
    ensures AllDigits(g) && DigitsValue(g) == DigitValue(g[0])
  {
    assert g[..0] == [];
  }

  /**
   * pd.to_datetime(s, format='%d/%m/%Y %H:%M:%S'): the whole text must
   * match; the blank of the format matches one or more whitespace
   * characters; the month is numeric; the result must be a real date.
   */
  function ParseTimestamp(s: string): (r: Option<DateTime>)
    ensures r.Some? ==> ValidDateTime(r.value) && Separate(s).Some?
  {
    match Separate(s)
    case None => None
    case Some(p) => FromFields(p.day, p.month, p.year, p.hour, p.minute, p.second)
  }

  /** The text between the separators the format fixes, and the blank. */
  datatype Pieces = Pieces(day: string, month: string, year: string, gap: string,
                           hour: string, minute: string, second: string)

  /** The text the pieces spell: day/month/year, the blank, then hour:minute:second. */
  function Spelled(p: Pieces): string {
    p.day + ("/" + (p.month + ("/" + (p.year + (p.gap + TimePart(p.hour, p.minute, p.second))))))
  }

  /** The blank of the format: one or more characters, all of them whitespace. */
  predicate Blank(gap: string) {
    gap != [] && LeadingCount(gap, IsSpace) == |gap|
  }

  /**
   * Pieces the matcher can find: no separator inside a field that one
   * ends, a 4-character year, a blank, and an hour that does not go on
   * with the blank.
   */
  predicate Separated(p: Pieces) {
    '/' !in p.day && '/' !in p.month && |p.year| == 4 && Blank(p.gap) &&
    (p.hour == [] || !IsSpace(p.hour[0])) && ':' !in p.hour && ':' !in p.minute
  }

  /**
   * Matches the separators of the format: the first two '/', four
   * characters of year, the whitespace run, then the first two ':'.
   * What lies between them is read by FromFields.
   */
  function Separate(s: string): Option<Pieces> {
    var dmy := Split(s, '/', 2);
    if |dmy| < 3 then None
    else
      var rest := dmy[2];
      if |rest| < 4 then None
      else
        var gap := LeadingCount(rest[4..], IsSpace);
        if gap == 0 then None
        else
          var hms := Split(rest[4 + gap..], ':', 2);
          if |hms| < 3 then None
          else Some(Pieces(dmy[0], dmy[1], rest[..4], rest[4..4 + gap], hms[0], hms[1], hms[2]))
  }

  /**
   * The six fields denote the instant `t`: the numeric fields as
   * NumberField and DayField read them, the year as four ASCII digits.
   */
  predicate FieldsRead(day: string, month: string, year: string, hour: string, minute: string, second: string,
                       t: DateTime) {
    DayReads(day, t.date.day) && Reads(month, t.date.month) &&
    |year| == 4 && AllDigits(year) && DigitsValue(year) == t.date.year &&
    Reads(hour, t.hour) && Reads(minute, t.minute) && Reads(second, t.second)
  }

  /** Reads the six fields once the separators have been matched. */
  function FromFields(day: string, month: string, year: string, hour: string, minute: string, second: string): (r: Option<DateTime>)
    ensures r.Some? ==> ValidDateTime(r.value) && FieldsRead(day, month, year, hour, minute, second, r.value)
  {
    if |year| != 4 || !AllDigits(year) then None
    else
      match (DayField(day), NumberField(month, 1, 12),
             NumberField(hour, 0, 23), NumberField(minute, 0, 59), NumberField(second, 0, 59))
      case (Some(d), Some(m), Some(h), Some(mi), Some(sec)) =>
        var date := Date(DigitsValue(year), m, d);
        if ValidDate(date) then Some(DateTime(date, h, mi, sec)) else None
      case _ => None
  }

  function TimePart(hour: string, minute: string, second: string): string {
    hour + (":" + (minute + (":" + second)))
  }

  /** Day, month and year, then `sep`, then the time of day. */
  function Fields(day: string, month: string, year: string, sep: char,
                  hour: string, minute: string, second: string): string {
    day + ("/" + (month + ("/" + (year + ([sep] + TimePart(hour, minute, second))))))
  }

  /** The layout the parser reads: DD/MM/YYYY HH:MM:SS. */
  function Layout(day: string, month: string, year: string, hour: string, minute: string, second: string): string {
    Fields(day, month, year, ' ', hour, minute, second)
  }

  /** The token as the log writes it: [DD/MM/YYYY:HH:MM:SS]. */
  function RawLayout(day: string, month: string, year: string, hour: string, minute: string, second: string): string {
    "[" + Fields(day, month, year, ':', hour, minute, second) + "]"
  }

  /** The canonical text of a valid instant, in the layout the parser reads. */
  function TimestampText(t: DateTime): string
    requires ValidDateTime(t)
  {
    Layout(Padded(t.date.day, 2), Padded(t.date.month, 2), Padded(t.date.year, 4),
           Padded(t.hour, 2), Padded(t.minute, 2), Padded(t.second, 2))
  }

  /** The log token of a valid instant. */
  function RawTimestamp(t: DateTime): string
    requires ValidDateTime(t)
  {
    RawLayout(Padded(t.date.day, 2), Padded(t.date.month, 2), Padded(t.date.year, 4),
              Padded(t.hour, 2), Padded(t.minute, 2), Padded(t.second, 2))
  }

  /** strip('[]') removes exactly one bracket at each end of a text that has none at its own ends. */
  lemma StripBrackets(inner: string)
    requires inner != [] && !IsBracket(inner[0]) && !IsBracket(inner[|inner| - 1])
    ensures Strip("[" + inner + "]", IsBracket) == inner
  {
    var raw := "[" + inner + "]";
    assert raw[1..] == inner + "]";
    assert LeadingCount(raw[1..], IsBracket) == 0;
    assert LeadingCount(raw, IsBracket) == 1;
    var l := raw[1..];
    assert l[..|l| - 1] == inner;
    assert TrailingCount(inner, IsBracket) == 0;
    assert TrailingCount(l, IsBracket) == 1;
  }

  /**
   * Normalising a bracketed token turns its first ':' into a space and keeps
   * every later ':' as it is.
   */
  lemma {:induction false} FirstColonOnly(a: string, b: string)
    requires ':' !in a
    requires a != [] && !IsBracket(a[0])
    requires b != [] && !IsBracket(b[|b| - 1])
    ensures Normalize("[" + (a + (":" + b)) + "]") == a + (" " + b)
  {
    var inner := a + (":" + b);
    assert Strip("[" + inner + "]", IsBracket) == inner by {
      assert inner[0] == a[0] && inner[|inner| - 1] == b[|b| - 1];
      StripBrackets(inner);
    }
    assert Split(inner, ':', 1) == [a, b] by {
      SplitAfter(a, ':', b, 1);
      SplitNone(b, ':', 0);
    }
    assert Join([a, b], ' ') == a + (" " + b) by {
      JoinTwo(a, b, ' ');
      Assoc(a, " ", b);
    }
  }

  /** The time of day splits into its three fields. */
  lemma {:induction false} TimeFields(hour: string, minute: string, second: string)
    requires ':' !in hour && ':' !in minute
    ensures Split(TimePart(hour, minute, second), ':', 2) == [hour, minute, second]
  {
    SplitAfter(hour, ':', minute + (":" + second), 2);
    SplitAfter(minute, ':', second, 1);
    SplitNone(second, ':', 0);
  }

  /** The date splits at its two slashes, leaving the year and what follows it. */
  lemma {:induction false} DateFields(day: string, month: string, rest: string)
    requires '/' !in day && '/' !in month
    ensures Split(day + ("/" + (month + ("/" + rest))), '/', 2) == [day, month, rest]
  {
    SplitAfter(day, '/', month + ("/" + rest), 2);
    SplitAfter(month, '/', rest, 1);
    SplitNone(rest, '/', 0);
  }

  /** A three-piece split joins back with the separator twice. */
  lemma JoinThree(parts: seq<string>, sep: char)
    requires |parts| == 3
    ensures Join(parts, sep) == parts[0] + ([sep] + (parts[1] + ([sep] + parts[2])))
  {
    assert parts[1..] == [parts[1], parts[2]];
    JoinTwo(parts[1], parts[2], sep);
    assert Join(parts, sep) == parts[0] + [sep] + (parts[1] + [sep] + parts[2]);
  }

  /** A text is the concatenation of its three slices at `i` and `j`. */
  lemma Cut(s: string, i: nat, j: nat)
    requires i <= j <= |s|
    ensures s == s[..i] + (s[i..j] + s[j..])
  {
    assert s == s[..i] + s[i..];
    assert s[i..] == s[i..j] + s[j..];
  }

  /** Digits hold neither separator. */
  lemma DigitsNoSeparator(s: string)
    requires AllDigits(s)
    ensures '/' !in s && ':' !in s && (s != [] ==> !IsSpace(s[0]) && !IsBracket(s[0]) && !IsBracket(s[|s| - 1]))
  {
  }

  /**
   * Whatever the parser accepts has the format's shape: pieces the
   * matcher can find, spelling the text, whose fields read as the result.
   * FromFields takes only 1-2 digit fields and a 4-digit year, so no
   * other text is accepted.
   */
  lemma ParseTimestampShape(s: string)
    requires ParseTimestamp(s).Some?
    ensures exists p :: (Separated(p) && Spelled(p) == s &&
                         FromFields(p.day, p.month, p.year, p.hour, p.minute, p.second) == ParseTimestamp(s) &&
                         FieldsRead(p.day, p.month, p.year, p.hour, p.minute, p.second, ParseTimestamp(s).value))
  {
    SeparateSound(s);
    var p := Separate(s).value;
    assert Spelled(p) == s;
  }

  /** Fields that read as a valid instant are read as that instant. */
  lemma FromFieldsExactly(day: string, month: string, year: string, hour: string, minute: string, second: string,
                          t: DateTime)
    requires ValidDateTime(t) && FieldsRead(day, month, year, hour, minute, second, t)
    ensures FromFields(day, month, year, hour, minute, second) == Some(t)
  {
  }

  /**
   * The converse of ParseTimestampShape: text of the format's shape whose
   * fields read as a valid instant parses as that instant.
   */
  lemma ParseTimestampExactly(p: Pieces, t: DateTime)
    requires Separated(p) && ValidDateTime(t)
    requires FieldsRead(p.day, p.month, p.year, p.hour, p.minute, p.second, t)
    ensures ParseTimestamp(Spelled(p)) == Some(t)
  {
    SeparateSpelled(p);
    FromFieldsExactly(p.day, p.month, p.year, p.hour, p.minute, p.second, t);
  }

  /** The pieces the matcher cuts out are separated and spell the text back. */
  lemma SeparateSound(s: string)
    requires Separate(s).Some?
    ensures Separated(Separate(s).value) && Spelled(Separate(s).value) == s
  {
    var dmy := Split(s, '/', 2);
    var n := LeadingCount(dmy[2][4..], IsSpace);
    SeparatedPieces(s, dmy, n, Split(dmy[2][4 + n..], ':', 2));
  }

  /** The leading whitespace run, when there is one, is a blank. */
  lemma LeadingBlank(t: string)
    ensures var n := LeadingCount(t, IsSpace); n == 0 || Blank(t[..n])
  {
    var n := LeadingCount(t, IsSpace);
    assert forall k :: 0 <= k < n ==> t[..n][k] == t[k];
  }

  /** A blank followed by text that does not start with whitespace: the leading run is the blank. */
  lemma BlankThen(gap: string, t: string)
    requires Blank(gap) && (t == [] || !IsSpace(t[0]))
    ensures LeadingCount(gap + t, IsSpace) == |gap|
  {
    var s := gap + t;
    var n := LeadingCount(s, IsSpace);
    assert forall k :: 0 <= k < |gap| ==> s[k] == gap[k];
    assert t != [] ==> s[|gap|] == t[0];
  }

  /** Split pieces that join back to the text make separated pieces that spell it. */
  lemma SeparatedPieces(s: string, dmy: seq<string>, n: nat, hms: seq<string>)
    requires |dmy| == 3 && Join(dmy, '/') == s && '/' !in dmy[0] && '/' !in dmy[1]
    requires 4 + n <= |dmy[2]| && 0 < n == LeadingCount(dmy[2][4..], IsSpace)
    requires |hms| == 3 && Join(hms, ':') == dmy[2][4 + n..] && ':' !in hms[0] && ':' !in hms[1]
    ensures var p := Pieces(dmy[0], dmy[1], dmy[2][..4], dmy[2][4..4 + n], hms[0], hms[1], hms[2]);
      Separated(p) && Spelled(p) == s
  {
    var rest := dmy[2];
    JoinThree(dmy, '/');
    JoinThree(hms, ':');
    Cut(rest, 4, 4 + n);
    assert Blank(rest[4..4 + n]) by {
      LeadingBlank(rest[4..]);
      assert rest[4..4 + n] == rest[4..][..n];
    }
    assert hms[0] != [] ==> hms[0][0] == rest[4..][n];
  }

  /**
   * The converse: the text that separated pieces spell is cut back into
   * those very pieces, whatever the blank.
   */
  lemma {:induction false} SeparateSpelled(p: Pieces)
    requires Separated(p)
    ensures Separate(Spelled(p)) == Some(p)
  {
    var time := TimePart(p.hour, p.minute, p.second);
    var rest := p.year + (p.gap + time);
    var n := |p.gap|;
    assert |rest| >= 4 + n && rest[..4] == p.year && rest[4..4 + n] == p.gap;
    assert rest[4..] == p.gap + time && rest[4 + n..] == time;
    assert LeadingCount(rest[4..], IsSpace) == n by {
      assert p.hour != [] ==> time[0] == p.hour[0];
      BlankThen(p.gap, time);
    }
    assert Split(Spelled(p), '/', 2) == [p.day, p.month, rest] by {
      DateFields(p.day, p.month, rest);
    }
    assert Split(time, ':', 2) == [p.hour, p.minute, p.second] by {
      TimeFields(p.hour, p.minute, p.second);
    }
    SeparateOf(Spelled(p), p, rest, n, time);
  }

  /** The matcher's steps, each given: it returns the pieces they cut out. */
  lemma SeparateOf(s: string, p: Pieces, rest: string, n: nat, time: string)
    requires Split(s, '/', 2) == [p.day, p.month, rest]
    requires n == |p.gap| && |rest| >= 4 + n && n > 0 && LeadingCount(rest[4..], IsSpace) == n
    requires time == rest[4 + n..] && Split(time, ':', 2) == [p.hour, p.minute, p.second]
    requires rest[..4] == p.year && rest[4..4 + n] == p.gap
    ensures Separate(s) == Some(p)
  {
  }

  /**
   * The parser finds the six fields of its layout, whatever they hold, as
   * long as the separators stay where the layout puts them.
   */
  lemma {:induction false} LayoutFields(day: string, month: string, year: string, hour: string, minute: string, second: string)
    requires '/' !in day && '/' !in month && |year| == 4
    requires hour != [] && !IsSpace(hour[0]) && ':' !in hour && ':' !in minute
    ensures ParseTimestamp(Layout(day, month, year, hour, minute, second)) ==
      FromFields(day, month, year, hour, minute, second)
  {
    var p := Pieces(day, month, year, " ", hour, minute, second);
    assert Layout(day, month, year, hour, minute, second) == Spelled(p);
    assert Blank(" ");
    SeparateSpelled(p);
  }

  /** The log token's layout normalises to the parser's layout. */
  lemma {:induction false} RawLayoutNormalizes(day: string, month: string, year: string, hour: string, minute: string, second: string)
    requires day != [] && !IsBracket(day[0]) && second != [] && !IsBracket(second[|second| - 1])
    requires ':' !in day && ':' !in month && ':' !in year
    ensures Normalize(RawLayout(day, month, year, hour, minute, second)) == Layout(day, month, year, hour, minute, second)
  {
    var time := TimePart(hour, minute, second);
    var date := day + ("/" + (month + ("/" + year)));
    assert ':' !in date by {
      assert forall k :: 0 <= k < |date| ==> date[k] in day || date[k] == '/' || date[k] in month || date[k] in year;
    }
    assert date[0] == day[0];
    assert time[|time| - 1] == second[|second| - 1];
    FirstColonOnly(date, time);
    // regroup date + (sep + time) as the right-nested Fields
    Assoc(day, "/" + (month + ("/" + year)), ":" + time);
    Assoc("/", month + ("/" + year), ":" + time);
    Assoc(month, "/" + year, ":" + time);
    Assoc("/", year, ":" + time);
    Assoc(day, "/" + (month + ("/" + year)), " " + time);
    Assoc("/", month + ("/" + year), " " + time);
    Assoc(month, "/" + year, " " + time);
    Assoc("/", year, " " + time);
  }

  /** The fields of a valid instant, zero-padded, read back as that instant. */
  lemma {:induction false} PaddedFields(t: DateTime)
    requires ValidDateTime(t)
    ensures FromFields(Padded(t.date.day, 2), Padded(t.date.month, 2), Padded(t.date.year, 4),
                       Padded(t.hour, 2), Padded(t.minute, 2), Padded(t.second, 2)) == Some(t)
  {
    PaddedDigits(t.date.year, 4);
    PaddedDigits(t.date.day, 2);
    PaddedDigits(t.date.month, 2);
    PaddedDigits(t.hour, 2);
    PaddedDigits(t.minute, 2);
    PaddedDigits(t.second, 2);
    FromFieldsExactly(Padded(t.date.day, 2), Padded(t.date.month, 2), Padded(t.date.year, 4),
                      Padded(t.hour, 2), Padded(t.minute, 2), Padded(t.second, 2), t);
  }

  /** Parsing the canonical text of a valid instant gives it back. */
  lemma {:induction false} ParseTimestampText(t: DateTime)
    requires ValidDateTime(t)
    ensures ParseTimestamp(TimestampText(t)) == Some(t)
  {
    PaddedDigits(t.date.day, 2);
    PaddedDigits(t.date.month, 2);
    PaddedDigits(t.date.year, 4);
    PaddedDigits(t.hour, 2);
    PaddedDigits(t.minute, 2);
    DigitsNoSeparator(Padded(t.date.day, 2));
    DigitsNoSeparator(Padded(t.date.month, 2));
    DigitsNoSeparator(Padded(t.hour, 2));
    DigitsNoSeparator(Padded(t.minute, 2));
    LayoutFields(Padded(t.date.day, 2), Padded(t.date.month, 2), Padded(t.date.year, 4),
                 Padded(t.hour, 2), Padded(t.minute, 2), Padded(t.second, 2));
    PaddedFields(t);
  }

  /** The log token of a valid instant normalises and parses back to it. */
  lemma {:induction false} RawTimestampRoundTrip(t: DateTime)
    requires ValidDateTime(t)
    ensures ParseTimestamp(Normalize(RawTimestamp(t))) == Some(t)
  {
    var day, month, year := Padded(t.date.day, 2), Padded(t.date.month, 2), Padded(t.date.year, 4);
    var hour, minute, second := Padded(t.hour, 2), Padded(t.minute, 2), Padded(t.second, 2);
    assert day != [] && !IsBracket(day[0]) && ':' !in day by {
      PaddedDigits(t.date.day, 2);
      DigitsNoSeparator(day);
    }
    assert ':' !in month by {
      PaddedDigits(t.date.month, 2);
      DigitsNoSeparator(month);
    }
    assert ':' !in year by {
      PaddedDigits(t.date.year, 4);
      DigitsNoSeparator(year);
    }
    assert second != [] && !IsBracket(second[|second| - 1]) by {
      PaddedDigits(t.second, 2);
      DigitsNoSeparator(second);
    }
    assert Normalize(RawTimestamp(t)) == TimestampText(t) by {
      RawLayoutNormalizes(day, month, year, hour, minute, second);
    }
    ParseTimestampText(t);
  }

  /**
   * A month written as a name, as in the layout `DD/Mon/YYYY`, is rejected:
   * a log token whose month holds anything but digits reads as nothing.
   */
  lemma MonthNameRejected(day: string, month: string, year: string, hour: string, minute: string, second: string)
    requires day != [] && !IsBracket(day[0]) && second != [] && !IsBracket(second[|second| - 1])
    requires ':' !in day && ':' !in month && ':' !in year && '/' !in day && '/' !in month && |year| == 4
    requires hour != [] && !IsSpace(hour[0]) && ':' !in hour && ':' !in minute
    requires !AllDigits(month)
    ensures ParseTimestamp(Normalize(RawLayout(day, month, year, hour, minute, second))) == None
  {
    assert NumberField(month, 1, 12) == None;
    assert FromFields(day, month, year, hour, minute, second) == None;
    RawLayoutNormalizes(day, month, year, hour, minute, second);
    LayoutFields(day, month, year, hour, minute, second);
  }

  /** The token [10/Jul/2025:14:03:21], with its month as a name, is rejected. */
  lemma JulyRejected()
    ensures ParseTimestamp(Normalize("[10/Jul/2025:14:03:21]")) == None
  {
    assert !IsDigit("Jul"[0]);
    assert RawLayout("10", "Jul", "2025", "14", "03", "21") == "[10/Jul/2025:14:03:21]";
    MonthNameRejected("10", "Jul", "2025", "14", "03", "21");
  }

  /** Fields without zero padding are read: %d, %m, %H, %M and %S take one digit. */
  lemma UnpaddedAccepted()
    ensures ParseTimestamp("1/7/2025 3:4:5") == Some(DateTime(Date(2025, 7, 1), 3, 4, 5))
  {
    assert Layout("1", "7", "2025", "3", "4", "5") == "1/7/2025 3:4:5";
    LayoutFields("1", "7", "2025", "3", "4", "5");
    OneDigit("1");
    OneDigit("7");
    OneDigit("3");
    OneDigit("4");
    OneDigit("5");
    YearDigits();
    FromFieldsExactly("1", "7", "2025", "3", "4", "5", DateTime(Date(2025, 7, 1), 3, 4, 5));
  }

  /** The year field of the examples denotes 2025. */
  lemma YearDigits()
    ensures AllDigits("2025") && DigitsValue("2025") == 2025
  {
    assert "2025"[..3] == "202" && "202"[..2] == "20" && "20"[..1] == "2" && "2"[..0] == [];
  }

  /** Text left over after the seconds is not read: the whole text must match. */
  lemma TrailingTextRejected()
    ensures ParseTimestamp("10/07/2025 14:03:21x") == None
  {
    assert Layout("10", "07", "2025", "14", "03", "21x") == "10/07/2025 14:03:21x";
    LayoutFields("10", "07", "2025", "14", "03", "21x");
  }
}
