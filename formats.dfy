/**
 * The two fixed-width renderings the writers store, `strftime("%Y:%m:%d %H:%M:%S")` for
 * EXIF and `strftime("%Y-%m-%d %H:%M:%S")` for PNG, and `strptime` with the EXIF format,
 * which reads an existing EXIF value back.
 */
module Formats {
  import opened Wrappers
  import opened Text
  import opened Calendar

  /** `s` is `DDDD<sep>DD<sep>DD DD:DD:DD` with `D` an ASCII digit. */
  predicate IsLayout(s: string, sep: char) {
    |s| == 19 && s[4] == sep && s[7] == sep && s[10] == ' ' && s[13] == ':' && s[16] == ':'
    && forall j :: 0 <= j < 19 && j !in {4, 7, 10, 13, 16} ==> IsDigit(s[j])
  }

  /** `strftime("%Y<sep>%m<sep>%d %H:%M:%S")`: every field zero-padded to its full width. */
  function Render(t: Timestamp, dateSep: char): (s: string)
    ensures |s| == 19 && IsLayout(s, dateSep)
    ensures dateSep as int < 128 ==> IsAscii(s)
  {
    [ Digit(t.year / 1000), Digit(t.year / 100 % 10), Digit(t.year / 10 % 10), Digit(t.year % 10),
      dateSep, Digit(t.month / 10), Digit(t.month % 10),
      dateSep, Digit(t.day / 10), Digit(t.day % 10),
      ' ', Digit(t.hour / 10), Digit(t.hour % 10),
      ':', Digit(t.minute / 10), Digit(t.minute % 10),
      ':', Digit(t.second / 10), Digit(t.second % 10) ]
  }

  /**
   * The EXIF `DateTimeOriginal` layout, `YYYY:MM:DD HH:MM:SS`: 19 ASCII characters, digits
   * everywhere except the separators. That `strptime` reads it back as `t` is
   * `ParseFormatRoundTrip`.
   */
  function FormatExif(t: Timestamp): (s: string)
    ensures |s| == 19 && IsAscii(s) && IsLayout(s, ':')
  {
    Render(t, ':')
  }

  /**
   * The PNG `Creation Time` layout, `YYYY-MM-DD HH:MM:SS`: the EXIF text with dashes in
   * place of its two date separators.
   */
  function FormatPng(t: Timestamp): (s: string)
    ensures |s| == 19 && IsAscii(s) && IsLayout(s, '-')
    ensures forall j :: 0 <= j < 19 && j != 4 && j != 7 ==> s[j] == FormatExif(t)[j]
  {
    RenderSeparators(t, '-', ':');
    Render(t, '-')
  }

  /** Two renderings of the same time differ only in their date separators. */
  lemma RenderSeparators(t: Timestamp, a: char, b: char)
    ensures forall j :: 0 <= j < 19 && j != 4 && j != 7 ==> Render(t, a)[j] == Render(t, b)[j]
  {
  }

  // ---------------------------------------------------------------------------------
  // strptime(text, "%Y:%m:%d %H:%M:%S")
  //
  // CPython compiles the format into one regular expression, matches it at the start of
  // the text, and then demands that nothing is left over:
  //   (\d\d\d\d) : (1[0-2]|0[1-9]|[1-9]) : (3[01]|[12]\d|0[1-9]|[1-9]| [1-9]) \s+
  //   (2[0-3]|[0-1]\d|\d) : ([0-5]\d|\d) : (6[0-1]|[0-5]\d|\d)
  // Every field except the last is followed by a delimiter that no alternative of the
  // field can consume, so once an alternative has matched, backtracking into a later,
  // shorter alternative can never let the delimiter match. Each scanner below therefore
  // takes the first alternative that matches, as the regular expression does.
  // ---------------------------------------------------------------------------------

  /** A field's integer value and the index just after it. */
  datatype Field = Field(value: nat, next: nat)

  /** Character `k` of `s` is an ASCII digit whose value lies in `lo..hi`. */
  predicate DigitBetween(s: string, k: nat, lo: nat, hi: nat) {
    k < |s| && IsDigit(s[k]) && lo <= DigitValue(s[k]) <= hi
  }

  function OneDigit(s: string, k: nat): (f: Field)
    requires DigitBetween(s, k, 0, 9)
    ensures f.value < 10 && f.next == k + 1
  {
    Field(DigitValue(s[k]), k + 1)
  }

  function TwoDigits(s: string, k: nat): (f: Field)
    requires DigitBetween(s, k, 0, 9) && DigitBetween(s, k + 1, 0, 9)
    ensures f.value < 100 && f.next == k + 2
  {
    Field(10 * DigitValue(s[k]) + DigitValue(s[k + 1]), k + 2)
  }

  /** `%Y`: `\d\d\d\d`. */
  function Year(s: string, k: nat): (r: Option<Field>)
    ensures r.Some? ==> r.value.value < 10000 && r.value.next == k + 4 <= |s|
  {
    if DigitBetween(s, k, 0, 9) && DigitBetween(s, k + 1, 0, 9)
      && DigitBetween(s, k + 2, 0, 9) && DigitBetween(s, k + 3, 0, 9)
    then Some(Field(100 * TwoDigits(s, k).value + TwoDigits(s, k + 2).value, k + 4))
    else None
  }

  /** `%m`: `1[0-2]|0[1-9]|[1-9]`. */
  function Month(s: string, k: nat): (r: Option<Field>)
    ensures r.Some? ==> 1 <= r.value.value <= 12 && k < r.value.next <= |s|
  {
    if DigitBetween(s, k, 1, 1) && DigitBetween(s, k + 1, 0, 2) then Some(TwoDigits(s, k))
    else if DigitBetween(s, k, 0, 0) && DigitBetween(s, k + 1, 1, 9) then Some(TwoDigits(s, k))
    else if DigitBetween(s, k, 1, 9) then Some(OneDigit(s, k))
    else None
  }

  /** `%d`: `3[01]|[12]\d|0[1-9]|[1-9]| [1-9]`. */
  function Day(s: string, k: nat): (r: Option<Field>)
    ensures r.Some? ==> 1 <= r.value.value <= 31 && k < r.value.next <= |s|
  {
    if DigitBetween(s, k, 3, 3) && DigitBetween(s, k + 1, 0, 1) then Some(TwoDigits(s, k))
    else if DigitBetween(s, k, 1, 2) && DigitBetween(s, k + 1, 0, 9) then Some(TwoDigits(s, k))
    else if DigitBetween(s, k, 0, 0) && DigitBetween(s, k + 1, 1, 9) then Some(TwoDigits(s, k))
    else if DigitBetween(s, k, 1, 9) then Some(OneDigit(s, k))
    else if k < |s| && s[k] == ' ' && DigitBetween(s, k + 1, 1, 9) then Some(Field(OneDigit(s, k + 1).value, k + 2))
    else None
  }

  /** `%H`: `2[0-3]|[0-1]\d|\d`. */
  function Hour(s: string, k: nat): (r: Option<Field>)
    ensures r.Some? ==> r.value.value <= 23 && k < r.value.next <= |s|
  {
    if DigitBetween(s, k, 2, 2) && DigitBetween(s, k + 1, 0, 3) then Some(TwoDigits(s, k))
    else if DigitBetween(s, k, 0, 1) && DigitBetween(s, k + 1, 0, 9) then Some(TwoDigits(s, k))
    else if DigitBetween(s, k, 0, 9) then Some(OneDigit(s, k))
    else None
  }

  /** `%M`: `[0-5]\d|\d`. */
  function Minute(s: string, k: nat): (r: Option<Field>)
    ensures r.Some? ==> r.value.value <= 59 && k < r.value.next <= |s|
  {
    if DigitBetween(s, k, 0, 5) && DigitBetween(s, k + 1, 0, 9) then Some(TwoDigits(s, k))
    else if DigitBetween(s, k, 0, 9) then Some(OneDigit(s, k))
    else None
  }

  /** `%S`: `6[0-1]|[0-5]\d|\d`; 60 and 61 pass the pattern and are refused later by `datetime`. */
  function Second(s: string, k: nat): (r: Option<Field>)
    ensures r.Some? ==> r.value.value <= 61 && k < r.value.next <= |s|
  {
    if DigitBetween(s, k, 6, 6) && DigitBetween(s, k + 1, 0, 1) then Some(TwoDigits(s, k))
    else if DigitBetween(s, k, 0, 5) && DigitBetween(s, k + 1, 0, 9) then Some(TwoDigits(s, k))
    else if DigitBetween(s, k, 0, 9) then Some(OneDigit(s, k))
    else None
  }

  /** A literal character of the format. */
  function Literal(s: string, k: nat, c: char): (r: Option<nat>)
    ensures r.Some? <==> k < |s| && s[k] == c
    ensures r.Some? ==> r.value == k + 1
  {
    if k < |s| && s[k] == c then Some(k + 1) else None
  }

  /** The whitespace characters Python's `\s` matches within ASCII. */
  predicate IsSpace(c: char) {
    c == ' ' || c == '\t' || c == '\n' || c == '\r' || c == '\U{b}' || c == '\U{c}'
    || ('\U{1c}' <= c <= '\U{1f}')
  }

  /** The end of the longest run of whitespace starting at `k`. */
  function SpaceRunEnd(s: string, k: nat): (e: nat)
    requires k <= |s|
    ensures k <= e <= |s|
    ensures forall j :: k <= j < e ==> IsSpace(s[j])
    ensures e < |s| ==> !IsSpace(s[e])
    decreases |s| - k
  {
    if k < |s| && IsSpace(s[k]) then SpaceRunEnd(s, k + 1) else k
  }

  /** The space of the format, which `strptime` turns into `\s+` (greedy). */
  function Whitespace(s: string, k: nat): (r: Option<nat>)
    ensures r.Some? ==> k < r.value <= |s|
    ensures r.Some? ==> forall j :: k <= j < r.value ==> IsSpace(s[j])
    ensures r.Some? <==> k < |s| && IsSpace(s[k])
  {
    if k < |s| && IsSpace(s[k]) then Some(SpaceRunEnd(s, k)) else None
  }

  /** The six field values the pattern captured, and where its match ends. */
  datatype Scan = Scan(fields: seq<nat>, end: nat)

  /** `%Y:%m:%d`: year, month and day, and where they end. */
  function ScanDate(s: string): (r: Option<Scan>)
    ensures r.Some? ==> |r.value.fields| == 3 && r.value.end <= |s|
  {
    var y :- Year(s, 0);
    var c1 :- Literal(s, y.next, ':');
    var mo :- Month(s, c1);
    var c2 :- Literal(s, mo.next, ':');
    var d :- Day(s, c2);
    Some(Scan([y.value, mo.value, d.value], d.next))
  }

  /** `%H:%M:%S` from index `k`: hour, minute and second, and where they end. */
  function ScanTime(s: string, k: nat): (r: Option<Scan>)
    ensures r.Some? ==> |r.value.fields| == 3 && r.value.end <= |s|
  {
    var h :- Hour(s, k);
    var c3 :- Literal(s, h.next, ':');
    var mi :- Minute(s, c3);
    var c4 :- Literal(s, mi.next, ':');
    var sec :- Second(s, c4);
    Some(Scan([h.value, mi.value, sec.value], sec.next))
  }

  /** The pattern matched at the start of `s`, or `None` when it does not match. */
  function ScanExif(s: string): (r: Option<Scan>)
    ensures r.Some? ==> |r.value.fields| == 6 && r.value.end <= |s|
  {
    var date :- ScanDate(s);
    var w :- Whitespace(s, date.end);
    var time :- ScanTime(s, w);
    Some(Scan(date.fields + time.fields, time.end))
  }

  /** The format string, as `strptime`'s messages quote it. */
  const ExifLayout: string := "%Y:%m:%d %H:%M:%S"

  /** The three ways `strptime` raises `ValueError` on this format. */
  datatype ParseError =
    | TimeDataMismatch(data: string) // the pattern does not match at the start of `data`
    | UnconvertedData(rest: string)  // it matches, but `rest` is left over after it
    | OutOfRange(e: CalendarError)   // the captured fields are not a real date and time
  {
    /** `"time data %r does not match format %r"` and `"unconverted data remains: %s"`. */
    function Message(): string {
      match this
      case TimeDataMismatch(data) => "time data " + Repr(data) + " does not match format " + Repr(ExifLayout)
      case UnconvertedData(rest) => "unconverted data remains: " + rest
      case OutOfRange(e) => e.Message()
    }
  }

  /** `datetime.strptime(text, "%Y:%m:%d %H:%M:%S")`. */
  function ParseExif(text: string): (r: Result<Timestamp, ParseError>)
    ensures r == Err(TimeDataMismatch(text)) <==> ScanExif(text).None?
    ensures ScanExif(text).Some? && ScanExif(text).value.end < |text|
      ==> r == Err(UnconvertedData(text[ScanExif(text).value.end..]))
    ensures r.Ok? ==> ScanExif(text).Some? && ScanExif(text).value.end == |text|
    ensures r.Ok? ==> var f := ScanExif(text).value.fields; r.value == DateTime(f[0], f[1], f[2], f[3], f[4], f[5])
    ensures ScanExif(text).Some? && ScanExif(text).value.end == |text| ==>
      var f := ScanExif(text).value.fields;
      var m := MakeTimestamp(f[0], f[1], f[2], f[3], f[4], f[5]);
      (m.Ok? ==> r == Ok(m.value)) && (m.Err? ==> r == Err(OutOfRange(m.error)))
  {
    match ScanExif(text)
    case None => Err(TimeDataMismatch(text))
    case Some(sc) =>
      if sc.end != |text| then Err(UnconvertedData(text[sc.end..]))
      else
        match MakeTimestamp(sc.fields[0], sc.fields[1], sc.fields[2], sc.fields[3], sc.fields[4], sc.fields[5])
        case Ok(t) => Ok(t)
        case Err(e) => Err(OutOfRange(e))
  }

  // ---------------------------------------------------------------------------------
  // `repr` of a string, as the `%r` of the mismatch message prints it.
  // ---------------------------------------------------------------------------------

  /** The quote `repr` chooses: `"` when the text holds `'` but no `"`, else `'`. */
  function QuoteFor(s: string): char {
    if '\'' in s && '"' !in s then '"' else '\''
  }

  /** An ASCII character `repr` prints as itself, unless it is the chosen quote. */
  predicate Printable(c: char) {
    ' ' <= c < '\U{7f}' && c != '\\'
  }

  function HexDigit(n: nat): (c: char)
    requires n < 16
  {
    if n < 10 then Digit(n) else (('a' as int) + n - 10) as char
  }

  /** How `repr` prints one character inside the quote `q`. */
  function EscapeChar(c: char, q: char): (r: string)
    ensures Printable(c) && c != q ==> r == [c]
  {
    if c == q || c == '\\' then ['\\', c]
    else if c == '\t' then "\\t"
    else if c == '\n' then "\\n"
    else if c == '\r' then "\\r"
    else if c < ' ' || c == '\U{7f}' then ['\\', 'x', HexDigit(c as int / 16), HexDigit(c as int % 16)]
    else [c]
  }

  function Escape(s: string, q: char): (r: string)
    ensures |r| >= |s|
    ensures (forall j :: 0 <= j < |s| ==> Printable(s[j]) && s[j] != q) ==> r == s
  {
    if s == [] then []
    else
      assert forall j :: 1 <= j < |s| ==> s[1..][j - 1] == s[j];
      EscapeChar(s[0], q) + Escape(s[1..], q)
  }

  /**
   * `repr(s)`: the text between quotes, with backslashes, the quote and control
   * characters escaped; printable text without a `'` is simply put in single quotes.
   */
  function Repr(s: string): (r: string)
    ensures |r| >= |s| + 2 && r[0] == QuoteFor(s) && r[|r| - 1] == QuoteFor(s)
    ensures (forall j :: 0 <= j < |s| ==> Printable(s[j]) && s[j] != '\'') ==> r == "'" + s + "'"
  {
    var q := QuoteFor(s);
    [q] + Escape(s, q) + [q]
  }

  // ---------------------------------------------------------------------------------
  // Round trip: what the JPEG writer stores reads back as the same timestamp.
  // ---------------------------------------------------------------------------------

  /** Characters `k` and `k + 1` of `s` are the zero-padded two-digit rendering of `n`. */
  predicate PaddedAt(s: string, k: nat, n: nat) {
    n < 100 && k + 1 < |s| && s[k] == Digit(n / 10) && s[k + 1] == Digit(n % 10)
  }

  lemma TwoDigitsOfPadded(s: string, k: nat, n: nat)
    requires PaddedAt(s, k, n)
    ensures DigitBetween(s, k, n / 10, n / 10) && DigitBetween(s, k + 1, n % 10, n % 10)
    ensures TwoDigits(s, k) == Field(n, k + 2)
  {
  }

  lemma YearOfPadded(s: string, k: nat, y: nat)
    requires y < 10000 && PaddedAt(s, k, y / 100) && PaddedAt(s, k + 2, y % 100)
    ensures Year(s, k) == Some(Field(y, k + 4))
  {
    TwoDigitsOfPadded(s, k, y / 100);
    TwoDigitsOfPadded(s, k + 2, y % 100);
  }

  lemma MonthOfPadded(s: string, k: nat, m: nat)
    requires 1 <= m <= 12 && PaddedAt(s, k, m)
    ensures Month(s, k) == Some(Field(m, k + 2))
  {
    TwoDigitsOfPadded(s, k, m);
  }

  lemma DayOfPadded(s: string, k: nat, d: nat)
    requires 1 <= d <= 31 && PaddedAt(s, k, d)
    ensures Day(s, k) == Some(Field(d, k + 2))
  {
    TwoDigitsOfPadded(s, k, d);
  }

  lemma HourOfPadded(s: string, k: nat, h: nat)
    requires h <= 23 && PaddedAt(s, k, h)
    ensures Hour(s, k) == Some(Field(h, k + 2))
  {
    TwoDigitsOfPadded(s, k, h);
  }

  lemma MinuteOfPadded(s: string, k: nat, m: nat)
    requires m <= 59 && PaddedAt(s, k, m)
    ensures Minute(s, k) == Some(Field(m, k + 2))
  {
    TwoDigitsOfPadded(s, k, m);
  }

  lemma SecondOfPadded(s: string, k: nat, sec: nat)
    requires sec <= 59 && PaddedAt(s, k, sec)
    ensures Second(s, k) == Some(Field(sec, k + 2))
  {
    TwoDigitsOfPadded(s, k, sec);
  }

  lemma YearDigits(y: nat)
    requires y < 10000
    ensures y / 100 / 10 == y / 1000 && y / 100 % 10 == y / 100 % 10
    ensures y % 100 / 10 == y / 10 % 10 && y % 100 % 10 == y % 10
  {
  }

  lemma YearOfRender(t: Timestamp, sep: char)
    ensures Year(Render(t, sep), 0) == Some(Field(t.year, 4))
  {
    var s := Render(t, sep);
    YearDigits(t.year);
    assert PaddedAt(s, 0, t.year / 100) && PaddedAt(s, 2, t.year % 100);
    YearOfPadded(s, 0, t.year);
  }

  lemma ScanDateOfRender(t: Timestamp)
    ensures ScanDate(Render(t, ':')) == Some(Scan([t.year, t.month, t.day], 10))
  {
    var s := Render(t, ':');
    YearOfRender(t, ':');
    assert s[4] == ':' && s[7] == ':';
    assert PaddedAt(s, 5, t.month) && PaddedAt(s, 8, t.day);
    MonthOfPadded(s, 5, t.month);
    DayOfPadded(s, 8, t.day);
  }

  lemma ScanTimeOfRender(t: Timestamp)
    ensures ScanTime(Render(t, ':'), 11) == Some(Scan([t.hour, t.minute, t.second], 19))
  {
    var s := Render(t, ':');
    HourOfPadded(s, 11, t.hour);
    MinuteOfPadded(s, 14, t.minute);
    SecondOfPadded(s, 17, t.second);
  }

  lemma ScanOfRender(t: Timestamp)
    ensures ScanExif(Render(t, ':')) == Some(Scan([t.year, t.month, t.day, t.hour, t.minute, t.second], 19))
  {
    var s := Render(t, ':');
    ScanDateOfRender(t);
    assert IsDigit(s[11]) && !IsSpace(s[11]);
    assert SpaceRunEnd(s, 11) == 11;
    assert Whitespace(s, 10) == Some(11);
    ScanTimeOfRender(t);
    assert [t.year, t.month, t.day] + [t.hour, t.minute, t.second]
      == [t.year, t.month, t.day, t.hour, t.minute, t.second];
  }

  /** `strptime` of the rendered EXIF text gives back exactly the timestamp rendered. */
  lemma ParseFormatRoundTrip(t: Timestamp)
    ensures ParseExif(FormatExif(t)) == Ok(t)
  {
    ScanOfRender(t);
  }

  /** Two timestamps with the same PNG text are the same timestamp. */
  lemma FormatPngInjective(t1: Timestamp, t2: Timestamp)
    requires FormatPng(t1) == FormatPng(t2)
    ensures t1 == t2
  {
    var e1, e2 := FormatExif(t1), FormatExif(t2);
    assert forall j :: 0 <= j < 19 ==> e1[j] == e2[j];
    assert e1 == e2;
    ParseFormatRoundTrip(t1);
    ParseFormatRoundTrip(t2);
  }

  /** A stored date with single-digit fields, as another tool might have written it. */
  const ShortFields: string := "2023:6:5 7:03:09"

  lemma ShortDateScans()
    ensures ScanDate(ShortFields) == Some(Scan([2023, 6, 5], 8))
  {
    var s := ShortFields;
    assert Year(s, 0) == Some(Field(2023, 4));
    assert Month(s, 5) == Some(Field(6, 6));
    assert Day(s, 7) == Some(Field(5, 8));
  }

  lemma ShortTimeScans()
    ensures ScanTime(ShortFields, 9) == Some(Scan([7, 3, 9], 16))
  {
    var s := ShortFields;
    assert Hour(s, 9) == Some(Field(7, 10));
    assert Minute(s, 11) == Some(Field(3, 13));
    assert Second(s, 14) == Some(Field(9, 16));
  }

  /** `strptime` also accepts single-digit fields, which a rewrite would not reproduce. */
  lemma ParseAcceptsShortFields()
    ensures ParseExif(ShortFields) == Ok(DateTime(2023, 6, 5, 7, 3, 9))
  {
    ShortDateScans();
    ShortTimeScans();
    assert Whitespace(ShortFields, 8) == Some(9);
  }

  /** A stored date written with dashes, as another tool might have written it. */
  const DashedFields: string := "2023-06-15 10:15:00"

  lemma DashedFieldsScan()
    ensures ScanExif(DashedFields) == None
  {
    var s := DashedFields;
    assert Year(s, 0).Some? && Year(s, 0).value.next == 4;
    assert s[4] == '-';
    assert Literal(s, 4, ':') == None;
  }

  lemma DashedFieldsRepr()
    ensures Repr(DashedFields) == "'" + DashedFields + "'"
  {
    var s := DashedFields;
    assert forall j :: 0 <= j < |s| ==> Printable(s[j]) && s[j] != '\'';
  }

  lemma LayoutRepr()
    ensures Repr(ExifLayout) == "'" + ExifLayout + "'"
  {
    var s := ExifLayout;
    assert forall j :: 0 <= j < |s| ==> Printable(s[j]) && s[j] != '\'';
  }

  /** `strptime` refuses it, and its message quotes the data and the format. */
  lemma DashedFieldsMismatch()
    ensures ParseExif(DashedFields) == Err(TimeDataMismatch(DashedFields))
    ensures ParseExif(DashedFields).error.Message()
      == "time data " + ("'" + DashedFields + "'") + " does not match format " + ("'" + ExifLayout + "'")
  {
    DashedFieldsScan();
    DashedFieldsRepr();
    LayoutRepr();
  }
}
