/**
  The pure half of the calendar service: turning a date entry into the event
  record sent to the remote calendar (summary, description, a two-hour time
  window and a colour id chosen from the outcome).

  Parsing `date + "T" + time` with JavaScript's `Date` is abstracted: the
  caller supplies the parsed instant as milliseconds since the epoch, or
  `None` for an invalid date. `toISOString` throws for an instant outside
  ECMAScript's time-value range; that range is kept explicitly, because the
  end of the window is computed by adding two hours and can leave it.
 */
module CalendarEvents {
  import opened Wrappers
  import opened Entries

  /** The fixed duration of every event: two hours, in milliseconds. */
  const TwoHoursMs: int := 2 * 60 * 60 * 1000

  /** The largest magnitude of an ECMAScript time value (100 000 000 days). */
  const MaxTimeMs: int := 8_640_000_000_000_000

  predicate IsTimeValue(ms: int) {
    -MaxTimeMs <= ms <= MaxTimeMs
  }

  /** An instant together with the time zone name it is reported in. */
  datatype EventTime = EventTime(instantMs: int, timeZone: string)

  datatype CalendarEvent = CalendarEvent(
    summary: string,
    description: string,
    start: EventTime,
    end: EventTime,
    location: string,
    colorId: string)

  /** The text handed to the date parser: the entry's date and time joined by a `T`. */
  function DateTimeText(entry: DateEntry): string {
    entry.date + "T" + entry.time
  }

  // ---------------------------------------------------------------------
  // Colour
  // ---------------------------------------------------------------------

  /** The remote calendar's colour id for an outcome (green, blue, yellow, grey, default). */
  function ColorId(outcome: string): (r: string)
    ensures r in {"10", "7", "5", "8", "1"}
    ensures r == "1" <==> outcome !in KnownOutcomes
  {
    if outcome == Great then "10"
    else if outcome == Good then "7"
    else if outcome == Okay then "5"
    else if outcome == NoSpark then "8"
    else "1"
  }

  /** Distinct known outcomes get distinct colours, so the colour id identifies a known outcome. */
  lemma ColorIdInjectiveOnKnown(a: string, b: string)
    requires a in KnownOutcomes && b in KnownOutcomes
    ensures ColorId(a) == ColorId(b) <==> a == b
  {
  }

  // ---------------------------------------------------------------------
  // Text
  // ---------------------------------------------------------------------

  function DigitChar(d: nat): (c: char)
    requires d < 10
    ensures '0' <= c <= '9' && (c as int) - ('0' as int) == d
  {
    "0123456789"[d]
  }

  /** The number a run of decimal digits denotes, most significant digit first. */
  function DigitsValue(s: string): nat
    requires forall i :: 0 <= i < |s| ==> '0' <= s[i] <= '9'
    decreases |s|
  {
    if s == [] then 0
    else DigitsValue(s[..|s| - 1]) * 10 + ((s[|s| - 1] as int) - ('0' as int))
  }

  /** Decimal digits of a natural number, without leading zeros: they denote `n`. */
  function NatText(n: nat): (s: string)
    ensures |s| >= 1
    ensures forall i :: 0 <= i < |s| ==> '0' <= s[i] <= '9'
    ensures DigitsValue(s) == n
    ensures s[0] != '0' || s == "0"
    decreases n
  {
    if n < 10 then [DigitChar(n)]
    else
      var s := NatText(n / 10) + [DigitChar(n % 10)];
      assert s[..|s| - 1] == NatText(n / 10);
      s
  }

  /**
    How a template literal renders an integral rating: a minus sign exactly
    for a negative rating, followed by the digits of its magnitude, with no
    leading zero.
   */
  function RatingText(rating: int): (r: string)
    ensures |r| >= 1 && (r[0] == '-' <==> rating < 0)
    ensures rating < 0 ==> (forall i :: 1 <= i < |r| ==> '0' <= r[i] <= '9') && DigitsValue(r[1..]) == -rating
    ensures rating >= 0 ==> (forall i :: 0 <= i < |r| ==> '0' <= r[i] <= '9') && DigitsValue(r) == rating
    ensures r[0] == '-' ==> r[1] != '0'
    ensures r[0] == '0' ==> r == "0"
  {
    if rating < 0 then
      var r := "-" + NatText(-rating);
      assert r[1..] == NatText(-rating);
      r
    else NatText(rating)
  }

  function Summary(entry: DateEntry): string {
    entry.kind + " Date - " + entry.location
  }

  /** The notes line: present exactly when the notes are non-empty (a truthy string). */
  function NotesLine(notes: string): (r: string)
    ensures r == "" <==> notes == ""
  {
    if notes != "" then "Notes: " + notes else ""
  }

  function DescriptionHeader(entry: DateEntry): string {
    "Date Type: " + entry.kind
    + "\nLocation: " + entry.location
    + "\nOutcome: " + entry.outcome
    + "\nRating: " + RatingText(entry.rating) + "/5 stars\n"
  }

  const DescriptionFooter: string := "\n\nCreated by Dating Tracker App"

  /** The description as laid out line by line. */
  function DescriptionText(entry: DateEntry): string {
    DescriptionHeader(entry) + NotesLine(entry.notes) + DescriptionFooter
  }

  /**
    The template literal before trimming: it opens with a line break and ends
    with a line break followed by the four spaces that indent the closing
    backtick.
   */
  function RawDescription(entry: DateEntry): string {
    "\n" + DescriptionText(entry) + "\n    "
  }

  /** The characters `String.prototype.trim` removes: white space and line terminators. */
  predicate IsJsWhitespace(c: char) {
    c in {'\t', '\n', '\U{000B}', '\U{000C}', '\r', ' ', '\U{00A0}', '\U{1680}',
          '\U{2000}', '\U{2001}', '\U{2002}', '\U{2003}', '\U{2004}', '\U{2005}',
          '\U{2006}', '\U{2007}', '\U{2008}', '\U{2009}', '\U{200A}', '\U{2028}',
          '\U{2029}', '\U{202F}', '\U{205F}', '\U{3000}', '\U{FEFF}'}
  }

  predicate AllWhitespace(s: string) {
    forall i :: 0 <= i < |s| ==> IsJsWhitespace(s[i])
  }

  function TrimStart(s: string): (r: string)
    ensures r == [] || !IsJsWhitespace(r[0])
    ensures |r| <= |s| && r == s[|s| - |r|..]
  {
    if s != [] && IsJsWhitespace(s[0]) then TrimStart(s[1..]) else s
  }

  function TrimEnd(s: string): (r: string)
    ensures r == [] || !IsJsWhitespace(r[|r| - 1])
    ensures |r| <= |s| && r == s[..|r|]
  {
    if s != [] && IsJsWhitespace(s[|s| - 1]) then TrimEnd(s[..|s| - 1]) else s
  }

  function Trim(s: string): string {
    TrimEnd(TrimStart(s))
  }

  /** Leading white space is dropped up to the first other character. */
  lemma {:induction false} TrimStartSkips(ws: string, s: string)
    requires AllWhitespace(ws)
    requires s != [] && !IsJsWhitespace(s[0])
    ensures TrimStart(ws + s) == s
  {
    if ws != [] {
      assert (ws + s)[1..] == ws[1..] + s;
      TrimStartSkips(ws[1..], s);
    } else {
      assert ws + s == s;
    }
  }

  /** Trailing white space is dropped back to the last other character. */
  lemma {:induction false} TrimEndSkips(s: string, ws: string)
    requires AllWhitespace(ws)
    requires s != [] && !IsJsWhitespace(s[|s| - 1])
    ensures TrimEnd(s + ws) == s
  {
    if ws != [] {
      var n := |ws| - 1;
      assert (s + ws)[..|s + ws| - 1] == s + ws[..n];
      TrimEndSkips(s, ws[..n]);
    } else {
      assert s + ws == s;
    }
  }

  /** The description is the trimmed template literal. */
  function Description(entry: DateEntry): string {
    Trim(RawDescription(entry))
  }

  /** The laid-out text begins with "Date Type: " and ends with the credit line. */
  lemma DescriptionTextEnds(entry: DateEntry)
    ensures |DescriptionText(entry)| >= |DescriptionFooter| + 11
    ensures DescriptionText(entry)[..11] == "Date Type: "
    ensures DescriptionText(entry)[|DescriptionText(entry)| - |DescriptionFooter|..] == DescriptionFooter
  {
    var head := DescriptionHeader(entry);
    var body := head + NotesLine(entry.notes);
    assert head[..11] == "Date Type: ";
    assert body[..11] == head[..11];
    assert DescriptionText(entry) == body + DescriptionFooter;
    assert (body + DescriptionFooter)[..11] == body[..11];
  }

  /** Trimming drops a leading line break and a trailing line break with indentation. */
  lemma TrimFraming(text: string)
    requires text != [] && !IsJsWhitespace(text[0]) && !IsJsWhitespace(text[|text| - 1])
    ensures Trim("\n" + text + "\n    ") == text
  {
    var tail := "\n    ";
    assert AllWhitespace("\n") && AllWhitespace(tail);
    var rest := text + tail;
    assert rest[0] == text[0];
    assert "\n" + text + tail == "\n" + rest;
    TrimStartSkips("\n", rest);
    TrimEndSkips(text, tail);
  }

  /**
    Trimming removes exactly the template's framing: the description is the
    header lines, the notes line (empty iff the notes are) and the closing
    credit line, and it begins with "Date Type: " and ends with the credit.
   */
  lemma DescriptionLayout(entry: DateEntry)
    ensures Description(entry) == DescriptionHeader(entry) + NotesLine(entry.notes) + DescriptionFooter
    ensures NotesLine(entry.notes) == "" <==> entry.notes == ""
    ensures entry.notes != "" ==> NotesLine(entry.notes) == "Notes: " + entry.notes
    ensures |Description(entry)| >= |DescriptionFooter| + 11
    ensures Description(entry)[..11] == "Date Type: "
    ensures Description(entry)[|Description(entry)| - |DescriptionFooter|..] == DescriptionFooter
  {
    var text := DescriptionText(entry);
    DescriptionTextEnds(entry);
    assert text[0] == text[..11][0] == 'D';
    assert text[|text| - 1] == DescriptionFooter[|DescriptionFooter| - 1] == 'p';
    assert !IsJsWhitespace('D') && !IsJsWhitespace('p');
    TrimFraming(text);
  }

  // ---------------------------------------------------------------------
  // The event
  // ---------------------------------------------------------------------

  /**
    The event for an entry whose date and time parsed to `start` (None: an
    invalid date). The mapping fails, as `toISOString` would throw, when the
    start or the end of the window is not a valid time value.
   */
  function ToCalendarEvent(entry: DateEntry, start: Option<int>, timeZone: string): (r: Option<CalendarEvent>)
    ensures r.Some? <==> start.Some? && IsTimeValue(start.value) && IsTimeValue(start.value + TwoHoursMs)
    ensures r.Some? ==>
      && r.value.start == EventTime(start.value, timeZone)
      && r.value.end.instantMs == r.value.start.instantMs + TwoHoursMs
      && r.value.end.timeZone == r.value.start.timeZone
      && r.value.summary == entry.kind + " Date - " + entry.location
      && r.value.location == entry.location
      && r.value.colorId == ColorId(entry.outcome)
      && r.value.description == Description(entry)
  {
    match start
    case None => None
    case Some(ms) =>
      var end := ms + TwoHoursMs;
      if !IsTimeValue(ms) || !IsTimeValue(end) then None
      else Some(CalendarEvent(
        Summary(entry),
        Description(entry),
        EventTime(ms, timeZone),
        EventTime(end, timeZone),
        entry.location,
        ColorId(entry.outcome)))
  }

  /** A valid instant less than two hours below the top of the range still fails: its end is out of range. */
  lemma LateStartFails(entry: DateEntry, ms: int, timeZone: string)
    requires MaxTimeMs - TwoHoursMs < ms <= MaxTimeMs
    ensures IsTimeValue(ms)
    ensures ToCalendarEvent(entry, Some(ms), timeZone) == None
  {
  }
}
