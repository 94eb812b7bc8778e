/** Printing word-timed lyrics and parsing them back, and what any parsed document satisfies. */
module YrcRoundTrip {
  import opened Basics
  import opened YrcText
  import opened Yrc

  // ----- Valid lines

  function End(s: Segment): nat {
    s.start + s.duration
  }

  /** Each segment starts where or after the one before it ended, and ends inside the line. */
  predicate Chain(segments: seq<Segment>, previousEnd: nat, end: nat) {
    segments == []
    || (previousEnd <= segments[0].start && End(segments[0]) <= end && Chain(segments[1..], End(segments[0]), end))
  }

  predicate CleanText(s: string) {
    s != "" && Free(s, '(') && Free(s, '\n')
  }

  predicate AllClean(segments: seq<Segment>) {
    forall i :: 0 <= i < |segments| ==> CleanText(segments[i].text)
  }

  predicate NoReturnAtEnd(s: string) {
    s == "" || s[|s| - 1] != '\r'
  }

  predicate ValidLine(l: Line) {
    l.start + l.duration <= U32_MAX && 1 <= |l.segments| <= MAX_LINE_SEGMENTS
    && l.text == TextOf(l.segments) && Chain(l.segments, l.start, l.start + l.duration)
    && AllClean(l.segments) && NoReturnAtEnd(l.segments[|l.segments| - 1].text)
  }

  predicate AllValid(lines: seq<Line>) {
    forall i :: 0 <= i < |lines| ==> ValidLine(lines[i])
  }

  /** The chain condition, pair by pair: inside the interval, ordered and disjoint. */
  lemma {:induction false} ChainIff(segments: seq<Segment>, previousEnd: nat, end: nat)
    ensures Chain(segments, previousEnd, end) <==>
      (forall i :: 0 <= i < |segments| ==> previousEnd <= segments[i].start && End(segments[i]) <= end)
      && (forall i, j :: 0 <= i < j < |segments| ==> End(segments[i]) <= segments[j].start)
  {
    if segments != [] {
      var rest := segments[1..];
      ChainIff(rest, End(segments[0]), end);
      assert forall j :: 1 <= j < |segments| ==> segments[j] == rest[j - 1];
      assert forall j :: 0 <= j < |rest| ==> rest[j] == segments[j + 1];
    }
  }

  // ----- The printer

  function Tagged(a: string, b: string, c: string): string {
    "(" + (a + "," + (b + "," + c)) + ")"
  }

  function Interval(a: string, b: string): string {
    "[" + (a + "," + b) + "]"
  }

  function PrintSegment(s: Segment): string {
    Tagged(PrintNumber(s.start), PrintNumber(s.duration), "0") + s.text
  }

  function PrintSegments(segments: seq<Segment>): string {
    if segments == [] then "" else PrintSegment(segments[0]) + PrintSegments(segments[1..])
  }

  function PrintLine(l: Line): string {
    Interval(PrintNumber(l.start), PrintNumber(l.duration)) + PrintSegments(l.segments)
  }

  /** One line per row, separated by line feeds. */
  function PrintLines(lines: seq<Line>): string {
    if lines == [] then ""
    else if |lines| == 1 then PrintLine(lines[0])
    else PrintLine(lines[0]) + "\n" + PrintLines(lines[1..])
  }

  // ----- Segments come back

  lemma FreeJoined(a: string, b: string, c: char)
    requires Free(a, c) && Free(b, c)
    ensures Free(a + b, c)
  {
  }

  lemma NumberIsPlain(s: string)
    requires ParseU32(s).Some?
    ensures Free(s, ',') && Free(s, ')') && Free(s, ']') && Free(s, '\n')
  {
  }

  lemma TimingParts(a: string, b: string, c: string)
    requires ParseU32(a).Some? && ParseU32(b).Some? && ParseU32(c).Some?
    ensures var timing := a + "," + (b + "," + c); Parts(timing, ',') == [a, b, c] && Free(timing, ')')
  {
    NumberIsPlain(a);
    NumberIsPlain(b);
    NumberIsPlain(c);
    hide ParseU32;
    FindNone(c, ',');
    PartsJoined(b, ',', c);
    PartsJoined(a, ',', b + "," + c);
    FreeJoined(b, ",", ')');
    FreeJoined(b + ",", c, ')');
    FreeJoined(a, ",", ')');
    FreeJoined(a + ",", b + "," + c, ')');
  }

  lemma ZeroParses()
    ensures ParseU32("0") == Some(0)
  {
    assert Number("0") == Number("0"[..0]) * 10 + 0;
  }

  lemma TextBeforeTag(text: string, rest: string)
    requires Free(text, '(') && (rest == "" || rest[0] == '(')
    ensures Find(text + rest, '(') == |text|
    ensures (text + rest)[..|text|] == text && (text + rest)[|text|..] == rest
  {
    if rest == "" {
      assert text + rest == text;
      FindNone(text, '(');
    } else {
      assert text + rest == text + ['('] + rest[1..];
      FindAfter(text, '(', rest[1..]);
    }
  }

  /** A segment is read however its numbers are spelled, and whatever the third of them is. */
  lemma SegmentSpelled(a: string, b: string, c: string, s: Segment, rest: string, start: nat, previousEnd: nat,
      end: nat)
    requires ParseU32(a) == Some(s.start) && ParseU32(b) == Some(s.duration) && ParseU32(c).Some?
    requires s.text != "" && Free(s.text, '(') && (rest == "" || rest[0] == '(')
    requires start <= s.start && previousEnd <= s.start && End(s) <= end <= U32_MAX
    ensures SegmentOf(Tagged(a, b, c) + s.text + rest, start, previousEnd, end) == Some((s, rest))
  {
    var timing := a + "," + (b + "," + c);
    TimingParts(a, b, c);
    TextBeforeTag(s.text, rest);
    SplitJoined(timing, ')', s.text + rest);
    Regroup('(', timing, ')', s.text, rest);
    hide ParseU32, Parts, Find, Free, SplitOnce;
    SegmentFields(Tagged(a, b, c) + s.text + rest, s, rest, start, previousEnd, end);
  }

  lemma SegmentPrinted(s: Segment, rest: string, start: nat, previousEnd: nat, end: nat)
    requires CleanText(s.text) && (rest == "" || rest[0] == '(')
    requires start <= s.start && previousEnd <= s.start && End(s) <= end <= U32_MAX
    ensures SegmentOf(PrintSegment(s) + rest, start, previousEnd, end) == Some((s, rest))
  {
    ParsePrinted(s.start);
    ParsePrinted(s.duration);
    ZeroParses();
    hide PrintNumber, ParseU32, SegmentOf, Tagged;
    SegmentSpelled(PrintNumber(s.start), PrintNumber(s.duration), "0", s, rest, start, previousEnd, end);
  }

  lemma Regroup(open: char, timing: string, close: char, text: string, rest: string)
    ensures var s := [open] + timing + [close] + text + rest;
      s[0] == open && s[1..] == timing + [close] + (text + rest)
  {
  }

  lemma SegmentFields(content: string, s: Segment, rest: string, start: nat, previousEnd: nat, end: nat)
    requires content != "" && content[0] == '(' && s.text != ""
    requires SplitOnce(content[1..], ')').Some?
    requires var (timing, after) := SplitOnce(content[1..], ')').value;
      var parts := Parts(timing, ',');
      |parts| == 3 && ParseU32(parts[0]) == Some(s.start) && ParseU32(parts[1]) == Some(s.duration)
      && ParseU32(parts[2]).Some? && after == s.text + rest && Find(after, '(') == |s.text|
    requires start <= s.start && previousEnd <= s.start && End(s) <= end <= U32_MAX
    ensures SegmentOf(content, start, previousEnd, end) == Some((s, rest))
  {
    hide ParseU32, Parts, Find, SplitOnce;
    assert (s.text + rest)[..|s.text|] == s.text && (s.text + rest)[|s.text|..] == rest;
  }

  lemma PrintedSegmentsStart(segments: seq<Segment>)
    ensures PrintSegments(segments) == "" || PrintSegments(segments)[0] == '('
    ensures PrintSegments(segments) == "" <==> segments == []
  {
  }

  lemma {:induction false} SegmentsPrinted(segments: seq<Segment>, start: nat, previousEnd: nat, end: nat, count: nat)
    requires start <= previousEnd && end <= U32_MAX && count + |segments| <= MAX_LINE_SEGMENTS
    requires Chain(segments, previousEnd, end) && AllClean(segments)
    ensures SegmentsOf(PrintSegments(segments), start, previousEnd, end, count) == Parsed(segments)
  {
    hide PrintSegment, SegmentOf, CleanText;
    PrintedSegmentsStart(segments);
    if segments != [] {
      var s, rest := segments[0], segments[1..];
      PrintedSegmentsStart(rest);
      SegmentPrinted(s, PrintSegments(rest), start, previousEnd, end);
      SegmentsPrinted(rest, start, End(s), end, count + 1);
      assert segments == [s] + rest;
    }
  }

  lemma HeaderSpelled(a: string, b: string, start: nat, duration: nat, content: string)
    requires ParseU32(a) == Some(start) && ParseU32(b) == Some(duration) && start + duration <= U32_MAX
    ensures Header(Interval(a, b) + content) == Some((start, duration, content))
  {
    var timing := a + "," + b;
    NumberIsPlain(a);
    NumberIsPlain(b);
    hide ParseU32;
    TwoParts(a, b);
    SplitJoined(timing, ']', content);
    hide Parts, Free, SplitOnce;
    AfterBracket(timing, content);
  }

  lemma AfterBracket(timing: string, content: string)
    ensures var s := "[" + timing + "]" + content; s[0] == '[' && s[1..] == timing + [']'] + content
  {
  }

  lemma HeaderPrinted(l: Line)
    requires l.start + l.duration <= U32_MAX
    ensures Header(PrintLine(l)) == Some((l.start, l.duration, PrintSegments(l.segments)))
  {
    ParsePrinted(l.start);
    ParsePrinted(l.duration);
    hide PrintNumber, ParseU32, PrintSegments, Interval, Header;
    HeaderSpelled(PrintNumber(l.start), PrintNumber(l.duration), l.start, l.duration, PrintSegments(l.segments));
  }

  lemma LineStart(l: Line)
    ensures var timing := PrintNumber(l.start) + "," + PrintNumber(l.duration);
      PrintLine(l)[0] == '[' && PrintLine(l)[1..] == timing + [']'] + PrintSegments(l.segments)
  {
    hide PrintNumber, PrintSegments;
  }

  lemma TwoParts(a: string, b: string)
    requires Free(a, ',') && Free(b, ',') && Free(a, ']') && Free(b, ']')
    ensures Parts(a + "," + b, ',') == [a, b] && Free(a + "," + b, ']')
  {
    FindNone(b, ',');
    PartsJoined(a, ',', b);
  }

  lemma LinePrinted(l: Line)
    requires ValidLine(l)
    ensures LineOf(PrintLine(l)) == Parsed(l)
  {
    hide Header, SegmentsOf, PrintLine, PrintSegments, TextOf, Chain, AllClean;
    HeaderPrinted(l);
    SegmentsPrinted(l.segments, l.start, l.start, l.start + l.duration, 0);
  }

  // ----- Lines come back

  lemma {:induction false} SegmentsLastCharacter(segments: seq<Segment>)
    requires segments != [] && segments[|segments| - 1].text != ""
    ensures var s := segments[|segments| - 1].text; var p := PrintSegments(segments);
      p != "" && p[|p| - 1] == s[|s| - 1]
  {
    hide PrintNumber, Tagged;
    var rest := segments[1..];
    if rest != [] {
      SegmentsLastCharacter(rest);
    }
  }

  lemma {:induction false} SegmentsOnOneLine(segments: seq<Segment>)
    requires AllClean(segments) && (forall i :: 0 <= i < |segments| ==> End(segments[i]) <= U32_MAX)
    ensures Free(PrintSegments(segments), '\n')
  {
    if segments != [] {
      var s := segments[0];
      ParsePrinted(s.start);
      ParsePrinted(s.duration);
      hide PrintNumber, ParseU32;
      assert CleanText(s.text);
      assert Free(PrintSegment(s), '\n');
      SegmentsOnOneLine(segments[1..]);
    }
  }

  lemma BracketShape(p: string)
    requires p != "" && p[0] == '[' && p[|p| - 1] != '\r'
    ensures StripReturns(p) == p && !Skipped(p)
  {
    assert FirstVisible(p) == Some('[');
  }

  lemma PrintedSegmentsShape(l: Line)
    requires ValidLine(l)
    ensures var p := PrintSegments(l.segments); Free(p, '\n') && p != "" && p[|p| - 1] != '\r'
  {
    ChainIff(l.segments, l.start, l.start + l.duration);
    assert CleanText(l.segments[|l.segments| - 1].text);
    hide Chain, TextOf, PrintSegments;
    SegmentsOnOneLine(l.segments);
    SegmentsLastCharacter(l.segments);
  }

  lemma PrintedLineShape(l: Line)
    requires ValidLine(l)
    ensures var p := PrintLine(l); Free(p, '\n') && StripReturns(p) == p && !Skipped(p)
  {
    ParsePrinted(l.start);
    ParsePrinted(l.duration);
    PrintedSegmentsShape(l);
    hide PrintNumber, ParseU32, PrintSegments, ValidLine;
    var p := PrintLine(l);
    LineStart(l);
    LineEnd(l);
    LineIsOneLine(l);
    hide PrintLine, Free;
    BracketShape(p);
  }

  lemma LineEnd(l: Line)
    requires PrintSegments(l.segments) != ""
    ensures var p := PrintLine(l); var q := PrintSegments(l.segments); p[|p| - 1] == q[|q| - 1]
  {
    hide PrintNumber, PrintSegments;
  }

  lemma LineIsOneLine(l: Line)
    requires Free(PrintNumber(l.start), '\n') && Free(PrintNumber(l.duration), '\n')
    requires Free(PrintSegments(l.segments), '\n')
    ensures Free(PrintLine(l), '\n')
  {
    hide PrintNumber, PrintSegments;
    FreeJoined(PrintNumber(l.start), ",", '\n');
    FreeJoined(PrintNumber(l.start) + ",", PrintNumber(l.duration), '\n');
    FreeJoined("[", PrintNumber(l.start) + "," + PrintNumber(l.duration), '\n');
    FreeJoined("[" + (PrintNumber(l.start) + "," + PrintNumber(l.duration)), "]", '\n');
    FreeJoined("[" + (PrintNumber(l.start) + "," + PrintNumber(l.duration)) + "]", PrintSegments(l.segments), '\n');
  }

  lemma FeedPrinted(state: State, l: Line)
    requires ValidLine(l)
    ensures Feed(state, PrintLine(l)) == Accept(state, l)
  {
    hide ValidLine, LineOf, PrintLine, Skipped, StripReturns;
    LinePrinted(l);
    PrintedLineShape(l);
  }

  function SegmentTotal(lines: seq<Line>): nat {
    if lines == [] then 0 else |lines[0].segments| + SegmentTotal(lines[1..])
  }

  function PrintEach(lines: seq<Line>): seq<string> {
    if lines == [] then [] else [PrintLine(lines[0])] + PrintEach(lines[1..])
  }

  lemma {:induction false} PartsPrinted(lines: seq<Line>)
    requires AllValid(lines) && lines != []
    ensures Parts(PrintLines(lines), '\n') == PrintEach(lines)
  {
    hide ValidLine, PrintLine, Skipped, StripReturns;
    PrintedLineShape(lines[0]);
    if |lines| == 1 {
      FindNone(PrintLine(lines[0]), '\n');
    } else {
      PartsPrinted(lines[1..]);
      PartsJoined(PrintLine(lines[0]), '\n', PrintLines(lines[1..]));
    }
  }

  lemma {:induction false} FeedAllPrinted(state: State, lines: seq<Line>)
    requires AllValid(lines)
    requires |state.rows| + |lines| <= MAX_LINES && state.segments + SegmentTotal(lines) <= MAX_SEGMENTS
    ensures FeedAll(state, PrintEach(lines))
         == Parsed(State(state.rows + lines, state.segments + SegmentTotal(lines), state.omitted))
    decreases |lines|
  {
    hide ValidLine, PrintLine, Feed;
    if lines == [] {
      assert state.rows + lines == state.rows;
    } else {
      FeedPrinted(state, lines[0]);
      var next := State(state.rows + [lines[0]], state.segments + |lines[0].segments|, state.omitted);
      FeedAllPrinted(next, lines[1..]);
      assert state.rows + [lines[0]] + lines[1..] == state.rows + lines;
    }
  }

  /** The sizes a document may have. */
  predicate WithinBounds(lines: seq<Line>) {
    |lines| <= MAX_LINES && SegmentTotal(lines) <= MAX_SEGMENTS && ByteLength(PrintLines(lines)) <= MAX_BYTES
  }

  /** Printing any valid lines and parsing them loses nothing: the same rows, in order of time. */
  lemma PrintThenParse(lines: seq<Line>)
    requires AllValid(lines) && WithinBounds(lines)
    ensures Parse(PrintLines(lines)) == Parsed((SortByStart(lines), 0))
  {
    if lines == [] {
      NothingParses();
    } else {
      hide FeedAll, PrintLines, AllValid, ByteLength, SortByStart;
      PartsPrinted(lines);
      FeedAllPrinted(EMPTY, lines);
      assert EMPTY.rows + lines == lines;
    }
  }

  lemma NothingParses()
    ensures Parse("") == Parsed(([], 0))
  {
    assert Parts("", '\n') == [""];
    assert Feed(EMPTY, "") == Parsed(EMPTY);
    assert FeedAll(EMPTY, [""]) == FeedAll(EMPTY, [""][1..]);
  }

  // ----- Sorting

  predicate Sorted(rows: seq<Line>) {
    forall i, j :: 0 <= i < j < |rows| ==> rows[i].start <= rows[j].start
  }

  function StartingAt(rows: seq<Line>, start: nat): seq<Line> {
    if rows == [] then []
    else
      var last := |rows| - 1;
      StartingAt(rows[..last], start) + if rows[last].start == start then [rows[last]] else []
  }

  lemma StartingAtOneMore(rows: seq<Line>, row: Line, start: nat)
    ensures StartingAt(rows + [row], start) == StartingAt(rows, start) + if row.start == start then [row] else []
  {
    assert (rows + [row])[..|rows|] == rows;
  }

  predicate AtMost(rows: seq<Line>, start: nat) {
    forall i :: 0 <= i < |rows| ==> rows[i].start <= start
  }

  lemma {:induction false} PlaceAtMost(row: Line, rows: seq<Line>, start: nat)
    requires AtMost(rows, start) && row.start <= start
    ensures AtMost(Place(row, rows), start)
  {
    if rows != [] && row.start < rows[|rows| - 1].start {
      PlaceAtMost(row, rows[..|rows| - 1], start);
    }
  }

  lemma {:induction false} PlaceSorts(row: Line, rows: seq<Line>)
    requires Sorted(rows)
    ensures Sorted(Place(row, rows))
  {
    if rows != [] && row.start < rows[|rows| - 1].start {
      PlaceSorts(row, rows[..|rows| - 1]);
      PlaceAtMost(row, rows[..|rows| - 1], rows[|rows| - 1].start);
    }
  }

  lemma {:induction false} PlaceIsStable(row: Line, rows: seq<Line>, start: nat)
    requires Sorted(rows)
    ensures StartingAt(Place(row, rows), start) == StartingAt(rows, start) + if row.start == start then [row] else []
  {
    if rows == [] {
      StartingAtOneMore([], row, start);
      assert [] + [row] == [row];
    } else if row.start < rows[|rows| - 1].start {
      var front, last := rows[..|rows| - 1], rows[|rows| - 1];
      PlaceIsStable(row, front, start);
      StartingAtOneMore(Place(row, front), last, start);
      StartingAtOneMore(front, last, start);
      assert rows == front + [last];
      hide StartingAt, Place;
      var kept := StartingAt(front, start);
      assert kept + [] == kept && kept + [row] + [] == kept + [row] && kept + [] + [last] == kept + [last] + [];
    } else {
      StartingAtOneMore(rows, row, start);
    }
  }

  lemma {:induction false} PlaceCounts(row: Line, rows: seq<Line>)
    ensures multiset(Place(row, rows)) == multiset(rows) + multiset{row}
  {
    if rows != [] && row.start < rows[|rows| - 1].start {
      PlaceCounts(row, rows[..|rows| - 1]);
      assert rows == rows[..|rows| - 1] + [rows[|rows| - 1]];
    }
  }

  lemma NothingIsSorted()
    ensures Sorted([])
  {
  }

  lemma {:induction false} SortSorts(rows: seq<Line>)
    ensures Sorted(SortByStart(rows)) && multiset(SortByStart(rows)) == multiset(rows)
  {
    hide Place, Sorted;
    if rows == [] {
      NothingIsSorted();
    } else {
      var front, last := rows[..|rows| - 1], rows[|rows| - 1];
      SortSorts(front);
      PlaceSorts(last, SortByStart(front));
      PlaceCounts(last, SortByStart(front));
      assert rows == front + [last];
    }
  }

  /** Rows of equal start come out in the order they came in. */
  lemma {:induction false} SortIsStable(rows: seq<Line>, start: nat)
    ensures StartingAt(SortByStart(rows), start) == StartingAt(rows, start)
  {
    hide Place;
    if rows != [] {
      var front, last := rows[..|rows| - 1], rows[|rows| - 1];
      SortIsStable(front, start);
      SortSorts(front);
      PlaceIsStable(last, SortByStart(front), start);
      StartingAtOneMore(front, last, start);
      assert rows == front + [last];
    }
  }

  lemma PlaceLast(row: Line, rows: seq<Line>)
    requires AtMost(rows, row.start)
    ensures Place(row, rows) == rows + [row]
  {
  }

  lemma {:induction false} SortedStays(rows: seq<Line>)
    requires Sorted(rows)
    ensures SortByStart(rows) == rows
  {
    hide Place;
    if rows != [] {
      var front, last := rows[..|rows| - 1], rows[|rows| - 1];
      SortedStays(front);
      PlaceLast(last, front);
      assert rows == front + [last];
    }
  }

  /** The round trip: sorted valid lines come back as they were, with nothing omitted. */
  lemma RoundTrip(lines: seq<Line>)
    requires AllValid(lines) && Sorted(lines) && WithinBounds(lines)
    ensures Parse(PrintLines(lines)) == Parsed((lines, 0))
  {
    hide AllValid, WithinBounds, Parse;
    PrintThenParse(lines);
    SortedStays(lines);
  }
}
