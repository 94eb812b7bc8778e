/**
  What any parsed document satisfies, whatever text it came from: its lines are valid,
  sorted and counted, and printing them is a normal form of the text.
*/
module YrcParsed {
  import opened Basics
  import opened YrcText
  import opened Yrc
  import opened YrcRoundTrip

  // ----- Sizes of texts

  lemma {:induction false} JoinedLength(a: string, b: string)
    ensures ByteLength(a + b) == ByteLength(a) + ByteLength(b)
  {
    if a == "" {
      assert a + b == b;
    } else {
      assert (a + b)[1..] == a[1..] + b;
      JoinedLength(a[1..], b);
    }
  }

  lemma {:induction false} DigitsLength(s: string)
    requires Digits(s)
    ensures ByteLength(s) == |s|
  {
    if s != "" {
      DigitsLength(s[1..]);
    }
  }

  lemma {:induction false} PrintedIsShortest(s: string)
    requires Digits(s) && s != ""
    ensures |PrintNumber(Number(s))| <= |s|
  {
    if Number(s) >= 10 {
      PrintedIsShortest(s[..|s| - 1]);
    }
  }

  /** No spelling of a number is shorter than the printed one. */
  lemma NumberLength(s: string)
    requires ParseU32(s).Some?
    ensures ByteLength(PrintNumber(ParseU32(s).value)) <= ByteLength(s)
  {
    PrintedIsShortest(s);
    DigitsLength(s);
    DigitsLength(PrintNumber(Number(s)));
  }

  lemma SplitJoins(s: string, c: char)
    requires SplitOnce(s, c).Some?
    ensures var (a, b) := SplitOnce(s, c).value; s == a + [c] + b && Free(a, c)
  {
  }

  lemma FirstPart(s: string, c: char)
    ensures Find(s, c) == |s| ==> Parts(s, c) == [s]
    ensures Find(s, c) < |s| ==>
      var i := Find(s, c);
      Parts(s, c)[0] == s[..i] && Parts(s, c)[1..] == Parts(s[i + 1..], c) && s == s[..i] + [c] + s[i + 1..]
  {
    hide Find;
    var i := Find(s, c);
    if i < |s| {
      Divided(s, i);
      HeadAndTail(s[..i], Parts(s[i + 1..], c));
    }
  }

  lemma Divided(s: string, i: nat)
    requires i < |s|
    ensures s == s[..i] + [s[i]] + s[i + 1..]
  {
  }

  lemma HeadAndTail(head: string, tail: seq<string>)
    ensures ([head] + tail)[0] == head && ([head] + tail)[1..] == tail
  {
  }

  lemma TwoJoin(s: string, c: char)
    requires |Parts(s, c)| == 2
    ensures s == Parts(s, c)[0] + [c] + Parts(s, c)[1]
  {
    FirstPart(s, c);
    FirstPart(s[Find(s, c) + 1..], c);
  }

  lemma ThreeJoin(s: string, c: char)
    requires |Parts(s, c)| == 3
    ensures s == Parts(s, c)[0] + [c] + (Parts(s, c)[1] + [c] + Parts(s, c)[2])
  {
    FirstPart(s, c);
    TwoJoin(s[Find(s, c) + 1..], c);
  }

  lemma LengthOfOne(c: char)
    requires c as int < 0x80
    ensures ByteLength([c]) == 1
  {
  }

  // ----- Segments

  lemma SegmentParts(content: string, start: nat, previousEnd: nat, end: nat)
    requires SegmentOf(content, start, previousEnd, end).Some?
    ensures var (s, rest) := SegmentOf(content, start, previousEnd, end).value;
      exists a, b, c :: content == Tagged(a, b, c) + (s.text + rest)
        && ParseU32(a) == Some(s.start) && ParseU32(b) == Some(s.duration) && ParseU32(c).Some?
  {
    hide ParseU32, Parts, Find;
    var (timing, after) := SplitOnce(content[1..], ')').value;
    SplitJoins(content[1..], ')');
    ThreeJoin(timing, ',');
    hide SplitOnce, Tagged;
    var parts := Parts(timing, ',');
    ContentFromTail(content, parts[0], parts[1], parts[2], after);
    AfterSplit(after, Find(after, '('));
  }

  lemma AfterSplit(after: string, next: nat)
    requires next <= |after|
    ensures after == after[..next] + after[next..]
  {
  }

  lemma ContentFromTail(content: string, a: string, b: string, c: string, after: string)
    requires content != "" && content[0] == '(' && content[1..] == a + "," + (b + "," + c) + ")" + after
    ensures content == Tagged(a, b, c) + after
  {
    assert content == "(" + content[1..];
  }

  lemma SegmentLength(a: string, b: string, c: string, s: Segment, rest: string)
    requires ParseU32(a) == Some(s.start) && ParseU32(b) == Some(s.duration) && ParseU32(c).Some?
    ensures ByteLength(PrintSegment(s)) + ByteLength(rest) <= ByteLength(Tagged(a, b, c) + (s.text + rest))
  {
    NumberLength(a);
    NumberLength(b);
    OneCharacter(c);
    LengthOfOne('0');
    hide ParseU32, PrintNumber, Tagged, ByteLength;
    LengthOfTagged(a, b, c);
    LengthOfTagged(PrintNumber(s.start), PrintNumber(s.duration), "0");
    JoinedLength(Tagged(PrintNumber(s.start), PrintNumber(s.duration), "0"), s.text);
    JoinedLength(Tagged(a, b, c), s.text + rest);
    JoinedLength(s.text, rest);
  }

  lemma OneCharacter(c: string)
    requires ParseU32(c).Some?
    ensures ByteLength(c) >= 1
  {
    DigitsLength(c);
  }

  lemma LengthOfTagged(a: string, b: string, c: string)
    ensures ByteLength(Tagged(a, b, c)) == ByteLength(a) + ByteLength(b) + ByteLength(c) + 4
  {
    LengthOfOne('(');
    LengthOfOne(')');
    LengthOfComma(b, c);
    LengthOfComma(a, b + "," + c);
    hide ByteLength;
    JoinedLength("(", a + "," + (b + "," + c));
    JoinedLength("(" + (a + "," + (b + "," + c)), ")");
  }

  lemma LengthOfComma(a: string, b: string)
    ensures ByteLength(a + "," + b) == ByteLength(a) + 1 + ByteLength(b)
  {
    LengthOfOne(',');
    hide ByteLength;
    JoinedLength(a, ",");
    JoinedLength(a + ",", b);
  }

  /** Last character of a text that is not empty. */
  predicate EndsLike(s: string, t: string) {
    s != "" && t != "" && s[|s| - 1] == t[|t| - 1]
  }

  lemma SegmentFacts(content: string, start: nat, previousEnd: nat, end: nat)
    requires SegmentOf(content, start, previousEnd, end).Some? && Free(content, '\n')
    ensures var (s, rest) := SegmentOf(content, start, previousEnd, end).value;
      CleanText(s.text) && Free(rest, '\n') && previousEnd <= s.start && End(s) <= end
      && EndsLike(content, if rest == "" then s.text else rest)
      && ByteLength(PrintSegment(s)) + ByteLength(rest) <= ByteLength(content)
  {
    var (s, rest) := SegmentOf(content, start, previousEnd, end).value;
    SegmentParts(content, start, previousEnd, end);
    var a, b, c :| content == Tagged(a, b, c) + (s.text + rest)
      && ParseU32(a) == Some(s.start) && ParseU32(b) == Some(s.duration) && ParseU32(c).Some?;
    SegmentLength(a, b, c, s, rest);
    SegmentText(content, start, previousEnd, end);
    hide ParseU32, ByteLength, PrintSegment, SegmentOf;
    var head := Tagged(a, b, c);
    TailFacts(content, head, s.text, rest);
  }

  lemma SegmentText(content: string, start: nat, previousEnd: nat, end: nat)
    requires SegmentOf(content, start, previousEnd, end).Some?
    ensures var (s, rest) := SegmentOf(content, start, previousEnd, end).value;
      s.text != "" && Free(s.text, '(') && previousEnd <= s.start && End(s) <= end
  {
  }

  lemma TailFacts(content: string, head: string, text: string, rest: string)
    requires content == head + (text + rest) && Free(content, '\n') && text != ""
    ensures Free(text, '\n') && Free(rest, '\n') && EndsLike(content, if rest == "" then text else rest)
  {
    assert forall k :: 0 <= k < |text| ==> text[k] == content[|head| + k];
    assert forall k :: 0 <= k < |rest| ==> rest[k] == content[|head| + |text| + k];
  }

  lemma {:induction false} SegmentsFacts(content: string, start: nat, previousEnd: nat, end: nat, count: nat)
    requires SegmentsOf(content, start, previousEnd, end, count).Parsed? && Free(content, '\n')
    requires count <= MAX_LINE_SEGMENTS
    ensures var segments := SegmentsOf(content, start, previousEnd, end, count).value;
      Chain(segments, previousEnd, end) && AllClean(segments) && count + |segments| <= MAX_LINE_SEGMENTS
      && (segments == [] <==> content == "")
      && (segments != [] ==> EndsLike(content, segments[|segments| - 1].text))
      && ByteLength(PrintSegments(segments)) <= ByteLength(content)
    decreases |content|
  {
    hide SegmentOf, ByteLength, PrintSegment, CleanText;
    if content != "" {
      var (s, rest) := SegmentOf(content, start, previousEnd, end).value;
      SegmentFacts(content, start, previousEnd, end);
      ShorterRest(content, start, previousEnd, end);
      SegmentsFacts(rest, start, End(s), end, count + 1);
      var tail := SegmentsOf(rest, start, End(s), end, count + 1).value;
      JoinedLength(PrintSegment(s), PrintSegments(tail));
      assert ([s] + tail)[1..] == tail;
    }
  }

  // ----- Lines

  lemma HeaderFields(line: string)
    requires Header(line).Some?
    ensures var (start, duration, content) := Header(line).value;
      start + duration <= U32_MAX
      && exists a, b :: line == Interval(a, b) + content && ParseU32(a) == Some(start) && ParseU32(b) == Some(duration)
  {
    hide ParseU32, Parts;
    var (timing, content) := SplitOnce(line[1..], ']').value;
    SplitJoins(line[1..], ']');
    TwoJoin(timing, ',');
    hide SplitOnce;
    var a, b := Parts(timing, ',')[0], Parts(timing, ',')[1];
    LineFromTail(line, a, b, content);
  }

  lemma LineFromTail(line: string, a: string, b: string, content: string)
    requires line != "" && line[0] == '[' && line[1..] == a + "," + b + "]" + content
    ensures line == Interval(a, b) + content
  {
    assert line == "[" + line[1..];
  }

  lemma HeaderFacts(line: string)
    requires Header(line).Some? && Free(line, '\n')
    ensures var (start, duration, content) := Header(line).value;
      start + duration <= U32_MAX && Free(content, '\n') && (content != "" ==> EndsLike(line, content))
      && ByteLength(Interval(PrintNumber(start), PrintNumber(duration))) + ByteLength(content) <= ByteLength(line)
  {
    HeaderFields(line);
    var (start, duration, content) := Header(line).value;
    var a, b :| line == Interval(a, b) + content && ParseU32(a) == Some(start) && ParseU32(b) == Some(duration);
    NumberLength(a);
    NumberLength(b);
    ContentFacts(line, Interval(a, b), content);
    hide Header, ParseU32, PrintNumber, Interval, ByteLength, Free, EndsLike;
    JoinedLength(Interval(a, b), content);
    LengthOfInterval(a, b);
    LengthOfInterval(PrintNumber(start), PrintNumber(duration));
  }

  lemma ContentFacts(line: string, head: string, content: string)
    requires line == head + content && Free(line, '\n')
    ensures Free(content, '\n') && (content != "" ==> EndsLike(line, content))
  {
    assert forall k :: 0 <= k < |content| ==> content[k] == line[|head| + k];
  }

  lemma LengthOfInterval(a: string, b: string)
    ensures ByteLength(Interval(a, b)) == ByteLength(a) + ByteLength(b) + 3
  {
    LengthOfOne('[');
    LengthOfOne(']');
    LengthOfComma(a, b);
    hide ByteLength;
    JoinedLength("[", a + "," + b);
    JoinedLength("[" + (a + "," + b), "]");
  }

  lemma LineFields(line: string, l: Line)
    requires LineOf(line) == Parsed(l)
    ensures Header(line).Some?
    ensures var (start, duration, content) := Header(line).value;
      start == l.start && duration == l.duration && content != ""
      && SegmentsOf(content, start, start, start + duration, 0) == Parsed(l.segments)
      && l.segments != [] && l.text == TextOf(l.segments)
  {
    hide Header, TextOf;
  }

  lemma FactsOfFields(line: string, l: Line, content: string)
    requires Free(line, '\n') && NoReturnAtEnd(line) && Header(line) == Some((l.start, l.duration, content))
    requires SegmentsOf(content, l.start, l.start, l.start + l.duration, 0) == Parsed(l.segments)
    requires content != "" && l.segments != [] && l.text == TextOf(l.segments)
    ensures ValidLine(l) && ByteLength(PrintLine(l)) <= ByteLength(line)
  {
    hide Header, ByteLength, PrintNumber, PrintSegments, CleanText, Interval, Chain, AllClean, Free, TextOf,
      ValidLine, SegmentsOf, EndsLike, NoReturnAtEnd, PrintLine;
    HeaderFacts(line);
    SegmentsFacts(content, l.start, l.start, l.start + l.duration, 0);
    PrintedLineLength(l);
    MakeValid(line, content, l);
  }

  /** A parsed line is valid and prints no longer than it was. */
  lemma LineFacts(line: string, l: Line)
    requires LineOf(line) == Parsed(l) && Free(line, '\n') && NoReturnAtEnd(line)
    ensures ValidLine(l) && ByteLength(PrintLine(l)) <= ByteLength(line)
  {
    hide LineOf, Header, ByteLength, Free, TextOf, ValidLine, SegmentsOf, NoReturnAtEnd, PrintLine;
    LineFields(line, l);
    FactsOfFields(line, l, Header(line).value.2);
  }

  lemma PrintedLineLength(l: Line)
    ensures ByteLength(PrintLine(l))
         == ByteLength(Interval(PrintNumber(l.start), PrintNumber(l.duration))) + ByteLength(PrintSegments(l.segments))
  {
    hide ByteLength, Interval, PrintNumber, PrintSegments;
    JoinedLength(Interval(PrintNumber(l.start), PrintNumber(l.duration)), PrintSegments(l.segments));
  }

  lemma MakeValid(line: string, content: string, l: Line)
    requires l.start + l.duration <= U32_MAX && 1 <= |l.segments| <= MAX_LINE_SEGMENTS && l.text == TextOf(l.segments)
    requires Chain(l.segments, l.start, l.start + l.duration) && AllClean(l.segments)
    requires NoReturnAtEnd(line) && EndsLike(line, content) && EndsLike(content, l.segments[|l.segments| - 1].text)
    ensures ValidLine(l)
  {
    hide Chain, AllClean, TextOf;
  }

  // ----- Documents

  /** Bytes of the lines with a line feed each. */
  function LinesLength(lines: seq<string>): nat {
    if lines == [] then 0 else ByteLength(lines[0]) + 1 + LinesLength(lines[1..])
  }

  predicate AllFree(lines: seq<string>) {
    forall i :: 0 <= i < |lines| ==> Free(lines[i], '\n')
  }

  lemma {:induction false} PartsFacts(text: string)
    ensures AllFree(Parts(text, '\n')) && LinesLength(Parts(text, '\n')) == ByteLength(text) + 1
    decreases |text|
  {
    FirstPart(text, '\n');
    var i := Find(text, '\n');
    if i < |text| {
      PartsFacts(text[i + 1..]);
      LengthOfOne('\n');
      JoinedLength(text[..i], ['\n']);
      JoinedLength(text[..i] + ['\n'], text[i + 1..]);
      var parts := Parts(text, '\n');
      assert forall k :: 1 <= k < |parts| ==> parts[k] == parts[1..][k - 1];
    }
  }

  lemma {:induction false} StrippedFacts(s: string)
    requires Free(s, '\n')
    ensures Free(StripReturns(s), '\n') && NoReturnAtEnd(StripReturns(s))
    ensures ByteLength(StripReturns(s)) <= ByteLength(s)
  {
    if s != "" && s[|s| - 1] == '\r' {
      StrippedFacts(s[..|s| - 1]);
      JoinedLength(s[..|s| - 1], [s[|s| - 1]]);
      assert s == s[..|s| - 1] + [s[|s| - 1]];
    }
  }

  /** Bytes of the rows when printed with a line feed each. */
  function PrintedLength(rows: seq<Line>): nat {
    if rows == [] then 0 else PrintedLength(rows[..|rows| - 1]) + ByteLength(PrintLine(rows[|rows| - 1])) + 1
  }

  function SegmentCount(rows: seq<Line>): nat {
    if rows == [] then 0 else SegmentCount(rows[..|rows| - 1]) + |rows[|rows| - 1].segments|
  }

  /** What the parser knows after some lines. */
  predicate Sound(state: State) {
    AllValid(state.rows) && state.segments == SegmentCount(state.rows)
    && state.segments <= MAX_SEGMENTS && |state.rows| <= MAX_LINES
  }

  /** From one state to the next over a raw line. */
  predicate Follows(state: State, raw: string, next: State) {
    Sound(next) && PrintedLength(next.rows) <= PrintedLength(state.rows) + ByteLength(raw) + 1
    && |next.rows| + next.omitted == |state.rows| + state.omitted + if Skipped(StripReturns(raw)) then 0 else 1
  }

  lemma AcceptFacts(state: State, raw: string, row: Line)
    requires Sound(state) && Accept(state, row).Parsed? && ValidLine(row) && !Skipped(StripReturns(raw))
    requires ByteLength(PrintLine(row)) <= ByteLength(raw)
    ensures Follows(state, raw, Accept(state, row).value)
  {
    hide ByteLength, ValidLine, AllValid, Skipped, PrintLine, StripReturns, SegmentCount, PrintedLength;
    AppendRow(state.rows, row);
    AppendValid(state.rows, row);
  }

  lemma FeedFacts(state: State, raw: string)
    requires Sound(state) && Free(raw, '\n') && Feed(state, raw).Parsed?
    ensures Follows(state, raw, Feed(state, raw).value)
  {
    var line := StripReturns(raw);
    StrippedFacts(raw);
    hide LineOf, ByteLength, ValidLine, AllValid, Skipped, PrintLine, StripReturns, SegmentCount, PrintedLength, Free,
      Accept, NoReturnAtEnd;
    if LineOf(line).Parsed? && !Skipped(line) {
      LineFacts(line, LineOf(line).value);
      AcceptFacts(state, raw, LineOf(line).value);
    }
  }

  lemma AppendValid(rows: seq<Line>, row: Line)
    requires AllValid(rows) && ValidLine(row)
    ensures AllValid(rows + [row])
  {
    hide ValidLine;
  }

  lemma AppendRow(rows: seq<Line>, row: Line)
    ensures SegmentCount(rows + [row]) == SegmentCount(rows) + |row.segments|
    ensures PrintedLength(rows + [row]) == PrintedLength(rows) + ByteLength(PrintLine(row)) + 1
  {
    hide PrintLine, ByteLength;
    assert (rows + [row])[..|rows|] == rows;
  }

  function Shown(lines: seq<string>): nat {
    if lines == [] then 0 else (if Skipped(StripReturns(lines[0])) then 0 else 1) + Shown(lines[1..])
  }

  lemma {:induction false} FeedAllFacts(state: State, lines: seq<string>)
    requires Sound(state) && AllFree(lines) && FeedAll(state, lines).Parsed?
    ensures var last := FeedAll(state, lines).value;
      Sound(last) && PrintedLength(last.rows) <= PrintedLength(state.rows) + LinesLength(lines)
      && |last.rows| + last.omitted == |state.rows| + state.omitted + Shown(lines)
    decreases |lines|
  {
    hide Sound, Feed, Skipped, StripReturns, PrintedLength, ByteLength, Free;
    if lines != [] {
      FeedFacts(state, lines[0]);
      FeedAllFacts(Feed(state, lines[0]).value, lines[1..]);
    }
  }

  // ----- Sorting keeps the sizes

  lemma {:induction false} PlaceSizes(row: Line, rows: seq<Line>)
    ensures PrintedLength(Place(row, rows)) == PrintedLength(rows) + ByteLength(PrintLine(row)) + 1
    ensures SegmentCount(Place(row, rows)) == SegmentCount(rows) + |row.segments|
  {
    hide PrintLine, ByteLength;
    AppendRow(rows, row);
    if rows == [] {
      assert rows + [row] == [row];
    } else if row.start < rows[|rows| - 1].start {
      var front, last := rows[..|rows| - 1], rows[|rows| - 1];
      PlaceSizes(row, front);
      AppendRow(Place(row, front), last);
    }
  }

  lemma {:induction false} SortSizes(rows: seq<Line>)
    ensures PrintedLength(SortByStart(rows)) == PrintedLength(rows)
    ensures SegmentCount(SortByStart(rows)) == SegmentCount(rows)
  {
    hide PrintLine, ByteLength;
    if rows != [] {
      SortSizes(rows[..|rows| - 1]);
      PlaceSizes(rows[|rows| - 1], SortByStart(rows[..|rows| - 1]));
    }
  }

  lemma SortedValid(rows: seq<Line>)
    requires AllValid(rows)
    ensures AllValid(SortByStart(rows)) && |SortByStart(rows)| == |rows| && Sorted(SortByStart(rows))
  {
    hide ValidLine;
    SortSorts(rows);
    var sorted := SortByStart(rows);
    assert |sorted| == |multiset(sorted)| == |rows|;
    forall i | 0 <= i < |sorted| ensures ValidLine(sorted[i]) {
      assert sorted[i] in multiset(sorted);
    }
  }

  lemma {:induction false} SegmentTotalIsCount(rows: seq<Line>)
    ensures SegmentTotal(rows) == SegmentCount(rows)
  {
    if rows != [] {
      SegmentTotalIsCount(rows[..|rows| - 1]);
      SegmentTotalOfMore(rows[..|rows| - 1], rows[|rows| - 1]);
      assert rows == rows[..|rows| - 1] + [rows[|rows| - 1]];
    }
  }

  lemma {:induction false} SegmentTotalOfMore(rows: seq<Line>, row: Line)
    ensures SegmentTotal(rows + [row]) == SegmentTotal(rows) + |row.segments|
  {
    if rows != [] {
      SegmentTotalOfMore(rows[1..], row);
      assert (rows + [row])[1..] == rows[1..] + [row];
    } else {
      assert [row][1..] == [] && rows + [row] == [row];
    }
  }

  lemma {:induction false} PrintedLengthFromHead(rows: seq<Line>)
    requires rows != []
    ensures PrintedLength(rows) == ByteLength(PrintLine(rows[0])) + 1 + PrintedLength(rows[1..])
  {
    hide PrintLine, ByteLength;
    if |rows| > 1 {
      PrintedLengthFromHead(rows[..|rows| - 1]);
      assert rows[..|rows| - 1][1..] == rows[1..][..|rows[1..]| - 1];
    }
  }

  lemma {:induction false} PrintLinesLength(rows: seq<Line>)
    requires rows != []
    ensures ByteLength(PrintLines(rows)) + 1 == PrintedLength(rows)
  {
    PrintedLengthFromHead(rows);
    LengthOfOne('\n');
    hide PrintLine, ByteLength;
    if |rows| > 1 {
      PrintLinesLength(rows[1..]);
      JoinedLength(PrintLine(rows[0]), "\n");
      JoinedLength(PrintLine(rows[0]) + "\n", PrintLines(rows[1..]));
    } else {
      assert PrintedLength(rows[1..]) == 0;
    }
  }

  // ----- The main results

  /**
    Every parsed document: its lines are in order of time and valid (text the concatenation of
    the segments, segments ordered, disjoint and inside the line), within all bounds, and each
    row that is not skipped is either among them or counted as omitted.
  */
  lemma ParsedIsValid(text: string)
    requires Parse(text).Parsed?
    ensures var (rows, omitted) := Parse(text).value;
      AllValid(rows) && Sorted(rows) && WithinBounds(rows) && |rows| + omitted == Shown(Parts(text, '\n'))
  {
    var lines := Parts(text, '\n');
    var last := FeedAll(EMPTY, lines).value;
    PartsFacts(text);
    StartIsSound();
    hide Sound, FeedAll, SortByStart, ByteLength, Parts, AllFree, AllValid, PrintLines, Sorted;
    FeedAllFacts(EMPTY, lines);
    SoundIsWithin(last, text);
  }

  lemma StartIsSound()
    ensures Sound(EMPTY) && PrintedLength(EMPTY.rows) == 0
  {
  }

  lemma SoundIsWithin(last: State, text: string)
    requires Sound(last) && PrintedLength(last.rows) <= ByteLength(text) + 1 && ByteLength(text) <= MAX_BYTES
    ensures var rows := SortByStart(last.rows);
      AllValid(rows) && Sorted(rows) && WithinBounds(rows) && |rows| == |last.rows|
  {
    var rows := SortByStart(last.rows);
    hide SortByStart, AllValid, Sorted, PrintLines, ByteLength;
    SortedValid(last.rows);
    SortSizes(last.rows);
    SegmentTotalIsCount(rows);
    if rows != [] {
      PrintLinesLength(rows);
    } else {
      EmptyPrints();
    }
  }

  lemma EmptyPrints()
    ensures ByteLength(PrintLines([])) == 0
  {
  }

  /** Printing what was parsed, from any text at all, parses to the same lines with nothing omitted. */
  lemma PrintIsNormalForm(text: string)
    requires Parse(text).Parsed?
    ensures Parse(PrintLines(Parse(text).value.0)) == Parsed((Parse(text).value.0, 0))
  {
    hide AllValid, Sorted, WithinBounds, Parse;
    ParsedIsValid(text);
    RoundTrip(Parse(text).value.0);
  }
}
