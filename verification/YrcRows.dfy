/**
  A whole document of word-timed lyrics, row by row: which rows become lines, which are passed
  over, which are counted as omitted, and when the document is refused.
*/
module YrcRows {
  import opened Basics
  import opened YrcText
  import opened Yrc
  import opened YrcRoundTrip
  import opened YrcParsed

  // ----- Rows

  /** The rows with a line feed between any two of them. */
  function Joined(raws: seq<string>): string
    requires raws != []
  {
    if |raws| == 1 then raws[0] else raws[0] + "\n" + Joined(raws[1..])
  }

  predicate OneLineEach(raws: seq<string>) {
    forall i :: 0 <= i < |raws| ==> '\n' !in raws[i]
  }

  lemma {:induction false} PartsOfJoined(raws: seq<string>)
    requires raws != [] && OneLineEach(raws)
    ensures Parts(Joined(raws), '\n') == raws
  {
    if |raws| == 1 {
      FindNone(raws[0], '\n');
    } else {
      PartsOfJoined(raws[1..]);
      PartsJoined(raws[0], '\n', Joined(raws[1..]));
      assert raws == [raws[0]] + raws[1..];
    }
  }

  lemma {:induction false} JoinedParts(text: string)
    ensures OneLineEach(Parts(text, '\n')) && Joined(Parts(text, '\n')) == text
    decreases |text|
  {
    FirstPart(text, '\n');
    var i := Find(text, '\n');
    if i < |text| {
      JoinedParts(text[i + 1..]);
      var parts := Parts(text, '\n');
      assert forall k :: 1 <= k < |parts| ==> parts[k] == parts[1..][k - 1];
    }
  }

  /** Every text is its rows, and no other rows. */
  lemma RowsIff(text: string, raws: seq<string>)
    ensures Parts(text, '\n') == raws <==> raws != [] && OneLineEach(raws) && Joined(raws) == text
  {
    hide Parts, Joined;
    if Parts(text, '\n') == raws {
      JoinedParts(text);
    }
    if raws != [] && OneLineEach(raws) && Joined(raws) == text {
      PartsOfJoined(raws);
    }
  }

  // ----- Rows passed over

  predicate White(c: char) {
    c in {'\U{9}', '\U{a}', '\U{b}', '\U{c}', '\U{d}', '\U{20}', '\U{85}', '\U{a0}', '\U{1680}', '\U{2000}',
          '\U{2001}', '\U{2002}', '\U{2003}', '\U{2004}', '\U{2005}', '\U{2006}', '\U{2007}', '\U{2008}',
          '\U{2009}', '\U{200a}', '\U{2028}', '\U{2029}', '\U{202f}', '\U{205f}', '\U{3000}'}
  }

  /** White space up to a place that is the end or an opening brace. */
  predicate PassedAt(row: string, i: nat) {
    i <= |row| && (forall k :: 0 <= k < i ==> White(row[k])) && (i == |row| || row[i] == '{')
  }

  /** A row of white space only, or one that shows an opening brace first. */
  ghost predicate Passed(row: string) {
    exists i: nat :: PassedAt(row, i)
  }

  lemma WhiteIff(c: char)
    ensures White(c) <==> Whitespace(c)
  {
  }

  lemma {:induction false} SkippedIff(row: string)
    ensures Skipped(row) <==> Passed(row)
  {
    if row == "" {
      assert PassedAt(row, 0);
    } else {
      WhiteIff(row[0]);
      WhiteIff('{');
      SkippedIff(row[1..]);
      hide White, Whitespace;
      if White(row[0]) {
        if i: nat :| PassedAt(row[1..], i) {
          assert PassedAt(row, i + 1);
        }
        if i: nat :| PassedAt(row, i) {
          assert i > 0;
          assert PassedAt(row[1..], i - 1);
        }
      } else if row[0] == '{' {
        assert PassedAt(row, 0);
      } else {
        assert !PassedAt(row, 0);
      }
    }
  }

  /** Line ends are white space: they decide nothing about being passed over. */
  lemma {:induction false} StrippedPassed(row: string)
    ensures Passed(StripReturns(row)) <==> Passed(row)
  {
    if row != "" && row[|row| - 1] == '\r' {
      var front := row[..|row| - 1];
      StrippedPassed(front);
      if i: nat :| PassedAt(front, i) {
        assert row[i] == if i < |front| then front[i] else '\r';
        assert PassedAt(row, if i < |front| then i else |row|);
      }
      if i: nat :| PassedAt(row, i) {
        assert PassedAt(front, if i < |front| then i else |front|);
      }
    }
  }

  /** A row as a lyric line, without its line ends. */
  function Read(raw: string): Outcome<Line> {
    LineOf(StripReturns(raw))
  }

  /** Carriage returns at the end, all of them, are no part of a row. */
  lemma {:induction false} ReadWithReturns(line: string, k: nat)
    requires NoReturnAtEnd(line)
    ensures StripReturns(line + Returns(k)) == line
  {
    if k > 0 {
      ReadWithReturns(line, k - 1);
      assert (line + Returns(k))[..|line| + k - 1] == line + Returns(k - 1);
    }
  }

  function Returns(k: nat): (r: string)
    ensures |r| == k
  {
    if k == 0 then "" else Returns(k - 1) + "\r"
  }

  lemma PassedIsNoLine(raw: string)
    requires Passed(raw)
    ensures Read(raw) == Mismatch
  {
    StrippedPassed(raw);
    var line := StripReturns(raw);
    var i: nat :| PassedAt(line, i);
    hide StripReturns;
    assert line == "" || line[0] != '[';
  }

  // ----- What the rows come to

  function Lines(raws: seq<string>): seq<Line> {
    if raws == [] then []
    else (match Read(raws[0]) case Parsed(l) => [l] case _ => []) + Lines(raws[1..])
  }

  /** Rows that show something other than an opening brace first and are no lines. */
  ghost function Broken(raws: seq<string>): nat {
    if raws == [] then 0
    else (if !Passed(raws[0]) && Read(raws[0]).Mismatch? then 1 else 0) + Broken(raws[1..])
  }

  /** A row with more segments than a line may have. */
  predicate SomeOverlong(raws: seq<string>) {
    exists i :: 0 <= i < |raws| && Read(raws[i]).Bound?
  }

  lemma {:induction false} BrokenAtMost(raws: seq<string>)
    ensures Broken(raws) <= |raws|
  {
    hide Passed, Read;
    if raws != [] {
      BrokenAtMost(raws[1..]);
    }
  }

  predicate Refused(state: State, raws: seq<string>) {
    SomeOverlong(raws) || |state.rows| + |Lines(raws)| > 10_000 || state.segments + SegmentTotal(Lines(raws)) > 100_000
  }

  lemma FeedIs(state: State, raw: string)
    requires state.omitted < U32_MAX
    ensures Feed(state, raw) ==
      match Read(raw)
      case Parsed(l) =>
        if |state.rows| + 1 > 10_000 || state.segments + |l.segments| > 100_000 then Bound
        else Parsed(State(state.rows + [l], state.segments + |l.segments|, state.omitted))
      case Mismatch => Parsed(state.(omitted := state.omitted + if Passed(raw) then 0 else 1))
      case Bound => Bound
  {
    SkippedIff(StripReturns(raw));
    StrippedPassed(raw);
    if Passed(raw) {
      PassedIsNoLine(raw);
    }
    hide Passed, LineOf, StripReturns, Skipped;
  }

  lemma TotalOfMore(l: Line, lines: seq<Line>)
    ensures SegmentTotal([l] + lines) == |l.segments| + SegmentTotal(lines)
  {
    assert ([l] + lines)[1..] == lines;
  }

  lemma MoreLines(raws: seq<string>)
    requires raws != []
    ensures SomeOverlong(raws) <==> Read(raws[0]).Bound? || SomeOverlong(raws[1..])
    ensures Lines(raws) == (if Read(raws[0]).Parsed? then [Read(raws[0]).value] else []) + Lines(raws[1..])
  {
    hide Read;
    assert forall i :: 1 <= i < |raws| ==> raws[i] == raws[1..][i - 1];
    assert forall i :: 0 <= i < |raws| - 1 ==> raws[1..][i] == raws[i + 1];
  }

  lemma {:induction false} FeedAllIs(state: State, raws: seq<string>)
    requires state.omitted + |raws| <= U32_MAX
    requires |state.rows| <= 10_000 && state.segments <= 100_000
    ensures FeedAll(state, raws) ==
      if Refused(state, raws) then Bound
      else Parsed(State(state.rows + Lines(raws), state.segments + SegmentTotal(Lines(raws)),
                        state.omitted + Broken(raws)))
    decreases |raws|
  {
    hide Read, Passed, Feed;
    if raws == [] {
      assert state.rows + [] == state.rows;
    } else {
      FeedIs(state, raws[0]);
      MoreLines(raws);
      hide SomeOverlong, Lines;
      match Read(raws[0])
      case Parsed(l) =>
        TotalOfMore(l, Lines(raws[1..]));
        if |state.rows| + 1 <= 10_000 && state.segments + |l.segments| <= 100_000 {
          FeedAllIs(State(state.rows + [l], state.segments + |l.segments|, state.omitted), raws[1..]);
          assert state.rows + [l] + Lines(raws[1..]) == state.rows + ([l] + Lines(raws[1..]));
        }
      case Mismatch =>
        FeedAllIs(state.(omitted := state.omitted + if Passed(raws[0]) then 0 else 1), raws[1..]);
        assert [] + Lines(raws[1..]) == Lines(raws[1..]);
      case Bound =>
    }
  }

  lemma {:induction false} RowsAreShort(raws: seq<string>)
    requires raws != []
    ensures |raws| <= ByteLength(Joined(raws)) + 1
  {
    if |raws| > 1 {
      RowsAreShort(raws[1..]);
      hide ByteLength;
      JoinedLength(raws[0], "\n");
      JoinedLength(raws[0] + "\n", Joined(raws[1..]));
      LengthOfOne('\n');
    }
  }

  /**
    Any document, given as its rows: it is refused for its size, an overlong line, or too many lines or segments
    in all; otherwise the rows that are lines come out in order of time, and exactly the other rows that show
    something but an opening brace first are counted as omitted.
  */
  lemma DocumentIs(raws: seq<string>)
    requires raws != [] && OneLineEach(raws)
    ensures Parse(Joined(raws)) ==
      if ByteLength(Joined(raws)) > 524_288 || SomeOverlong(raws) || |Lines(raws)| > 10_000
         || SegmentTotal(Lines(raws)) > 100_000
      then Bound
      else Parsed((SortByStart(Lines(raws)), Broken(raws)))
  {
    hide FeedAll, SortByStart, ByteLength, Joined, Parts, Lines, SomeOverlong, Broken, SegmentTotal;
    PartsOfJoined(raws);
    RowsAreShort(raws);
    if ByteLength(Joined(raws)) <= 524_288 {
      FeedAllIs(EMPTY, raws);
      assert EMPTY.rows + Lines(raws) == Lines(raws);
    }
  }

  // ----- Printed lines among rows that are passed over

  /** The printed lines in order, each with any line ends, and rows to be passed over anywhere between them. */
  ghost predicate Interleaved(raws: seq<string>, lines: seq<Line>) {
    if raws == [] then lines == []
    else (Passed(raws[0]) && Interleaved(raws[1..], lines))
         || (lines != [] && Prints(raws[0], lines[0]) && Interleaved(raws[1..], lines[1..]))
  }

  ghost predicate Prints(raw: string, l: Line) {
    exists k :: raw == PrintLine(l) + Returns(k)
  }

  lemma PrintedIsRead(raw: string, l: Line)
    requires ValidLine(l) && Prints(raw, l)
    ensures Read(raw) == Parsed(l)
  {
    hide ValidLine, PrintLine, LineOf;
    var k :| raw == PrintLine(l) + Returns(k);
    LinePrinted(l);
    PrintedEnd(l);
    ReadWithReturns(PrintLine(l), k);
  }

  lemma PrintedEnd(l: Line)
    requires ValidLine(l)
    ensures NoReturnAtEnd(PrintLine(l))
  {
    hide ValidLine, PrintLine;
    PrintedLineShape(l);
    StripStops(PrintLine(l));
  }

  lemma StripStops(s: string)
    requires StripReturns(s) == s
    ensures NoReturnAtEnd(s)
  {
  }

  lemma {:induction false} InterleavedRows(raws: seq<string>, lines: seq<Line>)
    requires AllValid(lines) && Interleaved(raws, lines)
    ensures Lines(raws) == lines && Broken(raws) == 0 && !SomeOverlong(raws)
    decreases |raws|
  {
    hide ValidLine, Passed, Prints, Read;
    if raws != [] {
      MoreLines(raws);
      if Passed(raws[0]) && Interleaved(raws[1..], lines) {
        PassedIsNoLine(raws[0]);
        InterleavedRows(raws[1..], lines);
      } else {
        PrintedIsRead(raws[0], lines[0]);
        InterleavedRows(raws[1..], lines[1..]);
        assert lines == [lines[0]] + lines[1..];
      }
    }
  }

  /**
    The round trip through a whole document: printed lines with blank rows and metadata rows put anywhere among
    them, and any line ends, come back as they were in order of time, and nothing counts as omitted.
  */
  lemma RoundTripAmongRows(raws: seq<string>, lines: seq<Line>)
    requires raws != [] && OneLineEach(raws) && AllValid(lines) && Interleaved(raws, lines)
    requires |lines| <= 10_000 && SegmentTotal(lines) <= 100_000 && ByteLength(Joined(raws)) <= 524_288
    ensures Parse(Joined(raws)) == Parsed((SortByStart(lines), 0))
    ensures Sorted(lines) ==> SortByStart(lines) == lines
  {
    hide Parse, ByteLength, Joined, AllValid, Interleaved, SegmentTotal, SortByStart, Sorted;
    DocumentIs(raws);
    InterleavedRows(raws, lines);
    if Sorted(lines) {
      SortedStays(lines);
    }
  }

  /** The bytes of a character by its range, in UTF-8. */
  lemma CharactersInUtf8(c: char)
    ensures '\U{0}' <= c <= '\U{7f}' ==> ByteLength([c]) == 1
    ensures '\U{80}' <= c <= '\U{7ff}' ==> ByteLength([c]) == 2
    ensures '\U{800}' <= c <= '\U{ffff}' ==> ByteLength([c]) == 3
    ensures '\U{10000}' <= c ==> ByteLength([c]) == 4
  {
  }
}
