/**
  Word-timed lyrics: parsing is total, accepts only ordered segments inside their line,
  and returns exactly what a printer wrote.
*/
module Yrc {
  import opened Basics
  import opened YrcText

  const MAX_BYTES: nat := 512 * 1024
  const MAX_LINE_SEGMENTS: nat := 4_096
  const MAX_SEGMENTS: nat := 100_000
  const MAX_LINES: nat := 10_000

  datatype Segment = Segment(start: nat, duration: nat, text: string)

  datatype Line = Line(start: nat, duration: nat, text: string, segments: seq<Segment>)

  /** A mismatch costs one line; a breached bound rejects the document. */
  datatype Outcome<T> = Parsed(value: T) | Mismatch | Bound

  // ----- One line

  function SegmentOf(content: string, start: nat, previousEnd: nat, end: nat): (r: Option<(Segment, string)>)
    ensures r.Some? ==> |r.value.1| < |content|
  {
    if content == "" || content[0] != '(' then None
    else
      var split := SplitOnce(content[1..], ')');
      if split.None? then None
      else
        var (timing, after) := split.value;
        var parts := Parts(timing, ',');
        if |parts| != 3 then None
        else
          var s, d, third := ParseU32(parts[0]), ParseU32(parts[1]), ParseU32(parts[2]);
          var next := Find(after, '(');
          if s.None? || d.None? || third.None? || next == 0 || s.value + d.value > U32_MAX then None
          else if s.value < start || s.value < previousEnd || s.value + d.value > end then None
          else Some((Segment(s.value, d.value, after[..next]), after[next..]))
  }

  function Cons<T>(first: T, rest: Outcome<seq<T>>): Outcome<seq<T>> {
    if rest.Parsed? then Parsed([first] + rest.value) else rest
  }

  /** The segments of the rest of a line that already holds `count`. */
  function SegmentsOf(content: string, start: nat, previousEnd: nat, end: nat, count: nat): Outcome<seq<Segment>>
    decreases |content|
  {
    if content == "" then Parsed([])
    else match SegmentOf(content, start, previousEnd, end)
      case None => Mismatch
      case Some((segment, rest)) =>
        if count + 1 > MAX_LINE_SEGMENTS then Bound
        else Cons(segment, SegmentsOf(rest, start, segment.start + segment.duration, end, count + 1))
  }

  function TextOf(segments: seq<Segment>): string {
    if segments == [] then "" else TextOf(segments[..|segments| - 1]) + segments[|segments| - 1].text
  }

  /** The interval in brackets and what follows it. */
  function Header(line: string): Option<(nat, nat, string)> {
    if line == "" || line[0] != '[' then None
    else
      var split := SplitOnce(line[1..], ']');
      if split.None? then None
      else
        var parts := Parts(split.value.0, ',');
        if |parts| != 2 then None
        else
          var s, d := ParseU32(parts[0]), ParseU32(parts[1]);
          if s.None? || d.None? || s.value + d.value > U32_MAX then None
          else Some((s.value, d.value, split.value.1))
  }

  function LineOf(line: string): Outcome<Line> {
    match Header(line)
    case None => Mismatch
    case Some((start, duration, content)) =>
      match SegmentsOf(content, start, start, start + duration, 0)
      case Parsed(segments) =>
        if segments == [] then Mismatch else Parsed(Line(start, duration, TextOf(segments), segments))
      case Mismatch => Mismatch
      case Bound => Bound
  }

  function Join(done: seq<Segment>, rest: Outcome<seq<Segment>>): Outcome<seq<Segment>> {
    if rest.Parsed? then Parsed(done + rest.value) else rest
  }

  lemma JoinCons(done: seq<Segment>, next: Segment, rest: Outcome<seq<Segment>>)
    ensures Join(done, Cons(next, rest)) == Join(done + [next], rest)
  {
    if rest.Parsed? {
      assert done + ([next] + rest.value) == done + [next] + rest.value;
    }
  }

  method ParseYrcLine(line: string) returns (r: Outcome<Line>)
    ensures r == LineOf(line)
  {
    hide SegmentOf, Header;
    var header := Header(line);
    if header.None? {
      return Mismatch;
    }
    var (start, duration, content) := header.value;
    var segments: seq<Segment> := [];
    var text := "";
    var previousEnd: nat := start;
    ghost var all := SegmentsOf(content, start, start, start + duration, 0);
    if all.Parsed? {
      assert [] + all.value == all.value;
    }
    while content != ""
      invariant text == TextOf(segments)
      invariant Join(segments, SegmentsOf(content, start, previousEnd, start + duration, |segments|)) == all
      decreases |content|
    {
      var next := SegmentOf(content, start, previousEnd, start + duration);
      if next.None? {
        return Mismatch;
      }
      var (segment, rest) := next.value;
      ShorterRest(content, start, previousEnd, start + duration);
      previousEnd := segment.start + segment.duration;
      text := text + segment.text;
      if |segments| + 1 > MAX_LINE_SEGMENTS {
        return Bound;
      }
      JoinCons(segments, segment, SegmentsOf(rest, start, previousEnd, start + duration, |segments| + 1));
      OneMoreText(segments, segment);
      segments := segments + [segment];
      content := rest;
    }
    assert segments + [] == segments;
    if segments == [] {
      return Mismatch;
    }
    return Parsed(Line(start, duration, text, segments));
  }

  lemma ShorterRest(content: string, start: nat, previousEnd: nat, end: nat)
    requires SegmentOf(content, start, previousEnd, end).Some?
    ensures |SegmentOf(content, start, previousEnd, end).value.1| < |content|
  {
  }

  lemma OneMoreText(segments: seq<Segment>, segment: Segment)
    ensures TextOf(segments + [segment]) == TextOf(segments) + segment.text
  {
    assert (segments + [segment])[..|segments|] == segments;
  }

  // ----- The document

  datatype State = State(rows: seq<Line>, segments: nat, omitted: nat)

  /** Blank rows and metadata rows are not lyric rows. */
  predicate Skipped(line: string) {
    FirstVisible(line) == None || FirstVisible(line) == Some('{')
  }

  function Accept(state: State, row: Line): Outcome<State> {
    if state.segments + |row.segments| > MAX_SEGMENTS || |state.rows| + 1 > MAX_LINES then Bound
    else Parsed(State(state.rows + [row], state.segments + |row.segments|, state.omitted))
  }

  function Feed(state: State, raw: string): Outcome<State> {
    var line := StripReturns(raw);
    if Skipped(line) then Parsed(state)
    else match LineOf(line)
      case Parsed(row) => Accept(state, row)
      case Mismatch =>
        if state.omitted + 1 > U32_MAX then Bound else Parsed(state.(omitted := state.omitted + 1))
      case Bound => Bound
  }

  function FeedAll(state: State, lines: seq<string>): Outcome<State>
    decreases |lines|
  {
    if lines == [] then Parsed(state)
    else match Feed(state, lines[0])
      case Parsed(next) => FeedAll(next, lines[1..])
      case _ => Bound
  }

  /** Behind every row that does not start later: equal starts keep their order. */
  function Place(row: Line, rows: seq<Line>): seq<Line> {
    if rows == [] then [row]
    else
      var last := |rows| - 1;
      if row.start < rows[last].start then Place(row, rows[..last]) + [rows[last]] else rows + [row]
  }

  function SortByStart(rows: seq<Line>): seq<Line> {
    if rows == [] then [] else Place(rows[|rows| - 1], SortByStart(rows[..|rows| - 1]))
  }

  const EMPTY: State := State([], 0, 0)

  function Parse(text: string): Outcome<(seq<Line>, nat)> {
    if ByteLength(text) > MAX_BYTES then Bound
    else match FeedAll(EMPTY, Parts(text, '\n'))
      case Parsed(state) => Parsed((SortByStart(state.rows), state.omitted))
      case _ => Bound
  }

  method ParseYrc(text: string) returns (r: Outcome<(seq<Line>, nat)>)
    ensures r == Parse(text)
  {
    hide LineOf, Skipped, SortByStart, ByteLength;
    if ByteLength(text) > MAX_BYTES {
      return Bound;
    }
    var lines := Parts(text, '\n');
    var rows: seq<Line> := [];
    var segmentCount: nat, omitted: nat := 0, 0;
    for i := 0 to |lines|
      invariant FeedAll(State(rows, segmentCount, omitted), lines[i..]) == FeedAll(EMPTY, lines)
    {
      assert lines[i..][1..] == lines[i + 1..];
      var line := StripReturns(lines[i]);
      if !Skipped(line) {
        var row := ParseYrcLine(line);
        if row.Bound? {
          return Bound;
        }
        if row.Parsed? {
          if segmentCount + |row.value.segments| > MAX_SEGMENTS || |rows| + 1 > MAX_LINES {
            return Bound;
          }
          segmentCount := segmentCount + |row.value.segments|;
          rows := rows + [row.value];
        } else {
          if omitted + 1 > U32_MAX {
            return Bound;
          }
          omitted := omitted + 1;
        }
      }
    }
    return Parsed((SortByStart(rows), omitted));
  }
}
