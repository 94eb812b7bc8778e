/**
  The grammar of word-timed lyrics, written out: which texts are numbers, segments and lines,
  and which line each of them is.
*/
module YrcGrammar {
  import opened Basics
  import opened YrcText
  import opened Yrc
  import opened YrcRoundTrip
  import opened YrcParsed

  // ----- Numbers

  function Zeros(k: nat): (z: string)
    ensures |z| == k && forall i :: 0 <= i < k ==> z[i] == '0'
  {
    if k == 0 then "" else Zeros(k - 1) + "0"
  }

  /** Leading zeros, then the number as it is usually written. */
  predicate SpelledWith(s: string, n: nat, k: nat) {
    s == Zeros(k) + PrintNumber(n)
  }

  lemma {:induction false} DigitsSpelled(s: string) returns (k: nat)
    requires s != "" && Digits(s)
    ensures SpelledWith(s, Number(s), k)
  {
    var t, c := s[..|s| - 1], s[|s| - 1];
    assert s == t + [c];
    assert Digit(c);
    LastDigit(t, c);
    if t == "" {
      k := 0;
      assert Number(t) == 0 && s == Zeros(0) + PrintNumber(Number(s));
    } else {
      k := DigitsSpelled(t);
      if Number(t) == 0 {
        k := |t|;
        assert t == Zeros(k) by {
          assert PrintNumber(0) == "0";
        }
        assert s == Zeros(k) + PrintNumber(Number(s));
      } else {
        assert PrintNumber(Number(s)) == PrintNumber(Number(t)) + [c];
        assert s == Zeros(k) + PrintNumber(Number(s));
      }
    }
  }

  lemma LastDigit(t: string, c: char)
    requires Digits(t) && Digit(c)
    ensures Digits(t + [c]) && Number(t + [c]) == 10 * Number(t) + (c as int - '0' as int)
    ensures "0123456789"[c as int - '0' as int] == c
    ensures Number(t) == 0 ==> PrintNumber(Number(t + [c])) == [c]
    ensures Number(t) != 0 ==> PrintNumber(Number(t + [c])) == PrintNumber(Number(t)) + [c]
  {
    NumberOfMore(t, c);
    var d: nat := c as int - '0' as int;
    DigitNamed(c);
    hide Number, PrintNumber;
    PrintOfMore(Number(t), d);
  }

  lemma NumberOfMore(t: string, c: char)
    requires Digits(t) && Digit(c)
    ensures Digits(t + [c]) && Number(t + [c]) == 10 * Number(t) + (c as int - '0' as int)
  {
    assert (t + [c])[..|t|] == t;
  }

  lemma DigitNamed(c: char)
    requires Digit(c)
    ensures "0123456789"[c as int - '0' as int] == c
  {
  }

  lemma PrintOfMore(n: nat, d: nat)
    requires d < 10
    ensures PrintNumber(10 * n + d) == if n == 0 then ["0123456789"[d]] else PrintNumber(n) + ["0123456789"[d]]
  {
    assert (10 * n + d) / 10 == n && (10 * n + d) % 10 == d;
  }

  lemma {:induction false} ZerosAddNothing(k: nat, s: string)
    requires Digits(s)
    ensures Digits(Zeros(k) + s) && Number(Zeros(k) + s) == Number(s)
  {
    if s != "" {
      var t, c := s[..|s| - 1], s[|s| - 1];
      ZerosAddNothing(k, t);
      assert Zeros(k) + s == Zeros(k) + t + [c] && s == t + [c];
      LastDigit(Zeros(k) + t, c);
      LastDigit(t, c);
    } else if k > 0 {
      ZerosAddNothing(k - 1, "");
      assert Zeros(k) + s == (Zeros(k - 1) + "") + ['0'];
      LastDigit(Zeros(k - 1) + "", '0');
    }
  }

  /** A text is read as a number exactly when it is that number's digits, perhaps behind zeros, and fits 32 bits. */
  lemma NumberIff(s: string, n: nat)
    ensures ParseU32(s) == Some(n) <==> n <= 4_294_967_295 && exists k :: SpelledWith(s, n, k)
  {
    if ParseU32(s) == Some(n) {
      var k := DigitsSpelled(s);
    }
    if k :| n <= 4_294_967_295 && SpelledWith(s, n, k) {
      NumberOfPrinted(n);
      ZerosAddNothing(k, PrintNumber(n));
    }
  }

  /** Digits stand most significant first. */
  lemma NumbersWritten(n: nat)
    ensures n < 10 ==> PrintNumber(n) == [('0' as int + n) as char]
    ensures n >= 10 ==> PrintNumber(n) == PrintNumber(n / 10) + [('0' as int + n % 10) as char]
  {
  }

  // ----- Segments

  /** The spellings of a segment's three numbers; the third is read and dropped. */
  datatype Tag = Tag(start: string, duration: string, third: string)

  predicate Tags(tag: Tag, s: Segment) {
    ParseU32(tag.start) == Some(s.start) && ParseU32(tag.duration) == Some(s.duration) && ParseU32(tag.third).Some?
  }

  function WrittenSegment(tag: Tag, s: Segment): string {
    "(" + tag.start + "," + tag.duration + "," + tag.third + ")" + s.text
  }

  predicate SegmentText(s: Segment) {
    s.text != "" && '(' !in s.text
  }

  lemma TaggedIsWritten(tag: Tag, s: Segment)
    ensures WrittenSegment(tag, s) == Tagged(tag.start, tag.duration, tag.third) + s.text
  {
  }

  lemma SegmentIsWritten(content: string, start: nat, previousEnd: nat, end: nat) returns (tag: Tag)
    requires SegmentOf(content, start, previousEnd, end).Some?
    ensures var (s, rest) := SegmentOf(content, start, previousEnd, end).value;
      Tags(tag, s) && SegmentText(s) && content == WrittenSegment(tag, s) + rest
      && previousEnd <= s.start && start <= s.start && End(s) <= end
  {
    var (s, rest) := SegmentOf(content, start, previousEnd, end).value;
    SegmentParts(content, start, previousEnd, end);
    YrcParsed.SegmentText(content, start, previousEnd, end);
    LowerBound(content, start, previousEnd, end);
    hide ParseU32, SegmentOf, Tagged, WrittenSegment, SegmentText;
    var a, b, c :| content == Tagged(a, b, c) + (s.text + rest)
      && ParseU32(a) == Some(s.start) && ParseU32(b) == Some(s.duration) && ParseU32(c).Some?;
    tag := Tag(a, b, c);
    TaggedIsWritten(tag, s);
    Regrouped(Tagged(a, b, c), s.text, rest);
  }

  lemma LowerBound(content: string, start: nat, previousEnd: nat, end: nat)
    requires SegmentOf(content, start, previousEnd, end).Some?
    ensures start <= SegmentOf(content, start, previousEnd, end).value.0.start
  {
  }

  function WrittenSegments(tags: seq<Tag>, segments: seq<Segment>): string
    requires |tags| == |segments|
  {
    if segments == [] then "" else WrittenSegment(tags[0], segments[0]) + WrittenSegments(tags[1..], segments[1..])
  }

  predicate AllTagged(tags: seq<Tag>, segments: seq<Segment>) {
    |tags| == |segments| && forall i :: 0 <= i < |tags| ==> Tags(tags[i], segments[i]) && SegmentText(segments[i])
  }

  lemma WrittenStart(tags: seq<Tag>, segments: seq<Segment>)
    requires |tags| == |segments|
    ensures var w := WrittenSegments(tags, segments);
      (w == "" <==> segments == []) && (w != "" ==> w[0] == '(')
  {
  }

  lemma MoreWritten(tag: Tag, s: Segment, tags: seq<Tag>, segments: seq<Segment>)
    requires |tags| == |segments|
    ensures WrittenSegments([tag] + tags, [s] + segments) == WrittenSegment(tag, s) + WrittenSegments(tags, segments)
  {
    hide WrittenSegment;
    assert ([tag] + tags)[1..] == tags && ([s] + segments)[1..] == segments;
  }

  lemma MoreTagged(tag: Tag, s: Segment, tags: seq<Tag>, segments: seq<Segment>)
    ensures Tags(tag, s) && SegmentText(s) && AllTagged(tags, segments) ==> AllTagged([tag] + tags, [s] + segments)
  {
    hide Tags, SegmentText;
  }

  lemma {:induction false} SegmentsAreWritten(content: string, start: nat, previousEnd: nat, end: nat, count: nat)
    returns (tags: seq<Tag>)
    requires SegmentsOf(content, start, previousEnd, end, count).Parsed? && start <= previousEnd && count <= 4_096
    ensures var segments := SegmentsOf(content, start, previousEnd, end, count).value;
      |tags| == |segments| && AllTagged(tags, segments) && content == WrittenSegments(tags, segments)
      && Chain(segments, previousEnd, end) && count + |segments| <= 4_096
    decreases |content|
  {
    hide SegmentOf, Tags, SegmentText, WrittenSegment;
    if content == "" {
      tags := [];
    } else {
      var (s, rest) := SegmentOf(content, start, previousEnd, end).value;
      ShorterRest(content, start, previousEnd, end);
      var tag := SegmentIsWritten(content, start, previousEnd, end);
      var later := SegmentsAreWritten(rest, start, End(s), end, count + 1);
      var segments := SegmentsOf(rest, start, End(s), end, count + 1).value;
      tags := [tag] + later;
      MoreWritten(tag, s, later, segments);
      MoreTagged(tag, s, later, segments);
      assert ([s] + segments)[1..] == segments;
    }
  }

  /** A well-formed start of a line: after it the rest of the line is read as if it stood there alone. */
  lemma {:induction false} WrittenAreSegments(tags: seq<Tag>, segments: seq<Segment>, rest: string, start: nat,
                                              previousEnd: nat, end: nat, count: nat)
    requires |tags| == |segments| && AllTagged(tags, segments) && Chain(segments, previousEnd, end)
    requires start <= previousEnd && end <= U32_MAX
    requires count + |segments| <= 4_096 && (rest == "" || rest[0] == '(')
    ensures SegmentsOf(WrittenSegments(tags, segments) + rest, start, previousEnd, end, count)
         == Join(segments, SegmentsOf(rest, start, LastEnd(segments, previousEnd), end, count + |segments|))
    decreases |segments|
  {
    hide SegmentOf, Tagged, WrittenSegment, Tags, SegmentText, AllTagged;
    if segments == [] {
      assert WrittenSegments(tags, segments) + rest == rest;
      EmptyJoin(SegmentsOf(rest, start, previousEnd, end, count));
    } else {
      var s := segments[0];
      var later := WrittenSegments(tags[1..], segments[1..]) + rest;
      LaterStart(tags[1..], segments[1..], rest);
      FirstTagged(tags, segments);
      FirstRead(tags[0], s, later, start, previousEnd, end);
      WrittenAreSegments(tags[1..], segments[1..], rest, start, End(s), end, count + 1);
      Regrouped(WrittenSegment(tags[0], s), WrittenSegments(tags[1..], segments[1..]), rest);
      var content := WrittenSegments(tags, segments) + rest;
      assert content == WrittenSegment(tags[0], s) + later;
      assert segments == [s] + segments[1..];
      hide WrittenSegments, Chain, Join, Cons, SegmentsOf;
      ConsJoin(s, segments[1..], SegmentsOf(rest, start, LastEnd(segments, previousEnd), end, count + |segments|));
      ConsOne(content, s, later, start, previousEnd, end, count);
    }
  }

  lemma LaterStart(tags: seq<Tag>, segments: seq<Segment>, rest: string)
    requires |tags| == |segments| && (rest == "" || rest[0] == '(')
    ensures var later := WrittenSegments(tags, segments) + rest; later == "" || later[0] == '('
  {
    hide WrittenSegments;
    WrittenStart(tags, segments);
  }

  lemma FirstTagged(tags: seq<Tag>, segments: seq<Segment>)
    requires AllTagged(tags, segments) && segments != []
    ensures Tags(tags[0], segments[0]) && SegmentText(segments[0]) && AllTagged(tags[1..], segments[1..])
  {
    hide Tags, SegmentText;
  }

  lemma FirstRead(tag: Tag, s: Segment, later: string, start: nat, previousEnd: nat, end: nat)
    requires Tags(tag, s) && SegmentText(s) && (later == "" || later[0] == '(')
    requires start <= s.start && previousEnd <= s.start && End(s) <= end <= U32_MAX
    ensures var content := WrittenSegment(tag, s) + later;
      content != "" && SegmentOf(content, start, previousEnd, end) == Some((s, later))
  {
    hide ParseU32, SegmentOf, Tagged;
    TaggedIsWritten(tag, s);
    SegmentSpelled(tag.start, tag.duration, tag.third, s, later, start, previousEnd, end);
  }

  lemma ConsOne(content: string, s: Segment, later: string, start: nat, previousEnd: nat, end: nat, count: nat)
    requires content != "" && SegmentOf(content, start, previousEnd, end) == Some((s, later)) && count < 4_096
    ensures SegmentsOf(content, start, previousEnd, end, count)
         == Cons(s, SegmentsOf(later, start, End(s), end, count + 1))
  {
    hide SegmentOf;
  }

  lemma Regrouped(a: string, b: string, c: string)
    ensures a + b + c == a + (b + c)
  {
  }

  lemma EmptyJoin(r: Outcome<seq<Segment>>)
    ensures Join([], r) == r
  {
    if r.Parsed? {
      assert [] + r.value == r.value;
    }
  }

  lemma ConsJoin(s: Segment, segments: seq<Segment>, r: Outcome<seq<Segment>>)
    ensures Cons(s, Join(segments, r)) == Join([s] + segments, r)
  {
    if r.Parsed? {
      assert [s] + (segments + r.value) == [s] + segments + r.value;
    }
  }

  function LastEnd(segments: seq<Segment>, previousEnd: nat): nat {
    if segments == [] then previousEnd else LastEnd(segments[1..], End(segments[0]))
  }

  // ----- Lines

  /** The segments lie in order inside the line's interval, overlap nowhere and are each some text. */
  predicate InOrder(l: Line) {
    l.start + l.duration <= 4_294_967_295
    && (forall i :: 0 <= i < |l.segments| ==>
          l.start <= l.segments[i].start && l.segments[i].start + l.segments[i].duration <= l.start + l.duration)
    && (forall i, j :: 0 <= i < j < |l.segments| ==>
          l.segments[i].start + l.segments[i].duration <= l.segments[j].start)
  }

  predicate LineAs(line: string, l: Line, a: string, b: string, tags: seq<Tag>) {
    1 <= |tags| == |l.segments| <= 4_096 && InOrder(l) && l.text == TextOf(l.segments)
    && ParseU32(a) == Some(l.start) && ParseU32(b) == Some(l.duration) && AllTagged(tags, l.segments)
    && line == "[" + a + "," + b + "]" + WrittenSegments(tags, l.segments)
  }

  lemma InOrderIff(l: Line)
    ensures InOrder(l) <==>
      l.start + l.duration <= 4_294_967_295 && Chain(l.segments, l.start, l.start + l.duration)
  {
    hide Chain;
    ChainIff(l.segments, l.start, l.start + l.duration);
    assert forall i :: 0 <= i < |l.segments| ==> End(l.segments[i]) == l.segments[i].start + l.segments[i].duration;
  }

  lemma MakeLineAs(line: string, l: Line, a: string, b: string, content: string, tags: seq<Tag>)
    requires 1 <= |tags| == |l.segments| <= 4_096 && l.start + l.duration <= 4_294_967_295
    requires l.text == TextOf(l.segments)
    requires Chain(l.segments, l.start, l.start + l.duration) && AllTagged(tags, l.segments)
    requires ParseU32(a) == Some(l.start) && ParseU32(b) == Some(l.duration)
    requires line == Interval(a, b) + content && content == WrittenSegments(tags, l.segments)
    ensures LineAs(line, l, a, b, tags)
  {
    hide ParseU32, TextOf, Chain, Interval, InOrder, AllTagged, WrittenSegments;
    InOrderIff(l);
    IntervalIs(a, b);
  }

  lemma WrittenLine(line: string, l: Line)
    requires LineOf(line) == Parsed(l)
    ensures exists a, b, tags :: LineAs(line, l, a, b, tags)
  {
    hide Header, LineOf, SegmentsOf, ParseU32, Interval, TextOf, WrittenSegments, Chain, InOrder, AllTagged, LineAs;
    LineFields(line, l);
    HeaderFields(line);
    var content := Header(line).value.2;
    var a, b :| line == Interval(a, b) + content && ParseU32(a) == Some(l.start) && ParseU32(b) == Some(l.duration);
    var tags := SegmentsAreWritten(content, l.start, l.start, l.start + l.duration, 0);
    MakeLineAs(line, l, a, b, content, tags);
  }

  lemma IntervalIs(a: string, b: string)
    ensures Interval(a, b) == "[" + a + "," + b + "]"
  {
  }

  lemma PartsOfLineAs(line: string, l: Line, a: string, b: string, tags: seq<Tag>)
    requires LineAs(line, l, a, b, tags)
    ensures Chain(l.segments, l.start, l.start + l.duration) && l.start + l.duration <= 4_294_967_295
    ensures line == Interval(a, b) + WrittenSegments(tags, l.segments)
  {
    hide ParseU32, TextOf, Chain, Interval, InOrder, AllTagged, WrittenSegments;
    InOrderIff(l);
    IntervalIs(a, b);
  }

  lemma ReadLine(line: string, l: Line, a: string, b: string, tags: seq<Tag>)
    requires LineAs(line, l, a, b, tags)
    ensures LineOf(line) == Parsed(l)
  {
    hide Header, SegmentsOf, ParseU32, Interval, TextOf, WrittenSegments, Chain, InOrder, AllTagged;
    PartsOfLineAs(line, l, a, b, tags);
    var content := WrittenSegments(tags, l.segments);
    HeaderSpelled(a, b, l.start, l.duration, content);
    AllSegmentsRead(content, l, tags);
  }

  lemma AllSegmentsRead(content: string, l: Line, tags: seq<Tag>)
    requires |tags| == |l.segments| <= 4_096 && AllTagged(tags, l.segments)
    requires content == WrittenSegments(tags, l.segments)
    requires Chain(l.segments, l.start, l.start + l.duration) && l.start + l.duration <= U32_MAX
    ensures SegmentsOf(content, l.start, l.start, l.start + l.duration, 0) == Parsed(l.segments)
  {
    hide SegmentsOf, WrittenSegments, Chain, AllTagged;
    assert content + "" == content;
    WrittenAreSegments(tags, l.segments, "", l.start, l.start, l.start + l.duration, 0);
    NoSegments(l.start, LastEnd(l.segments, l.start), l.start + l.duration, |l.segments|);
    assert l.segments + [] == l.segments;
  }

  lemma NoSegments(start: nat, previousEnd: nat, end: nat, count: nat)
    ensures SegmentsOf("", start, previousEnd, end, count) == Parsed([])
  {
  }

  /** A text is read as a line exactly when it is written like this, whatever spelling its numbers have. */
  lemma LineIff(line: string, l: Line)
    ensures LineOf(line) == Parsed(l) <==> exists a, b, tags :: LineAs(line, l, a, b, tags)
  {
    hide LineOf, LineAs;
    if LineOf(line) == Parsed(l) {
      WrittenLine(line, l);
    }
    if a, b, tags :| LineAs(line, l, a, b, tags) {
      ReadLine(line, l, a, b, tags);
    }
  }

  /** The text of a line is its segments' texts one after the other. */
  lemma {:induction false} TextIsConcatenation(first: seq<Segment>, second: seq<Segment>)
    ensures TextOf(first + second) == TextOf(first) + TextOf(second)
    ensures |first| == 1 ==> TextOf(first) == first[0].text
  {
    if |first| == 1 {
      assert first[..0] == [];
    }
    if second == [] {
      assert first + second == first;
    } else {
      var front, last := second[..|second| - 1], second[|second| - 1];
      TextIsConcatenation(first, front);
      assert first + second == first + front + [last];
      OneMoreText(first + front, last);
      assert second == front + [last];
      OneMoreText(front, last);
    }
  }

  // ----- A line with too many segments

  /** 4097 well-formed segments; what follows them is not read. */
  predicate OverlongAs(line: string, l: Line, a: string, b: string, tags: seq<Tag>, rest: string) {
    |tags| == |l.segments| == 4_097 && InOrder(l) && (rest == "" || rest[0] == '(')
    && ParseU32(a) == Some(l.start) && ParseU32(b) == Some(l.duration) && AllTagged(tags, l.segments)
    && line == "[" + a + "," + b + "]" + WrittenSegments(tags, l.segments) + rest
  }

  lemma {:induction false} BoundIsWritten(content: string, start: nat, previousEnd: nat, end: nat, count: nat)
    returns (tags: seq<Tag>, segments: seq<Segment>, rest: string)
    requires SegmentsOf(content, start, previousEnd, end, count).Bound? && start <= previousEnd && count <= 4_096
    ensures |tags| == |segments| && AllTagged(tags, segments) && content == WrittenSegments(tags, segments) + rest
    ensures Chain(segments, previousEnd, end) && count + |segments| == 4_097 && (rest == "" || rest[0] == '(')
    decreases |content|
  {
    hide Tags, SegmentText, WrittenSegment, SegmentOf;
    RestStarts(content, start, previousEnd, end);
    var (s, later) := SegmentOf(content, start, previousEnd, end).value;
    var tag := SegmentIsWritten(content, start, previousEnd, end);
    if count == 4_096 {
      tags, segments, rest := [], [], later;
      assert WrittenSegments(tags, segments) + rest == later;
    } else {
      ShorterRest(content, start, previousEnd, end);
      tags, segments, rest := BoundIsWritten(later, start, End(s), end, count + 1);
    }
    OneMoreWritten(tag, s, tags, segments, rest, previousEnd, end);
    tags, segments := [tag] + tags, [s] + segments;
  }

  lemma OneMoreWritten(tag: Tag, s: Segment, tags: seq<Tag>, segments: seq<Segment>, rest: string, previousEnd: nat,
                       end: nat)
    requires |tags| == |segments| && AllTagged(tags, segments) && Tags(tag, s) && SegmentText(s)
    requires previousEnd <= s.start && End(s) <= end && Chain(segments, End(s), end)
    ensures AllTagged([tag] + tags, [s] + segments) && Chain([s] + segments, previousEnd, end)
    ensures WrittenSegment(tag, s) + (WrittenSegments(tags, segments) + rest)
         == WrittenSegments([tag] + tags, [s] + segments) + rest
  {
    hide Tags, SegmentText, WrittenSegment, WrittenSegments, Chain, AllTagged;
    MoreWritten(tag, s, tags, segments);
    MoreTagged(tag, s, tags, segments);
    MoreChain(s, segments, previousEnd, end);
    Regrouped(WrittenSegment(tag, s), WrittenSegments(tags, segments), rest);
  }

  lemma MoreChain(s: Segment, segments: seq<Segment>, previousEnd: nat, end: nat)
    requires previousEnd <= s.start && End(s) <= end && Chain(segments, End(s), end)
    ensures Chain([s] + segments, previousEnd, end)
  {
    assert ([s] + segments)[1..] == segments;
  }

  lemma RestStarts(content: string, start: nat, previousEnd: nat, end: nat)
    requires SegmentOf(content, start, previousEnd, end).Some?
    ensures var rest := SegmentOf(content, start, previousEnd, end).value.1; rest == "" || rest[0] == '('
  {
    hide ParseU32, Parts, SplitOnce;
  }

  lemma MakeOverlong(line: string, l: Line, a: string, b: string, content: string, tags: seq<Tag>, rest: string)
    requires |tags| == |l.segments| == 4_097 && l.start + l.duration <= 4_294_967_295
    requires Chain(l.segments, l.start, l.start + l.duration) && AllTagged(tags, l.segments)
    requires ParseU32(a) == Some(l.start) && ParseU32(b) == Some(l.duration) && (rest == "" || rest[0] == '(')
    requires line == Interval(a, b) + content && content == WrittenSegments(tags, l.segments) + rest
    ensures OverlongAs(line, l, a, b, tags, rest)
  {
    hide ParseU32, Chain, Interval, InOrder, AllTagged, WrittenSegments;
    InOrderIff(l);
    IntervalIs(a, b);
    Regrouped(Interval(a, b), WrittenSegments(tags, l.segments), rest);
  }

  lemma OverlongIsWritten(line: string)
    requires LineOf(line) == Bound
    ensures exists l, a, b, tags, rest :: OverlongAs(line, l, a, b, tags, rest)
  {
    hide Header, SegmentsOf, ParseU32, Interval, TextOf, WrittenSegments, Chain, InOrder, AllTagged, OverlongAs;
    HeaderFields(line);
    var (start, duration, content) := Header(line).value;
    var a, b :| line == Interval(a, b) + content && ParseU32(a) == Some(start) && ParseU32(b) == Some(duration);
    var tags, segments, rest := BoundIsWritten(content, start, start, start + duration, 0);
    MakeOverlong(line, Line(start, duration, "", segments), a, b, content, tags, rest);
  }

  lemma OneTooMany(tag: Tag, s: Segment, rest: string, start: nat, previousEnd: nat, end: nat)
    requires Tags(tag, s) && SegmentText(s) && (rest == "" || rest[0] == '(')
    requires start <= s.start && previousEnd <= s.start && End(s) <= end <= U32_MAX
    ensures SegmentsOf(WrittenSegment(tag, s) + rest, start, previousEnd, end, 4_096) == Bound
  {
    hide SegmentOf, Tags, SegmentText, WrittenSegment;
    FirstRead(tag, s, rest, start, previousEnd, end);
  }

  lemma {:induction false} ChainSplits(segments: seq<Segment>, previousEnd: nat, end: nat)
    requires Chain(segments, previousEnd, end) && segments != []
    ensures var front, last := segments[..|segments| - 1], segments[|segments| - 1];
      Chain(front, previousEnd, end) && LastEnd(front, previousEnd) <= last.start && End(last) <= end
      && previousEnd <= last.start
  {
    if |segments| > 1 {
      ChainSplits(segments[1..], End(segments[0]), end);
      assert segments[1..][..|segments| - 2] == segments[..|segments| - 1][1..];
    }
  }

  lemma {:induction false} WrittenSplits(tags: seq<Tag>, segments: seq<Segment>)
    requires |tags| == |segments| > 0
    ensures var n := |tags| - 1;
      WrittenSegments(tags, segments) == WrittenSegments(tags[..n], segments[..n]) + WrittenSegment(tags[n],
          segments[n])
  {
    hide WrittenSegment;
    var n := |tags| - 1;
    if n > 0 {
      WrittenSplits(tags[1..], segments[1..]);
      assert tags[1..][..n - 1] == tags[..n][1..] && segments[1..][..n - 1] == segments[..n][1..];
      Regrouped(WrittenSegment(tags[0], segments[0]), WrittenSegments(tags[..n][1..], segments[..n][1..]),
                WrittenSegment(tags[n], segments[n]));
    } else {
      OneWritten(tags, segments);
    }
  }

  lemma OneWritten(tags: seq<Tag>, segments: seq<Segment>)
    requires |tags| == |segments| == 1
    ensures WrittenSegments(tags, segments) == WrittenSegment(tags[0], segments[0])
  {
    hide WrittenSegment;
    assert WrittenSegments(tags[1..], segments[1..]) == "";
  }

  lemma FrontTagged(tags: seq<Tag>, segments: seq<Segment>)
    requires AllTagged(tags, segments) && segments != []
    ensures var n := |tags| - 1;
      AllTagged(tags[..n], segments[..n]) && Tags(tags[n], segments[n]) && SegmentText(segments[n])
  {
    hide Tags, SegmentText;
  }

  lemma TooManyRead(content: string, l: Line, tags: seq<Tag>, rest: string)
    requires |tags| == |l.segments| == 4_097 && AllTagged(tags, l.segments) && (rest == "" || rest[0] == '(')
    requires content == WrittenSegments(tags, l.segments) + rest
    requires Chain(l.segments, l.start, l.start + l.duration) && l.start + l.duration <= U32_MAX
    ensures SegmentsOf(content, l.start, l.start, l.start + l.duration, 0) == Bound
  {
    hide SegmentsOf, WrittenSegments, WrittenSegment, Chain, AllTagged, Tags, SegmentText;
    var n := 4_096;
    var last := l.segments[n];
    ChainSplits(l.segments, l.start, l.start + l.duration);
    FrontTagged(tags, l.segments);
    WrittenSplits(tags, l.segments);
    var front, later := WrittenSegments(tags[..n], l.segments[..n]), WrittenSegment(tags[n], last) + rest;
    Regrouped(front, WrittenSegment(tags[n], last), rest);
    SegmentStart(tags[n], last, rest);
    OneTooMany(tags[n], last, rest, l.start, LastEnd(l.segments[..n], l.start), l.start + l.duration);
    WrittenAreSegments(tags[..n], l.segments[..n], later, l.start, l.start, l.start + l.duration, 0);
  }

  lemma SegmentStart(tag: Tag, s: Segment, rest: string)
    ensures var later := WrittenSegment(tag, s) + rest; later != "" && later[0] == '('
  {
  }

  lemma OverlongRead(line: string, l: Line, a: string, b: string, tags: seq<Tag>, rest: string)
    requires OverlongAs(line, l, a, b, tags, rest)
    ensures LineOf(line) == Bound
  {
    hide Header, SegmentsOf, ParseU32, Interval, TextOf, WrittenSegments, Chain, InOrder, AllTagged;
    var content := WrittenSegments(tags, l.segments) + rest;
    InOrderIff(l);
    IntervalIs(a, b);
    Regrouped(Interval(a, b), WrittenSegments(tags, l.segments), rest);
    HeaderSpelled(a, b, l.start, l.duration, content);
    TooManyRead(content, l, tags, rest);
  }

  /** A text breaks the bound on a line exactly when it starts like a line of 4097 segments. */
  lemma OverlongIff(line: string)
    ensures LineOf(line) == Bound <==> exists l, a, b, tags, rest :: OverlongAs(line, l, a, b, tags, rest)
  {
    hide LineOf, OverlongAs;
    if LineOf(line) == Bound {
      OverlongIsWritten(line);
    }
    if l, a, b, tags, rest :| OverlongAs(line, l, a, b, tags, rest) {
      OverlongRead(line, l, a, b, tags, rest);
    }
  }
}
