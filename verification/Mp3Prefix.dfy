/**
  The check on the start of an MP3 file: an optional ID3v2 tag and two consecutive
  complete Layer III frames of the same version, layer and sample rate.
*/
module Mp3Prefix {
  import opened Basics
  import opened Bytes

  const ID3: Bytes := [0x49, 0x44, 0x33]

  /** Kilobits per second by index, for MPEG 1 and for the two lower versions. */
  const BITRATES_1: seq<nat> := [0, 32, 40, 48, 56, 64, 80, 96, 112, 128, 160, 192, 224, 256, 320]
  const BITRATES_2: seq<nat> := [0, 8, 16, 24, 32, 40, 48, 56, 64, 80, 96, 112, 128, 144, 160]

  datatype Clock = Clock(version: bv8, rate: bv8)

  predicate Synchronised(a: bv8, b: bv8, c: bv8) {
    a == 0xff && b & 0xe0 == 0xe0 && b & 0x06 == 0x02 && c & 0x0c != 0x0c
    && (b >> 3) & 3 != 1 && c >> 4 != 0 && c >> 4 != 15
  }

  function Version(b: bv8): nat {
    Value((b >> 3) & 3)
  }

  function SampleRate(version: nat, c: bv8): nat {
    var index := (c >> 2) & 3;
    var rate := if index == 0 then 44_100 else if index == 1 then 48_000 else 32_000;
    rate / (if version == 3 then 1 else if version == 2 then 2 else 4)
  }

  function Bitrate(version: nat, index: nat): nat
    requires index < 15
  {
    if version == 3 then BITRATES_1[index] else BITRATES_2[index]
  }

  lemma IndexInTable(c: bv8)
    requires c >> 4 != 0 && c >> 4 != 15
    ensures 1 <= Value(c >> 4) <= 14
  {
    assert c >> 4 < 15 && c >> 4 > 0;
  }

  function FrameLength(b: bv8, c: bv8): nat
    requires c >> 4 != 0 && c >> 4 != 15
  {
    IndexInTable(c);
    var version := Version(b);
    (if version == 3 then 144_000 else 72_000) * Bitrate(version, Value(c >> 4)) / SampleRate(version, c)
    + Value((c >> 1) & 1)
  }

  lemma SampleRateBounds(version: nat, c: bv8)
    ensures version == 3 ==> 32_000 <= SampleRate(version, c) <= 48_000
    ensures version != 3 ==> 8_000 <= SampleRate(version, c) <= 24_000
  {
  }

  lemma ProductsKeepOrder(a: nat, b: nat, r: nat)
    requires a <= b
    ensures a * r <= b * r
  {
  }

  lemma FactorsKeepOrder(a: nat, b: nat, r: nat)
    requires a * r < b * r
    ensures a < b
  {
    if b <= a {
      ProductsKeepOrder(b, a, r);
    }
  }

  lemma QuotientBounds(x: nat, r: nat, low: nat, high: nat)
    requires r > 0 && low * r <= x < (high + 1) * r
    ensures low <= x / r <= high
  {
    var q := x / r;
    assert x == q * r + x % r && 0 <= x % r < r;
    assert (q + 1) * r == q * r + r;
    FactorsKeepOrder(low, q + 1, r);
    FactorsKeepOrder(q, high + 1, r);
  }

  /** A frame is always longer than its header, so the second header is never read from inside the first. */
  lemma FrameLengthBounds(b: bv8, c: bv8)
    requires c >> 4 != 0 && c >> 4 != 15
    ensures 24 <= FrameLength(b, c) <= 1441
  {
    IndexInTable(c);
    var version := Version(b);
    var bitrate, rate := Bitrate(version, Value(c >> 4)), SampleRate(version, c);
    SampleRateBounds(version, c);
    BitrateBounds(version, Value(c >> 4));
    PaddingBound(c);
    hide SampleRate, Bitrate, Value, Version;
    QuotientBounds((if version == 3 then 144_000 else 72_000) * bitrate, rate, 24, 1440);
  }

  lemma BitrateBounds(version: nat, index: nat)
    requires 1 <= index <= 14
    ensures version == 3 ==> 32 <= Bitrate(version, index) <= 320
    ensures version != 3 ==> 8 <= Bitrate(version, index) <= 160
  {
  }

  lemma PaddingBound(c: bv8)
    ensures Value((c >> 1) & 1) <= 1
  {
  }

  /** The frame that starts at an offset, if its header is valid and all of it is there. */
  function FrameAt(bytes: Bytes, offset: nat): Option<(nat, Clock)> {
    if offset + 4 > |bytes| || !Synchronised(bytes[offset], bytes[offset + 1], bytes[offset + 2]) then None
    else
      var length := FrameLength(bytes[offset + 1], bytes[offset + 2]);
      if offset + length > |bytes| then None
      else Some((length, Clock(bytes[offset + 1] & 0xfe, bytes[offset + 2] & 0x0c)))
  }

  predicate TagHeader(bytes: Bytes) {
    |bytes| >= 10 && (bytes[3] == 3 || bytes[3] == 4)
    && bytes[6] & 0x80 == 0 && bytes[7] & 0x80 == 0 && bytes[8] & 0x80 == 0 && bytes[9] & 0x80 == 0
  }

  /** A number followed by one more seven-bit digit. */
  function Synchsafe(n: nat, digit: bv8): nat {
    n * 128 + Value(digit)
  }

  /** Length of the ID3 tag: header, a size of four seven-bit digits, and a footer when announced. */
  function TagLength(bytes: Bytes): nat
    requires TagHeader(bytes)
  {
    10 + Synchsafe(Synchsafe(Synchsafe(Synchsafe(0, bytes[6]), bytes[7]), bytes[8]), bytes[9])
    + if bytes[3] == 4 && bytes[5] & 0x10 != 0 then 10 else 0
  }

  /** Where the first frame must start. */
  function Audio(bytes: Bytes): Option<nat> {
    if !StartsWith(bytes, ID3) then Some(0) else if TagHeader(bytes) then Some(TagLength(bytes)) else None
  }

  predicate Accepts(bytes: Bytes) {
    var start := Audio(bytes);
    start.Some?
    && var first := FrameAt(bytes, start.value);
    first.Some?
    && var second := FrameAt(bytes, start.value + first.value.0);
    second.Some? && first.value.1 == second.value.1
  }

  /** End of the second frame of an accepted start. */
  function End(bytes: Bytes): nat
    requires Accepts(bytes)
  {
    var start := Audio(bytes).value;
    var first := FrameAt(bytes, start).value.0;
    start + first + FrameAt(bytes, start + first).value.0
  }

  lemma FrameInPrefix(bytes: Bytes, n: nat, offset: nat)
    requires n <= |bytes| && FrameAt(bytes, offset).Some?
    ensures FrameAt(bytes[..n], offset)
         == if offset + FrameAt(bytes, offset).value.0 <= n then FrameAt(bytes, offset) else None
  {
    FrameLengthBounds(bytes[offset + 1], bytes[offset + 2]);
    hide FrameLength;
  }

  lemma TagInPrefix(bytes: Bytes, n: nat)
    requires n <= |bytes| && Audio(bytes).Some?
    ensures n >= 4 && (StartsWith(bytes, ID3) ==> n >= 10) ==> Audio(bytes[..n]) == Audio(bytes)
    ensures n >= 4 && StartsWith(bytes, ID3) && n < 10 ==> Audio(bytes[..n]).None?
  {
    hide TagLength;
    var cut := bytes[..n];
    if n >= 3 {
      assert cut[..3] == bytes[..3];
    }
    if n >= 10 && StartsWith(bytes, ID3) {
      TagLengthInPrefix(bytes, n);
    }
  }

  lemma TagLengthInPrefix(bytes: Bytes, n: nat)
    requires TagHeader(bytes) && 10 <= n <= |bytes|
    ensures TagHeader(bytes[..n]) && TagLength(bytes[..n]) == TagLength(bytes)
  {
    hide Synchsafe;
  }

  /** Acceptance needs the two frames whole and looks at nothing behind them. */
  lemma AcceptsPrefixIff(bytes: Bytes, n: nat)
    requires Accepts(bytes) && n <= |bytes|
    ensures Accepts(bytes[..n]) <==> n >= End(bytes)
  {
    hide FrameAt, TagLength, TagHeader;
    var start := Audio(bytes).value;
    var first := FrameAt(bytes, start).value.0;
    TagInPrefix(bytes, n);
    FrameInPrefix(bytes, n, start);
    FrameInPrefix(bytes, n, start + first);
    FramesAreLong(bytes, start);
    FramesAreLong(bytes, start + first);
    if StartsWith(bytes, ID3) {
      TagIsLong(bytes);
    }
    if n < 4 {
      NoFrameInShort(bytes[..n]);
    }
  }

  lemma FramesAreLong(bytes: Bytes, offset: nat)
    requires FrameAt(bytes, offset).Some?
    ensures FrameAt(bytes, offset).value.0 >= 24
  {
    FrameLengthBounds(bytes[offset + 1], bytes[offset + 2]);
    hide FrameLength;
  }

  lemma TagIsLong(bytes: Bytes)
    requires Audio(bytes).Some? && StartsWith(bytes, ID3)
    ensures Audio(bytes).value >= 10
  {
  }

  lemma NoFrameInShort(bytes: Bytes)
    requires |bytes| < 4
    ensures !Accepts(bytes)
  {
  }
}
