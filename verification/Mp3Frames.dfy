/**
  What the MP3 check accepts, written out: the tag with its size, and the two frames with the
  fields of their headers and the lengths that follow from them.
*/
module Mp3Frames {
  import opened Basics
  import opened Bytes
  import opened Mp3Prefix

  /** The fields of a frame header: version 3 is MPEG 1, 2 is MPEG 2 and 0 is MPEG 2.5. */
  datatype Frame = Frame(version: bv8, unprotected: bv8, bitrate: bv8, rate: bv8, padding: bv8, private: bv8)

  predicate Allowed(f: Frame) {
    (f.version == 0 || f.version == 2 || f.version == 3) && f.unprotected <= 1 && 1 <= f.bitrate <= 14
    && f.rate <= 2 && f.padding <= 1 && f.private <= 1
  }

  function SecondByte(f: Frame): bv8 {
    0xe2 | (f.version << 3) | f.unprotected
  }

  function ThirdByte(f: Frame): bv8 {
    (f.bitrate << 4) | (f.rate << 2) | (f.padding << 1) | f.private
  }

  function Kilobits(version: bv8, bitrate: bv8): nat {
    if version == 3 then
      match bitrate
      case 1 => 32 case 2 => 40 case 3 => 48 case 4 => 56 case 5 => 64 case 6 => 80 case 7 => 96
      case 8 => 112 case 9 => 128 case 10 => 160 case 11 => 192 case 12 => 224 case 13 => 256 case _ => 320
    else
      match bitrate
      case 1 => 8 case 2 => 16 case 3 => 24 case 4 => 32 case 5 => 40 case 6 => 48 case 7 => 56
      case 8 => 64 case 9 => 80 case 10 => 96 case 11 => 112 case 12 => 128 case 13 => 144 case _ => 160
  }

  function Hertz(version: bv8, rate: bv8): (h: nat)
    ensures h > 0
  {
    if version == 3 then if rate == 0 then 44_100 else if rate == 1 then 48_000 else 32_000
    else if version == 2 then if rate == 0 then 22_050 else if rate == 1 then 24_000 else 16_000
    else if rate == 0 then 11_025 else if rate == 1 then 12_000 else 8_000
  }

  /** 1152 samples in a frame of MPEG 1 and 576 below, an eighth of that in bytes at one bit per sample. */
  function Length(f: Frame): nat {
    (if f.version == 3 then 144_000 else 72_000) * Kilobits(f.version, f.bitrate) / Hertz(f.version, f.rate)
    + if f.padding == 1 then 1 else 0
  }

  // ----- Headers

  function FieldsOf(b: bv8, c: bv8): Frame {
    Frame((b >> 3) & 3, b & 1, c >> 4, (c >> 2) & 3, (c >> 1) & 1, c & 1)
  }

  lemma SecondByteOf(f: Frame)
    requires Allowed(f)
    ensures var b := SecondByte(f);
      b & 0xe0 == 0xe0 && b & 0x06 == 0x02 && (b >> 3) & 3 == f.version && b & 1 == f.unprotected
  {
  }

  lemma ThirdByteOf(f: Frame)
    requires Allowed(f)
    ensures var c := ThirdByte(f);
      c & 0x0c != 0x0c && c >> 4 == f.bitrate && (c >> 2) & 3 == f.rate && (c >> 1) & 1 == f.padding
      && c & 1 == f.private
  {
  }

  lemma WrittenHeader(f: Frame)
    requires Allowed(f)
    ensures Synchronised(0xff, SecondByte(f), ThirdByte(f)) && FieldsOf(SecondByte(f), ThirdByte(f)) == f
  {
    SecondByteOf(f);
    ThirdByteOf(f);
    hide SecondByte, ThirdByte;
  }

  lemma SecondByteRead(b: bv8)
    requires b & 0xe0 == 0xe0 && b & 0x06 == 0x02
    ensures b == 0xe2 | (((b >> 3) & 3) << 3) | (b & 1) && b & 1 <= 1 && (b >> 3) & 3 <= 3
  {
  }

  lemma ThirdByteRead(c: bv8)
    ensures c == ((c >> 4) << 4) | (((c >> 2) & 3) << 2) | (((c >> 1) & 1) << 1) | (c & 1)
    ensures c & 1 <= 1 && (c >> 1) & 1 <= 1 && (c >> 2) & 3 <= 3 && c >> 4 <= 15
    ensures c & 0x0c != 0x0c <==> (c >> 2) & 3 != 3
  {
  }

  lemma ReadHeader(b: bv8, c: bv8)
    requires Synchronised(0xff, b, c)
    ensures var f := FieldsOf(b, c); Allowed(f) && SecondByte(f) == b && ThirdByte(f) == c
  {
    SecondByteRead(b);
    ThirdByteRead(c);
    AllowedFields((b >> 3) & 3, c >> 4, (c >> 2) & 3);
  }

  lemma AllowedFields(version: bv8, bitrate: bv8, rate: bv8)
    ensures version <= 3 && version != 1 ==> version == 0 || version == 2 || version == 3
    ensures bitrate <= 15 && bitrate != 0 && bitrate != 15 ==> 1 <= bitrate <= 14
    ensures rate <= 3 && rate != 3 ==> rate <= 2
  {
  }

  // ----- Lengths

  lemma VersionValue(v: bv8)
    ensures (Value(v) == 3 <==> v == 3) && (Value(v) == 2 <==> v == 2)
  {
  }

  lemma RateIs(version: bv8, c: bv8)
    requires (c >> 2) & 3 <= 2
    ensures SampleRate(Value(version), c) == Hertz(version, (c >> 2) & 3)
  {
    VersionValue(version);
    hide Value;
  }

  lemma IndexValue(i: bv8)
    requires 1 <= i <= 14
    ensures Value(i) == match i
      case 1 => 1 case 2 => 2 case 3 => 3 case 4 => 4 case 5 => 5 case 6 => 6 case 7 => 7
      case 8 => 8 case 9 => 9 case 10 => 10 case 11 => 11 case 12 => 12 case 13 => 13 case _ => 14
  {
    assert i == 1 || i == 2 || i == 3 || i == 4 || i == 5 || i == 6 || i == 7
        || i == 8 || i == 9 || i == 10 || i == 11 || i == 12 || i == 13 || i == 14;
  }

  lemma BitrateIs(version: bv8, i: bv8)
    requires 1 <= i <= 14
    ensures Value(i) < 15 && Bitrate(Value(version), Value(i)) == Kilobits(version, i)
  {
    VersionValue(version);
    IndexValue(i);
    hide Value;
  }

  lemma PaddingValue(p: bv8)
    requires p <= 1
    ensures Value(p) == if p == 1 then 1 else 0
  {
  }

  /** The length read from a header is the one its fields stand for. */
  lemma LengthIs(f: Frame)
    requires Allowed(f)
    ensures var c := ThirdByte(f);
      c >> 4 != 0 && c >> 4 != 15 && FrameLength(SecondByte(f), c) == Length(f)
  {
    SecondByteOf(f);
    ThirdByteOf(f);
    NeitherEnd(f.bitrate);
    BitrateIs(f.version, f.bitrate);
    RateIs(f.version, ThirdByte(f));
    PaddingValue(f.padding);
    VersionValue(f.version);
    hide SecondByte, ThirdByte, Kilobits, Hertz, Bitrate, SampleRate, Value;
  }

  lemma NeitherEnd(bitrate: bv8)
    ensures 1 <= bitrate <= 14 ==> bitrate != 0 && bitrate != 15
  {
  }

  // ----- Frames

  /** A header with these fields at an offset, and the frame complete. */
  predicate FrameAs(bytes: Bytes, offset: nat, f: Frame) {
    Allowed(f) && offset + 4 <= |bytes| && bytes[offset] == 0xff && bytes[offset + 1] == SecondByte(f)
    && bytes[offset + 2] == ThirdByte(f) && offset + Length(f) <= |bytes|
  }

  function ClockOf(f: Frame): Clock {
    Clock(SecondByte(f) & 0xfe, ThirdByte(f) & 0x0c)
  }

  lemma ClocksAgree(f: Frame, g: Frame)
    requires Allowed(f) && Allowed(g)
    ensures ClockOf(f) == ClockOf(g) <==> f.version == g.version && f.rate == g.rate
  {
    SecondClock(f.version, f.unprotected, g.version, g.unprotected);
    ThirdClock(f);
    ThirdClock(g);
    RateBits(f.rate, g.rate);
    hide ThirdByte;
  }

  lemma SecondClock(v: bv8, p: bv8, w: bv8, q: bv8)
    requires v <= 3 && w <= 3 && p <= 1 && q <= 1
    ensures (0xe2 | (v << 3) | p) & 0xfe == (0xe2 | (w << 3) | q) & 0xfe <==> v == w
  {
  }

  lemma ThirdClock(f: Frame)
    requires Allowed(f)
    ensures ThirdByte(f) & 0x0c == f.rate << 2
  {
  }

  lemma RateBits(r: bv8, s: bv8)
    requires r <= 2 && s <= 2
    ensures r << 2 == s << 2 <==> r == s
  {
  }

  lemma FrameRead(bytes: Bytes, offset: nat)
    requires FrameAt(bytes, offset).Some?
    ensures offset + 4 <= |bytes|
    ensures var f := FieldsOf(bytes[offset + 1], bytes[offset + 2]);
      FrameAs(bytes, offset, f) && FrameAt(bytes, offset) == Some((Length(f), ClockOf(f)))
  {
    ReadHeader(bytes[offset + 1], bytes[offset + 2]);
    LengthIs(FieldsOf(bytes[offset + 1], bytes[offset + 2]));
    hide Length, FrameLength, Allowed, FieldsOf, SecondByte, ThirdByte;
    StartsWithFf(bytes[offset], bytes[offset + 1], bytes[offset + 2]);
    hide Synchronised;
  }

  lemma StartsWithFf(a: bv8, b: bv8, c: bv8)
    ensures Synchronised(a, b, c) ==> a == 0xff && c >> 4 != 0 && c >> 4 != 15
  {
  }

  lemma FrameWritten(bytes: Bytes, offset: nat, f: Frame)
    requires FrameAs(bytes, offset, f)
    ensures FrameAt(bytes, offset) == Some((Length(f), ClockOf(f)))
  {
    WrittenHeader(f);
    LengthIs(f);
    hide Length, FrameLength, Allowed, FieldsOf, SecondByte, ThirdByte, Synchronised;
  }

  // ----- The tag

  /** Without a tag the frames start at once; else behind its ten bytes, its size in seven-bit digits and a footer. */
  predicate TagAs(bytes: Bytes, start: nat) {
    if |bytes| >= 3 && bytes[0] == 0x49 && bytes[1] == 0x44 && bytes[2] == 0x33 then
      |bytes| >= 10 && (bytes[3] == 3 || bytes[3] == 4)
      && bytes[6] <= 0x7f && bytes[7] <= 0x7f && bytes[8] <= 0x7f && bytes[9] <= 0x7f
      && start == 10 + 2_097_152 * Value(bytes[6]) + 16_384 * Value(bytes[7]) + 128 * Value(bytes[8]) + Value(bytes[9])
                  + if bytes[3] == 4 && Footer(bytes[5]) then 10 else 0
    else start == 0
  }

  predicate Footer(flags: bv8) {
    (flags >> 4) & 1 == 1
  }

  lemma HighBit(b: bv8)
    ensures b & 0x80 == 0 <==> b <= 0x7f
  {
  }

  lemma FooterBit(flags: bv8)
    ensures flags & 0x10 != 0 <==> Footer(flags)
  {
  }

  lemma TagSize(a: bv8, b: bv8, c: bv8, d: bv8)
    ensures Synchsafe(Synchsafe(Synchsafe(Synchsafe(0, a), b), c), d)
         == 2_097_152 * Value(a) + 16_384 * Value(b) + 128 * Value(c) + Value(d)
  {
    hide Value;
  }

  lemma TagIff(bytes: Bytes, start: nat)
    ensures TagAs(bytes, start) <==> Audio(bytes) == Some(start)
  {
    Prefixed(bytes);
    hide StartsWith;
    if |bytes| >= 10 {
      HighBit(bytes[6]);
      HighBit(bytes[7]);
      HighBit(bytes[8]);
      HighBit(bytes[9]);
      FooterBit(bytes[5]);
      TagSize(bytes[6], bytes[7], bytes[8], bytes[9]);
    }
    hide Synchsafe, Value, Footer;
  }

  lemma Prefixed(bytes: Bytes)
    ensures StartsWith(bytes, ID3) <==> |bytes| >= 3 && bytes[0] == 0x49 && bytes[1] == 0x44 && bytes[2] == 0x33
  {
    if |bytes| >= 3 {
      assert bytes[..3] == [bytes[0], bytes[1], bytes[2]];
    }
  }

  // ----- The whole check

  predicate TwoFrames(bytes: Bytes, start: nat, f: Frame, g: Frame) {
    TagAs(bytes, start) && FrameAs(bytes, start, f) && FrameAs(bytes, start + Length(f), g)
    && f.version == g.version && f.rate == g.rate
  }

  /** Any bytes pass exactly when two complete frames of one version and rate follow the tag, if there is one. */
  lemma AcceptsIff(bytes: Bytes)
    ensures Accepts(bytes) <==> exists start: nat, f, g :: TwoFrames(bytes, start, f, g)
  {
    hide FrameAs, FrameAt, TagAs, Audio, Length, ClockOf, Allowed;
    if Accepts(bytes) {
      var start := Audio(bytes).value;
      TagIff(bytes, start);
      FrameRead(bytes, start);
      var f := FieldsOf(bytes[start + 1], bytes[start + 2]);
      FrameRead(bytes, start + Length(f));
      var next := start + Length(f);
      var g := FieldsOf(bytes[next + 1], bytes[next + 2]);
      AllowedFrame(bytes, start, f);
      AllowedFrame(bytes, next, g);
      ClocksAgree(f, g);
      assert TwoFrames(bytes, start, f, g);
    }
    if start: nat, f, g :| TwoFrames(bytes, start, f, g) {
      TagIff(bytes, start);
      FrameWritten(bytes, start, f);
      FrameWritten(bytes, start + Length(f), g);
      AllowedFrame(bytes, start, f);
      AllowedFrame(bytes, start + Length(f), g);
      ClocksAgree(f, g);
    }
  }

  lemma AllowedFrame(bytes: Bytes, offset: nat, f: Frame)
    requires FrameAs(bytes, offset, f)
    ensures Allowed(f)
  {
  }
}
