/**
  What the Ogg check accepts, written out as bytes: the page with its fields and checksum, and
  the two identification headers (RFC 7845 section 5.1, Vorbis I section 4.2.2).
*/
module OggFile {
  import opened Bytes
  import opened OggCrc
  import opened OggPage

  // ----- Identification headers

  /** Version 1, one or two channels, eight bytes not looked at, channel mapping family 0. */
  predicate OpusAs(packet: Bytes, channels: bv8, other: Bytes) {
    1 <= channels <= 2 && |other| == 8
    && packet == [0x4f, 0x70, 0x75, 0x73, 0x48, 0x65, 0x61, 0x64] + [1, channels] + other + [0]
  }

  /** Version 0, up to eight channels, a sample rate, bitrates, two block sizes of 64 to 8192 in order, framing. */
  predicate VorbisAs(packet: Bytes, channels: bv8, rate: Bytes, bitrates: Bytes, short: bv8, long: bv8) {
    1 <= channels <= 8 && |rate| == 4 && rate != [0, 0, 0, 0] && |bitrates| == 12 && 6 <= short <= long <= 13
    && packet == [1, 0x76, 0x6f, 0x72, 0x62, 0x69, 0x73] + [0, 0, 0, 0] + [channels] + rate + bitrates
                 + [(long << 4) | short] + [1]
  }

  ghost predicate HeaderIs(packet: Bytes) {
    (exists channels, other :: OpusAs(packet, channels, other))
    || exists channels, rate, bitrates, short, long :: VorbisAs(packet, channels, rate, bitrates, short, long)
  }

  lemma OpusRead(packet: Bytes, channels: bv8, other: Bytes)
    requires OpusAs(packet, channels, other)
    ensures Identification(packet) && |packet| == 19
  {
    assert packet[..8] == OPUS_HEAD;
  }

  lemma OpusWritten(packet: Bytes)
    requires Identification(packet) && StartsWith(packet, OPUS_HEAD)
    ensures OpusAs(packet, packet[9], packet[10..18])
  {
    assert packet == packet[..8] + packet[8..10] + packet[10..18] + packet[18..19];
    assert packet[8..10] == [packet[8], packet[9]] && packet[18..19] == [packet[18]];
  }

  lemma Blocks(short: bv8, long: bv8)
    requires 6 <= short <= long <= 13
    ensures var b := (long << 4) | short; b & 15 == short && b >> 4 == long
  {
  }

  lemma BlocksRead(b: bv8)
    ensures b == ((b >> 4) << 4) | (b & 15)
  {
  }

  lemma VorbisRead(packet: Bytes, channels: bv8, rate: Bytes, bitrates: Bytes, short: bv8, long: bv8)
    requires VorbisAs(packet, channels, rate, bitrates, short, long)
    ensures Identification(packet) && |packet| == 30
  {
    Blocks(short, long);
    var blocks := (long << 4) | short;
    assert packet[..7] == VORBIS_HEAD && packet[7..11] == [0, 0, 0, 0] && packet[11] == channels;
    assert packet[12..16] == rate && packet[28] == blocks && packet[29] == 1;
    NotOpus(packet);
  }

  lemma NotOpus(packet: Bytes)
    requires |packet| >= 7 && packet[..7] == VORBIS_HEAD
    ensures !StartsWith(packet, OPUS_HEAD)
  {
    assert packet[0] == packet[..7][0] == 1;
    if |packet| >= 8 {
      assert packet[..8][0] == 1;
    }
  }

  lemma VorbisWritten(packet: Bytes)
    requires Identification(packet) && !StartsWith(packet, OPUS_HEAD)
    ensures VorbisAs(packet, packet[11], packet[12..16], packet[16..28], packet[28] & 15, packet[28] >> 4)
  {
    BlocksRead(packet[28]);
    assert packet == packet[..7] + packet[7..11] + packet[11..12] + packet[12..16] + packet[16..28] + packet[28..29]
                     + packet[29..30];
    assert packet[11..12] == [packet[11]] && packet[28..29] == [packet[28]] && packet[29..30] == [packet[29]];
  }

  /** A packet identifies a codec exactly when it is laid out as an Opus or a Vorbis header with allowed fields. */
  lemma IdentificationIff(packet: Bytes)
    ensures Identification(packet) <==> HeaderIs(packet)
  {
    hide Identification, OpusAs, VorbisAs, StartsWith;
    if Identification(packet) {
      if StartsWith(packet, OPUS_HEAD) {
        OpusWritten(packet);
      } else {
        VorbisWritten(packet);
      }
    }
    if channels, other :| OpusAs(packet, channels, other) {
      OpusRead(packet, channels, other);
    }
    if channels, rate, bitrates, short, long :| VorbisAs(packet, channels, rate, bitrates, short, long) {
      VorbisRead(packet, channels, rate, bitrates, short, long);
    }
  }

  // ----- The page

  /** Capture pattern, version 0, first page, position 0, serial number, sequence number 0, checksum, lacing, body. */
  function Page(serial: Bytes, checksum: Bytes, count: bv8, lacing: Bytes, body: Bytes): Bytes {
    [0x4f, 0x67, 0x67, 0x53, 0, 2] + [0, 0, 0, 0, 0, 0, 0, 0] + serial + [0, 0, 0,
        0] + checksum + [count] + lacing + body
  }

  /** The checksum of a page is taken with zeros in its place and stored least significant byte first. */
  predicate PageAs(bytes: Bytes, serial: Bytes, checksum: Bytes, count: bv8, lacing: Bytes, body: Bytes, rest: Bytes) {
    |serial| == 4 && |checksum| == 4 && 1 <= |lacing| == Value(count) && lacing[|lacing| - 1] != 255
    && |body| == Sum(lacing) && bytes == Page(serial, checksum, count, lacing, body) + rest
    && checksum == LittleEndian(Register(0, Page(serial, [0, 0, 0, 0], count, lacing, body)))
  }

  /** The first packet is as long as its lacing value says, and is an identification header. */
  ghost predicate BeginsWithHeader(lacing: Bytes, body: Bytes) {
    exists packet, more :: body == packet + more && lacing != [] && Value(lacing[0]) == |packet| && HeaderIs(packet)
  }

  lemma SmallFirst(lacing: Bytes, n: nat)
    requires n < 255 && lacing != []
    ensures FirstPacket(lacing) == n <==> Value(lacing[0]) == n
  {
  }

  lemma HeaderLength(packet: Bytes)
    requires Identification(packet)
    ensures |packet| == 19 || |packet| == 30
  {
  }

  lemma BodyIff(lacing: Bytes, body: Bytes)
    requires lacing != [] && |body| == Sum(lacing)
    ensures FirstPacket(lacing) <= |body|
    ensures BeginsWithHeader(lacing, body) <==> Identification(body[..FirstPacket(lacing)])
  {
    FirstPacketInPage(lacing);
    hide Identification, HeaderIs, FirstPacket, Sum;
    var first := body[..FirstPacket(lacing)];
    if Identification(first) {
      HeaderLength(first);
      SmallFirst(lacing, |first|);
      IdentificationIff(first);
      assert body == first + body[|first|..];
    }
    if packet, more :| body == packet + more && Value(lacing[0]) == |packet| && HeaderIs(packet) {
      IdentificationIff(packet);
      HeaderLength(packet);
      SmallFirst(lacing, |packet|);
      assert first == packet;
    }
  }

  lemma PageFields(serial: Bytes, checksum: Bytes, count: bv8, lacing: Bytes, body: Bytes, rest: Bytes)
    requires |serial| == 4 && |checksum| == 4 && 1 <= |lacing| == Value(count)
    ensures var bytes := Page(serial, checksum, count, lacing, body) + rest;
      |bytes| == 27 + |lacing| + |body| + |rest| && bytes[..6] == [0x4f, 0x67, 0x67, 0x53, 0, 2]
      && bytes[6..14] == [0, 0, 0, 0, 0, 0, 0, 0] && bytes[14..18] == serial && bytes[18..22] == [0, 0, 0, 0]
      && bytes[22..26] == checksum && bytes[26] == count && bytes[27..27 + |lacing|] == lacing
      && bytes[27 + |lacing|..27 + |lacing| + |body|] == body
  {
  }

  lemma PageCut(bytes: Bytes, count: nat, body: nat)
    requires |bytes| >= 27 + count + body
    ensures bytes[..27 + count + body]
         == bytes[..6] + bytes[6..14] + bytes[14..18] + bytes[18..22] + bytes[22..26] + [bytes[26]]
            + bytes[27..27 + count] + bytes[27 + count..27 + count + body]
  {
  }

  lemma Zeroed(head: Bytes, checksum: Bytes, tail: Bytes)
    requires |head| == 22 && |checksum| == 4
    ensures |head + checksum + tail| >= 26 && Unsigned(head + checksum + tail) == head + [0, 0, 0, 0] + tail
  {
    var page := head + checksum + tail;
    assert page[..22] == head && page[26..] == tail;
  }

  lemma Grouped(serial: Bytes, checksum: Bytes, count: bv8, lacing: Bytes, body: Bytes)
    ensures Page(serial, checksum, count, lacing, body)
         == [0x4f, 0x67, 0x67, 0x53, 0, 2, 0, 0, 0, 0, 0, 0, 0, 0] + serial + [0, 0, 0, 0] + checksum
            + ([count] + lacing + body)
  {
    assert [0x4f, 0x67, 0x67, 0x53, 0, 2] + [0, 0, 0, 0, 0, 0, 0, 0]
        == [0x4f, 0x67, 0x67, 0x53, 0, 2, 0, 0, 0, 0, 0, 0, 0, 0];
    var head := [0x4f, 0x67, 0x67, 0x53, 0, 2] + [0, 0, 0, 0, 0, 0, 0, 0] + serial + [0, 0, 0, 0] + checksum;
    assert head + [count] + lacing + body == head + ([count] + lacing + body);
  }

  lemma UnsignedPage(serial: Bytes, checksum: Bytes, count: bv8, lacing: Bytes, body: Bytes)
    requires |serial| == 4 && |checksum| == 4
    ensures var page := Page(serial, checksum, count, lacing, body);
      |page| >= 26 && Unsigned(page) == Page(serial, [0, 0, 0, 0], count, lacing, body)
  {
    hide Page, Unsigned;
    Grouped(serial, checksum, count, lacing, body);
    Grouped(serial, [0, 0, 0, 0], count, lacing, body);
    var head := [0x4f, 0x67, 0x67, 0x53, 0, 2, 0, 0, 0, 0, 0, 0, 0, 0] + serial + [0, 0, 0, 0];
    Zeroed(head, checksum, [count] + lacing + body);
  }

  lemma SignedIff(page: Bytes, serial: Bytes, checksum: Bytes, count: bv8, lacing: Bytes, body: Bytes)
    requires |serial| == 4 && |checksum| == 4 && 1 <= |lacing| == Value(count)
    requires page == Page(serial, checksum, count, lacing, body)
    ensures |page| == 27 + |lacing| + |body|
    ensures Signed(page) <==> checksum == LittleEndian(Register(0, Page(serial, [0, 0, 0, 0], count, lacing, body)))
  {
    hide Page, Unsigned, Register, LittleEndian;
    UnsignedPage(serial, checksum, count, lacing, body);
    PageFields(serial, checksum, count, lacing, body, []);
    assert page + [] == page;
  }

  /** A page as written that begins with an identification header. */
  ghost predicate FileAs(bytes: Bytes, serial: Bytes, checksum: Bytes, count: bv8, lacing: Bytes, body: Bytes,
                         rest: Bytes)
  {
    PageAs(bytes, serial, checksum, count, lacing, body, rest) && BeginsWithHeader(lacing, body)
  }

  lemma SignedPage(bytes: Bytes, serial: Bytes, checksum: Bytes, count: bv8, lacing: Bytes, body: Bytes, rest: Bytes)
    requires PageAs(bytes, serial, checksum, count, lacing, body, rest)
    ensures |bytes| >= 27 + |lacing| + |body| && |bytes[..27 + |lacing| + |body|]| >= 26
    ensures Signed(bytes[..27 + |lacing| + |body|])
  {
    hide Sum, Signed, Page, Register, LittleEndian;
    var page := Page(serial, checksum, count, lacing, body);
    SignedIff(page, serial, checksum, count, lacing, body);
    assert bytes[..|page|] == page;
  }

  lemma PageRead(bytes: Bytes, serial: Bytes, checksum: Bytes, count: bv8, lacing: Bytes, body: Bytes, rest: Bytes)
    requires FileAs(bytes, serial, checksum, count, lacing, body, rest)
    ensures Accepts(bytes)
  {
    hide Identification, HeaderIs, Register, LittleEndian, Sum, FirstPacket, Page, Signed, BeginsWithHeader, Count,
      Value, Accepts;
    PageFields(serial, checksum, count, lacing, body, rest);
    SignedPage(bytes, serial, checksum, count, lacing, body, rest);
    BodyIff(lacing, body);
    LastLacing(bytes, lacing);
    Nested(bytes, 27 + |lacing|, 27 + |lacing| + |body|, FirstPacket(lacing));
    CountIs(bytes);
    hide PageAs;
    Accepted(bytes, lacing, body);
  }

  lemma CountIs(bytes: Bytes)
    requires |bytes| >= 27
    ensures Count(bytes) == Value(bytes[26])
  {
  }

  lemma Accepted(bytes: Bytes, lacing: Bytes, body: Bytes)
    requires FixedHeader(bytes) && HasLacing(bytes) && lacing == Lacing(bytes) && |body| == Sum(lacing)
    requires |bytes| >= PageEnd(bytes) && Signed(bytes[..PageEnd(bytes)]) && FirstPacket(lacing) <= |body|
    requires Identification(bytes[BodyStart(bytes)..BodyStart(bytes) + FirstPacket(lacing)])
    ensures Accepts(bytes)
  {
    hide Identification, Sum, FirstPacket, Signed, FixedHeader, HasLacing;
  }

  lemma Nested(bytes: Bytes, a: nat, b: nat, k: nat)
    requires a + k <= b <= |bytes|
    ensures bytes[a..b][..k] == bytes[a..a + k]
  {
  }

  lemma LastLacing(bytes: Bytes, lacing: Bytes)
    requires lacing != [] && |bytes| >= 27 + |lacing| && bytes[27..27 + |lacing|] == lacing
    ensures bytes[27 + |lacing| - 1] == lacing[|lacing| - 1]
  {
  }

  lemma HeaderWritten(bytes: Bytes)
    requires Accepts(bytes)
    ensures BeginsWithHeader(Lacing(bytes), bytes[BodyStart(bytes)..PageEnd(bytes)])
  {
    hide Identification, HeaderIs, Signed, Sum, FirstPacket, BeginsWithHeader, FixedHeader;
    var lacing, body := Lacing(bytes), bytes[BodyStart(bytes)..PageEnd(bytes)];
    var start := BodyStart(bytes);
    BodyIff(lacing, body);
    Nested(bytes, start, PageEnd(bytes), FirstPacket(lacing));
  }

  lemma PageWritten(bytes: Bytes)
    requires Accepts(bytes)
    ensures exists serial, checksum, count, lacing, body, rest ::
      FileAs(bytes, serial, checksum, count, lacing, body, rest)
  {
    hide Accepts, PageAs, BeginsWithHeader;
    PageIsThere(bytes);
    HeaderWritten(bytes);
    var lacing, body := Lacing(bytes), bytes[BodyStart(bytes)..PageEnd(bytes)];
    var rest := bytes[PageEnd(bytes)..];
    PagePrinted(bytes, lacing, body, rest);
    assert FileAs(bytes, bytes[14..18], bytes[22..26], bytes[26], lacing, body, rest);
  }

  lemma PageIsThere(bytes: Bytes)
    requires Accepts(bytes)
    ensures FixedHeader(bytes) && HasLacing(bytes) && |bytes| >= PageEnd(bytes) && Signed(bytes[..PageEnd(bytes)])
    ensures |Lacing(bytes)| == Count(bytes) == Value(bytes[26])
    ensures |bytes[BodyStart(bytes)..PageEnd(bytes)]| == Sum(Lacing(bytes))
  {
    hide Identification, Sum, Signed;
  }

  lemma PagePrinted(bytes: Bytes, lacing: Bytes, body: Bytes, rest: Bytes)
    requires FixedHeader(bytes) && HasLacing(bytes) && |bytes| >= PageEnd(bytes) && Signed(bytes[..PageEnd(bytes)])
    requires lacing == Lacing(bytes) && 1 <= |lacing| == Value(bytes[26])
    requires body == bytes[BodyStart(bytes)..PageEnd(bytes)] && |body| == Sum(lacing) && rest == bytes[PageEnd(bytes)..]
    ensures PageAs(bytes, bytes[14..18], bytes[22..26], bytes[26], lacing, body, rest)
  {
    hide Sum, Signed, Page, Register, LittleEndian, FixedHeader, Count, Value, PageAs;
    CountIs(bytes);
    LastOfLacing(bytes);
    AsPage(bytes, |lacing|, |body|);
    Whole(bytes, PageEnd(bytes));
    FieldLengths(bytes);
    MakePage(bytes, bytes[14..18], bytes[22..26], bytes[26], lacing, body, rest, bytes[..PageEnd(bytes)]);
  }

  lemma LastOfLacing(bytes: Bytes)
    requires |bytes| >= 27 && HasLacing(bytes)
    ensures Lacing(bytes) != [] && Lacing(bytes)[|Lacing(bytes)| - 1] != 255
  {
    LastLacing(bytes, Lacing(bytes));
  }

  lemma Whole(bytes: Bytes, n: nat)
    requires n <= |bytes|
    ensures bytes == bytes[..n] + bytes[n..]
  {
  }

  lemma FieldLengths(bytes: Bytes)
    requires |bytes| >= 27
    ensures |bytes[14..18]| == 4 && |bytes[22..26]| == 4
  {
  }

  lemma MakePage(bytes: Bytes, serial: Bytes, checksum: Bytes, count: bv8, lacing: Bytes, body: Bytes, rest: Bytes,
                 page: Bytes)
    requires |serial| == 4 && |checksum| == 4 && 1 <= |lacing| == Value(count) && lacing[|lacing| - 1] != 255
    requires |body| == Sum(lacing) && page == Page(serial, checksum, count, lacing, body) && bytes == page + rest
    requires |page| >= 26 && Signed(page)
    ensures PageAs(bytes, serial, checksum, count, lacing, body, rest)
  {
    hide Sum, Signed, Page, Register, LittleEndian;
    SignedIff(page, serial, checksum, count, lacing, body);
  }

  lemma AsPage(bytes: Bytes, count: nat, body: nat)
    requires FixedHeader(bytes) && |bytes| >= 27 + count + body
    ensures bytes[..27 + count + body]
         == Page(bytes[14..18], bytes[22..26], bytes[26], bytes[27..27 + count], bytes[27 + count..27 + count + body])
  {
    PageCut(bytes, count, body);
  }

  /** Any bytes pass exactly when they start with a page written like this whose first packet is such a header. */
  lemma AcceptsIff(bytes: Bytes)
    ensures Accepts(bytes) <==>
      exists serial, checksum, count, lacing, body, rest :: FileAs(bytes, serial, checksum, count, lacing, body, rest)
  {
    hide FileAs, Accepts;
    if Accepts(bytes) {
      PageWritten(bytes);
    }
    if serial, checksum, count, lacing, body, rest :| FileAs(bytes, serial, checksum, count, lacing, body, rest) {
      PageRead(bytes, serial, checksum, count, lacing, body, rest);
    }
  }

  // ----- The parts

  lemma {:induction false} SumOfConcat(first: Bytes, second: Bytes)
    ensures Sum(first + second) == Sum(first) + Sum(second)
    ensures |first| == 1 ==> Sum(first) == Value(first[0])
  {
    if first == [] {
      assert first + second == second;
    } else {
      SumOfConcat(first[1..], second);
      assert (first + second)[1..] == first[1..] + second;
    }
  }

  /** The polynomial: a message of one set bit leaves it in the register. */
  lemma OneBitLeavesPolynomial()
    ensures Register(0, [1]) == 0x04c1_1db7 && LittleEndian(0x0102_0304) == [4, 3, 2, 1]
  {
    assert Register(0, [1][..0]) == 0;
    assert Register(0, [1]) == Feed(0, 1);
    OneBitFed();
  }

  lemma OneBitFed()
    ensures Feed(0, 1) == 0x04c1_1db7
  {
    assert Plus(0, Top(1)) == 0x0100_0000;
    assert Shifts(0, 0x0100_0000) == 0x0100_0000;
    assert Shifts(1, 0x0100_0000) == 0x0200_0000;
    assert Shifts(2, 0x0100_0000) == 0x0400_0000;
    assert Shifts(3, 0x0100_0000) == 0x0800_0000;
    assert Shifts(4, 0x0100_0000) == 0x1000_0000;
    assert Shifts(5, 0x0100_0000) == 0x2000_0000;
    assert Shifts(6, 0x0100_0000) == 0x4000_0000;
    assert Shifts(7, 0x0100_0000) == 0x8000_0000;
  }
}
