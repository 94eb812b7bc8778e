/**
  The check on the first page of an Ogg stream: a complete page with a correct checksum
  (RFC 3533 section 6) whose first packet is an Opus or Vorbis identification header.
*/
module OggPage {
  import opened Bytes
  import opened OggCrc
  import opened OggBits

  const OGG_FIRST_PAGE: Bytes := [0x4f, 0x67, 0x67, 0x53, 0, 2]
  const OPUS_HEAD: Bytes := [0x4f, 0x70, 0x75, 0x73, 0x48, 0x65, 0x61, 0x64]
  const VORBIS_HEAD: Bytes := [1, 0x76, 0x6f, 0x72, 0x62, 0x69, 0x73]

  function Sum(lacing: Bytes): nat {
    if lacing == [] then 0 else lacing[0] as nat + Sum(lacing[1..])
  }

  /** Length of the first packet: its run of 255s and the value that ends it. */
  function FirstPacket(lacing: Bytes): nat {
    if lacing == [] then 0
    else if lacing[0] == 255 then 255 + FirstPacket(lacing[1..])
    else lacing[0] as nat
  }

  lemma {:induction false} FirstPacketInPage(lacing: Bytes)
    ensures FirstPacket(lacing) <= Sum(lacing)
  {
    if lacing != [] {
      FirstPacketInPage(lacing[1..]);
    }
  }

  function LittleEndian(crc: bv32): Bytes {
    [(crc & 0xff) as bv8, ((crc >> 8) & 0xff) as bv8, ((crc >> 16) & 0xff) as bv8, ((crc >> 24) & 0xff) as bv8]
  }

  /** The checksum field counts as zero while the checksum is taken. */
  function Unsigned(page: Bytes): Bytes
    requires |page| >= 26
  {
    page[..22] + [0, 0, 0, 0] + page[26..]
  }

  predicate FixedHeader(bytes: Bytes) {
    |bytes| >= 27 && bytes[..6] == OGG_FIRST_PAGE && bytes[6..14] == [0, 0, 0, 0, 0, 0, 0, 0]
    && bytes[18..22] == [0, 0, 0, 0]
  }

  function Count(bytes: Bytes): nat
    requires |bytes| >= 27
  {
    bytes[26] as nat
  }

  predicate HasLacing(bytes: Bytes)
    requires |bytes| >= 27
  {
    |bytes| >= 27 + Count(bytes) && Count(bytes) > 0 && bytes[27 + Count(bytes) - 1] != 255
  }

  function Lacing(bytes: Bytes): Bytes
    requires |bytes| >= 27 && |bytes| >= 27 + Count(bytes)
  {
    bytes[27..27 + Count(bytes)]
  }

  /** Where the body begins, and where the page ends. */
  function BodyStart(bytes: Bytes): nat
    requires |bytes| >= 27
  {
    27 + Count(bytes)
  }

  function PageEnd(bytes: Bytes): nat
    requires |bytes| >= 27 && |bytes| >= 27 + Count(bytes)
  {
    BodyStart(bytes) + Sum(Lacing(bytes))
  }

  predicate Signed(page: Bytes)
    requires |page| >= 26
  {
    page[22..26] == LittleEndian(Register(0, Unsigned(page)))
  }

  predicate Identification(packet: Bytes) {
    if StartsWith(packet, OPUS_HEAD) then
      |packet| == 19 && packet[8] == 1 && 1 <= packet[9] <= 2 && packet[18] == 0
    else
      |packet| == 30 && StartsWith(packet, VORBIS_HEAD) && packet[7..11] == [0, 0, 0, 0]
      && 1 <= packet[11] <= 8 && packet[12..16] != [0, 0, 0, 0]
      && 6 <= packet[28] & 15 <= 13 && (packet[28] & 15) <= packet[28] >> 4 <= 13 && packet[29] == 1
  }

  predicate Accepts(bytes: Bytes) {
    FixedHeader(bytes) && HasLacing(bytes) && |bytes| >= PageEnd(bytes) && Signed(bytes[..PageEnd(bytes)])
    && (FirstPacketInPage(Lacing(bytes));
        Identification(bytes[BodyStart(bytes)..BodyStart(bytes) + FirstPacket(Lacing(bytes))]))
  }

  // ----- The loops

  method Checksum(page: Bytes) returns (crc: bv32)
    requires |page| >= 26
    ensures crc == Register(0, Unsigned(page))
  {
    hide Feed, Shift;
    crc := 0;
    ghost var message := Unsigned(page);
    for i := 0 to |page|
      invariant crc == Register(0, message[..i])
    {
      var byte := if 22 <= i < 26 then 0 else page[i];
      assert byte == message[i];
      assert message[..i + 1][..i] == message[..i];
      crc := FeedByte(crc, byte);
    }
    assert message[..|page|] == message;
  }

  method FeedByte(start: bv32, byte: bv8) returns (crc: bv32)
    ensures crc == Feed(start, byte)
  {
    SumOfTop(start, byte);
    hide Plus, Shift;
    crc := start ^ ((byte as bv32) << 24);
    for n := 0 to 8
      invariant crc == Shifts(n, Plus(start, Top(byte)))
    {
      ShiftAsBits(crc);
      crc := (crc << 1) ^ (if crc & 0x8000_0000 != 0 then 0x04c1_1db7 else 0);
    }
  }

  lemma SumOfTop(start: bv32, byte: bv8)
    ensures Plus(start, Top(byte)) == start ^ ((byte as bv32) << 24)
  {
  }

  lemma ShiftAsBits(crc: bv32)
    ensures Shift(crc) == (crc << 1) ^ (if crc & 0x8000_0000 != 0 then 0x04c1_1db7 else 0)
  {
    hide Shift;
    if crc & 0x8000_0000 != 0 {
      ShiftWithFeedback(crc);
    } else {
      ShiftWithout(crc);
    }
  }

  method OggPrefix(bytes: Bytes) returns (ok: bool)
    ensures ok <==> Accepts(bytes)
  {
    if !FixedHeader(bytes) || !HasLacing(bytes) || |bytes| < PageEnd(bytes) {
      return false;
    }
    var page := bytes[..PageEnd(bytes)];
    var crc := Checksum(page);
    if page[22..26] != LittleEndian(crc) {
      return false;
    }
    FirstPacketInPage(Lacing(bytes));
    return Identification(bytes[BodyStart(bytes)..BodyStart(bytes) + FirstPacket(Lacing(bytes))]);
  }

  // ----- Damage is detected

  lemma LittleEndianIsInjective(a: bv32, b: bv32)
    requires LittleEndian(a) == LittleEndian(b)
    ensures a == b
  {
    assert LittleEndian(a)[0] == LittleEndian(b)[0] && LittleEndian(a)[1] == LittleEndian(b)[1];
    assert LittleEndian(a)[2] == LittleEndian(b)[2] && LittleEndian(a)[3] == LittleEndian(b)[3];
  }

  lemma SignatureDecides(bytes: Bytes, damaged: Bytes, end: nat)
    requires Accepts(bytes) && end == PageEnd(bytes) && |damaged| == |bytes|
    requires Count(damaged) == Count(bytes) && Lacing(damaged) == Lacing(bytes) && damaged[22..26] == bytes[22..26]
    requires Register(0, Unsigned(damaged[..end])) != Register(0, Unsigned(bytes[..end]))
    ensures !Accepts(damaged)
  {
    hide Register, LittleEndian, Identification;
    assert damaged[..end][22..26] == damaged[22..26] && bytes[..end][22..26] == bytes[22..26];
    if Accepts(damaged) {
      LittleEndianIsInjective(Register(0, Unsigned(damaged[..end])), Register(0, Unsigned(bytes[..end])));
    }
  }

  lemma EqualTails(bytes: Bytes, other: Bytes, from: nat, a: nat, b: nat)
    requires |bytes| == |other| && from <= a <= b <= |bytes| && bytes[from..] == other[from..]
    ensures bytes[a..b] == other[a..b]
  {
    assert bytes[from..][a - from..b - from] == bytes[a..b];
    assert other[from..][a - from..b - from] == other[a..b];
  }

  lemma SameMessage(bytes: Bytes, other: Bytes, end: nat)
    requires |bytes| == |other| && 26 <= end <= |bytes| && bytes[..22] == other[..22] && bytes[26..] == other[26..]
    ensures Unsigned(bytes[..end]) == Unsigned(other[..end])
  {
    EqualTails(bytes, other, 26, 26, end);
    assert bytes[..end][..22] == bytes[..22] && other[..end][..22] == other[..22];
    assert bytes[..end][26..] == bytes[26..end] && other[..end][26..] == other[26..end];
  }

  /** Page against damaged page, byte by byte: a difference in a byte is a difference in one of its bits. */
  lemma ByteDiffers(a: Bytes, b: Bytes, k: nat) returns (j: nat)
    requires |a| == |b| && k < |a| && a[k] != b[k]
    ensures j < 8 && |Bits(a)| == |Bits(b)| == 8 * |a| && Bits(a)[8 * k + j] != Bits(b)[8 * k + j]
  {
    hide BitsOf, Bits;
    EightBits(a[k]);
    EightBits(b[k]);
    if BitsOf(a[k]) == BitsOf(b[k]) {
      BitsOfIsInjective(a[k], b[k]);
    }
    j :| 0 <= j < 8 && BitsOf(a[k])[j] != BitsOf(b[k])[j];
    BitAt(a, k, j);
    BitAt(b, k, j);
  }

  lemma MessageAt(page: Bytes, k: nat)
    requires 26 <= |page| && k < |page|
    ensures |Unsigned(page)| == |page| && Unsigned(page)[k] == if 22 <= k < 26 then 0 else page[k]
  {
  }

  /** With the checksum field intact, the messages differ in the same burst as the pages. */
  lemma MessagesInBurst(page: Bytes, damaged: Bytes, f: nat)
    requires 26 <= |page| == |damaged| && page != damaged && page[22..26] == damaged[22..26]
    requires InBurst(Bits(page), Bits(damaged), f)
    ensures |Unsigned(page)| == |Unsigned(damaged)| && Unsigned(page) != Unsigned(damaged)
    ensures InBurst(Bits(Unsigned(page)), Bits(Unsigned(damaged)), f)
  {
    hide Bits, BitsOf, Unsigned;
    MessageAt(page, 0);
    MessageAt(damaged, 0);
    BitsLength(page);
    BitsLength(Unsigned(page));
    BitsLength(Unsigned(damaged));
    var a, b := Bits(Unsigned(page)), Bits(Unsigned(damaged));
    forall i | 0 <= i < |a| && a[i] != b[i] ensures f <= i < f + 32 {
      var k, j := i / 8, i % 8;
      BitAt(Unsigned(page), k, j);
      BitAt(Unsigned(damaged), k, j);
      BitAt(page, k, j);
      BitAt(damaged, k, j);
      MessageAt(page, k);
      MessageAt(damaged, k);
      assert i == 8 * k + j;
    }
    var k := FirstDifference(page, damaged);
    SameField(page, damaged, k);
    MessageAt(page, k);
    MessageAt(damaged, k);
  }

  lemma SameField(page: Bytes, damaged: Bytes, k: nat)
    requires 26 <= |page| == |damaged| && page[22..26] == damaged[22..26]
    ensures 22 <= k < 26 ==> page[k] == damaged[k]
  {
    assert 22 <= k < 26 ==> page[k] == page[22..26][k - 22] && damaged[k] == damaged[22..26][k - 22];
  }

  lemma FirstDifference(a: Bytes, b: Bytes) returns (k: nat)
    requires |a| == |b| && a != b
    ensures k < |a| && a[k] != b[k]
  {
    k :| k < |a| && a[k] != b[k];
  }

  lemma LayoutFrom26(bytes: Bytes, damaged: Bytes)
    requires |bytes| == |damaged| && |bytes| >= 27 && |bytes| >= BodyStart(bytes)
    requires damaged[26..BodyStart(bytes)] == bytes[26..BodyStart(bytes)]
    ensures Count(damaged) == Count(bytes) && Lacing(damaged) == Lacing(bytes)
  {
    assert bytes[26..BodyStart(bytes)][0] == damaged[26..BodyStart(bytes)][0];
    assert bytes[26..BodyStart(bytes)][1..] == Lacing(bytes);
    assert damaged[26..BodyStart(bytes)][1..] == damaged[27..BodyStart(bytes)];
  }

  lemma BurstInMessage(bytes: Bytes, damaged: Bytes, f: nat)
    requires Accepts(bytes) && |damaged| == |bytes| && damaged[22..26] == bytes[22..26]
    requires damaged[26..BodyStart(bytes)] == bytes[26..BodyStart(bytes)]
    requires damaged[..PageEnd(bytes)] != bytes[..PageEnd(bytes)]
    requires InBurst(Bits(bytes[..PageEnd(bytes)]), Bits(damaged[..PageEnd(bytes)]), f)
    ensures !Accepts(damaged)
  {
    var end := PageEnd(bytes);
    hide Register, Identification, Bits, InBurst, LittleEndian;
    LayoutFrom26(bytes, damaged);
    assert bytes[..end][22..26] == bytes[22..26] && damaged[..end][22..26] == damaged[22..26];
    MessagesInBurst(bytes[..end], damaged[..end], f);
    BitBurstChangesRegister(Unsigned(bytes[..end]), Unsigned(damaged[..end]), f);
    SignatureDecides(bytes, damaged, end);
  }

  /** The checksum field may differ; the message then decides. */
  lemma SameMessageIsRejected(bytes: Bytes, damaged: Bytes)
    requires Accepts(bytes) && |damaged| == |bytes| && damaged[22..26] != bytes[22..26]
    requires damaged[..22] == bytes[..22] && damaged[26..PageEnd(bytes)] == bytes[26..PageEnd(bytes)]
    requires damaged[26..BodyStart(bytes)] == bytes[26..BodyStart(bytes)]
    ensures !Accepts(damaged)
  {
    hide Register, LittleEndian, Identification;
    var end := PageEnd(bytes);
    LayoutFrom26(bytes, damaged);
    assert damaged[..end][..22] == damaged[..22] && bytes[..end][..22] == bytes[..22];
    assert damaged[..end][26..] == damaged[26..end] && bytes[..end][26..] == bytes[26..end];
    assert Unsigned(damaged[..end]) == Unsigned(bytes[..end]);
    hide Unsigned;
    assert damaged[..end][22..26] == damaged[22..26] && bytes[..end][22..26] == bytes[22..26];
  }

  /** Any change of the checksum field alone is rejected. */
  lemma ChecksumDamageIsDetected(bytes: Bytes, damaged: Bytes)
    requires Accepts(bytes) && |damaged| == |bytes| && damaged[22..26] != bytes[22..26]
    requires damaged[..22] == bytes[..22] && damaged[26..] == bytes[26..]
    ensures !Accepts(damaged)
  {
    PageIsLong(bytes);
    hide Accepts, PageEnd;
    EqualTails(bytes, damaged, 26, 26, PageEnd(bytes));
    EqualTails(bytes, damaged, 26, 26, BodyStart(bytes));
    SameMessageIsRejected(bytes, damaged);
  }

  /** A burst that reaches the checksum field from below starts in the sequence number, which must be zero. */
  lemma BurstFromBelow(bytes: Bytes, damaged: Bytes, f: nat, end: nat, q: nat)
    requires FixedHeader(bytes) && |damaged| == |bytes| && 27 <= end <= |bytes| && q < 22
    requires damaged[q] != bytes[q] && damaged[22..26] != bytes[22..26]
    requires InBurst(Bits(bytes[..end]), Bits(damaged[..end]), f)
    ensures !FixedHeader(damaged)
  {
    hide Bits;
    var page, other := bytes[..end], damaged[..end];
    var k := FirstDifference(bytes[22..26], damaged[22..26]);
    assert page[22 + k] != other[22 + k] && page[q] != other[q];
    var i := ByteDiffers(page, other, q);
    var j := ByteDiffers(page, other, 22 + k);
    assert q >= 18;
    assert bytes[18..22][q - 18] == 0 && damaged[18..22][q - 18] != 0;
  }

  lemma EqualJoined(a: Bytes, b: Bytes, x: nat, y: nat, z: nat)
    requires |a| == |b| && x <= y <= z <= |a| && a[x..y] == b[x..y] && a[y..z] == b[y..z]
    ensures a[x..z] == b[x..z]
  {
    assert a[x..z] == a[x..y] + a[y..z] && b[x..z] == b[x..y] + b[y..z];
  }

  /** The length of an identification packet, 19 or 30, fixes how it begins. */
  lemma MagicByLength(p: Bytes, q: Bytes)
    requires Identification(p) && Identification(q) && |p| == |q|
    ensures |p| >= 7 && p[..7] == q[..7]
  {
    if |p| == 19 {
      assert p[..8][..7] == p[..7] && q[..8][..7] == q[..7];
    }
  }

  /** Two bytes damaged by one burst are at most four apart. */
  lemma BurstSpansFive(a: Bytes, b: Bytes, f: nat, k: nat, q: nat)
    requires |a| == |b| && k < q < |a| && a[k] != b[k] && a[q] != b[q] && InBurst(Bits(a), Bits(b), f)
    ensures q <= k + 4
  {
    hide Bits;
    var i := ByteDiffers(a, b, k);
    var j := ByteDiffers(a, b, q);
  }

  lemma PacketBegins(bytes: Bytes, damaged: Bytes)
    requires Accepts(bytes) && Accepts(damaged) && |damaged| == |bytes|
    requires Count(damaged) == Count(bytes) && Lacing(damaged) == Lacing(bytes)
    ensures var start := BodyStart(bytes); |bytes| >= start + 7 && damaged[start..start + 7] == bytes[start..start + 7]
  {
    hide Register, Signed, FixedHeader, HasLacing, Identification;
    FirstPacketInPage(Lacing(bytes));
    var a, b := BodyStart(bytes), BodyStart(bytes) + FirstPacket(Lacing(bytes));
    MagicByLength(bytes[a..b], damaged[a..b]);
    assert bytes[a..b][..7] == bytes[a..a + 7] && damaged[a..b][..7] == damaged[a..a + 7];
  }

  lemma EarlyBodyDamage(bytes: Bytes, damaged: Bytes, start: nat, end: nat, f: nat) returns (q: nat)
    requires 28 <= start <= end <= |bytes| == |damaged| && damaged[22..26] != bytes[22..26]
    requires damaged[start..end] != bytes[start..end] && InBurst(Bits(bytes[..end]), Bits(damaged[..end]), f)
    ensures start <= q < start + 2 && q < end && bytes[q] != damaged[q]
  {
    hide Bits, InBurst;
    var k := FirstDifference(bytes[22..26], damaged[22..26]);
    var i := FirstDifference(bytes[start..end], damaged[start..end]);
    q := start + i;
    var page, other := bytes[..end], damaged[..end];
    assert page[22 + k] != other[22 + k] && page[q] != other[q];
    BurstSpansFive(page, other, f, 22 + k, q);
  }

  lemma DamagedMagicIsRejected(bytes: Bytes, damaged: Bytes, q: nat)
    requires Accepts(bytes) && |damaged| == |bytes| && BodyStart(bytes) <= q < BodyStart(bytes) + 7 && q < |bytes|
    requires Count(damaged) == Count(bytes) && Lacing(damaged) == Lacing(bytes) && bytes[q] != damaged[q]
    ensures !Accepts(damaged)
  {
    if Accepts(damaged) {
      PacketBegins(bytes, damaged);
    }
  }

  /** A burst that reaches checksum and body at once damages the first two bytes of the packet's magic. */
  lemma BurstFromField(bytes: Bytes, damaged: Bytes, f: nat, end: nat)
    requires Accepts(bytes) && |damaged| == |bytes| && end == PageEnd(bytes) && damaged[22..26] != bytes[22..26]
    requires damaged[26..BodyStart(bytes)] == bytes[26..BodyStart(bytes)]
    requires damaged[BodyStart(bytes)..end] != bytes[BodyStart(bytes)..end]
    requires InBurst(Bits(bytes[..end]), Bits(damaged[..end]), f)
    ensures !Accepts(damaged)
  {
    hide Bits, InBurst, Signed, Identification, FixedHeader;
    HasSegment(bytes);
    LayoutFrom26(bytes, damaged);
    var q := EarlyBodyDamage(bytes, damaged, BodyStart(bytes), end, f);
    DamagedMagicIsRejected(bytes, damaged, q);
  }

  lemma HasSegment(bytes: Bytes)
    requires Accepts(bytes)
    ensures 28 <= BodyStart(bytes) <= PageEnd(bytes) <= |bytes|
  {
  }

  /**
    Any damage of an accepted page that is confined to thirty-two consecutive bits, at any bit offset, and leaves
    segment count and lacing values alone, makes the page rejected.
  */
  lemma BurstIsDetected(bytes: Bytes, damaged: Bytes, f: nat)
    requires Accepts(bytes) && |damaged| == |bytes| && damaged[..PageEnd(bytes)] != bytes[..PageEnd(bytes)]
    requires InBurst(Bits(bytes[..PageEnd(bytes)]), Bits(damaged[..PageEnd(bytes)]), f)
    requires damaged[26..BodyStart(bytes)] == bytes[26..BodyStart(bytes)]
    ensures !Accepts(damaged)
  {
    var start, end := BodyStart(bytes), PageEnd(bytes);
    PageIsLong(bytes);
    hide Accepts, PageEnd, Bits, InBurst;
    if damaged[22..26] == bytes[22..26] {
      BurstInMessage(bytes, damaged, f);
    } else if damaged[start..end] != bytes[start..end] {
      BurstFromField(bytes, damaged, f, end);
    } else if damaged[..22] == bytes[..22] {
      EqualJoined(bytes, damaged, 26, start, end);
      SameMessageIsRejected(bytes, damaged);
    } else {
      var q := FirstDifference(bytes[..22], damaged[..22]);
      assert bytes[q] != damaged[q];
      BurstFromBelow(bytes, damaged, f, end, q);
    }
  }

  lemma BodyHoldsPacket(bytes: Bytes)
    requires Accepts(bytes)
    ensures PageEnd(bytes) >= BodyStart(bytes) + 19
  {
    FirstPacketInPage(Lacing(bytes));
  }

  lemma PageIsLong(bytes: Bytes)
    requires Accepts(bytes)
    ensures BodyStart(bytes) + 19 <= PageEnd(bytes) <= |bytes| && BodyStart(bytes) >= 27
  {
    BodyHoldsPacket(bytes);
  }

  lemma OneByteBurst(page: Bytes, q: nat, byte: bv8)
    requires q < |page|
    ensures InBurst(Bits(page), Bits(page[q := byte]), 8 * q)
  {
    hide Bits, BitsOf;
    var other := page[q := byte];
    BitsLength(page);
    BitsLength(other);
    forall i | 0 <= i < |Bits(page)| && Bits(page)[i] != Bits(other)[i] ensures 8 * q <= i < 8 * q + 32 {
      var k, j := i / 8, i % 8;
      BitAt(page, k, j);
      BitAt(other, k, j);
      assert i == 8 * k + j;
    }
  }

  /** Changing any one byte of an accepted page, save the segment count and the lacing values, makes it rejected. */
  lemma SingleByteIsDetected(bytes: Bytes, q: nat, byte: bv8)
    requires Accepts(bytes) && q < PageEnd(bytes) && byte != bytes[q]
    requires q < 26 || q >= BodyStart(bytes)
    ensures !Accepts(bytes[q := byte])
  {
    PageIsLong(bytes);
    hide Accepts, PageEnd, Bits, InBurst;
    var damaged, end := bytes[q := byte], PageEnd(bytes);
    assert damaged[..end] == bytes[..end][q := byte];
    assert damaged[..end][q] != bytes[..end][q];
    OneByteBurst(bytes[..end], q, byte);
    BurstIsDetected(bytes, damaged, 8 * q);
  }

  lemma SameLayout(bytes: Bytes, n: nat)
    requires FixedHeader(bytes) && HasLacing(bytes) && BodyStart(bytes) <= n <= |bytes|
    ensures FixedHeader(bytes[..n]) && Count(bytes[..n]) == Count(bytes) && HasLacing(bytes[..n])
    ensures Lacing(bytes[..n]) == Lacing(bytes)
  {
    var cut := bytes[..n];
    assert cut[..6] == bytes[..6] && cut[6..14] == bytes[6..14] && cut[18..22] == bytes[18..22];
    assert cut[26] == bytes[26];
    assert cut[27..BodyStart(bytes)] == bytes[27..BodyStart(bytes)];
  }

  lemma ShortPrefixIsRejected(bytes: Bytes, n: nat)
    requires FixedHeader(bytes) && HasLacing(bytes) && n <= |bytes| && n < PageEnd(bytes)
    ensures !Accepts(bytes[..n])
  {
    hide Register, Identification, Signed, FixedHeader;
    if n >= BodyStart(bytes) {
      SameLayout(bytes, n);
    } else if n >= 27 {
      assert bytes[..n][26] == bytes[26];
    }
  }

  lemma LongPrefixIsAccepted(bytes: Bytes, n: nat)
    requires Accepts(bytes) && PageEnd(bytes) <= n <= |bytes|
    ensures Accepts(bytes[..n])
  {
    hide Register, Identification, Signed, FixedHeader, HasLacing;
    var cut := bytes[..n];
    SameLayout(bytes, n);
    FirstPacketInPage(Lacing(bytes));
    assert cut[..PageEnd(bytes)] == bytes[..PageEnd(bytes)];
    var a, b := BodyStart(bytes), BodyStart(bytes) + FirstPacket(Lacing(bytes));
    assert cut[a..b] == bytes[a..b];
  }

  /** Acceptance looks at the whole first page and at nothing behind it. */
  lemma AcceptsPrefixIff(bytes: Bytes, n: nat)
    requires Accepts(bytes) && n <= |bytes|
    ensures Accepts(bytes[..n]) <==> n >= PageEnd(bytes)
  {
    if n >= PageEnd(bytes) {
      LongPrefixIsAccepted(bytes, n);
    } else {
      ShortPrefixIsRejected(bytes, n);
    }
  }

  /** The bytes with the checksum of their first page written in its place. */
  function Sealed(bytes: Bytes): Bytes
    requires |bytes| >= 27 && |bytes| >= BodyStart(bytes) && |bytes| >= PageEnd(bytes)
  {
    bytes[..22] + LittleEndian(Register(0, Unsigned(bytes[..PageEnd(bytes)]))) + bytes[26..]
  }

  predicate Complete(bytes: Bytes) {
    FixedHeader(bytes) && HasLacing(bytes) && |bytes| >= PageEnd(bytes)
  }

  function FirstPacketOf(bytes: Bytes): Bytes
    requires Complete(bytes)
  {
    FirstPacketInPage(Lacing(bytes));
    bytes[BodyStart(bytes)..BodyStart(bytes) + FirstPacket(Lacing(bytes))]
  }

  lemma SameOutsideChecksum(bytes: Bytes, other: Bytes)
    requires Complete(bytes) && |other| == |bytes| && other[..22] == bytes[..22] && other[26..] == bytes[26..]
    ensures FixedHeader(other) && Count(other) == Count(bytes) && HasLacing(other) && Lacing(other) == Lacing(bytes)
    ensures FirstPacketOf(other) == FirstPacketOf(bytes)
  {
    EqualTails(bytes, other, 26, 26, 27);
    assert bytes[26..27][0] == other[26..27][0];
    EqualTails(bytes, other, 26, 27, BodyStart(bytes));
    assert other[..22][..6] == other[..6] && bytes[..22][..6] == bytes[..6];
    assert other[..22][6..14] == other[6..14] && bytes[..22][6..14] == bytes[6..14];
    assert other[..22][18..22] == other[18..22] && bytes[..22][18..22] == bytes[18..22];
    var last := BodyStart(bytes) - 1;
    EqualTails(bytes, other, 26, last, last + 1);
    assert bytes[last..last + 1][0] == other[last..last + 1][0];
    FirstPacketInPage(Lacing(bytes));
    EqualTails(bytes, other, 26, BodyStart(bytes), BodyStart(bytes) + FirstPacket(Lacing(bytes)));
  }

  /**
    A complete first page with an identification packet is accepted once its checksum is written, and only with
    that one.
  */
  lemma SealedIsAccepted(bytes: Bytes)
    requires Complete(bytes) && Identification(FirstPacketOf(bytes))
    ensures Accepts(Sealed(bytes)) && (Accepts(bytes) <==> bytes == Sealed(bytes))
  {
    hide Register, Identification, FirstPacket;
    var sealed, end := Sealed(bytes), PageEnd(bytes);
    SealedShape(bytes);
    hide Sealed;
    SameOutsideChecksum(bytes, sealed);
    SameMessage(bytes, sealed, end);
    assert sealed[..end][22..26] == sealed[22..26] && bytes[..end][22..26] == bytes[22..26];
    assert bytes == bytes[..22] + bytes[22..26] + bytes[26..];
  }

  lemma SealedShape(bytes: Bytes)
    requires Complete(bytes)
    ensures var s := Sealed(bytes);
      |s| == |bytes| && s[..22] == bytes[..22] && s[26..] == bytes[26..]
      && s[22..26] == LittleEndian(Register(0, Unsigned(bytes[..PageEnd(bytes)])))
      && s == bytes[..22] + s[22..26] + bytes[26..]
  {
    hide Register, LittleEndian;
    FourBytesLong(Register(0, Unsigned(bytes[..PageEnd(bytes)])));
  }

  lemma FourBytesLong(crc: bv32)
    ensures |LittleEndian(crc)| == 4
  {
  }
}
