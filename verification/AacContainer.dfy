/**
  The check on the start of an AAC file: an ISO base media file (ISO/IEC 14496-12) whose
  movie box with one AAC-LC sound track comes complete before the media data.
*/
module AacContainer {
  import opened Basics
  import opened Bytes
  import opened BoxParser
  import opened ByteWords
  import opened Descriptor

  const FTYP: Bytes := [0x66, 0x74, 0x79, 0x70]
  const MDAT: Bytes := [0x6d, 0x64, 0x61, 0x74]
  const MOOV: Bytes := [0x6d, 0x6f, 0x6f, 0x76]
  const TRAK: Bytes := [0x74, 0x72, 0x61, 0x6b]
  const MDIA: Bytes := [0x6d, 0x64, 0x69, 0x61]
  const HDLR: Bytes := [0x68, 0x64, 0x6c, 0x72]
  const SOUN: Bytes := [0x73, 0x6f, 0x75, 0x6e]
  const MINF: Bytes := [0x6d, 0x69, 0x6e, 0x66]
  const STBL: Bytes := [0x73, 0x74, 0x62, 0x6c]
  const STSD: Bytes := [0x73, 0x74, 0x73, 0x64]
  const MP4A: Bytes := [0x6d, 0x70, 0x34, 0x61]
  const ESDS: Bytes := [0x65, 0x73, 0x64, 0x73]

  /** Boxes that may stand beside the movie box: free, skip, wide. */
  predicate Padding(kind: Bytes) {
    kind == [0x66, 0x72, 0x65, 0x65] || kind == [0x73, 0x6b, 0x69, 0x70] || kind == [0x77, 0x69, 0x64, 0x65]
  }

  /** The accepted brands: M4A, isom, iso2, iso6, mp41, mp42, dash. */
  predicate KnownBrand(brand: Bytes) {
    brand == [0x4d, 0x34, 0x41, 0x20] || brand == [0x69, 0x73, 0x6f, 0x6d] || brand == [0x69, 0x73, 0x6f, 0x32]
    || brand == [0x69, 0x73, 0x6f, 0x36] || brand == [0x6d, 0x70, 0x34, 0x31] || brand == [0x6d, 0x70, 0x34, 0x32]
    || brand == [0x64, 0x61, 0x73, 0x68]
  }

  function Brand(ftyp: Bytes, i: nat): Bytes
    requires 4 * i + 4 <= |ftyp|
  {
    ftyp[4 * i..4 * i + 4]
  }

  /** The second word of a file type box is its minor version, not a brand. */
  predicate HasBrandFrom(ftyp: Bytes, i: nat)
    decreases |ftyp| - 4 * i
  {
    4 * i + 4 <= |ftyp| && ((i != 1 && KnownBrand(Brand(ftyp, i))) || HasBrandFrom(ftyp, i + 1))
  }

  predicate FileType(kind: Bytes, ftyp: Bytes) {
    kind == FTYP && |ftyp| >= 8 && |ftyp| % 4 == 0 && HasBrandFrom(ftyp, 0)
  }

  // ----- The movie box

  predicate LowComplexity(asc: Bytes) {
    |asc| == 2 && asc[0] >> 3 == 2 && (((asc[0] & 7) << 1) | (asc[1] >> 7)) <= 12
    && 1 <= (asc[1] >> 3) & 15 <= 7 && asc[1] & 7 == 0
  }

  predicate StreamDescription(bytes: Bytes) {
    |bytes| >= 4 && bytes[..4] == [0, 0, 0, 0]
    && var es := Content(bytes[4..], 3);
    es.Some? && |es.value| >= 3 && es.value[2] == 0
    && var config := Content(es.value[3..], 4);
    config.Some? && |config.value| >= 13 && config.value[0] == 0x40 && config.value[1] == 0x15
    && var asc := Content(config.value[13..], 5);
    asc.Some? && LowComplexity(asc.value)
  }

  /** The fixed part of an mp4a sample entry. */
  predicate SampleEntry(sample: Bytes) {
    |sample| >= 28 && sample[6..8] != [0, 0] && sample[8..16] == [0, 0, 0, 0, 0, 0, 0, 0]
    && sample[16] == 0 && 1 <= sample[17] <= 8 && sample[18..20] == [0, 16] && sample[24..28] != [0, 0, 0, 0]
  }

  predicate SoundHandler(hdlr: Bytes) {
    |hdlr| >= 24 && hdlr[..4] == [0, 0, 0, 0] && hdlr[8..12] == SOUN
  }

  predicate SampleTable(stsd: Bytes) {
    |stsd| >= 8 && stsd[..8] == [0, 0, 0, 0, 0, 0, 0, 1]
    && var sample := ReadBox(stsd[8..]);
    sample.Some? && sample.value.0 == MP4A && sample.value.2 == [] && SampleEntry(sample.value.1)
    && var esds := Child(sample.value.1[28..], ESDS);
    esds.Some? && StreamDescription(esds.value)
  }

  /** A child of a child, as far as each exists. */
  function Path(bytes: Bytes, names: seq<Bytes>): Option<Bytes>
    decreases |names|
  {
    if names == [] then Some(bytes)
    else match Child(bytes, names[0])
      case None => None
      case Some(data) => Path(data, names[1..])
  }

  predicate Movie(data: Bytes) {
    var mdia := Path(data, [TRAK, MDIA]);
    mdia.Some?
    && var hdlr := Child(mdia.value, HDLR);
    hdlr.Some? && SoundHandler(hdlr.value)
    && var stsd := Path(mdia.value, [MINF, STBL, STSD]);
    stsd.Some? && SampleTable(stsd.value)
  }

  // ----- The file

  /** Media data has a sized header and at least one byte behind it. */
  predicate MediaStarts(bytes: Bytes) {
    |bytes| > 8 && Be32(bytes[..4]) > 8
  }

  predicate Scanned(bytes: Bytes, aac: bool)
    decreases |bytes|
  {
    |bytes| >= 8 &&
    if bytes[4..8] == MDAT then aac && MediaStarts(bytes)
    else match ReadBox(bytes)
      case None => false
      case Some((kind, data, rest)) =>
        if kind == MOOV then !aac && Movie(data) && Scanned(rest, true) else Padding(kind) && Scanned(rest, aac)
  }

  predicate Accepts(bytes: Bytes) {
    var first := ReadBox(bytes);
    first.Some? && FileType(first.value.0, first.value.1) && Scanned(first.value.2, false)
  }

  // ----- The loops

  method HasBrand(ftyp: Bytes) returns (known: bool)
    ensures known == HasBrandFrom(ftyp, 0)
  {
    known := false;
    var i := 0;
    while 4 * i + 4 <= |ftyp|
      invariant HasBrandFrom(ftyp, i) == HasBrandFrom(ftyp, 0)
      decreases |ftyp| - 4 * i
    {
      if i != 1 && KnownBrand(Brand(ftyp, i)) {
        return true;
      }
      i := i + 1;
    }
  }

  method AacEsds(bytes: Bytes) returns (ok: bool)
    ensures ok == StreamDescription(bytes)
  {
    hide Content, LowComplexity;
    if |bytes| < 4 || bytes[..4] != [0, 0, 0, 0] {
      return false;
    }
    var es := ReadDescriptor(bytes[4..], 3);
    if es.None? || |es.value| < 3 || es.value[2] != 0 {
      return false;
    }
    var config := ReadDescriptor(es.value[3..], 4);
    if config.None? || |config.value| < 13 || config.value[0] != 0x40 || config.value[1] != 0x15 {
      return false;
    }
    var asc := ReadDescriptor(config.value[13..], 5);
    return asc.Some? && LowComplexity(asc.value);
  }

  method FindPath(bytes: Bytes, names: seq<Bytes>) returns (data: Option<Bytes>)
    ensures data == Path(bytes, names)
    decreases |names|
  {
    if names == [] {
      return Some(bytes);
    }
    data := Mp4Child(bytes, names[0]);
    if data.Some? {
      data := FindPath(data.value, names[1..]);
    }
  }

  method ReadSampleTable(stsd: Bytes) returns (ok: bool)
    ensures ok == SampleTable(stsd)
  {
    hide StreamDescription, Child, SampleEntry;
    if |stsd| < 8 || stsd[..8] != [0, 0, 0, 0, 0, 0, 0, 1] {
      return false;
    }
    var sample := ReadBox(stsd[8..]);
    if sample.None? || sample.value.0 != MP4A || sample.value.2 != [] || !SampleEntry(sample.value.1) {
      return false;
    }
    EntryIsLong(sample.value.1);
    var esds := Mp4Child(sample.value.1[28..], ESDS);
    if esds.None? {
      return false;
    }
    ok := AacEsds(esds.value);
  }

  lemma EntryIsLong(sample: Bytes)
    requires SampleEntry(sample)
    ensures |sample| >= 28
  {
  }

  method ReadMovie(data: Bytes) returns (ok: bool)
    ensures ok == Movie(data)
  {
    hide Path, Child, SampleTable;
    var mdia := FindPath(data, [TRAK, MDIA]);
    if mdia.None? {
      return false;
    }
    var hdlr := Mp4Child(mdia.value, HDLR);
    if hdlr.None? || !SoundHandler(hdlr.value) {
      return false;
    }
    var stsd := FindPath(mdia.value, [MINF, STBL, STSD]);
    if stsd.None? {
      return false;
    }
    ok := ReadSampleTable(stsd.value);
  }

  method Mp4AacPrefix(bytes: Bytes) returns (ok: bool)
    ensures ok == Accepts(bytes)
  {
    hide Movie, HasBrandFrom, Padding;
    var first := ReadBox(bytes);
    if first.None? {
      return false;
    }
    var (kind, ftyp, rest) := first.value;
    var known := HasBrand(ftyp);
    if kind != FTYP || |ftyp| < 8 || |ftyp| % 4 != 0 || !known {
      return false;
    }
    var aac := false;
    while |rest| >= 8
      invariant Accepts(bytes) == Scanned(rest, aac)
      decreases |rest|
    {
      if rest[4..8] == MDAT {
        return aac && Be32(rest[..4]) > 8 && |rest| > 8;
      }
      var box := ReadBox(rest);
      if box.None? {
        return false;
      }
      var (kind, data, next) := box.value;
      if kind == MOOV {
        if aac {
          return false;
        }
        aac := ReadMovie(data);
        if !aac {
          return false;
        }
      } else if !Padding(kind) {
        return false;
      }
      rest := next;
    }
    return false;
  }

  // ----- What is accepted

  predicate Middle(boxes: seq<Box>, aac: bool) {
    AllFit(boxes) && (forall i :: 0 <= i < |boxes| ==> boxes[i].kind == MOOV || Padding(boxes[i].kind))
    && (forall i :: 0 <= i < |boxes| && boxes[i].kind == MOOV ==> Movie(boxes[i].data))
    && |Named(boxes, MOOV)| == if aac then 0 else 1
  }

  predicate MediaFollows(tail: Bytes) {
    MediaStarts(tail) && tail[4..8] == MDAT
  }

  predicate Parts(bytes: Bytes, aac: bool, boxes: seq<Box>, tail: Bytes) {
    bytes == PrintAll(boxes) + tail && Middle(boxes, aac) && MediaFollows(tail)
  }

  function Pieces(bytes: Bytes, aac: bool): (r: (seq<Box>, Bytes))
    requires Scanned(bytes, aac)
    decreases |bytes|
  {
    if bytes[4..8] == MDAT then ([], bytes)
    else
      var (kind, data, rest) := ReadBox(bytes).value;
      var (boxes, tail) := Pieces(rest, aac || kind == MOOV);
      ([Box(kind, data)] + boxes, tail)
  }

  lemma MiddleOfMore(b: Box, boxes: seq<Box>, aac: bool)
    requires Fits(b) && (b.kind == MOOV ==> !aac && Movie(b.data)) && (b.kind == MOOV || Padding(b.kind))
    requires Middle(boxes, aac || b.kind == MOOV)
    ensures Middle([b] + boxes, aac)
  {
    hide Movie, Padding, Fits;
    var all := [b] + boxes;
    assert all[0] == b && all[1..] == boxes;
    forall i | 0 <= i < |all|
      ensures Fits(all[i]) && (all[i].kind == MOOV || Padding(all[i].kind))
      ensures all[i].kind == MOOV ==> Movie(all[i].data)
    {
      if i > 0 {
        assert all[i] == boxes[i - 1];
      }
    }
  }

  lemma {:induction false} ScannedHasParts(bytes: Bytes, aac: bool)
    requires Scanned(bytes, aac)
    ensures Parts(bytes, aac, Pieces(bytes, aac).0, Pieces(bytes, aac).1)
    decreases |bytes|
  {
    hide Movie, Padding, Middle, Fits;
    if bytes[4..8] == MDAT {
      NothingIsMiddle();
      assert bytes == [] + bytes;
    } else {
      PrintedRead(bytes);
      var (kind, data, rest) := ReadBox(bytes).value;
      ScannedHasParts(rest, aac || kind == MOOV);
      var (boxes, tail) := Pieces(rest, aac || kind == MOOV);
      MiddleOfMore(Box(kind, data), boxes, aac);
      PrintOneMore(Box(kind, data), boxes, tail);
    }
  }

  lemma NothingIsMiddle()
    ensures Middle([], true)
  {
  }

  lemma PrintOneMore(b: Box, boxes: seq<Box>, tail: Bytes)
    ensures PrintAll([b] + boxes) + tail == Print(b) + (PrintAll(boxes) + tail)
  {
    hide Print;
    assert ([b] + boxes)[1..] == boxes;
    assert Print(b) + PrintAll(boxes) + tail == Print(b) + (PrintAll(boxes) + tail);
  }

  lemma MiddleOfLess(boxes: seq<Box>, aac: bool)
    requires Middle(boxes, aac) && boxes != []
    ensures Fits(boxes[0]) && (boxes[0].kind == MOOV || Padding(boxes[0].kind))
    ensures boxes[0].kind == MOOV ==> !aac && Movie(boxes[0].data)
    ensures Middle(boxes[1..], aac || boxes[0].kind == MOOV)
  {
    hide Movie, Padding, Fits;
  }

  lemma KindOfPrinted(b: Box, rest: Bytes)
    requires Fits(b)
    ensures |Print(b) + rest| >= 8 && (Print(b) + rest)[4..8] == b.kind
  {
    WordIsFour(8 + |b.data|);
    hide Be32Bytes;
  }

  lemma {:induction false} PartsAreScanned(aac: bool, boxes: seq<Box>, tail: Bytes)
    requires Middle(boxes, aac) && MediaFollows(tail)
    ensures Scanned(PrintAll(boxes) + tail, aac)
    decreases |boxes|
  {
    hide Movie, Middle, Fits, Print, ReadBox;
    if boxes == [] {
      NoMoviePending(aac);
      assert PrintAll(boxes) + tail == tail;
    } else {
      var b := boxes[0];
      MiddleOfLess(boxes, aac);
      PartsAreScanned(aac || b.kind == MOOV, boxes[1..], tail);
      assert boxes == [b] + boxes[1..];
      PrintOneMore(b, boxes[1..], tail);
      ReadPrinted(b, PrintAll(boxes[1..]) + tail);
      KindOfPrinted(b, PrintAll(boxes[1..]) + tail);
      PrintIsNotEmpty(b);
    }
  }

  lemma NoMoviePending(aac: bool)
    requires Middle([], aac)
    ensures aac
  {
  }

  ghost predicate IsFile(bytes: Bytes, ftyp: Box, boxes: seq<Box>, tail: Bytes) {
    Fits(ftyp) && FileType(ftyp.kind, ftyp.data) && Middle(boxes, false) && MediaFollows(tail)
    && bytes == Print(ftyp) + (PrintAll(boxes) + tail)
  }

  /**
    For any bytes: they are accepted exactly when they are a file type box with a known brand,
    then padding around one movie box with its AAC-LC sound track, then media data.
  */
  lemma AcceptsIff(bytes: Bytes)
    ensures Accepts(bytes) <==> exists ftyp, boxes, tail :: IsFile(bytes, ftyp, boxes, tail)
  {
    if Accepts(bytes) {
      FileHasParts(bytes);
    }
    if ftyp, boxes, tail :| IsFile(bytes, ftyp, boxes, tail) {
      PartsMakeFile(bytes, ftyp, boxes, tail);
    }
  }

  lemma FileHasParts(bytes: Bytes)
    requires Accepts(bytes)
    ensures exists ftyp, boxes, tail :: IsFile(bytes, ftyp, boxes, tail)
  {
    hide FileType, Scanned, Middle, MediaFollows, Print, PrintAll, Fits, ReadBox, Pieces;
    PrintedRead(bytes);
    var (kind, data, rest) := ReadBox(bytes).value;
    ScannedHasParts(rest, false);
    var (boxes, tail) := Pieces(rest, false);
    assert IsFile(bytes, Box(kind, data), boxes, tail);
  }

  lemma PartsMakeFile(bytes: Bytes, ftyp: Box, boxes: seq<Box>, tail: Bytes)
    requires IsFile(bytes, ftyp, boxes, tail)
    ensures Accepts(bytes)
  {
    hide FileType, Scanned, Middle, MediaFollows, Print, PrintAll, Fits, ReadBox;
    ReadPrinted(ftyp, PrintAll(boxes) + tail);
    PartsAreScanned(false, boxes, tail);
  }

  /** How much of an accepted rest is looked at: its boxes, and the media header with one byte more. */
  function Needed(bytes: Bytes, aac: bool): nat
    requires Scanned(bytes, aac)
    decreases |bytes|
  {
    if bytes[4..8] == MDAT then 9
    else
      var (kind, _, rest) := ReadBox(bytes).value;
      |bytes| - |rest| + Needed(rest, aac || kind == MOOV)
  }

  /** A box is read from a cut exactly when it is whole there, and what follows it is then cut. */
  lemma ReadCut(bytes: Bytes, n: nat)
    requires ReadBox(bytes).Some? && n <= |bytes|
    ensures var (kind, data, rest) := ReadBox(bytes).value; var size := |bytes| - |rest|;
      size >= 8
      && ReadBox(bytes[..n]) == if n >= size then Some((kind, data, rest[..n - size])) else None
  {
    hide Be32;
    if n >= 8 {
      var size := Be32(bytes[..4]);
      assert bytes[..n][..4] == bytes[..4] && bytes[..n][4..8] == bytes[4..8];
      if n >= size {
        assert bytes[..n][8..size] == bytes[8..size] && bytes[..n][size..] == bytes[size..][..n - size];
      }
    }
  }

  lemma MediaCut(bytes: Bytes, n: nat)
    requires n <= |bytes| && MediaStarts(bytes)
    ensures MediaStarts(bytes[..n]) <==> n >= 9
  {
    hide Be32;
    if n >= 9 {
      assert bytes[..n][..4] == bytes[..4];
    }
  }

  lemma {:induction false} ScannedCut(bytes: Bytes, aac: bool, n: nat)
    requires Scanned(bytes, aac) && n <= |bytes|
    ensures Scanned(bytes[..n], aac) <==> n >= Needed(bytes, aac)
    decreases |bytes|
  {
    hide Movie, Padding, ReadBox, MediaStarts;
    KindOfCut(bytes, n);
    if bytes[4..8] == MDAT {
      MediaCut(bytes, n);
      MediaIsLong(bytes[..n]);
    } else {
      ReadCut(bytes, n);
      var (kind, data, rest) := ReadBox(bytes).value;
      var size := |bytes| - |rest|;
      if n >= size {
        ReadIsShorter(bytes);
        ScannedCut(rest, aac || kind == MOOV, n - size);
      }
    }
  }

  lemma KindOfCut(bytes: Bytes, n: nat)
    requires 8 <= |bytes| && n <= |bytes|
    ensures n >= 8 ==> bytes[..n][4..8] == bytes[4..8]
  {
  }

  lemma MediaIsLong(bytes: Bytes)
    ensures MediaStarts(bytes) ==> |bytes| >= 9
  {
  }

  /** Length of the file type box, and of what must follow it. */
  function End(bytes: Bytes): nat
    requires Accepts(bytes)
  {
    var rest := ReadBox(bytes).value.2;
    |bytes| - |rest| + Needed(rest, false)
  }

  /** A cut of an accepted start is accepted exactly when it keeps the boxes whole and one byte of media. */
  lemma AcceptsPrefixIff(bytes: Bytes, n: nat)
    requires Accepts(bytes) && n <= |bytes|
    ensures Accepts(bytes[..n]) <==> n >= End(bytes)
  {
    hide FileType, Scanned, ReadBox, Needed;
    ReadCut(bytes, n);
    var (_, _, rest) := ReadBox(bytes).value;
    var size := |bytes| - |rest|;
    if n >= size {
      ScannedCut(rest, false, n - size);
    }
  }

  /** More bytes never turn an accepted start into a rejected one. */
  lemma MoreBytesKeepAcceptance(bytes: Bytes, more: Bytes)
    requires Accepts(bytes)
    ensures Accepts(bytes + more)
  {
    hide Accepts, Middle, FileType, Print, PrintAll, Fits;
    AcceptsIff(bytes);
    var ftyp, boxes, tail :| IsFile(bytes, ftyp, boxes, tail);
    assert MediaFollows(tail + more) by {
      assert (tail + more)[..4] == tail[..4] && (tail + more)[4..8] == tail[4..8];
    }
    assert bytes + more == Print(ftyp) + (PrintAll(boxes) + (tail + more));
    assert IsFile(bytes + more, ftyp, boxes, tail + more);
    AcceptsIff(bytes + more);
  }

  /**
    Two bytes pass as an AAC-LC configuration exactly when they spell a sample rate index up to 12 and 1 to 7
    channels.
  */
  lemma LowComplexityIff(asc: Bytes)
    ensures LowComplexity(asc) <==>
      exists rate: bv8, channels: bv8 :: Configuration(asc, rate, channels)
  {
    if LowComplexity(asc) {
      ConfigurationBits(asc[0], asc[1]);
      assert Configuration(asc, ((asc[0] & 7) << 1) | (asc[1] >> 7), (asc[1] >> 3) & 15);
    }
    if rate, channels: bv8 :| Configuration(asc, rate, channels) {
      SpelledBits(rate, channels);
    }
  }

  /** Five bits of object type 2, four of the rate, four of the channels and three zeros. */
  predicate Configuration(asc: Bytes, rate: bv8, channels: bv8) {
    rate <= 12 && 1 <= channels <= 7 && asc == [(2 << 3) | (rate >> 1), (rate << 7) | (channels << 3)]
  }

  lemma ConfigurationBits(a: bv8, b: bv8)
    requires a >> 3 == 2 && b & 7 == 0
    ensures a == (2 << 3) | ((((a & 7) << 1) | (b >> 7)) >> 1)
    ensures (b >> 3) & 15 <= 7 ==> b == ((((a & 7) << 1) | (b >> 7)) << 7) | (((b >> 3) & 15) << 3)
  {
  }

  lemma SpelledBits(rate: bv8, channels: bv8)
    requires rate <= 12 && 1 <= channels <= 7
    ensures var a := (2 << 3) | (rate >> 1); var b := (rate << 7) | (channels << 3);
      a >> 3 == 2 && (((a & 7) << 1) | (b >> 7)) == rate && (b >> 3) & 15 == channels && b & 7 == 0
  {
  }
}
