/**
  What the AAC check accepts, written out as bytes: the whole file as a concatenation of its
  boxes, fields and descriptors, with no reference to how it is read.
*/
module AacMovie {
  import opened Basics
  import opened Bytes
  import opened ByteWords
  import opened BoxParser
  import opened Descriptor
  import opened AacContainer

  // ----- The pieces, as bytes

  /** Boxes of other kinds, none of them encrypted: sinf, encv or enca. */
  predicate Beside(boxes: seq<Box>, name: Bytes) {
    forall i :: 0 <= i < |boxes| ==>
      Fits(boxes[i]) && boxes[i].kind != name
      && boxes[i].kind !in {[0x73, 0x69, 0x6e, 0x66], [0x65, 0x6e, 0x63, 0x76], [0x65, 0x6e, 0x63, 0x61]}
  }

  predicate ChildAs(bytes: Bytes, name: Bytes, data: Bytes, before: seq<Box>, after: seq<Box>) {
    Fits(Box(name, data)) && Beside(before, name) && Beside(after, name)
    && bytes == PrintAll(before) + Print(Box(name, data)) + PrintAll(after)
  }

  /** The one box so named among boxes none of which is encrypted. */
  ghost predicate ChildIs(bytes: Bytes, name: Bytes, data: Bytes) {
    exists before, after :: ChildAs(bytes, name, data, before, after)
  }

  /** Version and flags, four reserved bytes, "soun", and at least twelve bytes more. */
  predicate HandlerAs(hdlr: Bytes, reserved: Bytes, rest: Bytes) {
    |reserved| == 4 && |rest| >= 12 && hdlr == [0, 0, 0, 0] + reserved + [0x73, 0x6f, 0x75, 0x6e] + rest
  }

  /**
    Object type 2, rate index up to 12, one to seven channels, after thirteen bytes of an AAC decoder's
    configuration.
  */
  predicate ConfigAs(config: Bytes, fixed: Bytes, length: Bytes, asc: Bytes, rest: Bytes, rate: bv8, channels: bv8) {
    |fixed| == 11 && config == [0x40, 0x15] + fixed + ([5] + length + asc + rest) && IsLength(length, |asc|)
    && Configuration(asc, rate, channels)
  }

  ghost predicate ConfigIs(config: Bytes) {
    exists fixed, length, asc, rest, rate, channels :: ConfigAs(config, fixed, length, asc, rest, rate, channels)
  }

  /** Two bytes of stream number and a zero, then the configuration. */
  predicate StreamAs(es: Bytes, number: Bytes, length: Bytes, config: Bytes, rest: Bytes) {
    |number| == 2 && es == number + [0] + ([4] + length + config + rest) && IsLength(length, |config|)
  }

  ghost predicate StreamIs(es: Bytes) {
    exists number, length, config, rest :: StreamAs(es, number, length, config, rest) && ConfigIs(config)
  }

  predicate DescriptionAs(esds: Bytes, length: Bytes, es: Bytes, rest: Bytes) {
    esds == [0, 0, 0, 0] + ([3] + length + es + rest) && IsLength(length, |es|)
  }

  ghost predicate DescriptionIs(esds: Bytes) {
    exists length, es, rest :: DescriptionAs(esds, length, es, rest) && StreamIs(es)
  }

  /** The fields of an mp4a entry: data reference, one to eight channels, sixteen bits, sample rate; then its boxes. */
  predicate EntryAs(sample: Bytes, reserved: Bytes, reference: Bytes, channels: bv8, other: Bytes, rate: Bytes,
                    children: Bytes)
  {
    |reserved| == 6 && |reference| == 2 && reference != [0, 0] && 1 <= channels <= 8 && |other| == 4
    && |rate| == 4 && rate != [0, 0, 0, 0]
    && sample == reserved + reference + [0, 0, 0, 0, 0, 0, 0, 0] + [0, channels, 0, 16] + other + rate + children
  }

  ghost predicate EntryIs(sample: Bytes) {
    exists reserved, reference, channels, other, rate, children, esds ::
      EntryAs(sample, reserved, reference, channels, other, rate, children)
      && ChildIs(children, [0x65, 0x73, 0x64, 0x73], esds) && DescriptionIs(esds)
  }

  /** Version, flags and a count of one, then one mp4a entry. */
  predicate TableAs(stsd: Bytes, sample: Bytes) {
    Fits(Box([0x6d, 0x70, 0x34, 0x61], sample))
    && stsd == [0, 0, 0, 0, 0, 0, 0, 1] + Print(Box([0x6d, 0x70, 0x34, 0x61], sample))
  }

  ghost predicate TableIs(stsd: Bytes) {
    exists sample :: TableAs(stsd, sample) && EntryIs(sample)
  }

  /** trak / mdia / hdlr and minf / stbl / stsd. */
  ghost predicate MovieAs(data: Bytes, trak: Bytes, mdia: Bytes, hdlr: Bytes, minf: Bytes, stbl: Bytes, stsd: Bytes) {
    ChildIs(data, [0x74, 0x72, 0x61, 0x6b], trak) && ChildIs(trak, [0x6d, 0x64, 0x69, 0x61], mdia)
    && ChildIs(mdia, [0x68, 0x64, 0x6c, 0x72], hdlr) && ChildIs(mdia, [0x6d, 0x69, 0x6e, 0x66], minf)
    && ChildIs(minf, [0x73, 0x74, 0x62, 0x6c], stbl) && ChildIs(stbl, [0x73, 0x74, 0x73, 0x64], stsd)
    && (exists reserved, rest :: HandlerAs(hdlr, reserved, rest)) && TableIs(stsd)
  }

  ghost predicate MovieIs(data: Bytes) {
    exists trak, mdia, hdlr, minf, stbl, stsd :: MovieAs(data, trak, mdia, hdlr, minf, stbl, stsd)
  }

  // ----- Descriptors

  lemma ConfigIff(config: Bytes)
    ensures ConfigIs(config) <==>
      |config| >= 13 && config[0] == 0x40 && config[1] == 0x15
      && var asc := Content(config[13..], 5); asc.Some? && LowComplexity(asc.value)
  {
    hide Content, LowComplexity, Configuration, IsLength;
    if ConfigIs(config) {
      var fixed, length, asc, rest, rate, channels :| ConfigAs(config, fixed, length, asc, rest, rate, channels);
      assert config[13..] == [5] + length + asc + rest;
      assert IsDescriptor(config[13..], 5, length, asc, rest);
      ContentIff(config[13..], 5, asc);
      LowComplexityIff(asc);
    }
    if |config| >= 13 && config[0] == 0x40 && config[1] == 0x15 {
      var asc := Content(config[13..], 5);
      if asc.Some? && LowComplexity(asc.value) {
        ContentIff(config[13..], 5, asc.value);
        var length, rest :| IsDescriptor(config[13..], 5, length, asc.value, rest);
        LowComplexityIff(asc.value);
        var rate: bv8, channels: bv8 :| Configuration(asc.value, rate, channels);
        assert config == [0x40, 0x15] + config[2..13] + config[13..];
        assert ConfigAs(config, config[2..13], length, asc.value, rest, rate, channels);
      }
    }
  }

  lemma StreamIff(es: Bytes)
    ensures StreamIs(es) <==>
      |es| >= 3 && es[2] == 0 && var config := Content(es[3..], 4); config.Some? && ConfigIs(config.value)
  {
    hide Content, ConfigIs, IsLength;
    if StreamIs(es) {
      var number, length, config, rest :| StreamAs(es, number, length, config, rest) && ConfigIs(config);
      assert es[3..] == [4] + length + config + rest;
      assert IsDescriptor(es[3..], 4, length, config, rest);
      ContentIff(es[3..], 4, config);
    }
    if |es| >= 3 && es[2] == 0 {
      var config := Content(es[3..], 4);
      if config.Some? && ConfigIs(config.value) {
        ContentIff(es[3..], 4, config.value);
        var length, rest :| IsDescriptor(es[3..], 4, length, config.value, rest);
        assert es == es[..2] + [0] + es[3..];
        assert StreamAs(es, es[..2], length, config.value, rest);
      }
    }
  }

  lemma DescriptionIff(esds: Bytes)
    ensures DescriptionIs(esds) <==> StreamDescription(esds)
  {
    hide Content, StreamIs, ConfigIs, IsLength, LowComplexity;
    if DescriptionIs(esds) {
      var length, es, rest :| DescriptionAs(esds, length, es, rest) && StreamIs(es);
      assert esds[4..] == [3] + length + es + rest && esds[..4] == [0, 0, 0, 0];
      assert IsDescriptor(esds[4..], 3, length, es, rest);
      ContentIff(esds[4..], 3, es);
      StreamIff(es);
      ConfigIff(Content(es[3..], 4).value);
    }
    if StreamDescription(esds) {
      var es := Content(esds[4..], 3).value;
      ConfigIff(Content(es[3..], 4).value);
      StreamIff(es);
      ContentIff(esds[4..], 3, es);
      var length, rest :| IsDescriptor(esds[4..], 3, length, es, rest);
      assert esds == esds[..4] + esds[4..];
      assert DescriptionAs(esds, length, es, rest);
    }
  }

  // ----- Boxes

  lemma FirstOfConcat<T>(first: seq<T>, second: seq<T>)
    requires first != []
    ensures first + second != [] && (first + second)[0] == first[0] && (first + second)[1..] == first[1..] + second
  {
  }

  lemma Regroup<T>(a: seq<T>, b: seq<T>, c: seq<T>)
    ensures a + (b + c) == a + b + c
  {
  }

  lemma PrintFirst(boxes: seq<Box>)
    requires boxes != []
    ensures PrintAll(boxes) == Print(boxes[0]) + PrintAll(boxes[1..])
  {
    hide Print;
  }

  lemma {:induction false} PrintConcat(first: seq<Box>, second: seq<Box>)
    ensures PrintAll(first + second) == PrintAll(first) + PrintAll(second)
  {
    if first == [] {
      assert first + second == second;
    } else {
      PrintConcat(first[1..], second);
      FirstOfConcat(first, second);
      PrintFirst(first + second);
      PrintFirst(first);
      hide Print, PrintAll;
      Regroup(Print(first[0]), PrintAll(first[1..]), PrintAll(second));
    }
  }

  function NamedHere(b: Box, name: Bytes): seq<Bytes> {
    if b.kind == name then [b.data] else []
  }

  lemma NamedFirst(boxes: seq<Box>, name: Bytes)
    requires boxes != []
    ensures Named(boxes, name) == NamedHere(boxes[0], name) + Named(boxes[1..], name)
  {
  }

  lemma {:induction false} NamedConcat(first: seq<Box>, second: seq<Box>, name: Bytes)
    ensures Named(first + second, name) == Named(first, name) + Named(second, name)
  {
    if first == [] {
      assert first + second == second;
    } else {
      NamedConcat(first[1..], second, name);
      FirstOfConcat(first, second);
      NamedFirst(first + second, name);
      NamedFirst(first, name);
      hide Named, NamedHere;
      Regroup(NamedHere(first[0], name), Named(first[1..], name), Named(second, name));
    }
  }

  lemma {:induction false} NamedNone(boxes: seq<Box>, name: Bytes)
    ensures Named(boxes, name) == [] <==> forall i :: 0 <= i < |boxes| ==> boxes[i].kind != name
  {
    if boxes != [] {
      NamedNone(boxes[1..], name);
      assert boxes == [boxes[0]] + boxes[1..];
    }
  }

  lemma {:induction false} OneNamed(boxes: seq<Box>, name: Bytes, data: Bytes) returns (k: nat)
    requires Named(boxes, name) == [data]
    ensures k < |boxes| && boxes[k] == Box(name, data)
    ensures forall i :: 0 <= i < |boxes| && i != k ==> boxes[i].kind != name
  {
    NamedNone(boxes[1..], name);
    if boxes[0].kind == name {
      k := 0;
      assert Named(boxes, name) == [boxes[0].data] + Named(boxes[1..], name);
      assert |Named(boxes, name)| == 1;
      assert Named(boxes, name)[0] == boxes[0].data;
    } else {
      k := OneNamed(boxes[1..], name, data);
      k := k + 1;
    }
    assert boxes == [boxes[0]] + boxes[1..];
  }

  /** Boxes with one of them singled out. */
  lemma Around(boxes: seq<Box>, k: nat)
    requires k < |boxes|
    ensures PrintAll(boxes) == PrintAll(boxes[..k]) + Print(boxes[k]) + PrintAll(boxes[k + 1..])
  {
    hide Print, PrintAll;
    assert boxes == boxes[..k] + boxes[k..] && boxes[k..][1..] == boxes[k + 1..];
    PrintConcat(boxes[..k], boxes[k..]);
    PrintFirst(boxes[k..]);
    Regroup(PrintAll(boxes[..k]), Print(boxes[k]), PrintAll(boxes[k + 1..]));
  }

  lemma NamedAround(before: seq<Box>, b: Box, after: seq<Box>)
    requires (forall i :: 0 <= i < |before| ==> before[i].kind != b.kind)
    requires (forall i :: 0 <= i < |after| ==> after[i].kind != b.kind)
    ensures Named(before + [b] + after, b.kind) == [b.data]
  {
    NamedNone(before, b.kind);
    NamedNone(after, b.kind);
    assert before + [b] + after == before + ([b] + after);
    NamedConcat(before, [b] + after, b.kind);
    assert ([b] + after)[1..] == after;
  }

  predicate Plain(kind: Bytes) {
    kind !in {[0x73, 0x69, 0x6e, 0x66], [0x65, 0x6e, 0x63, 0x76], [0x65, 0x6e, 0x63, 0x61]}
  }

  lemma BesideIff(boxes: seq<Box>, name: Bytes)
    ensures Beside(boxes, name) <==>
      AllFit(boxes) && NoneEncrypted(boxes) && forall i :: 0 <= i < |boxes| ==> boxes[i].kind != name
  {
    hide Fits;
    assert forall i :: 0 <= i < |boxes| ==> (Encrypted(boxes[i].kind) <==> !Plain(boxes[i].kind));
  }

  lemma ChildWritten(boxes: seq<Box>, bytes: Bytes, name: Bytes, data: Bytes)
    requires IsTheChild(boxes, bytes, name, data)
    ensures ChildIs(bytes, name, data)
  {
    hide Print, PrintAll, Named, Encrypted, Beside, Fits;
    var k := OneNamed(boxes, name, data);
    Around(boxes, k);
    BesideIff(boxes[..k], name);
    BesideIff(boxes[k + 1..], name);
    assert ChildAs(bytes, name, data, boxes[..k], boxes[k + 1..]);
  }

  lemma PlainIff(kind: Bytes)
    ensures Plain(kind) <==> !Encrypted(kind)
  {
  }

  lemma ChildRead(bytes: Bytes, name: Bytes, data: Bytes, before: seq<Box>, after: seq<Box>)
    requires Plain(name) && ChildAs(bytes, name, data, before, after)
    ensures IsTheChild(before + [Box(name, data)] + after, bytes, name, data)
  {
    var b := Box(name, data);
    var boxes := before + [b] + after;
    BesideIff(before, name);
    BesideIff(after, name);
    PlainIff(name);
    hide Print, PrintAll, Named, Encrypted, Beside, Fits, Plain;
    NamedAround(before, b, after);
    Around(boxes, |before|);
    assert boxes[..|before|] == before && boxes[|before| + 1..] == after;
  }

  /** A named box is found exactly when it stands alone of its kind among unencrypted boxes. */
  lemma ChildIsIff(bytes: Bytes, name: Bytes, data: Bytes)
    requires Plain(name)
    ensures ChildIs(bytes, name, data) <==> Child(bytes, name) == Some(data)
  {
    hide Print, PrintAll, Named, Encrypted, Beside, Fits, Plain, Child;
    ChildIff(bytes, name, data);
    if boxes :| IsTheChild(boxes, bytes, name, data) {
      ChildWritten(boxes, bytes, name, data);
    }
    if before, after :| ChildAs(bytes, name, data, before, after) {
      ChildRead(bytes, name, data, before, after);
    }
  }

  lemma HandlerIff(hdlr: Bytes)
    ensures SoundHandler(hdlr) <==> exists reserved, rest :: HandlerAs(hdlr, reserved, rest)
  {
    if SoundHandler(hdlr) {
      assert hdlr == hdlr[..4] + hdlr[4..8] + hdlr[8..12] + hdlr[12..];
      assert HandlerAs(hdlr, hdlr[4..8], hdlr[12..]);
    }
    if reserved, rest :| HandlerAs(hdlr, reserved, rest) {
      HandlerFields(hdlr, reserved, rest);
    }
  }

  lemma HandlerFields(hdlr: Bytes, reserved: Bytes, rest: Bytes)
    requires HandlerAs(hdlr, reserved, rest)
    ensures |hdlr| >= 24 && hdlr[..4] == [0, 0, 0, 0] && hdlr[8..12] == [0x73, 0x6f, 0x75, 0x6e]
  {
  }

  lemma FieldsOfEntry(sample: Bytes, reserved: Bytes, reference: Bytes, channels: bv8, other: Bytes, rate: Bytes,
                      children: Bytes)
    requires EntryAs(sample, reserved, reference, channels, other, rate, children)
    ensures SampleEntry(sample) && sample[28..] == children
  {
    assert sample[6..8] == reference;
    assert sample[8..16] == [0, 0, 0, 0, 0, 0, 0, 0];
    assert sample[16..20] == [0, channels, 0, 16];
    assert sample[16] == sample[16..20][0] && sample[17] == sample[16..20][1];
    assert sample[18..20] == sample[16..20][2..];
    assert sample[24..28] == rate;
  }

  lemma EntryOfFields(sample: Bytes)
    requires SampleEntry(sample)
    ensures EntryAs(sample, sample[..6], sample[6..8], sample[17], sample[20..24], sample[24..28], sample[28..])
  {
    assert sample[16..20] == [0, sample[17], 0, 16] by {
      assert sample[18] == sample[18..20][0] && sample[19] == sample[18..20][1];
    }
    Cuts(sample);
  }

  lemma Cuts(sample: Bytes)
    requires |sample| >= 28
    ensures sample == sample[..6] + sample[6..8] + sample[8..16] + sample[16..20] + sample[20..24] + sample[24..28]
                      + sample[28..]
  {
  }

  lemma EntryIff(sample: Bytes)
    ensures EntryIs(sample) <==>
      SampleEntry(sample)
      && var esds := Child(sample[28..], ESDS); esds.Some? && StreamDescription(esds.value)
  {
    hide EntryAs, SampleEntry, StreamDescription, DescriptionIs, Child, ChildIs;
    if EntryIs(sample) {
      var reserved, reference, channels, other, rate, children, esds :|
        EntryAs(sample, reserved, reference, channels, other, rate, children)
        && ChildIs(children, [0x65, 0x73, 0x64, 0x73], esds) && DescriptionIs(esds);
      FieldsOfEntry(sample, reserved, reference, channels, other, rate, children);
      ChildIsIff(children, ESDS, esds);
      DescriptionIff(esds);
    }
    if SampleEntry(sample) {
      EntryIsLong(sample);
      var esds := Child(sample[28..], ESDS);
      if esds.Some? && StreamDescription(esds.value) {
        EntryOfFields(sample);
        ChildIsIff(sample[28..], ESDS, esds.value);
        DescriptionIff(esds.value);
      }
    }
  }

  lemma TableIff(stsd: Bytes)
    ensures TableIs(stsd) <==> SampleTable(stsd)
  {
    hide EntryIs, SampleEntry, StreamDescription, Child, Print, ReadBox, Fits;
    if TableIs(stsd) {
      var sample :| TableAs(stsd, sample) && EntryIs(sample);
      var b := Box(MP4A, sample);
      ReadPrinted(b, []);
      assert stsd[8..] == Print(b) + [] && stsd[..8] == [0, 0, 0, 0, 0, 0, 0, 1];
      EntryIff(sample);
    }
    if SampleTable(stsd) {
      var (kind, sample, rest) := ReadBox(stsd[8..]).value;
      PrintedRead(stsd[8..]);
      assert stsd == stsd[..8] + stsd[8..];
      assert Print(Box(kind, sample)) + [] == Print(Box(kind, sample));
      EntryIsLong(sample);
      EntryIff(sample);
      assert TableAs(stsd, sample);
    }
  }

  lemma LastStep(bytes: Bytes, a: Bytes)
    ensures Path(bytes, [a]) == Child(bytes, a)
  {
    hide Child;
    assert [a][1..] == [];
  }

  lemma TwoSteps(bytes: Bytes, a: Bytes, b: Bytes, data: Bytes)
    requires Plain(a) && Plain(b)
    ensures Path(bytes, [a, b]) == Some(data) <==>
      exists inner :: ChildIs(bytes, a, inner) && ChildIs(inner, b, data)
  {
    hide Child, ChildIs;
    assert [a, b][1..] == [b];
    if inner :| ChildIs(bytes, a, inner) && ChildIs(inner, b, data) {
      ChildIsIff(bytes, a, inner);
      ChildIsIff(inner, b, data);
      LastStep(inner, b);
    }
    if Path(bytes, [a, b]) == Some(data) {
      var inner := Child(bytes, a).value;
      LastStep(inner, b);
      ChildIsIff(bytes, a, inner);
      ChildIsIff(inner, b, data);
    }
  }

  lemma ThreeSteps(bytes: Bytes, a: Bytes, b: Bytes, c: Bytes, data: Bytes)
    requires Plain(a) && Plain(b) && Plain(c)
    ensures Path(bytes, [a, b, c]) == Some(data) <==>
      exists first, second :: ChildIs(bytes, a, first) && ChildIs(first, b, second) && ChildIs(second, c, data)
  {
    hide Child, ChildIs;
    assert [a, b, c][1..] == [b, c];
    if first, second :| ChildIs(bytes, a, first) && ChildIs(first, b, second) && ChildIs(second, c, data) {
      ChildIsIff(bytes, a, first);
      TwoSteps(first, b, c, data);
    }
    if Path(bytes, [a, b, c]) == Some(data) {
      var first := Child(bytes, a).value;
      ChildIsIff(bytes, a, first);
      TwoSteps(first, b, c, data);
    }
  }

  /** A movie box passes exactly when it is built from its fields like this, box within box. */
  lemma MovieIff(data: Bytes)
    ensures Movie(data) <==> MovieIs(data)
  {
    hide Path, ChildIs, Child, SoundHandler, HandlerAs, SampleTable, TableIs;
    if MovieIs(data) {
      var trak, mdia, hdlr, minf, stbl, stsd :| MovieAs(data, trak, mdia, hdlr, minf, stbl, stsd);
      TwoSteps(data, TRAK, MDIA, mdia);
      ChildIsIff(mdia, HDLR, hdlr);
      HandlerIff(hdlr);
      ThreeSteps(mdia, MINF, STBL, STSD, stsd);
      TableIff(stsd);
    }
    if Movie(data) {
      var mdia := Path(data, [TRAK, MDIA]).value;
      var hdlr := Child(mdia, HDLR).value;
      var stsd := Path(mdia, [MINF, STBL, STSD]).value;
      TwoSteps(data, TRAK, MDIA, mdia);
      var trak :| ChildIs(data, TRAK, trak) && ChildIs(trak, MDIA, mdia);
      ChildIsIff(mdia, HDLR, hdlr);
      HandlerIff(hdlr);
      ThreeSteps(mdia, MINF, STBL, STSD, stsd);
      var minf, stbl :| ChildIs(mdia, MINF, minf) && ChildIs(minf, STBL, stbl) && ChildIs(stbl, STSD, stsd);
      TableIff(stsd);
      assert MovieAs(data, trak, mdia, hdlr, minf, stbl, stsd);
    }
  }

  // ----- The file

  /** One of the brands M4A, isom, iso2, iso6, mp41, mp42 and dash. */
  predicate BrandAs(brand: Bytes) {
    brand in {[0x4d, 0x34, 0x41, 0x20], [0x69, 0x73, 0x6f, 0x6d], [0x69, 0x73, 0x6f, 0x32], [0x69, 0x73, 0x6f, 0x36],
              [0x6d, 0x70, 0x34, 0x31], [0x6d, 0x70, 0x34, 0x32], [0x64, 0x61, 0x73, 0x68]}
  }

  /** Word `i` of a file type payload that is a brand: any but the second. */
  predicate BrandAt(ftyp: Bytes, i: nat) {
    i != 1 && 4 * i + 4 <= |ftyp| && BrandAs(ftyp[4 * i..4 * i + 4])
  }

  lemma {:induction false} BrandFromIff(ftyp: Bytes, i: nat)
    ensures HasBrandFrom(ftyp, i) <==> exists k :: k >= i && BrandAt(ftyp, k)
    decreases |ftyp| - 4 * i
  {
    if 4 * i + 4 <= |ftyp| {
      BrandFromIff(ftyp, i + 1);
      BrandHere(ftyp, i);
    } else {
      assert forall k: nat :: BrandAt(ftyp, k) ==> k < i;
    }
    hide HasBrandFrom, BrandAt;
  }

  lemma BrandHere(ftyp: Bytes, i: nat)
    requires 4 * i + 4 <= |ftyp|
    ensures BrandAt(ftyp, i) <==> i != 1 && KnownBrand(Brand(ftyp, i))
  {
  }

  /** At least eight bytes of whole words, one of them a brand. */
  ghost predicate FileTypeAs(ftyp: Box) {
    ftyp.kind == [0x66, 0x74, 0x79, 0x70] && |ftyp.data| >= 8 && |ftyp.data| % 4 == 0
    && exists i :: BrandAt(ftyp.data, i)
  }

  lemma FileTypeIff(ftyp: Box)
    ensures FileTypeAs(ftyp) <==> FileType(ftyp.kind, ftyp.data)
  {
    hide BrandAt, HasBrandFrom;
    BrandFromIff(ftyp.data, 0);
  }

  /** Boxes named free, skip or wide. */
  predicate AllPadding(boxes: seq<Box>) {
    forall i :: 0 <= i < |boxes| ==>
      Fits(boxes[i])
      && boxes[i].kind in {[0x66, 0x72, 0x65, 0x65], [0x73, 0x6b, 0x69, 0x70], [0x77, 0x69, 0x64, 0x65]}
  }

  /** A size above eight, "mdat", and at least one byte. */
  predicate MediaAs(tail: Bytes) {
    |tail| > 8 && tail[4..8] == [0x6d, 0x64, 0x61, 0x74]
    && (tail[0] != 0 || tail[1] != 0 || tail[2] != 0 || tail[3] > 8)
  }

  lemma MediaIff(tail: Bytes)
    ensures MediaAs(tail) <==> MediaFollows(tail)
  {
    hide Be32;
    if |tail| > 8 {
      SizeAboveEight(tail[..4]);
    }
  }

  lemma SizeAboveEight(w: Bytes)
    requires |w| == 4
    ensures Be32(w) > 8 <==> w[0] != 0 || w[1] != 0 || w[2] != 0 || w[3] > 8
  {
    hide Join;
    ValueOrder(w[0]);
    ValueOrder(w[1]);
    ValueOrder(w[2]);
    ValueOrder(w[3]);
    JoinAboveEight(Value(w[0]), Value(w[1]), Value(w[2]), Value(w[3]));
  }

  lemma ValueOrder(b: bv8)
    ensures (Value(b) > 0 <==> b != 0) && (Value(b) > 8 <==> b > 8)
  {
  }

  lemma JoinAboveEight(a: nat, b: nat, c: nat, d: nat)
    ensures Join(Join(Join(a, b), c), d) > 8 <==> a > 0 || b > 0 || c > 0 || d > 8
  {
  }

  /** File type, padding, one movie box, padding, and the start of the media data. */
  ghost predicate FileAs(bytes: Bytes, ftyp: Box, before: seq<Box>, movie: Bytes, after: seq<Box>, tail: Bytes) {
    Fits(ftyp) && FileTypeAs(ftyp) && AllPadding(before) && AllPadding(after) && MediaAs(tail)
    && Fits(Box([0x6d, 0x6f, 0x6f, 0x76], movie)) && MovieIs(movie)
    && bytes == Print(ftyp) + PrintAll(before) + Print(Box([0x6d, 0x6f, 0x6f, 0x76], movie)) + PrintAll(after) + tail
  }

  lemma PaddingIsNoMovie(boxes: seq<Box>, i: nat)
    requires AllPadding(boxes) && i < |boxes|
    ensures boxes[i].kind != MOOV && Padding(boxes[i].kind) && Fits(boxes[i])
  {
  }

  lemma MiddleAround(before: seq<Box>, movie: Bytes, after: seq<Box>)
    requires AllPadding(before) && AllPadding(after) && Fits(Box(MOOV, movie)) && Movie(movie)
    ensures Middle(before + [Box(MOOV, movie)] + after, false)
  {
    hide Movie, Padding, Fits, AllPadding, Named;
    var b := Box(MOOV, movie);
    var boxes := before + [b] + after;
    forall i | 0 <= i < |before|
      ensures before[i].kind != MOOV && Padding(before[i].kind) && Fits(before[i])
    {
      PaddingIsNoMovie(before, i);
    }
    forall i | 0 <= i < |after|
      ensures after[i].kind != MOOV && Padding(after[i].kind) && Fits(after[i])
    {
      PaddingIsNoMovie(after, i);
    }
    NamedAround(before, b, after);
  }

  lemma MiddleSplits(boxes: seq<Box>) returns (k: nat)
    requires Middle(boxes, false)
    ensures k < |boxes| && boxes[k].kind == MOOV && Movie(boxes[k].data) && Fits(boxes[k])
    ensures AllPadding(boxes[..k]) && AllPadding(boxes[k + 1..])
  {
    hide Movie, Fits, Named;
    var movies := Named(boxes, MOOV);
    assert movies == [movies[0]];
    k := OneNamed(boxes, MOOV, movies[0]);
  }

  /** The whole check, on any bytes: they pass exactly when they are written down like this. */
  lemma FileIff(bytes: Bytes)
    ensures Accepts(bytes) <==> exists ftyp, before, movie, after, tail :: FileAs(bytes, ftyp, before, movie,
        after, tail)
  {
    AcceptsIff(bytes);
    if ftyp, boxes, tail :| IsFile(bytes, ftyp, boxes, tail) {
      FileWritten(bytes, ftyp, boxes, tail);
    }
    if ftyp, before, movie, after, tail :| FileAs(bytes, ftyp, before, movie, after, tail) {
      FileRead(bytes, ftyp, before, movie, after, tail);
    }
  }

  lemma FileWritten(bytes: Bytes, ftyp: Box, boxes: seq<Box>, tail: Bytes)
    requires IsFile(bytes, ftyp, boxes, tail)
    ensures exists before, movie, after :: FileAs(bytes, ftyp, before, movie, after, tail)
  {
    hide Movie, MovieIs, FileType, FileTypeAs, MediaFollows, MediaAs, Fits, Print, PrintAll, AllPadding, Middle;
    FileTypeIff(ftyp);
    MediaIff(tail);
    var k := MiddleSplits(boxes);
    var movie := boxes[k].data;
    MovieIff(movie);
    Around(boxes, k);
    assert boxes[k] == Box(MOOV, movie);
    assert bytes == Print(ftyp) + PrintAll(boxes[..k]) + Print(Box(MOOV, movie)) + PrintAll(boxes[k + 1..]) + tail;
    assert FileAs(bytes, ftyp, boxes[..k], movie, boxes[k + 1..], tail);
  }

  lemma FileRead(bytes: Bytes, ftyp: Box, before: seq<Box>, movie: Bytes, after: seq<Box>, tail: Bytes)
    requires FileAs(bytes, ftyp, before, movie, after, tail)
    ensures exists boxes :: IsFile(bytes, ftyp, boxes, tail)
  {
    hide Movie, MovieIs, FileType, FileTypeAs, MediaFollows, MediaAs, Fits, Print, PrintAll, AllPadding, Middle;
    FileTypeIff(ftyp);
    MediaIff(tail);
    MovieIff(movie);
    MiddleAround(before, movie, after);
    var boxes := before + [Box(MOOV, movie)] + after;
    Around(boxes, |before|);
    assert boxes[..|before|] == before && boxes[|before| + 1..] == after;
    assert bytes == Print(ftyp) + (PrintAll(boxes) + tail);
    assert IsFile(bytes, ftyp, boxes, tail);
  }
}
