/**
  Boxes of ISO/IEC 14496-12 section 4.2 in the bounded form the playback check reads:
  a 32-bit size, a four-byte kind, a payload. Looking up a child succeeds exactly on a
  sequence of such boxes that names it once and encrypts nothing.
*/
module BoxParser {
  import opened Basics
  import opened Bytes
  import opened ByteWords

  datatype Box = Box(kind: Bytes, data: Bytes)

  const SINF: Bytes := [0x73, 0x69, 0x6e, 0x66]
  const ENCV: Bytes := [0x65, 0x6e, 0x63, 0x76]
  const ENCA: Bytes := [0x65, 0x6e, 0x63, 0x61]

  predicate Fits(b: Box) {
    |b.kind| == 4 && 8 + |b.data| < MAX_SIZE
  }

  predicate AllFit(boxes: seq<Box>) {
    forall i :: 0 <= i < |boxes| ==> Fits(boxes[i])
  }

  predicate Encrypted(kind: Bytes) {
    kind == SINF || kind == ENCV || kind == ENCA
  }

  // ----- Writing boxes, for the statements only

  function Print(b: Box): Bytes {
    Be32Bytes(8 + |b.data|) + b.kind + b.data
  }

  function PrintAll(boxes: seq<Box>): Bytes {
    if boxes == [] then [] else Print(boxes[0]) + PrintAll(boxes[1..])
  }

  // ----- One box

  /** Kind, payload and what follows; nothing when the size is short or runs past the end. */
  function ReadBox(bytes: Bytes): (r: Option<(Bytes, Bytes, Bytes)>)
    ensures r.Some? ==> |r.value.2| < |bytes|
  {
    if |bytes| < 8 then None
    else
      var size := Be32(bytes[..4]);
      if size < 8 || size > |bytes| then None
      else Some((bytes[4..8], bytes[8..size], bytes[size..]))
  }

  lemma ReadPrinted(b: Box, rest: Bytes)
    requires Fits(b)
    ensures ReadBox(Print(b) + rest) == Some((b.kind, b.data, rest))
  {
    hide Be32, Be32Bytes;
    WrittenWord(8 + |b.data|);
    var word := Be32Bytes(8 + |b.data|);
    WordIsFour(8 + |b.data|);
    var bytes := Print(b) + rest;
    assert bytes[..4] == word && bytes[4..8] == b.kind;
    assert bytes[8..8 + |b.data|] == b.data && bytes[8 + |b.data|..] == rest;
  }

  lemma WordIsFour(n: nat)
    ensures |Be32Bytes(n)| == 4
  {
  }

  lemma PrintedRead(bytes: Bytes)
    requires ReadBox(bytes).Some?
    ensures var (kind, data, rest) := ReadBox(bytes).value;
      Fits(Box(kind, data)) && bytes == Print(Box(kind, data)) + rest
  {
    hide Be32, Be32Bytes;
    ReadWord(bytes[..4]);
    var size := Be32(bytes[..4]);
    assert bytes == bytes[..4] + bytes[4..8] + bytes[8..size] + bytes[size..];
  }

  // ----- A sequence of boxes

  /** The boxes that make up the bytes, if they are boxes throughout. */
  function Split(bytes: Bytes): Option<seq<Box>>
    decreases |bytes|
  {
    if bytes == [] then Some([])
    else match ReadBox(bytes)
      case None => None
      case Some((kind, data, rest)) =>
        match Split(rest)
        case None => None
        case Some(boxes) => Some([Box(kind, data)] + boxes)
  }

  lemma {:induction false} SplitPrinted(boxes: seq<Box>)
    requires AllFit(boxes)
    ensures Split(PrintAll(boxes)) == Some(boxes)
  {
    hide ReadBox, Print;
    if boxes != [] {
      SplitPrinted(boxes[1..]);
      ReadPrinted(boxes[0], PrintAll(boxes[1..]));
      PrintIsNotEmpty(boxes[0]);
      assert boxes == [boxes[0]] + boxes[1..];
    }
  }

  lemma PrintIsNotEmpty(b: Box)
    ensures |Print(b)| == 4 + |b.kind| + |b.data|
  {
  }

  lemma {:induction false} PrintedSplit(bytes: Bytes)
    requires Split(bytes).Some?
    ensures AllFit(Split(bytes).value) && PrintAll(Split(bytes).value) == bytes
    decreases |bytes|
  {
    hide ReadBox, Print, Fits;
    if bytes != [] {
      ReadIsShorter(bytes);
      PrintedSplit(ReadBox(bytes).value.2);
      PrintedRead(bytes);
    }
  }

  lemma ReadIsShorter(bytes: Bytes)
    requires ReadBox(bytes).Some?
    ensures |ReadBox(bytes).value.2| < |bytes|
  {
  }

  // ----- Looking up a child

  function Scan(bytes: Bytes, name: Bytes, found: Option<Bytes>): Option<Bytes>
    decreases |bytes|
  {
    if bytes == [] then found
    else match ReadBox(bytes)
      case None => None
      case Some((kind, data, rest)) =>
        if (kind == name && found.Some?) || Encrypted(kind) then None
        else Scan(rest, name, if kind == name then Some(data) else found)
  }

  function Child(bytes: Bytes, name: Bytes): Option<Bytes> {
    Scan(bytes, name, None)
  }

  method Mp4Child(bytes: Bytes, name: Bytes) returns (found: Option<Bytes>)
    ensures found == Child(bytes, name)
  {
    found := None;
    var rest := bytes;
    while rest != []
      invariant Scan(rest, name, found) == Child(bytes, name)
      decreases |rest|
    {
      var box := ReadBox(rest);
      if box.None? {
        return None;
      }
      var (kind, data, next) := box.value;
      if kind == name {
        if found.Some? {
          return None;
        }
        found := Some(data);
      }
      if Encrypted(kind) {
        return None;
      }
      rest := next;
    }
  }

  /** Payloads of the boxes of one kind, in order. */
  function Named(boxes: seq<Box>, name: Bytes): seq<Bytes> {
    if boxes == [] then []
    else (if boxes[0].kind == name then [boxes[0].data] else []) + Named(boxes[1..], name)
  }

  predicate NoneEncrypted(boxes: seq<Box>) {
    forall i :: 0 <= i < |boxes| ==> !Encrypted(boxes[i].kind)
  }

  function Only(payloads: seq<Bytes>): Option<Bytes> {
    if |payloads| == 1 then Some(payloads[0]) else None
  }

  function Earlier(found: Option<Bytes>): seq<Bytes> {
    if found.Some? then [found.value] else []
  }

  lemma {:induction false} ScanPrinted(boxes: seq<Box>, name: Bytes, found: Option<Bytes>)
    requires AllFit(boxes)
    ensures Scan(PrintAll(boxes), name, found)
         == if NoneEncrypted(boxes) then Only(Earlier(found) + Named(boxes, name)) else None
  {
    hide ReadBox, Print, Encrypted, Fits;
    if boxes == [] {
      assert Earlier(found) + Named(boxes, name) == Earlier(found);
    } else {
      var kind, data := boxes[0].kind, boxes[0].data;
      ReadPrinted(boxes[0], PrintAll(boxes[1..]));
      PrintIsNotEmpty(boxes[0]);
      var next := if kind == name then Some(data) else found;
      ScanPrinted(boxes[1..], name, next);
      assert NoneEncrypted(boxes) <==> !Encrypted(kind) && NoneEncrypted(boxes[1..]);
      if !(kind == name && found.Some?) {
        assert Earlier(next) + Named(boxes[1..], name) == Earlier(found) + Named(boxes, name);
      }
    }
  }

  lemma {:induction false} ScanNeedsBoxes(bytes: Bytes, name: Bytes, found: Option<Bytes>)
    requires Scan(bytes, name, found).Some?
    ensures Split(bytes).Some?
    decreases |bytes|
  {
    hide Encrypted;
    if bytes != [] {
      var (kind, data, rest) := ReadBox(bytes).value;
      ScanNeedsBoxes(rest, name, if kind == name then Some(data) else found);
    }
  }

  /** On boxes throughout, the child found is the payload of the one box so named, unless any box is encrypted. */
  lemma ChildOfBoxes(boxes: seq<Box>, name: Bytes)
    requires AllFit(boxes)
    ensures Child(PrintAll(boxes), name) == if NoneEncrypted(boxes) then Only(Named(boxes, name)) else None
  {
    ScanPrinted(boxes, name, None);
    assert Earlier(None) + Named(boxes, name) == Named(boxes, name);
  }

  ghost predicate IsTheChild(boxes: seq<Box>, bytes: Bytes, name: Bytes, data: Bytes) {
    AllFit(boxes) && PrintAll(boxes) == bytes && NoneEncrypted(boxes) && Named(boxes, name) == [data]
  }

  /** For any bytes at all: a child is found exactly when they are boxes that name it once and encrypt nothing. */
  lemma ChildIff(bytes: Bytes, name: Bytes, data: Bytes)
    ensures Child(bytes, name) == Some(data) <==> exists boxes :: IsTheChild(boxes, bytes, name, data)
  {
    if Child(bytes, name) == Some(data) {
      ScanNeedsBoxes(bytes, name, None);
      PrintedSplit(bytes);
      ChildOfBoxes(Split(bytes).value, name);
      assert IsTheChild(Split(bytes).value, bytes, name, data);
    }
    if boxes :| IsTheChild(boxes, bytes, name, data) {
      ChildOfBoxes(boxes, name);
    }
  }
}
