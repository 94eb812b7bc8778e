/**
  Length-prefixed descriptors of the AAC sample description: a tag, a length of one to
  four seven-bit digits, and that many bytes of content.
*/
module Descriptor {
  import opened Basics
  import opened Bytes

  predicate More(b: bv8) {
    b & 128 != 0
  }

  function Digit(b: bv8): nat {
    Value(b & 127)
  }

  /** From digit `i` on, with the value of the earlier digits: where the content starts and how long it is. */
  function LengthFrom(bytes: Bytes, i: nat, size: nat): Option<(nat, nat)>
    decreases 5 - i
  {
    if i > 4 || i >= |bytes| then None
    else
      var next := size * 128 + Digit(bytes[i]);
      if More(bytes[i]) then LengthFrom(bytes, i + 1, next) else Some((i + 1, next))
  }

  function Content(bytes: Bytes, tag: bv8): Option<Bytes> {
    if bytes == [] || bytes[0] != tag then None
    else match LengthFrom(bytes, 1, 0)
      case None => None
      case Some((start, size)) => if start + size <= |bytes| then Some(bytes[start..start + size]) else None
  }

  method ReadDescriptor(bytes: Bytes, tag: bv8) returns (content: Option<Bytes>)
    ensures content == Content(bytes, tag)
  {
    if bytes == [] || bytes[0] != tag {
      return None;
    }
    var size: nat := 0;
    for i := 1 to 5
      invariant LengthFrom(bytes, i, size) == LengthFrom(bytes, 1, 0)
    {
      if i >= |bytes| {
        return None;
      }
      size := size * 128 + Digit(bytes[i]);
      if !More(bytes[i]) {
        if i + 1 + size > |bytes| {
          return None;
        }
        return Some(bytes[i + 1..i + 1 + size]);
      }
    }
    return None;
  }

  // ----- What a descriptor is

  function Digits(length: Bytes): nat {
    if length == [] then 0 else Digits(length[..|length| - 1]) * 128 + Digit(length[|length| - 1])
  }

  predicate IsLength(length: Bytes, n: nat) {
    1 <= |length| <= 4 && Digits(length) == n && !More(length[|length| - 1])
    && forall i :: 0 <= i < |length| - 1 ==> More(length[i])
  }

  predicate IsDescriptor(bytes: Bytes, tag: bv8, length: Bytes, content: Bytes, rest: Bytes) {
    bytes == [tag] + length + content + rest && IsLength(length, |content|)
  }

  lemma {:induction false} LengthIsRead(bytes: Bytes, i: nat, length: Bytes)
    requires 1 <= i <= |length| < |bytes| && bytes[1..1 + |length|] == length && IsLength(length, Digits(length))
    ensures LengthFrom(bytes, i, Digits(length[..i - 1])) == Some((1 + |length|, Digits(length)))
    decreases |length| - i
  {
    assert bytes[i] == bytes[1..1 + |length|][i - 1] == length[i - 1];
    assert length[..i][..i - 1] == length[..i - 1];
    if i < |length| {
      LengthIsRead(bytes, i + 1, length);
    } else {
      assert length[..i] == length;
    }
  }

  lemma OneDigitMore(bytes: Bytes, i: nat)
    requires 1 <= i < |bytes|
    ensures Digits(bytes[1..i + 1]) == Digits(bytes[1..i]) * 128 + Digit(bytes[i])
  {
    hide Digit;
    assert bytes[1..i + 1][..i - 1] == bytes[1..i];
  }

  lemma {:induction false} ReadIsLength(bytes: Bytes, i: nat)
    requires 1 <= i <= 5 && i <= |bytes| && (forall k :: 1 <= k < i ==> More(bytes[k]))
    requires LengthFrom(bytes, i, Digits(bytes[1..i])).Some?
    ensures var (start, size) := LengthFrom(bytes, i, Digits(bytes[1..i])).value;
      i < start <= |bytes| && IsLength(bytes[1..start], size)
    decreases 5 - i
  {
    hide More, Digit, Digits;
    OneDigitMore(bytes, i);
    if More(bytes[i]) {
      ReadIsLength(bytes, i + 1);
    }
  }

  lemma ContentIsDescribed(bytes: Bytes, tag: bv8)
    requires Content(bytes, tag).Some?
    ensures exists length, rest :: IsDescriptor(bytes, tag, length, Content(bytes, tag).value, rest)
  {
    hide LengthFrom, IsLength;
    var content := Content(bytes, tag).value;
    NoDigits(bytes);
    ReadIsLength(bytes, 1);
    var (start, size) := LengthFrom(bytes, 1, 0).value;
    assert bytes == [tag] + bytes[1..start] + content + bytes[start + size..];
    assert IsDescriptor(bytes, tag, bytes[1..start], content, bytes[start + size..]);
  }

  lemma NoDigits(bytes: Bytes)
    requires bytes != []
    ensures Digits(bytes[1..1]) == 0
  {
  }

  lemma DescribedIsContent(bytes: Bytes, tag: bv8, length: Bytes, content: Bytes, rest: Bytes)
    requires IsDescriptor(bytes, tag, length, content, rest)
    ensures Content(bytes, tag) == Some(content)
  {
    hide LengthFrom, Digit, More;
    assert bytes[1..1 + |length|] == length;
    assert Digits(length[..0]) == 0;
    LengthIsRead(bytes, 1, length);
    assert bytes[1 + |length|..1 + |length| + |content|] == content;
  }

  /** Reading succeeds exactly on descriptors with this tag, and yields their content. */
  lemma ContentIff(bytes: Bytes, tag: bv8, content: Bytes)
    ensures Content(bytes, tag) == Some(content) <==>
      exists length, rest :: IsDescriptor(bytes, tag, length, content, rest)
  {
    hide Content, IsDescriptor;
    if Content(bytes, tag) == Some(content) {
      ContentIsDescribed(bytes, tag);
    }
    if length, rest :| IsDescriptor(bytes, tag, length, content, rest) {
      DescribedIsContent(bytes, tag, length, content, rest);
    }
  }

  /** Digits are seven bits wide, most significant first, and the high bit says that another follows. */
  lemma SpelledLengths()
    ensures IsLength([0x19], 25) && IsLength([0x80, 0x80, 0x80, 0x19], 25)
    ensures IsLength([0x81, 0x23], 163) && IsLength([0xff, 0xff, 0xff, 0x7f], 268_435_455)
    ensures !IsLength([0x80, 0x80, 0x80, 0x80, 0x19], 25) && !IsLength([0x81], 1)
  {
    assert More(0x80) && More(0x81) && More(0xff) && !More(0x19) && !More(0x23) && !More(0x7f);
    assert Digit(0x80) == 0 && Digit(0x81) == 1 && Digit(0x19) == 25 && Digit(0x23) == 35;
    assert Digit(0xff) == 127 && Digit(0x7f) == 127;
    hide More, Digit;
    DigitsOfTwo(0x80, 0x80);
    DigitsOfTwo(0x80, 0x19);
    DigitsOfTwo(0x81, 0x23);
    DigitsOfTwo(0xff, 0xff);
    DigitsOfFour(0x80, 0x80, 0x80, 0x19);
    DigitsOfFour(0xff, 0xff, 0xff, 0x7f);
  }

  lemma DigitsOfTwo(c: bv8, d: bv8)
    ensures Digits([d]) == Digit(d) && Digits([c, d]) == 128 * Digit(c) + Digit(d)
  {
    hide Digit;
    assert [c, d][..1] == [c] && [c][..0] == [] && [d][..0] == [];
    assert Digits([c]) == Digit(c);
  }

  lemma DigitsOfFour(a: bv8, b: bv8, c: bv8, d: bv8)
    ensures Digits([a, b, c, d]) == 128 * (128 * Digits([a, b]) + Digit(c)) + Digit(d)
  {
    hide Digit;
    assert [a, b, c, d][..3] == [a, b, c] && [a, b, c][..2] == [a, b];
    assert Digits([a, b, c]) == 128 * Digits([a, b]) + Digit(c);
  }
}
