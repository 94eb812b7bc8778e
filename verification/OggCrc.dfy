/**
  The page checksum of RFC 3533 section 6: a 32-bit register shifted once per message
  bit. Shifts are linear and reversible.
*/
module OggCrc {
  import opened Bytes

  const POLYNOMIAL: bv32 := 0x04c1_1db7

  predicate Carries(crc: bv32) {
    crc & 0x8000_0000 != 0
  }

  function Feedback(crc: bv32): bv32 {
    if Carries(crc) then POLYNOMIAL else 0
  }

  /** Addition of bit polynomials. */
  function Plus(a: bv32, b: bv32): bv32 {
    a ^ b
  }

  function Doubled(crc: bv32): bv32 {
    crc << 1
  }

  function Shift(crc: bv32): bv32 {
    Plus(Doubled(crc), Feedback(crc))
  }

  function Shifts(n: nat, crc: bv32): bv32 {
    if n == 0 then crc else Shift(Shifts(n - 1, crc))
  }

  /** A byte at the top of a word. */
  function Top(byte: bv8): bv32 {
    (byte as bv32) << 24
  }

  function Feed(crc: bv32, byte: bv8): bv32 {
    Shifts(8, Plus(crc, Top(byte)))
  }

  function Register(crc: bv32, bytes: Bytes): bv32 {
    if bytes == [] then crc else Feed(Register(crc, bytes[..|bytes| - 1]), bytes[|bytes| - 1])
  }

  // ----- One shift is reversible

  function Unshift(crc: bv32): bv32 {
    if crc & 1 != 0 then ((crc ^ POLYNOMIAL) >> 1) | 0x8000_0000 else crc >> 1
  }

  lemma UnshiftBits(crc: bv32)
    ensures crc & 0x8000_0000 != 0 ==>
      ((crc << 1) ^ 0x04c1_1db7) & 1 != 0 && ((((crc << 1) ^ 0x04c1_1db7) ^ 0x04c1_1db7) >> 1) | 0x8000_0000 == crc
    ensures crc & 0x8000_0000 == 0 ==> ((crc << 1) ^ 0) & 1 == 0 && ((crc << 1) ^ 0) >> 1 == crc
  {
  }

  lemma ShiftWithFeedback(crc: bv32)
    requires Carries(crc)
    ensures Shift(crc) == (crc << 1) ^ 0x04c1_1db7
  {
  }

  lemma ShiftWithout(crc: bv32)
    requires !Carries(crc)
    ensures Shift(crc) == (crc << 1) ^ 0
  {
  }

  lemma ShiftIsReversible(crc: bv32)
    ensures Unshift(Shift(crc)) == crc
  {
    hide Shift, Feedback, Plus, Doubled;
    UnshiftBits(crc);
    if Carries(crc) {
      ShiftWithFeedback(crc);
    } else {
      ShiftWithout(crc);
    }
  }

  // ----- Shifts are linear

  lemma CarryBits(a: bv32, b: bv32)
    ensures (a & 0x8000_0000 != 0) != (b & 0x8000_0000 != 0) <==> (a ^ b) & 0x8000_0000 != 0
  {
  }

  lemma FeedbackIsLinear(a: bv32, b: bv32)
    ensures Feedback(Plus(a, b)) == Plus(Feedback(a), Feedback(b))
  {
    CarryBits(a, b);
    var p, zero: bv32 := POLYNOMIAL, 0;
    assert p ^ p == zero && p ^ zero == p && zero ^ p == p;
  }

  lemma DoubledIsLinear(a: bv32, b: bv32)
    ensures Doubled(Plus(a, b)) == Plus(Doubled(a), Doubled(b))
  {
  }

  lemma PlusCommutes(a: bv32, b: bv32)
    ensures Plus(a, b) == Plus(b, a)
  {
  }

  lemma PlusAssociates(a: bv32, b: bv32, c: bv32)
    ensures Plus(Plus(a, b), c) == Plus(a, Plus(b, c))
  {
  }

  lemma PlusRegroups(a: bv32, b: bv32, p: bv32, q: bv32)
    ensures Plus(Plus(a, b), Plus(p, q)) == Plus(Plus(a, p), Plus(b, q))
  {
    hide Plus;
    PlusAssociates(a, b, Plus(p, q));
    PlusAssociates(b, p, q);
    PlusCommutes(b, p);
    PlusAssociates(p, b, q);
    PlusAssociates(a, p, Plus(b, q));
  }

  lemma ShiftIsLinear(a: bv32, b: bv32)
    ensures Shift(Plus(a, b)) == Plus(Shift(a), Shift(b))
  {
    hide Feedback, Plus, Doubled;
    FeedbackIsLinear(a, b);
    DoubledIsLinear(a, b);
    PlusRegroups(Doubled(a), Doubled(b), Feedback(a), Feedback(b));
  }

  lemma {:induction false} ShiftsAreLinear(n: nat, a: bv32, b: bv32)
    ensures Shifts(n, Plus(a, b)) == Plus(Shifts(n, a), Shifts(n, b))
  {
    hide Shift, Plus;
    if n > 0 {
      ShiftsAreLinear(n - 1, a, b);
      ShiftIsLinear(Shifts(n - 1, a), Shifts(n - 1, b));
    }
  }

  // ----- Shifts without feedback only double

  /** None of the doublings carries, and together they make `raised`. */
  predicate Rises(n: nat, x: bv32, raised: bv32) {
    if n == 0 then x == raised else !Carries(x) && Rises(n - 1, Doubled(x), raised)
  }

  lemma {:induction false} RisesByShifts(n: nat, m: nat, x: bv32, y: bv32, raised: bv32)
    requires Rises(n, y, raised) && Shifts(m, x) == y
    ensures Shifts(m + n, x) == raised
  {
    hide Shift, Carries, Doubled;
    if n > 0 {
      OneRise(y);
      RisesByShifts(n - 1, m + 1, x, Doubled(y), raised);
    }
  }

  lemma OneRise(y: bv32)
    requires !Carries(y)
    ensures Shift(y) == Doubled(y)
  {
    assert (y << 1) ^ 0 == y << 1;
  }

  lemma PlusCancels(a: bv32, b: bv32, x: bv32)
    requires Plus(a, x) == Plus(b, x)
    ensures a == b
  {
  }
}
