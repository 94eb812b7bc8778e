/**
  The page checksum bit by bit: any damage confined to thirty-two consecutive bits of a
  message, at any bit offset, changes the register.
*/
module OggBits {
  import opened Bytes
  import opened OggCrc

  function Entering(bit: bool): bv32 {
    if bit then 0x8000_0000 else 0
  }

  function FeedBit(crc: bv32, bit: bool): bv32 {
    Shift(Plus(crc, Entering(bit)))
  }

  function FeedBits(crc: bv32, bits: seq<bool>): bv32 {
    if bits == [] then crc else FeedBit(FeedBits(crc, bits[..|bits| - 1]), bits[|bits| - 1])
  }

  // ----- Feeding a byte is feeding its bits, highest first

  function BitsOf(b: bv8): seq<bool> {
    [b & 0x80 != 0, b & 0x40 != 0, b & 0x20 != 0, b & 0x10 != 0, b & 8 != 0, b & 4 != 0, b & 2 != 0, b & 1 != 0]
  }

  function Bits(bytes: Bytes): seq<bool> {
    if bytes == [] then [] else Bits(bytes[..|bytes| - 1]) + BitsOf(bytes[|bytes| - 1])
  }

  /** The place from which a bit reaches the top in `k` doublings. */
  function Place(k: nat): bv32 {
    if k == 0 then 0x8000_0000
    else if k == 1 then 0x4000_0000
    else if k == 2 then 0x2000_0000
    else if k == 3 then 0x1000_0000
    else if k == 4 then 0x0800_0000
    else if k == 5 then 0x0400_0000
    else if k == 6 then 0x0200_0000
    else 0x0100_0000
  }

  function Placed(k: nat, bit: bool): bv32 {
    if bit then Place(k) else 0
  }

  function WordOf(bits: seq<bool>): bv32 {
    if bits == [] then 0 else Plus(WordOf(bits[..|bits| - 1]), Placed(|bits| - 1, bits[|bits| - 1]))
  }

  lemma PlaceDoubles(k: nat)
    requires 0 < k < 8
    ensures Doubled(Place(k)) == Place(k - 1) && !Carries(Place(k))
  {
  }

  lemma {:induction false} PlaceRises(k: nat)
    requires k < 8
    ensures Rises(k, Place(k), Place(0))
  {
    hide Place, Doubled, Carries;
    if k > 0 {
      PlaceDoubles(k);
      PlaceRises(k - 1);
    }
  }

  lemma ZeroShifts()
    ensures Shift(0) == 0
  {
  }

  lemma {:induction false} ZeroStays(n: nat)
    ensures Shifts(n, 0) == 0
  {
    hide Shift;
    if n > 0 {
      ZeroStays(n - 1);
      ZeroShifts();
    }
  }

  lemma PlacedEnters(k: nat, bit: bool)
    requires k < 8
    ensures Shifts(k, Placed(k, bit)) == Entering(bit)
  {
    if bit {
      PlaceRises(k);
      PlaceAtTop();
      assert Shifts(0, Place(k)) == Place(k);
      hide Shifts, Place, Rises;
      RisesByShifts(k, 0, Place(k), Place(k), Place(0));
    } else {
      hide Shifts;
      ZeroStays(k);
    }
  }

  lemma PlaceAtTop()
    ensures Place(0) == 0x8000_0000
  {
  }

  lemma {:induction false} FeedBitsAsShifts(crc: bv32, bits: seq<bool>)
    requires |bits| <= 8
    ensures FeedBits(crc, bits) == Shifts(|bits|, Plus(crc, WordOf(bits)))
  {
    if bits == [] {
      PlusZero(crc);
    } else {
      var n := |bits| - 1;
      var front, bit := bits[..n], bits[n];
      hide Shift, Plus, Placed, Entering;
      FeedBitsAsShifts(crc, front);
      PlacedEnters(n, bit);
      PlusAssociates(crc, WordOf(front), Placed(n, bit));
      ShiftsAreLinear(n, Plus(crc, WordOf(front)), Placed(n, bit));
    }
  }

  lemma PlusZero(crc: bv32)
    ensures Plus(crc, 0) == crc
  {
  }

  lemma ByteAsBits(b: bv8)
    ensures (((((((0
      ^ (if b & 0x80 != 0 then 0x8000_0000 else 0 as bv32)) ^ (if b & 0x40 != 0 then 0x4000_0000 else 0))
      ^ (if b & 0x20 != 0 then 0x2000_0000 else 0)) ^ (if b & 0x10 != 0 then 0x1000_0000 else 0))
      ^ (if b & 8 != 0 then 0x0800_0000 else 0)) ^ (if b & 4 != 0 then 0x0400_0000 else 0))
      ^ (if b & 2 != 0 then 0x0200_0000 else 0)) ^ (if b & 1 != 0 then 0x0100_0000 else 0)
      == (b as bv32) << 24
  {
  }

  lemma WordOfPrefix(bits: seq<bool>, k: nat)
    requires k < |bits|
    ensures WordOf(bits[..k + 1]) == Plus(WordOf(bits[..k]), Placed(k, bits[k]))
  {
    hide Plus, Placed;
    assert bits[..k + 1][..k] == bits[..k];
  }

  function Sum(bits: seq<bool>): bv32
    requires |bits| == 8
  {
    Plus(Plus(Plus(Plus(Plus(Plus(Plus(Plus(0, Placed(0, bits[0])), Placed(1, bits[1])), Placed(2, bits[2])),
      Placed(3, bits[3])), Placed(4, bits[4])), Placed(5, bits[5])), Placed(6, bits[6])), Placed(7, bits[7]))
  }

  function HalfSum(bits: seq<bool>): bv32
    requires |bits| == 8
  {
    Plus(Plus(Plus(Plus(0, Placed(0, bits[0])), Placed(1, bits[1])), Placed(2, bits[2])), Placed(3, bits[3]))
  }

  lemma WordOfFour(bits: seq<bool>)
    requires |bits| == 8
    ensures WordOf(bits[..4]) == HalfSum(bits)
  {
    assert WordOf(bits[..0]) == 0;
    hide WordOf, Plus, Placed;
    WordOfPrefix(bits, 0);
    WordOfPrefix(bits, 1);
    WordOfPrefix(bits, 2);
    WordOfPrefix(bits, 3);
  }

  lemma WordOfEight(bits: seq<bool>)
    requires |bits| == 8
    ensures WordOf(bits) == Sum(bits)
  {
    hide WordOf, Plus, Placed;
    WordOfFour(bits);
    WordOfPrefix(bits, 4);
    WordOfPrefix(bits, 5);
    WordOfPrefix(bits, 6);
    WordOfPrefix(bits, 7);
    assert bits[..8] == bits;
  }

  lemma SumOfByte(b: bv8)
    ensures Sum(BitsOf(b)) == Top(b)
  {
    ByteAsBits(b);
  }

  lemma FeedIsBits(crc: bv32, b: bv8)
    ensures Feed(crc, b) == FeedBits(crc, BitsOf(b))
  {
    hide Shifts, Plus, Top, WordOf, Sum, FeedBits;
    FeedBitsAsShifts(crc, BitsOf(b));
    WordOfEight(BitsOf(b));
    SumOfByte(b);
  }

  lemma {:induction false} FeedBitsOfTail(crc: bv32, head: seq<bool>, tail: seq<bool>)
    ensures FeedBits(crc, head + tail) == FeedBits(FeedBits(crc, head), tail)
    decreases |tail|
  {
    hide FeedBit;
    if tail == [] {
      assert head + tail == head;
    } else {
      var n := |tail| - 1;
      assert (head + tail)[..|head + tail| - 1] == head + tail[..n];
      FeedBitsOfTail(crc, head, tail[..n]);
    }
  }

  /** The register of a message is reached by feeding its bits. */
  lemma {:induction false} RegisterIsBits(crc: bv32, bytes: Bytes)
    ensures Register(crc, bytes) == FeedBits(crc, Bits(bytes))
  {
    if bytes != [] {
      hide Feed, FeedBit, BitsOf;
      var front, last := bytes[..|bytes| - 1], bytes[|bytes| - 1];
      RegisterIsBits(crc, front);
      FeedIsBits(Register(crc, front), last);
      FeedBitsOfTail(crc, Bits(front), BitsOf(last));
    } else {
      assert FeedBits(crc, []) == crc;
    }
  }

  // ----- A difference of registers, followed backwards

  /** The lowest `k` bits are zero. */
  predicate Ends(k: nat, d: bv32) {
    k == 0 || (d & 1 == 0 && Ends(k - 1, d >> 1))
  }

  lemma {:induction false} ZeroEnds(k: nat)
    ensures Ends(k, 0)
  {
    if k > 0 {
      ZeroEnds(k - 1);
    }
  }

  lemma XorBits(a: bv32, b: bv32)
    ensures a & 1 == 0 && b & 1 == 0 ==> (a ^ b) & 1 == 0
    ensures (a ^ b) >> 1 == (a >> 1) ^ (b >> 1)
  {
  }

  lemma {:induction false} EndsIsLinear(k: nat, a: bv32, b: bv32)
    requires Ends(k, a) && Ends(k, b)
    ensures Ends(k, a ^ b)
  {
    if k > 0 {
      XorBits(a, b);
      EndsIsLinear(k - 1, a >> 1, b >> 1);
    }
  }

  lemma ByteEnds(k: nat, d: bv32)
    requires d & 0xff == 0 && Ends(k, d >> 8)
    ensures Ends(k + 8, d)
  {
    LowByteBits(d);
    assert Ends(k + 1, d >> 7);
    assert Ends(k + 2, d >> 6);
    assert Ends(k + 3, d >> 5);
    assert Ends(k + 4, d >> 4);
    assert Ends(k + 5, d >> 3);
    assert Ends(k + 6, d >> 2);
    assert Ends(k + 7, d >> 1);
  }

  lemma LowByteBits(d: bv32)
    requires d & 0xff == 0
    ensures d & 1 == 0 && (d >> 1) & 1 == 0 && (d >> 2) & 1 == 0 && (d >> 3) & 1 == 0
    ensures (d >> 4) & 1 == 0 && (d >> 5) & 1 == 0 && (d >> 6) & 1 == 0 && (d >> 7) & 1 == 0
    ensures (d >> 1) >> 1 == d >> 2 && (d >> 2) >> 1 == d >> 3 && (d >> 3) >> 1 == d >> 4 && (d >> 4) >> 1 == d >> 5
    ensures (d >> 5) >> 1 == d >> 6 && (d >> 6) >> 1 == d >> 7 && (d >> 7) >> 1 == d >> 8
  {
  }

  lemma TopEnds()
    ensures Ends(31, 0x8000_0000)
  {
    var d: bv32 := 0x8000_0000;
    assert Ends(1, 0x40);
    assert Ends(7, 0x80) by {
      assert Ends(1, 2) && Ends(2, 4) && Ends(3, 8) && Ends(4, 16) && Ends(5, 32) && Ends(6, 64);
    }
    assert (0x8000 as bv32) >> 8 == 0x80 && (0x80_0000 as bv32) >> 8 == 0x8000 && d >> 8 == 0x80_0000;
    ByteEnds(7, 0x8000);
    ByteEnds(15, 0x80_0000);
    ByteEnds(23, d);
  }

  lemma {:induction false} EndsOfFewer(k: nat, j: nat, d: bv32)
    requires Ends(k, d) && j <= k
    ensures Ends(j, d)
  {
    if j > 0 {
      EndsOfFewer(k - 1, j - 1, d >> 1);
    }
  }

  lemma NoCarryBehindEnd(z: bv32, k: nat)
    requires k > 0 && Ends(k, Shift(z))
    ensures Ends(k - 1, z)
  {
    hide Shift, Feedback, Plus, Doubled;
    UnshiftBits(z);
    if Carries(z) {
      ShiftWithFeedback(z);
    } else {
      ShiftWithout(z);
    }
  }

  lemma EnteringEnds(a: bool, b: bool, k: nat)
    requires k <= 31
    ensures Ends(k, Plus(Entering(a), Entering(b)))
  {
    hide Ends;
    if a == b {
      ZeroEnds(k);
    } else {
      TopEnds();
      EndsOfFewer(31, k, 0x8000_0000);
    }
  }

  lemma PlusTwice(d: bv32, e: bv32)
    ensures Plus(Plus(d, e), e) == d
  {
  }

  lemma PlusEnds(k: nat, a: bv32, b: bv32)
    requires Ends(k, a) && Ends(k, b)
    ensures Ends(k, Plus(a, b))
  {
    EndsIsLinear(k, a, b);
  }

  /** Where two registers agree on their lowest bits, one bit earlier they agreed on all but one of them. */
  lemma StepBack(x: bv32, y: bv32, a: bool, b: bool, k: nat)
    requires 0 < k <= 32 && Ends(k, Plus(FeedBit(x, a), FeedBit(y, b)))
    ensures Ends(k - 1, Plus(x, y))
  {
    hide Shift, Plus, Entering, Ends;
    var e := Plus(Entering(a), Entering(b));
    var z := Plus(Plus(x, Entering(a)), Plus(y, Entering(b)));
    ShiftIsLinear(Plus(x, Entering(a)), Plus(y, Entering(b)));
    PlusRegroups(x, Entering(a), y, Entering(b));
    NoCarryBehindEnd(z, k);
    EnteringEnds(a, b, k - 1);
    PlusEnds(k - 1, z, e);
    PlusTwice(Plus(x, y), e);
  }

  lemma {:induction false} TraceBack(x: bv32, y: bv32, a: seq<bool>, b: seq<bool>, k: nat)
    requires |a| == |b| <= k <= 32 && Ends(k, Plus(FeedBits(x, a), FeedBits(y, b)))
    ensures Ends(k - |a|, Plus(x, y))
    decreases |a|
  {
    hide FeedBit, Plus, Ends;
    if a != [] {
      var n := |a| - 1;
      StepBack(FeedBits(x, a[..n]), FeedBits(y, b[..n]), a[n], b[n], k);
      TraceBack(x, y, a[..n], b[..n], k - 1);
    }
  }

  lemma OneBitApart(c: bv32)
    ensures Plus(Plus(c, 0x8000_0000), Plus(c, 0)) == 0x8000_0000
    ensures Plus(Plus(c, 0), Plus(c, 0x8000_0000)) == 0x8000_0000
  {
  }

  lemma TopShifts()
    ensures Shift(0x8000_0000) == POLYNOMIAL
  {
  }

  lemma DifferingBit(c: bv32, a: bool)
    ensures Plus(FeedBit(c, a), FeedBit(c, !a)) == POLYNOMIAL
  {
    hide Shift, Plus;
    ShiftIsLinear(Plus(c, Entering(a)), Plus(c, Entering(!a)));
    OneBitApart(c);
    TopShifts();
  }

  lemma PlusSelf(x: bv32)
    ensures Plus(x, x) == 0
  {
  }

  lemma PolynomialIsOdd(k: nat)
    requires Ends(k, POLYNOMIAL)
    ensures k == 0
  {
  }

  lemma {:induction false} BurstReachesRegister(c: bv32, a: seq<bool>, b: seq<bool>)
    requires |a| == |b| <= 32 && a != b
    ensures FeedBits(c, a) != FeedBits(c, b)
    decreases |a|
  {
    hide FeedBit, Plus, Ends;
    assert a == [a[0]] + a[1..] && b == [b[0]] + b[1..];
    FeedBitsOfTail(c, [a[0]], a[1..]);
    FeedBitsOfTail(c, [b[0]], b[1..]);
    OneBit(c, a[0]);
    OneBit(c, b[0]);
    hide FeedBits;
    if a[0] == b[0] {
      BurstReachesRegister(FeedBit(c, a[0]), a[1..], b[1..]);
    } else if FeedBits(c, a) == FeedBits(c, b) {
      PlusSelf(FeedBits(c, a));
      ZeroEnds(32);
      TraceBack(FeedBit(c, a[0]), FeedBit(c, b[0]), a[1..], b[1..], 32);
      DifferingBit(c, a[0]);
      PolynomialIsOdd(32 - |a[1..]|);
    }
  }

  lemma OneBit(c: bv32, bit: bool)
    ensures FeedBits(c, [bit]) == FeedBit(c, bit)
  {
    hide FeedBit;
    assert [bit][..0] == [];
    assert FeedBits(c, []) == c;
  }

  // ----- Bursts in messages

  lemma FeedBitIsInjective(a: bv32, b: bv32, bit: bool)
    requires FeedBit(a, bit) == FeedBit(b, bit)
    ensures a == b
  {
    hide Shift, Plus, Entering;
    ShiftIsReversible(Plus(a, Entering(bit)));
    ShiftIsReversible(Plus(b, Entering(bit)));
    PlusCancels(a, b, Entering(bit));
  }

  lemma {:induction false} SameBitsKeepDifference(a: bv32, b: bv32, tail: seq<bool>)
    requires a != b
    ensures FeedBits(a, tail) != FeedBits(b, tail)
    decreases |tail|
  {
    hide FeedBit;
    if tail != [] {
      var n := |tail| - 1;
      SameBitsKeepDifference(a, b, tail[..n]);
      if FeedBit(FeedBits(a, tail[..n]), tail[n]) == FeedBit(FeedBits(b, tail[..n]), tail[n]) {
        FeedBitIsInjective(FeedBits(a, tail[..n]), FeedBits(b, tail[..n]), tail[n]);
      }
    }
  }

  /** All differences lie in thirty-two consecutive bits. */
  predicate InBurst(a: seq<bool>, b: seq<bool>, f: nat) {
    |a| == |b| && forall i :: 0 <= i < |a| && a[i] != b[i] ==> f <= i < f + 32
  }

  function Upto(n: nat, bound: nat): nat {
    if n <= bound then n else bound
  }

  lemma BurstChangesBits(c: bv32, a: seq<bool>, b: seq<bool>, f: nat)
    requires InBurst(a, b, f) && a != b
    ensures FeedBits(c, a) != FeedBits(c, b)
  {
    hide FeedBits;
    var from, to := Upto(f, |a|), Upto(f + 32, |a|);
    assert a[..from] == b[..from] && a[to..] == b[to..];
    assert a == a[..from] + (a[from..to] + a[to..]) && b == b[..from] + (b[from..to] + b[to..]);
    var s := FeedBits(c, a[..from]);
    FeedBitsOfTail(c, a[..from], a[from..to] + a[to..]);
    FeedBitsOfTail(c, b[..from], b[from..to] + b[to..]);
    FeedBitsOfTail(s, a[from..to], a[to..]);
    FeedBitsOfTail(s, b[from..to], b[to..]);
    BurstReachesRegister(s, a[from..to], b[from..to]);
    SameBitsKeepDifference(FeedBits(s, a[from..to]), FeedBits(s, b[from..to]), a[to..]);
  }

  lemma BitsOfIsInjective(a: bv8, b: bv8)
    requires BitsOf(a) == BitsOf(b)
    ensures a == b
  {
    assert BitsOf(a)[0] == BitsOf(b)[0] && BitsOf(a)[1] == BitsOf(b)[1] && BitsOf(a)[2] == BitsOf(b)[2];
    assert BitsOf(a)[3] == BitsOf(b)[3] && BitsOf(a)[4] == BitsOf(b)[4] && BitsOf(a)[5] == BitsOf(b)[5];
    assert BitsOf(a)[6] == BitsOf(b)[6] && BitsOf(a)[7] == BitsOf(b)[7];
  }

  lemma {:induction false} BitAt(bytes: Bytes, k: nat, j: nat)
    requires k < |bytes| && j < 8
    ensures |Bits(bytes)| == 8 * |bytes| && Bits(bytes)[8 * k + j] == BitsOf(bytes[k])[j]
  {
    hide BitsOf;
    EightBits(bytes[|bytes| - 1]);
    var front := bytes[..|bytes| - 1];
    if k < |front| {
      BitAt(front, k, j);
    } else if front != [] {
      BitAt(front, 0, 0);
    }
  }

  lemma EightBits(b: bv8)
    ensures |BitsOf(b)| == 8
  {
  }

  lemma BitsLength(bytes: Bytes)
    ensures |Bits(bytes)| == 8 * |bytes|
  {
    if bytes != [] {
      BitAt(bytes, 0, 0);
    }
  }

  lemma BitsAreInjective(a: Bytes, b: Bytes)
    requires |a| == |b| && Bits(a) == Bits(b)
    ensures a == b
  {
    forall k | 0 <= k < |a| ensures a[k] == b[k] {
      forall j | 0 <= j < 8 ensures BitsOf(a[k])[j] == BitsOf(b[k])[j] {
        BitAt(a, k, j);
        BitAt(b, k, j);
      }
      BitsOfIsInjective(a[k], b[k]);
    }
  }

  /** Two messages that differ only inside thirty-two consecutive bits have different checksums. */
  lemma BitBurstChangesRegister(a: Bytes, b: Bytes, f: nat)
    requires |a| == |b| && a != b && InBurst(Bits(a), Bits(b), f)
    ensures Register(0, a) != Register(0, b)
  {
    hide Register, FeedBits, Bits, InBurst;
    if Bits(a) == Bits(b) {
      BitsAreInjective(a, b);
    }
    RegisterIsBits(0, a);
    RegisterIsBits(0, b);
    BurstChangesBits(0, Bits(a), Bits(b), f);
  }
}
