/** Writing a number as a big-endian word, the inverse of reading one. */
module ByteWords {
  import opened Bytes

  const MAX_SIZE: nat := 0x1_0000_0000

  lemma NextValue(b: bv8)
    requires b != 0xff
    ensures Value(b + 1) == Value(b) + 1
  {
  }

  lemma LastValue(b: bv8)
    ensures 0 <= Value(b) < 0x100 && (Value(b) == 0xff <==> b == 0xff)
  {
  }

  function SmallByte(n: nat): (b: bv8)
    requires n < 0x100
    ensures Value(b) == n
  {
    if n == 0 then 0
    else
      var b := SmallByte(n - 1);
      NextByteValue(b, n);
      b + 1
  }

  lemma NextByteValue(b: bv8, n: nat)
    requires Value(b) == n - 1 && n < 0x100
    ensures Value(b + 1) == n
  {
    LastValue(b);
    NextValue(b);
  }

  function Upper(n: nat): nat {
    n / 0x100
  }

  function LowByte(n: nat): (d: nat)
    ensures d < 0x100
  {
    n % 0x100
  }

  function ByteOf(n: nat): bv8 {
    SmallByte(LowByte(n))
  }

  function Be32Bytes(n: nat): Bytes {
    [ByteOf(Upper(Upper(Upper(n)))), ByteOf(Upper(Upper(n))), ByteOf(Upper(n)), ByteOf(n)]
  }

  lemma ValueIsInjective(b: bv8, c: bv8)
    requires Value(b) == Value(c)
    ensures b == c
  {
  }

  lemma JoinSplits(n: nat, d: nat)
    requires d < 0x100
    ensures Upper(Join(n, d)) == n && LowByte(Join(n, d)) == d
  {
  }

  lemma SplitJoins(n: nat)
    ensures Join(Upper(n), LowByte(n)) == n
  {
  }

  lemma TopIsSmall(n: nat)
    requires n < MAX_SIZE
    ensures Upper(Upper(Upper(n))) == LowByte(Upper(Upper(Upper(n))))
  {
  }

  lemma WrittenWord(n: nat)
    requires n < MAX_SIZE
    ensures Be32(Be32Bytes(n)) == n
  {
    hide SmallByte, Upper, LowByte, Join, Value;
    TopIsSmall(n);
    SplitJoins(Upper(Upper(n)));
    SplitJoins(Upper(n));
    SplitJoins(n);
  }

  lemma SameByte(n: nat, b: bv8)
    requires LowByte(n) == Value(b)
    ensures ByteOf(n) == b
  {
    hide Value, LowByte;
    ValueIsInjective(ByteOf(n), b);
  }

  lemma ByteIsSmall(b: bv8)
    ensures Value(b) < 0x100
  {
  }

  lemma WordIsBounded(w: Bytes)
    requires |w| == 4
    ensures Be32(w) < MAX_SIZE
  {
    hide Value;
    ByteIsSmall(w[0]);
    ByteIsSmall(w[1]);
    ByteIsSmall(w[2]);
    ByteIsSmall(w[3]);
  }

  lemma DigitsOfWord(a: nat, b: nat, c: nat, d: nat)
    requires a < 0x100 && b < 0x100 && c < 0x100 && d < 0x100
    ensures var n := Join(Join(Join(a, b), c), d);
      LowByte(n) == d && LowByte(Upper(n)) == c && LowByte(Upper(Upper(n))) == b && LowByte(Upper(Upper(Upper(n)))) == a
  {
    hide Upper, LowByte, Join;
    LowOfSmall(a);
    JoinSplits(a, b);
    JoinSplits(Join(a, b), c);
    JoinSplits(Join(Join(a, b), c), d);
  }

  lemma ReadWord(w: Bytes)
    requires |w| == 4
    ensures Be32(w) < MAX_SIZE && Be32Bytes(Be32(w)) == w
  {
    WordIsBounded(w);
    hide ByteOf, Upper, LowByte, Join, Value;
    ByteIsSmall(w[0]);
    ByteIsSmall(w[1]);
    ByteIsSmall(w[2]);
    ByteIsSmall(w[3]);
    DigitsOfWord(Value(w[0]), Value(w[1]), Value(w[2]), Value(w[3]));
    WrittenDigits(w, Be32(w));
  }

  lemma WrittenDigits(w: Bytes, n: nat)
    requires |w| == 4 && LowByte(n) == Value(w[3]) && LowByte(Upper(n)) == Value(w[2])
    requires LowByte(Upper(Upper(n))) == Value(w[1]) && LowByte(Upper(Upper(Upper(n)))) == Value(w[0])
    ensures Be32Bytes(n) == w
  {
    hide ByteOf, Upper, LowByte, Value;
    SameByte(Upper(Upper(Upper(n))), w[0]);
    SameByte(Upper(Upper(n)), w[1]);
    SameByte(Upper(n), w[2]);
    SameByte(n, w[3]);
  }

  lemma LowOfSmall(n: nat)
    requires n < 0x100
    ensures LowByte(n) == n
  {
  }

  /** The most significant byte comes first, both in reading and in writing. */
  lemma WordOrder()
    ensures Be32([1, 2, 3, 4]) == 0x0102_0304 && Be32Bytes(0x0102_0304) == [1, 2, 3, 4]
  {
    ReadWord([1, 2, 3, 4]);
  }
}
