/** Byte strings and the big-endian words read from them. */
module Bytes {
  type Bytes = seq<bv8>

  predicate StartsWith(bytes: Bytes, prefix: Bytes) {
    |bytes| >= |prefix| && bytes[..|prefix|] == prefix
  }

  function Value(b: bv8): nat {
    b as nat
  }

  /** A number followed by one more byte. */
  function Join(n: nat, d: nat): nat {
    n * 0x100 + d
  }

  function Be32(bytes: Bytes): nat
    requires |bytes| == 4
  {
    Join(Join(Join(Value(bytes[0]), Value(bytes[1])), Value(bytes[2])), Value(bytes[3]))
  }
}
