/** Bytes, bit strings and little-endian integers.

    A byte is an integer below 256. Bit strings are least significant bit first, the order in
    which the reflected CRC-32 consumes them.
 */
module Bits {

  type byte = x: int | 0 <= x < 256

  function Pow2(n: nat): (p: nat)
    ensures p >= 1
  {
    if n == 0 then 1 else 2 * Pow2(n - 1)
  }

  /** The n lowest bits of v. */
  function BitsOf(v: nat, n: nat): (bits: seq<bool>)
    ensures |bits| == n
    decreases n, v
  {
    if n == 0 then [] else [v % 2 == 1] + BitsOf(v / 2, n - 1)
  }

  function Value(bits: seq<bool>): (v: nat)
    ensures v < Pow2(|bits|)
  {
    if |bits| == 0 then 0 else (if bits[0] then 1 else 0) + 2 * Value(bits[1..])
  }

  lemma {:induction false} BitsOfValue(bits: seq<bool>)
    ensures BitsOf(Value(bits), |bits|) == bits
  {
    if |bits| == 0 {
    } else {
      BitsOfValue(bits[1..]);
      assert bits == [bits[0]] + bits[1..];
    }
  }

  lemma {:induction false} ValueOfBits(v: nat, n: nat)
    requires v < Pow2(n)
    ensures Value(BitsOf(v, n)) == v
    decreases n
  {
    if n == 0 {
    } else {
      ValueOfBits(v / 2, n - 1);
      assert BitsOf(v, n)[1..] == BitsOf(v / 2, n - 1);
    }
  }

  lemma {:induction false} HighBitsClear(v: nat, m: nat, i: nat, n: nat)
    requires v < Pow2(m) && m <= i < n
    ensures !BitsOf(v, n)[i]
    decreases i
  {
    if i == 0 {
    } else {
      if m > 0 {
        HighBitsClear(v / 2, m - 1, i - 1, n - 1);
      } else {
        HighBitsClear(v / 2, 0, i - 1, n - 1);
      }
    }
  }

  lemma {:induction false} BitsOfPrefix(v: nat, m: nat, n: nat)
    requires m <= n
    ensures BitsOf(v, n)[..m] == BitsOf(v, m)
    decreases m
  {
    if m > 0 {
      BitsOfPrefix(v / 2, m - 1, n - 1);
    }
  }

  lemma Pow2Of32()
    ensures Pow2(32) == 0x1_0000_0000
  {
    assert Pow2(8) == 0x100;
    assert Pow2(16) == 0x1_0000;
    assert Pow2(24) == 0x100_0000;
  }

  /** The n lowest bytes of v, least significant first; higher bytes are dropped. */
  function LittleEndian(v: nat, n: nat): (bytes: seq<byte>)
    ensures |bytes| == n
    decreases n, v
  {
    if n == 0 then [] else [v % 256] + LittleEndian(v / 256, n - 1)
  }

  function FromLittleEndian(bytes: seq<byte>): nat {
    if |bytes| == 0 then 0 else bytes[0] + 256 * FromLittleEndian(bytes[1..])
  }

  /** What four bytes can hold of v is its remainder modulo 2^32. */
  lemma FourBytes(v: nat)
    ensures FromLittleEndian(LittleEndian(v, 4)) == v % 0x1_0000_0000
  {
    LowByte(v, 3);
    LowByte(v / 256, 2);
    LowByte(v / 256 / 256, 1);
    LowByte(v / 256 / 256 / 256, 0);
    Remainder(v, 0x100_0000);
    Remainder(v / 256, 0x1_0000);
    Remainder(v / 256 / 256, 0x100);
  }

  lemma LowByte(v: nat, n: nat)
    ensures FromLittleEndian(LittleEndian(v, n + 1)) == v % 256 + 256 * FromLittleEndian(LittleEndian(v / 256, n))
  {
    assert LittleEndian(v, n + 1)[1..] == LittleEndian(v / 256, n);
  }

  lemma Remainder(v: nat, m: nat)
    requires m == 0x100 || m == 0x1_0000 || m == 0x100_0000
    ensures v % (256 * m) == v % 256 + 256 * (v / 256 % m)
  {
  }

  lemma {:induction false} LittleEndianOfFrom(bytes: seq<byte>)
    ensures LittleEndian(FromLittleEndian(bytes), |bytes|) == bytes
  {
    if |bytes| == 0 {
    } else {
      LittleEndianOfFrom(bytes[1..]);
      assert bytes == [bytes[0]] + bytes[1..];
    }
  }
}
