/** The checksum as it is computed with 32-bit words, and its check value. */
module CheckValue {
  import opened Bits
  import opened Crc32
  import opened Division

  function Mask(i: nat): bv32 {
    if i == 0 then 1 else Mask(i - 1) << 1
  }

  predicate At(v: bv32, mask: bv32) {
    v & mask != 0
  }

  predicate Single(mask: bv32) {
    mask != 0 && mask & (mask - 1) == 0
  }

  /** The register s is the word v, its lowest bit first. */
  predicate Reads(s: Word, v: bv32) {
    forall i :: 0 <= i < 32 ==> s[i] == At(v, Mask(i))
  }

  lemma Masks()
    ensures Mask(4) == 0x10 && Mask(8) == 0x100 && Mask(12) == 0x1000 && Mask(16) == 0x1_0000
    ensures Mask(20) == 0x10_0000 && Mask(24) == 0x100_0000 && Mask(28) == 0x1000_0000 && Mask(32) == 0
  {
  }

  lemma MaskIsSingle(i: nat)
    requires i < 32
    ensures Single(Mask(i)) && (i > 0 ==> !At(1, Mask(i)))
  {
    Masks();
  }

  // ---------- the operations on words ----------

  function ShiftOf(v: bv32): bv32 {
    if At(v, 1) then (v >> 1) ^ 0xEDB8_8320 else v >> 1
  }

  lemma ShiftAt(v: bv32, mask: bv32)
    requires Single(mask)
    ensures At(ShiftOf(v), mask) == (At(v, mask << 1) != (At(v, 1) && At(0xEDB8_8320, mask)))
  {
  }

  lemma XorAt(v: bv32, w: bv32, mask: bv32)
    requires Single(mask)
    ensures At(v ^ w, mask) == (At(v, mask) != At(w, mask))
  {
  }

  lemma LowTaps(i: nat)
    requires i < 16
    ensures At(0xEDB8_8320, Mask(i)) <==> 31 - i in EXPONENTS
  {
    Masks();
  }

  lemma HighTaps(i: nat)
    requires 16 <= i < 32
    ensures At(0xEDB8_8320, Mask(i)) <==> 31 - i in EXPONENTS
  {
    Masks();
  }

  lemma ShiftReads(s: Word, v: bv32)
    requires Reads(s, v)
    ensures Reads(Shift(s), ShiftOf(v))
  {
    hide At, ShiftOf;
    Masks();
    forall i | 0 <= i < 32
      ensures Shift(s)[i] == At(ShiftOf(v), Mask(i))
    {
      MaskIsSingle(i);
      ShiftAt(v, Mask(i));
      PolynomialIs(i);
      if i < 16 {
        LowTaps(i);
      } else {
        HighTaps(i);
      }
      NoneBeyond(v);
    }
  }

  lemma NoneBeyond(v: bv32)
    ensures !At(v, 0)
  {
  }

  function FeedOf(v: bv32, bit: bool): bv32 {
    ShiftOf(if bit then v ^ 1 else v)
  }

  lemma FeedReads(s: Word, v: bv32, bit: bool)
    requires Reads(s, v)
    ensures Reads(Feed(s, bit), FeedOf(v, bit))
  {
    hide Reads, ShiftOf, Shift;
    FlipReads(s, v);
    assert s[0 := s[0]] == s;
    if bit {
      ShiftReads(s[0 := !s[0]], v ^ 1);
    } else {
      ShiftReads(s, v);
    }
  }

  lemma FlipReads(s: Word, v: bv32)
    requires Reads(s, v)
    ensures Reads(s[0 := !s[0]], v ^ 1)
  {
    hide At;
    OneAt();
    forall i | 0 <= i < 32
      ensures s[0 := !s[0]][i] == At(v ^ 1, Mask(i))
    {
      MaskIsSingle(i);
      XorAt(v, 1, Mask(i));
    }
  }

  lemma OneAt()
    ensures At(1, 1)
  {
  }

  function FeedFour(v: bv32, a: bool, b: bool, c: bool, d: bool): bv32 {
    FeedOf(FeedOf(FeedOf(FeedOf(v, a), b), c), d)
  }

  function FeedDigit(v: bv32, d: nat): bv32
    requires d < 16
  {
    FeedFour(v, d % 2 == 1, d / 2 % 2 == 1, d / 4 % 2 == 1, d / 8 == 1)
  }

  lemma DigitReads(s: Word, v: bv32, d: nat)
    requires Reads(s, v) && d < 16
    ensures Reads(FeedAll(s, Digit(d)), FeedDigit(v, d))
  {
    hide Feed, FeedOf, Reads;
    var x := Digit(d);
    var s1 := Feed(s, x[0]);
    var s2 := Feed(s1, x[1]);
    var s3 := Feed(s2, x[2]);
    FeedReads(s, v, x[0]);
    FeedReads(s1, FeedOf(v, x[0]), x[1]);
    FeedReads(s2, FeedOf(FeedOf(v, x[0]), x[1]), x[2]);
    FeedReads(s3, FeedOf(FeedOf(FeedOf(v, x[0]), x[1]), x[2]), x[3]);
    FedFour(s, x);
  }

  lemma FedFour(s: Word, x: seq<bool>)
    requires |x| == 4
    ensures FeedAll(s, x) == Feed(Feed(Feed(Feed(s, x[0]), x[1]), x[2]), x[3])
  {
    hide Feed;
    var s1 := Feed(s, x[0]);
    var s2 := Feed(s1, x[1]);
    var s3 := Feed(s2, x[2]);
    assert x[1..][1..] == x[2..] && x[2..][1..] == x[3..] && x[3..][1..] == [];
    assert FeedAll(s, x) == FeedAll(s1, x[1..]) == FeedAll(s2, x[2..]) == FeedAll(s3, x[3..]);
    assert FeedAll(s3, x[3..]) == FeedAll(Feed(s3, x[3]), []);
  }

  lemma FourBits(v: nat, n: nat)
    ensures BitsOf(v, n + 4) == Digit(v % 16) + BitsOf(v / 16, n)
  {
    hide BitsOf, Digit;
    OneBit(v, n + 3);
    OneBit(v / 2, n + 2);
    OneBit(v / 4, n + 1);
    OneBit(v / 8, n);
    DigitIs(v);
  }

  lemma OneBit(v: nat, n: nat)
    ensures BitsOf(v, n + 1) == [v % 2 == 1] + BitsOf(v / 2, n)
  {
  }

  lemma DigitIs(v: nat)
    ensures Digit(v % 16) == [v % 2 == 1] + [v / 2 % 2 == 1] + [v / 4 % 2 == 1] + [v / 8 % 2 == 1]
    ensures v / 2 / 2 == v / 4 && v / 4 / 2 == v / 8 && v / 8 / 2 == v / 16
  {
    Halves(v / 16, v % 16);
    Parities(v / 16, v % 16);
    assert v == 16 * (v / 16) + v % 16;
  }

  lemma Halves(q: nat, d: nat)
    requires d < 16
    ensures var v := 16 * q + d;
            && v / 2 == 8 * q + d / 2 && v / 4 == 4 * q + d / 4 && v / 8 == 2 * q + d / 8 && v / 16 == q
            && v / 2 / 2 == v / 4 && v / 4 / 2 == v / 8 && v / 8 / 2 == q
  {
  }

  lemma Parities(q: nat, d: nat)
    requires d < 16
    ensures (16 * q + d) % 2 == d % 2 && (8 * q + d / 2) % 2 == d / 2 % 2
    ensures (4 * q + d / 4) % 2 == d / 4 % 2 && (2 * q + d / 8) % 2 == d / 8
  {
    Even(8 * q, d);
    Even(4 * q, d / 2);
    Even(2 * q, d / 4);
    Even(q, d / 8);
  }

  lemma Even(x: nat, y: nat)
    ensures (2 * x + y) % 2 == y % 2
  {
  }

  lemma BitsAreDigits(b: byte)
    ensures BitsOf(b, 8) == Digit(b % 16) + Digit(b / 16)
  {
    hide Digit, BitsOf;
    FourBits(b, 4);
    FourBits(b / 16, 0);
  }

  function AbsorbOf(v: bv32, b: byte): bv32 {
    FeedDigit(FeedDigit(v, b % 16), b / 16)
  }

  /** The running checksum on words. */
  function RegisterOf(v: bv32, p: seq<byte>): bv32
    decreases |p|
  {
    if |p| == 0 then v else RegisterOf(AbsorbOf(v, p[0]), p[1..])
  }

  lemma {:induction false} RegisterReads(s: Word, v: bv32, p: seq<byte>)
    requires Reads(s, v)
    ensures Reads(Register(s, p), RegisterOf(v, p))
    decreases |p|
  {
    hide Reads, Absorb, FeedDigit, Digit, BitsOf;
    if |p| > 0 {
      var lo, hi := p[0] % 16, p[0] / 16;
      AbsorbFeeds(s, p[0]);
      BitsAreDigits(p[0]);
      FeedAllSplit(s, Digit(lo), Digit(hi));
      DigitReads(s, v, lo);
      DigitReads(FeedAll(s, Digit(lo)), FeedDigit(v, lo), hi);
      RegisterReads(Absorb(s, p[0]), AbsorbOf(v, p[0]), p[1..]);
    }
  }

  // ---------- the check value ----------

  /** The characters from 1 to 9. */
  const DIGITS: seq<byte> := [0x31, 0x32, 0x33, 0x34, 0x35, 0x36, 0x37, 0x38, 0x39]

  /** The digits that occur in them. */
  lemma FedDigits(v: bv32)
    ensures FeedDigit(v, 1) == FeedFour(v, true, false, false, false)
    ensures FeedDigit(v, 2) == FeedFour(v, false, true, false, false)
    ensures FeedDigit(v, 3) == FeedFour(v, true, true, false, false)
    ensures FeedDigit(v, 4) == FeedFour(v, false, false, true, false)
    ensures FeedDigit(v, 5) == FeedFour(v, true, false, true, false)
    ensures FeedDigit(v, 6) == FeedFour(v, false, true, true, false)
    ensures FeedDigit(v, 7) == FeedFour(v, true, true, true, false)
    ensures FeedDigit(v, 8) == FeedFour(v, false, false, false, true)
    ensures FeedDigit(v, 9) == FeedFour(v, true, false, false, true)
  {
    hide FeedFour;
  }

  /** The running checksum after each of them. */
  lemma Absorbed()
    ensures AbsorbOf(0xFFFF_FFFF, 0x31) == 0x7C23_1048 && AbsorbOf(0x7C23_1048, 0x32) == 0xB0AC_BB32
    ensures AbsorbOf(0xB0AC_BB32, 0x33) == 0x77B7_9C2D && AbsorbOf(0x77B7_9C2D, 0x34) == 0x641C_1F5C
  {
    hide FeedDigit;
    forall v: bv32 {
      FedDigits(v);
    }
  }

  lemma AbsorbedThen()
    ensures AbsorbOf(0x641C_1F5C, 0x35) == 0x340A_C5E3 && AbsorbOf(0x340A_C5E3, 0x36) == 0xF68D_2C9E
    ensures AbsorbOf(0xF68D_2C9E, 0x37) == 0xAFFC_9660 && AbsorbOf(0xAFFC_9660, 0x38) == 0x651F_2550
    ensures AbsorbOf(0x651F_2550, 0x39) == 0x340B_C6D9
  {
    hide FeedDigit;
    forall v: bv32 {
      FedDigits(v);
    }
  }

  lemma RegisterOfDigits()
    ensures RegisterOf(0xFFFF_FFFF, DIGITS) == 0x340B_C6D9
  {
    hide AbsorbOf;
    Absorbed();
    AbsorbedThen();
    forall v, k | 0 <= k < 9
      ensures RegisterOf(v, DIGITS[k..]) == RegisterOf(AbsorbOf(v, DIGITS[k]), DIGITS[k + 1..])
    {
    }
    assert DIGITS[0..] == DIGITS;
  }

  lemma ComplementReads(s: Word, v: bv32)
    requires Reads(s, v)
    ensures Reads(Xor(s, ALL_ONES), v ^ 0xFFFF_FFFF)
  {
    hide At, Mask;
    OnesRead();
    forall i | 0 <= i < 32
      ensures Xor(s, ALL_ONES)[i] == At(v ^ 0xFFFF_FFFF, Mask(i))
    {
      MaskIsSingle(i);
      XorAt(v, 0xFFFF_FFFF, Mask(i));
    }
  }

  /** The register after a message, complemented, is the checksum. */
  lemma {:induction false} ChecksumReads(p: seq<byte>)
    ensures Reads(BitsOf(Checksum(p), 32), RegisterOf(0xFFFF_FFFF, p) ^ 0xFFFF_FFFF)
  {
    hide *;
    ChecksumBits(p);
    OnesRead();
    RegisterComplemented(ALL_ONES, 0xFFFF_FFFF, p);
  }

  lemma {:induction false} RegisterComplemented(s: Word, v: bv32, p: seq<byte>)
    requires Reads(s, v)
    ensures Reads(Xor(Register(s, p), ALL_ONES), RegisterOf(v, p) ^ 0xFFFF_FFFF)
  {
    hide *;
    var r, w := Register(s, p), RegisterOf(v, p);
    RegisterReads(s, v, p);
    assert Reads(r, w);
    ComplementReads(r, w);
    assert Reads(Xor(r, ALL_ONES), w ^ 0xFFFF_FFFF);
  }

  lemma OnesRead()
    ensures Reads(ALL_ONES, 0xFFFF_FFFF)
  {
    Masks();
    OnesAre();
  }

  lemma SameWord(x: nat, y: nat, v: bv32)
    requires x < 0x1_0000_0000 && y < 0x1_0000_0000 && Reads(BitsOf(x, 32), v) && Reads(BitsOf(y, 32), v)
    ensures x == y
  {
    hide Reads, At, BitsOf;
    Pow2Of32();
    ReadsSame(BitsOf(x, 32), BitsOf(y, 32), v);
    ValueOfBits(x, 32);
    ValueOfBits(y, 32);
  }

  lemma ReadsSame(s: Word, t: Word, v: bv32)
    requires Reads(s, v) && Reads(t, v)
    ensures s == t
  {
  }

  /** Where 0xCBF43926 has ones. */
  const ONES: set<nat> := {1, 2, 5, 8, 11, 12, 13, 18, 20, 21, 22, 23, 24, 25, 27, 30, 31}

  lemma CheckDigits()
    ensures BitsOf(0xCBF4_3926, 32) ==
            Digit(6) + Digit(2) + Digit(9) + Digit(3) + Digit(4) + Digit(0xF) + Digit(0xB) + Digit(0xC)
  {
    hide BitsOf, Digit;
    FourBits(0xCBF4_3926, 28);
    FourBits(0xCBF_4392, 24);
    FourBits(0xCB_F439, 20);
    FourBits(0xC_BF43, 16);
    FourBits(0xCBF4, 12);
    FourBits(0xCBF, 8);
    FourBits(0xCB, 4);
    FourBits(0xC, 0);
  }

  lemma CheckBit(i: nat)
    requires i < 32
    ensures BitsOf(0xCBF4_3926, 32)[i] <==> i in ONES
  {
    hide BitsOf;
    CheckDigits();
  }

  lemma LowOnes(i: nat)
    requires i < 16
    ensures At(0xCBF4_3926, Mask(i)) <==> i in ONES
  {
    Masks();
  }

  lemma HighOnes(i: nat)
    requires 16 <= i < 32
    ensures At(0xCBF4_3926, Mask(i)) <==> i in ONES
  {
    Masks();
  }

  /** The check value of the IEEE CRC-32. */
  lemma ChecksumOfDigits()
    ensures Checksum(DIGITS) == 0xCBF4_3926
  {
    hide At, Mask, BitsOf, RegisterOf, Checksum;
    RegisterOfDigits();
    ChecksumReads(DIGITS);
    assert 0x340B_C6D9 ^ 0xFFFF_FFFF == 0xCBF4_3926 as bv32;
    forall i | 0 <= i < 32
      ensures BitsOf(0xCBF4_3926, 32)[i] == At(0xCBF4_3926, Mask(i))
    {
      CheckBit(i);
      if i < 16 {
        LowOnes(i);
      } else {
        HighOnes(i);
      }
    }
    SameWord(Checksum(DIGITS), 0xCBF4_3926, 0xCBF4_3926);
  }
}
