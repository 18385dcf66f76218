/** The IEEE CRC-32 checksum (section 8 of RFC 1952) and the bursts of errors it detects. */
module Crc32 {
  import opened Bits

  type Word = w: seq<bool> | |w| == 32 witness BitsOf(0, 32)

  function Digit(d: nat): (bits: seq<bool>)
    requires d < 16
    ensures |bits| == 4
  {
    [d % 2 == 1, d / 2 % 2 == 1, d / 4 % 2 == 1, d / 8 == 1]
  }

  /** The reflected polynomial 0xEDB88320, least significant digit first. */
  const POLYNOMIAL: Word :=
    Digit(0) + Digit(2) + Digit(3) + Digit(8) + Digit(8) + Digit(0xB) + Digit(0xD) + Digit(0xE)

  const ALL_ONES: Word :=
    Digit(15) + Digit(15) + Digit(15) + Digit(15) + Digit(15) + Digit(15) + Digit(15) + Digit(15)

  function Xor(a: Word, b: Word): Word {
    seq(32, i requires 0 <= i < 32 => a[i] != b[i])
  }

  /** One step of the shift register: shift right, and add the polynomial if a one fell out. */
  function Shift(s: Word): Word {
    seq(32, i requires 0 <= i < 32 => (i < 31 && s[i + 1]) != (s[0] && POLYNOMIAL[i]))
  }

  function ShiftTimes(s: Word, n: nat): Word
    decreases n, s
  {
    if n == 0 then s else ShiftTimes(Shift(s), n - 1)
  }

  /** One byte of the running checksum: add it to the low bits, then shift eight times. */
  function Absorb(s: Word, b: byte): Word {
    ShiftTimes(Xor(s, BitsOf(b, 32)), 8)
  }

  function Register(s: Word, p: seq<byte>): Word
    decreases |p|
  {
    if |p| == 0 then s else Register(Absorb(s, p[0]), p[1..])
  }

  function Checksum(p: seq<byte>): (crc: nat)
    ensures crc < 0x1_0000_0000
  {
    Pow2Of32();
    Value(Xor(Register(ALL_ONES, p), ALL_ONES))
  }

  lemma ChecksumBits(p: seq<byte>)
    ensures BitsOf(Checksum(p), 32) == Xor(Register(ALL_ONES, p), ALL_ONES)
  {
    hide Register, Xor, BitsOf, Value;
    BitsOfValue(Xor(Register(ALL_ONES, p), ALL_ONES));
  }

  // ---------- the same register, fed one bit at a time ----------

  function Feed(s: Word, bit: bool): Word {
    Shift(s[0 := s[0] != bit])
  }

  function FeedAll(s: Word, bits: seq<bool>): Word
    decreases |bits|
  {
    if |bits| == 0 then s else FeedAll(Feed(s, bits[0]), bits[1..])
  }

  /** The bits of a message in the order in which the register consumes them. */
  function MessageBits(p: seq<byte>): (bits: seq<bool>)
    ensures |bits| == 8 * |p|
  {
    if |p| == 0 then [] else BitsOf(p[0], 8) + MessageBits(p[1..])
  }

  lemma {:induction false} FeedAllSplit(s: Word, x: seq<bool>, y: seq<bool>)
    ensures FeedAll(s, x + y) == FeedAll(FeedAll(s, x), y)
    decreases |x|
  {
    if |x| == 0 {
      assert x + y == y;
    } else {
      assert (x + y)[1..] == x[1..] + y;
      FeedAllSplit(Feed(s, x[0]), x[1..], y);
    }
  }

  /** Adding n bits at once and shifting n times is feeding them one per shift. */
  lemma {:induction false} ShiftsFeed(s: Word, w: Word, n: nat)
    requires n <= 32 && forall i :: n <= i < 32 ==> !w[i]
    ensures ShiftTimes(Xor(s, w), n) == FeedAll(s, w[..n])
    decreases n
  {
    if n == 0 {
      assert Xor(s, w) == s;
    } else {
      var rest: Word := w[1..] + [false];
      assert Shift(Xor(s, w)) == Xor(Feed(s, w[0]), rest);
      ShiftsFeed(Feed(s, w[0]), rest, n - 1);
      assert w[..n][1..] == rest[..n - 1];
    }
  }

  lemma AbsorbFeeds(s: Word, b: byte)
    ensures Absorb(s, b) == FeedAll(s, BitsOf(b, 8))
  {
    var w := BitsOf(b, 32);
    forall i | 8 <= i < 32
      ensures !w[i]
    {
      HighBitsClear(b, 8, i, 32);
    }
    BitsOfPrefix(b, 8, 32);
    ShiftsFeed(s, w, 8);
  }

  lemma {:induction false} RegisterFeeds(s: Word, p: seq<byte>)
    ensures Register(s, p) == FeedAll(s, MessageBits(p))
    decreases |p|
  {
    if |p| == 0 {
    } else {
      AbsorbFeeds(s, p[0]);
      RegisterFeeds(Absorb(s, p[0]), p[1..]);
      FeedAllSplit(s, BitsOf(p[0], 8), MessageBits(p[1..]));
    }
  }

  // ---------- running the register backwards ----------

  ghost predicate AgreeFrom(s: Word, t: Word, j: nat) {
    forall i :: j <= i < 32 ==> s[i] == t[i]
  }

  /** If two registers agree from bit j on after a step, they agreed from bit j+1 on before it. */
  lemma Unfeed(s: Word, b: bool, t: Word, c: bool, j: nat)
    requires j < 32 && AgreeFrom(Feed(s, b), Feed(t, c), j)
    ensures AgreeFrom(s, t, j + 1)
    ensures (s[0] != b) == (t[0] != c)
  {
    assert POLYNOMIAL[31];
    assert Feed(s, b)[31] == (s[0] != b) && Feed(t, c)[31] == (t[0] != c);
    forall i | j < i < 32
      ensures s[i] == t[i]
    {
      assert Feed(s, b)[i - 1] == Feed(t, c)[i - 1];
    }
  }

  lemma {:induction false} UnfeedAll(s: Word, x: seq<bool>, t: Word, y: seq<bool>)
    requires |x| == |y| <= 32 && FeedAll(s, x) == FeedAll(t, y)
    ensures AgreeFrom(s, t, |x|)
    decreases |x|
  {
    if |x| == 0 {
    } else {
      UnfeedAll(Feed(s, x[0]), x[1..], Feed(t, y[0]), y[1..]);
      Unfeed(s, x[0], t, y[0], |x| - 1);
    }
  }

  /** The same bits take different registers to different registers. */
  lemma {:induction false} FeedAllInjective(s: Word, t: Word, bits: seq<bool>)
    requires FeedAll(s, bits) == FeedAll(t, bits)
    ensures s == t
    decreases |bits|
  {
    if |bits| == 0 {
    } else {
      FeedAllInjective(Feed(s, bits[0]), Feed(t, bits[0]), bits[1..]);
      Unfeed(s, bits[0], t, bits[0], 0);
      assert s[0] == t[0];
    }
  }

  // ---------- bursts ----------

  /** x and y have the same length, differ, and differ only within 32 consecutive positions. */
  ghost predicate Burst(x: seq<bool>, y: seq<bool>) {
    && |x| == |y|
    && x != y
    && exists w: nat :: AgreeOutside(x, y, w, 32)
  }

  ghost predicate AgreeOutside<T>(x: seq<T>, y: seq<T>, w: nat, n: nat)
    requires |x| == |y|
  {
    forall i :: 0 <= i < |x| && !(w <= i < w + n) ==> x[i] == y[i]
  }

  lemma {:induction false} BurstChangesRegister(s: Word, x: seq<bool>, y: seq<bool>, w: nat)
    requires |x| == |y| && x != y && AgreeOutside(x, y, w, 32)
    ensures FeedAll(s, x) != FeedAll(s, y)
    decreases |x|
  {
    if |x| == 0 {
    } else if x[0] == y[0] {
      assert x[1..] != y[1..] by {
        assert x == [x[0]] + x[1..] && y == [y[0]] + y[1..];
      }
      forall i | 0 <= i < |x| - 1 && !((if w == 0 then 0 else w - 1) <= i < (if w == 0 then 0 else w - 1) + 32)
        ensures x[1..][i] == y[1..][i]
      {
        assert x[i + 1] == y[i + 1];
      }
      BurstChangesRegister(Feed(s, x[0]), x[1..], y[1..], if w == 0 then 0 else w - 1);
    } else {
      FirstBitSurvives(s, x, y);
    }
  }

  lemma FirstBitSurvives(s: Word, x: seq<bool>, y: seq<bool>)
    requires |x| == |y| > 0 && x[0] != y[0] && AgreeOutside(x, y, 0, 32)
    ensures FeedAll(s, x) != FeedAll(s, y)
  {
    if FeedAll(s, x) == FeedAll(s, y) {
      var k := if |x| < 32 then |x| else 32;
      assert x == x[..k] + x[k..] && y == y[..k] + x[k..];
      FeedAllSplit(s, x[..k], x[k..]);
      FeedAllSplit(s, y[..k], x[k..]);
      FeedAllInjective(FeedAll(s, x[..k]), FeedAll(s, y[..k]), x[k..]);
      UnfeedAll(Feed(s, x[0]), x[..k][1..], Feed(s, y[0]), y[..k][1..]);
      Unfeed(s, x[0], s, y[0], 31);
    }
  }

  lemma ChecksumInjectiveInRegister(p: seq<byte>, q: seq<byte>)
    requires Checksum(p) == Checksum(q)
    ensures Register(ALL_ONES, p) == Register(ALL_ONES, q)
  {
    var s, t := Register(ALL_ONES, p), Register(ALL_ONES, q);
    BitsOfValue(Xor(s, ALL_ONES));
    BitsOfValue(Xor(t, ALL_ONES));
    forall i | 0 <= i < 32
      ensures s[i] == t[i]
    {
      assert Xor(s, ALL_ONES)[i] == Xor(t, ALL_ONES)[i];
    }
  }

  /** Every burst of at most 32 bits changes the checksum. */
  lemma BurstDetected(p: seq<byte>, q: seq<byte>)
    requires Burst(MessageBits(p), MessageBits(q))
    ensures Checksum(p) != Checksum(q)
  {
    if Checksum(p) == Checksum(q) {
      ChecksumInjectiveInRegister(p, q);
      RegisterFeeds(ALL_ONES, p);
      RegisterFeeds(ALL_ONES, q);
      var w: nat :| AgreeOutside(MessageBits(p), MessageBits(q), w, 32);
      BurstChangesRegister(ALL_ONES, MessageBits(p), MessageBits(q), w);
    }
  }

  lemma {:induction false} MessageBitAt(p: seq<byte>, k: nat, j: nat)
    requires k < |p| && j < 8
    ensures MessageBits(p)[8 * k + j] == BitsOf(p[k], 8)[j]
    decreases k
  {
    if k > 0 {
      MessageBitAt(p[1..], k - 1, j);
      assert MessageBits(p)[8 * k + j] == MessageBits(p[1..])[8 * (k - 1) + j];
    }
  }

  lemma {:induction false} MessageBitsInjective(p: seq<byte>, q: seq<byte>)
    requires MessageBits(p) == MessageBits(q)
    ensures p == q
    decreases |p|
  {
    assert 8 * |p| == 8 * |q|;
    if |p| == 0 {
    } else {
      var x, y := MessageBits(p), MessageBits(q);
      assert x[..8] == BitsOf(p[0], 8) && y[..8] == BitsOf(q[0], 8);
      assert x[8..] == MessageBits(p[1..]) && y[8..] == MessageBits(q[1..]);
      SameByte(p[0], q[0]);
      MessageBitsInjective(p[1..], q[1..]);
      assert p == [p[0]] + p[1..] && q == [q[0]] + q[1..];
    }
  }

  lemma SameByte(a: byte, b: byte)
    requires BitsOf(a, 8) == BitsOf(b, 8)
    ensures a == b
  {
    assert Pow2(8) == 256;
    ValueOfBits(a, 8);
    ValueOfBits(b, 8);
  }

  /** Altering up to four consecutive bytes is a burst of at most 32 bits. */
  lemma FourBytesBurst(p: seq<byte>, q: seq<byte>, w: nat)
    requires |p| == |q| && p != q && AgreeOutside(p, q, w, 4)
    ensures Burst(MessageBits(p), MessageBits(q))
  {
    hide MessageBits, BitsOf;
    var x, y := MessageBits(p), MessageBits(q);
    if x == y {
      MessageBitsInjective(p, q);
    }
    forall i | 0 <= i < |x| && !(8 * w <= i < 8 * w + 32)
      ensures x[i] == y[i]
    {
      BitOutside(p, q, w, i / 8, i % 8);
    }
    assert AgreeOutside(x, y, 8 * w, 32);
  }

  lemma BitOutside(p: seq<byte>, q: seq<byte>, w: nat, k: nat, j: nat)
    requires |p| == |q| && AgreeOutside(p, q, w, 4) && k < |p| && j < 8 && !(w <= k < w + 4)
    ensures 8 * k + j < |MessageBits(p)| && MessageBits(p)[8 * k + j] == MessageBits(q)[8 * k + j]
  {
    hide MessageBits, BitsOf;
    MessageBitAt(p, k, j);
    MessageBitAt(q, k, j);
  }
}
