/** The checksum as a remainder of polynomials over two elements (section 8 of RFC 1952). A polynomial
    is the sequence of its coefficients, that of the highest exponent first. */
module Division {
  import opened Bits
  import opened Crc32

  /** x^32 + x^26 + x^23 + x^22 + x^16 + x^12 + x^11 + x^10 + x^8 + x^7 + x^5 + x^4 + x^2 + x + 1 */
  const EXPONENTS: set<nat> := {32, 26, 23, 22, 16, 12, 11, 10, 8, 7, 5, 4, 2, 1, 0}

  function Divisor(): (d: seq<bool>)
    ensures |d| == 33
  {
    seq(33, i requires 0 <= i < 33 => 32 - i in EXPONENTS)
  }

  function Zeros(n: nat): (z: seq<bool>)
    ensures |z| == n
  {
    seq(n, _ => false)
  }

  function Sum(a: seq<bool>, b: seq<bool>): (r: seq<bool>)
    requires |a| == |b|
    ensures |r| == |a|
  {
    seq(|a|, i requires 0 <= i < |a| => a[i] != b[i])
  }

  /** The divisor times a power of x, n coefficients in all. */
  function Aligned(n: nat): (d: seq<bool>)
    requires n >= 33
    ensures |d| == n
  {
    Divisor() + Zeros(n - 33)
  }

  /** A step of long division: the divisor is subtracted if the first coefficient is 1, and then that
      is 0 and dropped. */
  function Reduced(a: seq<bool>): (r: seq<bool>)
    requires |a| > 32
    ensures |r| == |a| - 1
  {
    (if a[0] then Sum(a, Aligned(|a|)) else a)[1..]
  }

  /** Long division, until there are 32 coefficients. */
  function Remainder(a: seq<bool>): (r: seq<bool>)
    requires |a| >= 32
    ensures |r| == 32
    decreases |a|
  {
    if |a| == 32 then a else Remainder(Reduced(a))
  }

  /** A quotient times the divisor. */
  function Product(q: seq<bool>): (p: seq<bool>)
    ensures |p| == |q| + 32
  {
    if |q| == 0 then Zeros(32)
    else Sum(if q[0] then Aligned(|q| + 32) else Zeros(|q| + 32), [false] + Product(q[1..]))
  }

  lemma StepAt(a: seq<bool>, i: nat)
    requires |a| > 32 && i < |a| - 1
    ensures Reduced(a)[i] == (a[i + 1] != (a[0] && Aligned(|a|)[i + 1]))
  {
  }

  lemma ProductAt(q: seq<bool>, i: nat)
    requires |q| > 0 && i < |q| + 32
    ensures Product(q)[i] == ((q[0] && Aligned(|q| + 32)[i]) != (i > 0 && Product(q[1..])[i - 1]))
  {
    hide Aligned;
  }

  /** A quotient times the divisor, plus a remainder. */
  function Whole(q: seq<bool>, r: seq<bool>): (a: seq<bool>)
    requires |r| == 32
    ensures |a| == |q| + 32
  {
    Sum(Product(q), Zeros(|q|) + r)
  }

  lemma StepEqual(a: seq<bool>, q: seq<bool>, r: seq<bool>, i: nat)
    requires |q| > 0 && |a| == |q| + 32 && |r| == 32 && a[0] == q[0] && 0 < i < |a|
    ensures a[i] == Whole(q, r)[i] <==> Reduced(a)[i - 1] == Whole(q[1..], r)[i - 1]
  {
    hide Aligned, Reduced, Product;
    StepAt(a, i - 1);
    ProductAt(q, i);
    assert (Zeros(|q|) + r)[i] == (Zeros(|q| - 1) + r)[i - 1];
  }

  lemma FirstOfWhole(q: seq<bool>, r: seq<bool>)
    requires |q| > 0 && |r| == 32
    ensures Whole(q, r)[0] == q[0]
  {
    hide Aligned, Product;
    ProductAt(q, 0);
    AlignedBegins(|q| + 32);
  }

  lemma AlignedBegins(n: nat)
    requires n >= 33
    ensures Aligned(n)[0]
  {
  }

  /** A product and a remainder, and the same after one step. */
  lemma OneStep(a: seq<bool>, q: seq<bool>, r: seq<bool>)
    requires |q| > 0 && |a| == |q| + 32 && |r| == 32
    ensures a == Whole(q, r) <==> a[0] == q[0] && Reduced(a) == Whole(q[1..], r)
  {
    hide Aligned, Reduced, Product, Whole;
    FirstOfWhole(q, r);
    if a[0] == q[0] {
      forall i | 0 < i < |a|
        ensures Reduced(a)[i - 1] == Whole(q[1..], r)[i - 1] <==> a[i] == Whole(q, r)[i]
      {
        StepEqual(a, q, r, i);
      }
      Shifted(a, Whole(q, r), Reduced(a), Whole(q[1..], r));
    }
  }

  lemma Shifted(a: seq<bool>, b: seq<bool>, x: seq<bool>, y: seq<bool>)
    requires |a| == |b| == |x| + 1 == |y| + 1 && a[0] == b[0]
    requires forall i :: 0 < i < |a| ==> (x[i - 1] == y[i - 1] <==> a[i] == b[i])
    ensures a == b <==> x == y
  {
    forall i | 0 <= i < |x|
      ensures x[i] == y[i] <==> a[i + 1] == b[i + 1]
    {
    }
    if x == y {
      assert forall i :: 0 < i < |a| ==> a[i] == b[i];
    }
  }

  /** What long division leaves is the remainder: whatever is a multiple of the divisor plus a
      polynomial of degree below 32 leaves that polynomial, ... */
  lemma {:induction false} RemainderIsUnique(a: seq<bool>, q: seq<bool>, r: seq<bool>)
    requires |a| == |q| + 32 && |r| == 32 && a == Whole(q, r)
    ensures r == Remainder(a)
    decreases |a|
  {
    hide Aligned, Reduced;
    if |q| == 0 {
      assert a == r;
    } else {
      OneStep(a, q, r);
      RemainderIsUnique(Reduced(a), q[1..], r);
    }
  }

  /** ... and everything is of this form. */
  lemma {:induction false} Divides(a: seq<bool>) returns (q: seq<bool>)
    requires |a| >= 32
    ensures |q| == |a| - 32 && a == Whole(q, Remainder(a))
    decreases |a|
  {
    hide Aligned, Reduced;
    if |a| == 32 {
      q := [];
    } else {
      var q' := Divides(Reduced(a));
      q := [a[0]] + q';
      assert q[1..] == q';
      OneStep(a, q, Remainder(a));
    }
  }

  // ---------- the register ----------

  lemma PolynomialIs(i: nat)
    requires i < 32
    ensures POLYNOMIAL[i] <==> 31 - i in EXPONENTS
  {
  }

  lemma ReducedAt(a: seq<bool>, i: nat)
    requires |a| > 32 && i < |a| - 1
    ensures Reduced(a)[i] == (a[i + 1] != (a[0] && i < 32 && 31 - i in EXPONENTS))
  {
  }

  /** The register holds the remainder so far of the message, behind what it began with: its bit 0 is
      the coefficient of x^31. */
  lemma {:induction false} FeedsDivide(s: Word, bits: seq<bool>)
    ensures FeedAll(s, bits) == Remainder(Sum(s + Zeros(|bits|), bits + Zeros(32)))
    decreases |bits|
  {
    var a := Sum(s + Zeros(|bits|), bits + Zeros(32));
    if |bits| == 0 {
      assert a == s;
    } else {
      var t := Feed(s, bits[0]);
      forall i | 0 <= i < |a| - 1
        ensures Reduced(a)[i] == Sum(t + Zeros(|bits| - 1), bits[1..] + Zeros(32))[i]
      {
        ReducedAt(a, i);
        if i < 32 {
          PolynomialIs(i);
        }
      }
      assert Reduced(a) == Sum(t + Zeros(|bits| - 1), bits[1..] + Zeros(32));
      FeedsDivide(t, bits[1..]);
    }
  }

  function Complement(bits: seq<bool>, n: nat): (r: seq<bool>)
    requires n <= |bits|
    ensures |r| == |bits|
  {
    seq(|bits|, i requires 0 <= i < |bits| => if i < n then !bits[i] else bits[i])
  }

  /** The checksum is the complement of the remainder of the message, low bits of its bytes first and
      followed by 32 zeros, with its first 32 bits complemented; its lowest bit is the coefficient of
      x^31. */
  lemma ChecksumIsRemainder(p: seq<byte>)
    ensures BitsOf(Checksum(p), 32) == Complement(Remainder(Complement(MessageBits(p) + Zeros(32), 32)), 32)
  {
    hide Checksum, Register, FeedAll, Remainder;
    var bits := MessageBits(p);
    RegisterFeeds(ALL_ONES, p);
    FeedsDivide(ALL_ONES, bits);
    OnesAre();
    assert Sum(ALL_ONES + Zeros(|bits|), bits + Zeros(32)) == Complement(bits + Zeros(32), 32);
    ChecksumBits(p);
  }

  lemma OnesAre()
    ensures forall i :: 0 <= i < 32 ==> ALL_ONES[i]
  {
  }
}
