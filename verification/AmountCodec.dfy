/**
 The amount encoding of the ingestion producer: an unscaled integer as big-endian two's complement, as the "Decimal"
 part of the Logical Types section of the Apache Avro specification has it.
 */
module AmountCodec {
  type Byte = b: int | 0 <= b < 256

  function Pow2(k: nat): (p: int)
    ensures 1 <= p
  {
    if k == 0 then 1 else 2 * Pow2(k - 1)
  }

  function Abs(n: int): nat { if n < 0 then -n else n }

  /** The number of bits of the magnitude; 0 has none. */
  function BitLength(n: int): nat
    decreases Abs(n)
  {
    if n == 0 then 0 else 1 + BitLength(Abs(n) / 2)
  }

  function ByteLength(n: int): nat { (BitLength(n) + 8) / 8 }

  /** `n` is representable as a signed integer of `bytes` bytes. */
  predicate Fits(n: int, bytes: nat) { 0 < bytes && -Pow2(8 * bytes - 1) <= n < Pow2(8 * bytes - 1) }

  /** The low `bytes` bytes of a non-negative integer, most significant first. */
  function Unsigned(u: nat, bytes: nat): (b: seq<Byte>)
    ensures |b| == bytes
  {
    if bytes == 0 then [] else Unsigned(u / 256, bytes - 1) + [u % 256]
  }

  /** Signed big-endian encoding, as the standard conversion does it; it refuses an integer that does not fit. */
  function ToBytes(n: int, bytes: nat): (b: seq<Byte>)
    requires Fits(n, bytes)
    ensures |b| == bytes
  {
    Pow2Step(8 * bytes - 1);
    Unsigned(if n < 0 then n + Pow2(8 * bytes) else n, bytes)
  }

  function UnsignedValue(b: seq<Byte>): nat {
    if b == [] then 0 else 256 * UnsignedValue(b[..|b| - 1]) + b[|b| - 1]
  }

  /** Two's-complement decoding. */
  function FromBytes(b: seq<Byte>): int
    requires b != []
  {
    var u := UnsignedValue(b);
    if b[0] < 128 then u else u - Pow2(8 * |b|)
  }

  function EncodeAmount(n: int): (b: seq<Byte>) {
    LengthSuffices(n);
    ToBytes(n, ByteLength(n))
  }

  // ----- powers and bit lengths

  lemma {:induction false} Pow2Step(k: nat)
    ensures Pow2(k + 1) == 2 * Pow2(k)
  {
  }

  lemma {:induction false} Pow2Monotone(j: nat, k: nat)
    requires j <= k
    ensures Pow2(j) <= Pow2(k) && (j < k ==> Pow2(j) < Pow2(k))
    decreases k - j
  {
    if j < k {
      Pow2Monotone(j, k - 1);
    }
  }

  lemma {:induction false} Pow2Byte(k: nat)
    ensures Pow2(8 * k + 8) == 256 * Pow2(8 * k)
  {
    Pow2Step(8 * k);
    Pow2Step(8 * k + 1);
    Pow2Step(8 * k + 2);
    Pow2Step(8 * k + 3);
    Pow2Step(8 * k + 4);
    Pow2Step(8 * k + 5);
    Pow2Step(8 * k + 6);
    Pow2Step(8 * k + 7);
  }

  /** The bit length brackets the magnitude between powers of two. */
  lemma {:induction false} BitLengthBounds(n: int)
    ensures Abs(n) < Pow2(BitLength(n))
    ensures n != 0 ==> 0 < BitLength(n) && Pow2(BitLength(n) - 1) <= Abs(n)
    decreases Abs(n)
  {
    if n != 0 {
      BitLengthBounds(Abs(n) / 2);
    }
  }

  /** The computed length always suffices. */
  lemma {:induction false} LengthSuffices(n: int)
    ensures Fits(n, ByteLength(n))
  {
    BitLengthBounds(n);
    Pow2Monotone(BitLength(n), 8 * ByteLength(n) - 1);
  }

  /** The negative integers that fit in one byte less than their magnitude suggests. */
  ghost predicate IsNegativeBoundary(n: int) { exists k: nat :: 0 < k && n == -Pow2(8 * k - 1) }

  /** The computed length is the least one that fits, exactly when the amount is not a negative boundary. */
  lemma {:induction false} LengthIsMinimalExactly(n: int)
    ensures (forall shorter: nat | shorter < ByteLength(n) :: !Fits(n, shorter)) <==> !IsNegativeBoundary(n)
  {
    if k: nat :| 0 < k && n == -Pow2(8 * k - 1) {
      BoundaryBitLength(n, 8 * k - 1);
      assert Fits(n, k) && k < ByteLength(n);
    } else {
      forall shorter: nat | shorter < ByteLength(n)
        ensures !Fits(n, shorter)
      {
        if Fits(n, shorter) {
          ShorterFitsOnlyBoundary(n, shorter);
        }
      }
    }
  }

  lemma {:induction false} ShorterFitsOnlyBoundary(n: int, shorter: nat)
    requires shorter < ByteLength(n) && Fits(n, shorter)
    ensures 0 < shorter && n == -Pow2(8 * shorter - 1)
  {
    BitLengthBounds(n);
    assert n == 0 ==> BitLength(n) == 0;
    hide BitLength, Pow2;
    Pow2Monotone(8 * shorter - 1, BitLength(n) - 1);
  }

  /** For amounts that are not negative, as all are that the service accepts, the computed length is the least. */
  lemma {:induction false} LengthIsMinimalForAccepted(n: nat)
    ensures Fits(n, ByteLength(n)) && forall shorter: nat | shorter < ByteLength(n) :: !Fits(n, shorter)
  {
    LengthSuffices(n);
    LengthIsMinimalExactly(n);
  }

  /** A negative boundary gets exactly one byte too many. */
  lemma {:induction false} BoundaryIsOneLonger(k: nat)
    requires 0 < k
    ensures Fits(-Pow2(8 * k - 1), k) && ByteLength(-Pow2(8 * k - 1)) == k + 1
  {
    BoundaryBitLength(-Pow2(8 * k - 1), 8 * k - 1);
  }

  lemma {:induction false} BoundaryBitLength(n: int, e: nat)
    requires n == -Pow2(e)
    ensures BitLength(n) == e + 1
  {
    BitLengthBounds(n);
    hide BitLength, Pow2;
    if BitLength(n) <= e {
      Pow2Monotone(BitLength(n), e);
    } else if e + 1 < BitLength(n) {
      Pow2Monotone(e, BitLength(n) - 1);
    }
  }

  // ----- the round trip

  lemma {:induction false} UnsignedRoundTrip(u: nat, bytes: nat)
    requires u < Pow2(8 * bytes)
    ensures UnsignedValue(Unsigned(u, bytes)) == u
  {
    if 0 < bytes {
      Pow2Byte(bytes - 1);
      UnsignedRoundTrip(u / 256, bytes - 1);
      assert Unsigned(u, bytes)[..bytes - 1] == Unsigned(u / 256, bytes - 1);
    }
  }

  /** Byte `i` from the left holds the digit of that weight to base 256: the most significant byte comes first. */
  lemma {:induction false} ByteAt(u: nat, bytes: nat, i: nat)
    requires i < bytes
    ensures Unsigned(u, bytes)[i] == (u / Pow2(8 * (bytes - 1 - i))) % 256
  {
    if i == bytes - 1 {
      assert Pow2(0) == 1;
    } else {
      ByteAt(u / 256, bytes - 1, i);
      Pow2Byte(bytes - 2 - i);
      assert 8 * (bytes - 1 - i) == 8 * (bytes - 2 - i) + 8;
      DivideTwice(u, Pow2(8 * (bytes - 2 - i)));
    }
  }

  lemma {:induction false} DivideTwice(u: nat, p: int)
    requires 1 <= p
    ensures (u / 256) / p == u / (256 * p)
  {
    var q := (u / 256) / p;
    assert u == 256 * (u / 256) + u % 256 && u / 256 == p * q + (u / 256) % p;
    var rest := 256 * ((u / 256) % p) + u % 256;
    assert 0 <= rest < 256 * p by {
      assert (u / 256) % p <= p - 1;
    }
    QuotientIsUnique(u, 256 * p, q, rest);
  }

  lemma {:induction false} QuotientIsUnique(u: int, d: int, q: int, rest: int)
    requires 0 < d && 0 <= rest < d && u == d * q + rest
    ensures u / d == q
  {
    var m := q - u / d;
    MultipleIsFarFromZero(d, m);
    assert d * m == d * q - d * (u / d) == u % d - rest;
  }

  lemma {:induction false} MultipleIsFarFromZero(d: int, m: int)
    requires 0 < d
    ensures 1 <= m ==> d <= d * m
    ensures m <= -1 ==> d * m <= -d
  {
  }

  /** An amount that is accepted is the number that its bytes write to base 256, most significant first. */
  lemma {:induction false} AmountBytes(n: nat, i: nat)
    requires i < ByteLength(n)
    ensures EncodeAmount(n)[i] == (n / Pow2(8 * (ByteLength(n) - 1 - i))) % 256
  {
    LengthSuffices(n);
    ByteAt(n, ByteLength(n), i);
  }

  /** The leading bit tells the upper half of the range from the lower. */
  lemma {:induction false} LeadingByte(u: nat, bytes: nat)
    requires 0 < bytes && u < Pow2(8 * bytes)
    ensures Unsigned(u, bytes)[0] < 128 <==> u < Pow2(8 * bytes - 1)
  {
    if bytes == 1 {
      assert Pow2(7) == 128;
      assert Unsigned(u, 1) == [] + [u % 256];
      assert Pow2(8) == 256;
    } else {
      Pow2Byte(bytes - 1);
      LeadingByte(u / 256, bytes - 1);
      Pow2Shift(8 * (bytes - 1) - 1);
    }
  }

  lemma {:induction false} Pow2Shift(k: nat)
    ensures Pow2(k + 8) == 256 * Pow2(k)
  {
    Pow2Step(k);
    Pow2Step(k + 1);
    Pow2Step(k + 2);
    Pow2Step(k + 3);
    Pow2Step(k + 4);
    Pow2Step(k + 5);
    Pow2Step(k + 6);
    Pow2Step(k + 7);
  }

  /** Decoding inverts encoding at every length that fits. */
  lemma {:induction false} DecodeInvertsEncode(n: int, bytes: nat)
    requires Fits(n, bytes)
    ensures FromBytes(ToBytes(n, bytes)) == n
  {
    Pow2Step(8 * bytes - 1);
    var u := if n < 0 then n + Pow2(8 * bytes) else n;
    UnsignedRoundTrip(u, bytes);
    LeadingByte(u, bytes);
  }

  /** Every amount is encoded, and decodes to itself. */
  lemma {:induction false} AmountRoundTrip(n: int)
    ensures EncodeAmount(n) != [] && FromBytes(EncodeAmount(n)) == n
  {
    LengthSuffices(n);
    DecodeInvertsEncode(n, ByteLength(n));
  }

  /** An amount of at most eighteen digits takes at most eight bytes. */
  lemma {:induction false} EighteenDigitsFitEightBytes(n: int)
    requires Abs(n) < 1_000_000_000_000_000_000
    ensures |EncodeAmount(n)| <= 8
  {
    BitLengthBounds(n);
    TwoToTheSixty();
    if 60 < BitLength(n) {
      Pow2Monotone(60, BitLength(n) - 1);
    }
  }

  lemma {:induction false} TwoToTheSixty()
    ensures Pow2(60) == 1_152_921_504_606_846_976
  {
    assert Pow2(4) == 16;
    Pow2Shift(4);
    Pow2Shift(12);
    Pow2Shift(20);
    Pow2Shift(28);
    Pow2Shift(36);
    Pow2Shift(44);
    Pow2Shift(52);
  }
}
