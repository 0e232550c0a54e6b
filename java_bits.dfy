/** Java integer semantics used by the inRide codec.
    A Java `byte` is an 8-bit two's-complement value; it is kept here as its
    bit pattern (`bv8`).  Java `int` expressions are computed on `bv32`, so
    that sign extension on promotion, `&`, `|` and `<<` (which drops the bits
    shifted past bit 31) are exactly those of the Java language, and
    `IntValue` reads the 32-bit result as a signed number, as widening an
    `int` to `long` does. */
module JavaBits {

  const TwoTo31: int := 0x8000_0000
  const TwoTo32: int := 0x1_0000_0000

  /** The values of a Java `int`. */
  type Int32 = x: int | -TwoTo31 <= x < TwoTo31

  /** `(int) b` or `(long) b`: the signed value of a byte. */
  function SignedByte(b: bv8): (v: int)
    ensures -128 <= v < 128
    ensures v % 256 == b as int
  {
    if b < 0x80 then b as int else b as int - 256
  }

  /** The byte holding a value in -128..127 reads back as that value. */
  lemma SignedByteRoundTrip(v: int)
    requires -128 <= v < 128
    ensures SignedByte(CastToByte(v)) == v
  {
    var u := if v >= 0 then v else v + 256;
    assert v % 256 == u;
  }

  /** `(int) b` as a 32-bit pattern: the byte's sign bit fills bits 8..31. */
  function Widen(b: bv8): bv32
  {
    if b < 0x80 then b as bv32 else b as bv32 | 0xFFFF_FF00
  }

  /** `b & 0xFF`: the byte promoted to int and masked back to its low 8 bits. */
  function Masked(b: bv8): bv32
  {
    Widen(b) & 0xFF
  }

  lemma MaskedIsZeroExtension(b: bv8)
    ensures Masked(b) == b as bv32
  {
  }

  /** Octet `k` (0 = least significant) of a 32-bit pattern. */
  function Octet(x: bv32, k: nat): bv8
    requires k < 4
  {
    if k == 0 then (x & 0xFF) as bv8
    else if k == 1 then ((x >> 8) & 0xFF) as bv8
    else if k == 2 then ((x >> 16) & 0xFF) as bv8
    else ((x >> 24) & 0xFF) as bv8
  }

  /** Reference reading of octets as an unsigned little-endian number. */
  function LittleEndian(bs: seq<bv8>): (n: nat)
    ensures n < Pow256(|bs|)
  {
    if bs == [] then 0 else bs[0] as int + 256 * LittleEndian(bs[1..])
  }

  function Pow256(k: nat): (p: nat)
    ensures p >= 1
  {
    if k == 0 then 1 else 256 * Pow256(k - 1)
  }

  /** Two's-complement reading of an unsigned 32-bit number. */
  function Signed32(u: int): (v: int)
    ensures 0 <= u < TwoTo32 ==> -TwoTo31 <= v < TwoTo31 && v % TwoTo32 == u
  {
    if u < TwoTo31 then u else u - TwoTo32
  }

  /** The unsigned value of a 32-bit pattern. */
  function Unsigned32(x: bv32): (u: nat)
    ensures u < TwoTo32
  {
    Octet(x, 0) as int + 0x100 * Octet(x, 1) as int + 0x1_0000 * Octet(x, 2) as int
      + 0x100_0000 * Octet(x, 3) as int
  }

  /** The signed value of a 32-bit pattern, as an `int` widened to `long` has. */
  function IntValue(x: bv32): Int32
  {
    Signed32(Unsigned32(x))
  }

  lemma LittleEndian4(c0: bv8, c1: bv8, c2: bv8, c3: bv8)
    ensures LittleEndian([c0, c1, c2, c3])
         == c0 as int + 0x100 * c1 as int + 0x1_0000 * c2 as int + 0x100_0000 * c3 as int
  {
    assert [c0, c1, c2, c3][1..] == [c1, c2, c3];
    LittleEndian3(c1, c2, c3);
  }

  // ---- The Java expressions the decoders evaluate ----

  /** `(b0 & 0xFF) | ((b1 & 0xFF) << 8)` */
  function MaskedWord16(b0: bv8, b1: bv8): bv32
  {
    Masked(b0) | (Masked(b1) << 8)
  }

  /** `(b0 & 0xFF) | ((b1 & 0xFF) << 8) | ((b2 & 0xFF) << 16)` */
  function MaskedWord24(b0: bv8, b1: bv8, b2: bv8): bv32
  {
    Masked(b0) | (Masked(b1) << 8) | (Masked(b2) << 16)
  }

  /** `(b0 & 0xFF) | ((b1 & 0xFF) << 8) | ((b2 & 0xFF) << 16) | ((b3 & 0xFF) << 24)` */
  function MaskedWord32(b0: bv8, b1: bv8, b2: bv8, b3: bv8): bv32
  {
    Masked(b0) | (Masked(b1) << 8) | (Masked(b2) << 16) | (Masked(b3) << 24)
  }

  /** `(int) b0 | (int) b1 << 8`: both bytes sign-extended, no masking. */
  function WidenedWord16(b0: bv8, b1: bv8): bv32
  {
    Widen(b0) | (Widen(b1) << 8)
  }

  /** `(int) b0 | (int) b1 << 8 | (int) b2 << 16 | (int) b3 << 24`: no masking. */
  function WidenedWord32(b0: bv8, b1: bv8, b2: bv8, b3: bv8): bv32
  {
    Widen(b0) | (Widen(b1) << 8) | (Widen(b2) << 16) | (Widen(b3) << 24)
  }

  // ---- What those expressions evaluate to ----

  /** The 32-bit pattern whose octets, least significant first, are c0..c3. */
  function Word(c0: bv8, c1: bv8, c2: bv8, c3: bv8): bv32
  {
    c0 as bv32 | (c1 as bv32 << 8) | (c2 as bv32 << 16) | (c3 as bv32 << 24)
  }

  lemma OctetsOfWord(c0: bv8, c1: bv8, c2: bv8, c3: bv8)
    ensures var x := Word(c0, c1, c2, c3);
      Octet(x, 0) == c0 && Octet(x, 1) == c1 && Octet(x, 2) == c2 && Octet(x, 3) == c3
  {
  }

  /** A pattern's signed value is the two's-complement reading of its octets. */
  lemma WordValue(c0: bv8, c1: bv8, c2: bv8, c3: bv8)
    ensures Unsigned32(Word(c0, c1, c2, c3)) == LittleEndian([c0, c1, c2, c3])
    ensures IntValue(Word(c0, c1, c2, c3)) == Signed32(LittleEndian([c0, c1, c2, c3]))
  {
    OctetsOfWord(c0, c1, c2, c3);
    LittleEndian4(c0, c1, c2, c3);
  }

  /** The two's-complement reading of four octets is negative exactly when
      the last one has its top bit set. */
  lemma SignOfLittleEndian(c0: bv8, c1: bv8, c2: bv8, c3: bv8)
    ensures Signed32(LittleEndian([c0, c1, c2, c3])) < 0 <==> c3 >= 0x80
  {
    LittleEndian4(c0, c1, c2, c3);
    assert c3 >= 0x80 <==> c3 as int >= 0x80;
  }

  lemma MaskedWord16Form(b0: bv8, b1: bv8)
    ensures MaskedWord16(b0, b1) == Word(b0, b1, 0, 0)
  {
    MaskedIsZeroExtension(b0);
    MaskedIsZeroExtension(b1);
  }

  lemma MaskedWord24Form(b0: bv8, b1: bv8, b2: bv8)
    ensures MaskedWord24(b0, b1, b2) == Word(b0, b1, b2, 0)
  {
    MaskedIsZeroExtension(b0);
    MaskedIsZeroExtension(b1);
    MaskedIsZeroExtension(b2);
  }

  lemma MaskedWord32Form(b0: bv8, b1: bv8, b2: bv8, b3: bv8)
    ensures MaskedWord32(b0, b1, b2, b3) == Word(b0, b1, b2, b3)
  {
    MaskedIsZeroExtension(b0);
    MaskedIsZeroExtension(b1);
    MaskedIsZeroExtension(b2);
    MaskedIsZeroExtension(b3);
  }

  /** A masked single byte is its unsigned value. */
  lemma MaskedByteIsUnsigned(b: bv8)
    ensures IntValue(Masked(b)) == b as int
  {
    MaskedIsZeroExtension(b);
    assert Masked(b) == Word(b, 0, 0, 0);
    WordValue(b, 0, 0, 0);
    LittleEndian4(b, 0, 0, 0);
  }

  lemma LittleEndian2(c0: bv8, c1: bv8)
    ensures LittleEndian([c0, c1]) == c0 as int + 0x100 * c1 as int
  {
    assert [c0, c1][1..] == [c1];
    assert [c1][1..] == [];
  }

  lemma LittleEndian3(c0: bv8, c1: bv8, c2: bv8)
    ensures LittleEndian([c0, c1, c2]) == c0 as int + 0x100 * c1 as int + 0x1_0000 * c2 as int
  {
    assert [c0, c1, c2][1..] == [c1, c2];
    LittleEndian2(c1, c2);
  }

  /** A masked 16-bit read is the unsigned little-endian value. */
  lemma MaskedWord16IsUnsigned(b0: bv8, b1: bv8)
    ensures IntValue(MaskedWord16(b0, b1)) == LittleEndian([b0, b1])
  {
    MaskedWord16Form(b0, b1);
    WordValue(b0, b1, 0, 0);
    LittleEndian4(b0, b1, 0, 0);
    LittleEndian2(b0, b1);
  }

  /** A masked 24-bit read is the unsigned little-endian value. */
  lemma MaskedWord24IsUnsigned(b0: bv8, b1: bv8, b2: bv8)
    ensures IntValue(MaskedWord24(b0, b1, b2)) == LittleEndian([b0, b1, b2])
  {
    MaskedWord24Form(b0, b1, b2);
    WordValue(b0, b1, b2, 0);
    LittleEndian4(b0, b1, b2, 0);
    LittleEndian3(b0, b1, b2);
  }

  /** A masked 32-bit read is the two's-complement little-endian value: bit 7
      of the last octet becomes the sign, because `<< 24` lands it in bit 31. */
  lemma MaskedWord32IsSigned(b0: bv8, b1: bv8, b2: bv8, b3: bv8)
    ensures IntValue(MaskedWord32(b0, b1, b2, b3)) == Signed32(LittleEndian([b0, b1, b2, b3]))
    ensures IntValue(MaskedWord32(b0, b1, b2, b3)) < 0 <==> b3 >= 0x80
  {
    MaskedWord32Form(b0, b1, b2, b3);
    WordValue(b0, b1, b2, b3);
    SignOfLittleEndian(b0, b1, b2, b3);
  }

  lemma WidenIsSignExtension(b: bv8)
    ensures b < 0x80 ==> Widen(b) == b as bv32
    ensures b >= 0x80 ==> Widen(b) == b as bv32 | 0xFFFF_FF00
  {
  }

  lemma WidenedWord16Form(b0: bv8, b1: bv8)
    ensures b0 >= 0x80 ==> WidenedWord16(b0, b1) == Word(b0, 0xFF, 0xFF, 0xFF)
    ensures b0 < 0x80 && b1 >= 0x80 ==> WidenedWord16(b0, b1) == Word(b0, b1, 0xFF, 0xFF)
    ensures b0 < 0x80 && b1 < 0x80 ==> WidenedWord16(b0, b1) == Word(b0, b1, 0, 0)
  {
    WidenIsSignExtension(b0);
    WidenIsSignExtension(b1);
  }

  /** `(int) b0 | (int) b1 << 8` read as a number: the sign-extended low
      octet overrides the high octet when its top bit is set. */
  function SignExtended16(b0: bv8, b1: bv8): int
  {
    if b0 < 0x80 then b0 as int + 0x100 * SignedByte(b1) else SignedByte(b0)
  }

  /** The four-octet counterpart of `SignExtended16`. */
  function SignExtended32(b0: bv8, b1: bv8, b2: bv8, b3: bv8): int
  {
    if b0 >= 0x80 then SignedByte(b0)
    else if b1 >= 0x80 then b0 as int + 0x100 * SignedByte(b1)
    else if b2 >= 0x80 then b0 as int + 0x100 * b1 as int + 0x1_0000 * SignedByte(b2)
    else Signed32(LittleEndian([b0, b1, b2, b3]))
  }

  /** The sign-extending 16-bit read: a low octet with its top bit set
      replaces the whole value by that octet's negative value, whatever the
      high octet holds; otherwise the high octet counts as signed. */
  lemma WidenedWord16Value(b0: bv8, b1: bv8)
    ensures IntValue(WidenedWord16(b0, b1)) == SignExtended16(b0, b1)
  {
    WidenedWord16Form(b0, b1);
    if b0 >= 0x80 {
      WordValue(b0, 0xFF, 0xFF, 0xFF);
      LittleEndian4(b0, 0xFF, 0xFF, 0xFF);
    } else if b1 >= 0x80 {
      WordValue(b0, b1, 0xFF, 0xFF);
      LittleEndian4(b0, b1, 0xFF, 0xFF);
    } else {
      WordValue(b0, b1, 0, 0);
      LittleEndian4(b0, b1, 0, 0);
    }
  }

  lemma WidenedWord32Form(b0: bv8, b1: bv8, b2: bv8, b3: bv8)
    ensures b0 >= 0x80 ==> WidenedWord32(b0, b1, b2, b3) == Word(b0, 0xFF, 0xFF, 0xFF)
    ensures b0 < 0x80 && b1 >= 0x80 ==> WidenedWord32(b0, b1, b2, b3) == Word(b0, b1, 0xFF, 0xFF)
    ensures b0 < 0x80 && b1 < 0x80 && b2 >= 0x80 ==> WidenedWord32(b0, b1, b2, b3) == Word(b0, b1, b2, 0xFF)
    ensures b0 < 0x80 && b1 < 0x80 && b2 < 0x80 ==> WidenedWord32(b0, b1, b2, b3) == Word(b0, b1, b2, b3)
  {
    WidenIsSignExtension(b0);
    WidenIsSignExtension(b1);
    WidenIsSignExtension(b2);
    WidenIsSignExtension(b3);
  }

  /** The sign-extending 32-bit read: the first octet (from the least
      significant) whose top bit is set fills every octet above it, so the
      value is the signed reading of the octets up to that one; only when
      octets 0..2 are all below 0x80 does it agree with the masked read. */
  lemma WidenedWord32Value(b0: bv8, b1: bv8, b2: bv8, b3: bv8)
    ensures IntValue(WidenedWord32(b0, b1, b2, b3)) == SignExtended32(b0, b1, b2, b3)
  {
    WidenedWord32Form(b0, b1, b2, b3);
    if b0 >= 0x80 {
      WordValue(b0, 0xFF, 0xFF, 0xFF);
      LittleEndian4(b0, 0xFF, 0xFF, 0xFF);
    } else if b1 >= 0x80 {
      WordValue(b0, b1, 0xFF, 0xFF);
      LittleEndian4(b0, b1, 0xFF, 0xFF);
    } else if b2 >= 0x80 {
      WordValue(b0, b1, b2, 0xFF);
      LittleEndian4(b0, b1, b2, 0xFF);
    } else {
      WordValue(b0, b1, b2, b3);
    }
  }

  // ---- The Java expression the command encoder evaluates ----

  lemma ByteRoundTrip(x: int)
    requires 0 <= x < 256
    ensures (x as bv8) as int == x
  {
    assert x % 256 == x;
  }

  /** `(byte) n`: the narrowing cast keeps the low eight bits. */
  function CastToByte(n: int): (b: bv8)
    ensures b as int == n % 256
  {
    ByteRoundTrip(n % 256);
    (n % 256) as bv8
  }

  /** `(byte) (t >> (8 * k))` for an `int` t: `>>` is an arithmetic shift,
      which divides by 2^(8k) rounding toward negative infinity (Dafny's `/`
      on a positive divisor). */
  function ShiftedByte(t: Int32, k: nat): bv8
    requires k < 4
  {
    CastToByte(t / Pow256(k))
  }

  lemma LowOctetOfMultiple(a: int, b: int)
    ensures (a * 0x100 + b) % 0x100 == b % 0x100
  {
  }

  lemma ShiftOfWrapped(t: int)
    ensures t / 0x100 == (t / 0x1_0000_0000) * 0x100_0000 + (t % 0x1_0000_0000) / 0x100
    ensures t / 0x1_0000 == (t / 0x1_0000_0000) * 0x1_0000 + (t % 0x1_0000_0000) / 0x1_0000
    ensures t / 0x100_0000 == (t / 0x1_0000_0000) * 0x100 + (t % 0x1_0000_0000) / 0x100_0000
  {
  }

  /** Octet k of t's 32-bit pattern: shifting t and shifting t mod 2^32
      agree in the low eight bits. */
  lemma ShiftedByteIsDigit(t: Int32, k: nat)
    requires k < 4
    ensures ShiftedByte(t, k) as int == ((t % TwoTo32) / Pow256(k)) % 256
  {
    ShiftOfWrapped(t);
    var q, u := t / 0x1_0000_0000, t % 0x1_0000_0000;
    if k == 0 {
      assert t == q * 0x1_0000_0000 + u;
      LowOctetOfMultiple(q * 0x100_0000, u);
    } else if k == 1 {
      assert Pow256(1) == 0x100;
      LowOctetOfMultiple(q * 0x1_0000, u / 0x100);
    } else if k == 2 {
      assert Pow256(2) == 0x1_0000;
      LowOctetOfMultiple(q * 0x100, u / 0x1_0000);
    } else {
      assert Pow256(3) == 0x100_0000;
      LowOctetOfMultiple(q, u / 0x100_0000);
    }
  }

  lemma DivisionsCompose(u: int)
    requires 0 <= u
    ensures (u / 0x100) / 0x100 == u / 0x1_0000
    ensures (u / 0x1_0000) / 0x100 == u / 0x100_0000
  {
  }

  /** A 32-bit number is the sum of its base-256 digits. */
  lemma Digits(u: int)
    requires 0 <= u < TwoTo32
    ensures u == u % 0x100 + 0x100 * ((u / 0x100) % 0x100) + 0x1_0000 * ((u / 0x1_0000) % 0x100)
               + 0x100_0000 * ((u / 0x100_0000) % 0x100)
  {
    DivisionsCompose(u);
    assert u == u % 0x100 + 0x100 * (u / 0x100);
    assert u / 0x100 == (u / 0x100) % 0x100 + 0x100 * (u / 0x1_0000);
    assert u / 0x1_0000 == (u / 0x1_0000) % 0x100 + 0x100 * (u / 0x100_0000);
  }

  /** Four octets holding the base-256 digits of u read back as u. */
  lemma DigitsRoundTrip(u: int, c0: bv8, c1: bv8, c2: bv8, c3: bv8)
    requires 0 <= u < TwoTo32
    requires c0 as int == u % 0x100 && c1 as int == (u / 0x100) % 0x100
    requires c2 as int == (u / 0x1_0000) % 0x100 && c3 as int == (u / 0x100_0000) % 0x100
    ensures LittleEndian([c0, c1, c2, c3]) == u
  {
    Digits(u);
    LittleEndian4(c0, c1, c2, c3);
  }

  /** The octets of an `int`, least significant first, as
      `(byte) (t >> 0)`, `(byte) (t >> 8)`, `(byte) (t >> 16)`, `(byte) (t >> 24)`. */
  function IntOctets(t: Int32): (bs: seq<bv8>)
    ensures |bs| == 4
  {
    [ShiftedByte(t, 0), ShiftedByte(t, 1), ShiftedByte(t, 2), ShiftedByte(t, 3)]
  }

  /** Each shifted octet of an `int` is the matching base-256 digit of its
      value modulo 2^32. */
  lemma IntOctetDigits(t: Int32)
    ensures var u := t % TwoTo32;
      && ShiftedByte(t, 0) as int == u % 0x100
      && ShiftedByte(t, 1) as int == (u / 0x100) % 0x100
      && ShiftedByte(t, 2) as int == (u / 0x1_0000) % 0x100
      && ShiftedByte(t, 3) as int == (u / 0x100_0000) % 0x100
  {
    ShiftedByteIsDigit(t, 0);
    ShiftedByteIsDigit(t, 1);
    ShiftedByteIsDigit(t, 2);
    ShiftedByteIsDigit(t, 3);
    assert Pow256(1) == 0x100 && Pow256(2) == 0x1_0000 && Pow256(3) == 0x100_0000;
  }

  /** An `int` is the two's-complement reading of its value modulo 2^32. */
  lemma SignedOfWrapped(t: Int32)
    ensures Signed32(t % TwoTo32) == t
  {
    assert t >= 0 ==> t % TwoTo32 == t;
    assert t < 0 ==> t % TwoTo32 == t + TwoTo32;
  }

  /** The octets of an `int` read back little-endian give t modulo 2^32,
      and their two's-complement reading gives t itself. */
  lemma IntOctetsRoundTrip(t: Int32)
    ensures LittleEndian(IntOctets(t)) == t % TwoTo32
    ensures Signed32(LittleEndian(IntOctets(t))) == t
  {
    IntOctetDigits(t);
    DigitsRoundTrip(t % TwoTo32, ShiftedByte(t, 0), ShiftedByte(t, 1), ShiftedByte(t, 2), ShiftedByte(t, 3));
    SignedOfWrapped(t);
  }

  // ---- Narrowing a double ----

  /** `(int) x` for a finite double x: rounds toward zero, and saturates at
      the ends of the `int` range. */
  function DoubleToInt(x: real): (i: Int32)
    ensures 0.0 <= x ==> 0 <= i && i as real <= x
    ensures x <= 0.0 ==> i <= 0 && x <= i as real
    ensures -TwoTo31 as real < x < (TwoTo31 - 1) as real ==> x - 1.0 < i as real < x + 1.0
    ensures x >= (TwoTo31 - 1) as real ==> i == TwoTo31 - 1
    ensures x <= -TwoTo31 as real ==> i == -TwoTo31
  {
    if x >= (TwoTo31 - 1) as real then TwoTo31 - 1
    else if x <= -TwoTo31 as real then -TwoTo31
    else if x >= 0.0 then x.Floor
    else -((-x).Floor)
  }
}
