/**
 * Machine words as the Java and C++ sources see them: bytes, 16-bit chars,
 * 32-bit words, two's complement reinterpretation, big-endian layout, and the
 * IEEE-754 single-precision words that the codecs carry without interpreting.
 */
module Bytes {

  type byte = b: int | 0 <= b < 0x100
  type char16 = c: int | 0 <= c < 0x1_0000
  type word32 = w: int | 0 <= w < 0x1_0000_0000

  /** The low 8 bits of `v`, as Java's `(byte)` cast and `writeByte` keep them (as an unsigned value). */
  function Low8(v: int): byte {
    v % 0x100
  }

  /** The low 16 bits of `v`, as `(short)`/`(char)` casts and `writeShort`/`writeChar` keep them. */
  function Low16(v: int): char16 {
    v % 0x1_0000
  }

  /** The low 32 bits of `v`, as Java `int` arithmetic keeps them. */
  function Low32(v: int): word32 {
    v % 0x1_0000_0000
  }

  /** The signed (two's complement) reading of an unsigned byte: Java's `byte`, C's `jbyte`. */
  function Signed8(b: byte): (v: int)
    ensures -0x80 <= v < 0x80
    ensures Low8(v) == b
  {
    if b < 0x80 then b else b - 0x100
  }

  /** The signed reading of a 16-bit value: Java's `short`, C's `jshort`. */
  function Signed16(u: char16): (v: int)
    ensures -0x8000 <= v < 0x8000
    ensures Low16(v) == u
  {
    if u < 0x8000 then u else u - 0x1_0000
  }

  /** The signed reading of a 32-bit word: Java's `int`, C's `jint`. */
  function Signed32(u: word32): (v: int)
    ensures -0x8000_0000 <= v < 0x8000_0000
    ensures Low32(v) == u
  {
    if u < 0x8000_0000 then u else u - 0x1_0000_0000
  }

  predicate IsInt8(v: int) { -0x80 <= v < 0x80 }
  predicate IsInt16(v: int) { -0x8000 <= v < 0x8000 }
  predicate IsInt32(v: int) { -0x8000_0000 <= v < 0x8000_0000 }

  lemma Signed8Low8(v: int)
    requires IsInt8(v)
    ensures Signed8(Low8(v)) == v
  {
  }

  lemma Signed16Low16(v: int)
    requires IsInt16(v)
    ensures Signed16(Low16(v)) == v
  {
  }

  lemma Signed32Low32(v: int)
    requires IsInt32(v)
    ensures Signed32(Low32(v)) == v
  {
  }

  /** Big-endian layout of the low 16 bits of `v`. */
  function BigEndian16(v: int): (r: seq<byte>)
    ensures |r| == 2
  {
    var u := Low16(v);
    [u / 0x100, u % 0x100]
  }

  /** The unsigned value of two big-endian bytes. */
  function Unsigned16(b: seq<byte>): char16
    requires |b| == 2
  {
    (b[0] as int) * 0x100 + b[1]
  }

  /** Big-endian layout of the low 32 bits of `v`. */
  function BigEndian32(v: int): (r: seq<byte>)
    ensures |r| == 4
  {
    var u := Low32(v);
    [u / 0x100_0000, (u / 0x1_0000) % 0x100, (u / 0x100) % 0x100, u % 0x100]
  }

  /** The unsigned value of four big-endian bytes. */
  function Unsigned32(b: seq<byte>): word32
    requires |b| == 4
  {
    (((b[0] as int) * 0x100 + b[1]) * 0x100 + b[2]) * 0x100 + b[3]
  }

  lemma {:induction false} BigEndian16Inverse(v: int)
    ensures Unsigned16(BigEndian16(v)) == Low16(v)
  {
    var u := Low16(v);
    assert u == (u / 0x100) * 0x100 + u % 0x100;
  }

  lemma {:induction false} BigEndian32Inverse(v: int)
    ensures Unsigned32(BigEndian32(v)) == Low32(v)
  {
    var u := Low32(v);
    var q1 := u / 0x100;
    var q2 := q1 / 0x100;
    var q3 := q2 / 0x100;
    assert u == q1 * 0x100 + u % 0x100;
    assert q1 == q2 * 0x100 + q1 % 0x100;
    assert q2 == q3 * 0x100 + q2 % 0x100;
    assert u / 0x1_0000 == q2;
    assert u / 0x100_0000 == q3;
  }

  // IEEE-754 single precision, kept as the bit pattern.

  /** The exponent field of a float word. */
  function Exponent(w: word32): int { (w / 0x80_0000) % 0x100 }

  /** The fraction field of a float word. */
  function Fraction(w: word32): int { w % 0x80_0000 }

  predicate IsNaN(w: word32) {
    Exponent(w) == 0xFF && Fraction(w) != 0
  }

  /** +0.0 or -0.0. */
  predicate IsZero(w: word32) {
    w % 0x8000_0000 == 0
  }

  /** Java's `==` on two floats given by their bit patterns: NaN equals nothing, and -0.0 == +0.0. */
  predicate FloatEquals(a: word32, b: word32) {
    !IsNaN(a) && !IsNaN(b) && (a == b || (IsZero(a) && IsZero(b)))
  }

  /** The canonical NaN that `Float.floatToIntBits` produces for every NaN. */
  const CANONICAL_NAN: word32 := 0x7FC0_0000

  /** `Float.floatToIntBits`, which `DataOutputStream.writeFloat` applies. */
  function FloatToIntBits(w: word32): (r: word32)
    ensures FloatEquals(w, w) ==> r == w
    ensures IsNaN(r) == IsNaN(w)
  {
    if IsNaN(w) then CANONICAL_NAN else w
  }

  /**
   * Java's `x < f` for a finite `x` and the float `f`: false against NaN and
   * against -infinity, true against +infinity, and otherwise the comparison of values.
   */
  predicate Below(x: real, f: word32) {
    if Exponent(f) == 0xFF then Fraction(f) == 0 && f < 0x8000_0000
    else x < FloatValue(f)
  }

  /** `m` times 2 to the power `e`, as a real. */
  function Up(m: int, e: nat): real {
    if e == 0 then m as real else 2.0 * Up(m, e - 1)
  }

  /** `m` divided by 2 to the power `e`, as a real. */
  function Down(m: int, e: nat): real {
    if e == 0 then m as real else Down(m, e - 1) / 2.0
  }

  /**
   * The real number a finite float word denotes. Infinities and NaN have no
   * real value; they read as 0 here.
   */
  function FloatValue(w: word32): real {
    var magnitude :=
      if Exponent(w) == 0xFF then 0.0
      else if Exponent(w) == 0 then Down(Fraction(w), 149)
      else if Exponent(w) >= 150 then Up(0x80_0000 + Fraction(w), Exponent(w) - 150)
        else Down(0x80_0000 + Fraction(w), 150 - Exponent(w));
    if w >= 0x8000_0000 then -magnitude else magnitude
  }
}
