/**
 * The subset of java.io.DataOutputStream / DataInputStream that the snapshot
 * codecs use. A stream being written is the byte sequence the writers return;
 * a stream being read is the sequence of bytes not yet consumed, and every
 * reader returns the value read and the bytes after it, or the exception the
 * Java reader throws.
 */
module JavaData {
  import opened Bytes
  import opened Wrappers

  /** A Java string: a sequence of UTF-16 code units. */
  type JString = seq<char16>

  /** The exceptions the readers and writers of the snapshot format throw. */
  datatype IoError =
    | EndOfStream       // EOFException: fewer bytes remain than the read needs
    | UtfDataFormat     // UTFDataFormatException: malformed modified UTF-8, or a string too long to write
    | BadVersion        // IOException: the snapshot's version tag is not the one this build writes
    | NegativeSize      // NegativeArraySizeException: a negative length read off the stream
    | NullPointer       // NullPointerException: a record refers to an element or product set that is null
    | IndexOutOfBounds  // ArrayIndexOutOfBoundsException: a grid with rows but no columns has no first cell

  /** A read's outcome: the value read and the bytes that remain in the stream after it. */
  datatype Got<+T> = Got(value: T, rest: seq<byte>)

  /** The ASCII string `s` as a Java string. */
  function Ascii(s: string): (r: JString)
    requires forall i :: 0 <= i < |s| ==> s[i] as int < 0x80
    ensures |r| == |s|
  {
    seq(|s|, i requires 0 <= i < |s| => s[i] as int)
  }

  /** Splitting a stream after a prefix gives back the prefix and the remainder. */
  lemma Split(a: seq<byte>, b: seq<byte>)
    ensures (a + b)[..|a|] == a && (a + b)[|a|..] == b
  {
  }

  /** Writing `a`, then `b`, then `c` leaves the same stream however the writes are grouped. */
  lemma Regroup(a: seq<byte>, b: seq<byte>, c: seq<byte>)
    ensures (a + b) + c == a + (b + c)
  {
  }

  // Writers.

  function WriteByte(v: int): seq<byte> { [Low8(v)] }

  function WriteBoolean(v: bool): seq<byte> { [if v then 1 else 0] }

  function WriteShort(v: int): seq<byte> { BigEndian16(v) }

  function WriteChar(v: int): seq<byte> { BigEndian16(v) }

  function WriteInt(v: int): seq<byte> { BigEndian32(v) }

  /** `writeFloat` writes `Float.floatToIntBits`, so every NaN is written as the canonical one. */
  function WriteFloat(w: word32): seq<byte> { BigEndian32(FloatToIntBits(w)) }

  // Readers.

  function ReadByte(s: seq<byte>): (r: Result<Got<int>, IoError>)
    ensures r.Ok? <==> 1 <= |s|
    ensures r.Ok? ==> IsInt8(r.value.value) && r.value.rest == s[1..]
  {
    if 1 <= |s| then Ok(Got(Signed8(s[0]), s[1..])) else Err(EndOfStream)
  }

  function ReadBoolean(s: seq<byte>): (r: Result<Got<bool>, IoError>)
    ensures r.Ok? <==> 1 <= |s|
    ensures r.Ok? ==> r.value.rest == s[1..]
  {
    if 1 <= |s| then Ok(Got(s[0] != 0, s[1..])) else Err(EndOfStream)
  }

  function ReadShort(s: seq<byte>): (r: Result<Got<int>, IoError>)
    ensures r.Ok? <==> 2 <= |s|
    ensures r.Ok? ==> IsInt16(r.value.value) && r.value.rest == s[2..]
  {
    if 2 <= |s| then Ok(Got(Signed16(Unsigned16(s[..2])), s[2..])) else Err(EndOfStream)
  }

  function ReadChar(s: seq<byte>): (r: Result<Got<char16>, IoError>)
    ensures r.Ok? <==> 2 <= |s|
    ensures r.Ok? ==> r.value.rest == s[2..]
  {
    if 2 <= |s| then Ok(Got(Unsigned16(s[..2]), s[2..])) else Err(EndOfStream)
  }

  function ReadInt(s: seq<byte>): (r: Result<Got<int>, IoError>)
    ensures r.Ok? <==> 4 <= |s|
    ensures r.Ok? ==> IsInt32(r.value.value) && r.value.rest == s[4..]
  {
    if 4 <= |s| then Ok(Got(Signed32(Unsigned32(s[..4])), s[4..])) else Err(EndOfStream)
  }

  /** `readFloat`, keeping the bit pattern. */
  function ReadFloat(s: seq<byte>): (r: Result<Got<word32>, IoError>)
    ensures r.Ok? <==> 4 <= |s|
    ensures r.Ok? ==> r.value.rest == s[4..]
  {
    if 4 <= |s| then Ok(Got(Unsigned32(s[..4]), s[4..])) else Err(EndOfStream)
  }

  // Each reader inverts its writer, whatever follows in the stream.

  lemma ReadWriteByte(v: int, rest: seq<byte>)
    requires IsInt8(v)
    ensures ReadByte(WriteByte(v) + rest) == Ok(Got(v, rest))
  {
    Split(WriteByte(v), rest);
  }

  lemma ReadWriteBoolean(v: bool, rest: seq<byte>)
    ensures ReadBoolean(WriteBoolean(v) + rest) == Ok(Got(v, rest))
  {
    Split(WriteBoolean(v), rest);
  }

  lemma ReadWriteShort(v: int, rest: seq<byte>)
    requires IsInt16(v)
    ensures ReadShort(WriteShort(v) + rest) == Ok(Got(v, rest))
  {
    Split(WriteShort(v), rest);
    BigEndian16Inverse(v);
  }

  lemma ReadWriteChar(v: char16, rest: seq<byte>)
    ensures ReadChar(WriteChar(v) + rest) == Ok(Got(v, rest))
  {
    Split(WriteChar(v), rest);
    BigEndian16Inverse(v);
  }

  lemma ReadWriteInt(v: int, rest: seq<byte>)
    requires IsInt32(v)
    ensures ReadInt(WriteInt(v) + rest) == Ok(Got(v, rest))
  {
    Split(WriteInt(v), rest);
    BigEndian32Inverse(v);
  }

  /** A float survives the round trip bit for bit, except that a NaN comes back canonical. */
  lemma ReadWriteFloat(w: word32, rest: seq<byte>)
    ensures ReadFloat(WriteFloat(w) + rest) == Ok(Got(FloatToIntBits(w), rest))
    ensures FloatEquals(w, w) ==> ReadFloat(WriteFloat(w) + rest) == Ok(Got(w, rest))
  {
    Split(WriteFloat(w), rest);
    BigEndian32Inverse(FloatToIntBits(w));
  }

  // Modified UTF-8, as writeUTF / readUTF use it. The bit operations of the
  // Java code are written arithmetically: `c >> 4` is `c / 0x10`,
  // `c & 0x1F` is `c % 0x20`, and `(c & 0xC0) == 0x80` is `c / 0x40 == 2`.

  /** One code unit: 1..0x7F in one byte; 0 and 0x80..0x7FF in two; the rest in three. */
  function EncodeChar(c: char16): (r: seq<byte>)
    ensures 1 <= |r| <= 3
  {
    if 1 <= c < 0x80 then [c]
    else if c < 0x800 then [0xC0 + c / 0x40, 0x80 + c % 0x40]
    else [0xE0 + c / 0x1000, 0x80 + (c / 0x40) % 0x40, 0x80 + c % 0x40]
  }

  function EncodeChars(s: JString): seq<byte> {
    if s == [] then [] else EncodeChar(s[0]) + EncodeChars(s[1..])
  }

  /** The body of `readUTF`: decodes exactly the given bytes, or reports them malformed. */
  function DecodeChars(b: seq<byte>): Result<JString, IoError>
    decreases |b|
  {
    if b == [] then Ok([])
    else
      var c: int := b[0];
      if c / 0x10 < 8 then
        var rest :- DecodeChars(b[1..]);
        var unit: char16 := c;
        Ok([unit] + rest)
      else if c / 0x10 == 12 || c / 0x10 == 13 then
        if |b| < 2 || b[1] / 0x40 != 2 then Err(UtfDataFormat)
        else
          var rest :- DecodeChars(b[2..]);
          var unit: char16 := (c % 0x20) * 0x40 + (b[1] as int) % 0x40;
          Ok([unit] + rest)
      else if c / 0x10 == 14 then
        if |b| < 3 || b[1] / 0x40 != 2 || b[2] / 0x40 != 2 then Err(UtfDataFormat)
        else
          var rest :- DecodeChars(b[3..]);
          var unit: char16 := (c % 0x10) * 0x1000 + ((b[1] as int) % 0x40) * 0x40 + (b[2] as int) % 0x40;
          Ok([unit] + rest)
      else Err(UtfDataFormat)
  }

  /** `writeUTF`: a 16-bit byte count, then the encoded units; more than 65535 bytes throws. */
  function WriteUtf(s: JString): Result<seq<byte>, IoError> {
    var body := EncodeChars(s);
    if |body| > 0xFFFF then Err(UtfDataFormat) else Ok(WriteShort(|body|) + body)
  }

  function ReadUtf(s: seq<byte>): Result<Got<JString>, IoError> {
    var n :- ReadChar(s);
    if n.value > |n.rest| then Err(EndOfStream)
    else
      var chars :- DecodeChars(n.rest[..n.value]);
      Ok(Got(chars, n.rest[n.value..]))
  }

  lemma TwoByteFields(c: char16)
    requires c < 0x800
    ensures var b0, b1 := 0xC0 + c / 0x40, 0x80 + c % 0x40;
      (b0 / 0x10 == 12 || b0 / 0x10 == 13) && b1 / 0x40 == 2 &&
      (b0 % 0x20) * 0x40 + b1 % 0x40 == c
  {
    var q := c / 0x40;
    assert c == q * 0x40 + c % 0x40;
    assert 0 <= q < 0x20;
    assert (0xC0 + q) % 0x20 == q;
  }

  lemma ThreeByteFields(c: char16)
    ensures var b0, b1, b2 := 0xE0 + c / 0x1000, 0x80 + (c / 0x40) % 0x40, 0x80 + c % 0x40;
      b0 / 0x10 == 14 && b1 / 0x40 == 2 && b2 / 0x40 == 2 &&
      (b0 % 0x10) * 0x1000 + (b1 % 0x40) * 0x40 + b2 % 0x40 == c
  {
    var q := c / 0x40;
    var h := q / 0x40;
    assert c == q * 0x40 + c % 0x40;
    assert q == h * 0x40 + q % 0x40;
    assert c / 0x1000 == h;
    assert 0 <= h < 0x10;
    assert (0xE0 + h) % 0x10 == h;
  }

  lemma DecodeOneByte(c: char16, rest: seq<byte>)
    requires 1 <= c < 0x80
    ensures DecodeChars(EncodeChar(c) + rest) ==
      (var tail :- DecodeChars(rest); Ok([c] + tail))
  {
    var b := EncodeChar(c) + rest;
    assert b[0] == c && b[1..] == rest;
  }

  lemma DecodeTwoBytes(c: char16, rest: seq<byte>)
    requires !(1 <= c < 0x80) && c < 0x800
    ensures DecodeChars(EncodeChar(c) + rest) ==
      (var tail :- DecodeChars(rest); Ok([c] + tail))
  {
    var b := EncodeChar(c) + rest;
    TwoByteFields(c);
    assert b[0] == 0xC0 + c / 0x40 && b[1] == 0x80 + c % 0x40 && b[2..] == rest;
  }

  lemma DecodeThreeBytes(c: char16, rest: seq<byte>)
    requires 0x800 <= c
    ensures DecodeChars(EncodeChar(c) + rest) ==
      (var tail :- DecodeChars(rest); Ok([c] + tail))
  {
    var b := EncodeChar(c) + rest;
    ThreeByteFields(c);
    assert b[0] == 0xE0 + c / 0x1000 && b[1] == 0x80 + (c / 0x40) % 0x40;
    assert b[2] == 0x80 + c % 0x40 && b[3..] == rest;
  }

  /** Decoding the bytes of one code unit gives the unit back, whatever follows. */
  lemma DecodeEncodeChar(c: char16, rest: seq<byte>)
    ensures DecodeChars(EncodeChar(c) + rest) ==
      (var tail :- DecodeChars(rest); Ok([c] + tail))
  {
    if 1 <= c < 0x80 {
      DecodeOneByte(c, rest);
    } else if c < 0x800 {
      DecodeTwoBytes(c, rest);
    } else {
      DecodeThreeBytes(c, rest);
    }
  }

  /** A code unit in front of bytes that decode puts the unit in front of their string. */
  lemma DecodeCons(c: char16, t: seq<byte>, tail: JString)
    requires DecodeChars(t) == Ok(tail)
    ensures DecodeChars(EncodeChar(c) + t) == Ok([c] + tail)
  {
    DecodeEncodeChar(c, t);
  }

  /** Decoding undoes encoding, for every Java string. */
  lemma {:induction false} DecodeEncodeChars(s: JString)
    ensures DecodeChars(EncodeChars(s)) == Ok(s)
  {
    if s != [] {
      DecodeEncodeChars(s[1..]);
      DecodeCons(s[0], EncodeChars(s[1..]), s[1..]);
      assert [s[0]] + s[1..] == s;
    }
  }

  /** `readUTF` inverts `writeUTF` whenever the write succeeds. */
  lemma ReadWriteUtf(str: JString, rest: seq<byte>)
    requires WriteUtf(str).Ok?
    ensures ReadUtf(WriteUtf(str).value + rest) == Ok(Got(str, rest))
  {
    var body := EncodeChars(str);
    assert WriteUtf(str).value + rest == WriteShort(|body|) + (body + rest);
    ReadWriteChar(|body|, body + rest);
    Split(body, rest);
    DecodeEncodeChars(str);
  }
}
