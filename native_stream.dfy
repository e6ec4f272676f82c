/**
 * The native engine's byte reader (`DataStream` in jni/sandblaster.cc): a
 * cursor over a byte array that reads big-endian values. A read that would
 * run past the end yields 0 and leaves the cursor where it was; nothing
 * signals the short read. `Skip` moves the cursor by any amount, unchecked.
 */
module NativeStream {
  import opened Bytes
  import opened JavaData

  /** A value read and the cursor after it. */
  datatype Taken<+T> = Taken(value: T, pos: int)

  // The readers as functions of the array and the cursor. Each one either
  // reads its full width and moves the cursor past it, or finds too few
  // bytes left and yields 0 without moving.

  function Jbyte(data: seq<byte>, pos: nat): (r: Taken<int>)
    ensures IsInt8(r.value)
    ensures r.pos == pos + 1 <= |data| || (r == Taken(0, pos) && pos + 1 > |data|)
  {
    if pos + 1 > |data| then Taken(0, pos) else Taken(Signed8(data[pos]), pos + 1)
  }

  /** `(jboolean) ReadJbyte()`: the byte taken as unsigned. */
  function Jboolean(data: seq<byte>, pos: nat): (r: Taken<byte>)
    ensures r.pos == pos + 1 <= |data| || (r == Taken(0, pos) && pos + 1 > |data|)
  {
    var b := Jbyte(data, pos);
    Taken(Low8(b.value), b.pos)
  }

  function Jshort(data: seq<byte>, pos: nat): (r: Taken<int>)
    ensures IsInt16(r.value)
    ensures r.pos == pos + 2 <= |data| || (r == Taken(0, pos) && pos + 2 > |data|)
  {
    if pos + 2 > |data| then Taken(0, pos) else Taken(Signed16(Unsigned16(data[pos..pos + 2])), pos + 2)
  }

  function Jint(data: seq<byte>, pos: nat): (r: Taken<int>)
    ensures IsInt32(r.value)
    ensures r.pos == pos + 4 <= |data| || (r == Taken(0, pos) && pos + 4 > |data|)
  {
    if pos + 4 > |data| then Taken(0, pos) else Taken(Signed32(Unsigned32(data[pos..pos + 4])), pos + 4)
  }

  /** `ReadJfloat`: the bits of `ReadJint` taken as a float. */
  function Jfloat(data: seq<byte>, pos: nat): (r: Taken<word32>)
    ensures r.pos == pos + 4 <= |data| || (r == Taken(0, pos) && pos + 4 > |data|)
  {
    var i := Jint(data, pos);
    Taken(Low32(i.value), i.pos)
  }

  // The readers against the Java writers: the native engine reads the
  // snapshots `DataOutputStream` writes.

  /** Whatever sits at the cursor, a byte written by `writeByte` reads back as the value written. */
  lemma ReadsWriteByte(prefix: seq<byte>, v: int, rest: seq<byte>)
    requires IsInt8(v)
    ensures Jbyte(prefix + WriteByte(v) + rest, |prefix|) == Taken(v, |prefix| + 1)
  {
    assert (prefix + WriteByte(v) + rest)[|prefix|] == Low8(v);
    Signed8Low8(v);
  }

  lemma ReadsWriteBoolean(prefix: seq<byte>, v: bool, rest: seq<byte>)
    ensures Jboolean(prefix + WriteBoolean(v) + rest, |prefix|) == Taken(if v then 1 else 0, |prefix| + 1)
  {
    assert (prefix + WriteBoolean(v) + rest)[|prefix|] == if v then 1 else 0;
  }

  lemma ReadsWriteShort(prefix: seq<byte>, v: int, rest: seq<byte>)
    requires IsInt16(v)
    ensures Jshort(prefix + WriteShort(v) + rest, |prefix|) == Taken(v, |prefix| + 2)
  {
    var data := prefix + WriteShort(v) + rest;
    assert data[|prefix|..|prefix| + 2] == WriteShort(v);
    BigEndian16Inverse(v);
    Signed16Low16(v);
  }

  lemma ReadsWriteInt(prefix: seq<byte>, v: int, rest: seq<byte>)
    requires IsInt32(v)
    ensures Jint(prefix + WriteInt(v) + rest, |prefix|) == Taken(v, |prefix| + 4)
  {
    var data := prefix + WriteInt(v) + rest;
    assert data[|prefix|..|prefix| + 4] == WriteInt(v);
    BigEndian32Inverse(v);
    Signed32Low32(v);
  }

  /** A float comes back bit for bit, except that a NaN comes back as the canonical one `writeFloat` writes. */
  lemma ReadsWriteFloat(prefix: seq<byte>, w: word32, rest: seq<byte>)
    ensures Jfloat(prefix + WriteFloat(w) + rest, |prefix|) == Taken(FloatToIntBits(w), |prefix| + 4)
  {
    var data := prefix + WriteFloat(w) + rest;
    var u := FloatToIntBits(w);
    assert data[|prefix|..|prefix| + 4] == WriteFloat(w);
    BigEndian32Inverse(u);
    assert Jint(data, |prefix|) == Taken(Signed32(u), |prefix| + 4);
  }

  class DataStream {
    const data: seq<byte>
    var pos: int

    /** A stream over the bytes of a Java byte array, at its first byte. */
    constructor (data: seq<byte>)
      ensures this.data == data && pos == 0
    {
      this.data := data;
      pos := 0;
    }

    /** `Skip(n)`: the cursor moves by `n`, which may take it past either end. */
    method Skip(n: int)
      modifies this
      ensures pos == old(pos) + n
    {
      pos := pos + n;
    }

    /** `ReadJbyte()`: 0 with the cursor kept when no byte is left, else the signed byte and one step on. */
    method ReadJbyte() returns (v: int)
      requires 0 <= pos
      modifies this
      ensures Taken(v, pos) == Jbyte(data, old(pos))
    {
      if pos + 1 > |data| {
        return 0;
      }
      v := Signed8(data[pos]);
      pos := pos + 1;
    }

    /** `ReadJboolean()`: the next byte, unsigned; 0 on a short read. */
    method ReadJboolean() returns (v: byte)
      requires 0 <= pos
      modifies this
      ensures Taken(v, pos) == Jboolean(data, old(pos))
    {
      var b := ReadJbyte();
      v := Low8(b);
    }

    /** `ReadJshort()`: 0 with the cursor kept when fewer than two bytes are left, else the big-endian short. */
    method ReadJshort() returns (v: int)
      requires 0 <= pos
      modifies this
      ensures Taken(v, pos) == Jshort(data, old(pos))
    {
      if pos + 2 > |data| {
        return 0;
      }
      v := Signed16(Unsigned16(data[pos..pos + 2]));
      pos := pos + 2;
    }

    /** `ReadJint()`: 0 with the cursor kept when fewer than four bytes are left, else the big-endian int. */
    method ReadJint() returns (v: int)
      requires 0 <= pos
      modifies this
      ensures Taken(v, pos) == Jint(data, old(pos))
    {
      if pos + 4 > |data| {
        return 0;
      }
      v := Signed32(Unsigned32(data[pos..pos + 4]));
      pos := pos + 4;
    }

    /** `ReadJfloat()`: the next int's bits as a float word; +0.0 on a short read. */
    method ReadJfloat() returns (w: word32)
      requires 0 <= pos
      modifies this
      ensures Taken(w, pos) == Jfloat(data, old(pos))
    {
      var i := ReadJint();
      w := Low32(i);
    }
  }
}
