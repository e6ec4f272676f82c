/**
 * java.util.Random as the engine uses it: a source of uniform draws in [0, 1).
 * The draws are an input of the model, an infinite stream fixed when the
 * generator is made; the generator only remembers how many it has handed out.
 */
module Draws {

  /** A value of `nextFloat()`. */
  type Unit = r: real | 0.0 <= r < 1.0

  class Random {
    const stream: nat -> Unit
    var drawn: nat

    constructor (stream: nat -> Unit)
      ensures this.stream == stream && drawn == 0
    {
      this.stream := stream;
      drawn := 0;
    }

    /** The draw the next call will return. */
    function Peek(): Unit
      reads this
    {
      stream(drawn)
    }

    /** `nextFloat()`: the next draw of the stream. */
    method NextFloat() returns (f: Unit)
      modifies this
      ensures f == old(Peek()) && drawn == old(drawn) + 1
    {
      f := stream(drawn);
      drawn := drawn + 1;
    }

    /** `nextBoolean()`: a fair coin, true when the next draw falls in the lower half. */
    method NextBoolean() returns (b: bool)
      modifies this
      ensures b == (old(Peek()) < 0.5) && drawn == old(drawn) + 1
    {
      var f := NextFloat();
      b := f < 0.5;
    }
  }

  /** A value of the C library's `random()`: 0 .. 2^31 - 1. */
  type Random31 = r: int | 0 <= r < 0x8000_0000

  /**
   * The native engine's generator (`RNG` in jni/sandblaster.cc), which wraps
   * the C library's `random()`. As above, the values `random()` returns are an
   * input of the model; the time-based seeding is not modelled.
   */
  class CRandom {
    const stream: nat -> Random31
    var drawn: nat

    constructor (stream: nat -> Random31)
      ensures this.stream == stream && drawn == 0
    {
      this.stream := stream;
      drawn := 0;
    }

    /** The value the next call of `random()` will return. */
    function Peek(): Random31
      reads this
    {
      stream(drawn)
    }

    /** `NextBoolean()`: the lowest bit of the next `random()`. */
    method NextBoolean() returns (b: bool)
      modifies this
      ensures b <==> old(Peek()) % 2 == 1
      ensures drawn == old(drawn) + 1
    {
      b := stream(drawn) % 2 == 1;
      drawn := drawn + 1;
    }

    /** `NextFloat()`: the next `random()` divided by 2^31, a value in [0, 1). */
    method NextFloat() returns (f: Unit)
      modifies this
      ensures f == old(Peek()) as real / 0x8000_0000 as real
      ensures drawn == old(drawn) + 1
    {
      f := stream(drawn) as real / 0x8000_0000 as real;
      drawn := drawn + 1;
    }
  }
}
