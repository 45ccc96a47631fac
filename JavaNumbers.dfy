/**
 * Java's fixed-width integers on top of Dafny's unbounded ones: the range of `long` and `int`,
 * two's-complement wrap-around of `long` arithmetic, `Math.min`/`Math.max`, running minima and
 * maxima, and the saturating millisecond-to-nanosecond conversion of `TimeUnit`.
 */
module JavaNumbers {

  const LONG_MIN: int := -0x8000_0000_0000_0000
  const LONG_MAX: int := 0x7fff_ffff_ffff_ffff
  const INT_MIN: int := -0x8000_0000
  const INT_MAX: int := 0x7fff_ffff

  /** The values of a Java `long`. */
  type Long = x: int | -0x8000_0000_0000_0000 <= x <= 0x7fff_ffff_ffff_ffff

  /** The values of a Java `int`. */
  type Int = x: int | -0x8000_0000 <= x <= 0x7fff_ffff

  const LONG_MODULUS: int := 0x1_0000_0000_0000_0000

  /** The `long` that Java's `+` and `-` yield for the mathematical value `x`. */
  function WrapLong(x: int): (r: Long)
    ensures LONG_MIN <= x <= LONG_MAX ==> r == x
    ensures LONG_MAX < x <= LONG_MAX + LONG_MODULUS ==> r == x - LONG_MODULUS
    ensures LONG_MIN - LONG_MODULUS <= x < LONG_MIN ==> r == x + LONG_MODULUS
    ensures (x - r) % LONG_MODULUS == 0
  {
    (x - LONG_MIN) % LONG_MODULUS + LONG_MIN
  }

  /** `Math.min` and `Math.max`. */
  function Min(a: int, b: int): int { if a <= b then a else b }

  function Max(a: int, b: int): int { if a >= b then a else b }

  /** The value of `x = Math.min(x, v)` run over `xs` in order, starting from `seed`. */
  function MinFold(seed: int, xs: seq<int>): int
  {
    if xs == [] then seed else Min(MinFold(seed, xs[..|xs| - 1]), xs[|xs| - 1])
  }

  /** The value of `x = Math.max(x, v)` run over `xs` in order, starting from `seed`. */
  function MaxFold(seed: int, xs: seq<int>): int
  {
    if xs == [] then seed else Max(MaxFold(seed, xs[..|xs| - 1]), xs[|xs| - 1])
  }

  /** A running minimum is the least of the seed and all the values, and is one of them. */
  lemma {:induction false} MinFoldIsLeast(seed: int, xs: seq<int>)
    ensures MinFold(seed, xs) <= seed
    ensures forall i :: 0 <= i < |xs| ==> MinFold(seed, xs) <= xs[i]
    ensures MinFold(seed, xs) == seed || exists i :: 0 <= i < |xs| && MinFold(seed, xs) == xs[i]
  {
    if xs != [] {
      MinFoldIsLeast(seed, xs[..|xs| - 1]);
      var m := MinFold(seed, xs[..|xs| - 1]);
      if m != seed {
        var i :| 0 <= i < |xs| - 1 && m == xs[..|xs| - 1][i];
        assert m == xs[i];
      }
    }
  }

  /** A running maximum is the greatest of the seed and all the values, and is one of them. */
  lemma {:induction false} MaxFoldIsGreatest(seed: int, xs: seq<int>)
    ensures MaxFold(seed, xs) >= seed
    ensures forall i :: 0 <= i < |xs| ==> MaxFold(seed, xs) >= xs[i]
    ensures MaxFold(seed, xs) == seed || exists i :: 0 <= i < |xs| && MaxFold(seed, xs) == xs[i]
  {
    if xs != [] {
      MaxFoldIsGreatest(seed, xs[..|xs| - 1]);
      var m := MaxFold(seed, xs[..|xs| - 1]);
      if m != seed {
        var i :| 0 <= i < |xs| - 1 && m == xs[..|xs| - 1][i];
        assert m == xs[i];
      }
    }
  }

  /** The nearest `long` to `x`: what a saturating conversion yields. */
  function SaturateLong(x: int): Long
  {
    if x > LONG_MAX then LONG_MAX else if x < LONG_MIN then LONG_MIN else x
  }

  const NANOS_PER_MILLI: int := 1_000_000

  /**
   * `TimeUnit.MILLISECONDS.toNanos(d)`: multiplies by 10^6 and saturates at the `long` bounds
   * instead of wrapping around.
   */
  function MillisToNanos(d: Long): (r: Long)
    ensures r == SaturateLong(d * NANOS_PER_MILLI)
  {
    var over := LONG_MAX / NANOS_PER_MILLI;
    if d > over then LONG_MAX else if d < -over then LONG_MIN else d * NANOS_PER_MILLI
  }
}
