/** Fixed-width unsigned integers of the kernel, as subset types of `int`.
    An assignment into one of these types is a proof that the C expression does not
    leave its width; where the C code truncates, the model writes `Trunc32` or `Trunc64`. */
module MachineInts {

  const TWO_32: int := 0x1_0000_0000
  const TWO_64: int := 0x1_0000_0000_0000_0000

  type U16 = x: int | 0 <= x < 0x1_0000
  /** A sysctl held in an `int` and bounded below by zero. */
  type U31 = x: int | 0 <= x < 0x8000_0000
  type U32 = x: int | 0 <= x < 0x1_0000_0000
  type U64 = x: int | 0 <= x < 0x1_0000_0000_0000_0000

  /** Conversion to `u32`, also of a negative difference (modular subtraction). */
  function Trunc32(x: int): U32 {
    x % TWO_32
  }

  function Trunc64(x: int): U64 {
    x % TWO_64
  }

  function Min(a: int, b: int): int {
    if a <= b then a else b
  }

  function Max(a: int, b: int): int {
    if a <= b then b else a
  }

  /** `clamp_t`: the upper bound wins when the bounds are inverted. */
  function Clamp(x: int, lo: int, hi: int): int {
    Min(Max(x, lo), hi)
  }

  /** Subtraction that stops at zero. */
  function Monus(a: int, b: int): int {
    if a > b then a - b else 0
  }

  function Pow2(k: nat): (p: int)
    ensures p >= 1
    ensures k >= 1 ==> p >= 2
  {
    if k == 0 then 1 else 2 * Pow2(k - 1)
  }

  /** `ALIGN(x, scale)` for a positive power of two, before truncation. */
  function RoundUp(x: nat, scale: int): (r: nat)
    requires scale >= 1
    ensures x <= r < x + scale
    ensures r % scale == 0
  {
    var q := (x + scale - 1) / scale;
    assert q * scale <= x + scale - 1 < q * scale + scale;
    assert (q * scale) % scale == 0 by { MultipleMod(q, scale); }
    q * scale
  }

  lemma MultipleMod(q: int, d: int)
    requires d >= 1
    ensures (q * d) % d == 0
  {
    DivModUnique(q * d, d, q, 0);
  }

  lemma MulGrows(a: int, d: int)
    requires a >= 1 && d >= 1
    ensures a * d >= d
  {
  }

  lemma DivisionEquation(x: int, d: int)
    requires d >= 1
    ensures x == (x / d) * d + x % d && 0 <= x % d < d
  {
  }

  lemma MulDiff(a: int, b: int, d: int)
    ensures (a - b) * d == a * d - b * d
  {
  }

  /** Quotient and remainder are determined by the division equation. */
  lemma DivModUnique(x: int, d: int, q: int, r: int)
    requires d >= 1 && 0 <= r < d && x == q * d + r
    ensures x / d == q && x % d == r
  {
    DivisionEquation(x, d);
    SameQuotient(d, q, r, x / d, x % d);
  }

  lemma SameQuotient(d: int, q: int, r: int, q': int, r': int)
    requires d >= 1 && 0 <= r < d && 0 <= r' < d && q * d + r == q' * d + r'
    ensures q == q' && r == r'
  {
    MulDiff(q, q', d);
    MulDiff(q', q, d);
    if q > q' {
      MulGrows(q - q', d);
    } else if q < q' {
      MulGrows(q' - q, d);
    }
  }

  lemma DivMonotone(x: int, y: int, d: int)
    requires d >= 1 && x <= y
    ensures x / d <= y / d
  {
    var a, b := x / d, y / d;
    DivisionEquation(x, d);
    DivisionEquation(y, d);
    MulDiff(a, b, d);
    if a > b {
      MulGrows(a - b, d);
    }
  }

  /** A modular difference never exceeds the true one. */
  lemma ModularDifference(now: nat, base: nat)
    requires base <= now
    ensures Trunc32(Trunc32(now) - Trunc32(base)) == (now - base) % TWO_32
    ensures (now - base) % TWO_32 <= now - base
  {
    var d := now / TWO_32 - base / TWO_32;
    var x := Trunc32(now) - Trunc32(base);
    assert now - base == d * TWO_32 + x;
    DivModUnique(now - base, TWO_32, d + x / TWO_32, x % TWO_32);
  }
}
