/** Fixed-width integers of the host runtime (C# `int` and `long`) and their
    two's-complement wrap-around, as unchecked C# arithmetic performs it. */
module Numerics {

  const MinInt32: int := -0x8000_0000
  const MaxInt32: int := 0x7FFF_FFFF
  const MinInt64: int := -0x8000_0000_0000_0000
  const MaxInt64: int := 0x7FFF_FFFF_FFFF_FFFF

  /** A C# `int`. */
  type Int32 = x: int | -0x8000_0000 <= x <= 0x7FFF_FFFF

  /** A C# `long`. */
  type Int64 = x: int | -0x8000_0000_0000_0000 <= x <= 0x7FFF_FFFF_FFFF_FFFF

  predicate InInt64(x: int) {
    MinInt64 <= x <= MaxInt64
  }

  /** The value an unchecked 32-bit operation leaves when its exact result is `x`. */
  function Wrap32(x: int): (r: Int32)
    ensures (r - x) % 0x1_0000_0000 == 0
    ensures MinInt32 <= x <= MaxInt32 ==> r == x
  {
    (x + 0x8000_0000) % 0x1_0000_0000 - 0x8000_0000
  }

  /** The value an unchecked 64-bit operation leaves when its exact result is `x`. */
  function Wrap64(x: int): (r: Int64)
    ensures (r - x) % 0x1_0000_0000_0000_0000 == 0
    ensures InInt64(x) ==> r == x
  {
    (x + 0x8000_0000_0000_0000) % 0x1_0000_0000_0000_0000 - 0x8000_0000_0000_0000
  }

  /** Two exact results that agree modulo 2^64 wrap to the same `long`. */
  lemma Wrap64Congruent(x: int, y: int)
    requires (x - y) % 0x1_0000_0000_0000_0000 == 0
    ensures Wrap64(x) == Wrap64(y)
  {
    var m := 0x1_0000_0000_0000_0000;
    var k := (x - y) / m;
    assert x == y + k * m;
    var h := 0x8000_0000_0000_0000;
    assert (x + h) == (y + h) + k * m;
    ModShift(y + h, k, m);
  }

  lemma ModShift(a: int, k: int, m: int)
    requires m > 0
    ensures (a + k * m) % m == a % m
  {
    var q, r := a / m, a % m;
    assert a == q * m + r && 0 <= r < m;
    assert a + k * m == (q + k) * m + r;
    DivModUnique(a + k * m, q + k, r, m);
  }

  lemma DivModUnique(a: int, q: int, r: int, m: int)
    requires m > 0 && 0 <= r < m && a == q * m + r
    ensures a % m == r
  {
    var q', r' := a / m, a % m;
    assert a == q' * m + r';
    if q' < q {
      assert (q - q') * m == r' - r;
      MulMonotone(1, q - q', m);
    } else if q' > q {
      assert (q' - q) * m == r - r';
      MulMonotone(1, q' - q, m);
    }
  }

  /** Multiplying by a non-negative factor keeps order and sign. */
  lemma MulMonotone(x: int, y: int, z: int)
    requires 0 <= x <= y && 0 <= z
    ensures 0 <= x * z <= y * z
  {
    assert y * z - x * z == (y - x) * z;
  }

  /** Multiplying a wrapped `long` again and wrapping gives the same `long` as
      wrapping the exact product once: a chain of unchecked `*=` steps ends at
      the exact product taken modulo 2^64. */
  lemma {:induction false} Wrap64Mul(a: int, b: int)
    ensures Wrap64(Wrap64(a) * b) == Wrap64(a * b)
  {
    var m := 0x1_0000_0000_0000_0000;
    var w := Wrap64(a);
    var k := (w - a) / m;
    assert w == a + k * m;
    assert w * b == a * b + (k * b) * m;
    assert (w * b - a * b) == (k * b) * m;
    ModShift(0, k * b, m);
    Wrap64Congruent(w * b, a * b);
  }
}
