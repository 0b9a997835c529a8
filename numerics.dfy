/** The fixed-width integer types of the source, and its wrap-around arithmetic. */
module Numerics {
  const TWO_32: nat := 0x1_0000_0000
  const TWO_64: nat := 0x1_0000_0000_0000_0000

  /** C# `uint`. */
  type U32 = x: int | 0 <= x < 0x1_0000_0000
  /** C# `ulong`; also every address of the target. */
  type U64 = x: int | 0 <= x < 0x1_0000_0000_0000_0000
  /** C# `int`. */
  type Int32 = x: int | -0x8000_0000 <= x < 0x8000_0000

  /** Unchecked `uint` addition. */
  function AddU32(a: U32, b: nat): (r: U32)
    ensures r == a + b || r == a + b - TWO_32 || b >= TWO_32
  {
    (a + b) % TWO_32
  }

  /** Unchecked `ulong` addition. */
  function AddU64(a: U64, b: nat): (r: U64)
    ensures b < TWO_64 ==> (r == a + b || r == a + b - TWO_64)
  {
    (a + b) % TWO_64
  }

  /** `(int)u`: reinterprets the 32 bits of a `uint` as a signed value. */
  function AsInt32(u: U32): (r: Int32)
    ensures r % TWO_32 == u
    ensures u < 0x8000_0000 <==> r >= 0
  {
    if u < 0x8000_0000 then u else u - TWO_32
  }

  /** The 32 bits of an `int`, as a `uint` (what the `X` format prints). */
  function Bits32(v: Int32): (r: U32)
    ensures AsInt32(r) == v
  {
    if v < 0 then v + TWO_32 else v
  }

  /** Unchecked `++` on an `int`: the largest value wraps to the smallest. */
  function IncInt32(x: Int32): (r: Int32)
    ensures Bits32(r) == AddU32(Bits32(x), 1)
  {
    if x == 0x7FFF_FFFF then -0x8000_0000 else x + 1
  }

  /** The `int` a counter holds after `n` increments from zero. */
  function WrapInt32(n: nat): Int32
  {
    AsInt32(n % TWO_32)
  }

  lemma IncWrap(n: nat)
    ensures IncInt32(WrapInt32(n)) == WrapInt32(n + 1)
  {
    ModAddLeft(n, 1, TWO_32);
  }

  /** The counter reads `n` as long as `n` fits in an `int`. */
  lemma WrapInt32Small(n: nat)
    requires n < 0x8000_0000
    ensures WrapInt32(n) == n
  {
  }

  /** Reducing an operand first does not change a sum modulo `m`. */
  lemma ModAddLeft(x: int, y: int, m: int)
    requires m > 0
    ensures (x % m + y) % m == (x + y) % m
  {
    var q := x / m;
    assert x == q * m + x % m;
    assert x + y == (x % m + y) + q * m;
    ModMultiple(x % m + y, q, m);
  }

  lemma ModMultiple(a: int, q: int, m: int)
    requires m > 0
    ensures (a + q * m) % m == a % m
  {
    var d := a / m;
    assert a + q * m == (d + q) * m + a % m by {
      assert a == d * m + a % m;
      assert (d + q) * m == d * m + q * m;
    }
    ModUnique(a + q * m, d + q, a % m, m);
  }

  /** Euclidean division has one quotient and one remainder. */
  lemma ModUnique(a: int, k: int, r: int, m: int)
    requires m > 0 && 0 <= r < m && a == k * m + r
    ensures a % m == r
  {
    var d := a / m;
    assert a == d * m + a % m;
    assert (k - d) * m == a % m - r by {
      assert (k - d) * m == k * m - d * m;
    }
    if k > d {
      MulAtLeast(k - d, m);
    } else if k < d {
      MulAtLeast(d - k, m);
    }
  }

  lemma MulAtLeast(x: int, m: int)
    requires x >= 1 && m > 0
    ensures x * m >= m
  {
    assert x * m == (x - 1) * m + m;
    assert (x - 1) * m >= 0;
  }

  /** A `uint` accumulator stays the running sum modulo 2^32. */
  lemma AddU32Tracks(total: U32, sum: int, c: nat)
    requires total == sum % TWO_32
    ensures AddU32(total, c) == (sum + c) % TWO_32
  {
    ModAddLeft(sum, c, TWO_32);
  }

  /** A counter kept modulo `m` that went up by one, or by one and wrapped, still agrees
      with a count that went up by one. */
  lemma ModStep(before: int, after: int, n: int, m: int)
    requires m > 0
    requires before % m == n % m
    requires after == before + 1 || after + m == before + 1
    ensures after % m == (n + 1) % m
  {
    if after != before + 1 {
      ModMultiple(after, 1, m);
    }
    ModAddLeft(before, 1, m);
    ModAddLeft(n, 1, m);
  }
}
