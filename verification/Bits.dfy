/** Fixed-width integers and the bit operations the C++ code applies to them.

    Integers are mathematical, so every truncation of the source is written out
    as a `%`. A right shift by `s` is a division and a mask of the low bits is a
    remainder; OR and left shift are defined here bit by bit, and related to
    sums by `ShiftOr`. */
module Bits {
  type byte = b: int | 0 <= b < 256
  type uint32 = x: int | 0 <= x < 0x1_0000_0000
  type uint64 = x: int | 0 <= x < 0x1_0000_0000_0000_0000
  type int32 = x: int | -0x8000_0000 <= x < 0x8000_0000

  const TWO32: nat := 0x1_0000_0000
  const TWO64: nat := 0x1_0000_0000_0000_0000
  const INT32_MAX: nat := 0x7FFF_FFFF

  function Pow2(n: nat): (r: nat)
    ensures r > 0
  {
    if n == 0 then 1 else 2 * Pow2(n - 1)
  }

  /** Bitwise OR, one binary digit at a time. */
  function BitOr(a: nat, b: nat): nat
  {
    if a == 0 then b
    else if b == 0 then a
    else 2 * BitOr(a / 2, b / 2) + (if a % 2 == 1 || b % 2 == 1 then 1 else 0)
  }

  /** `x << s` in 64 bits: the bits shifted past the top are lost. */
  function Shl64(x: nat, s: nat): uint64
  {
    (x * Pow2(s)) % TWO64
  }

  lemma {:induction false} Pow2Add(a: nat, b: nat)
    ensures Pow2(a + b) == Pow2(a) * Pow2(b)
  {
    if a > 0 {
      Pow2Add(a - 1, b);
      assert Pow2(a + b) == 2 * Pow2(a - 1 + b);
    }
  }

  lemma Pow2Small()
    ensures Pow2(6) == 64 && Pow2(7) == 128 && Pow2(8) == 256
  {
  }

  lemma Pow2Double(n: nat)
    ensures Pow2(n + 1) == 2 * Pow2(n)
  {
  }

  lemma Pow2Values()
    ensures Pow2(7) == 128 && Pow2(6) == 64
    ensures Pow2(63) == 0x8000_0000_0000_0000 && Pow2(64) == TWO64
  {
    hide Pow2;
    Pow2Small();
    Pow2Add(8, 8);
    Pow2Add(16, 16);
    Pow2Add(32, 32);
    Pow2Double(63);
  }

  lemma Distribute(a: int, b: int, c: int)
    ensures (a + b) * c == a * c + b * c
  {
  }

  lemma MulAssociates(a: int, b: int, c: int)
    ensures (a * b) * c == a * (b * c)
  {
  }

  lemma MulAtLeast(d: int, n: int)
    requires n > 0
    ensures d >= 1 ==> d * n >= n
    ensures d <= -1 ==> d * n <= -n
  {
    if d >= 1 {
      assert (d - 1) * n >= 0;
    } else if d <= -1 {
      assert (-d - 1) * n >= 0;
    }
  }

  lemma QuotientUnique(n: int, k: int, r: int, q: int, t: int)
    requires 0 <= r < n && 0 <= t < n && k * n + r == q * n + t
    ensures r == t && k == q
  {
    MulAtLeast(q - k, n);
    assert (q - k) * n == q * n - k * n;
  }

  lemma ModUnique(x: int, k: int, n: int, r: int)
    requires 0 <= r < n && x == k * n + r
    ensures x % n == r && x / n == k
  {
    var q, t := x / n, x % n;
    assert x == q * n + t;
    QuotientUnique(n, k, r, q, t);
  }

  /** When the operands occupy disjoint bits, OR is addition. */
  lemma {:induction false} OrIsSum(a: nat, b: nat, s: nat)
    requires a < Pow2(s)
    ensures BitOr(a, b * Pow2(s)) == a + b * Pow2(s)
  {
    if s > 0 {
      var rest := b * Pow2(s - 1);
      Pow2Double(s - 1);
      hide Pow2;
      assert b * Pow2(s) == 2 * rest;
      OrIsSum(a / 2, b, s - 1);
    }
  }

  lemma {:induction false} OrComm(a: nat, b: nat)
    ensures BitOr(a, b) == BitOr(b, a)
  {
    if a != 0 && b != 0 { OrComm(a / 2, b / 2); }
  }

  /** The varint reader's `value |= chunk << shift` is an addition modulo 2^64, as
      long as `value` still fits below bit `s`. */
  lemma ShiftOr(a: nat, b: nat, s: nat)
    requires s <= 64 && a < Pow2(s)
    ensures BitOr(a, Shl64(b, s)) == (a + b * Pow2(s)) % TWO64
  {
    hide Pow2, BitOr;
    var p, q := Pow2(s), Pow2(64 - s);
    Pow2Add(s, 64 - s);
    Pow2Values();
    var k, low := b / q, b % q;
    LowPart(k, low, p, q);
    ModUnique(b * p, k, TWO64, low * p);
    OrIsSum(a, low, s);
    ModUnique(a + b * p, k, TWO64, a + low * p);
  }

  /** Splitting `(k * q + low) * p` at the multiple of `p * q` below it. */
  lemma LowPart(k: nat, low: nat, p: nat, q: nat)
    requires p > 0 && low < q
    ensures low * p <= p * q - p
    ensures (k * q + low) * p == k * (p * q) + low * p
  {
    Distribute(k * q, low, p);
    MulAssociates(k, q, p);
    Distribute(low, q - low, p);
    MulAtLeast(q - low, p);
  }
}
