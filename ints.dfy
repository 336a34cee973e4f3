/** Fixed-width unsigned integers of the source, as bounded naturals. */
module Ints {

  const U8_LIMIT: nat := 0x100
  const U16_LIMIT: nat := 0x1_0000
  const U32_LIMIT: nat := 0x1_0000_0000
  const U64_LIMIT: nat := 0x1_0000_0000_0000_0000
  const U64_MAX: nat := U64_LIMIT - 1

  type u8 = x: nat | x < U8_LIMIT
  type u16 = x: nat | x < U16_LIMIT
  type u32 = x: nat | x < U32_LIMIT
  type u64 = x: nat | x < U64_LIMIT

  type i8 = x: int | -0x80 <= x < 0x80
  type i16 = x: int | -0x8000 <= x < 0x8000
  type i32 = x: int | -0x8000_0000 <= x < 0x8000_0000
  type i64 = x: int | -0x8000_0000_0000_0000 <= x < 0x8000_0000_0000_0000

  /** `a.div_ceil(b)` for unsigned integers; the source panics when `b == 0`. */
  function DivCeil(a: nat, b: nat): (r: nat)
    requires b > 0
    ensures r * b >= a && (r == 0 || (r - 1) * b < a)
  {
    (a + b - 1) / b
  }

  /** `a.saturating_sub(b)` on unsigned integers. */
  function SaturatingSub(a: nat, b: nat): (r: nat)
    ensures r == 0 || r + b == a
    ensures a <= b <==> r == 0
  {
    if a <= b then 0 else a - b
  }

  /** `a.saturating_mul(b)` on u64. */
  function SaturatingMul64(a: u64, b: u64): (r: u64)
    ensures a * b < U64_LIMIT ==> r == a * b
    ensures a * b >= U64_LIMIT ==> r == U64_MAX
  {
    if a * b < U64_LIMIT then a * b else U64_MAX
  }

  /** `x as i64` for a u64: values of 2^63 and more wrap to negative numbers. */
  function AsI64(x: u64): (r: i64)
    ensures r == x || r == x - U64_LIMIT
    ensures r >= 0 <==> x < 0x8000_0000_0000_0000
  {
    if x < 0x8000_0000_0000_0000 then x else x - U64_LIMIT
  }

  /** `v as u64` (or `as usize`) for a signed integer: negative values wrap to 2^64 + v. */
  function ToU64(v: i64): (r: u64)
    ensures v >= 0 ==> r == v
    ensures v < 0 ==> r == v + U64_LIMIT
  {
    if v >= 0 then v else v + U64_LIMIT
  }

  /** `x as i8` for an unsigned integer: the low eight bits, read as two's complement. */
  function AsI8(x: nat): (r: i8)
    ensures (r - x) % U8_LIMIT == 0
    ensures x < 0x80 ==> r == x
  {
    var low := x % U8_LIMIT;
    if low < 0x80 then low else low - U8_LIMIT
  }

  function Min(a: int, b: int): int { if a <= b then a else b }
  function Max(a: int, b: int): int { if a <= b then b else a }

  lemma MulPos(v: int, k: int)
    requires v > 0 && k >= 1
    ensures v * k >= v
  {
  }

  /** Euclidean division has one quotient. */
  lemma DivUnique(a: int, v: int, q: int, r: int)
    requires v > 0 && a == q * v + r && 0 <= r < v
    ensures a / v == q && a % v == r
  {
    var d, m := a / v, a % v;
    assert a == d * v + m && 0 <= m < v;
    assert (d - q) * v == r - m;
    if d - q >= 1 {
      MulPos(v, d - q);
    } else if q - d >= 1 {
      MulPos(v, q - d);
    }
  }

  /** 2 to the power `k`. */
  function Pow2(k: nat): (r: nat)
    ensures r >= 1
  {
    if k == 0 then 1 else 2 * Pow2(k - 1)
  }

  /** The low bit of `a` xor the low bit of `b`. */
  function XorBit(a: nat, b: nat): nat
  {
    if a % 2 == b % 2 then 0 else 1
  }

  /** Bitwise exclusive or (Rust's `^` on unsigned integers), defined bit by bit. */
  function Xor(a: nat, b: nat): nat
    decreases a + b
  {
    if a == 0 && b == 0 then 0 else 2 * Xor(a / 2, b / 2) + XorBit(a, b)
  }

  lemma XorHalves(a: nat, b: nat)
    ensures Xor(a, b) / 2 == Xor(a / 2, b / 2) && Xor(a, b) % 2 == XorBit(a, b)
  {
  }

  /** Xor with the same value twice gives the original value back. */
  lemma {:induction false} XorInvolutive(a: nat, b: nat)
    ensures Xor(Xor(a, b), b) == a
    decreases a + b
  {
    if a == 0 && b == 0 {
    } else {
      XorInvolutive(a / 2, b / 2);
      var x := Xor(a, b);
      XorHalves(a, b);
      assert !(x == 0 && b == 0);
      calc {
        Xor(x, b);
        2 * Xor(x / 2, b / 2) + XorBit(x, b);
        2 * Xor(Xor(a / 2, b / 2), b / 2) + XorBit(x, b);
        2 * (a / 2) + a % 2;
      }
    }
  }

  /** Xor of two k-bit numbers is a k-bit number. */
  lemma {:induction false} XorBound(a: nat, b: nat, k: nat)
    requires a < Pow2(k) && b < Pow2(k)
    ensures Xor(a, b) < Pow2(k)
    decreases k
  {
    if a == 0 && b == 0 {
    } else {
      assert k > 0;
      XorBound(a / 2, b / 2, k - 1);
    }
  }

  lemma {:induction false} Pow2Add(a: nat, b: nat)
    ensures Pow2(a + b) == Pow2(a) * Pow2(b)
  {
    if a > 0 {
      Pow2Add(a - 1, b);
      assert Pow2(a + b) == 2 * Pow2(a - 1 + b);
    }
  }

  lemma {:induction false} Pow2Is64()
    ensures Pow2(64) == U64_LIMIT
  {
    assert Pow2(1) == 2;
    Pow2Add(1, 1);
    assert Pow2(2) == 4;
    Pow2Add(2, 2);
    assert Pow2(4) == 0x10;
    Pow2Add(4, 4);
    assert Pow2(8) == 0x100;
    Pow2Add(8, 8);
    assert Pow2(16) == 0x1_0000;
    Pow2Add(16, 16);
    assert Pow2(32) == 0x1_0000_0000;
    Pow2Add(32, 32);
  }

  /** `^` on u64 stays within u64. */
  function Xor64(a: u64, b: u64): (r: u64)
    ensures Xor(r, b) == a
  {
    Pow2Is64();
    XorBound(a, b, 64);
    XorInvolutive(a, b);
    Xor(a, b)
  }
}
