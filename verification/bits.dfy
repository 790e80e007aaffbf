/** Shifts and bitwise operators on non-negative integers, defined bit by
    bit, with the arithmetic identities the decoders rely on. */
module Bits {

  type Byte = x: int | 0 <= x < 256

  function Pow2(k: nat): (r: nat)
    ensures r >= 1
  {
    if k == 0 then 1 else 2 * Pow2(k - 1)
  }

  /** `x << k` on an unbounded integer. */
  function Shl(x: nat, k: nat): nat {
    x * Pow2(k)
  }

  /** `x >> k` on a non-negative integer. */
  function Shr(x: nat, k: nat): nat {
    var p := Pow2(k);
    DivNonNegative(x, p);
    x / p
  }

  lemma DivNonNegative(x: nat, p: nat)
    requires p >= 1
    ensures x / p >= 0
  {
  }

  /** `a & b`, one bit at a time from the least significant end. */
  function BitAnd(a: nat, b: nat): nat
    decreases a
  {
    if a == 0 || b == 0 then 0
    else 2 * BitAnd(a / 2, b / 2) + (if a % 2 == 1 && b % 2 == 1 then 1 else 0)
  }

  /** `a | b`, one bit at a time from the least significant end. */
  function BitOr(a: nat, b: nat): nat
    decreases a + b
  {
    if a == 0 then b
    else if b == 0 then a
    else 2 * BitOr(a / 2, b / 2) + (if a % 2 == 1 || b % 2 == 1 then 1 else 0)
  }

  /** `x & ~(2^k - 1)`: clear the k low bits. Python's `&` on a negative
      left operand works on the infinite two's-complement expansion, which
      rounds toward minus infinity; Dafny's `%` with a positive modulus is
      the same non-negative remainder. */
  function ClearLow(x: int, k: nat): (r: int)
    ensures r % Pow2(k) == 0 && x - Pow2(k) < r <= x
  {
    var p := Pow2(k);
    DivModUnique(x - x % p, p, x / p, 0);
    x - x % p
  }

  lemma SmallPowers()
    ensures Pow2(4) == 16 && Pow2(5) == 32
  {
  }

  lemma MulAtLeast(d: int, k: int)
    requires d > 0 && k >= 1
    ensures d * k >= d
  {
    assert d * k == d * (k - 1) + d;
  }

  /** Euclidean division is determined by its defining equation. */
  lemma DivModUnique(x: int, d: int, q: int, r: int)
    requires d > 0 && x == d * q + r && 0 <= r < d
    ensures x / d == q && x % d == r
  {
    var q', r' := x / d, x % d;
    assert x == d * q' + r';
    if q > q' {
      MulAtLeast(d, q - q');
      assert false;
    } else if q < q' {
      MulAtLeast(d, q' - q);
      assert false;
    }
  }

  lemma HalveMod(x: nat, m: nat)
    requires m >= 1
    ensures 2 * ((x / 2) % m) + x % 2 == x % (2 * m)
  {
    var q := (x / 2) / m;
    var r := (x / 2) % m;
    assert x / 2 == m * q + r;
    assert x == (2 * m) * q + (2 * r + x % 2);
    DivModUnique(x, 2 * m, q, 2 * r + x % 2);
  }

  /** One step of `BitAnd` against an odd mask keeps the low bit of x. */
  lemma BitAndOddStep(x: nat, mask: nat)
    requires x > 0 && mask % 2 == 1
    ensures BitAnd(x, mask) == 2 * BitAnd(x / 2, mask / 2) + x % 2
  {
  }

  /** 2^k - 1 is odd and halves to 2^(k-1) - 1. */
  lemma MaskHalves(k: nat)
    requires k >= 1
    ensures Pow2(k) == 2 * Pow2(k - 1)
    ensures (Pow2(k) - 1) / 2 == Pow2(k - 1) - 1 && (Pow2(k) - 1) % 2 == 1
  {
    DivModUnique(Pow2(k) - 1, 2, Pow2(k - 1) - 1, 1);
  }

  /** Masking with 2^k - 1 keeps the k low bits. */
  lemma {:induction false} BitAndLowMask(x: nat, k: nat)
    ensures BitAnd(x, Pow2(k) - 1) == x % Pow2(k)
  {
    if k == 0 {
    } else if x == 0 {
    } else {
      var m := Pow2(k - 1);
      var mask := Pow2(k) - 1;
      MaskHalves(k);
      calc {
        BitAnd(x, mask);
        == { BitAndOddStep(x, mask); }
        2 * BitAnd(x / 2, m - 1) + x % 2;
        == { BitAndLowMask(x / 2, k - 1); }
        2 * ((x / 2) % m) + x % 2;
        == { HalveMod(x, m); }
        x % (2 * m);
      }
    }
  }

  /** Or-ing a value below 2^k into a k-bit left shift is addition. */
  lemma {:induction false} BitOrDisjoint(a: nat, k: nat, s: nat)
    requires s < Pow2(k)
    ensures BitOr(Shl(a, k), s) == Shl(a, k) + s
  {
    if k == 0 {
    } else if a == 0 || s == 0 {
    } else {
      var m := Pow2(k - 1);
      assert Shl(a, k) == 2 * Shl(a, k - 1);
      assert Shl(a, k) / 2 == Shl(a, k - 1) && Shl(a, k) % 2 == 0;
      BitOrDisjoint(a, k - 1, s / 2);
    }
  }
}
