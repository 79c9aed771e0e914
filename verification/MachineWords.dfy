/**
 Fixed-width machine integers, as subsets of the mathematical integers with the wrap-around
 of the hardware written out. A shift left by k is a multiplication by 2^k that wraps, a shift
 right a division by 2^k, and `&` with 2^k - 1 a remainder.
 */
module MachineWords {
  const TWO32 := 0x1_0000_0000
  const TWO63 := 0x8000_0000_0000_0000
  const TWO64 := 0x1_0000_0000_0000_0000

  type u64 = x: int | 0 <= x < TWO64
  type i64 = x: int | -TWO63 <= x < TWO63
  type byte = x: int | 0 <= x < 256

  const MAX_I64: i64 := TWO63 - 1
  const MIN_I64: i64 := -TWO63
  const MAX_U64: u64 := TWO64 - 1

  predicate FitsI64(x: int) {
    -TWO63 <= x < TWO63
  }

  function Abs(x: int): nat {
    if x < 0 then -x else x
  }

  function Add64(x: u64, y: u64): u64 {
    (x + y) % TWO64
  }

  function Sub64(x: u64, y: u64): u64 {
    (x - y) % TWO64
  }

  function Mul64(x: u64, y: u64): u64 {
    (x * y) % TWO64
  }

  function Pow2(n: nat): (p: nat)
    ensures p > 0
  {
    if n == 0 then 1 else 2 * Pow2(n - 1)
  }

  lemma {:induction false} Pow2Sum(a: nat, b: nat)
    ensures Pow2(a + b) == Pow2(a) * Pow2(b)
  {
    if a > 0 {
      Pow2Sum(a - 1, b);
    }
  }

  lemma Pow2Twice(n: nat, power: nat)
    requires Pow2(n) == power
    ensures Pow2(n + n) == power * power
  {
    Pow2Sum(n, n);
  }

  lemma Pow2Of64()
    ensures Pow2(64) == TWO64
  {
    assert Pow2(4) == 16;
    hide Pow2;
    Pow2Twice(4, 16);
    Pow2Twice(8, 0x100);
    Pow2Twice(16, 0x1_0000);
    Pow2Twice(32, TWO32);
  }

  lemma Pow2Of128()
    ensures Pow2(128) == TWO64 * TWO64
  {
    Pow2Of64();
    Pow2Sum(64, 64);
  }

  lemma AbsProduct(a: int, b: int)
    ensures Abs(a * b) == Abs(a) * Abs(b)
    ensures a * b < 0 <==> a != 0 && b != 0 && ((a < 0) != (b < 0))
  {
  }

  lemma MulMono(a: int, b: int, c: int)
    requires a <= b && 0 <= c
    ensures a * c <= b * c
  {
  }

  lemma MulStep(a: int, b: int, d: int)
    requires a < b && d > 0
    ensures a * d + d <= b * d
  {
    assert (a + 1) * d <= b * d;
  }

  /** The quotient and remainder of a division, recognised from their defining equation. */
  lemma DivModUnique(n: int, d: int, q: int, r: int)
    requires d > 0 && 0 <= r < d && n == q * d + r
    ensures q == n / d && r == n % d
  {
    if q < n / d {
      MulStep(q, n / d, d);
    } else if n / d < q {
      MulStep(n / d, q, d);
    }
  }

  lemma FloorProduct(n: nat, d: nat)
    requires d > 0
    ensures 0 <= n / d * d <= n < n / d * d + d
  {
    assert n == n / d * d + n % d;
  }

  lemma DivDiv(n: nat, a: nat, b: nat)
    requires a > 0 && b > 0
    ensures a * b > 0 && n / (a * b) == n / a / b
  {
    var q, r := n / a / b, n / a % b;
    var s := n % a;
    assert n == (q * b + r) * a + s;
    assert n == q * (a * b) + (r * a + s);
    MulStep(r, b, a);
    DivModUnique(n, a * b, q, r * a + s);
  }
}
