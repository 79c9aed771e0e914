/**
 Two-word numbers: products assembled from 32-bit limbs, and restoring division bit by bit.
 */
module WideArithmetic {
  import opened Wrappers
  import opened MachineWords

  // ---------------------------------------------------------------------------
  // Wide words
  // ---------------------------------------------------------------------------

  datatype UInt128 = UInt128(high: u64, low: u64) {
    function Value(): nat {
      high * TWO64 + low
    }
  }

  function Magnitude(value: i64): (m: u64)
    ensures m == Abs(value)
  {
    if value >= 0 then value else -(value + 1) + 1
  }

  /** The schoolbook product of two 64-bit words from four 32-bit limbs, every word operation wrapping. */
  function MultiplyWide(lhs: u64, rhs: u64): (product: UInt128)
    ensures product.Value() == lhs * rhs
  {
    var lhsLow, lhsHigh := lhs % TWO32, lhs / TWO32;
    var rhsLow, rhsHigh := rhs % TWO32, rhs / TWO32;

    var lowLow := Mul64(lhsLow, rhsLow);
    var lowHigh := Mul64(lhsLow, rhsHigh);
    var highLow := Mul64(lhsHigh, rhsLow);
    var highHigh := Mul64(lhsHigh, rhsHigh);

    LimbProducts(lhs, rhs);
    AssembleLimbs(lowLow, lowHigh, highLow, highHigh);
    Assemble(lowLow, lowHigh, highLow, highHigh)
  }

  /** Adds the four limb products with their carries. */
  function Assemble(lowLow: u64, lowHigh: u64, highLow: u64, highHigh: u64): UInt128 {
    var middle := Add64(Add64(lowLow / TWO32, lowHigh % TWO32), highLow % TWO32);
    UInt128(
      Add64(Add64(Add64(highHigh, lowHigh / TWO32), highLow / TWO32), middle / TWO32),
      Add64(Mul64(middle, TWO32), lowLow % TWO32))
  }

  const LIMB_PRODUCT_MAX := (TWO32 - 1) * (TWO32 - 1)

  lemma LimbBound(a: nat, b: nat)
    requires a < TWO32 && b < TWO32
    ensures 0 <= a * b <= LIMB_PRODUCT_MAX && Mul64(a, b) == a * b
  {
    MulMono(a, TWO32 - 1, b);
    MulMono(b, TWO32 - 1, TWO32 - 1);
  }

  lemma LimbExpansion(a: int, b: int, c: int, d: int, k: int)
    ensures (a * k + b) * (c * k + d) == (a * c) * (k * k) + ((b * c) + (a * d)) * k + b * d
  {
  }

  lemma LimbProducts(lhs: u64, rhs: u64)
    ensures var ll, lh, hl, hh :=
              Mul64(lhs % TWO32, rhs % TWO32), Mul64(lhs % TWO32, rhs / TWO32),
              Mul64(lhs / TWO32, rhs % TWO32), Mul64(lhs / TWO32, rhs / TWO32);
            && lhs * rhs == hh * TWO64 + (lh + hl) * TWO32 + ll
            && ll <= LIMB_PRODUCT_MAX && lh <= LIMB_PRODUCT_MAX
            && hl <= LIMB_PRODUCT_MAX && hh <= LIMB_PRODUCT_MAX
  {
    var a, b, c, d := lhs / TWO32, lhs % TWO32, rhs / TWO32, rhs % TWO32;
    LimbBound(b, d);
    LimbBound(b, c);
    LimbBound(a, d);
    LimbBound(a, c);
    LimbExpansion(a, b, c, d, TWO32);
    assert lhs == a * TWO32 + b && rhs == c * TWO32 + d;
  }

  lemma AssembleLimbs(ll: u64, lh: u64, hl: u64, hh: u64)
    requires ll <= LIMB_PRODUCT_MAX && lh <= LIMB_PRODUCT_MAX
    requires hl <= LIMB_PRODUCT_MAX && hh <= LIMB_PRODUCT_MAX
    requires hh * TWO64 + (lh + hl) * TWO32 + ll < TWO64 * TWO64
    ensures Assemble(ll, lh, hl, hh).Value() == hh * TWO64 + (lh + hl) * TWO32 + ll
  {
    var middle := ll / TWO32 + lh % TWO32 + hl % TWO32;
    assert Add64(Add64(ll / TWO32, lh % TWO32), hl % TWO32) == middle;
    var m1, m0 := middle / TWO32, middle % TWO32;
    var low := m0 * TWO32 + ll % TWO32;
    LowWord(middle, ll % TWO32);
    HighWord(hh, lh / TWO32, hl / TWO32, m1, low);
  }

  lemma LowWord(middle: u64, low: u64)
    requires low < TWO32
    ensures Add64(Mul64(middle, TWO32), low) == middle % TWO32 * TWO32 + low
  {
    DivModUnique(middle * TWO32, TWO64, middle / TWO32, middle % TWO32 * TWO32);
  }

  lemma HighWord(hh: u64, a: u64, b: u64, c: u64, low: u64)
    requires (hh + a + b + c) * TWO64 + low < TWO64 * TWO64
    ensures Add64(Add64(Add64(hh, a), b), c) == hh + a + b + c
  {
    var high := hh + a + b + c;
    assert high < TWO64;
    assert Add64(hh, a) == hh + a;
    assert Add64(hh + a, b) == hh + a + b;
  }

  predicate BitAt(value: UInt128, index: nat)
    requires index < 128
  {
    if index >= 64 then value.high / Pow2(index - 64) % 2 == 1
    else value.low / Pow2(index) % 2 == 1
  }

  /** Bit `index` of a two-word number is the parity of the number shifted right by `index`. */
  lemma BitAtIsParity(value: UInt128, index: nat)
    requires index < 128
    ensures BitAt(value, index) <==> value.Value() / Pow2(index) % 2 == 1
  {
    Pow2Of64();
    if index >= 64 {
      assert Pow2(index) == Pow2(64) * Pow2(index - 64) by {
        Pow2Sum(64, index - 64);
      }
      ShiftHigh(value.Value(), value.high, value.low, Pow2(64), Pow2(index - 64));
    } else {
      assert Pow2(64) == 2 * (Pow2(63 - index) * Pow2(index)) by {
        Pow2Sum(63 - index, index);
      }
      ShiftLow(value.Value(), value.high, value.low, Pow2(64), Pow2(63 - index), Pow2(index));
    }
  }

  lemma ShiftHigh(n: nat, h: nat, l: nat, w: nat, p: nat)
    requires p > 0 && l < w && n == h * w + l
    ensures w * p > 0 && n / (w * p) == h / p
  {
    DivDiv(n, w, p);
    DivModUnique(n, w, h, l);
  }

  /** Below the word boundary the high word contributes an even number. */
  lemma ShiftLow(n: nat, h: nat, l: nat, w: nat, k: nat, p: nat)
    requires p > 0 && w == 2 * (k * p) && n == h * w + l
    ensures n / p % 2 == l / p % 2
  {
    EvenMultiple(h, k, p);
    AddMultiple(2 * (h * k), l, p);
  }

  lemma EvenMultiple(h: int, k: int, p: int)
    ensures h * (2 * (k * p)) == (2 * (h * k)) * p
  {
  }

  lemma AddMultiple(m: nat, l: nat, p: nat)
    requires p > 0
    ensures (m * p + l) / p == m + l / p
  {
    assert m * p + l == (m + l / p) * p + l % p;
    DivModUnique(m * p + l, p, m + l / p, l % p);
  }

  // ---------------------------------------------------------------------------
  // Restoring division
  // ---------------------------------------------------------------------------

  /**
   Divides a two-word number by one word, one bit at a time from the top. The carry lost by the
   one-word shift is recovered by the `carry` flag. No quotient is returned exactly when the
   denominator is zero or the quotient needs more than one word.
   */
  method DivideWide(numerator: UInt128, denominator: u64)
    returns (quotient: Option<u64>, remainder: u64)
    ensures denominator == 0 ==> quotient == None
    ensures denominator > 0 ==>
              var n := numerator.Value();
              && (quotient == None <==> n / denominator >= TWO64)
              && (quotient.Some? ==> quotient.value == n / denominator && remainder == n % denominator)
  {
    if denominator == 0 {
      return None, 0;
    }
    ghost var n := numerator.Value();
    NothingDividedYet(n, denominator);

    var q: u64 := 0;
    remainder := 0;
    var bit := 127;
    while bit >= 0
      invariant -1 <= bit <= 127
      invariant Divided(n, denominator, bit + 1, q, remainder)
    {
      var incoming := BitAt(numerator, bit);
      var carry := remainder / TWO63 != 0;
      var shifted := Add64(Mul64(remainder, 2), if incoming then 1 else 0);
      var quotientBit := false;
      BitAtIsParity(numerator, bit);
      LostCarry(remainder, if incoming then 1 else 0, denominator);
      DivideStep(n, denominator, bit, q, remainder);
      if carry || shifted >= denominator {
        shifted := Sub64(shifted, denominator);
        quotientBit := true;
      }
      remainder := shifted;

      if quotientBit {
        if bit >= 64 {
          return None, remainder;
        }
        q := q + Pow2(bit);
      }
      bit := bit - 1;
    }
    quotient := Some(q);
  }

  /** `q` and `r` divide the bits of `n` from `bit` upwards; no quotient bit lies above the word. */
  ghost predicate Divided(n: nat, d: nat, bit: nat, q: nat, r: nat)
    requires d > 0
  {
    && q == n / Pow2(bit) / d * Pow2(bit)
    && r == n / Pow2(bit) % d
    && q < TWO64
  }

  lemma NothingDividedYet(n: nat, d: nat)
    requires d > 0 && n < TWO64 * TWO64
    ensures Divided(n, d, 128, 0, 0)
  {
    Pow2Of128();
    DivModUnique(n, Pow2(128), 0, n);
    DivModUnique(0, d, 0, 0);
  }

  /** The bit shifted out of the remainder's word is put back by testing `carry`. */
  lemma LostCarry(r: u64, incoming: u64, d: u64)
    requires incoming < 2 && r < d
    ensures var shifted, doubled := Add64(Mul64(r, 2), incoming), 2 * r + incoming;
            && (r / TWO63 != 0 || shifted >= d <==> doubled >= d)
            && (doubled >= d ==> Sub64(shifted, d) == doubled - d)
            && (doubled < d ==> shifted == doubled)
  {
    var shifted, doubled := Add64(Mul64(r, 2), incoming), 2 * r + incoming;
    if r >= TWO63 {
      assert shifted == doubled - TWO64;
      assert Sub64(shifted, d) == doubled - d;
    } else {
      assert shifted == doubled;
    }
  }

  lemma DivideStep(n: nat, d: nat, bit: nat, q: nat, r: nat)
    requires d > 0 && Divided(n, d, bit + 1, q, r)
    ensures r < d
    ensures var doubled := 2 * r + n / Pow2(bit) % 2;
            && (doubled >= d && bit >= 64 ==> n / d >= TWO64)
            && (doubled >= d && bit < 64 ==> Divided(n, d, bit, q + Pow2(bit), doubled - d))
            && (doubled < d ==> Divided(n, d, bit, q, doubled))
  {
    NextPrefix(n, bit);
    RestoringStep(n / Pow2(bit + 1), d, n / Pow2(bit));
    ScaleQuotient(n / Pow2(bit + 1) / d, Pow2(bit), q);
    if 2 * r + n / Pow2(bit) % 2 >= d {
      if bit >= 64 {
        QuotientTooWide(n, d, bit);
      } else {
        SetBit(n / Pow2(bit + 1) / d, bit, q);
      }
    }
  }

  lemma ScaleQuotient(a: nat, p: nat, q: nat)
    requires q == a * (2 * p)
    ensures q == (2 * a) * p && q + p == (2 * a + 1) * p
  {
  }

  lemma NextPrefix(n: nat, bit: nat)
    ensures n / Pow2(bit) / 2 == n / Pow2(bit + 1)
  {
    DivDiv(n, Pow2(bit), 2);
  }

  /** Bringing down one bit at most doubles the quotient and adds one. */
  lemma RestoringStep(prefix: nat, d: nat, next: nat)
    requires d > 0 && next / 2 == prefix
    ensures var doubled := 2 * (prefix % d) + next % 2;
            && doubled < 2 * d
            && (doubled >= d ==> next / d == 2 * (prefix / d) + 1 && next % d == doubled - d)
            && (doubled < d ==> next / d == 2 * (prefix / d) && next % d == doubled)
  {
    var q, r := prefix / d, prefix % d;
    var doubled := 2 * r + next % 2;
    assert prefix == q * d + r;
    assert next == 2 * prefix + next % 2;
    assert next == (2 * q) * d + doubled by {
      assert 2 * (q * d) == (2 * q) * d;
    }
    if doubled >= d {
      assert (2 * q + 1) * d == (2 * q) * d + d;
      DivModUnique(next, d, 2 * q + 1, doubled - d);
    } else {
      DivModUnique(next, d, 2 * q, doubled);
    }
  }

  lemma QuotientTooWide(n: nat, d: nat, bit: nat)
    requires d > 0 && bit >= 64 && n / Pow2(bit) / d >= 1
    ensures n / d >= TWO64
  {
    Pow2Of64();
    Pow2Sum(64, bit - 64);
    MulMono(1, Pow2(bit - 64), Pow2(64));
    ExchangeDivisors(n, d, Pow2(bit));
  }

  lemma ExchangeDivisors(n: nat, d: nat, p: nat)
    requires d > 0 && p > 0 && n / p / d >= 1
    ensures n / d >= p
  {
    DivDiv(n, p, d);
    DivDiv(n, d, p);
    assert p * d == d * p;
    assert n / d / p >= 1;
  }

  /** A multiple of 2^(bit+1) below 2^64 has room for bit `bit`. */
  lemma SetBit(a: nat, bit: nat, q: nat)
    requires bit < 64 && q == a * Pow2(bit + 1) && q < TWO64
    ensures q + Pow2(bit) == (2 * a + 1) * Pow2(bit) && q + Pow2(bit) < TWO64
  {
    Pow2Of64();
    Pow2Sum(bit + 1, 63 - bit);
    RoomForBit(a, Pow2(bit), Pow2(63 - bit));
  }

  lemma RoomForBit(a: nat, p: nat, k: nat)
    requires a * (2 * p) < (2 * p) * k && p > 0
    ensures a * (2 * p) + p < (2 * p) * k && a * (2 * p) + p == (2 * a + 1) * p
  {
    if a >= k {
      MulMono(k, a, 2 * p);
    }
    MulStep(a, k, 2 * p);
  }
}
