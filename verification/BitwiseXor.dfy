/** Exclusive or of words, digit by digit in base two. */
module BitwiseXor {
  import opened MachineWords

  function Xor(a: nat, b: nat): nat {
    if a == 0 && b == 0 then 0 else Join((a + b) % 2, Xor(a / 2, b / 2))
  }

  /** The word with lowest digit `digit` and the digits of `rest` above it. */
  function Join(digit: nat, rest: nat): nat {
    digit + 2 * rest
  }

  lemma JoinDigits(digit: nat, rest: nat)
    requires digit < 2
    ensures Join(digit, rest) % 2 == digit && Join(digit, rest) / 2 == rest
  {
  }

  lemma XorDigits(a: nat, b: nat)
    ensures Xor(a, b) % 2 == (a + b) % 2 && Xor(a, b) / 2 == Xor(a / 2, b / 2)
  {
    hide Join;
    if a == 0 && b == 0 {
    } else {
      JoinDigits((a + b) % 2, Xor(a / 2, b / 2));
    }
  }

  /** Applying the same mask twice gives back the original word. */
  lemma {:induction false} XorTwice(a: nat, b: nat)
    ensures Xor(Xor(a, b), b) == a
  {
    if a == 0 && b == 0 {
    } else {
      hide Xor;
      XorDigits(a, b);
      XorDigits(Xor(a, b), b);
      XorTwice(a / 2, b / 2);
      SameDigits(Xor(Xor(a, b), b), a, Xor(a, b), b);
    }
  }

  /** Two words with the same half and the same parity are the same word. */
  lemma SameDigits(x: nat, a: nat, y: nat, b: nat)
    requires x / 2 == a / 2 && x % 2 == (y + b) % 2 && y % 2 == (a + b) % 2
    ensures x == a
  {
  }

  lemma {:induction false} XorSymmetric(a: nat, b: nat)
    ensures Xor(a, b) == Xor(b, a)
  {
    hide Join;
    if a != 0 || b != 0 {
      XorSymmetric(a / 2, b / 2);
    }
  }

  /** For a fixed word, different masks give different results. */
  lemma XorInjective(a: nat, b: nat, c: nat)
    requires Xor(a, b) == Xor(a, c)
    ensures b == c
  {
    XorSymmetric(a, b);
    XorSymmetric(a, c);
    XorTwice(b, a);
    XorTwice(c, a);
  }

  lemma {:induction false} XorBound(a: nat, b: nat, n: nat)
    requires a < Pow2(n) && b < Pow2(n)
    ensures Xor(a, b) < Pow2(n)
  {
    if a != 0 || b != 0 {
      XorBound(a / 2, b / 2, n - 1);
    }
  }

  function XorByte(a: byte, b: byte): byte {
    XorByteBound(a, b);
    Xor(a, b)
  }

  lemma XorByteBound(a: byte, b: byte)
    ensures Xor(a, b) < 256
  {
    assert Pow2(8) == 256;
    XorBound(a, b, 8);
  }
}
