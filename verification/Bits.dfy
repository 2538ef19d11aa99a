/** Machine-word arithmetic on naturals: the `&`, `|`, `^`, `<<` and `trailing_zeros`
  * of Rust's unsigned integers, defined digit by digit in base two.
  */
module Bits {

  function Pow2(n: nat): (p: nat)
    ensures p >= 1
  {
    if n == 0 then 1 else 2 * Pow2(n - 1)
  }

  /** Binary digit `i` of `w`. */
  predicate Bit(w: nat, i: nat)
  {
    if i == 0 then w % 2 == 1 else Bit(w / 2, i - 1)
  }

  function Digit(b: bool): (d: nat) { if b then 1 else 0 }

  function And(a: nat, b: nat): (r: nat)
  {
    if a == 0 || b == 0 then 0
    else 2 * And(a / 2, b / 2) + Digit(a % 2 == 1 && b % 2 == 1)
  }

  function Or(a: nat, b: nat): (r: nat)
    decreases a + b
  {
    if a == 0 && b == 0 then 0
    else 2 * Or(a / 2, b / 2) + Digit(a % 2 == 1 || b % 2 == 1)
  }

  function Xor(a: nat, b: nat): (r: nat)
    decreases a + b
  {
    if a == 0 && b == 0 then 0
    else 2 * Xor(a / 2, b / 2) + Digit(a % 2 != b % 2)
  }

  /** `x << k` without losing digits. */
  function ShiftLeft(x: nat, k: nat): (r: nat) { if k == 0 then x else 2 * ShiftLeft(x, k - 1) }

  /** `w << k` on a word of `width` bits: digits pushed past the top are lost. */
  function Shl(w: nat, k: nat, width: nat): (r: nat)
  {
    if k == 0 then w else (2 * Shl(w, k - 1, width)) % Pow2(width)
  }

  /** `w.trailing_zeros()` for a word that is not zero. */
  function TrailingZeros(w: nat): (n: nat)
    requires w > 0
  {
    if w % 2 == 1 then 0 else 1 + TrailingZeros(w / 2)
  }

  lemma {:induction false} ZeroBit(i: nat)
    ensures !Bit(0, i)
  {
    if i > 0 { ZeroBit(i - 1); }
  }

  lemma {:induction false} AndBit(a: nat, b: nat, i: nat)
    ensures Bit(And(a, b), i) == (Bit(a, i) && Bit(b, i))
  {
    if a == 0 || b == 0 {
      ZeroBit(i);
    } else if i > 0 {
      AndBit(a / 2, b / 2, i - 1);
    }
  }

  lemma {:induction false} OrBit(a: nat, b: nat, i: nat)
    ensures Bit(Or(a, b), i) == (Bit(a, i) || Bit(b, i))
  {
    if i > 0 { OrBit(a / 2, b / 2, i - 1); }
  }

  lemma {:induction false} XorBit(a: nat, b: nat, i: nat)
    ensures Bit(Xor(a, b), i) == (Bit(a, i) != Bit(b, i))
  {
    if i > 0 { XorBit(a / 2, b / 2, i - 1); }
  }

  lemma {:induction false} OrZero(a: nat)
    ensures Or(0, a) == a
  {
    if a > 0 { OrZero(a / 2); }
  }

  lemma {:induction false} XorZero(a: nat)
    ensures Xor(a, 0) == a
  {
    if a > 0 { XorZero(a / 2); }
  }

  lemma {:induction false} Pow2Bit(j: nat, i: nat)
    ensures Bit(Pow2(j), i) == (i == j)
  {
    if j == 0 {
      if i > 0 { ZeroBit(i - 1); }
    } else if i > 0 {
      Pow2Bit(j - 1, i - 1);
    }
  }

  lemma {:induction false} OnesBit(n: nat, i: nat)
    ensures Bit(Pow2(n) - 1, i) == (i < n)
  {
    if n == 0 {
      ZeroBit(i);
    } else if i > 0 {
      assert (Pow2(n) - 1) / 2 == Pow2(n - 1) - 1;
      OnesBit(n - 1, i - 1);
    }
  }

  /** Reducing modulo 2^n keeps the low n digits. */
  lemma {:induction false} ModBit(w: nat, n: nat, i: nat)
    requires i < n
    ensures Bit(w % Pow2(n), i) == Bit(w, i)
  {
    var x, p := w % Pow2(n), Pow2(n - 1);
    DivModDouble(w, p);
    assert x / 2 == (w / 2) % p && x % 2 == w % 2;
    if i > 0 { ModBit(w / 2, n - 1, i - 1); }
  }

  lemma {:induction false} DivModDouble(w: nat, p: nat)
    requires p >= 1
    ensures w % (2 * p) == 2 * ((w / 2) % p) + w % 2
  {
    var q, r := (w / 2) / p, (w / 2) % p;
    assert w / 2 == p * q + r;
    assert w == (2 * p) * q + (2 * r + w % 2);
    DivModUnique(w, 2 * p, q, 2 * r + w % 2);
  }

  lemma {:induction false} DivModUnique(w: nat, d: nat, q: nat, r: nat)
    requires r < d && w == d * q + r
    ensures w / d == q && w % d == r
  {
    var q' := w / d;
    if q < q' {
      MulAtLeast(d, q, q');
    } else if q' < q {
      MulAtLeast(d, q', q);
    }
  }

  lemma {:induction false} MulAtLeast(d: nat, a: nat, b: nat)
    requires a < b
    ensures d * b >= d * a + d
  {
    if a + 1 == b {
      assert d * b == d * a + d;
    } else {
      MulAtLeast(d, a, b - 1);
      assert d * b == d * (b - 1) + d;
    }
  }

  /** The mask `!0 << k`: exactly the digits from k up to the top one. */
  lemma {:induction false} ShlOnesBit(k: nat, width: nat, i: nat)
    requires i < width
    ensures Bit(Shl(Pow2(width) - 1, k, width), i) == (i >= k)
  {
    if k == 0 {
      OnesBit(width, i);
    } else {
      var prev := Shl(Pow2(width) - 1, k - 1, width);
      ModBit(2 * prev, width, i);
      if i > 0 {
        assert Bit(2 * prev, i) == Bit(prev, i - 1);
        ShlOnesBit(k - 1, width, i - 1);
      }
    }
  }

  /** Disjoint flips merge into one flip of their union. */
  lemma {:induction false} XorXorIsXorOr(w: nat, a: nat, b: nat)
    requires And(a, b) == 0
    ensures Xor(Xor(w, a), b) == Xor(w, Or(a, b))
  {
    XorIsOr(a, b);
    XorAssociative(w, a, b);
  }

  lemma {:induction false} XorDigit(a: nat, b: nat)
    ensures Xor(a, b) / 2 == Xor(a / 2, b / 2)
    ensures Xor(a, b) % 2 == Digit(a % 2 != b % 2)
  {
  }

  lemma {:induction false} XorAssociative(w: nat, a: nat, b: nat)
    ensures Xor(Xor(w, a), b) == Xor(w, Xor(a, b))
    decreases w + a + b
  {
    if w + a + b > 0 {
      XorAssociative(w / 2, a / 2, b / 2);
      XorDigit(w, a);
      XorDigit(a, b);
    }
  }

  lemma {:induction false} XorIsOr(a: nat, b: nat)
    requires And(a, b) == 0
    ensures Xor(a, b) == Or(a, b)
    decreases a + b
  {
    if a + b > 0 {
      assert And(a / 2, b / 2) == 0;
      XorIsOr(a / 2, b / 2);
    }
  }

  lemma {:induction false} AndBound(a: nat, b: nat)
    ensures And(a, b) <= a && And(a, b) <= b
  {
    if a != 0 && b != 0 { AndBound(a / 2, b / 2); }
  }

  lemma {:induction false} XorBound(a: nat, b: nat, n: nat)
    requires a < Pow2(n) && b < Pow2(n)
    ensures Xor(a, b) < Pow2(n)
  {
    if n > 0 { XorBound(a / 2, b / 2, n - 1); }
  }

  lemma {:induction false} Pow2Monotone(a: nat, b: nat)
    requires a < b
    ensures Pow2(a) < Pow2(b)
  {
    if a + 1 < b { Pow2Monotone(a, b - 1); }
  }

  /** A digit that is set bounds the number from below, so words below 2^n have no digit past n. */
  lemma {:induction false} SetBitBound(w: nat, i: nat, n: nat)
    requires Bit(w, i) && w < Pow2(n)
    ensures i < n
  {
    if n == 0 {
      ZeroBit(i);
    } else if i > 0 {
      SetBitBound(w / 2, i - 1, n - 1);
    }
  }

  /** `trailing_zeros` is the position of the lowest set digit. */
  lemma {:induction false} TrailingZerosIsLowestSetBit(w: nat)
    requires w > 0
    ensures Bit(w, TrailingZeros(w))
    ensures forall i: nat :: i < TrailingZeros(w) ==> !Bit(w, i)
  {
    if w % 2 == 0 {
      TrailingZerosIsLowestSetBit(w / 2);
      forall i: nat | i < TrailingZeros(w)
        ensures !Bit(w, i)
      {
        if i > 0 { assert !Bit(w / 2, i - 1); }
      }
    }
  }

  /** `sequence & (capacity - 1)` is `sequence % capacity` for a power-of-two capacity. */
  lemma {:induction false} MaskIsMod(s: nat, k: nat)
    ensures And(s, Pow2(k) - 1) == s % Pow2(k)
  {
    if k == 0 {
    } else if s != 0 {
      var p := Pow2(k - 1);
      assert (Pow2(k) - 1) / 2 == p - 1;
      MaskIsMod(s / 2, k - 1);
      DivModDouble(s, p);
    }
  }

  /** `n != 0 && n & (n - 1) == 0`. */
  predicate IsPowerOfTwo(n: nat)
  {
    n != 0 && And(n, n - 1) == 0
  }

  lemma {:induction false} PowerOfTwoTest(n: nat)
    ensures IsPowerOfTwo(n) <==> exists k: nat :: n == Pow2(k)
  {
    if IsPowerOfTwo(n) {
      var k := Exponent(n);
    } else if k: nat :| n == Pow2(k) {
      Pow2PassesTest(k);
      assert false;
    }
  }

  lemma {:induction false} Pow2PassesTest(k: nat)
    ensures IsPowerOfTwo(Pow2(k))
  {
    var n := Pow2(k);
    MaskIsMod(n, k);
    assert n % n == 0 by { DivModUnique(n, n, 1, 0); }
  }

  /** The exponent of a number that passes the power-of-two test. */
  lemma {:induction false} Exponent(n: nat) returns (k: nat)
    requires IsPowerOfTwo(n)
    ensures n == Pow2(k)
  {
    if n == 1 {
      k := 0;
    } else if n % 2 == 1 {
      assert And(n, n - 1) == 2 * And(n / 2, n / 2);
      AndSelf(n / 2);
      assert false;
    } else {
      var h := n / 2;
      assert (n - 1) / 2 == h - 1;
      if h > 1 {
        assert And(n, n - 1) == 2 * And(h, h - 1);
      }
      var j := Exponent(h);
      k := j + 1;
    }
  }

  lemma {:induction false} AndSelf(a: nat)
    ensures And(a, a) == a
  {
    if a != 0 { AndSelf(a / 2); }
  }

  lemma {:induction false} MulAssoc(a: nat, b: nat, c: nat)
    ensures a * (b * c) == (a * b) * c
  {
  }

  lemma {:induction false} Pow2Sum(a: nat, b: nat)
    ensures Pow2(a + b) == Pow2(a) * Pow2(b)
  {
    if b > 0 {
      Pow2Sum(a, b - 1);
      MulAssoc(Pow2(a), 2, Pow2(b - 1));
    }
  }

  lemma {:induction false} Pow16(n: nat)
    requires n == 16
    ensures Pow2(n) == 0x1_0000
  {
    Pow2Sum(n - 15, n - 15);
    Pow2Sum(n - 14, n - 14);
    Pow2Sum(n - 12, n - 12);
    Pow2Sum(n - 8, n - 8);
  }

  lemma {:induction false} Pow64(n: nat)
    requires n == 64
    ensures Pow2(n) == 0x1_0000_0000_0000_0000
  {
    Pow16(n - 48);
    Pow2Sum(n - 48, n - 48);
    Pow2Sum(n - 32, n - 32);
  }
}
