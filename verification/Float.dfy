/** Rounding to f64: to the nearest number with a 53-bit significand, ties to even (section 4.3.1 of IEEE 754). */
module Float {

  /** From 2^52 to 2^53 the f64 numbers are the whole numbers. */
  const LOW: real := 4503599627370496.0
  const HIGH: real := 9007199254740992.0

  /** The nearest whole number, the even one of two. */
  function NearestEven(x: real): (n: int)
  {
    var f := x.Floor;
    var d := x - f as real;
    if d < 0.5 || (d == 0.5 && f % 2 == 0) then f else f + 1
  }

  /** Below 2^52: doubled until whole numbers are the f64 numbers, but no finer than 2^-n. */
  function RoundSmall(x: real, n: nat): (r: real)
    decreases n, x
  {
    if n == 0 || x >= LOW then NearestEven(x) as real else RoundSmall(2.0 * x, n - 1) / 2.0
  }

  /** From 2^53 on: halved until whole numbers are the f64 numbers. The finest f64 is 2^-1074. */
  function RoundAbs(x: real): (r: real)
    requires x >= 0.0
    decreases x.Floor
  {
    if x >= HIGH then Halved(x); 2.0 * RoundAbs(x / 2.0) else RoundSmall(x, 1074)
  }

  function Round(x: real): (r: real) { if x < 0.0 then -RoundAbs(-x) else RoundAbs(x) }

  lemma {:induction false} Halved(x: real)
    requires x >= HIGH
    ensures (x / 2.0).Floor < x.Floor
  {
    var y := x / 2.0;
    assert y.Floor as real <= y && x < x.Floor as real + 1.0;
  }

  // ------------------------------------------------------------ whole numbers

  lemma {:induction false} NearestBounds(x: real)
    ensures x - 0.5 <= NearestEven(x) as real <= x + 0.5
  {
  }

  lemma {:induction false} NearestInOrder(x: real, y: real)
    requires x <= y
    ensures NearestEven(x) <= NearestEven(y)
  {
    var f, g := x.Floor, y.Floor;
    if f < g {
      assert NearestEven(x) <= f + 1 <= g <= NearestEven(y);
    } else {
      assert f == g;
    }
  }

  lemma {:induction false} NearestWhole(x: real, n: int)
    requires x == n as real
    ensures NearestEven(x) == n
  {
    assert x.Floor == n;
  }

  // ------------------------------------------------------------ order

  lemma {:induction false} SmallStaysBelow(x: real, n: nat)
    requires x <= HIGH
    ensures RoundSmall(x, n) <= HIGH
    decreases n
  {
    if n == 0 || x >= LOW {
      NearestInOrder(x, HIGH);
      NearestWhole(HIGH, 9007199254740992);
    } else {
      SmallStaysBelow(2.0 * x, n - 1);
    }
  }

  lemma {:induction false} SmallInOrder(x: real, y: real, n: nat)
    requires x <= y
    ensures RoundSmall(x, n) <= RoundSmall(y, n)
    decreases n
  {
    if n == 0 || x >= LOW {
      NearestInOrder(x, y);
    } else if y < LOW {
      SmallInOrder(2.0 * x, 2.0 * y, n - 1);
    } else {
      SmallStaysBelow(2.0 * x, n - 1);
      NearestInOrder(LOW, y);
      NearestWhole(LOW, 4503599627370496);
    }
  }

  lemma {:induction false} HighStaysAbove(x: real)
    requires x >= HIGH
    ensures RoundAbs(x) >= HIGH
    decreases x.Floor
  {
    Halved(x);
    var y := x / 2.0;
    if y >= HIGH {
      HighStaysAbove(y);
    } else {
      NearestInOrder(LOW, y);
      NearestWhole(LOW, 4503599627370496);
    }
  }

  lemma {:induction false} AbsInOrder(x: real, y: real)
    requires 0.0 <= x <= y
    ensures RoundAbs(x) <= RoundAbs(y)
    decreases x.Floor
  {
    if x >= HIGH {
      Halved(x);
      AbsInOrder(x / 2.0, y / 2.0);
    } else if y >= HIGH {
      SmallStaysBelow(x, 1074);
      HighStaysAbove(y);
    } else {
      SmallInOrder(x, y, 1074);
    }
  }

  lemma {:induction false} AbsNotNegative(x: real)
    requires x >= 0.0
    ensures RoundAbs(x) >= 0.0
  {
    AbsInOrder(0.0, x);
    ZeroKept(1074);
  }

  lemma {:induction false} ZeroKept(n: nat)
    ensures RoundSmall(0.0, n) == 0.0
  {
    if n > 0 {
      ZeroKept(n - 1);
      assert 2.0 * 0.0 == 0.0;
    }
  }

  /** Rounding keeps the order. */
  lemma {:induction false} RoundInOrder(x: real, y: real)
    requires x <= y
    ensures Round(x) <= Round(y)
  {
    if x < 0.0 {
      AbsNotNegative(-x);
      if y < 0.0 { AbsInOrder(-y, -x); } else { AbsNotNegative(y); }
    } else {
      AbsInOrder(x, y);
    }
  }

  // ------------------------------------------------------------ numbers that are kept

  /** Halves of whole numbers below 2^52, and whole numbers up to 2^53, are f64 numbers. */
  lemma {:induction false} HalfKept(h: nat)
    requires h as real <= HIGH
    ensures Round(h as real / 2.0) == h as real / 2.0
  {
    SmallHalfKept(h, 1073);
  }

  lemma {:induction false} SmallHalfKept(h: nat, n: nat)
    requires h as real <= HIGH
    ensures RoundSmall(h as real / 2.0, n + 1) == h as real / 2.0
  {
    var x := h as real / 2.0;
    if x >= LOW {
      assert x == LOW;
      NearestWhole(x, 4503599627370496);
    } else {
      assert 2.0 * x == h as real;
      SmallWholeKept(h, n);
    }
  }

  lemma {:induction false} SmallWholeKept(k: nat, n: nat)
    requires k as real <= HIGH
    ensures RoundSmall(k as real, n) == k as real
    decreases n
  {
    if n == 0 || k as real >= LOW {
      NearestWhole(k as real, k);
    } else {
      assert 2.0 * (k as real) == (2 * k) as real;
      SmallWholeKept(2 * k, n - 1);
    }
  }

  lemma {:induction false} WholeKept(k: nat)
    requires k as real < HIGH
    ensures Round(k as real) == k as real
  {
    SmallWholeKept(k, 1074);
  }

  /** From 2^52 to 2^53 rounding is to whole numbers. */
  lemma {:induction false} WholeRange(x: real)
    requires LOW <= x < HIGH
    ensures Round(x) == NearestEven(x) as real
  {
  }

  // ------------------------------------------------------------ error

  /** 2^53 doubled `k` times, and the distance of the f64 numbers just below it. */
  function Top(k: nat): (x: real) { if k == 0 then HIGH else 2.0 * Top(k - 1) }

  function Spacing(k: nat): (x: real)
    ensures x >= 1.0
  {
    if k == 0 then 1.0 else 2.0 * Spacing(k - 1)
  }

  lemma {:induction false} SmallError(x: real, n: nat)
    ensures x - 0.5 <= RoundSmall(x, n) <= x + 0.5
    decreases n
  {
    if n == 0 || x >= LOW { NearestBounds(x); } else { SmallError(2.0 * x, n - 1); }
  }

  /** The error is at most half the distance of the f64 numbers. */
  lemma {:induction false} RoundError(x: real, k: nat)
    requires 0.0 <= x < Top(k)
    ensures x - Spacing(k) / 2.0 <= Round(x) <= x + Spacing(k) / 2.0
    decreases k
  {
    if x >= HIGH {
      RoundError(x / 2.0, k - 1);
    } else {
      SmallError(x, 1074);
    }
  }

  function Halves(x: real, k: nat): (y: real) { if k == 0 then x else Halves(x, k - 1) / 2.0 }

  /** Numbers below 2^53 divided by a power of two are rounded on a grid that is finer by that power. */
  lemma {:induction false} SmallFine(x: real, n: nat, k: nat)
    requires k <= n && x <= Halves(HIGH, k)
    ensures x - Halves(0.5, k) <= RoundSmall(x, n) <= x + Halves(0.5, k)
    decreases n
  {
    if k == 0 {
      SmallError(x, n);
    } else if x >= LOW {
      HalvesShrink(k - 1);
      NearestWhole(x, 4503599627370496);
    } else {
      SmallFine(2.0 * x, n - 1, k - 1);
    }
  }

  lemma {:induction false} HalvesShrink(k: nat)
    ensures Halves(HIGH, k) <= HIGH && Halves(0.5, k) >= 0.0
  {
    if k > 0 { HalvesShrink(k - 1); }
  }

  lemma {:induction false} HalvesAgain(x: real, k: nat)
    ensures Halves(x, k) * Spacing(k) == x
  {
    if k > 0 {
      HalvesAgain(x, k - 1);
      Doubled(Halves(x, k), Spacing(k - 1));
    }
  }

  lemma {:induction false} Doubled(x: real, g: real)
    ensures (2.0 * x) * g == x * (2.0 * g)
  {
  }

  /** From 2^52 / 2^n on the error is at most half a unit in the last place. */
  lemma {:induction false} SmallRelative(x: real, n: nat)
    requires x * Spacing(n) >= LOW
    ensures x - x / HIGH <= RoundSmall(x, n) <= x + x / HIGH
    decreases n
  {
    if n == 0 || x >= LOW {
      NearestBounds(x);
    } else {
      Doubled(x, Spacing(n - 1));
      SmallRelative(2.0 * x, n - 1);
    }
  }

  lemma {:induction false} SpacingsMultiply(j: nat, k: nat)
    ensures Spacing(j + k) == Spacing(j) * Spacing(k)
  {
    if k > 0 { SpacingsMultiply(j, k - 1); }
  }

  lemma {:induction false} SpacingFiftyThree(n: nat)
    requires n == 53
    ensures Spacing(n) == HIGH
  {
    var ten, twenty, forty := SpacingTen();
    assert Spacing(3) == 8.0;
    SpacingsMultiply(ten, 3);
    SpacingsMultiply(forty, ten + 3);
  }

  lemma {:induction false} SpacingTen() returns (ten: nat, twenty: nat, forty: nat)
    ensures ten == 10 && twenty == 20 && forty == 40
    ensures Spacing(ten) == 1024.0 && Spacing(twenty) == 1048576.0 && Spacing(forty) == 1099511627776.0
  {
    ten, twenty, forty := 10, 20, 40;
    assert Spacing(10) == 1024.0;
    SpacingsMultiply(ten, ten);
    SpacingsMultiply(twenty, twenty);
  }

  /** The larger of `x` and 1. */
  function AtLeastOne(x: real): (y: real) { if x < 1.0 then 1.0 else x }

  /** Main theorem. One rounding moves a number by at most one part in 2^53 of it, or of 1 if it is smaller. */
  lemma {:induction false} RoundRelative(x: real)
    requires x >= 0.0
    ensures x - AtLeastOne(x) / HIGH <= Round(x) <= x + AtLeastOne(x) / HIGH
    decreases x.Floor
  {
    if x >= HIGH {
      Halved(x);
      RoundRelative(x / 2.0);
    } else {
      SpacingFiftyThree(53);
      SmallRounded(x, 53, 1074);
    }
  }

  lemma {:induction false} SmallRounded(x: real, k: nat, n: nat)
    requires 0.0 <= x && k <= n && Spacing(k) == HIGH
    ensures x - AtLeastOne(x) / HIGH <= RoundSmall(x, n) <= x + AtLeastOne(x) / HIGH
  {
    if x < 1.0 {
      HalvesAgain(HIGH, k);
      HalvesAgain(0.5, k);
      SmallFine(x, n, k);
    } else {
      SpacingsMultiply(k, n - k);
      AtLeastLow(x, Spacing(n - k));
      SmallRelative(x, n);
    }
  }

  lemma {:induction false} AtLeastLow(x: real, more: real)
    requires x >= 1.0 && more >= 1.0
    ensures x * (HIGH * more) >= LOW
  {
    assert x * more >= 1.0;
    assert x * (HIGH * more) == HIGH * (x * more);
  }

  // ------------------------------------------------------------ nearest

  function Distance(x: real, y: real): (d: real) { if x < y then y - x else x - y }

  lemma {:induction false} NearestEvenIsNearest(x: real, k: int)
    ensures Distance(NearestEven(x) as real, x) <= Distance(k as real, x)
  {
    var f := x.Floor;
    assert k <= f || k >= f + 1;
  }

  lemma {:induction false} SmallIsNearest(x: real, z: real, n: nat)
    requires x <= HIGH && z <= HIGH && RoundSmall(z, n) == z
    ensures Distance(RoundSmall(x, n), x) <= Distance(z, x)
    decreases n
  {
    if n == 0 || (x >= LOW && z >= LOW) {
      NearestEvenIsNearest(x, NearestEven(z));
    } else if x >= LOW {
      NearestEvenIsNearest(x, 4503599627370496);
    } else {
      var w := if z < LOW then z else LOW;
      SmallWholeKept(9007199254740992, n - 1);
      SmallIsNearest(2.0 * x, 2.0 * w, n - 1);
    }
  }

  /** No f64 number is nearer than the rounded one: f64 numbers are those that rounding leaves alone. */
  lemma {:induction false} RoundIsNearest(x: real, z: real)
    requires x >= 0.0 && z >= 0.0 && Round(z) == z
    ensures Distance(Round(x), x) <= Distance(z, x)
    decreases x.Floor, z < HIGH
  {
    if x < HIGH {
      SmallWholeKept(9007199254740992, 1074);
      SmallIsNearest(x, if z < HIGH then z else HIGH, 1074);
    } else {
      Halved(x);
      if z < HIGH {
        PowersKept();
        RoundIsNearest(x, HIGH);
      } else {
        RoundIsNearest(x / 2.0, z / 2.0);
      }
    }
  }

  lemma {:induction false} PowersKept()
    ensures Round(LOW) == LOW && Round(HIGH) == HIGH
  {
    NearestWhole(LOW, 4503599627370496);
    assert HIGH / 2.0 == LOW;
  }

  /** Rounding twice is rounding once. */
  lemma {:induction false} RoundTwice(x: real)
    requires x >= 0.0
    ensures Round(Round(x)) == Round(x)
    decreases x.Floor
  {
    AbsNotNegative(x);
    if x >= HIGH {
      Halved(x);
      RoundTwice(x / 2.0);
      HighStaysAbove(x);
    } else {
      SmallStaysBelow(x, 1074);
      SmallTwice(x, 1074);
      if RoundSmall(x, 1074) == HIGH { PowersKept(); }
    }
  }

  lemma {:induction false} SmallTwice(x: real, n: nat)
    requires x <= HIGH
    ensures RoundSmall(RoundSmall(x, n), n) == RoundSmall(x, n)
    decreases n
  {
    var r := RoundSmall(x, n);
    if n == 0 || x >= LOW {
      NearestWhole(r, NearestEven(x));
      if x >= LOW { NearestInOrder(LOW, x); NearestWhole(LOW, 4503599627370496); }
    } else {
      SmallTwice(2.0 * x, n - 1);
      SmallStaysBelow(2.0 * x, n - 1);
      if r >= LOW { NearestWhole(LOW, 4503599627370496); }
    }
  }
}
