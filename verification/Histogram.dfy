/** The latency histogram (timing/src/histogram.rs): 64 logarithmic buckets against exact order statistics. */
module Histogram {
  import opened Bits
  import opened Common
  import opened Float

  const NUM_BUCKETS: nat := 64

  type Value = v: nat | v < U64

  // ------------------------------------------------------------ buckets

  function BitLength(v: nat): (n: nat) { if v == 0 then 0 else 1 + BitLength(v / 2) }

  /** `leading_zeros` of a 64-bit word. */
  function LeadingZeros(v: Value): (n: int) { 64 - BitLength(v) }

  /** `value_to_bucket`. */
  function Bucket(v: Value): (b: nat)
    ensures b < NUM_BUCKETS
  {
    if v == 0 then 0
    else
      BitLengthBounds(v);
      var bucket := 63 - LeadingZeros(v);
      if bucket < NUM_BUCKETS - 1 then bucket else NUM_BUCKETS - 1
  }

  /** `bucket_to_value`. */
  function BucketValue(b: nat): (v: nat) { if b == 0 then 0 else Pow2(b) }

  lemma {:induction false} BitLengthBounds(v: nat)
    requires v > 0
    ensures BitLength(v) > 0 && Pow2(BitLength(v) - 1) <= v < Pow2(BitLength(v))
  {
    if v > 1 { BitLengthBounds(v / 2); }
  }

  /** The bucket is the binary logarithm, rounded down; no value reaches past the last bucket. */
  lemma {:induction false} BucketIsLog2(v: Value)
    requires v > 0
    ensures Pow2(Bucket(v)) <= v < 2 * Pow2(Bucket(v))
  {
    BitLengthBounds(v);
    var n := 64;
    Pow64(n);
    if BitLength(v) > n {
      assert n == BitLength(v) - 1 || n < BitLength(v) - 1;
      if n < BitLength(v) - 1 { Pow2Monotone(n, BitLength(v) - 1); }
    }
    assert Pow2(BitLength(v)) == 2 * Pow2(BitLength(v) - 1);
  }

  lemma {:induction false} BucketMonotone(v: Value, w: Value)
    requires 0 < v <= w
    ensures Bucket(v) <= Bucket(w)
  {
    BucketIsLog2(v);
    BucketIsLog2(w);
    assert Pow2(Bucket(w) + 1) == 2 * Pow2(Bucket(w));
    if Bucket(w) + 1 < Bucket(v) { Pow2Monotone(Bucket(w) + 1, Bucket(v)); }
  }

  // ------------------------------------------------------------ counting samples

  predicate Samples(s: seq<Value>) { forall i :: 0 <= i < |s| ==> s[i] > 0 }

  /** Samples in bucket `b`. */
  ghost function CountIn(s: seq<Value>, b: nat): (n: nat)
    ensures n <= |s|
  {
    if s == [] then 0 else CountIn(s[..|s| - 1], b) + (if Bucket(s[|s| - 1]) == b then 1 else 0)
  }

  /** Samples in the buckets below `b`. */
  ghost function CountBelow(s: seq<Value>, b: nat): (n: nat)
    ensures n <= |s|
  {
    if s == [] then 0 else CountBelow(s[..|s| - 1], b) + (if Bucket(s[|s| - 1]) < b then 1 else 0)
  }

  lemma {:induction false} BelowNext(s: seq<Value>, b: nat)
    ensures CountBelow(s, b + 1) == CountBelow(s, b) + CountIn(s, b)
  {
    if s != [] { BelowNext(s[..|s| - 1], b); }
  }

  lemma {:induction false} BelowZero(s: seq<Value>)
    ensures CountBelow(s, 0) == 0
  {
    if s != [] { BelowZero(s[..|s| - 1]); }
  }

  lemma {:induction false} BelowAll(s: seq<Value>)
    ensures CountBelow(s, NUM_BUCKETS) == |s|
  {
    if s != [] { BelowAll(s[..|s| - 1]); }
  }

  lemma {:induction false} BelowRemoved(s: seq<Value>, i: nat, b: nat)
    requires i < |s|
    ensures CountBelow(s, b) == CountBelow(s[..i] + s[i + 1..], b) + (if Bucket(s[i]) < b then 1 else 0)
  {
    var rest := s[..i] + s[i + 1..];
    if i < |s| - 1 {
      BelowRemoved(s[..|s| - 1], i, b);
      assert rest[..|rest| - 1] == s[..|s| - 1][..i] + s[..|s| - 1][i + 1..];
      assert rest[|rest| - 1] == s[|s| - 1];
    } else {
      assert rest == s[..i];
    }
  }

  lemma {:induction false} Removed(s: seq<Value>, i: nat)
    requires i < |s|
    ensures multiset(s[..i] + s[i + 1..]) == multiset(s) - multiset{s[i]}
  {
    assert s == s[..i] + [s[i]] + s[i + 1..];
  }

  /** The count does not depend on the order. */
  lemma {:induction false} BelowPermuted(s: seq<Value>, t: seq<Value>, b: nat)
    requires multiset(s) == multiset(t)
    ensures CountBelow(s, b) == CountBelow(t, b) && |s| == |t|
  {
    assert |multiset(s)| == |s| && |multiset(t)| == |t|;
    if s != [] {
      var last := |s| - 1;
      assert s[last] in multiset(s);
      var i :| 0 <= i < |t| && t[i] == s[last];
      SameWithout(s, t, i);
      BelowPermuted(s[..last], t[..i] + t[i + 1..], b);
      BelowRemoved(t, i, b);
    }
  }

  lemma {:induction false} SameWithout(s: seq<Value>, t: seq<Value>, i: nat)
    requires s != [] && i < |t| && t[i] == s[|s| - 1] && multiset(s) == multiset(t)
    ensures multiset(s[..|s| - 1]) == multiset(t[..i] + t[i + 1..])
  {
    Removed(t, i);
    Removed(s, |s| - 1);
    assert s[..|s| - 1] + s[|s|..] == s[..|s| - 1];
  }

  predicate Sorted(s: seq<Value>) { forall i, j :: 0 <= i < j < |s| ==> s[i] <= s[j] }

  /** In sorted order the samples of the lower buckets come first. */
  lemma {:induction false} SortedPrefix(s: seq<Value>, b: nat, k: nat)
    requires Samples(s) && Sorted(s) && k < |s|
    ensures Bucket(s[k]) < b <==> k < CountBelow(s, b)
  {
    var last := |s| - 1;
    BucketMonotone(s[k], s[last]);
    if k < last {
      SortedPrefix(s[..last], b, k);
      if Bucket(s[last]) < b { AllBelow(s[..last], b, s[last]); }
    } else if Bucket(s[last]) < b {
      AllBelow(s[..last], b, s[last]);
    }
  }

  lemma {:induction false} AllBelow(s: seq<Value>, b: nat, bound: Value)
    requires Samples(s) && (forall i :: 0 <= i < |s| ==> s[i] <= bound) && bound > 0 && Bucket(bound) < b
    ensures CountBelow(s, b) == |s|
  {
    if s != [] {
      BucketMonotone(s[|s| - 1], bound);
      AllBelow(s[..|s| - 1], b, bound);
    }
  }

  // ------------------------------------------------------------ reported values

  /** First bucket from `b` on at whose end at least `target` samples have been counted. */
  ghost function FirstReached(s: seq<Value>, target: nat, b: nat): (r: nat)
    requires b <= NUM_BUCKETS
    ensures b <= r <= NUM_BUCKETS
    decreases NUM_BUCKETS - b
  {
    if b == NUM_BUCKETS || CountBelow(s, b + 1) >= target then b else FirstReached(s, target, b + 1)
  }

  /** What `percentiles` reports for a target rank: 0 when no bucket reaches it. */
  ghost function Reported(s: seq<Value>, target: nat): (v: nat)
  {
    var b := FirstReached(s, target, 0);
    if b < NUM_BUCKETS then BucketValue(b) else 0
  }

  lemma {:induction false} FirstReachedIs(s: seq<Value>, target: nat, b: nat, r: nat)
    requires b <= r < NUM_BUCKETS && CountBelow(s, r + 1) >= target
    requires forall i :: b < i <= r ==> CountBelow(s, i) < target
    ensures FirstReached(s, target, b) == r
    decreases r - b
  {
    if b < r {
      assert CountBelow(s, b + 1) < target;
      FirstReachedIs(s, target, b + 1, r);
    }
  }

  /** Main theorem. For every rank from 1 to the number of samples, the reported value is the lower bound of the
    * bucket of the sample with that rank: at most that sample, and more than half of it unless the sample is 1,
    * for which 0 is reported.
    */
  lemma {:induction false} RankAccuracy(samples: seq<Value>, sorted: seq<Value>, rank: nat)
    requires Samples(samples) && multiset(sorted) == multiset(samples) && Sorted(sorted) && 1 <= rank <= |samples|
    ensures |sorted| == |samples|
    ensures var exact := sorted[rank - 1]; var reported := Reported(samples, rank);
            && reported == BucketValue(Bucket(exact)) && reported <= exact
            && (exact == 1 ==> reported == 0) && (exact > 1 ==> 2 * reported > exact)
  {
    BelowPermuted(sorted, samples, 0);
    SameSamples(samples, sorted);
    var exact := sorted[rank - 1];
    var r := Bucket(exact);
    forall i | 0 < i <= r ensures CountBelow(samples, i) < rank {
      BelowPermuted(sorted, samples, i);
      SortedPrefix(sorted, i, rank - 1);
    }
    BelowPermuted(sorted, samples, r + 1);
    SortedPrefix(sorted, r + 1, rank - 1);
    FirstReachedIs(samples, rank, 0, r);
    BucketIsLog2(exact);
  }

  lemma {:induction false} SameSamples(s: seq<Value>, t: seq<Value>)
    requires Samples(s) && multiset(t) == multiset(s)
    ensures Samples(t)
  {
    forall i | 0 <= i < |t| ensures t[i] > 0 {
      assert t[i] in multiset(t);
    }
  }

  /** Past the last sample nothing is reported. */
  lemma {:induction false} BeyondLastRank(samples: seq<Value>, target: nat)
    requires target > |samples|
    ensures Reported(samples, target) == 0
  {
    NeverReached(samples, target, 0);
  }

  lemma {:induction false} NeverReached(samples: seq<Value>, target: nat, b: nat)
    requires target > |samples| && b <= NUM_BUCKETS
    ensures FirstReached(samples, target, b) == NUM_BUCKETS
    decreases NUM_BUCKETS - b
  {
    if b < NUM_BUCKETS { NeverReached(samples, target, b + 1); }
  }

  // ------------------------------------------------------------ ranks in f64 arithmetic

  /** The cast to u64 truncates and saturates; ranks start at 1. */
  function Rank(x: real): (rank: nat)
    ensures rank >= 1 && (rank == 1 || rank <= x.Floor)
  {
    var cast := if x <= 0.0 then 0 else if x.Floor < U64 then x.Floor else U64 - 1;
    if cast > 1 then cast else 1
  }

  /** The rank asked for by percentile `p`: every f64 operation rounds its exact result. */
  function Target(count: nat, p: real): (target: nat)
    ensures target >= 1
  {
    Rank(Hundredth(Round(Scaled(Round(count as real), p))))
  }

  function Scaled(count: real, p: real): (x: real) { count * p }

  function Hundredth(x: real): (y: real) { Round(x / 100.0) }

  /** Counts for which rounding carries the 100th percentile past the last sample: from 2^59 on the f64 numbers are
    * 128 apart, and there the hundredfold count is rounded up by more than 50.
    */
  predicate Overshoots(count: nat)
  {
    var x := 100 * count;
    && x >= 0x800_0000_0000_0000
    && (64 < x % 128 < 78 || (x % 128 == 64 && x / 128 % 2 == 1))
  }

  /** Main theorem. Below 2^53 samples every percentile up to 100 has the rank of a sample if and only if the count
    * does not overshoot.
    */
  lemma {:induction false} RankInRangeExactly(count: nat)
    requires 0 < count && count as real < HIGH
    ensures (forall p: real :: p <= 100.0 ==> Target(count, p) <= count) <==> !Overshoots(count)
  {
    TopRank(count);
    forall p: real | p <= 100.0 ensures Target(count, p) <= Target(count, 100.0) {
      RanksInOrder(count, p, 100.0);
    }
  }

  /** All counts up to 5764607523034241 are in order, and the next one is not. */
  lemma {:induction false} FirstOvershoot(count: nat)
    ensures Overshoots(5764607523034242) && (count < 5764607523034242 ==> !Overshoots(count))
  {
  }

  /** A higher percentile never asks for a lower rank, for any count. */
  lemma {:induction false} RanksInOrder(count: nat, p: real, q: real)
    requires p <= q
    ensures Target(count, p) <= Target(count, q)
  {
    var c := Round(count as real);
    AbsNotNegative(count as real);
    ScaledInOrder(c, p, q);
    RoundInOrder(Scaled(c, p), Scaled(c, q));
    HundredthInOrder(Round(Scaled(c, p)), Round(Scaled(c, q)));
    RankInOrder(Hundredth(Round(Scaled(c, p))), Hundredth(Round(Scaled(c, q))));
  }

  lemma {:induction false} ScaledInOrder(c: real, p: real, q: real)
    requires c >= 0.0 && p <= q
    ensures Scaled(c, p) <= Scaled(c, q)
  {
  }

  lemma {:induction false} HundredthInOrder(x: real, y: real)
    requires x <= y
    ensures Hundredth(x) <= Hundredth(y)
  {
    RoundInOrder(x / 100.0, y / 100.0);
  }

  lemma {:induction false} RankInOrder(x: real, y: real)
    requires x <= y
    ensures Rank(x) <= Rank(y)
  {
    assert x.Floor <= y.Floor;
  }

  /** The 100th percentile asks for the last sample or, if the count overshoots, for the one after it. */
  lemma {:induction false} TopRank(count: nat)
    requires 0 < count && count as real < HIGH
    ensures Overshoots(count) ==> Target(count, 100.0) == count + 1
    ensures !Overshoots(count) ==> Target(count, 100.0) <= count
  {
    var x := 100 * count;
    WholeKept(count);
    HundredFold(count, x);
    if x < 0x800_0000_0000_0000 {
      SmallHundredFold(x);
      StaysBelow(Round(x as real) / 100.0, count);
    } else {
      LargeHundredFold(count, x);
    }
  }

  lemma {:induction false} HundredFold(count: nat, x: nat)
    requires x == 100 * count && Round(count as real) == count as real
    ensures Target(count, 100.0) == Rank(Hundredth(Round(x as real)))
  {
    assert Scaled(count as real, 100.0) == x as real;
  }

  lemma {:induction false} SmallHundredFold(x: nat)
    requires x < 0x800_0000_0000_0000
    ensures Round(x as real) <= x as real + 32.0
  {
    SixDoublings();
    RoundError(x as real, 6);
  }

  lemma {:induction false} SixDoublings()
    ensures Top(6) == 576460752303423488.0 && Spacing(6) == 64.0
  {
  }

  lemma {:induction false} StaysBelow(x: real, count: nat)
    requires x < count as real + 0.5 && count as real < HIGH
    ensures Round(x).Floor <= count
  {
    var h := 2 * count + 1;
    if h as real <= HIGH {
      HalfKept(h);
      RoundInOrder(x, h as real / 2.0);
      FloorAtMost(Round(x), count);
    } else if x >= LOW {
      WholeRange(x);
      NearestBounds(x);
    } else {
      WholeKept(4503599627370496);
      RoundInOrder(x, LOW);
    }
  }

  lemma {:induction false} FloorAtMost(x: real, n: nat)
    requires x <= n as real + 0.5
    ensures x.Floor <= n
  {
    assert x.Floor as real <= x;
  }

  lemma {:induction false} LargeHundredFold(count: nat, x: nat)
    requires x == 100 * count && x >= 0x800_0000_0000_0000 && count as real < HIGH
    ensures var rank := Rank(Hundredth(Round(x as real)));
            (Overshoots(count) ==> rank == count + 1) && (!Overshoots(count) ==> rank <= count)
  {
    var q := Nearest128(x);
    SevenHalvings(x as real);
    NearestBy128(x);
    assert Round(x as real) == (128 * q) as real;
    DividedBack(count, 128 * q - x);
  }

  /** `x` in units of 128, to the nearest, ties to even. */
  function Nearest128(x: nat): (q: nat)
  {
    var m, r := x / 128, x % 128;
    if r < 64 || (r == 64 && m % 2 == 0) then m else m + 1
  }

  lemma {:induction false} NearestBy128(x: nat)
    ensures NearestEven(x as real / 128.0) == Nearest128(x)
  {
    var m, r := x / 128, x % 128;
    var y := x as real / 128.0;
    assert x as real == 128.0 * (m as real) + r as real;
    assert y == m as real + r as real / 128.0;
    assert y.Floor == m;
  }

  lemma {:induction false} SevenHalvings(x: real)
    requires 576460752303423488.0 <= x < 1152921504606846976.0
    ensures Round(x) == 128.0 * (NearestEven(x / 128.0) as real)
  {
    var x1 := x / 2.0;
    var x2 := x1 / 2.0;
    var x3 := x2 / 2.0;
    var x4 := x3 / 2.0;
    var x5 := x4 / 2.0;
    var x6 := x5 / 2.0;
    var x7 := x6 / 2.0;
    assert x7 == x / 128.0;
    WholeRange(x7);
    RoundHalved(x6);
    RoundHalved(x5);
    RoundHalved(x4);
    RoundHalved(x3);
    RoundHalved(x2);
    RoundHalved(x1);
    RoundHalved(x);
  }

  lemma {:induction false} RoundHalved(x: real)
    requires x >= HIGH
    ensures Round(x) == 2.0 * Round(x / 2.0)
  {
  }

  /** Dividing by 100 again leaves `d` hundredths, and the next whole number is the nearest from 51 hundredths on. */
  lemma {:induction false} DividedBack(count: nat, d: int)
    requires 5764607523034235 <= count && count as real < HIGH && -64 <= d <= 64 && d != 50
    ensures var rank := Rank(Hundredth((100 * count + d) as real));
            (d > 50 ==> rank == count + 1) && (d < 50 ==> rank <= count)
  {
    var y := (100 * count + d) as real / 100.0;
    assert y == count as real + d as real / 100.0;
    WholeRange(y);
    NearestTo(y, count, d);
  }

  lemma {:induction false} NearestTo(y: real, count: nat, d: int)
    requires y == count as real + d as real / 100.0 && -64 <= d <= 64 && d != 50
    ensures (d > 50 ==> NearestEven(y) == count + 1) && (d < 50 ==> NearestEven(y) <= count)
  {
    if d >= 0 { assert y.Floor == count; } else { assert y.Floor == count - 1; }
  }

  /** Where the count overshoots, the 100th percentile is reported as 0. */
  lemma {:induction false} OvershootReportsZero(samples: seq<Value>)
    requires |samples| as real < HIGH && Overshoots(|samples|)
    ensures Reported(samples, Target(|samples|, 100.0)) == 0
  {
    TopRank(|samples|);
    BeyondLastRank(samples, Target(|samples|, 100.0));
  }

  // ------------------------------------------------------------ what the rank means

  /** What three roundings can do to a number: three parts in 2^53 of it, or of 1 if it is smaller. */
  function Slack(x: real): (d: real) { 3.0 * AtLeastOne(x) / HIGH }

  /** `exact` rounded down, but at least 1, up to that slack. */
  predicate NearRank(exact: real, rank: nat)
  {
    exact - 1.0 - Slack(exact) < rank as real && (rank == 1 || rank as real <= exact + Slack(exact))
  }

  /** The rank of the p-th percentile of `count` samples: `p` hundredths of the count rounded down, but at least 1; up
    * to the rounding of f64 arithmetic, and exactly so for a whole `p` as long as the product is below 2^53.
    */
  ghost predicate IsRank(count: nat, p: real, rank: nat)
  {
    && NearRank(count as real * p / 100.0, rank)
    && (p == p.Floor as real && (count * p.Floor) as real < HIGH ==>
          rank == if count * p.Floor / 100 > 1 then count * p.Floor / 100 else 1)
  }

  /** Main theorem. Below 2^53 samples the code computes that rank for every percentile from 0 to 100. */
  lemma {:induction false} TargetIsRank(count: nat, p: real)
    requires 0 < count && count as real < HIGH && 0.0 <= p <= 100.0
    ensures IsRank(count, p, Target(count, p))
  {
    WholeKept(count);
    TargetBounds(count as real, p);
    if p == p.Floor as real && (count * p.Floor) as real < HIGH {
      WholeTarget(count, p.Floor, p);
    }
  }

  /** Percentiles up to 0 are the first sample. */
  lemma {:induction false} LowestRank(count: nat, p: real)
    requires p <= 0.0
    ensures Target(count, p) == 1
  {
    RanksInOrder(count, p, 0.0);
    ZeroKept(1074);
    assert Scaled(Round(count as real), 0.0) == 0.0;
  }

  lemma {:induction false} TargetBounds(c: real, p: real)
    requires 0.0 <= c < HIGH && 0.0 <= p <= 100.0
    ensures NearRank(Scaled(c, p) / 100.0, Rank(Hundredth(Round(Scaled(c, p)))))
  {
    ScaledRange(c, p);
    DividedBounds(Scaled(c, p));
    RankNear(Scaled(c, p) / 100.0, Hundredth(Round(Scaled(c, p))));
  }

  lemma {:induction false} ScaledRange(c: real, p: real)
    requires 0.0 <= c < HIGH && 0.0 <= p <= 100.0
    ensures 0.0 <= Scaled(c, p) < 100.0 * HIGH
  {
    ScaledInOrder(c, 0.0, p);
    ScaledInOrder(c, p, 100.0);
    assert Scaled(c, 0.0) == 0.0 && Scaled(c, 100.0) == 100.0 * c;
  }

  lemma {:induction false} DividedBounds(x: real)
    requires 0.0 <= x
    ensures var exact := x / 100.0; exact - Slack(exact) <= Hundredth(Round(x)) <= exact + Slack(exact)
  {
    AbsNotNegative(x);
    RoundRelative(x);
    var y := Round(x) / 100.0;
    RoundRelative(y);
    TwoRoundings(x, Round(x), y, Round(y));
  }

  lemma {:induction false} RankNear(exact: real, x: real)
    requires 0.0 <= exact < HIGH && exact - Slack(exact) <= x <= exact + Slack(exact)
    ensures NearRank(exact, Rank(x))
  {
    assert Slack(exact) < 4.0;
    RankBounds(x);
  }

  lemma {:induction false} TwoRoundings(x: real, x': real, y: real, y': real)
    requires 0.0 <= x && y == x' / 100.0
    requires x - AtLeastOne(x) / HIGH <= x' <= x + AtLeastOne(x) / HIGH
    requires y - AtLeastOne(y) / HIGH <= y' <= y + AtLeastOne(y) / HIGH
    ensures x / 100.0 - Slack(x / 100.0) <= y' <= x / 100.0 + Slack(x / 100.0)
  {
    var e := x / 100.0;
    assert AtLeastOne(x) <= 100.0 * AtLeastOne(e);
    assert e - AtLeastOne(e) / HIGH <= y <= e + AtLeastOne(e) / HIGH;
    assert AtLeastOne(y) <= 2.0 * AtLeastOne(e);
  }

  lemma {:induction false} RankBounds(x: real)
    requires x < U64 as real
    ensures x - 1.0 < Rank(x) as real && (Rank(x) == 1 || Rank(x) as real <= x)
  {
    assert x.Floor as real <= x < x.Floor as real + 1.0;
  }

  lemma {:induction false} WholeTarget(count: nat, w: nat, p: real)
    requires p == w as real && Round(count as real) == count as real && (count * w) as real < HIGH
    ensures Target(count, p) == if count * w / 100 > 1 then count * w / 100 else 1
  {
    var x := count * w;
    WholeKept(x);
    assert Scaled(count as real, p) == x as real;
    HundredthOfWhole(x);
  }

  /** The hundredth part of a whole number below 2^53 is never rounded up to the next whole number. */
  lemma {:induction false} HundredthOfWhole(x: nat)
    requires x as real < HIGH
    ensures Hundredth(x as real).Floor == x / 100
  {
    var q, y := x / 100, x as real / 100.0;
    SixHalves();
    assert x as real == 100.0 * (q as real) + (x % 100) as real;
    assert q as real <= y <= q as real + 0.99;
    SmallFine(y, 1074, 6);
    WholeKept(q);
    RoundInOrder(q as real, y);
    BetweenWholes(Round(y), q);
  }

  lemma {:induction false} SixHalves()
    ensures Halves(HIGH, 6) == 140737488355328.0 && Halves(0.5, 6) == 0.0078125
  {
  }

  lemma {:induction false} BetweenWholes(x: real, n: int)
    requires n as real <= x < n as real + 1.0
    ensures x.Floor == n
  {
  }

  /** Every percentile from 0 to 100 is accurate in the same sense: what is reported belongs to the sample of that rank.
    * Unless the count overshoots, there is one.
    */
  lemma {:induction false} PercentileAccuracy(samples: seq<Value>, sorted: seq<Value>, p: real) returns (rank: nat)
    requires Samples(samples) && multiset(sorted) == multiset(samples) && Sorted(sorted)
    requires samples != [] && |samples| as real < HIGH && !Overshoots(|samples|) && 0.0 <= p <= 100.0
    ensures IsRank(|samples|, p, rank) && 1 <= rank <= |samples| == |sorted|
    ensures var exact, reported := sorted[rank - 1], Reported(samples, Target(|samples|, p));
            reported <= exact && (exact > 1 ==> 2 * reported > exact)
  {
    rank := Target(|samples|, p);
    TargetIsRank(|samples|, p);
    RankInRangeExactly(|samples|);
    RankAccuracy(samples, sorted, rank);
  }

  // ------------------------------------------------------------ the histogram

  ghost function Sum(s: seq<Value>): (n: nat) { if s == [] then 0 else Sum(s[..|s| - 1]) + s[|s| - 1] }

  /** `m` is the least sample, u64::MAX when there is none. */
  ghost predicate IsMin(s: seq<Value>, m: nat)
  {
    && (forall i :: 0 <= i < |s| ==> m <= s[i]) && (s == [] ==> m == U64 - 1) && (s != [] ==> m in s)
  }

  ghost predicate IsMax(s: seq<Value>, m: nat)
  {
    && (forall i :: 0 <= i < |s| ==> s[i] <= m) && (s == [] ==> m == 0) && (s != [] ==> m in s)
  }

  /** The totals kept beside the counters; the sum wraps like a u64. */
  ghost predicate Stats(s: seq<Value>, count: nat, sum: nat, min: nat, max: nat)
  {
    count == |s| && sum == Sum(s) % U64 && IsMin(s, min) && IsMax(s, max)
  }

  lemma {:induction false} GrowStats(s: seq<Value>, v: Value, count: nat, sum: nat, min: nat, max: nat)
    requires Stats(s, count, sum, min, max)
    ensures Stats(s + [v], count + 1, (sum + v) % U64, if v < min then v else min, if v > max then v else max)
  {
    var grown := s + [v];
    assert grown[..|grown| - 1] == s && grown[|grown| - 1] == v;
    AddModulo(Sum(s), v);
    GrowMin(s, v, min);
    GrowMax(s, v, max);
  }

  lemma {:induction false} AddModulo(a: nat, v: nat)
    ensures (a % U64 + v) % U64 == (a + v) % U64
  {
  }

  /** One counter for each bucket, holding the number of its samples. */
  ghost predicate Counts(counters: seq<nat>, s: seq<Value>)
  {
    |counters| == NUM_BUCKETS && forall b :: 0 <= b < NUM_BUCKETS ==> counters[b] == CountIn(s, b)
  }

  lemma {:induction false} GrowCounts(s: seq<Value>, v: Value, counts: seq<nat>)
    requires Counts(counts, s)
    ensures Counts(counts[Bucket(v) := counts[Bucket(v)] + 1], s + [v])
  {
    forall b | 0 <= b < NUM_BUCKETS
      ensures counts[Bucket(v) := counts[Bucket(v)] + 1][b] == CountIn(s + [v], b)
    {
      assert (s + [v])[..|s|] == s;
    }
  }

  lemma {:induction false} GrowMin(s: seq<Value>, v: Value, min: nat)
    requires IsMin(s, min)
    ensures IsMin(s + [v], if v < min then v else min)
  {
    assert (s + [v])[|s|] == v;
  }

  lemma {:induction false} GrowMax(s: seq<Value>, v: Value, max: nat)
    requires IsMax(s, max)
    ensures IsMax(s + [v], if v > max then v else max)
  {
    assert (s + [v])[|s|] == v;
  }

  /** Total of the first `n` bucket counters. */
  function Total(buckets: seq<nat>, n: nat): (t: nat)
    requires n <= |buckets|
  {
    if n == 0 then 0 else Total(buckets, n - 1) + buckets[n - 1]
  }

  lemma {:induction false} TotalIsBelow(s: seq<Value>, buckets: seq<nat>, n: nat)
    requires n <= |buckets| && forall b :: 0 <= b < |buckets| ==> buckets[b] == CountIn(s, b)
    ensures Total(buckets, n) == CountBelow(s, n)
  {
    if n == 0 {
      BelowZero(s);
    } else {
      TotalIsBelow(s, buckets, n - 1);
      BelowNext(s, n - 1);
    }
  }

  class Histogram {
    const buckets: array<nat>
    var count: nat
    var sum: nat
    var min: nat
    var max: nat
    ghost var samples: seq<Value>

    ghost predicate Valid()
      reads this, buckets
    {
      && Counts(buckets[..], samples) && Samples(samples)
      && Stats(samples, count, sum, min, max)
    }

    constructor ()
      ensures Valid() && samples == [] && fresh(buckets)
    {
      var counters := new nat[NUM_BUCKETS](i => 0);
      buckets := counters;
      count, sum, min, max, samples := 0, 0, U64 - 1, 0, [];
      new;
      assert Counts(buckets[..], []);
    }

    /** A zero is not recorded. */
    method Record(valueNs: Value)
      requires Valid()
      modifies this, buckets
      ensures Valid() && samples == if valueNs == 0 then old(samples) else old(samples) + [valueNs]
    {
      if valueNs == 0 {
        return;
      }
      ghost var grown := samples + [valueNs];
      GrowStats(samples, valueNs, count, sum, min, max);
      GrowCounts(samples, valueNs, buckets[..]);
      assert Samples(grown);
      var bucket := Bucket(valueNs);
      ghost var counts := buckets[..];
      count := count + 1;
      sum := (sum + valueNs) % U64;
      min := if valueNs < min then valueNs else min;
      max := if valueNs > max then valueNs else max;
      samples := grown;
      buckets[bucket] := buckets[bucket] + 1;
      assert buckets[..] == counts[bucket := counts[bucket] + 1];
    }

    method Clear()
      requires Valid()
      modifies this, buckets
      ensures Valid() && samples == []
    {
      for i := 0 to NUM_BUCKETS
        invariant forall b :: 0 <= b < i ==> buckets[b] == 0
      {
        buckets[i] := 0;
      }
      count, sum, min, max, samples := 0, 0, U64 - 1, 0, [];
    }

    /** The bucket counters always add up to `count`. */
    lemma {:induction false} CountersAddUp()
      requires Valid()
      ensures Total(buckets[..], NUM_BUCKETS) == count
    {
      TotalIsBelow(samples, buckets[..], NUM_BUCKETS);
      BelowAll(samples);
    }

    method Percentiles(percentiles: seq<real>) returns (results: seq<nat>)
      requires Valid()
      ensures |results| == |percentiles|
      ensures forall j :: 0 <= j < |results| ==>
                results[j] == Reported(samples, Target(|samples|, percentiles[j]))
    {
      if count == 0 {
        results := seq(|percentiles|, i => 0);
        forall j | 0 <= j < |percentiles| ensures Reported(samples, Target(|samples|, percentiles[j])) == 0 {
          BeyondLastRank(samples, Target(|samples|, percentiles[j]));
        }
        return;
      }
      var cumulative := Cumulate();
      results := [];
      for j := 0 to |percentiles|
        invariant |results| == j
        invariant forall k :: 0 <= k < j ==> results[k] == Reported(samples, Target(|samples|, percentiles[k]))
      {
        var value := Percentile(cumulative, Target(count, percentiles[j]));
        results := results + [value];
      }
    }

    /** The inner loop: the first bucket whose running total reaches the target. */
    method Percentile(cumulative: seq<nat>, target: nat) returns (value: nat)
      requires |cumulative| == NUM_BUCKETS
      requires forall b :: 0 <= b < NUM_BUCKETS ==> cumulative[b] == CountBelow(samples, b + 1)
      ensures value == Reported(samples, target)
    {
      var b := 0;
      while b < NUM_BUCKETS && cumulative[b] < target
        invariant b <= NUM_BUCKETS && FirstReached(samples, target, 0) == FirstReached(samples, target, b)
      {
        b := b + 1;
      }
      value := if b < NUM_BUCKETS then BucketValue(b) else 0;
    }

    /** Running totals of the bucket counters. */
    method Cumulate() returns (cumulative: seq<nat>)
      requires Valid()
      ensures |cumulative| == NUM_BUCKETS
      ensures forall b :: 0 <= b < NUM_BUCKETS ==> cumulative[b] == CountBelow(samples, b + 1)
    {
      var total := 0;
      cumulative := [];
      BelowZero(samples);
      for i := 0 to NUM_BUCKETS
        invariant |cumulative| == i && total == CountBelow(samples, i)
        invariant forall b :: 0 <= b < i ==> cumulative[b] == CountBelow(samples, b + 1)
      {
        BelowNext(samples, i);
        total := total + buckets[i];
        cumulative := cumulative + [total];
      }
    }
  }
}
