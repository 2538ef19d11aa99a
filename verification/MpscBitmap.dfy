/** The availability bitmap of the MPSC channel (channel/src/mpsc/shared.rs): one bit per ring
  * slot, whose meaning flips with the parity of the round `sequence / capacity`.
  */
module MpscBitmap {
  import opened Bits
  import opened RingBuffer

  const BITS_PER_WORD: nat := 64

  /** `!0u64`. */
  function Ones(): (w: nat) { Pow2(BITS_PER_WORD) - 1 }

  /** Number of words allocated for a capacity. */
  function WordCount(cap: nat): (n: nat) { (cap + BITS_PER_WORD - 1) / BITS_PER_WORD }

  function WordIndex(cap: nat, s: nat): (w: nat)
    requires cap > 0
    ensures w < WordCount(cap)
  {
    (s / BITS_PER_WORD) % WordCount(cap)
  }

  function BitIndex(s: nat): (b: nat)
    ensures b < BITS_PER_WORD
  {
    s % BITS_PER_WORD
  }

  /** A bitmap for `cap` slots: the right number of 64-bit words. */
  predicate WellFormed(avail: seq<nat>, cap: nat)
  {
    cap > 0 && |avail| == WordCount(cap) && AllBelow(avail, BITS_PER_WORD)
  }

  predicate AllBelow(words: seq<nat>, width: nat) { forall w :: 0 <= w < |words| ==> words[w] < Pow2(width) }

  /** The round's parity is odd. */
  predicate OddRound(cap: nat, s: nat)
    requires cap > 0
  {
    (s / cap) % 2 == 1
  }

  predicate IsPublished(avail: seq<nat>, cap: nat, s: nat)
    requires cap > 0 && |avail| == WordCount(cap)
  {
    Bit(avail[WordIndex(cap, s)], BitIndex(s)) == OddRound(cap, s)
  }

  /** `availability[w].fetch_xor(mask)`. */
  function FetchXor(avail: seq<nat>, w: nat, mask: nat): (r: seq<nat>)
    requires w < |avail|
  {
    avail[w := Xor(avail[w], mask)]
  }

  /** `mark_published`. */
  function Mark(avail: seq<nat>, cap: nat, s: nat): (r: seq<nat>)
    requires cap > 0 && |avail| == WordCount(cap)
    ensures |r| == |avail|
  {
    FetchXor(avail, WordIndex(cap, s), Pow2(BitIndex(s)))
  }

  /** Marking `count` consecutive sequences one at a time. */
  function MarkEach(avail: seq<nat>, cap: nat, start: nat, count: nat): (r: seq<nat>)
    requires cap > 0 && |avail| == WordCount(cap)
    ensures |r| == |avail|
  {
    if count == 0 then avail
    else Mark(MarkEach(avail, cap, start, count - 1), cap, start + count - 1)
  }

  // ------------------------------------------------------------ positions

  /** `(word, bit)` is the slot number written in base 64, when the words divide the ring evenly. */
  lemma {:induction false} PositionIsSlot(cap: nat, s: nat)
    requires cap > 0 && cap % BITS_PER_WORD == 0
    ensures BITS_PER_WORD * WordIndex(cap, s) + BitIndex(s) == s % cap
  {
    var n := WordCount(cap);
    assert cap == 64 * n;
    var q, r := (s / 64) / n, (s / 64) % n;
    assert s / 64 == n * q + r;
    assert s == 64 * (s / 64) + s % 64;
    assert 64 * (n * q) == cap * q by { assert 64 * (n * q) == (64 * n) * q; }
    assert s == cap * q + (64 * r + s % 64);
    DivModUnique(s, cap, q, 64 * r + s % 64);
  }

  /** Two sequences share a bit exactly when they share a slot. */
  lemma {:induction false} SamePosition(cap: nat, s: nat, t: nat)
    requires cap > 0 && cap % BITS_PER_WORD == 0
    ensures (WordIndex(cap, s) == WordIndex(cap, t) && BitIndex(s) == BitIndex(t)) <==> s % cap == t % cap
  {
    PositionIsSlot(cap, s);
    PositionIsSlot(cap, t);
  }

  lemma {:induction false} NextRound(cap: nat, s: nat)
    requires cap > 0
    ensures (s + cap) % cap == s % cap
    ensures (s + cap) / cap == s / cap + 1
  {
    var q, r := s / cap, s % cap;
    assert cap * (q + 1) == cap * q + cap;
    DivModUnique(s + cap, cap, q + 1, r);
  }

  /** Sequences that sit in one word of a run share the word and the round. */
  lemma {:induction false} SameWordRun(cap: nat, s: nat, j: nat)
    requires cap > 0 && cap % BITS_PER_WORD == 0
    requires BitIndex(s) + j < BITS_PER_WORD
    ensures WordIndex(cap, s + j) == WordIndex(cap, s)
    ensures BitIndex(s + j) == BitIndex(s) + j
    ensures OddRound(cap, s + j) == OddRound(cap, s)
  {
    SameWord(cap, s, j);
    PositionIsSlot(cap, s);
    PositionIsSlot(cap, s + j);
    SameRound(cap, s, j);
  }

  lemma {:induction false} SameWord(cap: nat, s: nat, j: nat)
    requires cap > 0 && BitIndex(s) + j < BITS_PER_WORD
    ensures WordIndex(cap, s + j) == WordIndex(cap, s) && BitIndex(s + j) == BitIndex(s) + j
  {
    assert (s + j) / 64 == s / 64;
  }

  lemma {:induction false} SameRound(cap: nat, s: nat, j: nat)
    requires cap > 0 && (s + j) % cap == s % cap + j
    ensures (s + j) / cap == s / cap
  {
    var q := s / cap;
    assert s + j == cap * q + (s % cap + j);
    DivModUnique(s + j, cap, q, s % cap + j);
  }

  /** After the last bit of a word the scan continues at bit 0 of the next word, cyclically. */
  lemma {:induction false} NextWord(cap: nat, s: nat)
    requires cap > 0
    ensures BitIndex(s + (BITS_PER_WORD - BitIndex(s))) == 0
    ensures WordIndex(cap, s + (BITS_PER_WORD - BitIndex(s))) == (WordIndex(cap, s) + 1) % WordCount(cap)
  {
    EndOfWord(s);
    NextModulo(s / 64, WordCount(cap));
  }

  lemma {:induction false} EndOfWord(s: nat)
    ensures (s + (64 - s % 64)) / 64 == s / 64 + 1 && (s + (64 - s % 64)) % 64 == 0
  {
  }

  lemma {:induction false} NextModulo(m: nat, n: nat)
    requires n > 0
    ensures (m + 1) % n == (m % n + 1) % n
  {
    var q, r := m / n, m % n;
    if r + 1 < n {
      DivModUnique(m + 1, n, q, r + 1);
      DivModUnique(r + 1, n, 0, r + 1);
    } else {
      assert n * (q + 1) == n * q + n;
      DivModUnique(m + 1, n, q + 1, 0);
      DivModUnique(r + 1, n, 1, 0);
    }
  }

  /** Marking flips the test of the sequences sharing word and bit, whatever the capacity. */
  lemma {:induction false} MarkFlipsBit(avail: seq<nat>, cap: nat, s: nat, t: nat)
    requires cap > 0 && |avail| == WordCount(cap)
    ensures IsPublished(Mark(avail, cap, s), cap, t)
         == (IsPublished(avail, cap, t) != (WordIndex(cap, s) == WordIndex(cap, t) && BitIndex(s) == BitIndex(t)))
  {
    if WordIndex(cap, s) == WordIndex(cap, t) {
      XorBit(avail[WordIndex(cap, s)], Pow2(BitIndex(s)), BitIndex(t));
      Pow2Bit(BitIndex(s), BitIndex(t));
    }
  }

  /** Marking flips the test of the sequences sharing the slot, and of no other. */
  lemma {:induction false} MarkFlipsSlot(avail: seq<nat>, cap: nat, s: nat, t: nat)
    requires cap > 0 && cap % BITS_PER_WORD == 0 && |avail| == WordCount(cap)
    ensures IsPublished(Mark(avail, cap, s), cap, t) == (IsPublished(avail, cap, t) != (s % cap == t % cap))
  {
    SamePosition(cap, s, t);
    MarkFlipsBit(avail, cap, s, t);
  }

  lemma {:induction false} MarkWellFormed(avail: seq<nat>, cap: nat, s: nat)
    requires WellFormed(avail, cap)
    ensures WellFormed(Mark(avail, cap, s), cap)
  {
    MarkBelow(avail, cap, s, BITS_PER_WORD);
  }

  lemma {:induction false} MarkEachWellFormed(avail: seq<nat>, cap: nat, start: nat, count: nat)
    requires WellFormed(avail, cap)
    ensures WellFormed(MarkEach(avail, cap, start, count), cap)
  {
    MarkEachBelow(avail, cap, start, count, BITS_PER_WORD);
  }

  lemma {:induction false} MarkEachBelow(avail: seq<nat>, cap: nat, start: nat, count: nat, width: nat)
    requires cap > 0 && |avail| == WordCount(cap) && AllBelow(avail, width) && width >= BITS_PER_WORD
    ensures AllBelow(MarkEach(avail, cap, start, count), width)
  {
    if count > 0 {
      MarkEachBelow(avail, cap, start, count - 1, width);
      MarkBelow(MarkEach(avail, cap, start, count - 1), cap, start + count - 1, width);
    }
  }

  lemma {:induction false} MarkBelow(avail: seq<nat>, cap: nat, s: nat, width: nat)
    requires cap > 0 && |avail| == WordCount(cap) && AllBelow(avail, width) && width >= BITS_PER_WORD
    ensures AllBelow(Mark(avail, cap, s), width)
  {
    Pow2Monotone(BitIndex(s), width);
    XorBound(avail[WordIndex(cap, s)], Pow2(BitIndex(s)), width);
  }

  lemma {:induction false} AndPow2Zero(w: nat, b: nat)
    requires !Bit(w, b)
    ensures And(w, Pow2(b)) == 0
  {
    if b == 0 {
    } else if w != 0 {
      AndPow2Zero(w / 2, b - 1);
    }
  }

  /** Positions of the sequences in start .. start + n. */
  ghost predicate Touched(cap: nat, start: nat, n: nat, w: nat, b: nat)
    requires cap > 0
  {
    exists t: nat :: start <= t < start + n && WordIndex(cap, t) == w && BitIndex(t) == b
  }

  /** Within one lap of the ring no position is touched twice. */
  lemma {:induction false} NotTouched(cap: nat, start: nat, n: nat, q: nat)
    requires cap > 0 && cap % BITS_PER_WORD == 0 && n < cap && q == start + n
    ensures !Touched(cap, start, n, WordIndex(cap, q), BitIndex(q))
  {
    forall t: nat | start <= t < q
      ensures !(WordIndex(cap, t) == WordIndex(cap, q) && BitIndex(t) == BitIndex(q))
    {
      SlotsDistinct(cap, t, q);
      SamePosition(cap, t, q);
    }
  }

  /** One iteration of the batched loop: OR-ing a fresh bit into the pending mask of the current
    * word stands for one more single mark.
    */
  lemma {:induction false} AbsorbBit(avail: seq<nat>, marked: seq<nat>, cap: nat, w: nat, flip: nat, s: nat)
    requires cap > 0 && |avail| == |marked| == WordCount(cap)
    requires w == WordIndex(cap, s) && !Bit(flip, BitIndex(s))
    requires FetchXor(avail, w, flip) == marked
    ensures FetchXor(avail, w, Or(flip, Pow2(BitIndex(s)))) == Mark(marked, cap, s)
  {
    AndPow2Zero(flip, BitIndex(s));
    XorXorIsXorOr(avail[w], flip, Pow2(BitIndex(s)));
  }

  /** The bitmap plus the pending mask of the current word stand for `i` single marks. */
  ghost predicate Pending(avail: seq<nat>, before: seq<nat>, cap: nat, start: nat, i: nat, w: nat, flip: nat)
    requires cap > 0 && |avail| == |before| == WordCount(cap)
  {
    && w < |avail|
    && FetchXor(avail, w, flip) == MarkEach(before, cap, start, i)
    && forall b: nat :: Bit(flip, b) ==> Touched(cap, start, i, w, b)
  }

  lemma {:induction false} StartWord(avail: seq<nat>, before: seq<nat>, cap: nat, start: nat, i: nat, w: nat)
    requires cap > 0 && |avail| == |before| == WordCount(cap) && w < |avail|
    requires avail == MarkEach(before, cap, start, i)
    ensures Pending(avail, before, cap, start, i, w, 0)
  {
    XorZero(avail[w]);
    forall b: nat ensures !Bit(0, b) { ZeroBit(b); }
  }

  lemma {:induction false} Accumulate(avail: seq<nat>, before: seq<nat>, cap: nat, start: nat, i: nat, q: nat, w: nat,
      flip: nat)
    requires cap > 0 && cap % BITS_PER_WORD == 0 && |avail| == |before| == WordCount(cap) && i < cap
    requires q == start + i && w == WordIndex(cap, q) && Pending(avail, before, cap, start, i, w, flip)
    ensures Pending(avail, before, cap, start, i + 1, w, Or(flip, Pow2(BitIndex(q))))
  {
    NotTouched(cap, start, i, q);
    AbsorbBit(avail, MarkEach(before, cap, start, i), cap, w, flip, q);
    GrowTouched(cap, start, i, q, w, flip);
    MarkEachNext(before, cap, start, i, q);
  }

  lemma {:induction false} MarkEachNext(before: seq<nat>, cap: nat, start: nat, i: nat, q: nat)
    requires cap > 0 && |before| == WordCount(cap) && q == start + i
    ensures MarkEach(before, cap, start, i + 1) == Mark(MarkEach(before, cap, start, i), cap, q)
  {
  }

  method FlushWord(availability: array<nat>, w: nat, mask: nat)
    requires w < availability.Length
    modifies availability
    ensures availability[..] == FetchXor(old(availability[..]), w, mask)
  {
    XorZero(availability[w]);
    if mask != 0 {
      availability[w] := Xor(availability[w], mask);
    }
  }

  /** `mark_published_batch`: the batched XOR leaves the bitmap that marking one sequence at a time
    * leaves, for every start and every count up to the capacity, wrap-around included.
    */
  method MarkPublishedBatch(availability: array<nat>, cap: nat, start: nat, count: nat)
    requires cap % BITS_PER_WORD == 0 && cap > 0 && availability.Length == WordCount(cap)
    requires count <= cap
    modifies availability
    ensures availability[..] == MarkEach(old(availability[..]), cap, start, count)
  {
    if count == 0 {
      return;
    }
    ghost var before := availability[..];
    var flipMask: nat := 0;
    var current: nat := WordIndex(cap, start);
    StartWord(availability[..], before, cap, start, 0, current);
    for i := 0 to count
      invariant Pending(availability[..], before, cap, start, i, current, flipMask)
    {
      var s := start + i;
      var wordIdx, bitIdx := WordIndex(cap, s), BitIndex(s);
      if wordIdx != current {
        FlushWord(availability, current, flipMask);
        flipMask := 0;
        current := wordIdx;
        StartWord(availability[..], before, cap, start, i, current);
      }
      Accumulate(availability[..], before, cap, start, i, s, current, flipMask);
      flipMask := Or(flipMask, Pow2(bitIdx));
    }
    FlushWord(availability, current, flipMask);
  }

  lemma {:induction false} GrowTouched(cap: nat, start: nat, i: nat, q: nat, w: nat, flip: nat)
    requires cap > 0 && q == start + i && w == WordIndex(cap, q)
    requires forall b: nat :: Bit(flip, b) ==> Touched(cap, start, i, w, b)
    ensures var flip' := Or(flip, Pow2(BitIndex(q)));
            forall b: nat :: Bit(flip', b) ==> Touched(cap, start, i + 1, w, b)
  {
    var p := BitIndex(q);
    forall b: nat | Bit(Or(flip, Pow2(p)), b)
      ensures Touched(cap, start, i + 1, w, b)
    {
      OrBit(flip, Pow2(p), b);
      Pow2Bit(p, b);
      if b == p {
        assert WordIndex(cap, q) == w && BitIndex(q) == b;
      }
    }
  }

  // ------------------------------------------------------------ the window

  /** The bitmap answers the publication question right for the `cap` sequences after `consumed`. */
  ghost predicate Represents(avail: seq<nat>, cap: nat, consumed: int, published: set<int>)
    requires cap > 0 && |avail| == WordCount(cap) && consumed >= -1
  {
    forall s: nat :: consumed < s <= consumed + cap ==> (IsPublished(avail, cap, s) <==> s in published)
  }

  lemma {:induction false} PublishKeepsWindow(avail: seq<nat>, cap: nat, consumed: int, published: set<int>, s: nat)
    requires cap > 0 && cap % BITS_PER_WORD == 0 && |avail| == WordCount(cap) && consumed >= -1
    requires Represents(avail, cap, consumed, published)
    requires consumed < s <= consumed + cap && s !in published
    ensures Represents(Mark(avail, cap, s), cap, consumed, published + {s})
  {
    forall t: nat | consumed < t <= consumed + cap
      ensures IsPublished(Mark(avail, cap, s), cap, t) <==> t in published + {s}
    {
      MarkFlipsSlot(avail, cap, s, t);
      if s < t { SlotsDistinct(cap, s, t); }
      if t < s { SlotsDistinct(cap, t, s); }
    }
  }

  /** Consuming one published sequence turns its bit into the "not yet published" bit of the sequence
    * one lap later.
    */
  lemma {:induction false} AdvanceKeepsWindow(avail: seq<nat>, cap: nat, consumed: int, published: set<int>)
    requires cap > 0 && cap % BITS_PER_WORD == 0 && |avail| == WordCount(cap) && consumed >= -1
    requires Represents(avail, cap, consumed, published)
    requires consumed + 1 in published && consumed + 1 + cap !in published
    ensures Represents(avail, cap, consumed + 1, published)
  {
    var s: nat := consumed + 1;
    LapFlipsTest(avail, cap, s);
    assert IsPublished(avail, cap, s);
  }

  lemma {:induction false} LapFlipsTest(avail: seq<nat>, cap: nat, s: nat)
    requires cap > 0 && cap % BITS_PER_WORD == 0 && |avail| == WordCount(cap)
    ensures IsPublished(avail, cap, s + cap) == !IsPublished(avail, cap, s)
  {
    NextRound(cap, s);
    SamePosition(cap, s + cap, s);
    ParityFlips(s / cap);
  }

  lemma {:induction false} ParityFlips(q: nat)
    ensures ((q + 1) % 2 == 1) != (q % 2 == 1)
  {
  }

  /** `create_shared`: every word all ones, so nothing in round 0 is published. */
  method CreateAvailability(cap: nat) returns (availability: array<nat>)
    requires cap > 0
    ensures fresh(availability) && availability.Length == WordCount(cap)
    ensures availability[..] == seq(WordCount(cap), i => Ones())
  {
    var n := WordCount(cap);
    availability := new nat[n];
    for i := 0 to n
      invariant forall k :: 0 <= k < i ==> availability[k] == Ones()
    {
      availability[i] := Ones();
    }
  }

  function InitialAvailability(cap: nat): (avail: seq<nat>) { seq(WordCount(cap), i => Ones()) }

  lemma {:induction false} InitialWindow(cap: nat)
    requires cap > 0
    ensures WellFormed(InitialAvailability(cap), cap)
    ensures Represents(InitialAvailability(cap), cap, -1, {})
  {
    forall s: nat | s < cap
      ensures !IsPublished(InitialAvailability(cap), cap, s)
    {
      OnesBit(BITS_PER_WORD, BitIndex(s));
      DivModUnique(s, cap, 0, s);
    }
  }

  // ------------------------------------------------------------ the word scan

  /** `expected_pattern`: all zeros in even rounds, all ones in odd rounds. */
  function ExpectedPattern(cap: nat, s: nat): (p: nat)
    requires cap > 0
  {
    if OddRound(cap, s) then Ones() else 0
  }

  /** Bit number of the first unpublished sequence at or after `bit` in a loaded word, or 64. */
  function FirstMismatch(word: nat, expected: nat, bit: nat): (b: nat)
  {
    var relevant := And(Xor(word, expected), Shl(Ones(), bit, BITS_PER_WORD));
    if relevant != 0 then TrailingZeros(relevant) else BITS_PER_WORD
  }

  lemma {:induction false} RelevantBit(word: nat, odd: bool, bit: nat, i: nat)
    requires i < BITS_PER_WORD
    ensures var expected := if odd then Ones() else 0;
            Bit(And(Xor(word, expected), Shl(Ones(), bit, BITS_PER_WORD)), i) == (i >= bit && Bit(word, i) != odd)
  {
    RelevantBitOf(word, odd, bit, i, BITS_PER_WORD);
  }

  lemma {:induction false} RelevantBitOf(word: nat, odd: bool, bit: nat, i: nat, width: nat)
    requires i < width
    ensures var expected := if odd then Pow2(width) - 1 else 0;
            Bit(And(Xor(word, expected), Shl(Pow2(width) - 1, bit, width)), i) == (i >= bit && Bit(word, i) != odd)
  {
    var expected := if odd then Pow2(width) - 1 else 0;
    var mask := Shl(Pow2(width) - 1, bit, width);
    AndBit(Xor(word, expected), mask, i);
    XorBit(word, expected, i);
    ShlOnesBit(bit, width, i);
    OnesBit(width, i);
    ZeroBit(i);
  }

  /** XOR, mask and trailing zeros find the first mismatch of the word from `bit` on. */
  lemma {:induction false} FirstMismatchIsFirst(word: nat, odd: bool, bit: nat, b: nat)
    requires word < Pow2(BITS_PER_WORD) && bit < BITS_PER_WORD
    requires b == FirstMismatch(word, if odd then Ones() else 0, bit)
    ensures bit <= b <= BITS_PER_WORD
    ensures forall i: nat :: bit <= i < b ==> Bit(word, i) == odd
    ensures b < BITS_PER_WORD ==> Bit(word, b) != odd
  {
    var expected := if odd then Ones() else 0;
    var mask := Shl(Ones(), bit, BITS_PER_WORD);
    var relevant := And(Xor(word, expected), mask);
    forall i: nat | i < BITS_PER_WORD
      ensures Bit(relevant, i) == (i >= bit && Bit(word, i) != odd)
    {
      RelevantBit(word, odd, bit, i);
    }
    if relevant != 0 {
      TrailingZerosIsLowestSetBit(relevant);
      XorBound(word, expected, BITS_PER_WORD);
      AndBound(Xor(word, expected), mask);
      SetBitBound(relevant, TrailingZeros(relevant), BITS_PER_WORD);
    } else {
      forall i: nat | i < BITS_PER_WORD ensures !Bit(relevant, i) { ZeroBit(i); }
    }
  }

  /** What one word load tells about the sequences it covers: a run of published ones, then, unless the
    * word ends first, an unpublished one.
    */
  ghost predicate LoadTells(avail: seq<nat>, cap: nat, s: nat, b: nat)
    requires cap > 0 && |avail| == WordCount(cap)
  {
    && BitIndex(s) <= b <= BITS_PER_WORD
    && (forall t: nat :: s <= t < s + (b - BitIndex(s)) ==> IsPublished(avail, cap, t))
    && (b < BITS_PER_WORD ==> !IsPublished(avail, cap, s + (b - BitIndex(s))))
  }

  lemma {:induction false} ScanWord(avail: seq<nat>, cap: nat, s: nat, b: nat)
    requires WellFormed(avail, cap) && cap % BITS_PER_WORD == 0
    requires b == FirstMismatch(avail[WordIndex(cap, s)], ExpectedPattern(cap, s), BitIndex(s))
    ensures LoadTells(avail, cap, s, b)
  {
    FirstMismatchIsFirst(avail[WordIndex(cap, s)], OddRound(cap, s), BitIndex(s), b);
    WordTells(avail, cap, s, b);
  }

  lemma {:induction false} WordTells(avail: seq<nat>, cap: nat, s: nat, b: nat)
    requires cap > 0 && |avail| == WordCount(cap) && cap % BITS_PER_WORD == 0
    requires BitIndex(s) <= b <= BITS_PER_WORD
    requires forall i: nat :: BitIndex(s) <= i < b ==> Bit(avail[WordIndex(cap, s)], i) == OddRound(cap, s)
    requires b < BITS_PER_WORD ==> Bit(avail[WordIndex(cap, s)], b) != OddRound(cap, s)
    ensures LoadTells(avail, cap, s, b)
  {
    var bit := BitIndex(s);
    var end := s + (b - bit);
    forall t: nat | s <= t < end
      ensures IsPublished(avail, cap, t)
    {
      BitTells(avail, cap, s, t, bit + (t - s));
    }
    if b < BITS_PER_WORD {
      BitTells(avail, cap, s, end, b);
    }
  }

  lemma {:induction false} BitTells(avail: seq<nat>, cap: nat, s: nat, t: nat, b: nat)
    requires cap > 0 && cap % BITS_PER_WORD == 0 && |avail| == WordCount(cap)
    requires s <= t && b == BitIndex(s) + (t - s) && b < BITS_PER_WORD
    ensures IsPublished(avail, cap, t) == (Bit(avail[WordIndex(cap, s)], b) == OddRound(cap, s))
  {
    InWord(avail, cap, s, t - s);
  }

  lemma {:induction false} InWord(avail: seq<nat>, cap: nat, s: nat, j: nat)
    requires cap > 0 && cap % BITS_PER_WORD == 0 && |avail| == WordCount(cap)
    requires BitIndex(s) + j < BITS_PER_WORD
    ensures IsPublished(avail, cap, s + j) == (Bit(avail[WordIndex(cap, s)], BitIndex(s) + j) == OddRound(cap, s))
  {
    SameWordRun(cap, s, j);
  }

  /** `highest_published` on a bitmap at rest: the end of the longest contiguous published run, also
    * when the ring is full, when the scan wraps into its first word, and when claims run past the
    * capacity.
    */
  method HighestPublished(availability: array<nat>, cap: nat, claim: int, from: nat, ghost published: set<int>)
    returns (highest: int)
    requires cap % BITS_PER_WORD == 0 && WellFormed(availability[..], cap)
    requires Represents(availability[..], cap, from - 1, published)
    requires forall s :: s in published ==> s <= claim && s < from + cap
    ensures from - 1 <= highest
    ensures forall s: int :: from <= s <= highest ==> s in published
    ensures highest + 1 !in published
  {
    if from > claim {
      return from - 1;
    }
    ghost var avail := availability[..];
    var s := from;
    var wordIdx := WordIndex(cap, s);
    var bitIdx := BitIndex(s);
    while true
      invariant from <= s <= from + cap
      invariant wordIdx == WordIndex(cap, s) && bitIdx == BitIndex(s)
      invariant forall t: int :: from <= t < s ==> t in published
      decreases from + cap - s
    {
      if s > claim {
        return s - 1;
      }
      var word := availability[wordIdx];
      var expected := ExpectedPattern(cap, s);
      var first := FirstMismatch(word, expected, bitIdx);
      LoadedRun(avail, cap, from, published, s, first);
      if first < BITS_PER_WORD {
        return s + (first - bitIdx) - 1;
      }
      NextWord(cap, s);
      s := s + (BITS_PER_WORD - bitIdx);
      wordIdx := (wordIdx + 1) % WordCount(cap);
      bitIdx := 0;
    }
  }

  /** Translating a word's run from the bitmap to the published set: the run never leaves the window,
    * because one lap after the start the test answers false.
    */
  lemma {:induction false} LoadedRun(avail: seq<nat>, cap: nat, from: nat, published: set<int>, s: nat, b: nat)
    requires cap % BITS_PER_WORD == 0 && WellFormed(avail, cap)
    requires Represents(avail, cap, from - 1, published)
    requires from <= s <= from + cap
    requires forall t: int :: from <= t < s ==> t in published
    requires forall t :: t in published ==> t < from + cap
    requires b == FirstMismatch(avail[WordIndex(cap, s)], ExpectedPattern(cap, s), BitIndex(s))
    ensures BitIndex(s) <= b <= BITS_PER_WORD && s + (b - BitIndex(s)) <= from + cap
    ensures forall t: int :: from <= t < s + (b - BitIndex(s)) ==> t in published
    ensures b < BITS_PER_WORD ==> s + (b - BitIndex(s)) !in published
  {
    ScanWord(avail, cap, s, b);
    TellsPublished(avail, cap, from, published, s, b);
  }

  lemma {:induction false} TellsPublished(avail: seq<nat>, cap: nat, from: nat, published: set<int>, s: nat, b: nat)
    requires cap % BITS_PER_WORD == 0 && cap > 0 && |avail| == WordCount(cap)
    requires Represents(avail, cap, from - 1, published)
    requires from <= s <= from + cap
    requires forall t: int :: from <= t < s ==> t in published
    requires forall t :: t in published ==> t < from + cap
    requires LoadTells(avail, cap, s, b)
    ensures s + (b - BitIndex(s)) <= from + cap
    ensures forall t: int :: from <= t < s + (b - BitIndex(s)) ==> t in published
    ensures b < BITS_PER_WORD ==> s + (b - BitIndex(s)) !in published
  {
    var end := s + (b - BitIndex(s));
    LapFlipsTest(avail, cap, from);
    assert s > from ==> from in published && IsPublished(avail, cap, from);
    assert end > from ==> IsPublished(avail, cap, from);
    assert end <= from + cap;
  }
}
