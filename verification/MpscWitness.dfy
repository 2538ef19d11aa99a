/** Concrete runs of the multi-producer channel that mark the edges of its guarantees: capacities below
  * one bitmap word, and explicit close() calls while a send is blocked.
  */
module MpscWitness {
  import opened Bits
  import opened Common
  import opened MpscBitmap
  import opened Mpsc
  import opened MpscCalls

  function Start(cap: nat): (s: State<int>)
  {
    State(cap, seq(cap, i => 0), -1, -1, InitialAvailability(cap), 1, false, {0}, false, map[],
          0, Ready, map[], {}, {}, map[], map[], [], false, false)
  }

  lemma {:induction false} StartIsRun(cap: nat) returns (run: seq<State<int>>)
    requires IsPowerOfTwo(cap)
    ensures IsRun(run) && run == [Start(cap)]
  {
    run := [Start(cap)];
  }

  lemma {:induction false} PutFirst<V>(a: V, b: V, c: V)
    ensures map[1 := a, 2 := b][1 := c] == map[1 := c, 2 := b]
  {
  }

  lemma {:induction false} DropFirst<V>(a: V, b: V)
    ensures map[1 := a, 2 := b] - {1} == map[2 := b]
  {
  }

  // ------------------------------------------------------------ capacities below 64

  /** The parity test answers right in the whole window of this state. */
  ghost predicate ParityRight<T>(s: State<T>)
  {
    Shape(s) && Represents(s.avail, s.cap, s.consumed, s.published)
  }

  /** A send of 7 up to the point where it owns sequence 0. */
  lemma {:induction false} OneSendOwns(cap: nat) returns (run: seq<State<int>>)
    requires IsPowerOfTwo(cap)
    ensures IsRun(run) && run[0].cap == cap
    ensures Last(run) == Start(cap).(claim := 0, threads := map[0 := Thread(0, Owning(0, 1, Single(7)))],
                                     owner := map[0 := 0], sends := map[0 := 7])
  {
    InitialWindow(cap);
    run := StartIsRun(cap);
    run := Sends(run, 0, 0, 1, Single(7));
    assert Last(run).owner == map[0 := 0] by { assert Range(0, 1) == {0}; }
    run := Polls(run, 0, 0, 0, 1, Single(7));
    assert Last(run).threads == map[0 := Thread(0, Owning(0, 1, Single(7)))];
  }

  /** The same send completed: sequence 0 written and marked. */
  lemma {:induction false} OneSendPublished(cap: nat) returns (run: seq<State<int>>)
    requires IsPowerOfTwo(cap)
    ensures IsRun(run) && run[0].cap == cap
    ensures Last(run) == Start(cap).(slots := Start(cap).slots[0 := 7], claim := 0, avail := MarkedZero(cap),
                                     sends := map[0 := 7], wrote := map[0 := 7], published := {0})
  {
    run := OneSendOwns(cap);
    var s1, s2 := PublishSteps(cap, Last(run));
    run := Extend(run, s1, Produce(Write(0, 0, 7)));
    run := Extend(run, s2, Produce(Flush(0, 1)));
  }

  lemma {:induction false} PublishSteps(cap: nat, s: State<int>) returns (s1: State<int>, s2: State<int>)
    requires cap > 0
    requires s == Start(cap).(claim := 0, threads := map[0 := Thread(0, Owning(0, 1, Single(7)))],
                              owner := map[0 := 0], sends := map[0 := 7])
    ensures NextStep(s, s1, Produce(Write(0, 0, 7))) && NextStep(s1, s2, Produce(Flush(0, 1)))
    ensures s2 == Start(cap).(slots := Start(cap).slots[0 := 7], claim := 0, avail := MarkedZero(cap),
                              sends := map[0 := 7], wrote := map[0 := 7], published := {0})
  {
    InitialWindow(cap);
    DivModUnique(0, cap, 0, 0);
    s1 := s.(slots := s.slots[0 := 7], wrote := map[0 := 7], threads := map[0 := Thread(0, Publishing(0, 1))]);
    assert NextStep(s, s1, Produce(Write(0, 0, 7)));
    s2 := s1.(avail := MarkedZero(cap), threads := map[], owner := map[], published := {0});
    FlushZero(cap, s1, s2);
  }

  lemma {:induction false} FlushZero(cap: nat, s1: State<int>, s2: State<int>)
    requires Shape(s1) && s1.cap == cap && s1.avail == InitialAvailability(cap) && s1.owner == map[0 := 0]
             && s1.published == {}
    requires s1.threads == map[0 := Thread(0, Publishing(0, 1))]
    requires s2 == s1.(avail := MarkedZero(cap), threads := map[], owner := map[], published := {0})
    ensures NextStep(s1, s2, Produce(Flush(0, 1)))
  {
    assert Range(0, 1) == {0};
    RunMaskOfOne(0);
    assert Return(s1, 0) == map[];
  }

  lemma {:induction false} RunMaskOfOne(s: nat)
    ensures RunMask(s, 1) == Pow2(BitIndex(s))
  {
    OrZero(Pow2(BitIndex(s)));
  }

  function MarkedZero(cap: nat): (avail: seq<nat>)
    requires cap > 0
  {
    Mark(InitialAvailability(cap), cap, 0)
  }

  lemma {:induction false} InitialTest(cap: nat, s: nat)
    requires cap > 0
    ensures IsPublished(InitialAvailability(cap), cap, s) == OddRound(cap, s)
  {
    OnesBit(BITS_PER_WORD, BitIndex(s));
  }

  lemma {:induction false} MarkedTest(cap: nat, s: nat, t: nat)
    requires 0 < cap < BITS_PER_WORD && s < BITS_PER_WORD && t < BITS_PER_WORD
    ensures IsPublished(Mark(InitialAvailability(cap), cap, s), cap, t) == (OddRound(cap, t) != (s == t))
  {
    InitialTest(cap, t);
    MarkedTestOf(InitialAvailability(cap), cap, s, t);
  }

  /** A ring smaller than a word has one word, and its bits are the sequences themselves. */
  lemma {:induction false} MarkedTestOf(avail: seq<nat>, cap: nat, s: nat, t: nat)
    requires 0 < cap < BITS_PER_WORD && s < BITS_PER_WORD && t < BITS_PER_WORD && |avail| == WordCount(cap)
    ensures IsPublished(Mark(avail, cap, s), cap, t) == (IsPublished(avail, cap, t) != (s == t))
  {
    MarkFlipsBit(avail, cap, s, t);
    OneWordPosition(cap, s);
    OneWordPosition(cap, t);
  }

  lemma {:induction false} OneWordPosition(cap: nat, s: nat)
    requires 0 < cap < BITS_PER_WORD && s < BITS_PER_WORD
    ensures WordIndex(cap, s) == 0 && BitIndex(s) == s
  {
  }

  lemma {:induction false} MarkedZeroBits(cap: nat)
    requires 0 < cap < BITS_PER_WORD
    ensures WellFormed(MarkedZero(cap), cap)
    ensures IsPublished(MarkedZero(cap), cap, 0)
    ensures IsPublished(MarkedZero(cap), cap, cap)
  {
    InitialWindow(cap);
    MarkWellFormed(InitialAvailability(cap), cap, 0);
    MarkedTest(cap, 0, 0);
    MarkedTest(cap, 0, cap);
    DivModUnique(cap, cap, 1, 0);
    DivModUnique(0, cap, 0, 0);
  }

  lemma {:induction false} OneSendTested(cap: nat) returns (run: seq<State<int>>)
    requires IsPowerOfTwo(cap) && cap < BITS_PER_WORD
    ensures IsRun(run) && run[0].cap == cap
    ensures Last(run) == Start(cap).(slots := Start(cap).slots[0 := 7], claim := 0, avail := MarkedZero(cap),
                                     sends := map[0 := 7], wrote := map[0 := 7], published := {0},
                                     consumer := Reading(1, []))
  {
    MarkedZeroBits(cap);
    run := OneSendPublished(cap);
    var s5 := Last(run);
    var s6 := s5.(consumer := Testing(true));
    run := Extend(run, s6, Consume(Recv(true)));
    run := Extend(run, s6.(consumer := Reading(1, [])), Consume(TestBit));
  }

  lemma {:induction false} OneSendReceived(cap: nat) returns (run: seq<State<int>>)
    requires IsPowerOfTwo(cap) && cap < BITS_PER_WORD
    ensures IsRun(run) && run[0].cap == cap
    ensures var s := Last(run);
            s.cap == cap && |s.slots| == cap && s.avail == MarkedZero(cap) && s.claim == 0 && s.consumed == 0
                && s.published == {0}
  {
    MarkedZeroBits(cap);
    run := OneSendTested(cap);
    run := FinishesRead(run);
  }

  /** With fewer than 64 slots, one send and one receive lead to a state where an unclaimed sequence of
    * the window tests as published.
    */
  lemma {:induction false} SmallCapacityMisreads(cap: nat) returns (run: seq<State<int>>)
    requires IsPowerOfTwo(cap) && cap < BITS_PER_WORD
    ensures IsRun(run) && run[0].cap == cap
    ensures var s := Last(run);
            Shape(s) && s.cap == cap && s.claim < cap && s.consumed < cap <= s.consumed + cap
            && IsPublished(s.avail, cap, cap) && cap !in s.published
  {
    MarkedZeroBits(cap);
    run := OneSendReceived(cap);
  }

  /** The parity test is right in every reachable state exactly for capacities of at least one word. */
  lemma {:induction false} ParityExact(cap: nat)
    requires IsPowerOfTwo(cap)
    ensures (forall run: seq<State<int>> :: IsRun(run) && run[0].cap == cap ==> ParityRight(Last(run)))
       <==> cap >= BITS_PER_WORD
  {
    if cap >= BITS_PER_WORD {
      forall run: seq<State<int>> | IsRun(run) && run[0].cap == cap
        ensures ParityRight(Last(run))
      {
        RunInv(run, |run| - 1);
      }
    } else {
      var run := SmallCapacityMisreads(cap);
      assert !ParityRight(Last(run));
    }
  }

  // ------------------------------------------------------------ close() while a send is blocked

  /** A batch as large as the ring is claimed. */
  lemma {:induction false} FullRingClaimed(cap: nat) returns (run: seq<State<int>>)
    requires IsPowerOfTwo(cap) && cap >= BITS_PER_WORD
    ensures IsRun(run) && run[0].cap == cap
    ensures Last(run) == Start(cap).(claim := cap - 1, threads := map[0 := Thread(0, Waiting(0, cap, Batch))],
                                     owner := Claimed(map[], 0, cap, 0))
  {
    InitialWindow(cap);
    run := StartIsRun(cap);
    run := Sends(run, 0, 0, cap, Batch);
    assert Last(run).threads == map[0 := Thread(0, Waiting(0, cap, Batch))];
  }

  /** It finds space and is about to be published. */
  lemma {:induction false} FullRing(cap: nat) returns (run: seq<State<int>>)
    requires IsPowerOfTwo(cap) && cap >= BITS_PER_WORD
    ensures IsRun(run) && run[0].cap == cap
    ensures Last(run) == Start(cap).(claim := cap - 1, threads := map[0 := Thread(0, Publishing(0, cap))],
                                     owner := Claimed(map[], 0, cap, 0))
  {
    InitialWindow(cap);
    run := FullRingClaimed(cap);
    run := Polls(run, 0, 0, 0, cap, Batch);
    assert Last(run).threads == map[0 := Thread(0, Owning(0, cap, Batch))];
    run := StartsPublishing(run, 0, 0, 0, cap);
    assert Last(run).threads == map[0 := Thread(0, Publishing(0, cap))];
  }

  predicate Filled(s: State<int>)
  {
    && s.cap == BITS_PER_WORD && s.claim == s.cap - 1 && s.next == 0 && s.threads == map[] && s.handles == {0}
    && !s.closed && s.consumer == Ready && s.published == Range(0, s.cap) && s.abandoned == {}
  }

  /** In a one-word ring a single XOR publishes the whole batch. */
  lemma {:induction false} FullRingPublished(cap: nat) returns (run: seq<State<int>>)
    requires IsPowerOfTwo(cap) && cap == BITS_PER_WORD
    ensures IsRun(run) && run[0].cap == cap && Filled(Last(run))
  {
    run := FullRing(cap);
    var s := FlushWhole(cap, Last(run));
    run := Extend(run, s, Produce(Flush(0, cap)));
  }

  lemma {:induction false} FlushWhole(cap: nat, s: State<int>) returns (s1: State<int>)
    requires cap == BITS_PER_WORD
    requires s == Start(cap).(claim := cap - 1, threads := map[0 := Thread(0, Publishing(0, cap))],
             owner := Claimed(map[], 0, cap, 0))
    ensures NextStep(s, s1, Produce(Flush(0, cap))) && Filled(s1)
  {
    InitialWindow(cap);
    FirstWord(cap);
    s1 := FlushAll(s, cap);
  }

  lemma {:induction false} FirstWord(cap: nat)
    requires cap == BITS_PER_WORD
    ensures OneWord(cap, 0, cap)
  {
  }

  lemma {:induction false} FlushAll(s: State<int>, n: nat) returns (s1: State<int>)
    requires Shape(s) && n >= 1 && OneWord(s.cap, 0, n) && s.threads == map[0 := Thread(0, Publishing(0, n))]
             && s.published == {}
    ensures NextStep(s, s1, Produce(Flush(0, n)))
    ensures s1 == s.(avail := s1.avail, threads := map[], owner := s1.owner, published := Range(0, n))
  {
    s1 := s.(avail := FetchXor(s.avail, WordIndex(s.cap, 0), RunMask(0, n)), threads := Return(s, 0),
             owner := s.owner - Range(0, n), published := s.published + Range(0, n));
    assert s1.threads == map[] && s1.published == Range(0, n);
  }

  /** A channel that is full, with two more sends waiting on sequences cap and cap + 1. */
  predicate TwoWaiting(s: State<int>)
  {
    && s.cap == BITS_PER_WORD && s.claim == s.cap + 1 && s.next == 0 && s.consumed == -1 && s.handles == {0}
    && s.threads == map[1 := Thread(0, Waiting(s.cap, 1, Single(7))), 2 := Thread(0, Waiting(s.cap + 1, 1, Single(8)))]
    && s.consumer == Ready && s.published == Range(0, s.cap)
    && s.cap + 1 in s.sends && s.sends[s.cap + 1] == 8
  }

  lemma {:induction false} TwoSendsWait(cap: nat) returns (run: seq<State<int>>)
    requires IsPowerOfTwo(cap) && cap == BITS_PER_WORD
    ensures IsRun(run) && run[0].cap == cap && TwoWaiting(Last(run))
  {
    run := FullRingPublished(cap);
    LastShape(run);
    run := Sends(run, 1, 0, 1, Single(7));
    run := Sends(run, 2, 0, 1, Single(8));
  }

  /** close() is called, and the first waiting send gives up its sequence. */
  predicate OneGaveUp(s: State<int>)
  {
    && s.cap == BITS_PER_WORD && s.next == 0 && s.consumer == Ready
    && s.threads == map[2 := Thread(0, Waiting(s.cap + 1, 1, Single(8)))]
    && s.published == Range(0, s.cap) && s.cap in s.abandoned
    && s.cap + 1 in s.sends && s.sends[s.cap + 1] == 8
  }

  lemma {:induction false} FirstGivesUp(cap: nat) returns (run: seq<State<int>>)
    requires IsPowerOfTwo(cap) && cap == BITS_PER_WORD
    ensures IsRun(run) && run[0].cap == cap && OneGaveUp(Last(run))
  {
    run := TwoSendsWait(cap);
    LastShape(run);
    run := FirstBlocks(run);
    run := Closes(run);
    LastShape(run);
    var s := Last(run);
    run := GivesUp(run, 1, 0, s.cap, Single(7));
    GaveUp(s);
  }

  /** The first of the two is blocked. */
  predicate OneBlocked(s: State<int>)
  {
    && s.cap == BITS_PER_WORD && s.next == 0 && s.consumer == Ready && s.published == Range(0, s.cap)
    && s.threads == map[1 := Thread(0, Blocked(s.cap, 1, Single(7))), 2 := Thread(0, Waiting(s.cap + 1, 1, Single(8)))]
    && s.cap + 1 in s.sends && s.sends[s.cap + 1] == 8
  }

  lemma {:induction false} FirstBlocks(run: seq<State<int>>) returns (longer: seq<State<int>>)
    requires IsRun(run) && Shape(Last(run)) && TwoWaiting(Last(run))
    ensures IsRun(longer) && longer[0] == run[0] && Shape(Last(longer)) && OneBlocked(Last(longer))
  {
    longer := Polls(run, 1, 0, Last(run).cap, 1, Single(7));
    Blocks(Last(run));
  }

  lemma {:induction false} Blocks(s: State<int>)
    requires TwoWaiting(s)
    ensures OneBlocked(AfterPoll(s, 1, 0, s.cap, 1, Single(7)))
  {
    PutFirst(Thread(0, Waiting(s.cap, 1, Single(7))), Thread(0, Waiting(s.cap + 1, 1, Single(8))),
        Thread(0, Blocked(s.cap, 1, Single(7))));
  }

  lemma {:induction false} GaveUp(s: State<int>)
    requires OneBlocked(s)
    ensures OneGaveUp(AfterGiveUp(s, 1, s.cap))
  {
    assert s.cap in Range(s.cap, 1);
    DropFirst(Thread(0, Blocked(s.cap, 1, Single(7))), Thread(0, Waiting(s.cap + 1, 1, Single(8))));
  }

  /** The second send then finds space, because the consumer made some, and completes. */
  lemma {:induction false} SecondCompletes(run: seq<State<int>>) returns (longer: seq<State<int>>)
    requires IsRun(run) && Shape(Last(run)) && Last(run).cap == BITS_PER_WORD
    requires Last(run).threads == map[2 := Thread(0, Waiting(Last(run).cap + 1, 1, Single(8)))]
    requires Last(run).consumed == 1
    ensures IsRun(longer) && longer[0] == run[0]
    ensures var s, s' := Last(run), Last(longer);
            s'.abandoned == s.abandoned && s'.sends == s.sends && s.cap + 1 in s'.published && s'.threads == map[]
  {
    var q := Last(run).cap + 1;
    longer := Polls(run, 2, 0, q, 1, Single(8));
    longer := Writes(longer, 2, 0, q, 8);
    longer := Flushes(longer, 2, 0, q);
    assert Last(longer).threads == map[];
  }

  /** An explicit close() can lose an event whose send succeeded: here sequence 64 was given up, the send
    * of 8 at sequence 65 completed, and no continuation of the run ever receives it.
    */
  lemma {:induction false} CloseLosesEvent() returns (run: seq<State<int>>)
    ensures IsRun(run) && run[0].cap == 64
    ensures 65 in Last(run).published && 65 in Last(run).sends && Last(run).sends[65] == 8 && Last(run).threads == map[]
    ensures forall longer: seq<State<int>> :: run <= longer && IsRun(longer) ==> |Last(longer).received| <= 64
  {
    var cap: nat := BITS_PER_WORD;
    Pow2PassesTest(6);
    assert Pow2(6) == 64;
    run := LosingRun(cap);
    forall longer: seq<State<int>> | run <= longer && IsRun(longer)
      ensures |Last(longer).received| <= 64
    {
      assert longer[|run| - 1] == Last(run);
      AbandonedBlocksForever(longer, |run| - 1, |longer| - 1, 64);
    }
  }

  /** Two events are received, which makes room for sequence 65. */
  lemma {:induction false} TwoReceived(run: seq<State<int>>) returns (longer: seq<State<int>>)
    requires IsRun(run) && run[0].cap == BITS_PER_WORD && OneGaveUp(Last(run))
    ensures IsRun(longer) && longer[0] == run[0] && Shape(Last(longer)) && Last(longer).consumed == 1
    ensures var s, s' := Last(run), Last(longer);
            s'.cap == s.cap && s'.threads == s.threads && s'.abandoned == s.abandoned && s'.sends == s.sends
  {
    longer := RecvOne(run, true);
    longer := RecvOne(longer, true);
    LastShape(longer);
  }

  lemma {:induction false} LosingRun(cap: nat) returns (run: seq<State<int>>)
    requires IsPowerOfTwo(cap) && cap == BITS_PER_WORD
    ensures IsRun(run) && run[0].cap == cap && Last(run).threads == map[]
    ensures cap in Last(run).abandoned && cap + 1 in Last(run).published
    ensures cap + 1 in Last(run).sends && Last(run).sends[cap + 1] == 8
  {
    run := FirstGivesUp(cap);
    run := TwoReceived(run);
    run := SecondCompletes(run);
  }
}
