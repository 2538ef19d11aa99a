/** What a batch receive finds while producers go on publishing: no less than what was published when it began. */
module MpscScan {
  import opened Bits
  import opened MpscBitmap
  import opened Mpsc

  ghost predicate SameConsumer<T>(s: State<T>, s': State<T>) { s'.consumer == s.consumer && s'.next == s.next }

  lemma {:induction false} ClaimingLeavesConsumer<T>(s: State<T>, s': State<T>, step: ProducerAct<T>)
    requires ProducerStep(s, s', step) && (step.Begin? || step.FetchAdd? || step.PollSpace? || step.PollClosed?)
    ensures SameConsumer(s, s')
  {
  }

  lemma {:induction false} TryingLeavesConsumer<T>(s: State<T>, s': State<T>, step: ProducerAct<T>)
    requires ProducerStep(s, s', step) && (step.LoadClaim? || step.LoadConsumer?)
    ensures SameConsumer(s, s')
  {
  }

  lemma {:induction false} CasLeavesConsumer<T>(s: State<T>, s': State<T>, t: Tid)
    requires DoCas(s, s', t)
    ensures SameConsumer(s, s')
  {
    if s.claim != s.threads[t].pc.current {
      assert s' == s.(threads := s'.threads);
    }
  }

  lemma {:induction false} PublishingLeavesConsumer<T>(s: State<T>, s': State<T>, step: ProducerAct<T>)
    requires ProducerStep(s, s', step) && (step.Write? || step.StartPublish? || step.Flush?)
    ensures SameConsumer(s, s')
  {
  }

  lemma {:induction false} ProducerLeavesConsumer<T>(s: State<T>, s': State<T>, p: ProducerAct<T>)
    requires ProducerStep(s, s', p)
    ensures SameConsumer(s, s')
  {
    if p.Begin? || p.FetchAdd? || p.PollSpace? || p.PollClosed? {
      ClaimingLeavesConsumer(s, s', p);
    } else if p.LoadClaim? || p.LoadConsumer? {
      TryingLeavesConsumer(s, s', p);
    } else if p.Cas? {
      CasLeavesConsumer(s, s', p.t);
    } else {
      PublishingLeavesConsumer(s, s', p);
    }
  }

  lemma {:induction false} HandleLeavesConsumer<T>(s: State<T>, s': State<T>, h: HandleAct)
    requires HandleStep(s, s', h)
    ensures SameConsumer(s, s')
  {
    match h
    case Clone(_, _) => assert s' == s.(handles := s'.handles, producerCount := s'.producerCount);
    case Drop(_) => assert s' == s.(handles := s'.handles, producerCount := s'.producerCount, closing := s'.closing);
    case CloseLast =>
    case CloseCall =>
  }

  /** What a step that moves the consumer into or through a scan does to it. */
  ghost predicate ScanMove<T>(s: State<T>, s': State<T>)
  {
    && s'.consumer.Scanning? && s'.next == s.next
    && (s.consumer.Ready? ==> s'.consumer == Scanning(s.claim, s.next, s'.consumer.limit))
    && (s.consumer.Scanning? ==>
          s'.consumer.claimSeen == s.consumer.claimSeen && s'.consumer.limit == s.consumer.limit)
  }

  lemma {:induction false} TestBeginsScan<T>(s: State<T>, s': State<T>, c: ConsumerAct, seen: bool)
    requires AfterTest(s, s', c, seen) && s'.consumer.Scanning?
    ensures s.consumer.Ready? && ScanMove(s, s')
  {
  }

  lemma {:induction false} ConsumerScans<T>(s: State<T>, s': State<T>, c: ConsumerAct)
    requires Shape(s) && ConsumerStep(s, s', c) && (s.consumer.Ready? || s.consumer.Scanning?) && s'.consumer.Scanning?
    ensures ScanMove(s, s')
  {
    if c.ScanLoad? {
      ScanFrame(s, s');
    } else if !c.ReadSlot? && !c.SetCursor? {
      TestBeginsScan(s, s', c, IsPublished(s.avail, s.cap, s.next));
    }
  }

  lemma {:induction false} ScanStep<T>(s: State<T>, s': State<T>, step: Step<T>)
    requires NextStep(s, s', step) && (s.consumer.Ready? || s.consumer.Scanning?) && s'.consumer.Scanning?
    ensures ScanMove(s, s')
  {
    match step
    case Produce(p) => ProducerLeavesConsumer(s, s', p);
    case Manage(h) => HandleLeavesConsumer(s, s', h);
    case Consume(c) => ConsumerScans(s, s', c);
  }

  lemma {:induction false} ScanNext<T(!new)>(s: State<T>, s': State<T>)
    requires Next(s, s') && (s.consumer.Ready? || s.consumer.Scanning?) && s'.consumer.Scanning?
    ensures ScanMove(s, s')
  {
    var step :| NextStep(s, s', step);
    ScanStep(s, s', step);
  }

  /** Only a word load moves the consumer out of a scan. */
  lemma {:induction false} ScanEnds<T>(s: State<T>, s': State<T>, step: Step<T>)
    requires NextStep(s, s', step) && s.consumer.Scanning? && !s'.consumer.Scanning?
    ensures DoScanLoad(s, s')
  {
    match step
    case Produce(p) => ProducerLeavesConsumer(s, s', p);
    case Manage(h) => HandleLeavesConsumer(s, s', h);
    case Consume(c) => ConsumerLoads(s, s', c);
  }

  lemma {:induction false} ConsumerLoads<T>(s: State<T>, s': State<T>, c: ConsumerAct)
    requires Shape(s) && ConsumerStep(s, s', c) && s.consumer.Scanning?
    ensures DoScanLoad(s, s')
  {
    var seen := IsPublished(s.avail, s.cap, s.next);
    NoTestInScan(s, s', c, seen);
  }

  lemma {:induction false} NoTestInScan<T>(s: State<T>, s': State<T>, c: ConsumerAct, seen: bool)
    requires s.consumer.Scanning?
    ensures !AfterTest(s, s', c, seen)
  {
  }

  /** The last load of a scan: it stops no earlier than the end of any published run from `next`. */
  lemma {:induction false} ScanStops<T(!new)>(s: State<T>, s': State<T>, f: int)
    requires Inv(s) && Next(s, s') && s.consumer.Scanning? && !s'.consumer.Scanning?
    requires s.next < f <= s.consumer.claimSeen + 1 && forall q: int :: s.next <= q < f ==> q in s.published
    ensures s.consumer.limit > 0 ==>
              && s'.consumer.Reading? && s'.consumer.count <= s.consumer.limit
              && s'.consumer.count >= if s.consumer.limit < f - s.next then s.consumer.limit else f - s.next
  {
    var step :| NextStep(s, s', step);
    ScanEnds(s, s', step);
    var at := s.consumer.at;
    var first := FirstMismatch(s.avail[WordIndex(s.cap, at)], ExpectedPattern(s.cap, at), BitIndex(at));
    LoadedRun(s.avail, s.cap, s.next, s.published, at, first);
    FoundReads(s, s', at, first, f);
  }

  lemma {:induction false} FoundReads<T>(s: State<T>, s': State<T>, at: nat, first: nat, f: int)
    requires Shape(s) && DoScanLoad(s, s') && !s'.consumer.Scanning? && at == s.consumer.at && s.next <= at
    requires first == FirstMismatch(s.avail[WordIndex(s.cap, at)], ExpectedPattern(s.cap, at), BitIndex(at))
    requires BitIndex(at) <= first
    requires first < BITS_PER_WORD ==> at + (first - BitIndex(at)) !in s.published
    requires s.next < f <= s.consumer.claimSeen + 1 && forall q: int :: s.next <= q < f ==> q in s.published
    ensures s.consumer.limit > 0 ==>
              && s'.consumer.Reading? && s'.consumer.count <= s.consumer.limit
              && s'.consumer.count >= if s.consumer.limit < f - s.next then s.consumer.limit else f - s.next
  {
    var e := at + (first - BitIndex(at));
    assert first < BITS_PER_WORD ==> e >= f;
  }

  /** Steps i to j are one scan: it begins with step i and ends with step j. */
  ghost predicate ScanFrom<T>(run: seq<State<T>>, i: nat, j: nat)
  {
    && i < j && j + 1 < |run| && run[i].consumer.Ready? && !run[j + 1].consumer.Scanning?
    && forall k :: i < k <= j ==> run[k].consumer.Scanning?
  }

  lemma {:induction false} ScanMoves<T(!new)>(run: seq<State<T>>, i: nat, j: nat)
    requires IsRun(run) && ScanFrom(run, i, j)
    ensures forall m :: i <= m < j ==> ScanMove(run[m], run[m + 1])
  {
    forall m | i <= m < j ensures ScanMove(run[m], run[m + 1]) {
      ScanNext(run[m], run[m + 1]);
    }
  }

  lemma {:induction false} ScanKeepsStart<T>(run: seq<State<T>>, i: nat, j: nat, k: nat)
    requires ScanFrom(run, i, j) && i < k <= j && forall m :: i <= m < j ==> ScanMove(run[m], run[m + 1])
    ensures run[k].consumer.claimSeen == run[i].claim && run[k].next == run[i].next
    ensures run[k].consumer.limit == run[i + 1].consumer.limit
  {
    var m := k - 1;
    assert ScanMove(run[m], run[m + 1]);
    if m > i {
      ScanKeepsStart(run, i, j, m);
    }
  }

  /** Main theorem. Whatever producers publish between its word loads, a batch receive takes at least the run of
    * events that was published when it loaded the claim cursor, up to its own limit.
    */
  lemma {:induction false} ScanReturnsWholeRun<T(!new)>(run: seq<State<T>>, i: nat, j: nat, f: int)
    requires IsRun(run) && run[0].cap >= BITS_PER_WORD && ScanFrom(run, i, j)
    requires run[i].next < f && forall q: int :: run[i].next <= q < f ==> q in run[i].published
    ensures var limit := run[i + 1].consumer.limit;
            limit > 0 ==>
              && run[j + 1].consumer.Reading? && run[j + 1].consumer.count <= limit
              && run[j + 1].consumer.count >= if limit < f - run[i].next then limit else f - run[i].next
  {
    ScanMoves(run, i, j);
    ScanKeepsStart(run, i, j, j);
    RunGrows(run, i, j);
    RunInv(run, i);
    RunInv(run, j);
    assert f - 1 in run[i].published;
    assert Next(run[j], run[j + 1]);
    ScanStops(run[j], run[j + 1], f);
  }
}
