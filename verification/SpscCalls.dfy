/** What the calls on a single-producer channel come to: when each of them returns and with what, and that a call that
  * can go through does so when it is left to run on its own.
  */
module SpscCalls {
  import opened Common
  import opened RingBuffer
  import opened Spsc

  // ------------------------------------------------------------ what the two cursors tell

  /** The cursors are the lengths of the histories, so their difference is the length of the queue. */
  lemma {:induction false} CursorsCount<T>(s: State<T>, n: nat)
    requires Inv(s)
    ensures |s.received| <= |s.published| && s.consumerCursor + 1 == |s.received|
    ensures s.producerCursor - NextRead(s) + 1 == |Contents(s)|
    ensures Fits(s, n, s.consumerCursor) <==> |Contents(s)| + n <= s.cap
  {
  }

  function Least(a: nat, b: nat): (least: nat)
    ensures least <= a && least <= b && (least == a || least == b)
  {
    if a < b then a else b
  }

  /** In every reachable state a load of the producer cursor goes on to copy exactly when the queue holds something, and
    * then as much of it as was asked for; the second look after `closed` goes back exactly when the queue holds
    * something.
    */
  lemma {:induction false} LoadExact<T(!new)>(run: seq<State<T>>, i: nat, s': State<T>)
    requires IsRun(run) && i < |run|
    ensures |run[i].received| <= |run[i].published|
    ensures var s := run[i]; var queue := Contents(s);
            && (NextStep(s, s', Consume(Load)) ==>
                  && (s'.consumer.Checking? <==> queue == [])
                  && (s'.consumer.Copying? <==> queue != [])
                  && (queue != [] ==> s'.consumer.out == [] && s'.consumer.count == Least(s.consumer.limit, |queue|)))
            && (NextStep(s, s', Consume(Recheck)) ==>
                  && (s'.consumer.Ready? <==> queue == []) && (s'.consumer.Loading? <==> queue != []))
  {
    RunInv(run, i);
    CursorsCount(run[i], 0);
  }

  /** In every reachable state a producer that loads the consumer cursor goes on to write exactly when the queue has
    * `n` places left; otherwise it waits if and only if it may, and from then on it knows how much was received. One
    * that finds room without a load is right, and it does find it unless the queue would be full but for what was
    * received since its last load.
    */
  lemma {:induction false} RoomExact<T(!new)>(run: seq<State<T>>, i: nat, s': State<T>)
    requires IsRun(run) && i < |run|
    ensures |run[i].received| <= |run[i].published|
    ensures var s := run[i]; var queue := Contents(s);
            && (NextStep(s, s', Produce(Reload)) ==>
                  && (s'.producer.Filling? <==> |queue| + s.producer.n <= s.cap)
                  && (s'.producer.Retrying? <==> |queue| + s.producer.n > s.cap && s.producer.mode.Blocking?)
                  && (s'.producer.Idle? <==> |queue| + s.producer.n > s.cap && !s.producer.mode.Blocking?)
                  && s'.cached + 1 == |s.received|)
            && (NextStep(s, s', Produce(Decide)) ==>
                  && (s'.producer.Filling? ==> |queue| + s.producer.n <= s.cap)
                  && (s'.producer.Filling? <==>
                        !s.producer.mode.TryBatch? && |s.published| + s.producer.n <= s.cached + 1 + s.cap))
  {
    RunInv(run, i);
    CursorsCount(run[i], if run[i].producer.Idle? then 0 else run[i].producer.n);
  }

  // ------------------------------------------------------------ why calls return

  /** A producer call comes back only with its events published, on a closed channel, or, when it does not wait, on a
    * queue without room for it; and it begins unless the channel is closed.
    */
  lemma {:induction false} SendReturnsBecause<T(!new)>(run: seq<State<T>>, i: nat, s': State<T>, act: ProducerAct<T>)
    requires IsRun(run) && i < |run| && NextStep(run[i], s', Produce(act))
    ensures |run[i].received| <= |run[i].published|
    ensures act.Begin? ==> (s'.producer.Idle? <==> run[i].closed)
    ensures !run[i].producer.Idle? && s'.producer.Idle? ==>
              match run[i].producer
              case Filled(n, _) => |s'.published| == |run[i].published| + n
              case Retrying(_, _) => run[i].closed
              case Reloading(n, _, mode) => !mode.Blocking? && |Contents(run[i])| + n > run[i].cap
              case _ => false
  {
    RunInv(run, i);
    if act.Reload? { RoomExact(run, i, s'); }
  }

  /** A waiting producer gives up exactly when it sees the channel closed. */
  lemma {:induction false} RetryExact<T>(s: State<T>, s': State<T>)
    requires NextStep(s, s', Produce(Retry))
    ensures s'.producer.Idle? <==> s.closed
    ensures s'.producer.Reloading? <==> !s.closed
  {
  }

  /** A receive comes back only with the events at the front of the queue, without waiting, or on a closed channel with
    * nothing left in the queue; waiting, it looks again unless the channel is closed.
    */
  lemma {:induction false} RecvReturnsBecause<T(!new)>(run: seq<State<T>>, i: nat, s': State<T>, act: ConsumerAct)
    requires IsRun(run) && i < |run| && NextStep(run[i], s', Consume(act))
    ensures |run[i].received| <= |run[i].published|
    ensures !run[i].consumer.Ready? && s'.consumer.Ready? ==>
              match run[i].consumer
              case Copying(count, out) => |out| == count >= 1 && out <= Contents(run[i])
                                          && s'.received == run[i].received + out
              case Checking(_, blocking) => !blocking
              case Rechecking(_) => run[i].closed && Contents(run[i]) == []
              case _ => false
    ensures act.Check? && run[i].consumer.blocking ==>
              && (s'.consumer.Rechecking? <==> run[i].closed) && (s'.consumer.Loading? <==> !run[i].closed)
  {
    RunInv(run, i);
    CursorsCount(run[i], 0);
  }

  // ------------------------------------------------------------ steps put together

  lemma {:induction false} Extend<T(!new)>(run: seq<State<T>>, s': State<T>, step: Step<T>)
      returns (longer: seq<State<T>>)
    requires IsRun(run) && NextStep(Last(run), s', step)
    ensures IsRun(longer) && run <= longer && Last(longer) == s'
  {
    longer := run + [s'];
    forall i | 0 <= i < |longer| - 1
      ensures Next(longer[i], longer[i + 1])
    {
      if i < |run| - 1 { assert Next(run[i], run[i + 1]); }
    }
  }

  /** Which calls there are: one event or one slot, or a batch that waits or loads the cursor at once. */
  predicate IsCall<T>(n: nat, what: Payload<T>, mode: Mode)
  {
    (!what.Slots? ==> n == 1) && (mode.TryBatch? ==> what.Slots?) && (what.Slots? ==> !mode.Try?)
  }

  lemma {:induction false} Grants<T(!new)>(run: seq<State<T>>, n: nat, what: Payload<T>, mode: Mode)
      returns (longer: seq<State<T>>, cached: int)
    requires IsRun(run) && Inv(Last(run)) && 1 <= n && IsCall(n, what, mode)
    requires Last(run).producer.Idle? && !Last(run).producerGone && !Last(run).closed
    requires |Contents(Last(run))| + n <= Last(run).cap
    ensures IsRun(longer) && run <= longer
    ensures Last(longer) == Last(run).(producer := Filling(n, what), cached := cached)
  {
    var s := Last(run);
    CursorsCount(s, n);
    longer := Extend(run, s.(producer := Deciding(n, what, mode)), Produce(Begin(n, what, mode)));
    if !mode.TryBatch? && Fits(s, n, s.cached) {
      cached := s.cached;
      longer := Extend(longer, s.(producer := Filling(n, what)), Produce(Decide));
    } else {
      cached := s.consumerCursor;
      longer := Extend(longer, s.(producer := Reloading(n, what, mode)), Produce(Decide));
      longer := Extend(longer, s.(producer := Filling(n, what), cached := cached), Produce(Reload));
    }
  }

  /** The slots of sequences start .. start + k hold the first `k` values. */
  ghost predicate Holds<T>(slots: seq<T>, cap: nat, start: nat, vs: seq<T>, k: nat)
    requires cap > 0 && |slots| == cap && k <= |vs|
  {
    forall j: nat :: j < k ==> HoldsAt(slots, cap, start, vs, j)
  }

  ghost predicate HoldsAt<T>(slots: seq<T>, cap: nat, start: nat, vs: seq<T>, j: nat)
    requires cap > 0 && |slots| == cap && j < |vs|
  {
    slots[(start + j) % cap] == vs[j]
  }

  lemma {:induction false} HoldsOneMore<T>(slots: seq<T>, cap: nat, start: nat, vs: seq<T>, k: nat)
    requires 0 < cap == |slots| && k < |vs| <= cap && Holds(slots, cap, start, vs, k)
    ensures Holds(slots[(start + k) % cap := vs[k]], cap, start, vs, k + 1)
  {
    var more := slots[(start + k) % cap := vs[k]];
    forall j: nat | j < k + 1
      ensures HoldsAt(more, cap, start, vs, j)
    {
      if j < k { HoldsStill(slots, cap, start, vs, j, k, start + j, start + k); }
    }
  }

  lemma {:induction false} HoldsStill<T>(slots: seq<T>, cap: nat, start: nat, vs: seq<T>, j: nat, k: nat, p: nat,
      q: nat)
    requires 0 < cap == |slots| && j < k < |vs| <= cap && p == start + j && q == start + k
    requires HoldsAt(slots, cap, start, vs, j)
    ensures HoldsAt(slots[q % cap := vs[k]], cap, start, vs, j)
  {
    SlotsDistinct(cap, p, q);
  }

  lemma {:induction false} HoldsAll<T>(slots: seq<T>, cap: nat, start: nat, vs: seq<T>)
    requires 0 < cap == |slots| && Holds(slots, cap, start, vs, |vs|)
    ensures Ring(slots, cap, start, |vs|) == vs
  {
    var r := Ring(slots, cap, start, |vs|);
    forall j: nat | j < |vs|
      ensures r[j] == vs[j]
    {
      assert HoldsAt(slots, cap, start, vs, j);
    }
  }

  /** The caller writes `vs` from the k-th value on into the slots it was granted. */
  lemma {:induction false} WritesAll<T(!new)>(run: seq<State<T>>, vs: seq<T>, k: nat)
      returns (longer: seq<State<T>>, slots: seq<T>)
    requires IsRun(run) && Shape(Last(run)) && k <= |vs| <= Last(run).cap
    requires Last(run).producer.Filling? && Last(run).producer.n == |vs| && !Last(run).producer.what.Event?
    requires Holds(Last(run).slots, Last(run).cap, Start(Last(run)), vs, k)
    ensures IsRun(longer) && run <= longer && Last(longer) == Last(run).(slots := slots)
    ensures |slots| == Last(run).cap && Holds(slots, Last(run).cap, Start(Last(run)), vs, |vs|)
    decreases |vs| - k
  {
    var s := Last(run);
    if k == |vs| {
      longer, slots := run, s.slots;
    } else {
      HoldsOneMore(s.slots, s.cap, Start(s), vs, k);
      var more := s.slots[(Start(s) + k) % s.cap := vs[k]];
      longer := Extend(run, s.(slots := more), Produce(Write(k, vs[k])));
      longer, slots := WritesAll(longer, vs, k + 1);
    }
  }

  /** Writing into the granted slots, up to the point where the cursor is set. */
  lemma {:induction false} Fills<T(!new)>(run: seq<State<T>>, n: nat, what: Payload<T>, vs: seq<T>)
      returns (longer: seq<State<T>>, slots: seq<T>)
    requires IsRun(run) && Shape(Last(run)) && Last(run).producer == Filling(n, what) && |vs| == n <= Last(run).cap
    requires what.Event? ==> vs == [what.event]
    ensures IsRun(longer) && run <= longer
    ensures Last(longer) == Last(run).(slots := slots, producer := Filled(n, what))
    ensures |slots| == Last(run).cap && Holds(slots, Last(run).cap, Start(Last(run)), vs, |vs|)
  {
    var s := Last(run);
    if what.Event? {
      HoldsOneMore(s.slots, s.cap, Start(s), vs, 0);
      slots := s.slots[(Start(s) + 0) % s.cap := what.event];
      longer := Extend(run, s.(slots := slots, producer := Filled(n, what)), Produce(Write(0, what.event)));
    } else {
      longer, slots := WritesAll(run, vs, 0);
      longer := Extend(longer, s.(slots := slots, producer := Filled(n, what)), Produce(FinishFilling));
    }
  }

  /** Main theorem. From every reachable state with an open channel and room in the queue, `send`, `try_send`, `claim`
    * and the two batch claims can go through without the consumer moving, and they append the events to the queue.
    */
  lemma {:induction false} SendCompletes<T(!new)>(run: seq<State<T>>, what: Payload<T>, mode: Mode, vs: seq<T>)
      returns (longer: seq<State<T>>)
    requires IsRun(run) && Last(run).producer.Idle? && !Last(run).producerGone && !Last(run).closed
    requires 1 <= |vs| && IsCall(|vs|, what, mode) && (what.Event? ==> vs == [what.event])
    requires |Last(run).received| <= |Last(run).published| && |Contents(Last(run))| + |vs| <= Last(run).cap
    ensures IsRun(longer) && run <= longer
    ensures var s, s' := Last(run), Last(longer);
            && s'.received == s.received && s'.published == s.published + vs && Contents(s') == Contents(s) + vs
            && s'.producer.Idle? && s'.consumer == s.consumer && s'.closed == s.closed
  {
    RunInv(run, |run| - 1);
    var cached, slots, s := 0, [], Last(run);
    longer, cached := Grants(run, |vs|, what, mode);
    longer, slots := Fills(longer, |vs|, what, vs);
    HoldsAll(slots, s.cap, Start(s), vs);
    PublishStep(s.(cached := cached), what, slots, vs);
    AppendTail(s.published, vs, |s.received|);
    longer := Extend(longer, Published(s.(cached := cached), slots, vs), Produce(SetProducerCursor));
  }

  function Published<T>(s: State<T>, slots: seq<T>, vs: seq<T>): (s': State<T>)
  {
    s.(producerCursor := s.producerCursor + |vs|, published := s.published + vs, slots := slots)
  }

  lemma {:induction false} PublishStep<T>(s: State<T>, what: Payload<T>, slots: seq<T>, vs: seq<T>)
    requires Shape(s) && |slots| == s.cap && Ring(slots, s.cap, Start(s), |vs|) == vs && s.producer.Idle?
    ensures NextStep(s.(slots := slots, producer := Filled(|vs|, what)), Published(s, slots, vs),
                     Produce(SetProducerCursor))
  {
    assert DoSetProducerCursor(s.(slots := slots, producer := Filled(|vs|, what)), Published(s, slots, vs));
  }

  lemma {:induction false} AppendTail<T>(events: seq<T>, more: seq<T>, k: nat)
    requires k <= |events|
    ensures (events + more)[k..] == events[k..] + more
  {
  }

  /** On a queue without room a call that does not wait comes back, and the queue is as it was. */
  lemma {:induction false} TrySendFindsFull<T(!new)>(run: seq<State<T>>, n: nat, what: Payload<T>, mode: Mode)
      returns (longer: seq<State<T>>)
    requires IsRun(run) && Last(run).producer.Idle? && !Last(run).producerGone && !Last(run).closed
    requires 1 <= n <= Last(run).cap && IsCall(n, what, mode) && !mode.Blocking?
    requires |Last(run).received| <= |Last(run).published| && |Contents(Last(run))| + n > Last(run).cap
    ensures IsRun(longer) && run < longer && Last(longer) == Last(run).(cached := |Last(run).received| - 1)
  {
    RunInv(run, |run| - 1);
    var s := Last(run);
    CursorsCount(s, n);
    longer := Extend(run, s.(producer := Deciding(n, what, mode)), Produce(Begin(n, what, mode)));
    longer := Extend(longer, s.(producer := Reloading(n, what, mode)), Produce(Decide));
    longer := Extend(longer, s.(cached := s.consumerCursor), Produce(Reload));
  }

  // ------------------------------------------------------------ receiving

  /** The next `k` published events. */
  function Front<T>(s: State<T>, k: nat): (events: seq<T>)
    requires 0 <= NextRead(s) && NextRead(s) + k <= |s.published|
  {
    s.published[NextRead(s)..NextRead(s) + k]
  }

  /** The consumer copies the rest of the `count` slots it found. */
  lemma {:induction false} CopiesAll<T(!new)>(run: seq<State<T>>, count: nat, k: nat) returns (longer: seq<State<T>>)
    requires IsRun(run) && Shape(Last(run)) && k <= count && NextRead(Last(run)) + count <= |Last(run).published|
    requires Intact(Last(run).slots, Last(run).cap, Last(run).published, NextRead(Last(run)))
    requires Last(run).consumer == Copying(count, Front(Last(run), k))
    ensures IsRun(longer) && run <= longer
    ensures Last(longer) == Last(run).(consumer := Copying(count, Front(Last(run), count)))
    decreases count - k
  {
    var s := Last(run);
    if k == count {
      longer := run;
    } else {
      CopyStep(s, count, k, NextRead(s) + k);
      longer := Extend(run, s.(consumer := Copying(count, Front(s, k + 1))), Consume(Copy));
      longer := CopiesAll(longer, count, k + 1);
    }
  }

  lemma {:induction false} CopyStep<T>(s: State<T>, count: nat, k: nat, q: nat)
    requires Shape(s) && k < count && NextRead(s) + count <= |s.published| && q == NextRead(s) + k
    requires Intact(s.slots, s.cap, s.published, NextRead(s)) && s.consumer == Copying(count, Front(s, k))
    ensures NextStep(s, s.(consumer := Copying(count, Front(s, k + 1))), Consume(Copy))
  {
    assert s.slots[q % s.cap] == s.published[q];
    CopyOne(s.published, NextRead(s), s.consumer.out);
    assert DoCopy(s, s.(consumer := Copying(count, Front(s, k + 1))));
  }

  /** Main theorem. From every reachable state with something in the queue, `recv`, `try_recv` and the batch forms can
    * go through without the producer moving, and they return the front of the queue, up to `limit` events of it.
    */
  lemma {:induction false} RecvDelivers<T(!new)>(run: seq<State<T>>, limit: nat, blocking: bool)
      returns (longer: seq<State<T>>)
    requires IsRun(run) && Last(run).consumer.Ready? && limit >= 1
    requires |Last(run).received| < |Last(run).published|
    ensures IsRun(longer) && run <= longer
    ensures var s, s' := Last(run), Last(longer); var queue := Contents(s);
            var count := Least(limit, |queue|);
            && s'.received == s.received + queue[..count] && s'.published == s.published
            && Contents(s') == queue[count..] && s'.consumer.Ready? && s'.producerGone == s.producerGone
            && s'.producer == s.producer && s'.closed == s.closed
  {
    RunInv(run, |run| - 1);
    var s := Last(run);
    var count := Least(limit, |Contents(s)|);
    CursorsCount(s, 0);
    longer := StartsCopy(run, limit, blocking, count);
    longer := CopiesAll(longer, count, 0);
    TakeStep(s, count);
    longer := Extend(longer, Taken(s, count), Consume(SetConsumerCursor));
  }

  lemma {:induction false} StartsCopy<T(!new)>(run: seq<State<T>>, limit: nat, blocking: bool, count: nat)
      returns (longer: seq<State<T>>)
    requires IsRun(run) && Shape(Last(run)) && Last(run).consumer.Ready? && limit >= 1
    requires |Last(run).published| == Last(run).producerCursor + 1 && NextRead(Last(run)) < |Last(run).published|
    requires count == Least(limit, |Last(run).published| - NextRead(Last(run)))
    ensures IsRun(longer) && run <= longer
    ensures Last(longer) == Last(run).(consumer := Copying(count, Front(Last(run), 0)))
  {
    var s := Last(run);
    longer := Extend(run, s.(consumer := Loading(limit, blocking)), Consume(Call(limit, blocking)));
    assert Front(s, 0) == [];
    longer := Extend(longer, s.(consumer := Copying(count, [])), Consume(Load));
  }

  function Taken<T>(s: State<T>, count: nat): (s': State<T>)
    requires 0 <= NextRead(s) && NextRead(s) + count <= |s.published|
  {
    s.(consumerCursor := s.consumerCursor + count, received := s.received + Front(s, count))
  }

  lemma {:induction false} TakeStep<T>(s: State<T>, count: nat)
    requires Shape(s) && |s.received| == NextRead(s) && NextRead(s) + count <= |s.published| && s.consumer.Ready?
    ensures NextStep(s.(consumer := Copying(count, Front(s, count))), Taken(s, count), Consume(SetConsumerCursor))
    ensures Front(s, count) == Contents(s)[..count] && Contents(Taken(s, count)) == Contents(s)[count..]
  {
    assert DoSetConsumerCursor(s.(consumer := Copying(count, Front(s, count))), Taken(s, count));
  }

  /** On an empty queue a receive that does not wait comes back, and nothing has changed. */
  lemma {:induction false} TryRecvFindsNothing<T(!new)>(run: seq<State<T>>, limit: nat) returns (longer: seq<State<T>>)
    requires IsRun(run) && Last(run).consumer.Ready? && limit >= 1
    requires Last(run).received == Last(run).published
    ensures IsRun(longer) && run < longer && Last(longer) == Last(run)
  {
    longer := FindsNothing(run, limit, false);
    longer := Extend(longer, Last(run), Consume(Check));
  }

  lemma {:induction false} FindsNothing<T(!new)>(run: seq<State<T>>, limit: nat, blocking: bool)
      returns (longer: seq<State<T>>)
    requires IsRun(run) && Last(run).consumer.Ready? && limit >= 1
    requires Last(run).received == Last(run).published
    ensures IsRun(longer) && run < longer && Shape(Last(run))
    ensures Last(longer) == Last(run).(consumer := Checking(limit, blocking))
  {
    RunInv(run, |run| - 1);
    var s := Last(run);
    longer := Extend(run, s.(consumer := Loading(limit, blocking)), Consume(Call(limit, blocking)));
    longer := Extend(longer, s.(consumer := Checking(limit, blocking)), Consume(Load));
  }

  /** Main theorem. Dropping the producer ends the stream: from every reachable state without a producer the consumer
    * can come, on its own, to the clean end, and by then it has received every event ever published.
    */
  lemma {:induction false} CleanEndReached<T(!new)>(run: seq<State<T>>) returns (longer: seq<State<T>>)
    requires IsRun(run) && Last(run).consumer.Ready? && Last(run).producerGone
    ensures IsRun(longer) && run <= longer && Last(longer).ended
    ensures Last(longer).received == Last(longer).published == Last(run).published
  {
    longer := Drains(run);
    RunInv(longer, |longer| - 1);
    var s := Last(longer);
    longer := FindsNothing(longer, 1, true);
    longer := Extend(longer, s.(consumer := Rechecking(1)), Consume(Check));
    CursorsCount(s, 0);
    longer := Extend(longer, s.(consumer := Ready, ended := true), Consume(Recheck));
  }

  lemma {:induction false} Drains<T(!new)>(run: seq<State<T>>) returns (longer: seq<State<T>>)
    requires IsRun(run) && Last(run).consumer.Ready? && Last(run).producerGone
    ensures IsRun(longer) && run <= longer && Last(longer).consumer.Ready? && Last(longer).producerGone
    ensures Last(longer).received == Last(longer).published == Last(run).published
  {
    RunInv(run, |run| - 1);
    var s := Last(run);
    longer := run;
    if |s.received| < |s.published| {
      longer := RecvDelivers(run, |Contents(s)|, true);
    }
  }
}
