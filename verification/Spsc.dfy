/** The single-producer channel (channel/src/spsc) as a step system: one atomic operation or one plain
  * slot access per step, the producer and the consumer interleaving freely. Atomics are sequentially
  * consistent.
  */
module Spsc {
  import opened Common
  import opened RingBuffer

  /** `send` and `try_send` carry their event; `claim` and `claim_batch` let the caller write in place. */
  datatype Payload<T> = Event(event: T) | Slot | Slots

  /** How a producer call looks for space: waiting, failing fast on the cached cursor, or
    * (`try_claim_batch`) failing fast on a fresh load.
    */
  datatype Mode = Blocking | Try | TryBatch

  datatype Producer<T> =
    | Idle
    | Deciding(n: nat, what: Payload<T>, mode: Mode)    // not disconnected, looks at the cached cursor
    | Reloading(n: nat, what: Payload<T>, mode: Mode)   // loads the consumer cursor
    | Retrying(n: nat, what: Payload<T>)                // still full, tests `closed`
    | Filling(n: nat, what: Payload<T>)                 // space confirmed, writes slots from `start` on
    | Filled(n: nat, what: Payload<T>)                  // sets the producer cursor next

  datatype Consumer<T> =
    | Ready
    | Loading(limit: nat, blocking: bool)               // loads the producer cursor
    | Checking(limit: nat, blocking: bool)              // nothing available, tests `closed`
    | Rechecking(limit: nat)                            // saw `closed`, loads the producer cursor again
    | Copying(count: nat, out: seq<T>)                  // copies slots, sets the consumer cursor last

  /** The last three fields are histories that no step reads. */
  datatype State<T> = State(
    cap: nat,
    slots: seq<T>,
    producerCursor: int,
    consumerCursor: int,
    closed: bool,
    cached: int,
    producer: Producer<T>,
    producerGone: bool,
    consumer: Consumer<T>,
    published: seq<T>,
    received: seq<T>,
    ended: bool
  )

  datatype Step<T> = Produce(p: ProducerAct<T>) | Consume(c: ConsumerAct) | Close | DropProducer

  datatype ProducerAct<T> =
    | Begin(n: nat, what: Payload<T>, mode: Mode)
    | Decide
    | Reload
    | Retry
    | Write(i: nat, v: T)
    | FinishFilling
    | SetProducerCursor

  datatype ConsumerAct =
    | Call(limit: nat, blocking: bool)
    | Load
    | Check
    | Recheck
    | Copy
    | SetConsumerCursor

  predicate Shape<T>(s: State<T>)
  {
    s.cap > 0 && |s.slots| == s.cap && s.producerCursor >= -1 && s.consumerCursor >= -1
  }

  /** The producer's `next_sequence` before the call in progress. */
  function Start<T>(s: State<T>): (q: int) { s.producerCursor + 1 }

  /** Space for sequences up to start + n - 1 as far as cursor value `seen` tells. */
  predicate Fits<T>(s: State<T>, n: nat, seen: int) { seen >= Start(s) + n - 1 - s.cap }

  ghost predicate DoBegin<T>(s: State<T>, s': State<T>, n: nat, what: Payload<T>, mode: Mode)
  {
    && s.producer.Idle? && !s.producerGone && 1 <= n <= s.cap
    && (!what.Slots? ==> n == 1) && (mode.TryBatch? ==> what.Slots?) && (what.Slots? ==> !mode.Try?)
    && s' == s.(producer := if s.closed then s.producer else Deciding(n, what, mode))
  }

  ghost predicate DoDecide<T>(s: State<T>, s': State<T>)
  {
    && s.producer.Deciding?
    && var p := s.producer;
       s' == s.(producer := if !p.mode.TryBatch? && Fits(s, p.n, s.cached) then Filling(p.n, p.what)
                            else Reloading(p.n, p.what, p.mode))
  }

  ghost predicate DoReload<T>(s: State<T>, s': State<T>)
  {
    && s.producer.Reloading?
    && var p := s.producer;
       s' == s.(cached := s.consumerCursor,
                producer := if Fits(s, p.n, s.consumerCursor) then Filling(p.n, p.what)
                            else if p.mode.Blocking? then Retrying(p.n, p.what) else Idle)
  }

  ghost predicate DoRetry<T>(s: State<T>, s': State<T>)
  {
    && s.producer.Retrying?
    && s' == s.(producer := if s.closed then Idle else Reloading(s.producer.n, s.producer.what, Blocking))
  }

  ghost predicate DoWrite<T>(s: State<T>, s': State<T>, i: nat, v: T)
    requires Shape(s)
  {
    && s.producer.Filling? && i < s.producer.n
    && (s.producer.what.Event? ==> v == s.producer.what.event)
    && s' == s.(slots := s.slots[(Start(s) + i) % s.cap := v],
                producer := if s.producer.what.Event? then Filled(s.producer.n, s.producer.what) else s.producer)
  }

  ghost predicate DoFinishFilling<T>(s: State<T>, s': State<T>)
  {
    && s.producer.Filling? && !s.producer.what.Event?
    && s' == s.(producer := Filled(s.producer.n, s.producer.what))
  }

  /** The events in the slots of sequences start .. start + n. */
  function Ring<T>(slots: seq<T>, cap: nat, start: nat, n: nat): (r: seq<T>)
    requires cap > 0 && |slots| == cap
    ensures |r| == n
    ensures forall i :: 0 <= i < n ==> r[i] == slots[(start + i) % cap]
  {
    seq(n, i requires 0 <= i < n => slots[(start + i) % cap])
  }

  ghost predicate DoSetProducerCursor<T>(s: State<T>, s': State<T>)
    requires Shape(s)
  {
    && s.producer.Filled?
    && s' == s.(producerCursor := Start(s) + s.producer.n - 1,
                published := s.published + Ring(s.slots, s.cap, Start(s), s.producer.n),
                producer := Idle)
  }

  ghost predicate ProducerStep<T>(s: State<T>, s': State<T>, act: ProducerAct<T>)
    requires Shape(s)
  {
    match act
    case Begin(n, what, mode) => DoBegin(s, s', n, what, mode)
    case Decide => DoDecide(s, s')
    case Reload => DoReload(s, s')
    case Retry => DoRetry(s, s')
    case Write(i, v) => DoWrite(s, s', i, v)
    case FinishFilling => DoFinishFilling(s, s')
    case SetProducerCursor => DoSetProducerCursor(s, s')
  }

  /** The consumer's `next_sequence`. */
  function NextRead<T>(s: State<T>): (q: int) { s.consumerCursor + 1 }

  ghost predicate DoCall<T>(s: State<T>, s': State<T>, limit: nat, blocking: bool)
  {
    s.consumer.Ready? && limit >= 1 && s' == s.(consumer := Loading(limit, blocking))
  }

  ghost predicate DoLoad<T>(s: State<T>, s': State<T>)
  {
    && s.consumer.Loading?
    && var available := s.producerCursor - NextRead(s) + 1;
       s' == s.(consumer := if available <= 0 then Checking(s.consumer.limit, s.consumer.blocking)
                            else Copying(if s.consumer.limit < available then s.consumer.limit else available, []))
  }

  /** is_disconnected() is a load of `closed`: the other side sets it before it drops its Arc. */
  ghost predicate DoCheck<T>(s: State<T>, s': State<T>)
  {
    && s.consumer.Checking?
    && s' == s.(consumer := if !s.consumer.blocking then Ready
                            else if s.closed then Rechecking(s.consumer.limit) else Loading(s.consumer.limit, true))
  }

  ghost predicate DoRecheck<T>(s: State<T>, s': State<T>)
  {
    && s.consumer.Rechecking?
    && var more := s.producerCursor >= NextRead(s);
       s' == s.(consumer := if more then Loading(s.consumer.limit, true) else Ready,
                ended := s.ended || (!more && s.producerGone))
  }

  ghost predicate DoCopy<T>(s: State<T>, s': State<T>)
    requires Shape(s)
  {
    && s.consumer.Copying? && |s.consumer.out| < s.consumer.count
    && s' == s.(consumer := s.consumer.(out := s.consumer.out + [s.slots[(NextRead(s) + |s.consumer.out|) % s.cap]]))
  }

  ghost predicate DoSetConsumerCursor<T>(s: State<T>, s': State<T>)
  {
    && s.consumer.Copying? && |s.consumer.out| == s.consumer.count
    && s' == s.(consumerCursor := s.consumerCursor + s.consumer.count,
                received := s.received + s.consumer.out,
                consumer := Ready)
  }

  ghost predicate ConsumerStep<T>(s: State<T>, s': State<T>, act: ConsumerAct)
    requires Shape(s)
  {
    match act
    case Call(limit, blocking) => DoCall(s, s', limit, blocking)
    case Load => DoLoad(s, s')
    case Check => DoCheck(s, s')
    case Recheck => DoRecheck(s, s')
    case Copy => DoCopy(s, s')
    case SetConsumerCursor => DoSetConsumerCursor(s, s')
  }

  ghost predicate NextStep<T>(s: State<T>, s': State<T>, step: Step<T>)
  {
    && Shape(s)
    && match step
       case Produce(p) => ProducerStep(s, s', p)
       case Consume(c) => ConsumerStep(s, s', c)
       case Close => s' == s.(closed := true)
       case DropProducer =>
         // not while a call or a batch handle borrows it; a claimed slot is simply never published
         && !s.producerGone && (s.producer.Idle? || (s.producer.Filling? && s.producer.what.Slot?))
         && s' == s.(closed := true, producerGone := true, producer := Idle)
  }

  ghost predicate Next<T(!new)>(s: State<T>, s': State<T>)
  {
    exists step :: NextStep(s, s', step)
  }

  ghost predicate Init<T>(s: State<T>)
  {
    && s.cap > 0 && |s.slots| == s.cap && s.producerCursor == -1 && s.consumerCursor == -1 && !s.closed
    && s.cached == -1 && s.producer == Idle && !s.producerGone && s.consumer == Ready
    && s.published == [] && s.received == [] && !s.ended
  }

  ghost predicate IsRun<T(!new)>(run: seq<State<T>>)
  {
    && |run| > 0 && Init(run[0])
    && forall i :: 0 <= i < |run| - 1 ==> Next(run[i], run[i + 1])
  }

  // ------------------------------------------------------------ invariant

  ghost predicate ProducerOk<T>(s: State<T>)
    requires Shape(s)
  {
    && s.cached <= s.consumerCursor
    && (s.producer.Deciding? || s.producer.Reloading? || s.producer.Retrying? ==> 1 <= s.producer.n <= s.cap)
    && (s.producer.Filling? || s.producer.Filled? ==>
          1 <= s.producer.n <= s.cap && Fits(s, s.producer.n, s.consumerCursor))
    && (!s.producer.Idle? && s.producer.what.Event? ==> s.producer.n == 1)
    && (s.producer.Filled? && s.producer.what.Event? ==> s.slots[Start(s) % s.cap] == s.producer.what.event)
    && (s.producerGone ==> s.producer.Idle? && s.closed)
  }

  /** Unread sequences are intact in the ring. */
  ghost predicate Intact<T>(slots: seq<T>, cap: nat, published: seq<T>, next: int)
    requires cap > 0 && |slots| == cap && 0 <= next
  {
    forall q :: next <= q < |published| ==> slots[q % cap] == published[q]
  }

  ghost predicate ConsumerOk<T>(c: Consumer<T>, next: int, published: seq<T>, closed: bool)
    requires 0 <= next <= |published|
  {
    && (c.Loading? || c.Checking? || c.Rechecking? ==> c.limit >= 1)
    && (c.Rechecking? ==> closed)
    && (c.Copying? ==>
          && 1 <= c.count && next + c.count <= |published| && |c.out| <= c.count
          && c.out == published[next..next + |c.out|])
  }

  ghost predicate Inv<T>(s: State<T>)
  {
    && Shape(s)
    && |s.published| == s.producerCursor + 1 && |s.received| == s.consumerCursor + 1
    && s.consumerCursor <= s.producerCursor <= s.consumerCursor + s.cap
    && ProducerOk(s)
    && Intact(s.slots, s.cap, s.published, NextRead(s))
    && s.received == s.published[..|s.received|]
    && ConsumerOk(s.consumer, NextRead(s), s.published, s.closed)
    && (s.ended ==> s.producerGone && s.received == s.published)
  }

  /** A write into confirmed space leaves every unread slot alone, however stale the cached cursor was. */
  lemma {:induction false} WriteKeepsUnread<T>(s: State<T>, i: nat, v: T)
    requires Shape(s) && |s.published| == s.producerCursor + 1 && s.consumerCursor <= s.producerCursor
    requires s.producer.Filling? && i < s.producer.n && Fits(s, s.producer.n, s.consumerCursor)
    ensures forall q: int :: NextRead(s) <= q <= s.producerCursor ==>
              s.slots[(Start(s) + i) % s.cap := v][q % s.cap] == s.slots[q % s.cap]
  {
    forall q: int | NextRead(s) <= q <= s.producerCursor
      ensures q % s.cap != (Start(s) + i) % s.cap
    {
      SlotsDistinct(s.cap, q, Start(s) + i);
    }
  }

  lemma {:induction false} WriteInv<T>(s: State<T>, s': State<T>, i: nat, v: T)
    requires Inv(s) && DoWrite(s, s', i, v)
    ensures Inv(s')
  {
    WriteKeepsUnread(s, i, v);
    assert Intact(s'.slots, s.cap, s.published, NextRead(s));
  }

  lemma {:induction false} PublishInv<T>(s: State<T>, s': State<T>)
    requires Inv(s) && DoSetProducerCursor(s, s')
    ensures Inv(s')
  {
    PublishIntact(s, s');
    PublishHistories(s, s');
  }

  lemma {:induction false} PublishHistories<T>(s: State<T>, s': State<T>)
    requires Shape(s) && |s.published| == s.producerCursor + 1 && 0 <= NextRead(s) <= |s.published|
    requires |s.received| <= |s.published| && s.received == s.published[..|s.received|]
    requires ConsumerOk(s.consumer, NextRead(s), s.published, s.closed) && DoSetProducerCursor(s, s')
    ensures s.received == s'.published[..|s.received|]
    ensures ConsumerOk(s.consumer, NextRead(s), s'.published, s.closed)
  {
    var n := NextRead(s);
    if s.consumer.Copying? {
      assert s'.published[n..n + |s.consumer.out|] == s.published[n..n + |s.consumer.out|];
    }
  }

  lemma {:induction false} PublishIntact<T>(s: State<T>, s': State<T>)
    requires Shape(s) && |s.published| == s.producerCursor + 1 && NextRead(s) >= 0
    requires Intact(s.slots, s.cap, s.published, NextRead(s)) && DoSetProducerCursor(s, s')
    ensures Intact(s.slots, s.cap, s'.published, NextRead(s))
  {
    forall q | NextRead(s) <= q < |s'.published|
      ensures s.slots[q % s.cap] == s'.published[q]
    {
      if q >= |s.published| {
        var i := q - |s.published|;
        assert s'.published[q] == Ring(s.slots, s.cap, Start(s), s.producer.n)[i];
        assert Start(s) + i == q;
      }
    }
  }

  lemma {:induction false} ProducerInv<T>(s: State<T>, s': State<T>, act: ProducerAct<T>)
    requires Inv(s) && ProducerStep(s, s', act)
    ensures Inv(s')
  {
    match act
    case Write(i, v) => WriteInv(s, s', i, v);
    case SetProducerCursor => PublishInv(s, s');
    case _ =>
      ProducerLooks(s, s', act);
      ProducerMoves(s, s'.producer, s'.cached);
  }

  /** A call, a decision, a load, a test of `closed` or the end of filling. */
  lemma {:induction false} ProducerLooks<T>(s: State<T>, s': State<T>, act: ProducerAct<T>)
    requires Shape(s) && ProducerOk(s) && ProducerStep(s, s', act) && !act.Write? && !act.SetProducerCursor?
    ensures s' == s.(producer := s'.producer, cached := s'.cached) && ProducerOk(s')
  {
  }

  /** Only the producer's locals change. */
  lemma {:induction false} ProducerMoves<T>(s: State<T>, p: Producer<T>, cached: int)
    requires Inv(s) && ProducerOk(s.(producer := p, cached := cached))
    ensures Inv(s.(producer := p, cached := cached))
  {
  }

  lemma {:induction false} CopyInv<T>(s: State<T>, s': State<T>)
    requires Inv(s) && DoCopy(s, s')
    ensures Inv(s')
  {
    var n, k := NextRead(s), |s.consumer.out|;
    assert s.slots[(n + k) % s.cap] == s.published[n + k];
    CopyOne(s.published, n, s.consumer.out);
    ConsumerMoves(s, s'.consumer);
  }

  lemma {:induction false} CopyOne<T>(published: seq<T>, n: nat, out: seq<T>)
    requires n + |out| < |published| && out == published[n..n + |out|]
    ensures out + [published[n + |out|]] == published[n..n + |out| + 1]
  {
  }

  /** Only the consumer's locals change. */
  lemma {:induction false} ConsumerMoves<T>(s: State<T>, c: Consumer<T>)
    requires Inv(s) && ConsumerOk(c, NextRead(s), s.published, s.closed)
    ensures Inv(s.(consumer := c))
  {
  }

  lemma {:induction false} ConsumeInv<T>(s: State<T>, s': State<T>)
    requires Inv(s) && DoSetConsumerCursor(s, s')
    ensures Inv(s')
  {
    ReadPrefix(s.published, NextRead(s), s.consumer.count);
    assert !s.ended;
  }

  lemma {:induction false} ReadPrefix<T>(published: seq<T>, n: nat, k: nat)
    requires n + k <= |published|
    ensures published[..n + k] == published[..n] + published[n..n + k]
  {
  }

  /** A call, a load or a check of `closed`. */
  lemma {:induction false} LookInv<T>(s: State<T>, s': State<T>, act: ConsumerAct)
    requires Inv(s) && ConsumerStep(s, s', act) && (act.Call? || act.Load? || act.Check?)
    ensures Inv(s')
  {
    ConsumerMoves(s, s'.consumer);
  }

  lemma {:induction false} RecheckInv<T>(s: State<T>, s': State<T>)
    requires Inv(s) && DoRecheck(s, s')
    ensures Inv(s')
  {
    if s.producerCursor < NextRead(s) {
      assert s.received == s.published[..|s.received|] == s.published;
    }
  }

  lemma {:induction false} ConsumerInv<T>(s: State<T>, s': State<T>, act: ConsumerAct)
    requires Inv(s) && ConsumerStep(s, s', act)
    ensures Inv(s')
  {
    match act
    case Copy => CopyInv(s, s');
    case SetConsumerCursor => ConsumeInv(s, s');
    case Recheck => RecheckInv(s, s');
    case _ => LookInv(s, s', act);
  }

  lemma {:induction false} StepInv<T>(s: State<T>, s': State<T>, step: Step<T>)
    requires Inv(s) && NextStep(s, s', step)
    ensures Inv(s')
  {
    match step
    case Produce(p) => ProducerInv(s, s', p);
    case Consume(c) => ConsumerInv(s, s', c);
    case Close =>
    case DropProducer =>
  }

  lemma {:induction false} StepKeepsCapacity<T>(s: State<T>, s': State<T>, step: Step<T>)
    requires NextStep(s, s', step)
    ensures s'.cap == s.cap
  {
  }

  lemma {:induction false} RunInv<T(!new)>(run: seq<State<T>>, i: nat)
    requires IsRun(run) && i < |run|
    ensures Inv(run[i]) && run[i].cap == run[0].cap
  {
    if i > 0 {
      var j := i - 1;
      RunInv(run, j);
      assert Next(run[j], run[j + 1]);
      var step :| NextStep(run[j], run[j + 1], step);
      StepInv(run[j], run[j + 1], step);
      StepKeepsCapacity(run[j], run[j + 1], step);
    }
  }

  // ------------------------------------------------------------ whole runs

  /** Main theorem. In every state of every run the received events are a prefix of the published ones and
    * at most `cap` published events are outstanding.
    */
  lemma {:induction false} ReceivedIsPrefix<T(!new)>(run: seq<State<T>>, i: nat)
    requires IsRun(run) && i < |run|
    ensures var s := run[i];
            |s.received| <= |s.published| <= |s.received| + run[0].cap && s.received == s.published[..|s.received|]
  {
    RunInv(run, i);
  }

  /** The events a bounded FIFO queue would hold. */
  function Contents<T>(s: State<T>): (queue: seq<T>)
    requires |s.received| <= |s.published|
  {
    s.published[|s.received|..]
  }

  /** Every step is an enqueue within the capacity, a dequeue from the front, or invisible to the queue. */
  lemma {:induction false} RefinesBoundedQueue<T(!new)>(s: State<T>, s': State<T>, step: Step<T>)
    requires Inv(s) && NextStep(s, s', step)
    ensures Inv(s') && |Contents(s')| <= s'.cap
    ensures step == Produce(SetProducerCursor) ==>
              && Contents(s') == Contents(s) + Ring(s.slots, s.cap, Start(s), s.producer.n)
              && (s.producer.what.Event? ==> Contents(s') == Contents(s) + [s.producer.what.event])
    ensures step == Consume(SetConsumerCursor) ==>
              && Contents(s) == s.consumer.out + Contents(s') && s'.received == s.received + s.consumer.out
              && |s.consumer.out| >= 1
    ensures step != Produce(SetProducerCursor) && step != Consume(SetConsumerCursor) ==> Contents(s') == Contents(s)
  {
    StepInv(s, s', step);
    ContentsBound(s');
    StepContents(s, s', step);
  }

  lemma {:induction false} StepContents<T(!new)>(s: State<T>, s': State<T>, step: Step<T>)
    requires Inv(s) && NextStep(s, s', step) && Inv(s')
    ensures step == Produce(SetProducerCursor) ==>
              && Contents(s') == Contents(s) + Ring(s.slots, s.cap, Start(s), s.producer.n)
              && (s.producer.what.Event? ==> Contents(s') == Contents(s) + [s.producer.what.event])
    ensures step == Consume(SetConsumerCursor) ==>
              && Contents(s) == s.consumer.out + Contents(s') && s'.received == s.received + s.consumer.out
              && |s.consumer.out| >= 1
    ensures step != Produce(SetProducerCursor) && step != Consume(SetConsumerCursor) ==> Contents(s') == Contents(s)
  {
    match step
    case Produce(SetProducerCursor) => EnqueueContents(s, s');
    case Consume(SetConsumerCursor) => DequeueContents(s, s');
    case Produce(p) => ProducerQuiet(s, s', p);
    case Consume(c) => ConsumerQuiet(s, s', c);
    case Close =>
    case DropProducer =>
  }

  lemma {:induction false} ContentsBound<T>(s: State<T>)
    requires Inv(s)
    ensures |s.received| <= |s.published| && |Contents(s)| <= s.cap
  {
  }

  /** `available_slots`, between two calls of the producer. */
  function AvailableSlots<T>(s: State<T>): (n: int)
  {
    var pending := Start(s) - s.consumerCursor - 1;
    if pending < 0 then s.cap else if pending <= s.cap then s.cap - pending else 0
  }

  /** In every reachable state the free slots between the two cursors are the places left in the bounded queue:
    * a claim of `n` slots that looks at the consumer cursor now is granted exactly when `n` is no larger, so a
    * send fails only on a full queue. The subtraction never underflows, and the saturating one in
    * `available_slots` never saturates.
    */
  lemma {:induction false} FreeSlotsIsRoom<T(!new)>(run: seq<State<T>>, i: nat, n: nat)
    requires IsRun(run) && i < |run| && run[0].cap < U64
    ensures var s := run[i]; var free := FreeSlots(s.cap, s.producerCursor, s.consumerCursor);
            && |s.received| <= |s.published| && free + |Contents(s)| == s.cap && free == AvailableSlots(s)
            && (Fits(s, n, s.consumerCursor) <==> n <= free)
            && (Fits(s, 1, s.consumerCursor) <==> |Contents(s)| < s.cap)
  {
    RunInv(run, i);
  }

  lemma {:induction false} EnqueueContents<T>(s: State<T>, s': State<T>)
    requires Inv(s) && DoSetProducerCursor(s, s')
    ensures |s'.received| <= |s'.published|
            && Contents(s') == Contents(s) + Ring(s.slots, s.cap, Start(s), s.producer.n)
    ensures s.producer.what.Event? ==> Contents(s') == Contents(s) + [s.producer.what.event]
  {
    var added := Ring(s.slots, s.cap, Start(s), s.producer.n);
    assert s.producer.what.Event? ==> added == [s.producer.what.event];
  }

  lemma {:induction false} DequeueContents<T>(s: State<T>, s': State<T>)
    requires Inv(s) && DoSetConsumerCursor(s, s')
    ensures |s'.received| <= |s'.published| && Contents(s) == s.consumer.out + Contents(s')
  {
    var n, k := NextRead(s), s.consumer.count;
    assert s.published[n..] == s.published[n..n + k] + s.published[n + k..];
  }

  lemma {:induction false} ProducerQuiet<T>(s: State<T>, s': State<T>, act: ProducerAct<T>)
    requires Shape(s) && ProducerStep(s, s', act) && !act.SetProducerCursor?
    ensures s'.published == s.published && s'.received == s.received && s'.cap == s.cap
            && s'.producerGone == s.producerGone
  {
  }

  lemma {:induction false} ConsumerQuiet<T>(s: State<T>, s': State<T>, act: ConsumerAct)
    requires Shape(s) && ConsumerStep(s, s', act) && !act.SetConsumerCursor?
    ensures s'.published == s.published && s'.received == s.received && s'.slots == s.slots
    ensures s.ended ==> s'.ended
  {
  }

  /** No step of any run overwrites a published slot that has not been read. */
  lemma {:induction false} UnreadSlotsAreStable<T(!new)>(run: seq<State<T>>, i: nat, q: nat)
    requires IsRun(run) && i + 1 < |run|
    requires |run[i].received| <= q < |run[i].published|
    ensures |run[i].slots| == |run[i + 1].slots| == run[i].cap > 0
    ensures run[i + 1].slots[q % run[i].cap] == run[i].slots[q % run[i].cap] == run[i].published[q]
  {
    RunInv(run, i);
    assert Next(run[i], run[i + 1]);
    var step :| NextStep(run[i], run[i + 1], step);
    StepKeepsUnread(run[i], run[i + 1], step, q);
  }

  lemma {:induction false} StepKeepsUnread<T>(s: State<T>, s': State<T>, step: Step<T>, q: nat)
    requires Inv(s) && NextStep(s, s', step) && |s.received| <= q < |s.published|
    ensures |s'.slots| == s.cap && s'.slots[q % s.cap] == s.slots[q % s.cap]
  {
    match step
    case Produce(Write(i, v)) => WriteKeepsUnread(s, i, v);
    case Produce(p) =>
    case Consume(c) => if !c.SetConsumerCursor? { ConsumerQuiet(s, s', c); }
    case Close =>
    case DropProducer =>
  }

  /** Clean end of stream. Once `recv` has returned RecvError after the producer was dropped, then and ever
    * after every published event has been received.
    */
  lemma {:induction false} CleanEndLosesNothing<T(!new)>(run: seq<State<T>>, i: nat, j: nat)
    requires IsRun(run) && i <= j < |run| && run[i].ended
    ensures run[j].producerGone && run[j].ended && run[j].received == run[j].published == run[i].published
  {
    RunInv(run, j);
    if i < j {
      var k := j - 1;
      CleanEndLosesNothing(run, i, k);
      RunInv(run, k);
      assert Next(run[k], run[k + 1]);
      var step :| NextStep(run[k], run[k + 1], step);
      EndIsFinal(run[k], run[k + 1], step);
    }
  }

  lemma {:induction false} EndIsFinal<T>(s: State<T>, s': State<T>, step: Step<T>)
    requires Inv(s) && NextStep(s, s', step) && s.ended
    ensures s'.ended && s'.published == s.published
  {
    match step
    case Produce(p) =>
    case Consume(c) => if !c.SetConsumerCursor? { ConsumerQuiet(s, s', c); }
    case Close =>
    case DropProducer =>
  }
}
