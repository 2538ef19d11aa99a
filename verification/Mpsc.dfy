/** The multi-producer channel (channel/src/mpsc) as a step system: every step is one atomic operation
  * or one plain slot access of one thread, and any number of threads interleave freely. Atomics are
  * sequentially consistent.
  */
module Mpsc {
  import opened Bits
  import opened MpscBitmap
  import opened RingBuffer

  type Tid = nat
  type Handle = nat

  /** What a producer claims slots for: one event (`send`, `try_send`) or a batch handle whose slots
    * the caller writes in place.
    */
  datatype Claim<T> = Single(event: T) | Batch

  /** Program counter and locals of one producer call. */
  datatype Pc<T> =
    | Checked(n: nat, what: Claim<T>, blocking: bool, tries: nat)  // is_disconnected() returned false
    | Waiting(start: nat, n: nat, what: Claim<T>)                  // claimed by fetch_add
    | Blocked(start: nat, n: nat, what: Claim<T>)                  // saw no space, tests `closed` next
    | Loaded(n: nat, what: Claim<T>, tries: nat, current: int)     // try path: loaded the claim cursor
    | Spaced(n: nat, what: Claim<T>, tries: nat, current: int)     // try path: saw space, CAS next
    | Owning(start: nat, n: nat, what: Claim<T>)                   // may write its slots
    | Publishing(start: nat, n: nat)                               // marks its remaining sequences

  datatype Thread<T> = Thread(handle: Handle, pc: Pc<T>)

  /** Program counter and locals of the consumer. */
  datatype Consumer<T> =
    | Ready
    | Testing(blocking: bool)                          // tests the bit of `next`
    | Closing(blocking: bool)                          // bit was clear, loads `closed`
    | Retesting                                        // recv saw `closed`, tests the bit again
    | Scanning(claimSeen: int, at: nat, limit: nat)    // highest_published, loads the word of `at`
    | Reading(count: nat, out: seq<T>)                 // copies slots, sets the cursor last

  /** The last eight fields are histories that no step reads. */
  datatype State<T> = State(
    cap: nat,
    slots: seq<T>,
    claim: int,
    consumed: int,
    avail: seq<nat>,
    producerCount: nat,
    closed: bool,
    handles: set<Handle>,
    closing: bool,
    threads: map<Tid, Thread<T>>,
    next: nat,
    consumer: Consumer<T>,
    owner: map<int, Tid>,
    published: set<int>,
    abandoned: set<int>,
    sends: map<int, T>,
    wrote: map<int, T>,
    received: seq<T>,
    closedByCall: bool,
    cleanEnd: bool
  )

  // ------------------------------------------------------------ steps

  datatype ProducerAct<T> =
    | Begin(t: Tid, h: Handle, n: nat, what: Claim<T>, blocking: bool)
    | FetchAdd(t: Tid)
    | PollSpace(t: Tid)
    | PollClosed(t: Tid)
    | LoadClaim(t: Tid)
    | LoadConsumer(t: Tid)
    | Cas(t: Tid)
    | Write(t: Tid, q: nat, v: T)                                  // any sequence of the claim
    | StartPublish(t: Tid)
    | Flush(t: Tid, k: nat)

  datatype HandleAct =
    | Clone(h: Handle, copy: Handle)
    | Drop(h: Handle)
    | CloseLast
    | CloseCall

  datatype ConsumerAct =
    | Recv(blocking: bool)
    | TestBit
    | LoadClosed
    | Retest
    | StartScan(limit: nat)
    | ScanLoad
    | ReadSlot
    | SetCursor

  datatype Step<T> = Produce(p: ProducerAct<T>) | Manage(h: HandleAct) | Consume(c: ConsumerAct)

  function Range(start: int, n: nat): (r: set<int>)
    ensures forall q :: q in r <==> start <= q < start + n
  {
    if n == 0 then {} else Range(start, n - 1) + {start + n - 1}
  }

  function Claimed(owner: map<int, Tid>, start: int, n: nat, t: Tid): (r: map<int, Tid>)
  {
    map q | q in owner.Keys + Range(start, n) :: if q in Range(start, n) then t else owner[q]
  }

  function RecordSends<T>(sends: map<int, T>, start: int, what: Claim<T>): (r: map<int, T>)
  {
    if what.Single? then sends[start := what.event] else sends
  }

  /** The XOR mask of `k` consecutive sequences of one word. */
  function RunMask(s: nat, k: nat): (mask: nat)
  {
    if k == 0 then 0 else Or(RunMask(s, k - 1), Pow2(BitIndex(s + k - 1)))
  }

  predicate OneWord(cap: nat, s: nat, k: nat)
    requires cap > 0
  {
    forall q: nat :: s <= q < s + k ==> WordIndex(cap, q) == WordIndex(cap, s)
  }

  /** Shapes that every step needs in order to be defined. */
  predicate Shape<T>(s: State<T>)
  {
    && s.cap > 0 && |s.slots| == s.cap
    && WellFormed(s.avail, s.cap)
    && s.consumed >= -1 && s.claim >= -1
  }

  function Goto<T>(s: State<T>, t: Tid, pc: Pc<T>): (m: map<Tid, Thread<T>>)
    requires t in s.threads
  {
    s.threads[t := s.threads[t].(pc := pc)]
  }

  function Return<T>(s: State<T>, t: Tid): (m: map<Tid, Thread<T>>) { s.threads - {t} }

  ghost predicate DoBegin<T>(s: State<T>, s': State<T>, t: Tid, h: Handle, n: nat, what: Claim<T>, blocking: bool)
  {
    // is_disconnected() is one load of `closed`: the caller holds a handle, so the count is not zero
    && t !in s.threads && h in s.handles && 1 <= n <= s.cap && (what.Single? ==> n == 1)
    && s' == s.(threads := if s.closed then s.threads else s.threads[t := Thread(h, Checked(n, what, blocking, 0))])
  }

  ghost predicate DoFetchAdd<T>(s: State<T>, s': State<T>, t: Tid)
  {
    && t in s.threads && s.threads[t].pc.Checked? && s.threads[t].pc.blocking && s.claim >= -1
    && var pc := s.threads[t].pc;
       s' == AfterClaim(s, t, Waiting(s.claim + 1, pc.n, pc.what), s.claim + 1, pc.n, pc.what)
  }

  /** Thread `t` takes the next `n` sequences and goes on at `pc`. */
  function AfterClaim<T>(s: State<T>, t: Tid, pc: Pc<T>, start: int, n: nat, what: Claim<T>): (s': State<T>)
    requires t in s.threads
  {
    s.(claim := start + n - 1, threads := Goto(s, t, pc), owner := Claimed(s.owner, start, n, t),
       sends := RecordSends(s.sends, start, what))
  }

  ghost predicate DoPollSpace<T>(s: State<T>, s': State<T>, t: Tid)
  {
    && t in s.threads && s.threads[t].pc.Waiting?
    && var pc := s.threads[t].pc;
       s' == s.(threads := Goto(s, t, if s.consumed < pc.start + pc.n - 1 - s.cap then Blocked(pc.start, pc.n, pc.what)
                                      else Owning(pc.start, pc.n, pc.what)))
  }

  ghost predicate DoPollClosed<T>(s: State<T>, s': State<T>, t: Tid)
  {
    && t in s.threads && s.threads[t].pc.Blocked?
    && var pc := s.threads[t].pc;
       s' == s.(threads := if s.closed then Return(s, t) else Goto(s, t, Waiting(pc.start, pc.n, pc.what)),
                owner := if s.closed then s.owner - Range(pc.start, pc.n) else s.owner,
                abandoned := if s.closed then s.abandoned + Range(pc.start, pc.n) else s.abandoned)
  }

  ghost predicate DoLoadClaim<T>(s: State<T>, s': State<T>, t: Tid)
  {
    && t in s.threads && s.threads[t].pc.Checked? && !s.threads[t].pc.blocking
    && var pc := s.threads[t].pc;
       s' == s.(threads := Goto(s, t, Loaded(pc.n, pc.what, pc.tries, s.claim)))
  }

  ghost predicate DoLoadConsumer<T>(s: State<T>, s': State<T>, t: Tid)
  {
    && t in s.threads && s.threads[t].pc.Loaded?
    && var pc := s.threads[t].pc;
       s' == s.(threads := if s.consumed < pc.current + pc.n - s.cap then Return(s, t)
                           else Goto(s, t, Spaced(pc.n, pc.what, pc.tries, pc.current)))
  }

  ghost predicate DoCas<T>(s: State<T>, s': State<T>, t: Tid)
  {
    && t in s.threads && s.threads[t].pc.Spaced? && s.claim >= -1
    && var pc := s.threads[t].pc;
       s' == if s.claim == pc.current
             then AfterClaim(s, t, Owning(s.claim + 1, pc.n, pc.what), s.claim + 1, pc.n, pc.what)
             else s.(threads := if pc.tries + 1 < 8 then Goto(s, t, Checked(pc.n, pc.what, false, pc.tries + 1))
                                else Return(s, t))
  }

  ghost predicate DoWrite<T>(s: State<T>, s': State<T>, t: Tid, q: nat, v: T)
  {
    && t in s.threads && s.threads[t].pc.Owning? && Owns(s.threads[t].pc, q) && s.cap > 0 && |s.slots| == s.cap
    && (s.threads[t].pc.what.Single? ==> v == s.threads[t].pc.what.event)
    && s' == Written(s, t, q, v)
  }

  /** Sequence `q` written by thread `t`. */
  function Written<T>(s: State<T>, t: Tid, q: nat, v: T): (s': State<T>)
    requires t in s.threads && s.threads[t].pc.Owning? && s.cap > 0 && |s.slots| == s.cap
  {
    s.(slots := s.slots[q % s.cap := v], wrote := s.wrote[q := v], threads := AfterWrite(s, t))
  }

  /** A single send goes on to publish at once; a batch may write more. */
  function AfterWrite<T>(s: State<T>, t: Tid): (threads: map<Tid, Thread<T>>)
    requires t in s.threads && s.threads[t].pc.Owning?
  {
    var pc := s.threads[t].pc;
    if pc.what.Single? then Goto(s, t, Publishing(pc.start, pc.n)) else s.threads
  }

  ghost predicate DoStartPublish<T>(s: State<T>, s': State<T>, t: Tid)
  {
    && t in s.threads && s.threads[t].pc.Owning? && s.threads[t].pc.what.Batch?
    && s' == s.(threads := Goto(s, t, Publishing(s.threads[t].pc.start, s.threads[t].pc.n)))
  }

  /** One fetch_xor; `mark_published` is the case k == 1. */
  ghost predicate DoFlush<T>(s: State<T>, s': State<T>, t: Tid, k: nat)
  {
    && t in s.threads && s.threads[t].pc.Publishing? && s.cap > 0 && |s.avail| == WordCount(s.cap)
    && var pc := s.threads[t].pc;
       && 1 <= k <= pc.n && OneWord(s.cap, pc.start, k)
       && s' == s.(avail := FetchXor(s.avail, WordIndex(s.cap, pc.start), RunMask(pc.start, k)),
                   threads := if k == pc.n then Return(s, t) else Goto(s, t, Publishing(pc.start + k, pc.n - k)),
                   owner := s.owner - Range(pc.start, k),
                   published := s.published + Range(pc.start, k))
  }

  ghost predicate ProducerStep<T>(s: State<T>, s': State<T>, step: ProducerAct<T>)
  {
    match step
    case Begin(t, h, n, what, blocking) => DoBegin(s, s', t, h, n, what, blocking)
    case FetchAdd(t) => DoFetchAdd(s, s', t)
    case PollSpace(t) => DoPollSpace(s, s', t)
    case PollClosed(t) => DoPollClosed(s, s', t)
    case LoadClaim(t) => DoLoadClaim(s, s', t)
    case LoadConsumer(t) => DoLoadConsumer(s, s', t)
    case Cas(t) => DoCas(s, s', t)
    case Write(t, q, v) => DoWrite(s, s', t, q, v)
    case StartPublish(t) => DoStartPublish(s, s', t)
    case Flush(t, k) => DoFlush(s, s', t, k)
  }

  ghost predicate HandleStep<T>(s: State<T>, s': State<T>, step: HandleAct)
  {
    match step
    case Clone(h, copy) =>
      && h in s.handles && copy !in s.handles
      && s' == s.(handles := s.handles + {copy}, producerCount := s.producerCount + 1)
    case Drop(h) =>
      // a handle cannot be dropped while a call borrows it
      && h in s.handles && (forall t :: t in s.threads ==> s.threads[t].handle != h) && s.producerCount >= 1
      && s' == s.(handles := s.handles - {h}, producerCount := s.producerCount - 1,
                  closing := s.closing || s.producerCount == 1)
    case CloseLast =>
      s.closing && s' == s.(closed := true)
    case CloseCall =>
      // close() on either side, and the consumer's drop
      s' == s.(closed := true, closedByCall := true)
  }

  /** The consumer of `s` after one step; every step but SetCursor changes nothing else the others see. */
  ghost predicate DoTest<T>(s: State<T>, s': State<T>, step: ConsumerAct)
    requires Shape(s)
  {
    AfterTest(s, s', step, IsPublished(s.avail, s.cap, s.next))
  }

  /** `seen` is the answer of the bit test, where the step makes it. */
  ghost predicate AfterTest<T>(s: State<T>, s': State<T>, step: ConsumerAct, seen: bool)
  {
    match step
    case Recv(blocking) =>
      s.consumer.Ready? && s' == s.(consumer := Testing(blocking))
    case TestBit =>
      && s.consumer.Testing?
      && s' == s.(consumer := if seen then Reading(1, []) else Closing(s.consumer.blocking))
    case LoadClosed =>
      && s.consumer.Closing?
      && s' == s.(consumer := if !s.consumer.blocking then Ready else if s.closed then Retesting else Testing(true))
    case Retest =>
      && s.consumer.Retesting?
      && s' == s.(consumer := if seen then Testing(true) else Ready,
                  cleanEnd := s.cleanEnd || (!seen && !s.closedByCall))
    case StartScan(limit) =>
      && s.consumer.Ready?
      && s' == s.(consumer := if s.next > s.claim then Ready else Scanning(s.claim, s.next, limit))
    case _ => false
  }

  ghost predicate DoScanLoad<T>(s: State<T>, s': State<T>)
    requires Shape(s)
  {
    && s.consumer.Scanning?
    && var at := s.consumer.at;
       var first := FirstMismatch(s.avail[WordIndex(s.cap, at)], ExpectedPattern(s.cap, at), BitIndex(at));
       s' == s.(consumer := if at > s.consumer.claimSeen then Found(s.next, at - 1, s.consumer.limit)
                            else if first < BITS_PER_WORD then
                              Found(s.next, at + (first - BitIndex(at)) - 1, s.consumer.limit)
                            else Scanning(s.consumer.claimSeen, at + (BITS_PER_WORD - BitIndex(at)), s.consumer.limit))
  }

  ghost predicate DoReadSlot<T>(s: State<T>, s': State<T>)
    requires Shape(s)
  {
    && s.consumer.Reading? && |s.consumer.out| < s.consumer.count
    && s' == s.(consumer := s.consumer.(out := s.consumer.out + [s.slots[(s.next + |s.consumer.out|) % s.cap]]))
  }

  ghost predicate DoSetCursor<T>(s: State<T>, s': State<T>)
  {
    && s.consumer.Reading? && |s.consumer.out| == s.consumer.count
    && s' == s.(consumed := s.next + s.consumer.count - 1,
                next := s.next + s.consumer.count,
                received := s.received + s.consumer.out,
                consumer := Ready)
  }

  ghost predicate ConsumerStep<T>(s: State<T>, s': State<T>, step: ConsumerAct)
    requires Shape(s)
  {
    match step
    case ScanLoad => DoScanLoad(s, s')
    case ReadSlot => DoReadSlot(s, s')
    case SetCursor => DoSetCursor(s, s')
    case _ => DoTest(s, s', step)
  }

  /** What a batch call does with the result of the scan (`limit` 0 is `pending`, which only counts). */
  function Found<T>(next: nat, highest: int, limit: nat): (c: Consumer<T>)
  {
    if highest < next || limit == 0 then Ready
    else Reading(if limit < highest - next + 1 then limit else highest - next + 1, [])
  }

  ghost predicate NextStep<T>(s: State<T>, s': State<T>, step: Step<T>)
  {
    && Shape(s)
    && match step
       case Produce(p) => ProducerStep(s, s', p)
       case Manage(h) => HandleStep(s, s', h)
       case Consume(c) => ConsumerStep(s, s', c)
  }

  ghost predicate Next<T(!new)>(s: State<T>, s': State<T>)
  {
    exists step :: NextStep(s, s', step)
  }

  ghost predicate Init<T>(s: State<T>)
  {
    && IsPowerOfTwo(s.cap) && |s.slots| == s.cap
    && s.claim == -1 && s.consumed == -1 && s.avail == InitialAvailability(s.cap)
    && s.producerCount == 1 && !s.closed && |s.handles| == 1 && !s.closing && s.threads == map[]
    && s.next == 0 && s.consumer == Ready
    && s.owner == map[] && s.published == {} && s.abandoned == {} && s.sends == map[] && s.wrote == map[]
    && s.received == [] && !s.closedByCall && !s.cleanEnd
  }

  ghost predicate IsRun<T(!new)>(run: seq<State<T>>)
  {
    && |run| > 0 && Init(run[0])
    && forall i :: 0 <= i < |run| - 1 ==> Next(run[i], run[i + 1])
  }

  // ------------------------------------------------------------ invariant

  function Lo<T>(pc: Pc<T>): (q: int)
  {
    if pc.Waiting? || pc.Blocked? || pc.Owning? || pc.Publishing? then pc.start else 0
  }

  function Hi<T>(pc: Pc<T>): (q: int)
  {
    if pc.Waiting? || pc.Blocked? || pc.Owning? || pc.Publishing? then pc.start + pc.n else 0
  }

  predicate Owns<T>(pc: Pc<T>, q: int) { Lo(pc) <= q < Hi(pc) }

  predicate HasSpace<T>(pc: Pc<T>, cap: nat, consumed: int)
  {
    && (pc.Owning? || pc.Publishing? ==> pc.start + pc.n - 1 <= consumed + cap)
    && (pc.Spaced? ==> pc.current + pc.n <= consumed + cap)
  }

  /** Locals that carry an event agree with the record of what was sent. */
  ghost predicate Remembers<T>(pc: Pc<T>, sends: map<int, T>, wrote: map<int, T>)
  {
    && (pc.Checked? || pc.Loaded? || pc.Spaced? || pc.Waiting? || pc.Blocked? || pc.Owning? ==>
          pc.n >= 1 && (pc.what.Single? ==> pc.n == 1))
    && (pc.Waiting? || pc.Blocked? || pc.Owning? ==>
          if pc.what.Single? then pc.start in sends && sends[pc.start] == pc.what.event
          else forall q :: pc.start <= q < pc.start + pc.n ==> q !in sends)
    && (pc.Publishing? ==>
          forall q :: pc.start <= q < pc.start + pc.n && q in sends ==> q in wrote && wrote[q] == sends[q])
  }

  /** Every claimed sequence is published, abandoned, or owned by exactly one thread. */
  ghost predicate Partition<T>(threads: map<Tid, Thread<T>>, owner: map<int, Tid>,
                               published: set<int>, abandoned: set<int>, claim: int)
  {
    && (forall q: int :: q in owner || q in published || q in abandoned <==> 0 <= q <= claim)
    && (forall q :: q in owner ==> q !in published && q !in abandoned)
    && (forall q :: q in published ==> q !in abandoned)
    && OwnersAgree(threads, owner)
  }

  /** The record of owners and the threads' own ranges say the same. */
  ghost predicate OwnersAgree<T>(threads: map<Tid, Thread<T>>, owner: map<int, Tid>)
  {
    && (forall q :: q in owner ==> owner[q] in threads && Owns(threads[owner[q]].pc, q))
    && (forall t, q: int {:trigger Owns(threads[t].pc, q)} :: t in threads && Owns(threads[t].pc, q) ==>
          q in owner && owner[q] == t)
  }

  ghost predicate ThreadsOk<T>(threads: map<Tid, Thread<T>>, cap: nat, consumed: int, sends: map<int, T>,
      wrote: map<int, T>)
  {
    forall t :: t in threads ==> HasSpace(threads[t].pc, cap, consumed) && Remembers(threads[t].pc, sends, wrote)
  }

  ghost predicate Progress(published: set<int>, abandoned: set<int>, cap: nat, next: nat)
  {
    && (forall q: int :: 0 <= q < next ==> q in published)
    && (forall q :: q in published ==> q < next + cap)
    && (forall q :: q in abandoned ==> q >= next)
  }

  /** Unconsumed writes are still in their slots. */
  ghost predicate SlotsOk<T>(slots: seq<T>, wrote: map<int, T>, cap: nat, next: nat)
    requires cap > 0 && |slots| == cap
  {
    forall q: int :: q in wrote ==> 0 <= q < next + cap && (q >= next ==> slots[q % cap] == wrote[q])
  }

  ghost predicate Records<T>(sends: map<int, T>, wrote: map<int, T>, published: set<int>, claim: int)
  {
    && (forall q: int :: q in sends ==> q <= claim)
    && (forall q: int :: q in published && q in sends ==> q in wrote && wrote[q] == sends[q])
  }

  ghost predicate ReceivedOk<T>(received: seq<T>, wrote: map<int, T>, next: nat)
  {
    && |received| == next
    && forall q: int :: 0 <= q < next && q in wrote ==> received[q] == wrote[q]
  }

  ghost predicate ConsumerOk<T>(c: Consumer<T>, next: nat, cap: nat, published: set<int>, wrote: map<int, T>,
      closed: bool)
  {
    && (c.Retesting? ==> closed)
    && (c.Scanning? ==> next <= c.claimSeen && next <= c.at <= next + cap)
    && (c.Scanning? ==> forall q: int :: next <= q < c.at ==> q in published)
    && (c.Reading? ==>
          && c.count >= 1 && |c.out| <= c.count
          && (forall q: int :: next <= q < next + c.count ==> q in published)
          && (forall q: int :: next <= q < next + |c.out| && q in wrote ==> c.out[q - next] == wrote[q]))
  }

  ghost predicate HandlesOk<T>(threads: map<Tid, Thread<T>>, handles: set<Handle>, producerCount: nat,
                               closing: bool, closed: bool, closedByCall: bool, abandoned: set<int>)
  {
    && producerCount == |handles|
    && (forall t :: t in threads ==> threads[t].handle in handles)
    && (closing <==> handles == {})
    && (closed && !closedByCall ==> closing)
    && (abandoned != {} ==> closedByCall)
  }

  ghost predicate Inv<T>(s: State<T>)
  {
    && Shape(s) && s.cap % BITS_PER_WORD == 0 && s.consumed == s.next - 1
    && Partition(s.threads, s.owner, s.published, s.abandoned, s.claim)
    && ThreadsOk(s.threads, s.cap, s.consumed, s.sends, s.wrote)
    && Progress(s.published, s.abandoned, s.cap, s.next)
    && Represents(s.avail, s.cap, s.consumed, s.published)
    && SlotsOk(s.slots, s.wrote, s.cap, s.next)
    && Records(s.sends, s.wrote, s.published, s.claim)
    && ReceivedOk(s.received, s.wrote, s.next)
    && ConsumerOk(s.consumer, s.next, s.cap, s.published, s.wrote, s.closed)
    && HandlesOk(s.threads, s.handles, s.producerCount, s.closing, s.closed, s.closedByCall, s.abandoned)
    && (s.cleanEnd ==> s.handles == {} && s.claim == s.next - 1)
  }

  lemma {:induction false} InitInv<T>(s: State<T>)
    requires Init(s) && s.cap >= BITS_PER_WORD
    ensures Inv(s)
  {
    InitialWindow(s.cap);
    CapacityIsWholeWords(s.cap);
    assert |s.handles| == 1;
  }

  lemma {:induction false} CapacityIsWholeWords(cap: nat)
    requires IsPowerOfTwo(cap) && cap >= BITS_PER_WORD
    ensures cap % BITS_PER_WORD == 0
  {
    var k := Exponent(cap);
    assert Pow2(6) == 64;
    if k < 6 { Pow2Monotone(k, 6); assert false; }
    Pow2Multiple(6, k);
  }

  lemma {:induction false} Pow2Multiple(a: nat, b: nat)
    requires a <= b
    ensures Pow2(b) % Pow2(a) == 0
  {
    var p := Pow2(a);
    if a == b {
      DivModUnique(p, p, 1, 0);
    } else {
      Pow2Multiple(a, b - 1);
      var q := Pow2(b - 1) / p;
      assert Pow2(b) == p * (2 * q);
      DivModUnique(Pow2(b), p, 2 * q, 0);
    }
  }

  // ------------------------------------------------------------ ownership

  ghost predicate Owned<T>(s: State<T>)
  {
    Partition(s.threads, s.owner, s.published, s.abandoned, s.claim)
  }

  lemma {:induction false} OwnedSequence<T>(s: State<T>, t: Tid, q: int)
    requires Owned(s) && t in s.threads && Owns(s.threads[t].pc, q)
    ensures q in s.owner && s.owner[q] == t && 0 <= q <= s.claim && q !in s.published && q !in s.abandoned
  {
  }

  /** A thread that owns nothing starts, moves on, or returns. */
  lemma {:induction false} BeginPartition<T>(s: State<T>, t: Tid, thread: Thread<T>)
    requires Owned(s) && t !in s.threads && thread.pc.Checked?
    ensures Partition(s.threads[t := thread], s.owner, s.published, s.abandoned, s.claim)
  {
    var threads := s.threads[t := thread];
    forall u, q: int | u in threads && Owns(threads[u].pc, q)
      ensures q in s.owner && s.owner[q] == u
    {
      assert u != t;
      assert Owns(s.threads[u].pc, q);
    }
  }

  /** Moving a thread between program points that own the same sequences. */
  lemma {:induction false} GotoPartition<T>(s: State<T>, t: Tid, pc: Pc<T>)
    requires Owned(s) && t in s.threads
    requires Lo(pc) == Lo(s.threads[t].pc) && Hi(pc) == Hi(s.threads[t].pc)
    ensures Partition(Goto(s, t, pc), s.owner, s.published, s.abandoned, s.claim)
  {
    var threads := Goto(s, t, pc);
    forall u, q: int | u in threads && Owns(threads[u].pc, q)
      ensures q in s.owner && s.owner[q] == u
    {
      assert Owns(s.threads[u].pc, q);
    }
  }

  lemma {:induction false} ReturnPartition<T>(s: State<T>, t: Tid)
    requires Owned(s) && t in s.threads && Lo(s.threads[t].pc) >= Hi(s.threads[t].pc)
    ensures Partition(Return(s, t), s.owner, s.published, s.abandoned, s.claim)
  {
    var threads := Return(s, t);
    forall u, q: int | u in threads && Owns(threads[u].pc, q)
      ensures q in s.owner && s.owner[q] == u
    {
      assert Owns(s.threads[u].pc, q);
    }
  }

  /** A claim by fetch_add or by a successful CAS hands out sequences nobody holds. */
  lemma {:induction false} ClaimPartition<T>(s: State<T>, t: Tid, pc: Pc<T>, start: int, n: nat)
    requires start == s.claim + 1
    requires Owned(s) && t in s.threads && s.claim >= -1
    requires Lo(s.threads[t].pc) >= Hi(s.threads[t].pc)
    requires Lo(pc) == start && Hi(pc) == start + n
    ensures Partition(Goto(s, t, pc), Claimed(s.owner, start, n, t), s.published, s.abandoned, start + n - 1)
  {
    ClaimedSequences(s, t, start, n);
    ClaimedOwners(s, t, pc, start, n);
  }

  /** The claimed sequences and those already held fill everything up to the new claim cursor. */
  lemma {:induction false} ClaimedSequences<T>(s: State<T>, t: Tid, start: int, n: nat)
    requires start == s.claim + 1
    requires Owned(s) && s.claim >= -1
    ensures var owner := Claimed(s.owner, start, n, t);
            && (forall q: int :: q in owner || q in s.published || q in s.abandoned <==> 0 <= q < start + n)
            && (forall q :: q in owner ==> q !in s.published && q !in s.abandoned)
  {
  }

  lemma {:induction false} ClaimedOwners<T>(s: State<T>, t: Tid, pc: Pc<T>, start: int, n: nat)
    requires start == s.claim + 1
    requires Owned(s) && t in s.threads && s.claim >= -1
    requires Lo(s.threads[t].pc) >= Hi(s.threads[t].pc)
    requires Lo(pc) == start && Hi(pc) == start + n
    ensures OwnersAgree(Goto(s, t, pc), Claimed(s.owner, start, n, t))
  {
    var owner := Claimed(s.owner, start, n, t);
    var threads := Goto(s, t, pc);
    forall q | q in owner
      ensures owner[q] in threads && Owns(threads[owner[q]].pc, q)
    {
      if q in s.owner { assert Owns(s.threads[s.owner[q]].pc, q); }
    }
    forall u, q: int | u in threads && Owns(threads[u].pc, q)
      ensures q in owner && owner[q] == u
    {
      if u != t { assert Owns(s.threads[u].pc, q); }
    }
  }

  /** A blocked send that gives up leaves its sequences abandoned; the consumer has not passed them. */
  lemma {:induction false} GiveUpPartition<T>(s: State<T>, t: Tid)
    requires Owned(s) && t in s.threads && s.threads[t].pc.Blocked?
    requires Progress(s.published, s.abandoned, s.cap, s.next)
    ensures var range := Range(s.threads[t].pc.start, s.threads[t].pc.n);
            Partition(Return(s, t), s.owner - range, s.published, s.abandoned + range, s.claim)
            && Progress(s.published, s.abandoned + range, s.cap, s.next)
  {
    var pc := s.threads[t].pc;
    var range := Range(pc.start, pc.n);
    var threads, owner := Return(s, t), s.owner - range;
    forall q: int | q in range
      ensures q in s.owner && s.owner[q] == t
    {
      assert Owns(pc, q);
    }
    forall q | q in owner
      ensures owner[q] in threads && Owns(threads[owner[q]].pc, q)
    {
      assert Owns(s.threads[s.owner[q]].pc, q);
    }
    forall u, q: int | u in threads && Owns(threads[u].pc, q)
      ensures q in owner && owner[q] == u
    {
      assert Owns(s.threads[u].pc, q);
    }
  }

  /** Publishing the first `k` sequences of a thread hands them over to the consumer. */
  lemma {:induction false} FlushPartition<T>(s: State<T>, t: Tid, k: nat)
    requires Owned(s) && t in s.threads && s.threads[t].pc.Publishing? && 1 <= k <= s.threads[t].pc.n
    ensures var pc := s.threads[t].pc;
            Partition(Goto(s, t, Publishing(pc.start + k, pc.n - k)), s.owner - Range(pc.start, k),
                      s.published + Range(pc.start, k), s.abandoned, s.claim)
  {
    RangeOwned(s, t, k);
    FlushedOwners(s, t, k);
  }

  lemma {:induction false} RangeOwned<T>(s: State<T>, t: Tid, k: nat)
    requires Owned(s) && t in s.threads && s.threads[t].pc.Publishing? && k <= s.threads[t].pc.n
    ensures forall q: int :: q in Range(s.threads[t].pc.start, k) ==> q in s.owner && s.owner[q] == t
  {
    var pc := s.threads[t].pc;
    forall q: int | q in Range(pc.start, k)
      ensures q in s.owner && s.owner[q] == t
    {
      assert Owns(pc, q);
    }
  }

  lemma {:induction false} FlushedOwners<T>(s: State<T>, t: Tid, k: nat)
    requires Owned(s) && t in s.threads && s.threads[t].pc.Publishing? && 1 <= k <= s.threads[t].pc.n
    ensures var pc := s.threads[t].pc;
            OwnersAgree(Goto(s, t, Publishing(pc.start + k, pc.n - k)), s.owner - Range(pc.start, k))
  {
    var pc := s.threads[t].pc;
    var threads := Goto(s, t, Publishing(pc.start + k, pc.n - k));
    var owner := s.owner - Range(pc.start, k);
    RangeOwned(s, t, k);
    forall q | q in owner
      ensures owner[q] in threads && Owns(threads[owner[q]].pc, q)
    {
      assert Owns(s.threads[s.owner[q]].pc, q);
    }
    forall u, q: int | u in threads && Owns(threads[u].pc, q)
      ensures q in owner && owner[q] == u
    {
      assert Owns(s.threads[u].pc, q);
    }
  }

  // ------------------------------------------------------------ locals

  ghost predicate LocalsOk<T>(s: State<T>)
  {
    ThreadsOk(s.threads, s.cap, s.consumed, s.sends, s.wrote)
  }

  lemma {:induction false} GotoLocals<T>(s: State<T>, t: Tid, pc: Pc<T>)
    requires LocalsOk(s) && t in s.threads
    requires HasSpace(pc, s.cap, s.consumed) && Remembers(pc, s.sends, s.wrote)
    ensures ThreadsOk(Goto(s, t, pc), s.cap, s.consumed, s.sends, s.wrote)
  {
  }

  lemma {:induction false} ClaimLocals<T>(s: State<T>, t: Tid, pc: Pc<T>, start: int, what: Claim<T>)
    requires start == s.claim + 1
    requires LocalsOk(s) && Owned(s) && t in s.threads
    requires Records(s.sends, s.wrote, s.published, s.claim)
    requires HasSpace(pc, s.cap, s.consumed) && Remembers(pc, RecordSends(s.sends, start, what), s.wrote)
    ensures ThreadsOk(Goto(s, t, pc), s.cap, s.consumed, RecordSends(s.sends, start, what), s.wrote)
  {
    var sends := RecordSends(s.sends, start, what);
    var threads := Goto(s, t, pc);
    forall u | u in threads
      ensures HasSpace(threads[u].pc, s.cap, s.consumed) && Remembers(threads[u].pc, sends, s.wrote)
    {
      if u != t {
        ClaimKeepsMemory(s, u, start, what);
      }
    }
  }

  lemma {:induction false} ClaimKeepsMemory<T>(s: State<T>, u: Tid, start: int, what: Claim<T>)
    requires start == s.claim + 1
    requires Owned(s) && u in s.threads && Remembers(s.threads[u].pc, s.sends, s.wrote)
    ensures Remembers(s.threads[u].pc, RecordSends(s.sends, start, what), s.wrote)
  {
    var p := s.threads[u].pc;
    if Owns(p, start) {
      OwnedSequence(s, u, start);
      assert false;
    }
    assert forall q :: q != start ==> (q in RecordSends(s.sends, start, what) <==> q in s.sends);
  }

  lemma {:induction false} WriteLocals<T>(s: State<T>, t: Tid, q: int, v: T)
    requires LocalsOk(s) && Owned(s) && t in s.threads && s.threads[t].pc.Owning? && Owns(s.threads[t].pc, q)
    requires s.threads[t].pc.what.Single? ==> v == s.threads[t].pc.what.event
    ensures ThreadsOk(AfterWrite(s, t), s.cap, s.consumed, s.sends, s.wrote[q := v])
  {
    var threads := AfterWrite(s, t);
    forall u | u in threads
      ensures HasSpace(threads[u].pc, s.cap, s.consumed) && Remembers(threads[u].pc, s.sends, s.wrote[q := v])
    {
      if u == t { WriterRemembers(s, t, q, v); } else { WriteKeepsMemory(s, t, u, q, v); }
    }
  }

  lemma {:induction false} WriterRemembers<T>(s: State<T>, t: Tid, q: int, v: T)
    requires LocalsOk(s) && t in s.threads && s.threads[t].pc.Owning? && Owns(s.threads[t].pc, q)
    requires s.threads[t].pc.what.Single? ==> v == s.threads[t].pc.what.event
    ensures var pc := AfterWrite(s, t)[t].pc;
            HasSpace(pc, s.cap, s.consumed) && Remembers(pc, s.sends, s.wrote[q := v])
  {
  }

  lemma {:induction false} WriteKeepsMemory<T>(s: State<T>, t: Tid, u: Tid, q: int, v: T)
    requires LocalsOk(s) && Owned(s) && t in s.threads && s.threads[t].pc.Owning? && Owns(s.threads[t].pc, q)
    requires u in s.threads && u != t
    ensures HasSpace(s.threads[u].pc, s.cap, s.consumed) && Remembers(s.threads[u].pc, s.sends, s.wrote[q := v])
  {
    OwnedSequence(s, t, q);
    assert !Owns(s.threads[u].pc, q);
  }

  /** A claimant's write stays clear of every slot that is still to be consumed. */
  lemma {:induction false} WriteKeepsSlots<T>(slots: seq<T>, wrote: map<int, T>, cap: nat, next: nat, q: nat, v: T)
    requires cap > 0 && |slots| == cap && SlotsOk(slots, wrote, cap, next)
    requires next <= q < next + cap
    ensures SlotsOk(slots[q % cap := v], wrote[q := v], cap, next)
  {
    var slots', wrote' := slots[q % cap := v], wrote[q := v];
    forall p: int | p in wrote'
      ensures 0 <= p < next + cap && (p >= next ==> slots'[p % cap] == wrote'[p])
    {
      if p in wrote && p != q && p >= next {
        if p < q { SlotsDistinct(cap, p, q); } else { SlotsDistinct(cap, q, p); }
      }
    }
  }

  // ------------------------------------------------------------ the bitmap under Flush

  /** One fetch_xor with the mask of a run inside one word marks every sequence of the run. */
  lemma {:induction false} FlushMarksRun(avail: seq<nat>, cap: nat, s: nat, k: nat)
    requires cap > 0 && cap % BITS_PER_WORD == 0 && |avail| == WordCount(cap) && k <= cap && OneWord(cap, s, k)
    ensures FetchXor(avail, WordIndex(cap, s), RunMask(s, k)) == MarkEach(avail, cap, s, k)
  {
    RunPending(avail, cap, s, k, WordIndex(cap, s));
  }

  /** The mask of a run is what the batched loop has gathered after the run. */
  lemma {:induction false} RunPending(avail: seq<nat>, cap: nat, s: nat, k: nat, w: nat)
    requires cap > 0 && cap % BITS_PER_WORD == 0 && |avail| == WordCount(cap) && k <= cap && w < |avail|
    requires forall q: nat :: s <= q < s + k ==> WordIndex(cap, q) == w
    ensures Pending(avail, avail, cap, s, k, w, RunMask(s, k))
  {
    if k == 0 {
      StartWord(avail, avail, cap, s, 0, w);
    } else {
      var i := k - 1;
      RunPending(avail, cap, s, i, w);
      RunMaskNext(s, i, s + i);
      Accumulate(avail, avail, cap, s, i, s + i, w, RunMask(s, i));
    }
  }

  lemma {:induction false} RunMaskNext(s: nat, i: nat, q: nat)
    requires q == s + i
    ensures RunMask(s, i + 1) == Or(RunMask(s, i), Pow2(BitIndex(q)))
  {
  }

  lemma {:induction false} PublishRun(avail: seq<nat>, cap: nat, consumed: int, published: set<int>, s: nat, k: nat)
    requires cap > 0 && cap % BITS_PER_WORD == 0 && |avail| == WordCount(cap) && consumed >= -1
    requires Represents(avail, cap, consumed, published)
    requires consumed < s && s + k - 1 <= consumed + cap
    requires forall q: int :: s <= q < s + k ==> q !in published
    ensures Represents(MarkEach(avail, cap, s, k), cap, consumed, published + Range(s, k))
  {
    if k == 0 {
      assert published + Range(s, k) == published;
    } else {
      PublishRun(avail, cap, consumed, published, s, k - 1);
      PublishOneMore(MarkEach(avail, cap, s, k - 1), cap, consumed, published, s, k);
    }
  }

  lemma {:induction false} PublishOneMore(avail: seq<nat>, cap: nat, consumed: int, published: set<int>, s: nat, k: nat)
    requires cap > 0 && cap % BITS_PER_WORD == 0 && |avail| == WordCount(cap) && consumed >= -1 && k > 0
    requires Represents(avail, cap, consumed, published + Range(s, k - 1))
    requires consumed < s && s + k - 1 <= consumed + cap && s + k - 1 !in published
    ensures Represents(Mark(avail, cap, s + k - 1), cap, consumed, published + Range(s, k))
  {
    var before := published + Range(s, k - 1);
    PublishKeepsWindow(avail, cap, consumed, before, s + k - 1);
    assert before + {s + k - 1} == published + Range(s, k);
  }

  // ------------------------------------------------------------ every producer step keeps the invariant

  lemma {:induction false} BeginInv<T>(s: State<T>, s': State<T>, t: Tid, h: Handle, n: nat, what: Claim<T>,
      blocking: bool)
    requires Inv(s) && DoBegin(s, s', t, h, n, what, blocking)
    ensures Inv(s')
  {
    if !s.closed {
      BeginPartition(s, t, Thread(h, Checked(n, what, blocking, 0)));
    }
  }

  /** Both ways of claiming: `n` fresh sequences at the end of the claim cursor. */
  lemma {:induction false} ClaimInv<T>(s: State<T>, t: Tid, pc: Pc<T>, start: int, n: nat, what: Claim<T>)
    requires start == s.claim + 1
    requires Inv(s) && t in s.threads && Lo(s.threads[t].pc) >= Hi(s.threads[t].pc)
    requires n >= 1 && Lo(pc) == start && Hi(pc) == start + n
    requires HasSpace(pc, s.cap, s.consumed) && Remembers(pc, RecordSends(s.sends, start, what), s.wrote)
    ensures Inv(AfterClaim(s, t, pc, start, n, what))
  {
    ClaimOk(s, t, pc, start, n, what);
    ClaimerMoves(s, AfterClaim(s, t, pc, start, n, what));
  }

  /** The parts of the invariant a claim can touch. */
  ghost predicate ClaimerOk<T>(s: State<T>)
  {
    && Owned(s) && LocalsOk(s) && Records(s.sends, s.wrote, s.published, s.claim) && s.claim >= -1
    && HandlesOk(s.threads, s.handles, s.producerCount, s.closing, s.closed, s.closedByCall, s.abandoned)
  }

  lemma {:induction false} ClaimOk<T>(s: State<T>, t: Tid, pc: Pc<T>, start: int, n: nat, what: Claim<T>)
    requires start == s.claim + 1
    requires ClaimerOk(s) && t in s.threads && Lo(s.threads[t].pc) >= Hi(s.threads[t].pc)
    requires n >= 1 && Lo(pc) == start && Hi(pc) == start + n
    requires HasSpace(pc, s.cap, s.consumed) && Remembers(pc, RecordSends(s.sends, start, what), s.wrote)
    ensures ClaimerOk(AfterClaim(s, t, pc, start, n, what)) && s.handles != {}
  {
    ClaimPartition(s, t, pc, start, n);
    ClaimLocals(s, t, pc, start, what);
    GotoHandles(s, t, pc);
    ClaimRecords(s, start, n, what);
  }

  lemma {:induction false} ClaimRecords<T>(s: State<T>, start: int, n: nat, what: Claim<T>)
    requires start == s.claim + 1
    requires Records(s.sends, s.wrote, s.published, s.claim) && n >= 1
    requires forall q :: q in s.published ==> q <= s.claim
    ensures Records(RecordSends(s.sends, start, what), s.wrote, s.published, start + n - 1)
  {
  }

  lemma {:induction false} GotoHandles<T>(s: State<T>, t: Tid, pc: Pc<T>)
    requires HandlesOk(s.threads, s.handles, s.producerCount, s.closing, s.closed, s.closedByCall, s.abandoned)
             && t in s.threads
    ensures HandlesOk(Goto(s, t, pc), s.handles, s.producerCount, s.closing, s.closed, s.closedByCall, s.abandoned)
    ensures s.handles != {}
  {
    assert s.threads[t].handle in s.handles;
  }

  /** Only the claim cursor and the claiming thread change. */
  lemma {:induction false} ClaimerMoves<T>(s: State<T>, s': State<T>)
    requires Inv(s) && ClaimerOk(s') && s.claim < s'.claim && s.handles != {}
    requires s' == s.(claim := s'.claim, threads := s'.threads, owner := s'.owner, sends := s'.sends)
    ensures Inv(s')
  {
  }

  lemma {:induction false} FetchAddInv<T>(s: State<T>, s': State<T>, t: Tid)
    requires Inv(s) && DoFetchAdd(s, s', t)
    ensures Inv(s')
  {
    var pc, start := s.threads[t].pc, s.claim + 1;
    assert Remembers(pc, s.sends, s.wrote);
    RememberClaim(s, start, pc.n, pc.what);
    ClaimInv(s, t, Waiting(start, pc.n, pc.what), start, pc.n, pc.what);
  }

  lemma {:induction false} RememberClaim<T>(s: State<T>, start: int, n: nat, what: Claim<T>)
    requires start == s.claim + 1
    requires n >= 1 && (what.Single? ==> n == 1) && Records(s.sends, s.wrote, s.published, s.claim) && s.claim >= -1
    ensures Remembers(Waiting(start, n, what), RecordSends(s.sends, start, what), s.wrote)
    ensures Remembers(Owning(start, n, what), RecordSends(s.sends, start, what), s.wrote)
  {
  }

  lemma {:induction false} PollSpaceInv<T>(s: State<T>, s': State<T>, t: Tid)
    requires Inv(s) && DoPollSpace(s, s', t)
    ensures Inv(s')
  {
    assert Remembers(s.threads[t].pc, s.sends, s.wrote);
    GotoPartition(s, t, s'.threads[t].pc);
    GotoLocals(s, t, s'.threads[t].pc);
  }

  lemma {:induction false} PollClosedInv<T>(s: State<T>, s': State<T>, t: Tid)
    requires Inv(s) && DoPollClosed(s, s', t)
    ensures Inv(s')
  {
    assert Remembers(s.threads[t].pc, s.sends, s.wrote);
    if s.closed {
      GiveUpPartition(s, t);
      assert s.threads[t].handle in s.handles;
    } else {
      GotoPartition(s, t, s'.threads[t].pc);
      GotoLocals(s, t, s'.threads[t].pc);
    }
  }

  lemma {:induction false} LoadClaimInv<T>(s: State<T>, s': State<T>, t: Tid)
    requires Inv(s) && DoLoadClaim(s, s', t)
    ensures Inv(s')
  {
    assert Remembers(s.threads[t].pc, s.sends, s.wrote);
    GotoPartition(s, t, s'.threads[t].pc);
    GotoLocals(s, t, s'.threads[t].pc);
  }

  lemma {:induction false} LoadConsumerInv<T>(s: State<T>, s': State<T>, t: Tid)
    requires Inv(s) && DoLoadConsumer(s, s', t)
    ensures Inv(s')
  {
    assert Remembers(s.threads[t].pc, s.sends, s.wrote);
    if t in s'.threads {
      GotoPartition(s, t, s'.threads[t].pc);
      GotoLocals(s, t, s'.threads[t].pc);
    } else {
      ReturnPartition(s, t);
    }
  }

  lemma {:induction false} CasInv<T>(s: State<T>, s': State<T>, t: Tid)
    requires Inv(s) && DoCas(s, s', t)
    ensures Inv(s')
  {
    if s.claim == s.threads[t].pc.current { CasWinsInv(s, s', t); } else { CasLosesInv(s, s', t); }
  }

  lemma {:induction false} CasWinsInv<T>(s: State<T>, s': State<T>, t: Tid)
    requires Inv(s) && DoCas(s, s', t) && s.claim == s.threads[t].pc.current
    ensures Inv(s')
  {
    var start := s.claim + 1;
    CasWins(s, s', t, start);
    SpacedClaims(s, t, start);
  }

  lemma {:induction false} CasWins<T>(s: State<T>, s': State<T>, t: Tid, start: nat)
    requires DoCas(s, s', t) && s.claim == s.threads[t].pc.current && start == s.claim + 1
    ensures var pc := s.threads[t].pc;
            s' == AfterClaim(s, t, Owning(start, pc.n, pc.what), start, pc.n, pc.what)
  {
  }

  lemma {:induction false} SpacedClaims<T>(s: State<T>, t: Tid, start: nat)
    requires Inv(s) && t in s.threads && s.threads[t].pc.Spaced? && s.claim == s.threads[t].pc.current
    requires start == s.claim + 1
    ensures var pc := s.threads[t].pc;
            Inv(AfterClaim(s, t, Owning(start, pc.n, pc.what), start, pc.n, pc.what))
  {
    var pc := s.threads[t].pc;
    assert Remembers(pc, s.sends, s.wrote) && HasSpace(pc, s.cap, s.consumed);
    RememberClaim(s, start, pc.n, pc.what);
    ClaimInv(s, t, Owning(start, pc.n, pc.what), start, pc.n, pc.what);
  }

  lemma {:induction false} CasLosesInv<T>(s: State<T>, s': State<T>, t: Tid)
    requires Inv(s) && DoCas(s, s', t) && s.claim != s.threads[t].pc.current
    ensures Inv(s')
  {
    assert Remembers(s.threads[t].pc, s.sends, s.wrote);
    if t in s'.threads {
      GotoPartition(s, t, s'.threads[t].pc);
      GotoLocals(s, t, s'.threads[t].pc);
    } else {
      ReturnPartition(s, t);
    }
  }

  lemma {:induction false} WriteInv<T>(s: State<T>, s': State<T>, t: Tid, q: nat, v: T)
    requires Inv(s) && DoWrite(s, s', t, q, v)
    ensures Inv(s')
  {
    WriterPart(s);
    WriteOk(s, t, q, v);
    WrittenMoves(s, t, q, v);
  }

  lemma {:induction false} WriterPart<T>(s: State<T>)
    requires Inv(s)
    ensures WriterOk(s)
  {
  }

  lemma {:induction false} WrittenMoves<T>(s: State<T>, t: Tid, q: nat, v: T)
    requires Inv(s) && t in s.threads && s.threads[t].pc.Owning? && WriterOk(Written(s, t, q, v))
    ensures Inv(Written(s, t, q, v))
  {
    WriterMoves(s, Written(s, t, q, v));
  }

  lemma {:induction false} WriteOk<T>(s: State<T>, t: Tid, q: nat, v: T)
    requires t in s.threads && s.threads[t].pc.Owning? && Owns(s.threads[t].pc, q)
    requires s.threads[t].pc.what.Single? ==> v == s.threads[t].pc.what.event
    requires WriterOk(s) && Progress(s.published, s.abandoned, s.cap, s.next) && s.consumed == s.next - 1
    ensures WriterOk(Written(s, t, q, v))
  {
    WriteRing(s, t, q, v);
    WriteThreads(s, t, q, v);
    WriteHandles(s, t);
  }

  lemma {:induction false} WriteHandles<T>(s: State<T>, t: Tid)
    requires t in s.threads && s.threads[t].pc.Owning?
    requires HandlesOk(s.threads, s.handles, s.producerCount, s.closing, s.closed, s.closedByCall, s.abandoned)
    ensures HandlesOk(AfterWrite(s, t), s.handles, s.producerCount, s.closing, s.closed, s.closedByCall, s.abandoned)
  {
    GotoHandles(s, t, Publishing(s.threads[t].pc.start, s.threads[t].pc.n));
  }

  lemma {:induction false} WriteRing<T>(s: State<T>, t: Tid, q: nat, v: T)
    requires Owned(s) && LocalsOk(s) && Progress(s.published, s.abandoned, s.cap, s.next) && s.consumed == s.next - 1
    requires t in s.threads && s.threads[t].pc.Owning? && Owns(s.threads[t].pc, q)
    requires s.cap > 0 && |s.slots| == s.cap && SlotsOk(s.slots, s.wrote, s.cap, s.next)
    requires Records(s.sends, s.wrote, s.published, s.claim) && ReceivedOk(s.received, s.wrote, s.next)
    requires ConsumerOk(s.consumer, s.next, s.cap, s.published, s.wrote, s.closed)
    ensures SlotsOk(s.slots[q % s.cap := v], s.wrote[q := v], s.cap, s.next)
    ensures Records(s.sends, s.wrote[q := v], s.published, s.claim) && ReceivedOk(s.received, s.wrote[q := v], s.next)
    ensures ConsumerOk(s.consumer, s.next, s.cap, s.published, s.wrote[q := v], s.closed)
  {
    WriteTarget(s, t, q);
    WriteKeepsSlots(s.slots, s.wrote, s.cap, s.next, q, v);
    WriteKeepsHistories(s, q, v);
  }

  /** The parts of the invariant a write can touch. */
  ghost predicate WriterOk<T>(s: State<T>)
  {
    && Owned(s) && LocalsOk(s)
    && s.cap > 0 && |s.slots| == s.cap && SlotsOk(s.slots, s.wrote, s.cap, s.next)
    && Records(s.sends, s.wrote, s.published, s.claim) && ReceivedOk(s.received, s.wrote, s.next)
    && ConsumerOk(s.consumer, s.next, s.cap, s.published, s.wrote, s.closed)
    && HandlesOk(s.threads, s.handles, s.producerCount, s.closing, s.closed, s.closedByCall, s.abandoned)
  }

  /** Only the ring and the writing thread change. */
  lemma {:induction false} WriterMoves<T>(s: State<T>, s': State<T>)
    requires Inv(s) && WriterOk(s') && s' == s.(slots := s'.slots, wrote := s'.wrote, threads := s'.threads)
    ensures Inv(s')
  {
  }

  lemma {:induction false} WriteTarget<T>(s: State<T>, t: Tid, q: int)
    requires Owned(s) && LocalsOk(s) && Progress(s.published, s.abandoned, s.cap, s.next) && s.consumed == s.next - 1
    requires t in s.threads && s.threads[t].pc.Owning? && Owns(s.threads[t].pc, q)
    ensures s.next <= q < s.next + s.cap && q !in s.published
  {
    OwnedSequence(s, t, q);
    assert HasSpace(s.threads[t].pc, s.cap, s.consumed);
  }

  lemma {:induction false} WriteThreads<T>(s: State<T>, t: Tid, q: nat, v: T)
    requires Owned(s) && LocalsOk(s) && t in s.threads && s.threads[t].pc.Owning? && Owns(s.threads[t].pc, q)
    requires s.threads[t].pc.what.Single? ==> v == s.threads[t].pc.what.event
    ensures Partition(AfterWrite(s, t), s.owner, s.published, s.abandoned, s.claim)
    ensures ThreadsOk(AfterWrite(s, t), s.cap, s.consumed, s.sends, s.wrote[q := v])
  {
    WriteLocals(s, t, q, v);
    WritePartition(s, t);
  }

  lemma {:induction false} WritePartition<T>(s: State<T>, t: Tid)
    requires Owned(s) && t in s.threads && s.threads[t].pc.Owning?
    ensures Partition(AfterWrite(s, t), s.owner, s.published, s.abandoned, s.claim)
  {
    var pc := s.threads[t].pc;
    if pc.what.Single? {
      GotoPartition(s, t, Publishing(pc.start, pc.n));
    }
  }

  /** Nothing published or received mentions the sequence being written. */
  lemma {:induction false} WriteKeepsHistories<T>(s: State<T>, q: nat, v: T)
    requires Progress(s.published, s.abandoned, s.cap, s.next) && q !in s.published
    requires Records(s.sends, s.wrote, s.published, s.claim) && ReceivedOk(s.received, s.wrote, s.next)
    requires ConsumerOk(s.consumer, s.next, s.cap, s.published, s.wrote, s.closed)
    ensures Records(s.sends, s.wrote[q := v], s.published, s.claim) && ReceivedOk(s.received, s.wrote[q := v], s.next)
    ensures ConsumerOk(s.consumer, s.next, s.cap, s.published, s.wrote[q := v], s.closed)
  {
  }

  lemma {:induction false} StartPublishInv<T>(s: State<T>, s': State<T>, t: Tid)
    requires Inv(s) && DoStartPublish(s, s', t)
    ensures Inv(s')
  {
    assert Remembers(s.threads[t].pc, s.sends, s.wrote) && HasSpace(s.threads[t].pc, s.cap, s.consumed);
    GotoPartition(s, t, s'.threads[t].pc);
    GotoLocals(s, t, s'.threads[t].pc);
  }

  lemma {:induction false} FlushInv<T>(s: State<T>, s': State<T>, t: Tid, k: nat)
    requires Inv(s) && DoFlush(s, s', t, k)
    ensures Inv(s')
  {
    FlushWindow(s, s', t, k);
    FlushHistories(s, s', t, k);
    FlushOwnership(s, s', t, k);
    FlushLocals(s, s', t, k);
    assert s.threads[t].handle in s.handles;
  }

  lemma {:induction false} FlushWindow<T>(s: State<T>, s': State<T>, t: Tid, k: nat)
    requires Shape(s) && s.cap % BITS_PER_WORD == 0 && s.consumed == s.next - 1
    requires Owned(s) && LocalsOk(s) && Progress(s.published, s.abandoned, s.cap, s.next)
    requires Represents(s.avail, s.cap, s.consumed, s.published)
    requires DoFlush(s, s', t, k)
    ensures Shape(s') && Represents(s'.avail, s'.cap, s'.consumed, s'.published)
  {
    var pc := s.threads[t].pc;
    FlushTargets(s, t);
    FlushMarksRun(s.avail, s.cap, pc.start, k);
    PublishRun(s.avail, s.cap, s.consumed, s.published, pc.start, k);
    MarkEachWellFormed(s.avail, s.cap, pc.start, k);
  }

  lemma {:induction false} FlushTargets<T>(s: State<T>, t: Tid)
    requires Owned(s) && LocalsOk(s) && Progress(s.published, s.abandoned, s.cap, s.next) && s.consumed == s.next - 1
    requires t in s.threads && s.threads[t].pc.Publishing? && s.threads[t].pc.n >= 1
    ensures var pc := s.threads[t].pc;
            && (forall q: int :: pc.start <= q < pc.start + pc.n ==> q !in s.published && s.next <= q < s.next + s.cap)
            && s.next <= pc.start && pc.n <= s.cap && pc.start + pc.n <= s.next + s.cap
  {
    var pc := s.threads[t].pc;
    assert HasSpace(pc, s.cap, s.consumed);
    forall q: int | pc.start <= q < pc.start + pc.n
      ensures q !in s.published && s.next <= q < s.next + s.cap
    {
      assert Owns(pc, q);
      OwnedSequence(s, t, q);
    }
    assert pc.start !in s.published;
  }

  lemma {:induction false} FlushHistories<T>(s: State<T>, s': State<T>, t: Tid, k: nat)
    requires Owned(s) && LocalsOk(s) && Progress(s.published, s.abandoned, s.cap, s.next) && s.consumed == s.next - 1
    requires Records(s.sends, s.wrote, s.published, s.claim) && DoFlush(s, s', t, k)
    ensures Progress(s'.published, s'.abandoned, s'.cap, s'.next)
    ensures Records(s'.sends, s'.wrote, s'.published, s'.claim)
  {
    FlushTargets(s, t);
    assert Remembers(s.threads[t].pc, s.sends, s.wrote);
  }

  lemma {:induction false} FlushOwnership<T>(s: State<T>, s': State<T>, t: Tid, k: nat)
    requires Owned(s) && DoFlush(s, s', t, k)
    ensures Owned(s')
  {
    var pc := s.threads[t].pc;
    FlushPartition(s, t, k);
    if k == pc.n {
      var mid := s'.(threads := Goto(s, t, Publishing(pc.start + k, pc.n - k)));
      ReturnPartition(mid, t);
      assert Return(mid, t) == s'.threads;
    }
  }

  lemma {:induction false} FlushLocals<T>(s: State<T>, s': State<T>, t: Tid, k: nat)
    requires LocalsOk(s) && DoFlush(s, s', t, k)
    ensures LocalsOk(s')
  {
    var pc := s.threads[t].pc;
    assert HasSpace(pc, s.cap, s.consumed) && Remembers(pc, s.sends, s.wrote);
    GotoLocals(s, t, Publishing(pc.start + k, pc.n - k));
  }

  // ------------------------------------------------------------ handles

  lemma {:induction false} HandleInv<T>(s: State<T>, s': State<T>, step: HandleAct)
    requires Inv(s) && HandleStep(s, s', step)
    ensures Inv(s')
  {
    HandlesChange(s, s', step);
    HandlesMove(s, s'.handles, s'.producerCount, s'.closing, s'.closed, s'.closedByCall);
  }

  lemma {:induction false} HandlesChange<T>(s: State<T>, s': State<T>, step: HandleAct)
    requires HandlesOk(s.threads, s.handles, s.producerCount, s.closing, s.closed, s.closedByCall, s.abandoned)
    requires HandleStep(s, s', step) && (s.cleanEnd ==> s.handles == {})
    ensures HandlesOk(s.threads, s'.handles, s'.producerCount, s'.closing, s'.closed, s'.closedByCall, s.abandoned)
    ensures s' == s.(handles := s'.handles, producerCount := s'.producerCount, closing := s'.closing,
                     closed := s'.closed, closedByCall := s'.closedByCall)
    ensures (s.closed ==> s'.closed) && (s.cleanEnd ==> s'.handles == {})
  {
    if step.Drop? {
      assert |s'.handles| == |s.handles| - 1;
      assert s'.handles == {} <==> |s'.handles| == 0;
    }
  }

  /** Only the handles and the flags change. */
  lemma {:induction false} HandlesMove<T>(s: State<T>, handles: set<Handle>, count: nat, closing: bool, closed: bool,
      byCall: bool)
    requires Inv(s) && HandlesOk(s.threads, handles, count, closing, closed, byCall, s.abandoned)
    requires (s.closed ==> closed) && (s.cleanEnd ==> handles == {})
    ensures Inv(s.(handles := handles, producerCount := count, closing := closing, closed := closed,
                   closedByCall := byCall))
  {
  }

  // ------------------------------------------------------------ consumer steps

  /** Only the consumer's own state changes. */
  lemma {:induction false} ConsumerMoves<T>(s: State<T>, c: Consumer<T>, clean: bool)
    requires Inv(s) && ConsumerOk(c, s.next, s.cap, s.published, s.wrote, s.closed)
    requires clean ==> s.handles == {} && s.claim == s.next - 1
    ensures Inv(s.(consumer := c, cleanEnd := clean))
  {
  }

  lemma {:induction false} RecvInv<T>(s: State<T>, s': State<T>, step: ConsumerAct)
    requires Inv(s) && DoTest(s, s', step) && !step.Retest?
    ensures Inv(s')
  {
    TestIsRight(s);
    TestedConsumer(s, s', step, IsPublished(s.avail, s.cap, s.next));
    ConsumerMoves(s, s'.consumer, s.cleanEnd);
  }

  lemma {:induction false} TestedConsumer<T>(s: State<T>, s': State<T>, step: ConsumerAct, seen: bool)
    requires AfterTest(s, s', step, seen) && (seen <==> s.next in s.published) && !step.Retest? && s.cap > 0
    requires ConsumerOk(s.consumer, s.next, s.cap, s.published, s.wrote, s.closed)
    ensures s' == s.(consumer := s'.consumer, cleanEnd := s.cleanEnd)
    ensures ConsumerOk(s'.consumer, s.next, s.cap, s.published, s.wrote, s.closed)
  {
  }

  lemma {:induction false} RetestInv<T>(s: State<T>, s': State<T>, step: ConsumerAct)
    requires Inv(s) && DoTest(s, s', step) && step.Retest?
    ensures Inv(s')
  {
    TestIsRight(s);
    RetestedConsumer(s, s', step, IsPublished(s.avail, s.cap, s.next));
    if s.next !in s.published && !s.closedByCall {
      NothingLeft(s);
    }
    ConsumerMoves(s, s'.consumer, s'.cleanEnd);
  }

  lemma {:induction false} RetestedConsumer<T>(s: State<T>, s': State<T>, step: ConsumerAct, seen: bool)
    requires AfterTest(s, s', step, seen) && step.Retest? && s.cap > 0
    requires ConsumerOk(s.consumer, s.next, s.cap, s.published, s.wrote, s.closed)
    ensures s' == s.(consumer := s'.consumer, cleanEnd := s'.cleanEnd) && s.closed
    ensures s'.cleanEnd ==> s.cleanEnd || (!seen && !s.closedByCall)
    ensures ConsumerOk(s'.consumer, s.next, s.cap, s.published, s.wrote, s.closed)
  {
  }

  lemma {:induction false} TestIsRight<T>(s: State<T>)
    requires Shape(s) && s.consumed == s.next - 1 && Represents(s.avail, s.cap, s.consumed, s.published)
    ensures IsPublished(s.avail, s.cap, s.next) <==> s.next in s.published
  {
  }

  /** All handles gone and the next sequence unpublished: there is no further sequence. */
  lemma {:induction false} NothingLeft<T>(s: State<T>)
    requires Owned(s) && Progress(s.published, s.abandoned, s.cap, s.next) && s.next !in s.published
    requires HandlesOk(s.threads, s.handles, s.producerCount, s.closing, s.closed, s.closedByCall, s.abandoned)
    requires s.closed && !s.closedByCall && s.claim >= -1
    ensures s.handles == {} && s.claim == s.next - 1
  {
    assert s.next !in s.abandoned;
    assert s.threads.Keys == {};
    assert forall q :: q in s.owner ==> s.owner[q] in s.threads;
    assert s.next > 0 ==> s.next - 1 in s.published;
  }

  lemma {:induction false} ScanLoadInv<T>(s: State<T>, s': State<T>)
    requires Inv(s) && DoScanLoad(s, s')
    ensures Inv(s')
  {
    var at := s.consumer.at;
    var first := FirstMismatch(s.avail[WordIndex(s.cap, at)], ExpectedPattern(s.cap, at), BitIndex(at));
    LoadedRun(s.avail, s.cap, s.next, s.published, at, first);
  }

  lemma {:induction false} ReadSlotInv<T>(s: State<T>, s': State<T>)
    requires Inv(s) && DoReadSlot(s, s')
    ensures Inv(s')
  {
    ReadConsumer(s, s');
    ConsumerMoves(s, s'.consumer, s.cleanEnd);
  }

  lemma {:induction false} ReadConsumer<T>(s: State<T>, s': State<T>)
    requires Shape(s) && ConsumerOk(s.consumer, s.next, s.cap, s.published, s.wrote, s.closed) && DoReadSlot(s, s')
    requires SlotsOk(s.slots, s.wrote, s.cap, s.next)
    ensures s' == s.(consumer := s'.consumer, cleanEnd := s.cleanEnd)
    ensures ConsumerOk(s'.consumer, s.next, s.cap, s.published, s.wrote, s.closed)
  {
    var q := s.next + |s.consumer.out|;
    assert q in s.published;
    forall p: int | s.next <= p < s.next + |s'.consumer.out| && p in s.wrote
      ensures s'.consumer.out[p - s.next] == s.wrote[p]
    {
    }
  }

  lemma {:induction false} AdvanceWindow(avail: seq<nat>, cap: nat, consumed: int, published: set<int>, k: nat)
    requires cap > 0 && cap % BITS_PER_WORD == 0 && |avail| == WordCount(cap) && consumed >= -1
    requires Represents(avail, cap, consumed, published)
    requires forall q: int :: consumed < q <= consumed + k ==> q in published
    requires forall q :: q in published ==> q <= consumed + cap
    ensures Represents(avail, cap, consumed + k, published)
  {
    if k > 0 {
      AdvanceWindow(avail, cap, consumed, published, k - 1);
      AdvanceKeepsWindow(avail, cap, consumed + k - 1, published);
    }
  }

  lemma {:induction false} SetCursorInv<T>(s: State<T>, s': State<T>)
    requires Inv(s) && DoSetCursor(s, s')
    ensures Inv(s')
  {
    var k := s.consumer.count;
    assert s.next in s.published;
    AdvanceWindow(s.avail, s.cap, s.consumed, s.published, k);
    SetCursorHistories(s, s');
  }

  lemma {:induction false} SetCursorHistories<T>(s: State<T>, s': State<T>)
    requires DoSetCursor(s, s') && s.consumed == s.next - 1 && s.cap > 0 && |s.slots| == s.cap
    requires Owned(s) && LocalsOk(s) && Progress(s.published, s.abandoned, s.cap, s.next)
    requires SlotsOk(s.slots, s.wrote, s.cap, s.next) && ReceivedOk(s.received, s.wrote, s.next)
    requires ConsumerOk(s.consumer, s.next, s.cap, s.published, s.wrote, s.closed)
    ensures LocalsOk(s') && Progress(s'.published, s'.abandoned, s'.cap, s'.next)
    ensures SlotsOk(s'.slots, s'.wrote, s'.cap, s'.next) && ReceivedOk(s'.received, s'.wrote, s'.next)
  {
    assert forall q: int :: s.next <= q < s'.next ==> q in s.published;
    SetCursorLocals(s, s');
  }

  lemma {:induction false} SetCursorLocals<T>(s: State<T>, s': State<T>)
    requires DoSetCursor(s, s') && LocalsOk(s) && s.consumed == s.next - 1
    ensures LocalsOk(s')
  {
    forall t | t in s'.threads
      ensures HasSpace(s'.threads[t].pc, s'.cap, s'.consumed) && Remembers(s'.threads[t].pc, s'.sends, s'.wrote)
    {
      assert HasSpace(s.threads[t].pc, s.cap, s.consumed);
    }
  }

  // ------------------------------------------------------------ whole runs

  lemma {:induction false} StepInv<T>(s: State<T>, s': State<T>, step: Step<T>)
    requires Inv(s) && NextStep(s, s', step)
    ensures Inv(s')
  {
    match step
    case Produce(p) => ProducerInv(s, s', p);
    case Manage(h) => HandleInv(s, s', h);
    case Consume(c) => ConsumerInv(s, s', c);
  }

  lemma {:induction false} ProducerInv<T>(s: State<T>, s': State<T>, step: ProducerAct<T>)
    requires Inv(s) && ProducerStep(s, s', step)
    ensures Inv(s')
  {
    match step
    case Begin(t, h, n, what, blocking) => BeginInv(s, s', t, h, n, what, blocking);
    case FetchAdd(t) => FetchAddInv(s, s', t);
    case PollSpace(t) => PollSpaceInv(s, s', t);
    case PollClosed(t) => PollClosedInv(s, s', t);
    case LoadClaim(t) => LoadClaimInv(s, s', t);
    case LoadConsumer(t) => LoadConsumerInv(s, s', t);
    case Cas(t) => CasInv(s, s', t);
    case _ => PublisherInv(s, s', step);
  }

  lemma {:induction false} PublisherInv<T>(s: State<T>, s': State<T>, step: ProducerAct<T>)
    requires Inv(s) && ProducerStep(s, s', step) && (step.Write? || step.StartPublish? || step.Flush?)
    ensures Inv(s')
  {
    match step
    case Write(t, q, v) => WriteInv(s, s', t, q, v);
    case StartPublish(t) => StartPublishInv(s, s', t);
    case Flush(t, k) => FlushInv(s, s', t, k);
  }

  lemma {:induction false} ConsumerInv<T>(s: State<T>, s': State<T>, step: ConsumerAct)
    requires Inv(s) && ConsumerStep(s, s', step)
    ensures Inv(s')
  {
    match step
    case ScanLoad => ScanLoadInv(s, s');
    case ReadSlot => ReadSlotInv(s, s');
    case SetCursor => SetCursorInv(s, s');
    case Retest => RetestInv(s, s', step);
    case _ => RecvInv(s, s', step);
  }

  lemma {:induction false} NextInv<T(!new)>(s: State<T>, s': State<T>)
    requires Inv(s) && Next(s, s')
    ensures Inv(s') && s'.cap == s.cap
  {
    var step :| NextStep(s, s', step);
    StepInv(s, s', step);
    StepGrows(s, s', step);
  }

  lemma {:induction false} RunInv<T(!new)>(run: seq<State<T>>, i: nat)
    requires IsRun(run) && run[0].cap >= BITS_PER_WORD && i < |run|
    ensures Inv(run[i]) && run[i].cap == run[0].cap
  {
    if i == 0 {
      InitInv(run[0]);
    } else {
      RunInv(run, i - 1);
      var j := i - 1;
      NextInv(run[j], run[j + 1]);
    }
  }

  /** Main theorem. In every state of every run the consumer has taken sequences 0, 1, 2, ... with none
    * skipped or repeated; the event at sequence q is the one its claimant sent (or last wrote into its
    * batch slot), and every claimed sequence has exactly one claimant at any time.
    */
  lemma {:induction false} EventsArriveInOrder<T(!new)>(run: seq<State<T>>, i: nat)
    requires IsRun(run) && run[0].cap >= BITS_PER_WORD && i < |run|
    ensures var s := run[i];
            && |s.received| == s.next == s.consumed + 1
            && (forall q: nat :: q < s.next ==> q in s.published)
            && (forall q: nat :: q < s.next && q in s.sends ==> s.received[q] == s.sends[q])
            && (forall q: nat :: q < s.next && q in s.wrote ==> s.received[q] == s.wrote[q])
            && Partition(s.threads, s.owner, s.published, s.abandoned, s.claim)
  {
    RunInv(run, i);
  }

  /** The round-parity test is right for every sequence of the window, after any number of laps. */
  lemma {:induction false} ParityTestIsRight<T(!new)>(run: seq<State<T>>, i: nat, q: nat)
    requires IsRun(run) && run[0].cap >= BITS_PER_WORD && i < |run|
    requires run[i].consumed < q <= run[i].consumed + run[i].cap
    ensures Shape(run[i]) && (IsPublished(run[i].avail, run[i].cap, q) <==> q in run[i].published)
  {
    RunInv(run, i);
  }

  /** With producers publishing between the word loads, a batch receive only reads published sequences. */
  lemma {:induction false} ScanReadsOnlyPublished<T(!new)>(run: seq<State<T>>, i: nat)
    requires IsRun(run) && run[0].cap >= BITS_PER_WORD && i < |run| && run[i].consumer.Reading?
    ensures run[i].consumer.count <= run[i].cap
    ensures forall q: int :: run[i].next <= q < run[i].next + run[i].consumer.count ==> q in run[i].published
  {
    RunInv(run, i);
    var s := run[i];
    assert s.next + s.consumer.count - 1 in s.published;
  }

  /** No step overwrites a published slot that is still to be consumed or is being copied out. */
  lemma {:induction false} PublishedSlotsAreStable<T(!new)>(run: seq<State<T>>, i: nat, q: nat)
    requires IsRun(run) && run[0].cap >= BITS_PER_WORD && i + 1 < |run|
    requires q in run[i].published && q >= run[i].next
    ensures |run[i].slots| == |run[i + 1].slots| == run[i].cap > 0
    ensures run[i + 1].slots[q % run[i].cap] == run[i].slots[q % run[i].cap]
  {
    RunInv(run, i);
    RunInv(run, i + 1);
    var step :| NextStep(run[i], run[i + 1], step);
    StepKeepsPublishedSlot(run[i], run[i + 1], step, q);
  }

  lemma {:induction false} StepKeepsPublishedSlot<T>(s: State<T>, s': State<T>, step: Step<T>, q: nat)
    requires Owned(s) && LocalsOk(s) && Progress(s.published, s.abandoned, s.cap, s.next) && s.consumed == s.next - 1
    requires NextStep(s, s', step) && q in s.published && q >= s.next
    ensures |s'.slots| == s.cap && s'.slots[q % s.cap] == s.slots[q % s.cap]
  {
    match step
    case Produce(p) => ProducerKeepsPublishedSlot(s, s', p, q);
    case Manage(h) => HandleKeepsSlots(s, s', h);
    case Consume(c) => ConsumerFrame(s, s', c);
  }

  lemma {:induction false} HandleKeepsSlots<T>(s: State<T>, s': State<T>, step: HandleAct)
    requires HandleStep(s, s', step)
    ensures s'.slots == s.slots && s'.claim == s.claim
  {
  }

  lemma {:induction false} ProducerKeepsPublishedSlot<T>(s: State<T>, s': State<T>, step: ProducerAct<T>, q: nat)
    requires Owned(s) && LocalsOk(s) && Progress(s.published, s.abandoned, s.cap, s.next) && s.consumed == s.next - 1
    requires Shape(s) && ProducerStep(s, s', step) && q in s.published && q >= s.next
    ensures |s'.slots| == s.cap && s'.slots[q % s.cap] == s.slots[q % s.cap]
  {
    if step.Write? {
      WriteKeepsPublishedSlot(s, s', step.t, step.q, step.v, q);
    } else {
      OnlyWriteTouchesSlots(s, s', step);
    }
  }

  lemma {:induction false} WriteKeepsPublishedSlot<T>(s: State<T>, s': State<T>, t: Tid, w: nat, v: T, q: nat)
    requires Owned(s) && LocalsOk(s) && Progress(s.published, s.abandoned, s.cap, s.next) && s.consumed == s.next - 1
    requires DoWrite(s, s', t, w, v) && q in s.published && q >= s.next
    ensures |s'.slots| == s.cap && s'.slots[q % s.cap] == s.slots[q % s.cap]
  {
    WriteTarget(s, t, w);
    if w < q { SlotsDistinct(s.cap, w, q); } else { SlotsDistinct(s.cap, q, w); }
  }

  lemma {:induction false} OnlyWriteTouchesSlots<T>(s: State<T>, s': State<T>, step: ProducerAct<T>)
    requires ProducerStep(s, s', step) && !step.Write?
    ensures s'.slots == s.slots
  {
    if step.Begin? || step.FetchAdd? || step.PollSpace? {
      BlockingFrame(s, s', step);
    } else if step.LoadClaim? || step.LoadConsumer? || step.Cas? {
      TryFrame(s, s', step);
    } else {
      PublishFrame(s, s', step);
    }
  }

  /** What no producer step up to the write touches. */
  ghost predicate Claims<T>(s: State<T>, s': State<T>)
  {
    && s'.slots == s.slots && s'.received == s.received && s'.published == s.published && s'.abandoned == s.abandoned
    && s'.cleanEnd == s.cleanEnd && s'.cap == s.cap
  }

  lemma {:induction false} BlockingFrame<T>(s: State<T>, s': State<T>, step: ProducerAct<T>)
    requires ProducerStep(s, s', step) && (step.Begin? || step.FetchAdd? || step.PollSpace?)
    ensures Claims(s, s')
  {
  }

  lemma {:induction false} TryFrame<T>(s: State<T>, s': State<T>, step: ProducerAct<T>)
    requires ProducerStep(s, s', step) && (step.LoadClaim? || step.LoadConsumer? || step.Cas?)
    ensures Claims(s, s')
  {
    if step.Cas? { CasFrame(s, s', step.t); }
  }

  lemma {:induction false} CasFrame<T>(s: State<T>, s': State<T>, t: Tid)
    requires DoCas(s, s', t)
    ensures Claims(s, s')
  {
    if s.claim != s.threads[t].pc.current {
      assert s' == s.(threads := s'.threads);
    }
  }

  lemma {:induction false} PublishFrame<T>(s: State<T>, s': State<T>, step: ProducerAct<T>)
    requires ProducerStep(s, s', step) && (step.PollClosed? || step.Write? || step.StartPublish? || step.Flush?)
    ensures Grows(s, s') && (!step.Write? ==> s'.slots == s.slots)
  {
    assert s'.received == s.received;
  }

  ghost predicate IsPrefix<T>(a: seq<T>, b: seq<T>) { |a| <= |b| && a == b[..|a|] }

  ghost predicate Grows<T>(s: State<T>, s': State<T>)
  {
    && IsPrefix(s.received, s'.received) && s.published <= s'.published && s.abandoned <= s'.abandoned
    && (s.cleanEnd ==> s'.cleanEnd) && s'.cap == s.cap
  }

  /** Histories only grow, whatever the interleaving. */
  lemma {:induction false} StepGrows<T>(s: State<T>, s': State<T>, step: Step<T>)
    requires NextStep(s, s', step)
    ensures Grows(s, s')
  {
    match step
    case Produce(p) => ProducerGrows(s, s', p);
    case Manage(h) => HandleGrows(s, s', h);
    case Consume(c) => ConsumerGrows(s, s', c);
  }

  lemma {:induction false} HandleGrows<T>(s: State<T>, s': State<T>, step: HandleAct)
    requires HandleStep(s, s', step)
    ensures Grows(s, s')
  {
  }

  lemma {:induction false} ConsumerGrows<T>(s: State<T>, s': State<T>, step: ConsumerAct)
    requires Shape(s) && ConsumerStep(s, s', step)
    ensures Grows(s, s')
  {
    ConsumerFrame(s, s', step);
  }

  lemma {:induction false} ProducerGrows<T>(s: State<T>, s': State<T>, step: ProducerAct<T>)
    requires ProducerStep(s, s', step)
    ensures Grows(s, s')
  {
    if step.Begin? || step.FetchAdd? || step.PollSpace? {
      BlockingFrame(s, s', step);
    } else if step.LoadClaim? || step.LoadConsumer? || step.Cas? {
      TryFrame(s, s', step);
    } else {
      PublishFrame(s, s', step);
    }
  }

  /** A consumer step leaves the ring, the bitmap, the claims and the handles alone. */
  lemma {:induction false} ConsumerFrame<T>(s: State<T>, s': State<T>, step: ConsumerAct)
    requires Shape(s) && ConsumerStep(s, s', step)
    ensures s'.slots == s.slots && s'.claim == s.claim && s'.published == s.published
    ensures s'.abandoned == s.abandoned && s'.cap == s.cap
    ensures IsPrefix(s.received, s'.received) && (s.cleanEnd ==> s'.cleanEnd)
  {
    match step
    case ScanLoad => ScanFrame(s, s');
    case ReadSlot => assert s' == s.(consumer := s'.consumer);
    case SetCursor =>
    case _ => TestFrame(s, s', step);
  }

  lemma {:induction false} ScanFrame<T>(s: State<T>, s': State<T>)
    requires Shape(s) && DoScanLoad(s, s')
    ensures s' == s.(consumer := s'.consumer)
  {
  }

  lemma {:induction false} TestFrame<T>(s: State<T>, s': State<T>, step: ConsumerAct)
    requires Shape(s) && DoTest(s, s', step)
    ensures s'.slots == s.slots && s'.claim == s.claim && s'.published == s.published && s'.abandoned == s.abandoned
    ensures s'.cap == s.cap && s'.received == s.received && (s.cleanEnd ==> s'.cleanEnd)
  {
    AfterTestFrame(s, s', step, IsPublished(s.avail, s.cap, s.next));
  }

  lemma {:induction false} AfterTestFrame<T>(s: State<T>, s': State<T>, step: ConsumerAct, seen: bool)
    requires AfterTest(s, s', step, seen)
    ensures s'.slots == s.slots && s'.claim == s.claim && s'.published == s.published && s'.abandoned == s.abandoned
    ensures s'.cap == s.cap && s'.received == s.received && (s.cleanEnd ==> s'.cleanEnd)
  {
  }

  lemma {:induction false} RunGrows<T(!new)>(run: seq<State<T>>, i: nat, j: nat)
    requires IsRun(run) && i <= j < |run|
    ensures Grows(run[i], run[j])
  {
    forall k | 0 <= k < |run| - 1
      ensures Grows(run[k], run[k + 1])
    {
      NextGrows(run[k], run[k + 1]);
    }
    ChainGrows(run, i, j);
  }

  lemma {:induction false} ChainGrows<T>(run: seq<State<T>>, i: nat, j: nat)
    requires i <= j < |run| && forall k :: 0 <= k < |run| - 1 ==> Grows(run[k], run[k + 1])
    ensures Grows(run[i], run[j])
  {
    if i < j {
      var k := j - 1;
      ChainGrows(run, i, k);
      assert Grows(run[k], run[k + 1]);
      GrowsTransitive(run[i], run[k], run[j]);
    }
  }

  lemma {:induction false} GrowsTransitive<T>(a: State<T>, b: State<T>, c: State<T>)
    requires Grows(a, b) && Grows(b, c)
    ensures Grows(a, c)
  {
    assert a.received == b.received[..|a.received|] == c.received[..|a.received|];
  }

  lemma {:induction false} NextGrows<T(!new)>(s: State<T>, s': State<T>)
    requires Next(s, s')
    ensures Grows(s, s')
  {
    var step :| NextStep(s, s', step);
    StepGrows(s, s', step);
  }

  /** Clean end of stream. Once `recv` has returned RecvError on a channel that was closed by dropping the
    * last producer, then and ever after every published event has been received and nothing is in flight.
    */
  lemma {:induction false} CleanEndLosesNothing<T(!new)>(run: seq<State<T>>, i: nat, j: nat)
    requires IsRun(run) && run[0].cap >= BITS_PER_WORD && i <= j < |run| && run[i].cleanEnd
    ensures run[j].threads == map[] && run[j].claim == run[j].next - 1
    ensures forall q: int :: q in run[j].published <==> 0 <= q < |run[j].received|
    ensures run[j].received == run[i].received
  {
    RunGrows(run, i, j);
    RunInv(run, i);
    RunInv(run, j);
    var s := run[j];
    assert forall q: int :: q in s.published ==> 0 <= q <= s.claim;
    assert s.threads.Keys == {};
    EndIsFinal(run, i, j);
  }

  lemma {:induction false} CleanEndFacts<T(!new)>(run: seq<State<T>>, i: nat)
    requires IsRun(run) && run[0].cap >= BITS_PER_WORD && i < |run| && run[i].cleanEnd
    ensures run[i].handles == {} && run[i].threads.Keys == {} && run[i].claim == run[i].next - 1
  {
    RunInv(run, i);
  }

  lemma {:induction false} EndIsFinal<T(!new)>(run: seq<State<T>>, i: nat, j: nat)
    requires IsRun(run) && run[0].cap >= BITS_PER_WORD && i <= j < |run| && run[i].cleanEnd
    ensures run[j].claim == run[i].claim && run[j].next == run[i].next
  {
    forall k | i <= k < j ensures run[k + 1].claim == run[k].claim {
      EndStep(run, i, k);
    }
    SameClaim(run, i, j);
    CleanStays(run, i, j);
    CleanEndFacts(run, i);
    CleanEndFacts(run, j);
  }

  lemma {:induction false} EndStep<T(!new)>(run: seq<State<T>>, i: nat, k: nat)
    requires IsRun(run) && run[0].cap >= BITS_PER_WORD && i <= k < |run| - 1 && run[i].cleanEnd
    ensures run[k + 1].claim == run[k].claim
  {
    CleanStays(run, i, k);
    CleanEndFacts(run, k);
    NoHandleNoClaim(run[k], run[k + 1]);
  }

  lemma {:induction false} SameClaim<T>(run: seq<State<T>>, i: nat, j: nat)
    requires i <= j < |run| && forall k :: i <= k < j ==> run[k + 1].claim == run[k].claim
    ensures run[j].claim == run[i].claim
    decreases j - i
  {
    if i < j { SameClaim(run, i, j - 1); }
  }

  lemma {:induction false} CleanStays<T(!new)>(run: seq<State<T>>, i: nat, j: nat)
    requires IsRun(run) && run[0].cap >= BITS_PER_WORD && i <= j < |run| && run[i].cleanEnd
    ensures run[j].cleanEnd
  {
    RunGrows(run, i, j);
  }

  lemma {:induction false} NoHandleNoClaim<T(!new)>(s: State<T>, s': State<T>)
    requires Next(s, s') && s.threads.Keys == {}
    ensures s'.claim == s.claim
  {
    var step :| NextStep(s, s', step);
    match step
    case Produce(p) => IdleThreadsClaimNothing(s, s', p);
    case Manage(h) => HandleKeepsSlots(s, s', h);
    case Consume(c) => ConsumerFrame(s, s', c);
  }

  lemma {:induction false} IdleThreadsClaimNothing<T>(s: State<T>, s': State<T>, step: ProducerAct<T>)
    requires ProducerStep(s, s', step) && s.threads.Keys == {}
    ensures s'.claim == s.claim
  {
  }

  /** The consumer never passes an abandoned sequence, so what was published above it is never received. */
  lemma {:induction false} AbandonedBlocksForever<T(!new)>(run: seq<State<T>>, i: nat, j: nat, q: nat)
    requires IsRun(run) && run[0].cap >= BITS_PER_WORD && i <= j < |run| && q in run[i].abandoned
    ensures |run[j].received| <= q
  {
    RunGrows(run, i, j);
    RunInv(run, j);
  }

  /** Exactly when a RecvError means nothing was lost: no call is in flight, the next sequence is not
    * published, and all published events have been received if and only if no sequence was abandoned
    * below a published one.
    */
  lemma {:induction false} EndOfStreamExact<T(!new)>(run: seq<State<T>>, i: nat)
    requires IsRun(run) && run[0].cap >= BITS_PER_WORD && i < |run|
    requires run[i].threads == map[] && run[i].next !in run[i].published
    ensures (forall p :: p in run[i].published ==> p < |run[i].received|)
       <==> !exists a, p :: a in run[i].abandoned && p in run[i].published && a < p
  {
    RunInv(run, i);
    var s := run[i];
    NobodyOwns(s);
    forall p | p in s.published && p >= s.next
      ensures s.next in s.abandoned && s.next < p
    {
      assert 0 <= p <= s.claim;
      assert s.next in s.owner || s.next in s.published || s.next in s.abandoned;
    }
  }

  lemma {:induction false} NobodyOwns<T>(s: State<T>)
    requires Owned(s) && s.threads == map[]
    ensures s.owner == map[]
  {
    assert forall q :: q !in s.owner;
    assert s.owner.Keys == {};
  }
}
