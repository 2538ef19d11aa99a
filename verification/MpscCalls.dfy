/** What the calls of the multi-producer channel come to: when they go through, when they fail, and that each outcome
  * can be reached. Runs are extended one step at a time.
  */
module MpscCalls {
  import opened Bits
  import opened Common
  import opened MpscBitmap
  import opened Mpsc

  // ------------------------------------------------------------ one more step of a run

  lemma {:induction false} Extend<T(!new)>(run: seq<State<T>>, s: State<T>, step: Step<T>)
      returns (longer: seq<State<T>>)
    requires IsRun(run) && NextStep(Last(run), s, step)
    ensures IsRun(longer) && Last(longer) == s && run <= longer && longer[0] == run[0]
  {
    longer := run + [s];
    forall i | 0 <= i < |longer| - 1
      ensures Next(longer[i], longer[i + 1])
    {
      if i < |run| - 1 {
        assert Next(run[i], run[i + 1]);
      } else {
        assert NextStep(longer[i], longer[i + 1], step);
      }
    }
  }

  /** What the invariant says about the last state of a run, as far as the steps below need it. */
  lemma {:induction false} LastShape<T(!new)>(run: seq<State<T>>)
    requires IsRun(run) && run[0].cap >= BITS_PER_WORD
    ensures var s := Last(run);
            && Shape(s) && s.consumed == s.next - 1
            && (IsPublished(s.avail, s.cap, s.next) <==> s.next in s.published)
  {
    RunInv(run, |run| - 1);
    TestIsRight(Last(run));
  }

  /** A call on handle `h` passes the first check. */
  function AfterBegin<T>(s: State<T>, t: Tid, h: Handle, n: nat, what: Claim<T>, blocking: bool): (s': State<T>)
  {
    s.(threads := s.threads[t := Thread(h, Checked(n, what, blocking, 0))])
  }

  function Claimant<T>(s: State<T>, t: Tid, h: Handle, n: nat, what: Claim<T>): (s': State<T>)
    requires s.claim >= -1
  {
    s.(claim := s.claim + n, threads := s.threads[t := Thread(h, Waiting(s.claim + 1, n, what))],
       owner := Claimed(s.owner, s.claim + 1, n, t), sends := RecordSends(s.sends, s.claim + 1, what))
  }

  lemma {:induction false} BeginStep<T>(s: State<T>, t: Tid, h: Handle, n: nat, what: Claim<T>, blocking: bool)
    requires Shape(s) && t !in s.threads && h in s.handles && !s.closed && 1 <= n <= s.cap && (what.Single? ==> n == 1)
    ensures NextStep(s, AfterBegin(s, t, h, n, what, blocking), Produce(Begin(t, h, n, what, blocking)))
  {
    assert DoBegin(s, AfterBegin(s, t, h, n, what, blocking), t, h, n, what, blocking);
  }

  lemma {:induction false} ClaimStep<T>(s: State<T>, t: Tid, h: Handle, n: nat, what: Claim<T>)
    requires Shape(s) && t in s.threads && s.threads[t] == Thread(h, Checked(n, what, true, 0))
    ensures NextStep(s, Claimant(s, t, h, n, what), Produce(FetchAdd(t)))
  {
    assert DoFetchAdd(s, Claimant(s, t, h, n, what), t);
  }

  lemma {:induction false} ClaimantBegan<T>(s: State<T>, t: Tid, h: Handle, n: nat, what: Claim<T>)
    requires s.claim >= -1
    ensures Claimant(AfterBegin(s, t, h, n, what, true), t, h, n, what) == Claimant(s, t, h, n, what)
  {
    PutTwice(s.threads, t, Thread(h, Checked(n, what, true, 0)), Thread(h, Waiting(s.claim + 1, n, what)));
  }

  lemma {:induction false} PutTwice<V>(m: map<Tid, V>, t: Tid, a: V, b: V)
    ensures m[t := a][t := b] == m[t := b]
  {
  }

  /** The two steps with which a blocking send claims its sequences. */
  lemma {:induction false} Sends<T(!new)>(run: seq<State<T>>, t: Tid, h: Handle, n: nat, what: Claim<T>)
      returns (longer: seq<State<T>>)
    requires IsRun(run) && Shape(Last(run)) && t !in Last(run).threads && h in Last(run).handles && !Last(run).closed
    requires 1 <= n <= Last(run).cap && (what.Single? ==> n == 1)
    ensures IsRun(longer) && run <= longer && longer[0] == run[0]
    ensures Last(longer) == Claimant(Last(run), t, h, n, what)
  {
    var s := Last(run);
    BeginStep(s, t, h, n, what, true);
    longer := Extend(run, AfterBegin(s, t, h, n, what, true), Produce(Begin(t, h, n, what, true)));
    longer := Claims(longer, t, h, n, what);
    ClaimantBegan(s, t, h, n, what);
  }

  lemma {:induction false} Claims<T(!new)>(run: seq<State<T>>, t: Tid, h: Handle, n: nat, what: Claim<T>)
      returns (longer: seq<State<T>>)
    requires IsRun(run) && Shape(Last(run)) && t in Last(run).threads
    requires Last(run).threads[t] == Thread(h, Checked(n, what, true, 0))
    ensures IsRun(longer) && run <= longer && longer[0] == run[0]
    ensures Last(longer) == Claimant(Last(run), t, h, n, what)
  {
    ClaimStep(Last(run), t, h, n, what);
    longer := Extend(run, Claimant(Last(run), t, h, n, what), Produce(FetchAdd(t)));
  }

  /** A waiting send looks at the consumer cursor: it owns its slots, or is blocked. */
  function AfterPoll<T>(s: State<T>, t: Tid, h: Handle, start: nat, n: nat, what: Claim<T>): (s': State<T>)
  {
    s.(threads := s.threads[t := Thread(h, if s.consumed < start + n - 1 - s.cap then Blocked(start, n, what)
                                           else Owning(start, n, what))])
  }

  lemma {:induction false} Polls<T(!new)>(run: seq<State<T>>, t: Tid, h: Handle, start: nat, n: nat, what: Claim<T>)
      returns (longer: seq<State<T>>)
    requires IsRun(run) && Shape(Last(run)) && t in Last(run).threads
    requires Last(run).threads[t] == Thread(h, Waiting(start, n, what))
    ensures IsRun(longer) && run <= longer && longer[0] == run[0]
    ensures Last(longer) == AfterPoll(Last(run), t, h, start, n, what)
  {
    var s := Last(run);
    assert DoPollSpace(s, AfterPoll(s, t, h, start, n, what), t);
    longer := Extend(run, AfterPoll(s, t, h, start, n, what), Produce(PollSpace(t)));
  }

  function AfterStart<T>(s: State<T>, t: Tid, h: Handle, start: nat, n: nat): (s': State<T>)
  {
    s.(threads := s.threads[t := Thread(h, Publishing(start, n))])
  }

  lemma {:induction false} StartsPublishing<T(!new)>(run: seq<State<T>>, t: Tid, h: Handle, start: nat, n: nat)
      returns (longer: seq<State<T>>)
    requires IsRun(run) && Shape(Last(run)) && t in Last(run).threads
    requires Last(run).threads[t] == Thread(h, Owning(start, n, Batch))
    ensures IsRun(longer) && run <= longer && longer[0] == run[0]
    ensures Last(longer) == AfterStart(Last(run), t, h, start, n)
  {
    var s := Last(run);
    assert DoStartPublish(s, AfterStart(s, t, h, start, n), t);
    longer := Extend(run, AfterStart(s, t, h, start, n), Produce(StartPublish(t)));
  }

  lemma {:induction false} Writes<T(!new)>(run: seq<State<T>>, t: Tid, h: Handle, q: nat, v: T)
      returns (longer: seq<State<T>>)
    requires IsRun(run) && Shape(Last(run)) && t in Last(run).threads
    requires Last(run).threads[t] == Thread(h, Owning(q, 1, Single(v)))
    ensures IsRun(longer) && run <= longer && longer[0] == run[0] && Last(longer) == Written(Last(run), t, q, v)
  {
    assert DoWrite(Last(run), Written(Last(run), t, q, v), t, q, v);
    longer := Extend(run, Written(Last(run), t, q, v), Produce(Write(t, q, v)));
  }

  function Flushed<T>(s: State<T>, t: Tid, q: nat): (s': State<T>)
    requires Shape(s)
  {
    s.(avail := FetchXor(s.avail, WordIndex(s.cap, q), RunMask(q, 1)), threads := Return(s, t),
       owner := s.owner - Range(q, 1), published := s.published + Range(q, 1))
  }

  lemma {:induction false} Flushes<T(!new)>(run: seq<State<T>>, t: Tid, h: Handle, q: nat)
      returns (longer: seq<State<T>>)
    requires IsRun(run) && Shape(Last(run)) && t in Last(run).threads
    requires Last(run).threads[t] == Thread(h, Publishing(q, 1))
    ensures IsRun(longer) && run <= longer && longer[0] == run[0] && Last(longer) == Flushed(Last(run), t, q)
  {
    assert DoFlush(Last(run), Flushed(Last(run), t, q), t, 1);
    longer := Extend(run, Flushed(Last(run), t, q), Produce(Flush(t, 1)));
  }

  function AfterGiveUp<T>(s: State<T>, t: Tid, start: nat): (s': State<T>)
  {
    s.(threads := Return(s, t), owner := s.owner - Range(start, 1), abandoned := s.abandoned + Range(start, 1))
  }

  lemma {:induction false} GivesUp<T(!new)>(run: seq<State<T>>, t: Tid, h: Handle, start: nat, what: Claim<T>)
      returns (longer: seq<State<T>>)
    requires IsRun(run) && Shape(Last(run)) && Last(run).closed && t in Last(run).threads
    requires Last(run).threads[t] == Thread(h, Blocked(start, 1, what))
    ensures IsRun(longer) && run <= longer && longer[0] == run[0] && Last(longer) == AfterGiveUp(Last(run), t, start)
  {
    var s := Last(run);
    assert DoPollClosed(s, AfterGiveUp(s, t, start), t);
    longer := Extend(run, AfterGiveUp(s, t, start), Produce(PollClosed(t)));
  }

  lemma {:induction false} Closes<T(!new)>(run: seq<State<T>>) returns (longer: seq<State<T>>)
    requires IsRun(run) && Shape(Last(run))
    ensures IsRun(longer) && run <= longer && longer[0] == run[0]
    ensures Last(longer) == Last(run).(closed := true, closedByCall := true)
  {
    var s' := Last(run).(closed := true, closedByCall := true);
    assert HandleStep(Last(run), s', CloseCall);
    longer := Extend(run, s', Manage(CloseCall));
  }

  /** A consumer step that changes only what the consumer is doing, and whether the stream has ended cleanly. */
  lemma {:induction false} Looks<T(!new)>(run: seq<State<T>>, c: Consumer<T>, clean: bool, act: ConsumerAct, seen: bool)
      returns (longer: seq<State<T>>)
    requires IsRun(run) && Shape(Last(run)) && seen == IsPublished(Last(run).avail, Last(run).cap, Last(run).next)
    requires AfterTest(Last(run), Last(run).(consumer := c, cleanEnd := clean), act, seen)
    ensures IsRun(longer) && run <= longer && longer[0] == run[0]
    ensures Last(longer) == Last(run).(consumer := c, cleanEnd := clean)
  {
    var s, s' := Last(run), Last(run).(consumer := c, cleanEnd := clean);
    TestIsConsumerStep(s, s', act, seen);
    longer := Extend(run, s', Consume(act));
  }

  lemma {:induction false} TestIsConsumerStep<T>(s: State<T>, s': State<T>, act: ConsumerAct, seen: bool)
    requires Shape(s) && seen == IsPublished(s.avail, s.cap, s.next) && AfterTest(s, s', act, seen)
    ensures NextStep(s, s', Consume(act))
  {
    assert DoTest(s, s', act);
  }

  // ------------------------------------------------------------ receiving

  /** One successful receive, whenever the next sequence is published. */
  lemma {:induction false} RecvOne<T(!new)>(run: seq<State<T>>, blocking: bool) returns (longer: seq<State<T>>)
    requires IsRun(run) && run[0].cap >= BITS_PER_WORD
    requires Last(run).consumer == Ready && Last(run).next in Last(run).published
    ensures IsRun(longer) && run <= longer && longer[0] == run[0]
    ensures var s, s' := Last(run), Last(longer);
            s' == s.(consumed := s.next, next := s.next + 1, received := s'.received)
  {
    LastShape(run);
    longer := StartsRead(run, blocking);
    longer := FinishesRead(longer);
  }

  lemma {:induction false} StartsRead<T(!new)>(run: seq<State<T>>, blocking: bool) returns (longer: seq<State<T>>)
    requires IsRun(run) && Shape(Last(run)) && Last(run).consumer == Ready
    requires IsPublished(Last(run).avail, Last(run).cap, Last(run).next)
    ensures IsRun(longer) && run <= longer && longer[0] == run[0]
    ensures Last(longer) == Last(run).(consumer := Reading(1, []))
  {
    var s := Last(run);
    longer := Looks(run, Testing(blocking), s.cleanEnd, Recv(blocking), true);
    longer := Looks(longer, Reading(1, []), s.cleanEnd, TestBit, true);
  }

  lemma {:induction false} FinishesRead<T(!new)>(run: seq<State<T>>) returns (longer: seq<State<T>>)
    requires IsRun(run) && Shape(Last(run)) && Last(run).consumer == Reading(1, [])
    ensures IsRun(longer) && run <= longer && longer[0] == run[0]
    ensures var s, s' := Last(run), Last(longer);
            s' == s.(consumed := s.next, next := s.next + 1, received := s'.received, consumer := Ready)
  {
    var s := Last(run);
    var s1, s2 := ReadSteps(s);
    longer := Extend(run, s1, Consume(ReadSlot));
    longer := Extend(longer, s2, Consume(SetCursor));
  }

  lemma {:induction false} ReadSteps<T>(s: State<T>) returns (s1: State<T>, s2: State<T>)
    requires Shape(s) && s.consumer == Reading(1, [])
    ensures NextStep(s, s1, Consume(ReadSlot)) && NextStep(s1, s2, Consume(SetCursor))
    ensures s2 == s.(consumed := s.next, next := s.next + 1, received := s2.received, consumer := Ready)
  {
    var v := s.slots[s.next % s.cap];
    assert s.consumer.out + [v] == [v];
    s1 := s.(consumer := Reading(1, [v]));
    s2 := s1.(consumed := s.next, next := s.next + 1, received := s.received + [v], consumer := Ready);
  }

  /** Main theorem. From every reachable state in which the next sequence is published, `recv` and `try_recv` can go
    * through without anybody else moving, and they return the event its claimant wrote.
    */
  lemma {:induction false} RecvDelivers<T(!new)>(run: seq<State<T>>, blocking: bool) returns (longer: seq<State<T>>)
    requires IsRun(run) && run[0].cap >= BITS_PER_WORD
    requires Last(run).consumer == Ready && Last(run).next in Last(run).published
    ensures IsRun(longer) && run <= longer
    ensures var s, s' := Last(run), Last(longer);
            && s'.consumer == Ready && s'.next == s.next + 1 && |s'.received| == s.next + 1
            && s'.received[..s.next] == s.received
            && (s.next in s.wrote ==> s'.received[s.next] == s.wrote[s.next])
            && (s.next in s.sends ==> s'.received[s.next] == s.sends[s.next])
  {
    longer := RecvOne(run, blocking);
    RunInv(run, |run| - 1);
    RunInv(longer, |longer| - 1);
    RunGrows(longer, |run| - 1, |longer| - 1);
  }

  /** `try_recv` on a state where it is not comes back with nothing, and nothing has changed. */
  lemma {:induction false} TryRecvFindsNothing<T(!new)>(run: seq<State<T>>) returns (longer: seq<State<T>>)
    requires IsRun(run) && run[0].cap >= BITS_PER_WORD
    requires Last(run).consumer == Ready && Last(run).next !in Last(run).published
    ensures IsRun(longer) && run <= longer && |longer| > |run| && Last(longer) == Last(run)
  {
    LastShape(run);
    var s := Last(run);
    longer := Looks(run, Testing(false), s.cleanEnd, Recv(false), false);
    longer := Looks(longer, Closing(false), s.cleanEnd, TestBit, false);
    longer := Looks(longer, Ready, s.cleanEnd, LoadClosed, false);
  }

  // ------------------------------------------------------------ the end of the stream

  /** Main theorem. Dropping the last producer ends the stream: from every reachable state without handles, nobody
    * having called close(), and nothing published next, `recv` can come to report the clean end, with no close() call.
    */
  lemma {:induction false} CleanEndReached<T(!new)>(run: seq<State<T>>) returns (longer: seq<State<T>>)
    requires IsRun(run) && run[0].cap >= BITS_PER_WORD && Last(run).handles == {} && !Last(run).closedByCall
    requires Last(run).consumer == Ready && Last(run).next !in Last(run).published
    ensures IsRun(longer) && run <= longer && Last(longer).cleanEnd && !Last(longer).closedByCall
    ensures Last(longer).received == Last(run).received && Last(longer).published == Last(run).published
  {
    longer := LastDropCloses(run);
    LastShape(longer);
    var s := Last(longer);
    longer := Looks(longer, Testing(true), s.cleanEnd, Recv(true), false);
    longer := Looks(longer, Closing(true), s.cleanEnd, TestBit, false);
    longer := Looks(longer, Retesting, s.cleanEnd, LoadClosed, false);
    longer := Looks(longer, Ready, true, Retest, false);
  }

  /** In every state of every run the last handle is gone exactly when the close that follows it is due. */
  lemma {:induction false} LastDropIsSeen<T(!new)>(run: seq<State<T>>, i: nat)
    requires IsRun(run) && run[0].cap >= BITS_PER_WORD && i < |run|
    ensures run[i].handles == {} <==> run[i].closing
    ensures run[i].closed && !run[i].closedByCall ==> run[i].handles == {}
    ensures run[i].producerCount == |run[i].handles|
  {
    RunInv(run, i);
  }

  lemma {:induction false} LastDropCloses<T(!new)>(run: seq<State<T>>) returns (longer: seq<State<T>>)
    requires IsRun(run) && run[0].cap >= BITS_PER_WORD && Last(run).handles == {}
    ensures IsRun(longer) && run <= longer && longer[0] == run[0] && Last(longer) == Last(run).(closed := true)
  {
    LastDropIsSeen(run, |run| - 1);
    LastShape(run);
    var s' := Last(run).(closed := true);
    assert HandleStep(Last(run), s', CloseLast);
    longer := Extend(run, s', Manage(CloseLast));
  }

  // ------------------------------------------------------------ sending

  /** What a completed send of `e` by thread `t` leaves behind: one more claimed and published sequence that holds it,
    * and nothing else of the channel changed.
    */
  ghost predicate Sent<T>(s: State<T>, s': State<T>, e: T)
  {
    var q := s.claim + 1;
    && s'.claim == q && s'.published == s.published + {q} && s'.threads == s.threads
    && q in s'.sends && s'.sends[q] == e && q in s'.wrote && s'.wrote[q] == e
    && s'.next == s.next && s'.consumer == s.consumer && s'.received == s.received && s'.abandoned == s.abandoned
    && s'.handles == s.handles && s'.closed == s.closed
  }

  /** Room for `n` more sequences before the consumer's window ends. */
  predicate HasRoom<T>(s: State<T>, n: nat) { s.claim + n < s.next + s.cap }

  /** Main theorem. From every reachable state with a handle, an open channel and room, a blocking send can go through
    * without anybody else moving.
    */
  lemma {:induction false} SendCompletes<T(!new)>(run: seq<State<T>>, t: Tid, h: Handle, e: T)
      returns (longer: seq<State<T>>)
    requires IsRun(run) && run[0].cap >= BITS_PER_WORD && HasRoom(Last(run), 1)
    requires t !in Last(run).threads && h in Last(run).handles && !Last(run).closed
    ensures IsRun(longer) && run <= longer && Sent(Last(run), Last(longer), e)
  {
    LastShape(run);
    var q := Last(run).claim + 1;
    longer := SendOwns(run, t, h, q, 1, Single(e));
    longer := Publishes(longer, t, h, q, e);
    SendDone(Last(run), t, h, q, e);
  }

  /** The state in which a call owns the next `n` sequences. */
  function Owner<T>(s: State<T>, t: Tid, h: Handle, q: nat, n: nat, what: Claim<T>): (s': State<T>)
  {
    s.(claim := q + n - 1, threads := s.threads[t := Thread(h, Owning(q, n, what))], owner := Claimed(s.owner, q, n, t),
       sends := RecordSends(s.sends, q, what))
  }

  /** A call of `n` sequences can begin: a free thread, a handle, an open channel, and room. */
  predicate CanClaim<T>(s: State<T>, t: Tid, h: Handle, q: nat, n: nat, what: Claim<T>)
  {
    && Shape(s) && HasRoom(s, n) && s.consumed == s.next - 1 && q == s.claim + 1
    && t !in s.threads && h in s.handles && !s.closed && 1 <= n <= s.cap && (what.Single? ==> n == 1)
  }

  lemma {:induction false} SendOwns<T(!new)>(run: seq<State<T>>, t: Tid, h: Handle, q: nat, n: nat, what: Claim<T>)
      returns (longer: seq<State<T>>)
    requires IsRun(run) && CanClaim(Last(run), t, h, q, n, what)
    ensures IsRun(longer) && run <= longer && longer[0] == run[0]
    ensures Last(longer) == Owner(Last(run), t, h, q, n, what)
  {
    longer := Sends(run, t, h, n, what);
    longer := Polls(longer, t, h, q, n, what);
    PolledOwner(Last(run), t, h, q, n, what);
  }

  lemma {:induction false} PolledOwner<T>(s: State<T>, t: Tid, h: Handle, q: nat, n: nat, what: Claim<T>)
    requires s.claim >= -1 && q == s.claim + 1 && HasRoom(s, n) && s.consumed == s.next - 1
    ensures AfterPoll(Claimant(s, t, h, n, what), t, h, q, n, what) == Owner(s, t, h, q, n, what)
  {
    PutTwice(s.threads, t, Thread(h, Waiting(q, n, what)), Thread(h, Owning(q, n, what)));
  }

  /** The state after the owned sequence is written and published. */
  function Done<T>(s: State<T>, t: Tid, q: nat, e: T): (s': State<T>)
    requires Shape(s) && t in s.threads && s.threads[t].pc.Owning?
  {
    Flushed(Written(s, t, q, e), t, q)
  }

  lemma {:induction false} Publishes<T(!new)>(run: seq<State<T>>, t: Tid, h: Handle, q: nat, e: T)
      returns (longer: seq<State<T>>)
    requires IsRun(run) && Shape(Last(run)) && t in Last(run).threads
    requires Last(run).threads[t] == Thread(h, Owning(q, 1, Single(e)))
    ensures IsRun(longer) && run <= longer && longer[0] == run[0] && Last(longer) == Done(Last(run), t, q, e)
  {
    longer := Writes(run, t, h, q, e);
    longer := Flushes(longer, t, h, q);
  }

  lemma {:induction false} SendDone<T>(s: State<T>, t: Tid, h: Handle, q: nat, e: T)
    requires Shape(s) && t !in s.threads && q == s.claim + 1
    ensures Sent(s, Done(Owner(s, t, h, q, 1, Single(e)), t, q, e), e)
  {
    var owning, publishing := Thread(h, Owning(q, 1, Single(e))), Thread(h, Publishing(q, 1));
    Gone(s.threads, t, owning);
    Gone(s.threads[t := owning], t, publishing);
    OneInRange(q);
  }

  lemma {:induction false} Gone<V>(m: map<Tid, V>, t: Tid, v: V)
    ensures m[t := v] - {t} == m - {t} && (t !in m ==> m - {t} == m)
  {
  }

  lemma {:induction false} OneInRange(q: nat)
    ensures Range(q, 1) == {q}
  {
  }

  /** `try_send` as well, the CAS being undisturbed. */
  lemma {:induction false} TrySendCompletes<T(!new)>(run: seq<State<T>>, t: Tid, h: Handle, e: T)
      returns (longer: seq<State<T>>)
    requires IsRun(run) && run[0].cap >= BITS_PER_WORD && HasRoom(Last(run), 1)
    requires t !in Last(run).threads && h in Last(run).handles && !Last(run).closed
    ensures IsRun(longer) && run <= longer && Sent(Last(run), Last(longer), e)
  {
    LastShape(run);
    var q := Last(run).claim + 1;
    longer := TryOwns(run, t, h, q, 1, Single(e));
    longer := Publishes(longer, t, h, q, e);
    SendDone(Last(run), t, h, q, e);
  }

  lemma {:induction false} TryOwns<T(!new)>(run: seq<State<T>>, t: Tid, h: Handle, q: nat, n: nat, what: Claim<T>)
      returns (longer: seq<State<T>>)
    requires IsRun(run) && CanClaim(Last(run), t, h, q, n, what)
    ensures IsRun(longer) && run <= longer && longer[0] == run[0]
    ensures Last(longer) == Owner(Last(run), t, h, q, n, what)
  {
    var s := Last(run);
    var loaded, spaced := Loaded(n, what, 0, s.claim), Spaced(n, what, 0, s.claim);
    longer := TryLoads(run, t, h, n, what);
    SpaceStep(At(s, t, h, loaded), t, h, n, what);
    longer := Moves(longer, t, h, spaced, LoadConsumer(t));
    PutTwice(s.threads, t, Thread(h, loaded), Thread(h, spaced));
    CasStep(At(s, t, h, spaced), t, h, q, n, what);
    longer := Extend(longer, Owner(At(s, t, h, spaced), t, h, q, n, what), Produce(Cas(t)));
    PutTwice(s.threads, t, Thread(h, spaced), Thread(h, Owning(q, n, what)));
  }

  lemma {:induction false} SpaceStep<T>(s: State<T>, t: Tid, h: Handle, n: nat, what: Claim<T>)
    requires HasRoom(s, n) && s.consumed == s.next - 1 && t in s.threads
    requires s.threads[t] == Thread(h, Loaded(n, what, 0, s.claim))
    ensures ProducerStep(s, At(s, t, h, Spaced(n, what, 0, s.claim)), LoadConsumer(t))
  {
    assert DoLoadConsumer(s, At(s, t, h, Spaced(n, what, 0, s.claim)), t);
  }

  lemma {:induction false} CasStep<T>(s: State<T>, t: Tid, h: Handle, q: nat, n: nat, what: Claim<T>)
    requires Shape(s) && t in s.threads && q == s.claim + 1
    requires s.threads[t] == Thread(h, Spaced(n, what, 0, s.claim))
    ensures NextStep(s, Owner(s, t, h, q, n, what), Produce(Cas(t)))
  {
    assert AfterClaim(s, t, Owning(q, n, what), q, n, what) == Owner(s, t, h, q, n, what);
    assert DoCas(s, Owner(s, t, h, q, n, what), t);
  }

  /** Without room for its `n` sequences a call that does not wait comes back, and nothing has changed. */
  lemma {:induction false} TrySendFindsFull<T(!new)>(run: seq<State<T>>, t: Tid, h: Handle, n: nat, what: Claim<T>)
      returns (longer: seq<State<T>>)
    requires IsRun(run) && run[0].cap >= BITS_PER_WORD && !HasRoom(Last(run), n)
    requires t !in Last(run).threads && h in Last(run).handles && !Last(run).closed
    requires 1 <= n <= Last(run).cap && (what.Single? ==> n == 1)
    ensures IsRun(longer) && run <= longer && |longer| > |run| && Last(longer) == Last(run)
  {
    LastShape(run);
    var s := Last(run);
    longer := TryLoads(run, t, h, n, what);
    Gone(s.threads, t, Thread(h, Loaded(n, what, 0, s.claim)));
    assert DoLoadConsumer(Last(longer), s, t);
    longer := Extend(longer, s, Produce(LoadConsumer(t)));
  }

  /** The first two steps of a call that does not wait. */
  lemma {:induction false} TryLoads<T(!new)>(run: seq<State<T>>, t: Tid, h: Handle, n: nat, what: Claim<T>)
      returns (longer: seq<State<T>>)
    requires IsRun(run) && Shape(Last(run)) && t !in Last(run).threads && h in Last(run).handles && !Last(run).closed
    requires 1 <= n <= Last(run).cap && (what.Single? ==> n == 1)
    ensures IsRun(longer) && run <= longer && longer[0] == run[0] && |longer| > |run|
    ensures var s := Last(run); Last(longer) == At(s, t, h, Loaded(n, what, 0, s.claim))
  {
    var s := Last(run);
    BeginStep(s, t, h, n, what, false);
    longer := Extend(run, AfterBegin(s, t, h, n, what, false), Produce(Begin(t, h, n, what, false)));
    longer := Moves(longer, t, h, Loaded(n, what, 0, s.claim), LoadClaim(t));
    PutTwice(s.threads, t, Thread(h, Checked(n, what, false, 0)), Thread(h, Loaded(n, what, 0, s.claim)));
  }

  function At<T>(s: State<T>, t: Tid, h: Handle, pc: Pc<T>): (s': State<T>)
  {
    s.(threads := s.threads[t := Thread(h, pc)])
  }

  /** A producer step that only takes its thread to another program point. */
  lemma {:induction false} Moves<T(!new)>(run: seq<State<T>>, t: Tid, h: Handle, pc: Pc<T>, act: ProducerAct<T>)
      returns (longer: seq<State<T>>)
    requires IsRun(run) && Shape(Last(run)) && ProducerStep(Last(run), At(Last(run), t, h, pc), act)
    ensures IsRun(longer) && run <= longer && longer[0] == run[0] && Last(longer) == At(Last(run), t, h, pc)
  {
    longer := Extend(run, At(Last(run), t, h, pc), Produce(act));
  }

  // ------------------------------------------------------------ batches

  /** What a completed batch of `vs` leaves behind. */
  ghost predicate SentAll<T>(s: State<T>, s': State<T>, vs: seq<T>)
  {
    var q := s.claim + 1;
    && s'.claim == s.claim + |vs| && s'.published == s.published + Range(q, |vs|) && s'.threads == s.threads
    && WroteAll(s'.wrote, q, vs, |vs|) && s'.sends == s.sends
    && s'.next == s.next && s'.consumer == s.consumer && s'.received == s.received && s'.abandoned == s.abandoned
    && s'.handles == s.handles && s'.closed == s.closed
  }

  /** The first `k` values are written in their sequences. */
  ghost predicate WroteAll<T>(wrote: map<int, T>, start: int, vs: seq<T>, k: nat)
    requires k <= |vs|
  {
    forall i: nat :: i < k ==> WroteAt(wrote, start + i, vs[i])
  }

  ghost predicate WroteAt<T>(wrote: map<int, T>, q: int, v: T) { q in wrote && wrote[q] == v }

  /** The caller writes the values from the k-th on. */
  lemma {:induction false} WritesAll<T(!new)>(run: seq<State<T>>, t: Tid, h: Handle, q: nat, vs: seq<T>, k: nat)
      returns (longer: seq<State<T>>, slots: seq<T>, wrote: map<int, T>)
    requires IsRun(run) && Shape(Last(run)) && t in Last(run).threads && k <= |vs|
    requires Last(run).threads[t] == Thread(h, Owning(q, |vs|, Batch)) && WroteAll(Last(run).wrote, q, vs, k)
    ensures IsRun(longer) && run <= longer && longer[0] == run[0]
    ensures Last(longer) == Last(run).(slots := slots, wrote := wrote) && |slots| == Last(run).cap
    ensures WroteAll(wrote, q, vs, |vs|)
    decreases |vs| - k
  {
    var s := Last(run);
    if k == |vs| {
      longer, slots, wrote := run, s.slots, s.wrote;
    } else {
      BatchWrite(s, t, h, q, vs, k, q + k);
      longer := Extend(run, Written(s, t, q + k, vs[k]), Produce(Write(t, q + k, vs[k])));
      longer, slots, wrote := WritesAll(longer, t, h, q, vs, k + 1);
    }
  }

  lemma {:induction false} BatchWrite<T>(s: State<T>, t: Tid, h: Handle, q: nat, vs: seq<T>, k: nat, at: nat)
    requires Shape(s) && t in s.threads && k < |vs| && at == q + k
    requires s.threads[t] == Thread(h, Owning(q, |vs|, Batch)) && WroteAll(s.wrote, q, vs, k)
    ensures NextStep(s, Written(s, t, at, vs[k]), Produce(Write(t, at, vs[k])))
    ensures WroteAll(Written(s, t, at, vs[k]).wrote, q, vs, k + 1)
  {
    assert Owns(s.threads[t].pc, at);
    assert DoWrite(s, Written(s, t, at, vs[k]), t, at, vs[k]);
    var wrote := Written(s, t, at, vs[k]).wrote;
    forall i: nat | i < k + 1 ensures WroteAt(wrote, q + i, vs[i]) {
      if i < k { assert WroteAt(s.wrote, q + i, vs[i]); }
    }
  }

  /** The state in which the first of several sequences is published. */
  function FlushedFirst<T>(s: State<T>, t: Tid, h: Handle, q: nat, n: nat): (s': State<T>)
    requires Shape(s) && n >= 2
  {
    s.(avail := FetchXor(s.avail, WordIndex(s.cap, q), RunMask(q, 1)),
       threads := s.threads[t := Thread(h, Publishing(q + 1, n - 1))], owner := s.owner - Range(q, 1),
       published := s.published + Range(q, 1))
  }

  lemma {:induction false} FlushStep<T>(s: State<T>, t: Tid, h: Handle, q: nat, n: nat)
    requires Shape(s) && t in s.threads && s.threads[t] == Thread(h, Publishing(q, n)) && n >= 2
    ensures NextStep(s, FlushedFirst(s, t, h, q, n), Produce(Flush(t, 1)))
  {
    OneAlone(s.cap, q, 1);
    assert DoFlush(s, FlushedFirst(s, t, h, q, n), t, 1);
  }

  lemma {:induction false} OneAlone(cap: nat, q: nat, n: nat)
    requires cap > 0 && n == 1
    ensures OneWord(cap, q, n)
  {
  }

  /** Thread `t` has published its `n` sequences from `q` on and is gone. */
  ghost predicate Finished<T>(s: State<T>, s': State<T>, t: Tid, q: nat, n: nat)
  {
    s' == s.(avail := s'.avail, owner := s'.owner, threads := s.threads - {t}, published := s.published + Range(q, n))
  }

  lemma {:induction false} FinishedJoin<T>(s: State<T>, s': State<T>, t: Tid, h: Handle, q: nat, n: nat)
    requires Shape(s) && n >= 2 && Finished(FlushedFirst(s, t, h, q, n), s', t, q + 1, n - 1)
    ensures Finished(s, s', t, q, n)
  {
    Gone(s.threads, t, Thread(h, Publishing(q + 1, n - 1)));
    RangeFirst(s.published, q, n);
  }

  lemma {:induction false} RangeFirst(before: set<int>, q: int, n: nat)
    requires n >= 1
    ensures before + Range(q, 1) + Range(q + 1, n - 1) == before + Range(q, n)
  {
  }

  lemma {:induction false} FlushesAll<T(!new)>(run: seq<State<T>>, t: Tid, h: Handle, q: nat, n: nat)
      returns (longer: seq<State<T>>)
    requires IsRun(run) && run[0].cap >= BITS_PER_WORD && Shape(Last(run)) && t in Last(run).threads && n >= 1
    requires Last(run).threads[t] == Thread(h, Publishing(q, n))
    ensures IsRun(longer) && run <= longer && longer[0] == run[0] && Finished(Last(run), Last(longer), t, q, n)
    decreases n
  {
    if n == 1 {
      longer := Flushes(run, t, h, q);
    } else {
      FlushStep(Last(run), t, h, q, n);
      longer := Extend(run, FlushedFirst(Last(run), t, h, q, n), Produce(Flush(t, 1)));
      LastShape(longer);
      longer := FlushesAll(longer, t, h, q + 1, n - 1);
      FinishedJoin(Last(run), Last(longer), t, h, q, n);
    }
  }

  /** Main theorem. The batch claims as well, waiting or not: with room for all of it a batch of any length can go
    * through on its own, and all its values are published in their order.
    */
  lemma {:induction false} BatchCompletes<T(!new)>(run: seq<State<T>>, t: Tid, h: Handle, vs: seq<T>, blocking: bool)
      returns (longer: seq<State<T>>)
    requires IsRun(run) && run[0].cap >= BITS_PER_WORD && 1 <= |vs| <= Last(run).cap && HasRoom(Last(run), |vs|)
    requires t !in Last(run).threads && h in Last(run).handles && !Last(run).closed
    ensures IsRun(longer) && run <= longer && SentAll(Last(run), Last(longer), vs)
  {
    LastShape(run);
    var q := Last(run).claim + 1;
    longer := BatchOwns(run, t, h, q, |vs|, blocking);
    longer := BatchPublishes(longer, t, h, q, vs);
    BatchDone(Last(run), t, h, q, vs, Last(longer));
  }

  lemma {:induction false} BatchOwns<T(!new)>(run: seq<State<T>>, t: Tid, h: Handle, q: nat, n: nat, blocking: bool)
      returns (longer: seq<State<T>>)
    requires IsRun(run) && CanClaim(Last(run), t, h, q, n, Batch)
    ensures IsRun(longer) && run <= longer && longer[0] == run[0] && Shape(Last(longer))
    ensures Last(longer) == Owner(Last(run), t, h, q, n, Batch)
  {
    if blocking { longer := SendOwns(run, t, h, q, n, Batch); } else { longer := TryOwns(run, t, h, q, n, Batch); }
  }

  /** Everything of a batch but its claim. */
  ghost predicate Published<T>(s: State<T>, s': State<T>, t: Tid, q: nat, vs: seq<T>)
  {
    && s' == s.(slots := s'.slots, wrote := s'.wrote, avail := s'.avail, owner := s'.owner,
                threads := s.threads - {t}, published := s.published + Range(q, |vs|))
    && WroteAll(s'.wrote, q, vs, |vs|)
  }

  lemma {:induction false} BatchDone<T>(s: State<T>, t: Tid, h: Handle, q: nat, vs: seq<T>, s': State<T>)
    requires t !in s.threads && q == s.claim + 1 && Published(Owner(s, t, h, q, |vs|, Batch), s', t, q, vs)
    ensures SentAll(s, s', vs)
  {
    Gone(s.threads, t, Thread(h, Owning(q, |vs|, Batch)));
  }

  lemma {:induction false} BatchPublishes<T(!new)>(run: seq<State<T>>, t: Tid, h: Handle, q: nat, vs: seq<T>)
      returns (longer: seq<State<T>>)
    requires IsRun(run) && run[0].cap >= BITS_PER_WORD && Shape(Last(run)) && t in Last(run).threads && 1 <= |vs|
    requires Last(run).threads[t] == Thread(h, Owning(q, |vs|, Batch))
    ensures IsRun(longer) && run <= longer && longer[0] == run[0] && Published(Last(run), Last(longer), t, q, vs)
  {
    var slots, wrote;
    longer, slots, wrote := WritesAll(run, t, h, q, vs, 0);
    longer := StartsPublishing(longer, t, h, q, |vs|);
    Gone(Last(run).threads, t, Thread(h, Publishing(q, |vs|)));
    longer := FlushesAll(longer, t, h, q, |vs|);
  }

  // ------------------------------------------------------------ why calls return

  /** A producer call returns only when it has published all it claimed, or: a blocked one when the channel is closed,
    * a try when the sequences it would claim do not fit, or when the claim cursor moved under it for the eighth time.
    */
  lemma {:induction false} SendReturnsBecause<T>(s: State<T>, s': State<T>, act: ProducerAct<T>, t: Tid)
    requires Inv(s) && NextStep(s, s', Produce(act)) && t in s.threads && t !in s'.threads
    ensures var pc := s.threads[t].pc;
            match pc
            case Publishing(start, n) => forall q: int :: start <= q < start + n ==> q in s'.published
            case Blocked(_, _, _) => s.closed
            case Loaded(n, _, _, current) => current + n >= s.next + s.cap
            case Spaced(_, _, tries, current) => s.claim != current && tries >= 7
            case _ => false
  {
    assert ProducerStep(s, s', act);
    if act.Cas? { CasReturns(s, s', act.t); }
  }

  lemma {:induction false} CasReturns<T>(s: State<T>, s': State<T>, t: Tid)
    requires DoCas(s, s', t)
    ensures t !in s'.threads ==> s.claim != s.threads[t].pc.current && s.threads[t].pc.tries >= 7
    ensures forall u :: u in s.threads && u != t ==> u in s'.threads
  {
  }

  /** A call begins exactly when the channel is not closed. */
  lemma {:induction false} BeginsUnlessClosed<T>(s: State<T>, s': State<T>, t: Tid, h: Handle, n: nat, what: Claim<T>,
      blocking: bool)
    requires NextStep(s, s', Produce(Begin(t, h, n, what, blocking)))
    ensures t in s'.threads <==> !s.closed
  {
  }

  /** A receive comes back only with what it read, or: from a test of an unpublished sequence, without waiting or on a
    * closed channel; or from a scan that found nothing to take.
    */
  lemma {:induction false} RecvReturnsBecause<T>(s: State<T>, s': State<T>, act: ConsumerAct)
    requires Inv(s) && NextStep(s, s', Consume(act)) && !s.consumer.Ready? && s'.consumer.Ready?
    ensures match s.consumer
            case Reading(count, out) => s'.received == s.received + out && |out| == count >= 1
            case Closing(blocking) => !blocking
            case Retesting => s.closed && s.next !in s.published
            case Scanning(_, _, limit) => limit == 0 || s.next !in s.published
            case _ => false
  {
    TestIsRight(s);
    if act.ScanLoad? {
      ScanFindsNothing(s, s');
    } else if !act.ReadSlot? && !act.SetCursor? {
      TestReturns(s, s', act, IsPublished(s.avail, s.cap, s.next));
    }
  }

  lemma {:induction false} TestReturns<T>(s: State<T>, s': State<T>, act: ConsumerAct, seen: bool)
    requires AfterTest(s, s', act, seen) && !s.consumer.Ready? && s'.consumer.Ready?
    ensures (s.consumer.Closing? && !s.consumer.blocking) || (s.consumer.Retesting? && !seen)
  {
  }

  lemma {:induction false} ScanFindsNothing<T>(s: State<T>, s': State<T>)
    requires Shape(s) && s.cap % BITS_PER_WORD == 0 && Represents(s.avail, s.cap, s.next - 1, s.published)
    requires ConsumerOk(s.consumer, s.next, s.cap, s.published, s.wrote, s.closed)
    requires Progress(s.published, s.abandoned, s.cap, s.next) && DoScanLoad(s, s') && s'.consumer.Ready?
    ensures s.consumer.limit == 0 || s.next !in s.published
  {
    var at := s.consumer.at;
    var first := FirstMismatch(s.avail[WordIndex(s.cap, at)], ExpectedPattern(s.cap, at), BitIndex(at));
    LoadedRun(s.avail, s.cap, s.next, s.published, at, first);
    ScanReady(s, s', at, first);
  }

  /** Arithmetic of the last load: nothing found means that the run ends where it began. */
  lemma {:induction false} ScanReady<T>(s: State<T>, s': State<T>, at: nat, first: nat)
    requires Shape(s) && DoScanLoad(s, s') && s'.consumer.Ready? && at == s.consumer.at
    requires s.next <= s.consumer.claimSeen && s.next <= at && BitIndex(at) <= first
    requires first == FirstMismatch(s.avail[WordIndex(s.cap, at)], ExpectedPattern(s.cap, at), BitIndex(at))
    requires first < BITS_PER_WORD ==> at + (first - BitIndex(at)) !in s.published
    ensures s.consumer.limit == 0 || s.next !in s.published
  {
    var end := at + (first - BitIndex(at));
    assert s.consumer.limit > 0 ==> at <= s.consumer.claimSeen && first < BITS_PER_WORD && end == s.next;
  }

  /** The bit test of a receive succeeds exactly on a published sequence; a scan begins whenever there is one. */
  lemma {:induction false} TestsExactly<T>(s: State<T>, s': State<T>, act: ConsumerAct)
    requires Inv(s) && NextStep(s, s', Consume(act))
    ensures act.TestBit? ==> (s'.consumer == Reading(1, []) <==> s.next in s.published)
    ensures act.StartScan? && s.next in s.published ==> s'.consumer == Scanning(s.claim, s.next, act.limit)
    ensures act.LoadClosed? && s.consumer.blocking ==> (s'.consumer == Retesting <==> s.closed)
  {
    TestIsRight(s);
  }
}
