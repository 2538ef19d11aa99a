/** The leader buffer under concurrent readers: the tracker's writes run inside the sequence lock of
  * SeqLock.dfy, field by field, while any number of readers copy fields.
  */
module LeaderSnapshots {
  import opened Common
  import opened Leader
  import SeqLock

  type Lock = SeqLock.State<nat>

  const FIELDS: nat := 4

  // ------------------------------------------------------------ entries as words

  function Field(e: LeaderEntry, f: nat): (w: nat)
  {
    if f == 0 then e.pubkey else if f == 1 then e.tpuQuic else if f == 2 then e.tpuQuicFwd else e.startSlot
  }

  /** The buffer as the words that are copied: entry `e` is at words 4e to 4e + 3. */
  function Words(entries: seq<LeaderEntry>): (words: seq<nat>)
    ensures |words| == FIELDS * |entries|
    ensures forall w :: 0 <= w < |words| ==> words[w] == Field(entries[w / FIELDS], w % FIELDS)
  {
    seq(FIELDS * |entries|, w requires 0 <= w < FIELDS * |entries| => Field(entries[w / FIELDS], w % FIELDS))
  }

  /** A read that copied all of entry `e`. */
  predicate HasEntry(out: map<nat, nat>, e: nat)
  {
    FIELDS * e in out && FIELDS * e + 1 in out && FIELDS * e + 2 in out && FIELDS * e + 3 in out
  }

  function EntryAt(out: map<nat, nat>, e: nat): (entry: LeaderEntry)
    requires HasEntry(out, e)
  {
    LeaderEntry(out[FIELDS * e], out[FIELDS * e + 1], out[FIELDS * e + 2], out[FIELDS * e + 3])
  }

  lemma {:induction false} EntryIsWhole(out: map<nat, nat>, entries: seq<LeaderEntry>, e: nat)
    requires SeqLock.Agrees(out, Words(entries)) && HasEntry(out, e)
    ensures e < |entries| && EntryAt(out, e) == entries[e]
  {
    WordPosition(e, 0);
    WordPosition(e, 1);
    WordPosition(e, 2);
    WordPosition(e, 3);
    assert FIELDS * e < |Words(entries)|;
  }

  /** Every entry copied in full is that entry of the buffer. */
  ghost predicate EntriesAre(out: map<nat, nat>, entries: seq<LeaderEntry>)
  {
    forall e: nat :: HasEntry(out, e) ==> e < |entries| && EntryAt(out, e) == entries[e]
  }

  lemma {:induction false} AllEntriesWhole(out: map<nat, nat>, entries: seq<LeaderEntry>)
    requires SeqLock.Agrees(out, Words(entries))
    ensures EntriesAre(out, entries)
  {
    forall e: nat | HasEntry(out, e) ensures e < |entries| && EntryAt(out, e) == entries[e] {
      EntryIsWhole(out, entries, e);
    }
  }

  lemma {:induction false} WordPosition(e: nat, f: nat)
    requires f < FIELDS
    ensures (FIELDS * e + f) / FIELDS == e && (FIELDS * e + f) % FIELDS == f
  {
  }

  // ------------------------------------------------------------ steps

  /** Where the tracker is. `initialSlot` is the slot `start` populated the buffer for, `loopSlot` the slot the
    * loop thread read when it began.
    */
  datatype Phase =
    | Fresh
    | Populating(initialSlot: nat)
    | Running(initialSlot: nat, loopSlot: nat, view: View)
    | Writing(initialSlot: nat, loopSlot: nat, view: View, slot: nat)

  /** `shifts` is a history: how many leader windows the loop had passed at each commit. */
  datatype State = State(lock: Lock, phase: Phase, shifts: seq<nat>)

  datatype Step =
    | Populate(initialSlot: nat)
    | Populated(loopSlot: nat)
    | QuietTurn(slot: nat)
    | OpenTurn(slot: nat)
    | CloseTurn
    | Inside(step: SeqLock.Step<nat>)

  /** A turn that changes the leader window, and so takes the lock. */
  predicate Writes(view: View, slot: nat)
  {
    slot / SLOTS_PER_LEADER != view.lastLeaderIdx
  }

  ghost predicate Locks(s: Lock, s': Lock, step: SeqLock.Step<nat>) { SeqLock.NextStep(s, s', step) }

  /** Opening a write section that has to leave these entries behind. */
  function Opening(entries: seq<LeaderEntry>): (step: SeqLock.Step<nat>)
  {
    SeqLock.LoadOpen(SeqLock.Whole(Words(entries)))
  }

  ghost predicate DoPopulated(cache: Cache, s: State, s': State, loopSlot: nat)
  {
    && s.phase.Populating? && s.phase.initialSlot <= loopSlot
    && s'.phase == Running(s.phase.initialSlot, loopSlot, Started(cache, s.phase.initialSlot, loopSlot))
    && s'.shifts == [0] && Locks(s.lock, s'.lock, SeqLock.StoreClose)
  }

  ghost predicate DoOpenTurn(cache: Cache, s: State, s': State, slot: nat)
  {
    && s.phase.Running? && s.phase.view.lastSlot <= slot && Writes(s.phase.view, slot)
    && |s.phase.view.entries| == LEADER_BUFFER_SIZE
    && s'.phase == Writing(s.phase.initialSlot, s.phase.loopSlot, s.phase.view, slot) && s'.shifts == s.shifts
    && Locks(s.lock, s'.lock, Opening(OnSlot(s.phase.view, cache, slot).entries))
  }

  /** Leader windows from slot `from` to slot `to`. */
  function Windows(from: nat, to: nat): (n: int) { to / SLOTS_PER_LEADER - from / SLOTS_PER_LEADER }

  ghost predicate DoCloseTurn(cache: Cache, s: State, s': State)
  {
    && s.phase.Writing? && |s.phase.view.entries| == LEADER_BUFFER_SIZE
    && Windows(s.phase.loopSlot, s.phase.slot) >= 0
    && s'.phase == Running(s.phase.initialSlot, s.phase.loopSlot, OnSlot(s.phase.view, cache, s.phase.slot))
    && s'.shifts == s.shifts + [Windows(s.phase.loopSlot, s.phase.slot)]
    && Locks(s.lock, s'.lock, SeqLock.StoreClose)
  }

  ghost predicate NextStep(cache: Cache, s: State, s': State, step: Step)
  {
    match step
    case Populate(initialSlot) =>
      && s.phase.Fresh? && s'.phase == Populating(initialSlot) && s'.shifts == s.shifts
      && Locks(s.lock, s'.lock, Opening(Started(cache, initialSlot, initialSlot).entries))
    case Populated(loopSlot) => DoPopulated(cache, s, s', loopSlot)
    case QuietTurn(slot) =>
      && s.phase.Running? && s.phase.view.lastSlot <= slot && !Writes(s.phase.view, slot)
      && |s.phase.view.entries| == LEADER_BUFFER_SIZE
      && s' == s.(phase := Running(s.phase.initialSlot, s.phase.loopSlot, OnSlot(s.phase.view, cache, slot)))
    case OpenTurn(slot) => DoOpenTurn(cache, s, s', slot)
    case CloseTurn => DoCloseTurn(cache, s, s')
    case Inside(inner) =>
      // readers, and the writer between opening and closing
      && !inner.LoadOpen? && !inner.StoreClose?
      && s' == s.(lock := s'.lock) && Locks(s.lock, s'.lock, inner)
  }

  ghost predicate Next(cache: Cache, s: State, s': State) { exists step :: NextStep(cache, s, s', step) }

  ghost predicate Init(s: State)
  {
    && s.phase.Fresh? && SeqLock.Init(s.lock) && s.shifts == []
    && s.lock.data == Words(seq(LEADER_BUFFER_SIZE, i => EMPTY))
  }

  ghost predicate IsRun(cache: Cache, run: seq<State>)
  {
    && |run| > 0 && Init(run[0])
    && forall i :: 0 <= i < |run| - 1 ==> Next(cache, run[i], run[i + 1])
  }

  // ------------------------------------------------------------ invariant

  /** The buffer after `t` windows of a loop that began at slot `b` on a buffer populated for slot `a`. */
  function Shown(cache: Cache, a: nat, b: nat, t: nat): (entries: seq<LeaderEntry>)
  {
    Mixed(cache, a / SLOTS_PER_LEADER, b / SLOTS_PER_LEADER, t)
  }

  /** Each commit is the window at its shift, and the shifts never decrease. */
  ghost predicate Commits(cache: Cache, a: nat, b: nat, values: seq<seq<nat>>, shifts: seq<nat>)
  {
    && |values| == |shifts| + 1 && |shifts| >= 1
    && (forall k :: 0 <= k < |shifts| ==> values[k + 1] == Words(Shown(cache, a, b, shifts[k])))
    && (forall j, k :: 0 <= j <= k < |shifts| ==> shifts[j] <= shifts[k])
  }

  /** The tracker's own view is the last commit. */
  ghost predicate ViewOk(cache: Cache, a: nat, b: nat, view: View, shifts: seq<nat>)
  {
    && a <= b && |shifts| >= 1 && view.lastLeaderIdx == view.lastSlot / SLOTS_PER_LEADER
    && view.lastLeaderIdx == b / SLOTS_PER_LEADER + Last(shifts)
    && view.entries == Shown(cache, a, b, Last(shifts))
  }

  /** The value the open write section has to leave behind. */
  ghost predicate Heading(w: SeqLock.Writer<nat>, entries: seq<LeaderEntry>)
  {
    !w.Quiet? && w.goal == SeqLock.Whole(Words(entries))
  }

  ghost predicate LoopOk(cache: Cache, a: nat, b: nat, view: View, values: seq<seq<nat>>, shifts: seq<nat>)
  {
    ViewOk(cache, a, b, view, shifts) && Commits(cache, a, b, values, shifts)
  }

  ghost predicate PhaseOk(cache: Cache, s: State)
  {
    match s.phase
    case Fresh => s.lock.writer.Quiet? && |s.lock.values| == 1 && s.shifts == []
    case Populating(a) => Heading(s.lock.writer, Started(cache, a, a).entries) && |s.lock.values| == 1 && s.shifts == []
    case Running(a, b, view) =>
      s.lock.writer.Quiet? && LoopOk(cache, a, b, view, s.lock.values, s.shifts)
    case Writing(a, b, view, slot) =>
      && LoopOk(cache, a, b, view, s.lock.values, s.shifts) && view.lastSlot <= slot
      && Heading(s.lock.writer, OnSlot(view, cache, slot).entries)
  }

  ghost predicate Inv(cache: Cache, s: State)
  {
    SeqLock.Inv(s.lock) && PhaseOk(cache, s)
  }

  /** Inside a write section and on the readers' side the goal and the committed values stay put. */
  lemma {:induction false} InsideKeeps(s: Lock, s': Lock, inner: SeqLock.Step<nat>)
    requires SeqLock.NextStep(s, s', inner) && !inner.LoadOpen? && !inner.StoreClose?
    ensures s'.values == s.values
    ensures s'.writer.Quiet? == s.writer.Quiet?
    ensures !s.writer.Quiet? ==> s'.writer.goal == s.writer.goal
  {
  }

  lemma {:induction false} StartedShown(cache: Cache, a: nat, b: nat)
    ensures Started(cache, a, b).entries == Shown(cache, a, b, 0)
    ensures Started(cache, a, a).entries == Started(cache, a, b).entries
  {
    StartsMixed(cache, a, a / SLOTS_PER_LEADER, b / SLOTS_PER_LEADER);
  }

  lemma {:induction false} TurnShown(cache: Cache, a: nat, b: nat, view: View, slot: nat, shifts: seq<nat>)
    requires ViewOk(cache, a, b, view, shifts) && view.lastSlot <= slot
    ensures var t := Windows(b, slot); var view' := OnSlot(view, cache, slot);
            && Last(shifts) <= t && view'.entries == Shown(cache, a, b, t)
            && view'.lastSlot == slot && view'.lastLeaderIdx == slot / SLOTS_PER_LEADER
  {
    TurnMixed(cache, view, a / SLOTS_PER_LEADER, b / SLOTS_PER_LEADER, slot);
  }

  lemma {:induction false} CommitAppended(cache: Cache, a: nat, b: nat, values: seq<seq<nat>>, shifts: seq<nat>, t: nat)
    requires Commits(cache, a, b, values, shifts) && Last(shifts) <= t
    ensures Commits(cache, a, b, values + [Words(Shown(cache, a, b, t))], shifts + [t])
  {
  }

  lemma {:induction false} CloseInv(s: State, s': State, goal: seq<LeaderEntry>)
    requires SeqLock.Inv(s.lock) && Locks(s.lock, s'.lock, SeqLock.StoreClose) && Heading(s.lock.writer, goal)
    ensures SeqLock.Inv(s'.lock) && s'.lock.writer.Quiet? && s'.lock.values == s.lock.values + [Words(goal)]
  {
    SeqLock.StepInv(s.lock, s'.lock, SeqLock.StoreClose);
    SeqLock.CommitsWholeValues(s.lock, s'.lock, SeqLock.StoreClose);
  }

  lemma {:induction false} OpenInv(s: Lock, s': Lock, entries: seq<LeaderEntry>)
    requires SeqLock.Inv(s) && Locks(s, s', Opening(entries))
    ensures SeqLock.Inv(s') && Heading(s'.writer, entries) && s'.values == s.values
  {
    SeqLock.StepInv(s, s', Opening(entries));
  }

  lemma {:induction false} PopulatedInv(cache: Cache, s: State, s': State, b: nat)
    requires Inv(cache, s) && DoPopulated(cache, s, s', b)
    ensures Inv(cache, s')
  {
    var a := s.phase.initialSlot;
    CloseInv(s, s', Started(cache, a, a).entries);
    StartedShown(cache, a, b);
  }

  lemma {:induction false} CloseTurnInv(cache: Cache, s: State, s': State)
    requires Inv(cache, s) && DoCloseTurn(cache, s, s')
    ensures Inv(cache, s')
  {
    var a, b, view, slot := s.phase.initialSlot, s.phase.loopSlot, s.phase.view, s.phase.slot;
    CloseInv(s, s', OnSlot(view, cache, slot).entries);
    TurnCommitted(cache, a, b, view, slot, s.lock.values, s.shifts);
  }

  lemma {:induction false} TurnCommitted(cache: Cache, a: nat, b: nat, view: View, slot: nat, values: seq<seq<nat>>,
      shifts: seq<nat>)
    requires LoopOk(cache, a, b, view, values, shifts) && view.lastSlot <= slot
    ensures var t := Windows(b, slot); var view' := OnSlot(view, cache, slot);
            t >= 0 && LoopOk(cache, a, b, view', values + [Words(view'.entries)], shifts + [t])
  {
    TurnShown(cache, a, b, view, slot, shifts);
    CommitAppended(cache, a, b, values, shifts, Windows(b, slot));
  }

  lemma {:induction false} StepInv(cache: Cache, s: State, s': State, step: Step)
    requires Inv(cache, s) && NextStep(cache, s, s', step)
    ensures Inv(cache, s')
  {
    match step
    case Populate(a) => OpenInv(s.lock, s'.lock, Started(cache, a, a).entries);
    case Populated(b) => PopulatedInv(cache, s, s', b);
    case QuietTurn(slot) => TurnShown(cache, s.phase.initialSlot, s.phase.loopSlot, s.phase.view, slot, s.shifts);
    case OpenTurn(slot) => OpenInv(s.lock, s'.lock, OnSlot(s.phase.view, cache, slot).entries);
    case CloseTurn => CloseTurnInv(cache, s, s');
    case Inside(inner) =>
      SeqLock.StepInv(s.lock, s'.lock, inner);
      InsideKeeps(s.lock, s'.lock, inner);
  }

  lemma {:induction false} RunInv(cache: Cache, run: seq<State>, i: nat)
    requires IsRun(cache, run) && i < |run|
    ensures Inv(cache, run[i])
  {
    if i > 0 {
      var j := i - 1;
      RunInv(cache, run, j);
      assert Next(cache, run[j], run[j + 1]);
      var step :| NextStep(cache, run[j], run[j + 1], step);
      StepInv(cache, run[j], run[j + 1], step);
    }
  }

  // ------------------------------------------------------------ what readers get

  ghost predicate LoopRuns(phase: Phase) { phase.Running? || phase.Writing? }

  /** Words of the window the tracker has committed: the one for the slot it loaded last. */
  ghost predicate ShowsWindow(cache: Cache, s: State, out: map<nat, nat>)
    requires LoopRuns(s.phase)
  {
    var view := s.phase.view; var t := Windows(s.phase.loopSlot, view.lastSlot);
    && SeqLock.Agrees(out, Words(view.entries)) && EntriesAre(out, view.entries)
    && t >= 0 && view.entries == Shown(cache, s.phase.initialSlot, s.phase.loopSlot, t)
  }

  /** A read that succeeds shows the tracker's window as it is at that moment, and as it was all through the
    * read: its words are those of the window the tracker has committed, whatever it is writing next.
    */
  lemma {:induction false} SnapshotIsCurrent(cache: Cache, run: seq<State>, i: nat, r: SeqLock.Rid)
    requires IsRun(cache, run) && i + 1 < |run| && LoopRuns(run[i].phase)
    requires NextStep(cache, run[i], run[i + 1], Inside(SeqLock.FinishRead(r)))
    requires |run[i + 1].lock.results| > |run[i].lock.results|
    requires r in run[i].lock.readers && run[i].lock.increments - run[i].lock.readers[r].since < SeqLock.VERSIONS
    ensures run[i].lock.readers[r].since == run[i].lock.increments
    ensures ShowsWindow(cache, run[i], run[i].lock.readers[r].out)
  {
    RunInv(cache, run, i);
    FinishedRead(run[i].lock, run[i + 1].lock, r);
    LastCommitShown(cache, run[i], run[i].lock.readers[r].out);
  }

  lemma {:induction false} LastCommitShown(cache: Cache, s: State, out: map<nat, nat>)
    requires LoopRuns(s.phase) && PhaseOk(cache, s)
    requires |s.lock.values| > 0 && SeqLock.Agrees(out, Last(s.lock.values))
    ensures ShowsWindow(cache, s, out)
  {
    LastCommit(cache, s);
    AllEntriesWhole(out, s.phase.view.entries);
  }

  lemma {:induction false} FinishedRead(s: Lock, s': Lock, r: SeqLock.Rid)
    requires SeqLock.Inv(s) && Locks(s, s', SeqLock.FinishRead(r)) && |s'.results| > |s.results|
    requires r in s.readers && s.increments - s.readers[r].since < SeqLock.VERSIONS
    ensures s.readers[r].since == s.increments && |s.values| > 0 && SeqLock.Agrees(s.readers[r].out, Last(s.values))
  {
    SeqLock.AcceptedIsCurrent(s, s', r);
  }

  /** While the loop runs, the last committed value is what the tracker takes the buffer to be. */
  lemma {:induction false} LastCommit(cache: Cache, s: State)
    requires LoopRuns(s.phase)
    requires LoopOk(cache, s.phase.initialSlot, s.phase.loopSlot, s.phase.view, s.lock.values, s.shifts)
    ensures |s.lock.values| > 0 && Last(s.lock.values) == Words(s.phase.view.entries)
    ensures var t := Windows(s.phase.loopSlot, s.phase.view.lastSlot);
            t >= 0 && s.phase.view.entries == Shown(cache, s.phase.initialSlot, s.phase.loopSlot, t)
  {
    ViewIsLast(cache, s.phase.initialSlot, s.phase.loopSlot, s.phase.view, s.lock.values, s.shifts);
  }

  lemma {:induction false} ViewIsLast(cache: Cache, a: nat, b: nat, view: View, values: seq<seq<nat>>, shifts: seq<nat>)
    requires LoopOk(cache, a, b, view, values, shifts)
    ensures |values| > 0 && Last(values) == Words(view.entries)
    ensures var t := Windows(b, view.lastSlot); t >= 0 && view.entries == Shown(cache, a, b, t)
  {
  }

  /** The value a recorded read returned: the commit that was current, with its shift. */
  lemma {:induction false} SnapshotIsOneWindowState(cache: Cache, run: seq<State>, i: nat, k: nat) returns (t: nat)
    requires IsRun(cache, run) && i < |run| && k < |run[i].lock.results|
    requires 2 <= run[i].lock.results[k].since
    requires run[i].lock.results[k].until - run[i].lock.results[k].since < SeqLock.VERSIONS
    ensures LoopRuns(run[i].phase) && run[i].lock.results[k].since / 2 - 1 < |run[i].shifts|
    ensures t == run[i].shifts[run[i].lock.results[k].since / 2 - 1]
    ensures SeqLock.Agrees(run[i].lock.results[k].out,
                           Words(Shown(cache, run[i].phase.initialSlot, run[i].phase.loopSlot, t)))
  {
    RunInv(cache, run, i);
    SeqLock.ReadsOneValue(run[i].lock, k);
    t := run[i].shifts[run[i].lock.results[k].since / 2 - 1];
  }

  /** Entry `e` of a snapshot is entry `e` of its window. */
  lemma {:induction false} SnapshotEntry(cache: Cache, run: seq<State>, i: nat, k: nat, e: nat) returns (t: nat)
    requires IsRun(cache, run) && i < |run| && k < |run[i].lock.results|
    requires 2 <= run[i].lock.results[k].since && HasEntry(run[i].lock.results[k].out, e)
    requires run[i].lock.results[k].until - run[i].lock.results[k].since < SeqLock.VERSIONS
    ensures LoopRuns(run[i].phase) && e < LEADER_BUFFER_SIZE && run[i].lock.results[k].since / 2 - 1 < |run[i].shifts|
    ensures t == run[i].shifts[run[i].lock.results[k].since / 2 - 1]
    ensures EntryAt(run[i].lock.results[k].out, e)
         == MixedAt(cache, run[i].phase.initialSlot / SLOTS_PER_LEADER, run[i].phase.loopSlot / SLOTS_PER_LEADER, t, e)
  {
    t := SnapshotIsOneWindowState(cache, run, i, k);
    EntryIsWhole(run[i].lock.results[k].out, Shown(cache, run[i].phase.initialSlot, run[i].phase.loopSlot, t), e);
  }

  /** Main theorem. If the loop started in the leader window the buffer was populated for, a successful
    * snapshot holds ten consecutive leader windows: slots four apart, aligned, each with the schedule's leader.
    */
  lemma {:induction false} SnapshotIsContiguous(cache: Cache, run: seq<State>, i: nat, k: nat, j: nat)
    requires IsRun(cache, run) && i < |run| && k < |run[i].lock.results|
    requires 2 <= run[i].lock.results[k].since
    requires run[i].lock.results[k].until - run[i].lock.results[k].since < SeqLock.VERSIONS
    requires LoopRuns(run[i].phase) ==>
               run[i].phase.initialSlot / SLOTS_PER_LEADER == run[i].phase.loopSlot / SLOTS_PER_LEADER
    requires HasEntry(run[i].lock.results[k].out, 0) && HasEntry(run[i].lock.results[k].out, j)
    ensures var first, entry := EntryAt(run[i].lock.results[k].out, 0), EntryAt(run[i].lock.results[k].out, j);
            && first.startSlot % SLOTS_PER_LEADER == 0
            && entry.startSlot == first.startSlot + j * SLOTS_PER_LEADER
            && entry == Scheduled(cache, first.startSlot / SLOTS_PER_LEADER + j)
  {
    var t := SnapshotEntry(cache, run, i, k, 0);
    var t' := SnapshotEntry(cache, run, i, k, j);
    var q := run[i].phase.loopSlot / SLOTS_PER_LEADER;
    assert EntryAt(run[i].lock.results[k].out, 0) == Scheduled(cache, q + t);
  }

  /** Successive snapshots of one reader never go back: no entry's start slot decreases. */
  lemma {:induction false} SnapshotsNeverGoBack(cache: Cache, run: seq<State>, i: nat, j: nat, k: nat, e: nat)
    requires IsRun(cache, run) && i < |run| && j < k < |run[i].lock.results|
    requires run[i].lock.results[j].reader == run[i].lock.results[k].reader
    requires 2 <= run[i].lock.results[j].since && 2 <= run[i].lock.results[k].since
    requires run[i].lock.results[j].until - run[i].lock.results[j].since < SeqLock.VERSIONS
    requires run[i].lock.results[k].until - run[i].lock.results[k].since < SeqLock.VERSIONS
    requires HasEntry(run[i].lock.results[j].out, e) && HasEntry(run[i].lock.results[k].out, e)
    ensures EntryAt(run[i].lock.results[j].out, e).startSlot <= EntryAt(run[i].lock.results[k].out, e).startSlot
  {
    var t := SnapshotEntry(cache, run, i, j, e);
    var t' := SnapshotEntry(cache, run, i, k, e);
    RunInv(cache, run, i);
    SeqLock.OrderedResults(run[i].lock, j, k);
    MixedMonotone(cache, run[i].phase.initialSlot / SLOTS_PER_LEADER, run[i].phase.loopSlot / SLOTS_PER_LEADER,
        t, t', e);
  }

  lemma {:induction false} MixedMonotone(cache: Cache, p: nat, q: nat, t: nat, t': nat, e: nat)
    requires p <= q && t <= t'
    ensures MixedAt(cache, p, q, t, e).startSlot <= MixedAt(cache, p, q, t', e).startSlot
  {
  }

  /** Ten consecutive leader windows. */
  ghost predicate Contiguous(cache: Cache, entries: seq<LeaderEntry>)
  {
    exists idx :: entries == Window(cache, idx)
  }

  /** Outside that condition the window is out of step for the first nine leader changes of the loop. */
  lemma {:induction false} ContiguousExactly(cache: Cache, p: nat, q: nat, t: nat)
    ensures Contiguous(cache, Mixed(cache, p, q, t)) <==> (p == q || t == 0 || t >= LEADER_BUFFER_SIZE)
  {
    var mixed := Mixed(cache, p, q, t);
    if p == q || t >= LEADER_BUFFER_SIZE {
      assert mixed == Window(cache, q + t);
    } else if t == 0 {
      assert mixed == Window(cache, p);
    } else {
      var first, last := mixed[0], mixed[LEADER_BUFFER_SIZE - 1];
      assert first == Scheduled(cache, p + t) && last == Scheduled(cache, q + t + 9);
      assert last.startSlot - first.startSlot != (LEADER_BUFFER_SIZE - 1) * SLOTS_PER_LEADER;
      forall idx
        ensures mixed != Window(cache, idx)
      {
        var w := Window(cache, idx);
        assert w[LEADER_BUFFER_SIZE - 1].startSlot - w[0].startSlot == (LEADER_BUFFER_SIZE - 1) * SLOTS_PER_LEADER;
      }
    }
  }

  // ------------------------------------------------------------ the tracker on its own

  lemma {:induction false} Extend(cache: Cache, run: seq<State>, s': State, step: Step) returns (longer: seq<State>)
    requires IsRun(cache, run) && NextStep(cache, Last(run), s', step)
    ensures IsRun(cache, longer) && run <= longer && Last(longer) == s'
  {
    longer := run + [s'];
    forall i | 0 <= i < |longer| - 1
      ensures Next(cache, longer[i], longer[i + 1])
    {
      if i < |run| - 1 { assert Next(cache, run[i], run[i + 1]); }
    }
  }

  /** A step of the open write section. */
  lemma {:induction false} Moves(cache: Cache, run: seq<State>, lock: Lock, inner: SeqLock.Step<nat>)
      returns (longer: seq<State>)
    requires IsRun(cache, run) && SeqLock.WriterStep(Last(run).lock, lock, inner)
    requires inner.StoreOpen? || inner.WriteWord? || inner.LoadClose?
    ensures IsRun(cache, longer) && run <= longer && Last(longer) == Last(run).(lock := lock)
  {
    assert Locks(Last(run).lock, lock, inner);
    longer := Extend(cache, run, Last(run).(lock := lock), Inside(inner));
  }

  lemma {:induction false} WritesAll(cache: Cache, run: seq<State>, value: seq<nat>, k: nat)
      returns (longer: seq<State>)
    requires IsRun(cache, run) && Last(run).lock.writer.Mutating? && k <= |value| == |Last(run).lock.data|
    requires Last(run).lock.data[..k] == value[..k]
    ensures IsRun(cache, longer) && run <= longer
    ensures Last(longer) == Last(run).(lock := Last(run).lock.(data := value))
    decreases |value| - k
  {
    var lock := Last(run).lock;
    if k == |value| {
      assert lock.data == lock.data[..k] == value[..k] == value;
      longer := run;
    } else {
      var data := lock.data[k := value[k]];
      assert data[..k + 1] == value[..k + 1];
      longer := Moves(cache, run, lock.(data := data), SeqLock.WriteWord(k, value[k]));
      longer := WritesAll(cache, longer, value, k + 1);
    }
  }

  /** The lock when `value` is in place and the section is about to close. */
  function Filled(lock: Lock, value: seq<nat>): (filled: Lock)
  {
    var version := (lock.version + 1) % SeqLock.VERSIONS;
    lock.(version := version, increments := lock.increments + 1, data := value,
          writer := SeqLock.Closing(SeqLock.Whole(value), version))
  }

  lemma {:induction false} FillsSection(cache: Cache, run: seq<State>, value: seq<nat>) returns (longer: seq<State>)
    requires IsRun(cache, run) && |value| == |Last(run).lock.data|
    requires Last(run).lock.writer == SeqLock.Opening(SeqLock.Whole(value), Last(run).lock.version)
    ensures IsRun(cache, longer) && run <= longer
    ensures Last(longer) == Last(run).(lock := Filled(Last(run).lock, value))
  {
    var lock := Last(run).lock;
    var open := Filled(lock, value).(data := lock.data, writer := SeqLock.Mutating(SeqLock.Whole(value)));
    longer := Moves(cache, run, open, SeqLock.StoreOpen);
    longer := WritesAll(cache, longer, value, 0);
    longer := Moves(cache, longer, Filled(lock, value), SeqLock.LoadClose);
  }

  /** The lock after a whole write of `value`. */
  function Committed(lock: Lock, value: seq<nat>): (done: Lock)
  {
    var filled := Filled(lock, value);
    filled.(version := (filled.version + 1) % SeqLock.VERSIONS, increments := filled.increments + 1,
            writer := SeqLock.Quiet, values := lock.values + [value])
  }

  lemma {:induction false} SectionSteps(lock: Lock, entries: seq<LeaderEntry>, taken: Lock)
    requires lock.writer.Quiet? && FIELDS * |entries| == |lock.data|
    requires taken == lock.(writer := SeqLock.Opening(SeqLock.Whole(Words(entries)), lock.version))
    ensures Locks(lock, taken, Opening(entries))
    ensures Locks(Filled(taken, Words(entries)), Committed(lock, Words(entries)), SeqLock.StoreClose)
  {
  }

  /** While the loop runs between turns the data is the tracker's window. */
  lemma {:induction false} DataIsView(cache: Cache, s: State)
    requires Inv(cache, s) && s.phase.Running?
    ensures s.lock.writer.Quiet? && s.lock.data == Words(s.phase.view.entries)
    ensures |s.phase.view.entries| == LEADER_BUFFER_SIZE && Windows(s.phase.loopSlot, s.phase.view.lastSlot) >= 0
    ensures s.phase.view.lastLeaderIdx == s.phase.view.lastSlot / SLOTS_PER_LEADER
  {
    LastCommit(cache, s);
  }

  /** Main theorem. From every reachable state between turns and for every slot the loop can load next, the turn can go
    * through without a reader moving: the window it leaves in the buffer is the one the tracker then holds, and the
    * version moves exactly when the slot is in another leader window.
    */
  lemma {:induction false} TurnCompletes(cache: Cache, run: seq<State>, slot: nat) returns (longer: seq<State>)
    requires IsRun(cache, run) && Last(run).phase.Running? && Last(run).phase.view.lastSlot <= slot
    ensures IsRun(cache, longer) && run <= longer && |Last(run).phase.view.entries| == LEADER_BUFFER_SIZE
    ensures var s, s' := Last(run), Last(longer); var view := OnSlot(s.phase.view, cache, slot);
            && s'.phase == Running(s.phase.initialSlot, s.phase.loopSlot, view) && s'.lock.writer.Quiet?
            && |s'.lock.values| > 0 && Last(s'.lock.values) == s'.lock.data == Words(view.entries)
            && s'.lock.readers == s.lock.readers && s'.lock.results == s.lock.results
            && (s'.lock.increments == s.lock.increments <==> slot / SLOTS_PER_LEADER == s.phase.view.lastLeaderIdx)
  {
    var s := Last(run);
    RunInv(cache, run, |run| - 1);
    DataIsView(cache, s);
    if Writes(s.phase.view, slot) {
      longer := WindowTurn(cache, run, slot);
    } else {
      var view := OnSlot(s.phase.view, cache, slot);
      longer := Extend(cache, run, s.(phase := Running(s.phase.initialSlot, s.phase.loopSlot, view)), QuietTurn(slot));
      LastCommit(cache, s);
    }
  }

  lemma {:induction false} WindowTurn(cache: Cache, run: seq<State>, slot: nat) returns (longer: seq<State>)
    requires IsRun(cache, run) && Last(run).phase.Running? && Last(run).phase.view.lastSlot <= slot
    requires Last(run).lock.writer.Quiet? && Last(run).lock.data == Words(Last(run).phase.view.entries)
    requires |Last(run).phase.view.entries| == LEADER_BUFFER_SIZE && Writes(Last(run).phase.view, slot)
    requires Windows(Last(run).phase.loopSlot, slot) >= 0
    ensures IsRun(cache, longer) && run <= longer
    ensures var s := Last(run); var view := OnSlot(s.phase.view, cache, slot);
            && Last(longer).phase == Running(s.phase.initialSlot, s.phase.loopSlot, view)
            && Last(longer).lock == Committed(s.lock, Words(view.entries))
  {
    var s := Last(run);
    var view := OnSlot(s.phase.view, cache, slot);
    var words := Words(view.entries);
    var taken := s.lock.(writer := SeqLock.Opening(SeqLock.Whole(words), s.lock.version));
    SectionSteps(s.lock, view.entries, taken);
    var writing := Writing(s.phase.initialSlot, s.phase.loopSlot, s.phase.view, slot);
    longer := Extend(cache, run, State(taken, writing, s.shifts), OpenTurn(slot));
    longer := FillsSection(cache, longer, words);
    var running := Running(s.phase.initialSlot, s.phase.loopSlot, view);
    var s' := State(Committed(s.lock, words), running, s.shifts + [Windows(s.phase.loopSlot, slot)]);
    longer := Extend(cache, longer, s', CloseTurn);
  }

  /** The tracker can start at every slot, and its loop at every slot from there on: there is a run to each. */
  lemma {:induction false} StartCompletes(cache: Cache, initialSlot: nat, loopSlot: nat) returns (run: seq<State>)
    requires initialSlot <= loopSlot
    ensures IsRun(cache, run)
    ensures Last(run).phase == Running(initialSlot, loopSlot, Started(cache, initialSlot, loopSlot))
    ensures Last(run).lock.data == Words(Window(cache, initialSlot / SLOTS_PER_LEADER))
  {
    var blank := Words(seq(LEADER_BUFFER_SIZE, i => EMPTY));
    var lock: Lock := SeqLock.State(0, blank, SeqLock.Quiet, map[], 0, [blank], []);
    var entries := Started(cache, initialSlot, initialSlot).entries;
    var words := Words(entries);
    run := [State(lock, Fresh, [])];
    var taken := lock.(writer := SeqLock.Opening(SeqLock.Whole(words), lock.version));
    SectionSteps(lock, entries, taken);
    run := Extend(cache, run, State(taken, Populating(initialSlot), []), Populate(initialSlot));
    run := FillsSection(cache, run, words);
    var view := Started(cache, initialSlot, loopSlot);
    run := Extend(cache, run, State(Committed(lock, words), Running(initialSlot, loopSlot, view), [0]),
        Populated(loopSlot));
    StartedShown(cache, initialSlot, initialSlot);
    assert Shown(cache, initialSlot, initialSlot, 0) == Window(cache, initialSlot / SLOTS_PER_LEADER);
  }
}
