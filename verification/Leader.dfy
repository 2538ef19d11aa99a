/** The leader window (leader/src): the cached epoch schedule, the ten-entry buffer that the tracker shifts
  * in place, and the tracker's loop.
  */
module Leader {
  import opened Common

  const LEADER_BUFFER_SIZE: nat := 10
  const SLOTS_PER_LEADER: nat := 4

  datatype LeaderEntry = LeaderEntry(pubkey: nat, tpuQuic: nat, tpuQuicFwd: nat, startSlot: nat)

  const EMPTY: LeaderEntry := LeaderEntry(0, 0, 0, 0)

  /** One entry per slot of the epoch. */
  datatype EpochSchedule = EpochSchedule(epoch: nat, startSlot: nat, leaders: seq<LeaderEntry>)

  datatype Cache = Missing | Cached(schedule: EpochSchedule)

  predicate InEpoch(cache: Cache, slot: nat)
  {
    cache.Cached? && cache.schedule.startSlot <= slot < cache.schedule.startSlot + |cache.schedule.leaders|
  }

  /** `get_leader_at_slot`. */
  function LeaderAtSlot(cache: Cache, slot: nat): (r: Option<LeaderEntry>)
    ensures r.Some? <==> InEpoch(cache, slot)
    ensures r.Some? ==> r.value == cache.schedule.leaders[slot - cache.schedule.startSlot]
  {
    if InEpoch(cache, slot) then Some(cache.schedule.leaders[slot - cache.schedule.startSlot]) else None
  }

  /** The schedule's entry for leader window `idx`, stamped with its first slot; empty outside the epoch. */
  function Scheduled(cache: Cache, idx: nat): (e: LeaderEntry)
  {
    var slot := idx * SLOTS_PER_LEADER;
    LeaderOr(cache, slot, EMPTY).(startSlot := slot)
  }

  /** What a rebuild for leader window `idx` holds: the windows idx, idx + 1, ..., idx + 9. */
  function Window(cache: Cache, idx: nat): (w: seq<LeaderEntry>)
    ensures |w| == LEADER_BUFFER_SIZE
    ensures forall i :: 0 <= i < LEADER_BUFFER_SIZE ==> w[i] == Scheduled(cache, idx + i)
  {
    seq(LEADER_BUFFER_SIZE, i requires 0 <= i => Scheduled(cache, idx + i))
  }

  // ------------------------------------------------------------ filling a caller's buffer

  /** First slot of the `i`-th leader window from the one that contains `startSlot`. */
  function WindowSlot(startSlot: nat, i: nat): (slot: nat)
  {
    (startSlot / SLOTS_PER_LEADER + i) * SLOTS_PER_LEADER
  }

  /** The schedule's entry for `slot`, or `otherwise` outside the epoch. */
  function LeaderOr(cache: Cache, slot: nat, otherwise: LeaderEntry): (e: LeaderEntry)
  {
    match LeaderAtSlot(cache, slot) case Some(e) => e case None => otherwise
  }

  /** How many of the first `count` windows lie in the epoch. */
  function InEpochCount(cache: Cache, startSlot: nat, count: nat): (n: nat)
    ensures n <= count
  {
    if count == 0 then 0
    else InEpochCount(cache, startSlot, count - 1) + (if InEpoch(cache, WindowSlot(startSlot, count - 1)) then 1 else 0)
  }

  lemma {:induction false} NoneInEpoch(cache: Cache, startSlot: nat, from: nat, count: nat)
    requires from <= count && forall i: nat :: from <= i < count ==> !InEpoch(cache, WindowSlot(startSlot, i))
    ensures InEpochCount(cache, startSlot, count) == InEpochCount(cache, startSlot, from)
  {
    if from < count { NoneInEpoch(cache, startSlot, from, count - 1); }
  }

  /** `get_next_leaders_into`: writes the in-epoch windows and leaves the other entries of the slice as they
    * were. The slice is the first `count` entries of `buffer`.
    */
  method GetNextLeadersInto(cache: Cache, startSlot: nat, buffer: array<LeaderEntry>, count: nat) returns (written: nat)
    requires count <= buffer.Length
    modifies buffer
    ensures forall i :: 0 <= i < count ==>
              buffer[i] == LeaderOr(cache, WindowSlot(startSlot, i), old(buffer[i]))
    ensures forall i :: count <= i < buffer.Length ==> buffer[i] == old(buffer[i])
    ensures written == InEpochCount(cache, startSlot, count)
  {
    written := 0;
    if cache.Missing? {
      NoneInEpoch(cache, startSlot, 0, count);
      return;
    }
    var c := cache.schedule;
    var slot := (startSlot / SLOTS_PER_LEADER) * SLOTS_PER_LEADER;
    var maxSlot := c.startSlot + |c.leaders|;
    for i := 0 to count
      invariant slot == WindowSlot(startSlot, i)
      invariant forall j :: 0 <= j < i ==>
                  buffer[j] == LeaderOr(cache, WindowSlot(startSlot, j), old(buffer[j]))
      invariant forall j :: i <= j < buffer.Length ==> buffer[j] == old(buffer[j])
      invariant written == InEpochCount(cache, startSlot, i)
    {
      if slot >= maxSlot {
        assert forall j :: i <= j < count ==> WindowSlot(startSlot, j) >= slot;
        NoneInEpoch(cache, startSlot, i, count);
        return;
      }
      if slot >= c.startSlot {
        buffer[i] := c.leaders[slot - c.startSlot];
        written := written + 1;
      }
      slot := slot + SLOTS_PER_LEADER;
    }
  }

  /** Entry `i` of a fresh, empty slice after `get_next_leaders_into`, before it is stamped. */
  function Fetched(cache: Cache, startSlot: nat, count: nat): (r: seq<LeaderEntry>)
    ensures |r| == count
    ensures forall i :: 0 <= i < count ==> r[i] == LeaderOr(cache, WindowSlot(startSlot, i), EMPTY)
  {
    seq(count, i requires 0 <= i =>
      LeaderOr(cache, WindowSlot(startSlot, i), EMPTY))
  }

  method FetchLeaders(cache: Cache, startSlot: nat, count: nat) returns (entries: seq<LeaderEntry>)
    requires count <= LEADER_BUFFER_SIZE
    ensures entries == Fetched(cache, startSlot, count)
  {
    var stack := new LeaderEntry[LEADER_BUFFER_SIZE](i => EMPTY);
    var _ := GetNextLeadersInto(cache, startSlot, stack, count);
    entries := stack[..count];
  }

  // ------------------------------------------------------------ the buffer

  function BaseSlot(slot: nat): (b: nat) { (slot / SLOTS_PER_LEADER) * SLOTS_PER_LEADER }

  function Stamp(e: LeaderEntry, slot: nat, i: nat): (r: LeaderEntry)
  {
    e.(startSlot := BaseSlot(slot) + i * SLOTS_PER_LEADER)
  }

  function Pick(leaders: seq<LeaderEntry>, i: nat): (e: LeaderEntry) { if i < |leaders| then leaders[i] else EMPTY }

  /** The buffer after `update`. */
  function Replaced(slot: nat, leaders: seq<LeaderEntry>): (r: seq<LeaderEntry>)
    ensures |r| == LEADER_BUFFER_SIZE
    ensures forall i :: 0 <= i < LEADER_BUFFER_SIZE ==> r[i] == Stamp(Pick(leaders, i), slot, i)
  {
    seq(LEADER_BUFFER_SIZE, i requires 0 <= i => Stamp(Pick(leaders, i), slot, i))
  }

  /** The buffer after `shift_multiple` by `count`: old entries move up keeping their slots, new ones follow. */
  function Shifted(entries: seq<LeaderEntry>, count: nat, leaders: seq<LeaderEntry>, slot: nat): (r: seq<LeaderEntry>)
    requires |entries| == LEADER_BUFFER_SIZE
    ensures |r| == LEADER_BUFFER_SIZE
    ensures 0 < count < LEADER_BUFFER_SIZE ==>
              forall i :: 0 <= i < LEADER_BUFFER_SIZE ==> r[i] == ShiftedAt(entries, count, leaders, slot, i)
  {
    if count == 0 then entries
    else if count >= LEADER_BUFFER_SIZE then Replaced(slot, leaders)
    else seq(LEADER_BUFFER_SIZE, i requires 0 <= i < LEADER_BUFFER_SIZE => ShiftedAt(entries, count, leaders, slot, i))
  }

  function ShiftedAt(entries: seq<LeaderEntry>, count: nat, leaders: seq<LeaderEntry>, slot: nat, i: nat)
    : (e: LeaderEntry)
    requires |entries| == LEADER_BUFFER_SIZE && i < LEADER_BUFFER_SIZE && count < LEADER_BUFFER_SIZE
  {
    if i + count < LEADER_BUFFER_SIZE then entries[i + count]
    else Stamp(Appended(leaders, count, i + count - LEADER_BUFFER_SIZE), slot, i)
  }

  /** Only the first `count` of the new leaders are appended. */
  function Appended(leaders: seq<LeaderEntry>, count: nat, k: nat): (e: LeaderEntry)
  {
    if k < count then Pick(leaders, k) else EMPTY
  }

  class LeaderBuffer {
    var version: nat
    const entries: array<LeaderEntry>
    var currentSlot: nat

    ghost predicate Valid()
      reads this
    {
      entries.Length == LEADER_BUFFER_SIZE && version < U64
    }

    constructor ()
      ensures Valid() && fresh(entries) && version == 0 && currentSlot == 0
      ensures forall i :: 0 <= i < LEADER_BUFFER_SIZE ==> entries[i] == EMPTY
    {
      version := 0;
      entries := new LeaderEntry[LEADER_BUFFER_SIZE](i => EMPTY);
      currentSlot := 0;
    }

    method BeginWrite()
      requires Valid()
      modifies this`version
      ensures Valid() && version == (old(version) + 1) % U64
    {
      version := (version + 1) % U64;
    }

    method EndWrite()
      requires Valid()
      modifies this`version
      ensures Valid() && version == (old(version) + 1) % U64
    {
      version := (version + 1) % U64;
    }

    method SetCurrentSlot(slot: nat)
      requires Valid()
      modifies this`currentSlot
      ensures Valid() && currentSlot == slot
    {
      currentSlot := slot;
    }

    /** The shared tail of `update` and of a full `shift_multiple`: copy, clear, stamp. */
    method Replace(slot: nat, leaders: seq<LeaderEntry>)
      requires Valid()
      modifies entries
      ensures entries[..] == Replaced(slot, leaders)
    {
      var base := BaseSlot(slot);
      var copyLen := if |leaders| < LEADER_BUFFER_SIZE then |leaders| else LEADER_BUFFER_SIZE;
      for i := 0 to copyLen
        invariant forall j :: 0 <= j < i ==> entries[j] == leaders[j]
      {
        entries[i] := leaders[i];
      }
      for i := copyLen to LEADER_BUFFER_SIZE
        invariant forall j :: 0 <= j < i ==> entries[j] == Pick(leaders, j)
      {
        entries[i] := EMPTY;
      }
      for i := 0 to LEADER_BUFFER_SIZE
        invariant forall j :: 0 <= j < i ==> entries[j] == Stamp(Pick(leaders, j), slot, j)
        invariant forall j :: i <= j < LEADER_BUFFER_SIZE ==> entries[j] == Pick(leaders, j)
      {
        entries[i] := entries[i].(startSlot := base + i * SLOTS_PER_LEADER);
      }
    }

    method Update(newSlot: nat, newEntries: seq<LeaderEntry>)
      requires Valid()
      modifies this, entries
      ensures Valid() && currentSlot == newSlot && version == (old(version) + 2) % U64
      ensures entries[..] == Replaced(newSlot, newEntries)
    {
      BeginWrite();
      Replace(newSlot, newEntries);
      currentSlot := newSlot;
      EndWrite();
    }

    /** `copy_within(count.., 0)`: an ascending in-place move. */
    method CopyWithin(count: nat)
      requires Valid() && count < LEADER_BUFFER_SIZE
      modifies entries
      ensures entries[..] == old(entries[..])[count..] + old(entries[..])[LEADER_BUFFER_SIZE - count..]
    {
      ghost var before := entries[..];
      ghost var target := before[count..];
      for i := 0 to LEADER_BUFFER_SIZE - count
        invariant forall j :: 0 <= j < i ==> entries[j] == target[j]
        invariant forall j :: i <= j < LEADER_BUFFER_SIZE ==> entries[j] == before[j]
      {
        entries[i] := entries[i + count];
      }
      assert entries[..] == target + before[LEADER_BUFFER_SIZE - count..];
    }

    /** Fills, clears and stamps the positions freed by a partial shift. */
    method AppendLeaders(count: nat, newLeaders: seq<LeaderEntry>, newSlot: nat)
      requires Valid() && 0 < count < LEADER_BUFFER_SIZE
      modifies entries
      ensures forall i :: 0 <= i < LEADER_BUFFER_SIZE - count ==> entries[i] == old(entries[i])
      ensures forall i :: LEADER_BUFFER_SIZE - count <= i < LEADER_BUFFER_SIZE ==>
                entries[i] == Stamp(Appended(newLeaders, count, i + count - LEADER_BUFFER_SIZE), newSlot, i)
    {
      var base := BaseSlot(newSlot);
      var startPos := LEADER_BUFFER_SIZE - count;
      var newCount := if |newLeaders| < count then |newLeaders| else count;
      for k := 0 to newCount
        invariant forall i :: 0 <= i < startPos ==> entries[i] == old(entries[i])
        invariant forall i :: startPos <= i < startPos + k ==> entries[i] == Appended(newLeaders, count, i - startPos)
      {
        entries[startPos + k] := newLeaders[k];
      }
      for i := startPos + newCount to LEADER_BUFFER_SIZE
        invariant forall j :: 0 <= j < startPos ==> entries[j] == old(entries[j])
        invariant forall j :: startPos <= j < i ==> entries[j] == Appended(newLeaders, count, j - startPos)
      {
        entries[i] := EMPTY;
      }
      for i := startPos to LEADER_BUFFER_SIZE
        invariant forall j :: 0 <= j < startPos ==> entries[j] == old(entries[j])
        invariant forall j :: startPos <= j < i ==>
                  entries[j] == Stamp(Appended(newLeaders, count, j - startPos), newSlot, j)
        invariant forall j :: i <= j < LEADER_BUFFER_SIZE ==> entries[j] == Appended(newLeaders, count, j - startPos)
      {
        entries[i] := entries[i].(startSlot := base + i * SLOTS_PER_LEADER);
      }
    }

    method ShiftMultiple(count: nat, newLeaders: seq<LeaderEntry>, newSlot: nat)
      requires Valid()
      modifies this, entries
      ensures Valid() && entries[..] == Shifted(old(entries[..]), count, newLeaders, newSlot)
      ensures count == 0 ==> currentSlot == old(currentSlot) && version == old(version)
      ensures count > 0 ==> currentSlot == newSlot && version == (old(version) + 2) % U64
    {
      if count == 0 {
        return;
      }
      BeginWrite();
      if count >= LEADER_BUFFER_SIZE {
        Replace(newSlot, newLeaders);
      } else {
        CopyWithin(count);
        ghost var moved := entries[..];
        AppendLeaders(count, newLeaders, newSlot);
        assert forall i :: 0 <= i < LEADER_BUFFER_SIZE - count ==> entries[i] == moved[i];
        assert entries[..] == Shifted(old(entries[..]), count, newLeaders, newSlot);
      }
      currentSlot := newSlot;
      EndWrite();
    }

    /** `shift_and_append` is the shift by one. */
    method ShiftAndAppend(newLeader: LeaderEntry, newSlot: nat)
      requires Valid()
      modifies this, entries
      ensures Valid() && currentSlot == newSlot && version == (old(version) + 2) % U64
      ensures entries[..] == Shifted(old(entries[..]), 1, [newLeader], newSlot)
    {
      var stamped := newLeader.(startSlot := BaseSlot(newSlot) + (LEADER_BUFFER_SIZE - 1) * SLOTS_PER_LEADER);
      BeginWrite();
      CopyWithin(1);
      entries[LEADER_BUFFER_SIZE - 1] := stamped;
      assert stamped == Stamp(Appended([newLeader], 1, 0), newSlot, LEADER_BUFFER_SIZE - 1);
      assert entries[..] == Shifted(old(entries[..]), 1, [newLeader], newSlot);
      currentSlot := newSlot;
      EndWrite();
    }
  }

  // ------------------------------------------------------------ the tracker

  /** The tracker's loop variables together with what it writes. */
  datatype View = View(entries: seq<LeaderEntry>, currentSlot: nat, lastSlot: nat, lastLeaderIdx: nat)

  /** One turn of the loop on the slot it loaded. */
  function OnSlot(v: View, cache: Cache, slot: nat): (v': View)
    requires |v.entries| == LEADER_BUFFER_SIZE
    ensures |v'.entries| == LEADER_BUFFER_SIZE
  {
    var idx := slot / SLOTS_PER_LEADER;
    if slot == v.lastSlot then v
    else if idx == v.lastLeaderIdx then v.(currentSlot := slot, lastSlot := slot)
    else
      var passed := if idx > v.lastLeaderIdx then idx - v.lastLeaderIdx else 0;
      if passed >= LEADER_BUFFER_SIZE then
        View(Replaced(slot, Fetched(cache, slot, LEADER_BUFFER_SIZE)), slot, slot, idx)
      else
        var lookahead := (idx + (LEADER_BUFFER_SIZE - passed)) * SLOTS_PER_LEADER;
        View(Shifted(v.entries, passed, Fetched(cache, lookahead, passed), slot),
             if passed == 0 then v.currentSlot else slot, slot, idx)
  }

  class Tracker {
    const buffer: LeaderBuffer
    const cache: Cache
    var lastSlot: nat
    var lastLeaderIdx: nat

    ghost predicate Valid()
      reads this, buffer
    {
      buffer.Valid()
    }

    ghost function Observed(): (v: View)
      requires Valid()
      reads this, buffer, buffer.entries
      ensures |v.entries| == LEADER_BUFFER_SIZE
    {
      View(buffer.entries[..], buffer.currentSlot, lastSlot, lastLeaderIdx)
    }

    /** `start` fetches the schedule and populates the buffer for the slot it saw. The loop thread reads the
      * slot again when it starts, and takes that one for granted.
      */
    constructor (cache: Cache, initialSlot: nat, loopSlot: nat)
      ensures Valid() && fresh(buffer) && fresh(buffer.entries) && this.cache == cache
      ensures Observed() == Started(cache, initialSlot, loopSlot)
    {
      var b := new LeaderBuffer();
      var entries := FetchLeaders(cache, initialSlot, LEADER_BUFFER_SIZE);
      b.Update(initialSlot, entries);
      this.buffer := b;
      this.cache := cache;
      lastSlot := loopSlot;
      lastLeaderIdx := loopSlot / SLOTS_PER_LEADER;
    }

    method UpdateBufferFromSchedule(currentSlot: nat)
      requires Valid()
      modifies buffer, buffer.entries
      ensures Valid() && buffer.currentSlot == currentSlot
      ensures buffer.entries[..] == Replaced(currentSlot, Fetched(cache, currentSlot, LEADER_BUFFER_SIZE))
    {
      var entries := FetchLeaders(cache, currentSlot, LEADER_BUFFER_SIZE);
      buffer.Update(currentSlot, entries);
    }

    method FifoShiftBuffer(currentSlot: nat, leadersPassed: nat)
      requires Valid() && leadersPassed < LEADER_BUFFER_SIZE
      modifies buffer, buffer.entries
      ensures Valid() && buffer.currentSlot == if leadersPassed == 0 then old(buffer.currentSlot) else currentSlot
      ensures var idx := currentSlot / SLOTS_PER_LEADER;
              var lookahead := (idx + (LEADER_BUFFER_SIZE - leadersPassed)) * SLOTS_PER_LEADER;
              buffer.entries[..] == Shifted(old(buffer.entries[..]), leadersPassed,
                  Fetched(cache, lookahead, leadersPassed), currentSlot)
    {
      var lookahead := (currentSlot / SLOTS_PER_LEADER + (LEADER_BUFFER_SIZE - leadersPassed)) * SLOTS_PER_LEADER;
      var newEntries := FetchLeaders(cache, lookahead, leadersPassed);
      buffer.ShiftMultiple(leadersPassed, newEntries, currentSlot);
    }

    /** The body of `busy_spin_loop`. */
    method Turn(currentSlot: nat)
      requires Valid()
      modifies this, buffer, buffer.entries
      ensures Valid() && Observed() == OnSlot(old(Observed()), cache, currentSlot)
    {
      if currentSlot != lastSlot {
        var currentLeaderIdx := currentSlot / SLOTS_PER_LEADER;
        if currentLeaderIdx != lastLeaderIdx {
          var leadersPassed := if currentLeaderIdx > lastLeaderIdx then currentLeaderIdx - lastLeaderIdx else 0;
          if leadersPassed >= LEADER_BUFFER_SIZE {
            UpdateBufferFromSchedule(currentSlot);
          } else {
            FifoShiftBuffer(currentSlot, leadersPassed);
          }
          lastLeaderIdx := currentLeaderIdx;
        } else {
          buffer.SetCurrentSlot(currentSlot);
        }
        lastSlot := currentSlot;
      }
    }

    /** `busy_spin_loop` over the slots it loads. */
    method BusySpinLoop(slots: seq<nat>)
      requires Valid()
      modifies this, buffer, buffer.entries
      ensures Valid() && Observed() == Loop(old(Observed()), cache, slots)
    {
      for i := 0 to |slots|
        invariant Valid() && Observed() == Loop(old(Observed()), cache, slots[..i])
      {
        Turn(slots[i]);
        assert slots[..i + 1][..i] == slots[..i];
      }
      assert slots[..|slots|] == slots;
    }
  }

  function Started(cache: Cache, initialSlot: nat, loopSlot: nat): (v: View)
    ensures |v.entries| == LEADER_BUFFER_SIZE
  {
    View(Replaced(initialSlot, Fetched(cache, initialSlot, LEADER_BUFFER_SIZE)), initialSlot, loopSlot,
        loopSlot / SLOTS_PER_LEADER)
  }

  function Loop(v: View, cache: Cache, slots: seq<nat>): (v': View)
    requires |v.entries| == LEADER_BUFFER_SIZE
    ensures |v'.entries| == LEADER_BUFFER_SIZE
  {
    if slots == [] then v else OnSlot(Loop(v, cache, slots[..|slots| - 1]), cache, slots[|slots| - 1])
  }

  // ------------------------------------------------------------ incremental equals rebuild

  /** A rebuild writes the scheduled window of its slot. */
  lemma {:induction false} RebuildIsWindow(cache: Cache, slot: nat)
    ensures Replaced(slot, Fetched(cache, slot, LEADER_BUFFER_SIZE)) == Window(cache, slot / SLOTS_PER_LEADER)
  {
    var rebuilt := Replaced(slot, Fetched(cache, slot, LEADER_BUFFER_SIZE));
    forall i: nat | i < LEADER_BUFFER_SIZE
      ensures rebuilt[i] == Scheduled(cache, slot / SLOTS_PER_LEADER + i)
    {
      assert WindowSlot(slot, i) == (slot / SLOTS_PER_LEADER + i) * SLOTS_PER_LEADER;
    }
  }

  /** The buffer `t` windows after the loop started at window `q` on a buffer populated for window `p`. */
  function Mixed(cache: Cache, p: nat, q: nat, t: nat): (w: seq<LeaderEntry>)
    ensures |w| == LEADER_BUFFER_SIZE
    ensures forall i :: 0 <= i < LEADER_BUFFER_SIZE ==> w[i] == MixedAt(cache, p, q, t, i)
  {
    seq(LEADER_BUFFER_SIZE, i requires 0 <= i => MixedAt(cache, p, q, t, i))
  }

  function MixedAt(cache: Cache, p: nat, q: nat, t: nat, i: nat): (e: LeaderEntry)
  {
    if t + i < LEADER_BUFFER_SIZE then Scheduled(cache, p + t + i) else Scheduled(cache, q + t + i)
  }

  lemma {:induction false} ShiftMixed(cache: Cache, p: nat, q: nat, t: nat, k: nat, slot: nat)
    requires slot / SLOTS_PER_LEADER == q + t + k && 0 < k < LEADER_BUFFER_SIZE
    ensures var lookahead := (q + t + k + (LEADER_BUFFER_SIZE - k)) * SLOTS_PER_LEADER;
            Shifted(Mixed(cache, p, q, t), k, Fetched(cache, lookahead, k), slot) == Mixed(cache, p, q, t + k)
  {
    var lookahead := (q + t + k + (LEADER_BUFFER_SIZE - k)) * SLOTS_PER_LEADER;
    var shifted := Shifted(Mixed(cache, p, q, t), k, Fetched(cache, lookahead, k), slot);
    forall i: nat | i < LEADER_BUFFER_SIZE
      ensures shifted[i] == Mixed(cache, p, q, t + k)[i]
    {
      if i + k >= LEADER_BUFFER_SIZE {
        assert WindowSlot(lookahead, i + k - LEADER_BUFFER_SIZE) == (q + t + k + i) * SLOTS_PER_LEADER;
      }
    }
  }

  lemma {:induction false} TurnMixed(cache: Cache, v: View, p: nat, q: nat, slot: nat)
    requires v.lastSlot <= slot && v.lastLeaderIdx == v.lastSlot / SLOTS_PER_LEADER && q <= v.lastLeaderIdx
    requires v.entries == Mixed(cache, p, q, v.lastLeaderIdx - q)
    ensures var v' := OnSlot(v, cache, slot);
            && v'.lastSlot == slot && v'.lastLeaderIdx == slot / SLOTS_PER_LEADER && q <= v'.lastLeaderIdx
            && v'.entries == Mixed(cache, p, q, v'.lastLeaderIdx - q)
            && (slot != v.lastSlot ==> v'.currentSlot == slot) && (slot == v.lastSlot ==> v' == v)
  {
    var idx := slot / SLOTS_PER_LEADER;
    if slot != v.lastSlot && idx != v.lastLeaderIdx {
      var passed := idx - v.lastLeaderIdx;
      if passed >= LEADER_BUFFER_SIZE {
        RebuildIsWindow(cache, slot);
        assert Window(cache, idx) == Mixed(cache, p, q, idx - q);
      } else {
        ShiftMixed(cache, p, q, v.lastLeaderIdx - q, passed, slot);
      }
    }
  }

  predicate NonDecreasing(first: nat, slots: seq<nat>)
  {
    && (forall i :: 0 <= i < |slots| ==> first <= slots[i])
    && (forall i, j :: 0 <= i < j < |slots| ==> slots[i] <= slots[j])
  }

  /** What the tracker knows and shows when the last slot it acted on is `last`. */
  ghost predicate Tracks(cache: Cache, initialSlot: nat, loopSlot: nat, last: nat, v: View)
  {
    var p, q := initialSlot / SLOTS_PER_LEADER, loopSlot / SLOTS_PER_LEADER;
    && v.lastSlot == last && v.lastLeaderIdx == last / SLOTS_PER_LEADER && q <= v.lastLeaderIdx
    && v.entries == Mixed(cache, p, q, v.lastLeaderIdx - q)
    && v.currentSlot == (if last == loopSlot then initialSlot else last)
  }

  function LastSlot(loopSlot: nat, slots: seq<nat>): (slot: nat)
  {
    if slots == [] then loopSlot else slots[|slots| - 1]
  }

  lemma {:induction false} TurnTracks(cache: Cache, initialSlot: nat, loopSlot: nat, last: nat, v: View, slot: nat)
    requires Tracks(cache, initialSlot, loopSlot, last, v) && loopSlot <= last <= slot
    ensures Tracks(cache, initialSlot, loopSlot, slot, OnSlot(v, cache, slot))
  {
    TurnMixed(cache, v, initialSlot / SLOTS_PER_LEADER, loopSlot / SLOTS_PER_LEADER, slot);
  }

  lemma {:induction false} LoopMixed(cache: Cache, initialSlot: nat, loopSlot: nat, slots: seq<nat>)
    requires NonDecreasing(loopSlot, slots)
    ensures Tracks(cache, initialSlot, loopSlot, LastSlot(loopSlot, slots),
                   Loop(Started(cache, initialSlot, loopSlot), cache, slots))
  {
    if slots == [] {
      StartsMixed(cache, initialSlot, initialSlot / SLOTS_PER_LEADER, loopSlot / SLOTS_PER_LEADER);
    } else {
      var rest := slots[..|slots| - 1];
      LoopMixed(cache, initialSlot, loopSlot, rest);
      TurnTracks(cache, initialSlot, loopSlot, LastSlot(loopSlot, rest),
                 Loop(Started(cache, initialSlot, loopSlot), cache, rest), slots[|slots| - 1]);
    }
  }

  lemma {:induction false} StartsMixed(cache: Cache, slot: nat, p: nat, q: nat)
    requires p == slot / SLOTS_PER_LEADER
    ensures Replaced(slot, Fetched(cache, slot, LEADER_BUFFER_SIZE)) == Mixed(cache, p, q, 0)
  {
    RebuildIsWindow(cache, slot);
    assert Window(cache, p) == Mixed(cache, p, q, 0);
  }

  /** Main theorem. After any non-decreasing slots, the incrementally shifted buffer equals a full rebuild for
    * the current slot exactly when the buffer had been populated for the leader window in which the loop
    * started, or ten windows have passed since.
    */
  lemma {:induction false} IncrementalEqualsRebuild(cache: Cache, initialSlot: nat, loopSlot: nat, slots: seq<nat>)
    requires NonDecreasing(loopSlot, slots)
    ensures var v := Loop(Started(cache, initialSlot, loopSlot), cache, slots);
            var current := LastSlot(loopSlot, slots);
            v.entries == Replaced(current, Fetched(cache, current, LEADER_BUFFER_SIZE))
            <==> (initialSlot / SLOTS_PER_LEADER == loopSlot / SLOTS_PER_LEADER
                  || current / SLOTS_PER_LEADER - loopSlot / SLOTS_PER_LEADER >= LEADER_BUFFER_SIZE)
  {
    LoopMixed(cache, initialSlot, loopSlot, slots);
    var current := LastSlot(loopSlot, slots);
    RebuildIsWindow(cache, current);
    MixedIsWindow(cache, initialSlot / SLOTS_PER_LEADER, loopSlot / SLOTS_PER_LEADER,
                  current / SLOTS_PER_LEADER - loopSlot / SLOTS_PER_LEADER);
  }

  lemma {:induction false} MixedIsWindow(cache: Cache, p: nat, q: nat, t: nat)
    ensures Mixed(cache, p, q, t) == Window(cache, q + t) <==> (p == q || t >= LEADER_BUFFER_SIZE)
  {
    if p != q && t < LEADER_BUFFER_SIZE {
      assert Mixed(cache, p, q, t)[0].startSlot == (p + t) * SLOTS_PER_LEADER;
      assert Window(cache, q + t)[0].startSlot == (q + t) * SLOTS_PER_LEADER;
    }
  }
}
