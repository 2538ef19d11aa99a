/** The sequence lock (sync/src/seqlock.rs, repeated in leader/src/leader_buffer.rs) as a step system: one
  * writer, any number of readers, data copied word by word in any order between the steps of the others.
  */
module SeqLock {
  import opened Common

  /** The version counter is a u64 incremented with `wrapping_add`. */
  const VERSIONS: nat := U64

  type Rid = nat

  datatype Goal<W> = Update | Whole(value: seq<W>)

  /** The writer's program counter; `Whole` is `write(value)`, `Update` an in-place mutation. */
  datatype Writer<W> =
    | Quiet
    | Opening(goal: Goal<W>, loaded: nat)    // first increment: version loaded, stored next
    | Mutating(goal: Goal<W>)
    | Closing(goal: Goal<W>, loaded: nat)    // second increment: version loaded, stored next

  /** A reader between its two version loads; `out` holds the words copied so far. `since` is the number of
    * version increments when it started (a history, not read by any step).
    */
  datatype Reader<W> = Reader(version: nat, out: map<nat, W>, since: nat)

  /** A successful read: what it returned and the increment counts at its two version loads. */
  datatype Result<W> = Result(reader: Rid, out: map<nat, W>, since: nat, until: nat)

  /** `increments`, `values` and `results` are histories that no step reads. */
  datatype State<W> = State(
    version: nat,
    data: seq<W>,
    writer: Writer<W>,
    readers: map<Rid, Reader<W>>,
    increments: nat,
    values: seq<seq<W>>,
    results: seq<Result<W>>
  )

  datatype Step<W> =
    | LoadOpen(goal: Goal<W>)
    | StoreOpen
    | WriteWord(i: nat, w: W)
    | LoadClose
    | StoreClose
    | StartRead(r: Rid)
    | ReadWord(r: Rid, i: nat)
    | FinishRead(r: Rid)

  ghost predicate WriterStep<W>(s: State<W>, s': State<W>, step: Step<W>)
  {
    match step
    case LoadOpen(goal) =>
      && s.writer.Quiet? && (goal.Whole? ==> |goal.value| == |s.data|)
      && s' == s.(writer := Opening(goal, s.version))
    case StoreOpen =>
      && s.writer.Opening?
      && s' == s.(version := (s.writer.loaded + 1) % VERSIONS, writer := Mutating(s.writer.goal),
          increments := s.increments + 1)
    case WriteWord(i, w) =>
      && s.writer.Mutating? && i < |s.data|
      && s' == s.(data := s.data[i := w])
    case LoadClose =>
      && s.writer.Mutating? && (s.writer.goal.Whole? ==> s.data == s.writer.goal.value)
      && s' == s.(writer := Closing(s.writer.goal, s.version))
    case StoreClose =>
      && s.writer.Closing?
      && s' == s.(version := (s.writer.loaded + 1) % VERSIONS, writer := Quiet, increments := s.increments + 1,
                  values := s.values + [s.data])
    case _ => false
  }

  ghost predicate ReaderStep<W>(s: State<W>, s': State<W>, step: Step<W>)
  {
    match step
    case StartRead(r) =>
      // an odd version sends the reader away with None
      && r !in s.readers
      && s' == if s.version % 2 == 1 then s
               else s.(readers := s.readers[r := Reader(s.version, map[], s.increments)])
    case ReadWord(r, i) =>
      && r in s.readers && i < |s.data|
      && s' == s.(readers := s.readers[r := s.readers[r].(out := s.readers[r].out[i := s.data[i]])])
    case FinishRead(r) =>
      && r in s.readers
      && var rd := s.readers[r];
         s' == s.(readers := s.readers - {r},
                  results := if rd.version == s.version then s.results + [Result(r, rd.out, rd.since, s.increments)]
                             else s.results)
    case _ => false
  }

  ghost predicate NextStep<W>(s: State<W>, s': State<W>, step: Step<W>)
  {
    WriterStep(s, s', step) || ReaderStep(s, s', step)
  }

  ghost predicate Next<W(!new)>(s: State<W>, s': State<W>) { exists step :: NextStep(s, s', step) }

  ghost predicate Init<W>(s: State<W>)
  {
    && s.version == 0 && s.writer == Quiet && s.readers == map[]
    && s.increments == 0 && s.values == [s.data] && s.results == []
  }

  ghost predicate IsRun<W(!new)>(run: seq<State<W>>)
  {
    && |run| > 0 && Init(run[0])
    && forall i :: 0 <= i < |run| - 1 ==> Next(run[i], run[i + 1])
  }

  // ------------------------------------------------------------ invariant

  /** The words of `out` are the words of `value`. */
  ghost predicate Agrees<W>(out: map<nat, W>, value: seq<W>)
  {
    forall i :: i in out ==> i < |value| && out[i] == value[i]
  }

  ghost predicate WriterOk<W>(s: State<W>)
  {
    && s.version == s.increments % VERSIONS
    && |s.values| == s.increments / 2 + 1
    && (s.increments % 2 == 1 <==> s.writer.Mutating? || s.writer.Closing?)
    && (s.writer.Opening? || s.writer.Closing? ==> s.writer.loaded == s.version)
    && (s.writer.Closing? && s.writer.goal.Whole? ==> s.data == s.writer.goal.value)
    && (s.increments % 2 == 0 ==> s.data == s.values[|s.values| - 1])
  }

  /** As long as the version has not moved since the reader started, its words belong to the current value. */
  ghost predicate ReaderOk<W>(rd: Reader<W>, increments: nat, values: seq<seq<W>>)
  {
    && rd.since <= increments && rd.since % 2 == 0 && rd.version == rd.since % VERSIONS
    && rd.since / 2 < |values|
    && (rd.since == increments ==> Agrees(rd.out, values[rd.since / 2]))
  }

  ghost predicate ResultOk<W>(res: Result<W>, increments: nat, values: seq<seq<W>>)
  {
    && res.since <= res.until <= increments && res.since % 2 == 0
    && res.since % VERSIONS == res.until % VERSIONS
    && res.since / 2 < |values|
    && (res.since == res.until ==> Agrees(res.out, values[res.since / 2]))
  }

  ghost predicate ReadersOk<W>(s: State<W>)
  {
    forall r :: r in s.readers ==> ReaderOk(s.readers[r], s.increments, s.values)
  }

  ghost predicate ResultsOk<W>(s: State<W>)
  {
    forall i :: 0 <= i < |s.results| ==> ResultOk(s.results[i], s.increments, s.values)
  }

  /** Reads of one reader follow each other. */
  ghost predicate Ordered<W>(s: State<W>)
  {
    && (forall i, j :: 0 <= i < j < |s.results| && s.results[i].reader == s.results[j].reader ==>
          s.results[i].until <= s.results[j].since)
    && (forall i :: 0 <= i < |s.results| && s.results[i].reader in s.readers ==>
          s.results[i].until <= s.readers[s.results[i].reader].since)
  }

  ghost predicate Inv<W>(s: State<W>)
  {
    WriterOk(s) && ReadersOk(s) && ResultsOk(s) && Ordered(s)
  }

  lemma {:induction false} VersionStep(n: nat)
    ensures (n % VERSIONS + 1) % VERSIONS == (n + 1) % VERSIONS
  {
  }

  lemma {:induction false} ParityOfVersion(n: nat)
    ensures (n % VERSIONS) % 2 == n % 2
  {
    assert n == VERSIONS * (n / VERSIONS) + n % VERSIONS;
  }

  /** An increment ends every read in progress: its words need not agree with anything any more. */
  lemma {:induction false} IncrementKeepsReader<W>(rd: Reader<W>, increments: nat, values: seq<seq<W>>,
      values': seq<seq<W>>)
    requires ReaderOk(rd, increments, values) && |values| <= |values'|
    ensures ReaderOk(rd, increments + 1, values')
  {
  }

  lemma {:induction false} WriterInv<W>(s: State<W>, s': State<W>, step: Step<W>)
    requires Inv(s) && WriterStep(s, s', step)
    ensures Inv(s')
  {
    match step
    case StoreOpen =>
      VersionStep(s.increments);
      forall r | r in s'.readers ensures ReaderOk(s'.readers[r], s'.increments, s'.values) {
        IncrementKeepsReader(s.readers[r], s.increments, s.values, s'.values);
      }
    case StoreClose =>
      VersionStep(s.increments);
      forall r | r in s'.readers ensures ReaderOk(s'.readers[r], s'.increments, s'.values) {
        IncrementKeepsReader(s.readers[r], s.increments, s.values, s'.values);
      }
      forall i | 0 <= i < |s'.results| ensures ResultOk(s'.results[i], s'.increments, s'.values) {
        assert ResultOk(s.results[i], s.increments, s.values);
      }
    case WriteWord(i, w) =>
    case LoadOpen(_) =>
    case LoadClose =>
  }

  lemma {:induction false} ReaderInv<W>(s: State<W>, s': State<W>, step: Step<W>)
    requires Inv(s) && ReaderStep(s, s', step)
    ensures Inv(s')
  {
    match step
    case StartRead(r) => ParityOfVersion(s.increments);
    case ReadWord(r, i) => ReadWordInv(s, s', r, i);
    case FinishRead(r) => FinishReadInv(s, s', r);
  }

  lemma {:induction false} ReadWordInv<W>(s: State<W>, s': State<W>, r: Rid, i: nat)
    requires Inv(s) && ReaderStep(s, s', ReadWord(r, i))
    ensures Inv(s')
  {
    assert ReaderOk(s.readers[r], s.increments, s.values);
  }

  lemma {:induction false} FinishReadInv<W>(s: State<W>, s': State<W>, r: Rid)
    requires Inv(s) && ReaderStep(s, s', FinishRead(r))
    ensures Inv(s')
  {
    assert ReaderOk(s.readers[r], s.increments, s.values);
  }

  lemma {:induction false} StepInv<W>(s: State<W>, s': State<W>, step: Step<W>)
    requires Inv(s) && NextStep(s, s', step)
    ensures Inv(s')
  {
    if WriterStep(s, s', step) {
      WriterInv(s, s', step);
    } else {
      ReaderInv(s, s', step);
    }
  }

  lemma {:induction false} RunInv<W(!new)>(run: seq<State<W>>, i: nat)
    requires IsRun(run) && i < |run|
    ensures Inv(run[i])
  {
    if i > 0 {
      var j := i - 1;
      RunInv(run, j);
      assert Next(run[j], run[j + 1]);
      var step :| NextStep(run[j], run[j + 1], step);
      StepInv(run[j], run[j + 1], step);
    }
  }

  // ------------------------------------------------------------ whole runs

  /** `write(value)` commits exactly `value`, and commits happen nowhere else. */
  lemma {:induction false} CommitsWholeValues<W>(s: State<W>, s': State<W>, step: Step<W>)
    requires Inv(s) && NextStep(s, s', step)
    ensures step.StoreClose? && s.writer.goal.Whole? ==> s'.values == s.values + [s.writer.goal.value]
    ensures !step.StoreClose? ==> s'.values == s.values
  {
  }

  /** The words of a value by their index. */
  function Words<W>(value: seq<W>): (words: map<nat, W>)
  {
    map j: nat | j < |value| :: value[j]
  }

  /** Main theorem. A read that succeeds while fewer than 2^64 version increments (2^63 writes) happened
    * between its version loads overlapped no write at all: every word it returned is a word of the one value
    * that was current at both loads, and a read of all words returns exactly that value.
    */
  lemma {:induction false} NeverTorn<W(!new)>(run: seq<State<W>>, i: nat, k: nat)
    requires IsRun(run) && i < |run| && k < |run[i].results|
    requires run[i].results[k].until - run[i].results[k].since < VERSIONS
    ensures var res := run[i].results[k];
            && res.since == res.until && res.since / 2 < |run[i].values|
            && Agrees(res.out, run[i].values[res.since / 2])
            && ((forall j: nat :: j < |run[i].values[res.since / 2]| ==> j in res.out) ==>
                  res.out == Words(run[i].values[res.since / 2]))
  {
    RunInv(run, i);
    ReadsOneValue(run[i], k);
  }

  lemma {:induction false} ReadsOneValue<W>(s: State<W>, k: nat)
    requires Inv(s) && k < |s.results| && s.results[k].until - s.results[k].since < VERSIONS
    ensures var res := s.results[k];
            && res.since == res.until && res.since / 2 < |s.values| && Agrees(res.out, s.values[res.since / 2])
  {
    var res := s.results[k];
    assert ResultOk(res, s.increments, s.values);
    SameResidue(res.since, res.until);
  }

  lemma {:induction false} SameResidue(a: nat, b: nat)
    requires a <= b < a + VERSIONS && a % VERSIONS == b % VERSIONS
    ensures a == b
  {
  }

  /** Successive results of one reader never go back in write order. */
  lemma {:induction false} NeverGoesBack<W(!new)>(run: seq<State<W>>, i: nat, j: nat, k: nat)
    requires IsRun(run) && i < |run| && j < k < |run[i].results|
    requires run[i].results[j].reader == run[i].results[k].reader
    ensures run[i].results[j].since / 2 <= run[i].results[k].since / 2
  {
    RunInv(run, i);
    OrderedResults(run[i], j, k);
  }

  /** The second version load accepts exactly the reads that saw a multiple of 2^64 increments. */
  lemma {:induction false} AcceptedExactly<W>(s: State<W>, s': State<W>, r: Rid)
    requires Inv(s) && ReaderStep(s, s', FinishRead(r))
    ensures |s'.results| == |s.results| + 1 <==> (s.increments - s.readers[r].since) % VERSIONS == 0
  {
    var rd := s.readers[r];
    assert ReaderOk(rd, s.increments, s.values);
    ResidueOfDifference(rd.since, s.increments);
  }

  /** A read that is accepted after fewer than 2^64 increments saw none, and copied the last committed value. */
  lemma {:induction false} AcceptedIsCurrent<W>(s: State<W>, s': State<W>, r: Rid)
    requires Inv(s) && ReaderStep(s, s', FinishRead(r)) && |s'.results| > |s.results|
    requires s.increments - s.readers[r].since < VERSIONS
    ensures s.readers[r].since == s.increments && |s.values| > 0 && Agrees(s.readers[r].out, Last(s.values))
  {
    var rd := s.readers[r];
    assert ReaderOk(rd, s.increments, s.values);
    SameResidue(rd.since, s.increments);
  }

  lemma {:induction false} OrderedResults<W>(s: State<W>, j: nat, k: nat)
    requires Inv(s) && j < k < |s.results| && s.results[j].reader == s.results[k].reader
    ensures s.results[j].since <= s.results[k].since
  {
    assert ResultOk(s.results[j], s.increments, s.values);
  }

  lemma {:induction false} ResidueOfDifference(a: nat, b: nat)
    requires a <= b
    ensures (b - a) % VERSIONS == 0 <==> a % VERSIONS == b % VERSIONS
  {
  }

  // ------------------------------------------------------------ reads and writes on their own

  /** In every reachable state a read that tries to start does start exactly when no write section is open. */
  lemma {:induction false} StartsExactly<W(!new)>(run: seq<State<W>>, i: nat, s': State<W>, r: Rid)
    requires IsRun(run) && i < |run| && NextStep(run[i], s', StartRead(r))
    ensures r in s'.readers <==> !run[i].writer.Mutating? && !run[i].writer.Closing?
  {
    RunInv(run, i);
    ParityOfVersion(run[i].increments);
  }

  /** In every reachable state a read that saw no increment since it started is recorded when it finishes, and one that
    * has copied every word returns the last committed value whole.
    */
  lemma {:induction false} UndisturbedSucceeds<W(!new)>(run: seq<State<W>>, i: nat, s': State<W>, r: Rid)
    requires IsRun(run) && i < |run| && NextStep(run[i], s', FinishRead(r))
    requires run[i].readers[r].since == run[i].increments
    ensures |run[i].values| > 0 && |s'.results| == |run[i].results| + 1 && r !in s'.readers
    ensures var res, value := Last(s'.results), Last(run[i].values);
            && res.reader == r && Agrees(res.out, value)
            && ((forall j: nat :: j < |value| ==> j in res.out) ==> res.out == Words(value))
  {
    RunInv(run, i);
    assert ReaderOk(run[i].readers[r], run[i].increments, run[i].values);
  }

  lemma {:induction false} Extend<W(!new)>(run: seq<State<W>>, s: State<W>, step: Step<W>)
      returns (longer: seq<State<W>>)
    requires IsRun(run) && NextStep(Last(run), s, step)
    ensures IsRun(longer) && run <= longer && Last(longer) == s
  {
    longer := run + [s];
    forall i | 0 <= i < |longer| - 1
      ensures Next(longer[i], longer[i + 1])
    {
      if i < |run| - 1 {
        assert Next(run[i], run[i + 1]);
      } else {
        assert NextStep(longer[i], longer[i + 1], step);
      }
    }
  }

  lemma {:induction false} PutTwice<V>(readers: map<Rid, V>, r: Rid, a: V, b: V)
    ensures readers[r := a][r := b] == readers[r := b]
    ensures r !in readers ==> readers[r := a] - {r} == readers
  {
  }

  /** The reader copies the words from the k-th on. */
  lemma {:induction false} ReadsAll<W(!new)>(run: seq<State<W>>, rest: map<Rid, Reader<W>>, r: Rid, rd: Reader<W>,
      k: nat) returns (longer: seq<State<W>>)
    requires IsRun(run) && k <= |Last(run).data|
    requires Last(run).readers == rest[r := rd] && rd.out == Words(Last(run).data[..k])
    ensures IsRun(longer) && run <= longer
    ensures Last(longer) == Last(run).(readers := rest[r := rd.(out := Words(Last(run).data))])
    decreases |Last(run).data| - k
  {
    var s := Last(run);
    if k == |s.data| {
      assert s.data[..k] == s.data;
      longer := run;
    } else {
      var more := rd.(out := Words(s.data[..k + 1]));
      OneMoreWord(s.data, k);
      PutTwice(rest, r, rd, more);
      longer := Extend(run, s.(readers := rest[r := more]), ReadWord(r, k));
      longer := ReadsAll(longer, rest, r, more, k + 1);
    }
  }

  lemma {:induction false} OneMoreWord<W>(data: seq<W>, k: nat)
    requires k < |data|
    ensures Words(data[..k])[k := data[k]] == Words(data[..k + 1])
  {
  }

  /** Main theorem. From every reachable state without an open write section a read can go through without anybody else
    * moving, and it returns the last committed value whole.
    */
  lemma {:induction false} ReadCompletes<W(!new)>(run: seq<State<W>>, r: Rid) returns (longer: seq<State<W>>)
    requires IsRun(run) && r !in Last(run).readers && !Last(run).writer.Mutating? && !Last(run).writer.Closing?
    ensures IsRun(longer) && run <= longer && |Last(run).values| > 0
    ensures var s := Last(run); var n := s.increments;
            Last(longer) == s.(results := s.results + [Result(r, Words(Last(s.values)), n, n)])
  {
    RunInv(run, |run| - 1);
    var s := Last(run);
    ParityOfVersion(s.increments);
    var rd := Reader(s.version, map[], s.increments);
    var whole := rd.(out := Words(s.data));
    longer := Extend(run, s.(readers := s.readers[r := rd]), StartRead(r));
    assert rd.out == Words(s.data[..0]);
    longer := ReadsAll(longer, s.readers, r, rd, 0);
    PutTwice(s.readers, r, whole, whole);
    var done := s.(results := s.results + [Result(r, whole.out, s.increments, s.increments)]);
    longer := Extend(longer, done, FinishRead(r));
  }

  /** The writer copies the words of `value` from the k-th on. */
  lemma {:induction false} WritesAll<W(!new)>(run: seq<State<W>>, value: seq<W>, k: nat) returns (longer: seq<State<W>>)
    requires IsRun(run) && Last(run).writer.Mutating? && k <= |value| == |Last(run).data|
    requires Last(run).data[..k] == value[..k]
    ensures IsRun(longer) && run <= longer && Last(longer) == Last(run).(data := value)
    decreases |value| - k
  {
    var s := Last(run);
    if k == |value| {
      assert s.data == s.data[..k] == value[..k] == value;
      longer := run;
    } else {
      var data := s.data[k := value[k]];
      assert data[..k + 1] == value[..k + 1];
      longer := Extend(run, s.(data := data), WriteWord(k, value[k]));
      longer := WritesAll(longer, value, k + 1);
    }
  }

  /** Main theorem. From every reachable state between writes, `write(value)` can go through without anybody else
    * moving: it commits `value` and closes its section.
    */
  lemma {:induction false} WriteCompletes<W(!new)>(run: seq<State<W>>, value: seq<W>) returns (longer: seq<State<W>>)
    requires IsRun(run) && Last(run).writer.Quiet? && |value| == |Last(run).data|
    ensures IsRun(longer) && run <= longer
    ensures var s := Last(run);
            Last(longer) == s.(version := (s.increments + 2) % VERSIONS, increments := s.increments + 2,
                               data := value, values := s.values + [value])
  {
    RunInv(run, |run| - 1);
    var s, goal := Last(run), Whole(value);
    var n := s.increments;
    VersionStep(n);
    VersionStep(n + 1);
    longer := Extend(run, s.(writer := Opening(goal, s.version)), LoadOpen(goal));
    var open := s.(version := (n + 1) % VERSIONS, writer := Mutating(goal), increments := n + 1);
    longer := Extend(longer, open, StoreOpen);
    longer := WritesAll(longer, value, 0);
    longer := Extend(longer, open.(data := value, writer := Closing(goal, open.version)), LoadClose);
    var done := s.(version := (n + 2) % VERSIONS, increments := n + 2, data := value, values := s.values + [value]);
    longer := Extend(longer, done, StoreClose);
  }

  // ------------------------------------------------------------ the bound is tight

  /** A state between writes of the value [1, 1] over the initial [0, 0], with reader 0 stuck after word 0. */
  ghost predicate Between(s: State<int>, writes: nat)
  {
    && s.version == (2 * writes) % VERSIONS && s.increments == 2 * writes && s.writer == Quiet && |s.data| == 2
    && (writes > 0 ==> s.data == [1, 1])
    && s.readers == map[0 := Reader(0, map[0 := 0], 0)] && s.results == []
    && (forall v :: v in s.values ==> v == [0, 0] || v == [1, 1])
  }

  lemma {:induction false} WriteOnes(run: seq<State<int>>, writes: nat) returns (longer: seq<State<int>>)
    requires IsRun(run) && Between(Last(run), writes)
    ensures IsRun(longer) && Between(Last(longer), writes + 1)
  {
    var s := Last(run);
    var s1 := s.(writer := Opening(Update, s.version));
    longer := Extend(run, s1, LoadOpen(Update));
    var s2 := s1.(version := (s.version + 1) % VERSIONS, writer := Mutating(Update), increments := s.increments + 1);
    longer := Extend(longer, s2, StoreOpen);
    var s3 := s2.(data := s2.data[0 := 1]);
    longer := Extend(longer, s3, WriteWord(0, 1));
    var s4 := s3.(data := s3.data[1 := 1]);
    longer := Extend(longer, s4, WriteWord(1, 1));
    longer := CommitOnes(longer, writes);
  }

  lemma {:induction false} CommitOnes(run: seq<State<int>>, writes: nat) returns (longer: seq<State<int>>)
    requires IsRun(run)
    requires var s := Last(run);
             && s.version == ((2 * writes) % VERSIONS + 1) % VERSIONS && s.increments == 2 * writes + 1
             && s.writer == Mutating(Update) && s.data == [1, 1]
             && s.readers == map[0 := Reader(0, map[0 := 0], 0)] && s.results == []
             && (forall v :: v in s.values ==> v == [0, 0] || v == [1, 1])
    ensures IsRun(longer) && Between(Last(longer), writes + 1)
  {
    VersionStep(2 * writes);
    VersionStep(2 * writes + 1);
    var s := Last(run);
    var s1 := s.(writer := Closing(Update, s.version));
    longer := Extend(run, s1, LoadClose);
    var s2 := s1.(version := (s.version + 1) % VERSIONS, writer := Quiet,
                  increments := s.increments + 1, values := s.values + [s.data]);
    longer := Extend(longer, s2, StoreClose);
  }

  lemma {:induction false} ManyWrites(writes: nat) returns (run: seq<State<int>>)
    ensures IsRun(run) && Between(Last(run), writes)
  {
    if writes == 0 {
      var s := State(0, [0, 0], Quiet, map[], 0, [[0, 0]], []);
      run := [s];
      var s1 := s.(readers := map[0 := Reader(0, map[], 0)]);
      run := Extend(run, s1, StartRead(0));
      var s2 := s1.(readers := map[0 := Reader(0, map[0 := 0], 0)]);
      run := Extend(run, s2, ReadWord(0, 0));
    } else {
      run := ManyWrites(writes - 1);
      run := WriteOnes(run, writes - 1);
    }
  }

  /** After exactly 2^63 writes between the two version loads the counter is back where it was, and a read
    * returns the mixture [0, 1] that no write ever stored.
    */
  lemma {:induction false} TornAfterWrap(writes: nat) returns (run: seq<State<int>>)
    requires 2 * writes == VERSIONS
    ensures IsRun(run) && |Last(run).results| == 1
    ensures Last(run).results[0].out == map[0 := 0, 1 := 1]
    ensures forall v :: v in Last(run).values ==> !Agrees(Last(run).results[0].out, v)
    ensures Last(run).results[0].until - Last(run).results[0].since == VERSIONS
  {
    run := ManyWrites(writes);
    var s := Last(run);
    var s1 := s.(readers := map[0 := Reader(0, map[0 := 0, 1 := 1], 0)]);
    assert s.readers[0].out[1 := s.data[1]] == map[0 := 0, 1 := 1];
    run := Extend(run, s1, ReadWord(0, 1));
    var s2 := s1.(readers := s1.readers - {0}, results := [Result(0, map[0 := 0, 1 := 1], 0, s.increments)]);
    assert s.version == 0;
    run := Extend(run, s2, FinishRead(0));
    forall v | v in s2.values
      ensures !Agrees(s2.results[0].out, v)
    {
      assert 0 in s2.results[0].out && 1 in s2.results[0].out;
    }
  }
}
