# Verified models of the channels, locks, leader window, pools and codecs

This project models the parts of the repository whose correctness rests on more than one function: the lock-free
channels, the sequence lock, the leader window that a tracker thread shifts under it, the QUIC connection pool, the
HTTP front end with its response routing, and the codecs. `dafny verify dfyconfig.toml` checks everything.

**How the code is modelled.** Code that runs on several threads is a step system: one atomic operation or one plain
memory access per step, all interleavings allowed, and the theorems range over every state of every run. Code that
updates fields or buffers in place is a class or a method with loops, proved against a function of its inputs or of the
old state; the theorems are then about that function. A run is a sequence of states with a step between neighbours, or
the state after an arbitrary sequence of inputs. Fields described as histories are read by no step.

**Files.** `Common` (shared types), `Bits` (machine words as numbers), `RingBuffer`, `MpscBitmap` (the availability
bitmap), `Mpsc` (the multi-producer channel), `MpscScan` (batch receives against concurrent producers), `MpscCalls`
(what its calls come to), `MpscWitness` (runs that mark the edges of its guarantees), `Spsc`, `SpscCalls`, `SeqLock`,
`Leader` (the window and its tracker), `LeaderSnapshots` (the window read under the lock), `Pool` (QUIC connections),
`Routing` (the server's event loop), `Http` (message completeness), `HttpMessages` (framing), `HttpBuild`, `HttpParse`,
`HttpBody` (what a reader finds in a request body), `HttpAgree` (completeness check against parser), `Unicode` (what is
UTF-8 and white space), `Float` (rounding to f64), `Histogram`, `Base58`, `Base64`, `Text`.

**Safety and the other side of it.** For each protocol one group of theorems says that nothing wrong is ever seen: order,
wholeness, no loss. Another group says that nothing is withheld: each test comes out exactly as the abstract state says,
each call returns only for the reasons the source gives, and from every reachable state a call that may go through has a
run in which it does, with the outcome stated.

**What holds only under a condition.** These are properties the code meets exactly when the stated condition holds; each
has a lemma that says "if and only if" or a pair of lemmas, one for each side.

- The MPSC round-parity test is right in every reachable state exactly for capacities of at least 64
  (`MpscWitness.ParityExact`). The constructor accepts smaller powers of two.
- An explicit `close()` while a `send` is blocked can lose an event whose own `send` returned Ok
  (`MpscWitness.CloseLosesEvent`): the comment in `send` calls the leaked sequence acceptable, but the consumer can never
  pass it. Nothing is lost exactly when no sequence was abandoned below a published one (`Mpsc.EndOfStreamExact`).
- A sequence-lock read is whole if fewer than 2^63 writes happen during it; at exactly 2^63 it can be torn
  (`SeqLock.NeverTorn`, `SeqLock.TornAfterWrap`).
- The shifted leader window equals a rebuild exactly when the buffer was populated for the window in which the loop
  started, or ten windows have passed (`Leader.IncrementalEqualsRebuild`). `start` populates the buffer for one slot
  and the loop thread reads the slot again.
- The pool's scan agrees with its prober exactly when no earlier slot holds another address with the same packing. This
  is always so for IPv4. The comment promises 112 bits of an IPv6 address and 16 bits of port; the code packs all 128
  bits and XORs the port in (`Pool.PackV6Collides`), so after one call the scan can answer with another address's slot
  (`Pool.ScanConfusesV6`).
- `remove` keeps the pool's probe paths exactly when no other address was reached past the vacated slot
  (`Pool.RemoveKeepsExactly`); otherwise the next call for such an address claims a second slot
  (`Pool.RemoveDuplicates`). Four calls get there for any two IPv4 addresses that differ only in ports equal modulo 128
  (`Pool.RemovalRun`). The theorems about whole runs of the pool allow removals that meet the condition.
- The server decides that a request is complete by the first length line its byte scanner sees and cuts the body by the
  last length header its parser sees. A complete request parses to a body of the announced length exactly when its header
  lines are well-formed and these two say the same (`HttpAgree.CompleteParsesExactly`). With one length header they do
  exactly when the name starts the line, the colon follows it directly and only blanks come before the digits, or the
  length is 0 (`HttpAgree.OneLengthExactly`); a plus sign, a tab or a blank before the colon makes a request complete
  before its body is there, and it is refused (`HttpAgree.MisreadSpellings`, `HttpAgree.MisreadIsRefused`). With two
  different lengths it is refused or cut short (`HttpAgree.TwoLengthsDisagree`).
- The histogram reports 0 for bucket 0, although the least value in it is 1 (`Histogram.RankAccuracy`). The rank of a
  percentile, computed in f64, is that of a sample exactly when the count does not overshoot, for every count below 2^53
  (`Histogram.RankInRangeExactly`). The first count that does is 5764607523034242 (`Histogram.FirstOvershoot`), and then
  the 100th percentile is reported as 0 (`Histogram.OvershootReportsZero`). What that rank is, apart from the code that
  computes it, is `Histogram.IsRank` (`Histogram.TargetIsRank`).
- The base64 decoder takes padding in the middle of the text and drops an incomplete last group
  (`Base64.AcceptedExactly`); encoding its result gives the text back exactly for canonical texts
  (`Base64.ReencodesExactly`).

## Model

| member | source | states |
|---|---|---|
| RingBuffer.IndexIsRemainder | channel/src/ringbuffer.rs:195-197 | masking a sequence with capacity - 1 is the remainder, for every power of two and every sequence |
| RingBuffer.SlotsDistinct | channel/src/ringbuffer.rs:195-197 | two sequences less than a lap apart never share a slot |
| RingBuffer.RingBuffer.constructor | channel/src/ringbuffer.rs:104-165 | every slot starts with the factory's value; only powers of two are accepted |
| RingBuffer.RingBuffer.Write | channel/src/ringbuffer.rs:275-278 | exactly the slot of the sequence changes |
| RingBuffer.RingBuffer.Read | channel/src/ringbuffer.rs:365-367 | returns the event in the slot of the sequence |
| Bits.PowerOfTwoTest | channel/src/ringbuffer.rs:41-43 | n & (n - 1) == 0 with n nonzero holds exactly for the powers of two |
| MpscBitmap.CreateAvailability | channel/src/mpsc/mod.rs:145-154 | allocates one all-ones word for every 64 slots |
| MpscBitmap.InitialWindow | channel/src/mpsc/mod.rs:145-154 | in a fresh bitmap no sequence of the first lap tests as published |
| MpscBitmap.PositionIsSlot | channel/src/mpsc/shared.rs:59-67 | word and bit are the slot number in base 64 |
| MpscBitmap.MarkFlipsSlot | channel/src/mpsc/shared.rs:72-94 | marking a sequence flips the published test of the sequences in its slot and of no other |
| MpscBitmap.PublishKeepsWindow | channel/src/mpsc/shared.rs:84-94 | marking an unpublished sequence of the window makes the bitmap represent the published set plus that sequence |
| MpscBitmap.AdvanceKeepsWindow | channel/src/mpsc/shared.rs:72-80 | consuming a published sequence needs no reset: its bit already says "unpublished" for the sequence one lap later |
| MpscBitmap.MarkPublishedBatch | channel/src/mpsc/shared.rs:107-138 | the batched XOR leaves the same bitmap as marking each sequence singly, for every start and every count up to the capacity, wrap-around included |
| MpscBitmap.FirstMismatchIsFirst | channel/src/mpsc/shared.rs:177-191 | XOR with the expected pattern, mask and trailing zeros find the first bit that differs from the round's parity |
| MpscBitmap.HighestPublished | channel/src/mpsc/shared.rs:157-201 | the word-level scan returns the end of the longest contiguous published run, also for a full ring, a scan that wraps into its first word, and claims past the capacity |
| Mpsc.StepInv | channel/src/mpsc/producer.rs:31-255 | every atomic step of every producer, of the handles and of the consumer keeps the channel's invariant |
| Mpsc.FlushMarksRun | channel/src/mpsc/shared.rs:107-138 | one fetch_xor of a run inside a word, taken as one step, marks exactly that run |
| Mpsc.RunInv | channel/src/mpsc/consumer.rs:30-78 | the invariant holds in every state of every run |
| Mpsc.EventsArriveInOrder | channel/src/mpsc/consumer.rs:30-78 | sequences 0, 1, 2, ... are taken with none skipped or repeated, each carrying what its claimant sent or wrote, and each claimed sequence is published, abandoned or owned by exactly one thread |
| Mpsc.ParityTestIsRight | channel/src/mpsc/shared.rs:72-80 | in every reachable state, for the whole window, the parity test answers true exactly for the published sequences, after any number of laps |
| Mpsc.ScanReadsOnlyPublished | channel/src/mpsc/consumer.rs:126-201 | a batch receive copies only published sequences although producers publish between its word loads |
| MpscScan.ScanReturnsWholeRun | channel/src/mpsc/shared.rs:157-201 | whatever producers publish between its word loads, a batch receive takes at least the whole run of events that was published when it loaded the claim cursor, up to its limit |
| Mpsc.PublishedSlotsAreStable | channel/src/mpsc/producer.rs:36-63 | no step overwrites a published slot before it is consumed |
| Mpsc.RunGrows | channel/src/mpsc/consumer.rs:30-60 | what was received, published or abandoned stays so |
| Mpsc.CleanEndLosesNothing | channel/src/mpsc/consumer.rs:44-51 | after RecvError on a channel closed by dropping the producers, now and ever after every published event has been received; MpscCalls.CleanEndReached says that this end is always reached |
| MpscCalls.LastDropIsSeen | channel/src/mpsc/producer.rs:247-255 | in every state of every run the handle count is the number of handles, the close of the last drop is due exactly when no handle is left, and without a call of close() the channel is closed only then |
| MpscCalls.CleanEndReached | channel/src/mpsc/consumer.rs:44-51 | from every reachable state without handles, nobody having called close() and the next sequence unpublished, recv comes to report the clean end; no close() call is needed |
| MpscCalls.RecvDelivers | channel/src/mpsc/consumer.rs:30-78 | from every reachable state in which the next sequence is published, recv and try_recv can go through with no other thread moving, and return what was sent or written for that sequence |
| MpscCalls.TryRecvFindsNothing | channel/src/mpsc/consumer.rs:63-71 | where it is not, try_recv comes back with nothing and nothing has changed |
| MpscCalls.RecvReturnsBecause | channel/src/mpsc/consumer.rs:30-201 | a receive returns all it read, or comes back without events only: not waiting, after a test that found nothing; on a closed channel whose next sequence is unpublished; or from a scan that had limit 0 or found the next sequence unpublished |
| MpscCalls.TestsExactly | channel/src/mpsc/consumer.rs:30-201 | a bit test succeeds exactly on a published sequence, a scan begins whenever the next sequence is published, and a waiting receive tests a second time exactly when it sees the channel closed |
| MpscCalls.SendCompletes | channel/src/mpsc/producer.rs:31-63 | from every reachable state with a handle, an open channel and room, a blocking send can go through on its own: one more sequence is claimed and published with the event, and nothing else changed |
| MpscCalls.TrySendCompletes | channel/src/mpsc/producer.rs:71-124 | so can try_send |
| MpscCalls.BatchCompletes | channel/src/mpsc/producer.rs:154-230 | so can a batch of any length there is room for, waiting or not, and all its values are published in order |
| MpscCalls.TrySendFindsFull | channel/src/mpsc/producer.rs:95-124 | without room for its sequences a call that does not wait comes back, and nothing has changed |
| MpscCalls.SendReturnsBecause | channel/src/mpsc/producer.rs:31-124 | a producer call returns only with all it claimed published, on a closed channel, on a channel without room for it, or after the eighth lost CAS |
| MpscCalls.BeginsUnlessClosed | channel/src/mpsc/producer.rs:31-34 | a call is refused at once exactly when the channel is closed |
| Mpsc.AbandonedBlocksForever | channel/src/mpsc/producer.rs:44-49 | the consumer never passes a sequence that a blocked send gave up |
| Mpsc.EndOfStreamExact | channel/src/mpsc/producer.rs:44-49 | at rest, all published events were received if and only if no sequence was abandoned below a published one |
| MpscWitness.SmallCapacityMisreads | channel/src/mpsc/shared.rs:72-80 | for every capacity below 64 a run of one send and one receive makes an unclaimed sequence test as published |
| MpscWitness.ParityExact | channel/src/mpsc/shared.rs:72-80 | the parity test is right in every reachable state if and only if the capacity is at least 64 |
| MpscWitness.CloseLosesEvent | channel/src/mpsc/producer.rs:44-49 | a run in which a send succeeds after another gave up its sequence, and no continuation ever receives the event |
| Spsc.RunInv | channel/src/spsc/producer.rs:65-147 | the invariant holds in every state of every interleaving, and the capacity never changes |
| Spsc.WriteKeepsUnread | channel/src/spsc/producer.rs:403-425 | a write into space confirmed by a stale cached cursor touches no unread slot |
| Spsc.ReceivedIsPrefix | channel/src/spsc/consumer.rs:71-160 | what was received is a prefix of what was published, and at most the capacity is outstanding |
| Spsc.RefinesBoundedQueue | channel/src/spsc/consumer.rs:342-455 | every step is an enqueue within the capacity, a dequeue of at least one event from the front, or invisible to the queue; SpscCalls says which calls make which step |
| Spsc.FreeSlotsIsRoom | channel/src/ringbuffer.rs:380-387 | in every reachable state the free slots between the two cursors are the places left in the bounded queue: a claim that looks now is granted exactly when it is no larger, so a send fails only on a full queue; the subtraction never underflows and `available_slots` agrees |
| Spsc.UnreadSlotsAreStable | channel/src/spsc/producer.rs:292-355 | no step of any run overwrites an unread slot |
| Spsc.CleanEndLosesNothing | channel/src/spsc/consumer.rs:98-105 | after RecvError following the producer's drop every published event has been received, for good |
| SpscCalls.LoadExact | channel/src/spsc/consumer.rs:71-130 | in every reachable state a look at the producer cursor finds nothing exactly when the queue is empty, and otherwise copies as much of it as was asked for; the second look after `closed` goes back exactly when the queue is not empty |
| SpscCalls.RoomExact | channel/src/spsc/producer.rs:397-425 | in every reachable state a look at the consumer cursor lets the producer write exactly when the queue has room for it, otherwise it waits exactly if it may; room seen in the cached cursor is there |
| SpscCalls.SendReturnsBecause | channel/src/spsc/producer.rs:65-355 | a producer call is refused at once exactly on a closed channel, and comes back only with its events published, on a closed channel, or, not waiting, on a queue without room |
| SpscCalls.RetryExact | channel/src/spsc/producer.rs:403-425 | a waiting producer gives up exactly when it sees the channel closed |
| SpscCalls.RecvReturnsBecause | channel/src/spsc/consumer.rs:71-455 | a receive comes back only with the front of the queue, without waiting, or on a closed channel with an empty queue |
| SpscCalls.SendCompletes | channel/src/spsc/producer.rs:65-355 | from every reachable state with an open channel and room, send, try_send, claim and the batch claims can go through without the consumer moving, and append exactly their events to the queue |
| SpscCalls.TrySendFindsFull | channel/src/spsc/producer.rs:118-147 | without room a call that does not wait comes back, and the queue is as it was |
| SpscCalls.RecvDelivers | channel/src/spsc/consumer.rs:71-455 | from every reachable state with something in the queue a receive can go through without the producer moving, and takes the front of the queue, up to its limit |
| SpscCalls.TryRecvFindsNothing | channel/src/spsc/consumer.rs:135-160 | on an empty queue a receive that does not wait comes back, and nothing has changed |
| SpscCalls.CleanEndReached | channel/src/spsc/consumer.rs:98-105 | from every reachable state without a producer the consumer comes, on its own, to the clean end, and then it has received every event ever published |
| SeqLock.RunInv | sync/src/seqlock.rs:116-187 | the invariant holds in every state of every run with one writer and any number of readers |
| SeqLock.CommitsWholeValues | sync/src/seqlock.rs:175-187 | a write commits exactly its value, and nothing else commits |
| SeqLock.NeverTorn | sync/src/seqlock.rs:116-133 | a successful read returns words of the one value current at both version loads, and the whole value if it read every word |
| SeqLock.AcceptedIsCurrent | sync/src/seqlock.rs:116-133 | a read accepted within 2^64 increments saw none, and its words are those of the value committed last |
| SeqLock.NeverGoesBack | sync/src/seqlock.rs:116-133 | successive results of a reader never go back in write order |
| SeqLock.AcceptedExactly | sync/src/seqlock.rs:116-133 | the second version load accepts a read if and only if the version moved by a multiple of 2^64; SeqLock.StartsExactly says the same of the first |
| SeqLock.StartsExactly | sync/src/seqlock.rs:116-121 | in every reachable state a read starts if and only if no write section is open |
| SeqLock.UndisturbedSucceeds | sync/src/seqlock.rs:116-133 | in every reachable state a read that saw no increment since it started succeeds, and if it copied every word returns the last committed value whole |
| SeqLock.ReadCompletes | sync/src/seqlock.rs:116-160 | from every reachable state without an open write section a read can go through on its own and returns the last committed value whole |
| SeqLock.WriteCompletes | sync/src/seqlock.rs:175-187 | from every reachable state between writes, write can go through on its own: it commits its value and closes its section |
| SeqLock.TornAfterWrap | sync/src/seqlock.rs:56-59 | after exactly 2^63 writes a read returns a mixture no write ever stored |
| Leader.GetNextLeadersInto | leader/src/schedule_fetcher.rs:183-216 | each entry of the caller's slice gets the leader of its aligned window if that lies in the epoch and is left alone otherwise, and the in-epoch windows are counted |
| Leader.LeaderBuffer.Update | leader/src/leader_buffer.rs:176-201 | the buffer becomes the given leaders, padded with empty entries and stamped with their slots |
| Leader.LeaderBuffer.CopyWithin | leader/src/leader_buffer.rs:258-260 | the in-place move keeps the order of the surviving entries |
| Leader.LeaderBuffer.ShiftAndAppend | leader/src/leader_buffer.rs:207-227 | is the shift by one |
| Leader.LeaderBuffer.ShiftMultiple | leader/src/leader_buffer.rs:233-281 | old entries move up with their slots, new ones follow with theirs; a shift of ten or more replaces, a shift of none changes nothing |
| Leader.Tracker.constructor | leader/src/tracker.rs:95-200 | the buffer is populated for the slot seen by start, the loop begins at the slot it reads itself |
| Leader.Tracker.Turn | leader/src/tracker.rs:203-238 | one turn is the abstract turn on the loaded slot |
| Leader.Tracker.FifoShiftBuffer | leader/src/tracker.rs:242-261 | fetches the leaders just past the surviving entries |
| Leader.Tracker.UpdateBufferFromSchedule | leader/src/tracker.rs:269-281 | rebuilds the buffer for the slot |
| Leader.Tracker.BusySpinLoop | leader/src/tracker.rs:182-239 | the loop is the fold of its turns |
| Leader.RebuildIsWindow | leader/src/tracker.rs:269-281 | a rebuild holds ten consecutive scheduled windows, empty but stamped past the epoch's end |
| Leader.LoopMixed | leader/src/tracker.rs:203-261 | the exact contents of the buffer after any non-decreasing slots, whatever window it was populated for |
| Leader.IncrementalEqualsRebuild | leader/src/tracker.rs:203-281 | after any mix of shifts, same-leader turns and replacements the buffer equals a rebuild if and only if it was populated for the loop's first window or ten windows have passed |
| LeaderSnapshots.RunInv | leader/src/leader_buffer.rs:69-79 | with the tracker writing field by field under the lock, every committed value is a state of the window |
| LeaderSnapshots.EntryIsWhole | leader/src/leader_buffer.rs:85-145 | an entry whose four fields were copied from one value is that entry, with no field of another |
| LeaderSnapshots.SnapshotIsCurrent | leader/src/leader_buffer.rs:85-145 | a read that succeeds shows the window as the tracker has it at that moment and had it all through the read |
| LeaderSnapshots.SnapshotIsOneWindowState | leader/src/leader_buffer.rs:85-145 | a recorded read, of one entry or of all, holds fields of the single window state that was committed when it began |
| LeaderSnapshots.SnapshotsNeverGoBack | leader/src/leader_buffer.rs:85-145 | from one snapshot of a reader to its next no entry's start slot decreases |
| LeaderSnapshots.SnapshotIsContiguous | leader/src/leader_buffer.rs:128-145 | a snapshot holds aligned windows four slots apart, each with the schedule's leader, never a half-shifted buffer |
| LeaderSnapshots.ContiguousExactly | leader/src/leader_buffer.rs:233-281 | the window is contiguous if and only if it was populated for the loop's first window, has not moved, or has moved by ten |
| LeaderSnapshots.StartCompletes | leader/src/tracker.rs:57-116 | for every slot seen by start and every later slot seen by the loop there is a run to the loop, with ten scheduled windows in the buffer |
| LeaderSnapshots.TurnCompletes | leader/src/tracker.rs:203-238 | from every reachable state between turns and for every next slot the turn can go through without a reader moving; the buffer then holds the tracker's window, and the version moved exactly when the leader window did |
| Pool.PackV4Injective | quic/src/pool.rs:19-27 | different IPv4 addresses pack to different numbers |
| Pool.PackV6Collides | quic/src/pool.rs:28-37 | exchanging the port and the last segment of any IPv6 address does not change its packing |
| Pool.ConnectionPool.constructor | quic/src/pool.rs:285-305 | all 128 slots start vacant |
| Pool.ConnectionPool.Find | quic/src/pool.rs:448-463 | returns the first occupied slot with the packed address, None exactly when there is none |
| Pool.ConnectionPool.FindInChunks | quic/src/pool.rs:415-444 | the four-at-a-time search meets the same contract |
| Pool.ConnectionPool.FindOrAllocate | quic/src/pool.rs:467-519 | finds the address, claims the first vacant slot of its probe, or evicts, and changes nothing else |
| Pool.ConnectionPool.EvictAndAllocate | quic/src/pool.rs:522-560 | replaces the victim's slot and no other |
| Pool.ConnectionPool.FindVictim | quic/src/pool.rs:523-543 | the victim is the first dead or failed slot, otherwise the first of the least recently active |
| Pool.ConnectionPool.Remove | quic/src/pool.rs:588-599 | vacates the slot |
| Pool.AllocateDeterministic | quic/src/pool.rs:467-560 | a call has exactly one outcome |
| Pool.EvictsBrokenFirst | quic/src/pool.rs:523-543 | in a full pool eviction takes the first dead or failed connection if there is one, otherwise one that nobody has been inactive for longer than |
| Pool.ClaimedIsNewest | quic/src/pool.rs:467-560 | a slot just claimed is connecting, with no retries, a new version and the time of the call; it is the next victim exactly when it is the first slot and all others are as recent and none is broken |
| Pool.AllocateInv | quic/src/pool.rs:467-560 | claiming and evicting keep addresses distinct and every probe path occupied, and leave the address at the returned index |
| Pool.StepInv | quic/src/pool.rs:467-599 | calls, slot updates and removals that meet the condition keep the invariant |
| Pool.ProberAndScanAgree | quic/src/pool.rs:448-519 | in every run, evictions and safe removals included, an address has at most one slot, the prober returns it without changes, and the scan returns it if and only if no earlier slot packs alike |
| Pool.ScanIsExactOnV4 | quic/src/pool.rs:448-463 | on IPv4 the scan finds an address if and only if it is held, at the one slot that holds it, after any number of evictions and safe removals |
| Pool.ScanFindsAllocated | quic/src/pool.rs:448-560 | right after a call returned an index the scan returns the same index |
| Pool.ScanConfusesV6 | quic/src/pool.rs:28-37 | for every IPv6 address whose port and last segment differ, one call leads to a table where the scan finds the exchanged address although no slot holds it |
| Pool.RemoveKeepsExactly | quic/src/pool.rs:588-599 | remove keeps the invariant if and only if no other address was reached past the vacated slot |
| Pool.RemoveDuplicates | quic/src/pool.rs:588-599 | otherwise the next call for an address behind the hole gives it a second slot |
| Pool.SameBucket | quic/src/pool.rs:342-365 | ports that agree modulo 128 put an IPv4 address into the same slot |
| Pool.RemovalRun | quic/src/pool.rs:467-599 | for every two such addresses: allocate both, remove the first, allocate the second again, and it is in two slots |
| Routing.ConnectionPool.AllocEmpty | server/src/server.rs:259-267 | hands out the slot freed last, or a new one |
| Routing.ConnectionPool.CreateConnection | server/src/server.rs:235-255 | uses recycled buffers when there are some |
| Routing.ConnectionPool.Remove | server/src/server.rs:290-308 | vacates the slot, lists it as free and keeps at most 64 emptied buffer pairs |
| Routing.EventLoop.Process | server/src/server.rs:372-560 | one accept, socket event or response, as dispatched, is one step of the model and keeps its invariant |
| Routing.EventLoop.HandleReadable | server/src/server.rs:418-462 | what a readable event does to the connection, the next id and the record of who submitted it |
| Routing.EventLoop.TryWrite | server/src/server.rs:131-147 | what remains to be sent, and whether the connection closes, resets or waits |
| Routing.EventLoop.HandleResponse | server/src/server.rs:512-560 | a response reaches a connection only if its id is the pending one |
| Routing.EventLoop.WorkerSend | server/src/queue.rs:93-102 | the response carries the request's own id and token |
| Routing.StepInv | server/src/server.rs:372-560 | every input keeps the invariant over slots, ids, connections and their sessions |
| Routing.AfterInv | server/src/server.rs:372-560 | the invariant holds after every sequence of inputs |
| Routing.RepliesReachTheirRequest | server/src/server.rs:512-560 | in every run a worker response is queued only to the connection that submitted the request, as the answer to exactly that request, even when slots are reused |
| Routing.AnsweredAtMostOnce | server/src/queue.rs:11-13 | no request is answered twice, on its own connection or another, however often the worker responds |
| Routing.WireIsTheReplies | server/src/server.rs:131-147 | the bytes on every socket are its replies in request order, unmixed, all but the last whole and the last possibly cut short, also after the connection is gone |
| Routing.OneOutstandingRequest | server/src/server.rs:411-462 | a connection waits exactly while its last request is unanswered, and reads the next only after every reply is fully written |
| Routing.SlotsAreNotShared | server/src/server.rs:259-308 | live connections hold distinct slots, and the free list holds exactly the vacant slots, each once |
| Routing.AcceptStartsClean | server/src/server.rs:235-267 | a new connection starts with empty buffers, in a vacant slot, and disturbs no other |
| Routing.DeliveredExactly | server/src/server.rs:512-545 | if the connection that submitted the request still waits, the next response becomes its next reply; otherwise the response is dropped and nothing else changes |
| Routing.RequestExactly | server/src/server.rs:416-457 | what each readable event does to a connection that waits for a request: removed with its peer, bytes gathered, answered at once, or waiting under a new id |
| Routing.ClosesExactly | server/src/server.rs:465-480 | in every run a connection with bytes to send is kept until they are sent; then it is closed if and only if its last reply answers a request that asked for it, and otherwise starts afresh; error replies never close |
| Routing.DeliveryClosesExactly | server/src/server.rs:512-560 | a response that goes out at once closes its connection if and only if its request asked for it |
| Routing.RunGrows | server/src/server.rs:372-560 | nothing recorded about requests, replies and bytes sent is ever taken back |
| Http.FindHeadersEnd | server/src/http.rs:264-271 | finds the first blank line |
| Http.FindContentLength | server/src/http.rs:276-308 | the value of the first line-start Content-Length header in any case, digits read in wrapping arithmetic |
| Http.CheckBodyComplete | server/src/http.rs:115-127 | complete exactly when the announced number of bytes follows the blank line, or none is announced |
| Http.Connection.Extend | server/src/server.rs:101-127 | appending bytes never invalidates the cached header end or the scanned prefix |
| Http.Connection.IsRequestComplete | server/src/server.rs:150-174 | the incremental scan answers like a scan from scratch and caches the first blank line |
| Http.Connection.ClearRecvBuf | server/src/server.rs:178-182 | the next request starts from an empty buffer and no cache |
| Http.Connection.Feed | server/src/server.rs:150-174 | for every way of cutting the input into pieces, every check answers like a scan from scratch |
| HttpMessages.Framing | server/src/http.rs:218-271 | a message with a truthful length line is complete, no proper prefix is, and the body is what follows the blank line |
| HttpBuild.Build | server/src/http.rs:218-260 | the bytes appended are the status line, the header lines, a blank line and the body |
| HttpBuild.ResponseFraming | client/src/response.rs:10-76 | the client takes the whole built response for complete, no proper prefix of it, and finds exactly the body, even one with blank lines or repeated length headers |
| HttpBuild.GetHttpStatus | client/src/response.rs:103-122 | three digits after the first space of the first twelve bytes, 0 otherwise |
| HttpBuild.StatusRecovered | client/src/response.rs:103-122 | the client reads back every three-digit status the server set |
| HttpBuild.BuildRequest | client/src/request.rs:20-87 | the request is its lines, a blank line and the JSON-RPC body with the transaction in base64; HttpBody.MembersArrive says what a reader finds in that body |
| HttpBuild.RequestFraming | server/src/http.rs:115-136 | the server takes the whole built request for complete and no proper prefix of it |
| HttpParse.Parse | server/src/http.rs:32-101 | every outcome of the parser, errors included |
| HttpParse.LinesOfHead | server/src/http.rs:44-58 | header text splits back into the lines it was made of |
| HttpParse.ResponseHeadersRead | server/src/http.rs:218-260 | read line by line, the head of a built response gives the body length, the date, the custom headers in order and whether the connection stays open |
| Unicode.Utf8Exactly | server/src/http.rs:42-43 | the head is taken if and only if it is the encoding of some Unicode text: no overlong form, no surrogate, nothing above U+10FFFF |
| Unicode.WhiteExactly | server/src/http.rs:59-75 | trimming takes a character away at either end if and only if it is Unicode white space |
| HttpParse.RequestRoundTrip | server/src/http.rs:32-101 | the server's parser gives back method, path, headers and body of every request the client builds, byte for byte |
| HttpParse.TransactionArrives | client/src/request.rs:34-57 | in the body the server parses out of a built request, the text between the fixed parts decodes to exactly the transaction's bytes |
| HttpBody.MembersArrive | client/src/request.rs:34-57 | in the body the server parses out of a built request, what follows the first occurrence of each quoted member name is what the client put in: protocol version, request id, method, transaction, fanout and target slot, for every value of each |
| HttpAgree.ScanIsByLine | server/src/http.rs:276-308 | for every header text the byte scan finds what a reading line by line finds: the first line that starts with the header name and colon, blanks skipped, its digits in wrapping arithmetic, whatever the line ends are |
| HttpAgree.ParserKeepsLast | server/src/http.rs:59-75 | the parser takes header lines if and only if it takes each one, and keeps the number of the last length header |
| HttpAgree.ParsedKeepsAll | server/src/http.rs:46-101 | every request that parses gives the first two words of its first line, all its header lines in order, and a connection that closes exactly when the last Connection header says so |
| HttpAgree.FirstAndLast | server/src/http.rs:32-136 | for every request with a blank line: it is complete if and only if as many bytes follow as the first scanned length says, it parses only if its lines are well-formed, and then the body is as many bytes as the last length header says, or the error tells how many are missing |
| HttpAgree.CompleteParsesExactly | server/src/http.rs:32-136 | a complete request parses to a body of the announced length if and only if its lines are well-formed and the first scanned length is the last parsed one |
| HttpAgree.LineReadExactly | server/src/http.rs:276-340 | of a length header the parser reads n from, the scanner reads n if the name starts the line, the colon follows and only blanks come before the digits, and nothing or 0 otherwise |
| HttpAgree.OtherNotScanned | server/src/http.rs:276-308 | a line that is no length header to the parser is none to the scanner |
| HttpAgree.OneLengthExactly | server/src/http.rs:32-136 | in a complete, well-formed request with one length header of value n the body has the announced length if and only if the header is spelled like that or n is 0 |
| HttpAgree.MisreadIsRefused | server/src/http.rs:32-136 | with any other spelling a request is complete while its body is shorter than n, and is refused |
| HttpAgree.MisreadSpellings | server/src/http.rs:276-340 | for every length, a plus sign, a tab after the colon and a blank before it are such spellings |
| HttpAgree.TwoLengthsDisagree | server/src/http.rs:32-136 | with two different lengths a complete request is refused, or its body is cut short, according to their order |
| Histogram.BucketIsLog2 | timing/src/histogram.rs:98-106 | the bucket of a value is its binary logarithm rounded down, and every value has one |
| Histogram.Histogram.constructor | timing/src/histogram.rs:30-38 | starts empty |
| Histogram.Histogram.Record | timing/src/histogram.rs:42-60 | zero is ignored; any other value joins the samples, and the counters, sum, minimum and maximum are those of the samples |
| Histogram.Histogram.Clear | timing/src/histogram.rs:119-127 | no samples remain |
| Histogram.Histogram.CountersAddUp | timing/src/histogram.rs:42-60 | the bucket counters add up to the count |
| Histogram.Histogram.Percentiles | timing/src/histogram.rs:160-192 | each result is what is reported at the rank of its percentile; Histogram.TargetIsRank says which rank that is, Histogram.PercentileAccuracy how close the result is to the sample of that rank |
| Histogram.Histogram.Percentile | timing/src/histogram.rs:180-187 | the loop over the running totals stops at that bucket |
| Histogram.RankAccuracy | timing/src/histogram.rs:160-192 | for every rank the reported value is the lower bound of the bucket of the sample with that rank in sorted order: at most the sample, more than half of it, and 0 for a sample of 1 |
| Histogram.BeyondLastRank | timing/src/histogram.rs:178-188 | beyond the last rank 0 is reported |
| Float.RoundIsNearest | timing/src/histogram.rs:178-178 | no number that rounding leaves alone is nearer to the exact result of an f64 operation than the rounded one |
| Float.RoundTwice | timing/src/histogram.rs:178-178 | a rounded number is one that rounding leaves alone |
| Float.RoundInOrder | timing/src/histogram.rs:178-178 | rounding keeps the order |
| Float.RoundRelative | timing/src/histogram.rs:178-178 | one rounding moves a number by at most one part in 2^53 of it, or of 1 if it is smaller |
| Histogram.RanksInOrder | timing/src/histogram.rs:175-178 | for every count a higher percentile never asks for a lower rank |
| Histogram.TargetIsRank | timing/src/histogram.rs:178-178 | the rank is p hundredths of the count, rounded down and at least 1: exactly for whole p while count * p is below 2^53, and for every real p within three parts in 2^53 before rounding down, for every count below 2^53 |
| Histogram.LowestRank | timing/src/histogram.rs:178-178 | percentiles up to 0 are the first sample |
| Histogram.RankInRangeExactly | timing/src/histogram.rs:175-178 | for every count below 2^53 all percentiles up to 100 have the rank of a sample if and only if the count does not overshoot, a condition on the hundredfold count modulo 128 |
| Histogram.FirstOvershoot | timing/src/histogram.rs:175-178 | 5764607523034242 is the least count that overshoots |
| Histogram.OvershootReportsZero | timing/src/histogram.rs:175-188 | where the count overshoots the 100th percentile is reported as 0 |
| Histogram.PercentileAccuracy | timing/src/histogram.rs:175-188 | every percentile from 0 to 100 reports a value at most the sample whose rank is that percentage of the count, and more than half of it, unless the count overshoots |
| Base58.MultiplyAdd | quic/src/tls.rs:165-169 | the carry loop multiplies the number by 58 and adds the digit, and what carries out stays below 58 |
| Base58.PushDigit | quic/src/tls.rs:162-176 | after each character the bytes hold the value so far without zero bytes on top, within the buffer |
| Base58.Decode | quic/src/tls.rs:156-191 | fails exactly on characters outside the alphabet; otherwise value and number of leading zeros are those of the input, and the buffer is never overrun |
| Base58.DigitExact | quic/src/tls.rs:157-157 | the digit of every character by its range: numerals, capitals and small letters in order, without 0, I, O and l |
| Base58.BytesDetermined | quic/src/tls.rs:156-191 | value and leading zeros determine the bytes |
| Base64.Encode | quic/src/tls.rs:194-223 | the chunked loop computes the group-by-group encoding |
| Base64.Decode | server/src/request.rs:196-260 | every outcome of the decoder, error positions, padding and ignored last group included |
| Base64.GroupRoundTrip | server/src/request.rs:230-257 | the truncating shifts put one, two or three bytes together again |
| Base64.RoundTrip | server/src/request.rs:196-260 | decoding what was encoded gives back every byte sequence |
| Base64.AcceptedExactly | server/src/request.rs:217-257 | a text is taken if and only if, trimmed, it is all padding or every complete group is two digits followed by digits or padding |
| Base64.ReencodesExactly | server/src/request.rs:196-260 | encoding what was decoded gives the trimmed text back if and only if the text is canonical: complete groups, padding only at the very end, unused bits zero |

## Left out

- Weak memory: each atomic operation is one sequentially consistent step; fences, cache padding and prefetching are not modelled.
- Liveness under a scheduler: that a call can go through from a state is proved, that it does so in the end is not; backoff and wait strategies.
- Ownership: slot contents are plain values, so moves, drops of slot contents and `mem::forget` of batch handles are not modelled.
- Overflow of the i64 channel sequences, of the u64 request ids, slots and sample counts; the sequence-lock version and the histogram sum do wrap.
- Mpsc.EventsArriveInOrder: stated for capacities of at least 64; MpscWitness.ParityExact shows what fails below.
- Mpsc.CleanEndLosesNothing: covers `recv`; `try_recv` and the MPSC batch receives do not re-check after seeing the channel closed.
- Mpsc.StepInv: the reference-count test in `is_disconnected` is folded into the closed flag, because a caller holds a handle.
- Spsc.RunInv: the producer's own next sequence is taken to advance when the cursor is published, and `peek` is left out.
- Leader.IncrementalEqualsRebuild: for a fixed cached schedule and slots that do not move backwards; the background schedule refresh is not modelled.
- Leader.GetNextLeadersInto: the schedule has one entry for every slot of the epoch, as the fetcher builds it.
- LeaderSnapshots.SnapshotIsContiguous: for reads that start after the buffer was first populated; LeaderSnapshots.SnapshotIsOneWindowState likewise.
- Pool.ConnectionPool.FindOrAllocate: single-threaded, so claiming a vacant slot always succeeds; statistics, dirty and active bitmaps and the stored connections are left out.
- Routing.EventLoop.Process: what the socket delivers, whether a request is complete, and how it is parsed are inputs; registration failures and shutdown end a run.
- Routing.EventLoop.HandleReadable: the text of an error reply and of a response is any nonempty byte string.
- HttpBuild.ResponseFraming: for header names, header values, status text and date without CR or LF; RequestFraming and RequestRoundTrip likewise for the host.
- HttpBuild.BuildRequest: the client's base64 library is taken to implement section 4 of RFC 4648, like the repository's own encoder.
- Histogram.Histogram.Percentiles: percentiles are finite numbers and f64 overflow is left out; recording is single-threaded.
- Histogram.RankInRangeExactly: for counts below 2^53, the whole numbers an f64 holds exactly; above it only Histogram.RanksInOrder is stated.
- Base64.Decode: disjoint bit fields are added rather than combined with `|`.
- JSON parsing, request validation, base58 and array forms of keypair files around the decoder, TLS and QUIC handshakes, sockets, io_uring, RPC and websocket clients, CPU affinity and time stamps: foreign calls or easy members.
- The endpoint's queues and retries, the transaction queue and the session token cache: they depend on results of a library the model cannot see.
- `unroll!` macros, configuration builders, error types, examples and benchmarks.
