# UBASS streaming, modelled and proved in Dafny

UBASS streams a byte buffer, typically audio, over UDP. The sender cuts the
buffer into chunks of 1368 bytes and sends at most 28 of them per 25 ms tick as
one batch; every batch is followed by one XOR parity packet. The receiver keeps
a bitmap of chunks, an interval list of the missing ones and a playback head,
rebuilds what it can from parity, and asks for the rest with retransmit
requests. Packets may be lost, duplicated and reordered, and sender and receiver
are both made of concurrent tasks that share state behind locks.

This project models that machinery and proves what it is for: whatever the
network and the schedule do, the receiver never holds a wrong byte in a chunk it
counts as filled, Done is declared when and only when it may be and means that
the buffers are equal, and the sender never forgets a chunk.

## How the files fit together

| file | what it holds |
|---|---|
| `Common.dfy` | constants and small datatypes |
| `Areas.dfy`, `Buffer.dfy`, `WriteableBuffer.dfy` | the receiver's buffer: interval list, abstract value with its runs, and the class that updates it in place |
| `Scoring.dfy` | which holes the score policy asks for |
| `Requests.dfy`, `Dedup.dfy` | the request policy with its expiring table, and its runs |
| `Wire.dfy`, `Packets.dfy` | the codec that the derive macros generate, packet layouts, the enum codec |
| `Ranges.dfy` | coalescing, packing and splitting of requests |
| `BatchWindow.dfy`, `MissingList.dfy` | where a batch lies and what it lacks, inferred from the packets that arrived |
| `Sending.dfy`, `SendLoop.dfy` | the sender's loop as a function on its state, and its objects in place |
| `XorFec.dfy`, `XorTable.dfy`, `Encode.dfy`, `StaleBatch.dfy` | parity, recovery, the table of inbound batches, concurrent encoding, objects left over from an older batch |
| `Fingerprints.dfy`, `PendingAcks.dfy` | packet deduplication and bounded retries under interleaving |
| `Protocol.dfy` | both parties and the network: safety of every run |
| `Delivery.dfy`, `Completion.dfy`, `Stall.dfy` | a batch that arrives whole, completion after undisturbed rounds, and the state in which a round can leave a stream unfinished |
| `Progress.dfy` | such rounds as runs of `Protocol`, up to the declaration of Done |

Objects that the program updates in place are classes; each of their methods is
proved against a function on the object's abstract value or states its new
fields outright, and the theorems over whole runs are about the same functions;
one-line sections such as an insertion or a push are written out again in the
run systems. Concurrent code is a state machine with
one step per critical section. The network is the set of all messages ever sent:
a receiver step may take any of them, any number of times, which covers loss,
duplication, delay and reordering. `dafny verify dfyconfig.toml` checks
everything.

## What the code does that its documentation does not say

* The bitmap has `len / 1368 + 1` entries. When the length is a multiple of
  1368 the last entry has an empty chunk behind it. No tick sends it as fresh
  data, and a data packet with an empty payload does not pass decryption, so the
  fresh batches alone never complete such a stream (`Buffer.PhantomChunk`,
  `Completion.LosslessStream`). It completes through the sweep at the end: the
  empty chunk is requested, its data packet is thrown away, and the parity of its
  batch recovers it (`Completion.LosslessMultipleCompletes`). That fails when its
  batch also has a chunk the receiver holds, since a refused write is not counted
  for the batch. Then everything but the empty chunk has arrived, no write is
  accepted any more and nothing sets off another sweep (`Stall.StallIsFinal`).
  Only the pruning of that batch can still ask for the chunk, and does exactly
  when the batch is consecutive from its first new packet to the end
  (`Stall.PrunedBatchRescuesIff`); a reachable case in which it does not, so that
  the stream never completes, is `Stall.SharedBatchStalls`.
* A batch of re-sent chunks need not be contiguous, and the range inferred for it
  is then never exact (`BatchWindow.ActiveRangeExactIff`,
  `Sending.LoopEmitsScattered`).
* Only an explicit discriminant, the first variant, or a variant right after an
  explicit one survives the enum codec; `SessionDoesNotExist` does not
  (`Packets.EnumRoundTripIff`).
* A retransmit packet without ranges serializes but does not deserialize.
* A hole that contains the head gets urgency 0 in the code, although unit tests
  of the repository expect it to rank high. The model follows the code.
* The comment on urgency says that it peaks at 1 and that live progress always wins
  over holes behind the head. At distance one it is 4, and from a distance of five
  chunks on a hole behind the head can win (`Scoring.AheadWinsIff`).
* A pending acknowledgement whose session is not established at retry time stays
  in the pending map with nothing left to remove it but a late acknowledgement
  (`PendingAcks.LeaksExactlyWhenDropped`).
* The payload is copied into a parity block inside a debug assertion
  (`src/packet_processor/fec/mod.rs:32`). The model executes that copy.
* A recovered packet that completes the stream marks it closed but leaves the
  session in the streaming state; a data packet takes it out of it. Both are in
  `Protocol.Settle`.

## Assumptions

* Both buffers have the same length, and length plus 65536 stays below 2^32
  (for the end-to-end safety theorem, the length stays below 2^32).
* One stream with fewer than 65536 batches and no batch object left from an
  earlier stream: batch ids restart with each stream while the inbound table is
  not cleared. `StaleBatch.StaleObjectExact` shows exactly when a left-over
  object still gives the right block.
* Requests and seek targets end below 2^32, as an honest receiver's do.
* Clocks are monotone. Scores are exact reals.

## Model

| member | source | states |
|---|---|---|
| `Protocol.StreamIsSafe` | src/manager/state.rs:432-629 | End-to-end safety: for one stream and any interleaving of sender turns, deliveries (lost, duplicated, delayed, reordered), batch lookups, additions to listed or stale batch objects, prunings, re-creations, recoveries, seeks and late recovered writes, every filled chunk holds the sender's bytes; every declared Done has the head at the end and, unless `complete == Some(true)`, the whole buffer equal to the source; the sender still forgets nothing |
| `Protocol.SettleSafe` | src/manager/state.rs:456-514 | A write of a whole chunk at its own position keeps the buffer right, and a Done it triggers is a right one, on the data path and on the recovery path; when one is triggered is `Protocol.DeclarationExact` |
| `Protocol.DeclarationExact` | src/manager/state.rs:479-622 | A write the buffer takes, of a data packet or of a recovered one, declares exactly the buffer after it if and only if its head is at the end and it has no hole or the application settled for less; a data write then ends the streaming and a recovered one does not; no other step declares anything or ends the streaming |
| `Protocol.DoneIsDeclared` | src/manager/state.rs:479-622 | In every run a buffer without a hole has its head at the end and was declared, as the last declaration; the streaming never ends without a declaration |
| `Protocol.DeclaredOnce` | src/manager/state.rs:479-622 | While the application never settles for less, Done is declared exactly once if the buffer is done and never otherwise |
| `Protocol.BatchIdsExact` | src/manager/state.rs:80-89 | In every run the sender's counter is the number of batches sent, and no two of its batches share a u16 id or carry id zero |
| `Protocol.TickLogged` | src/manager/state.rs:1227-1229 | The batch a tick sends, fresh or re-sent, goes out under the number it has in the log of all batches |
| `Protocol.SentIsLogged` | src/manager/state.rs:1188-1229 | In every run a chunk counts as sent if and only if a batch on the network carries it, so what the sender never forgets was really put on the network |
| `Protocol.RelistedFresh` | src/packet_processor/fec/xor.rs:284-321 | A batch that left the table starts over with a new object on its next packet, and no other entry changes |
| `Progress.RoundHappens` | src/manager/state.rs:432-629 | From any state of any run some continuation does to both parties what the next `k` ticks and their lossless delivery say, through the writes, batch objects, recoveries and their writes, and has declared Done if that makes the buffer done |
| `Progress.LosslessRunDeclares` | src/manager/state.rs:432-629 | For a length that is no multiple of 1368 there is a run that declares Done on the whole source after ceil(chunks / 28) ticks |
| `Progress.SweepRunDeclares` | src/manager/state.rs:172-188 | From any state of any run with the head at the end and nothing missing held back, a sweep, its packets reaching the sender one by one and an undisturbed round lead to Done declared on the whole source, unless the obstacle of a multiple of 1368 stands |
| `Protocol.SenderSafe` | src/manager/state.rs:1166-1257 | A sender turn puts only whole, aligned, ascending chunks of the source on the network and breaks no batch already in flight |
| `Protocol.RecoverSafe` | src/packet_processor/fec/xor.rs:149-157 | Whatever a batch object recovers is a whole chunk of the source at its own position |
| `Protocol.LookSafe` | src/packet_processor/fec/xor.rs:284-292 | A batch object re-created after its entry was pruned starts in step with the batch that was sent |
| `Protocol.CombineSafe` | src/packet_processor/fec/xor.rs:294-301 | Adding any packet of a batch, in any order and any number of times, keeps the object in step with that batch |
| `Completion.SweepRoundCompletes` | src/manager/state.rs:172-188 | Progress for every length: the head is at the end and everything missing is up for a sweep; its request goes through the wire to a running sender with its head anywhere; after ceil(remaining / 28) + ceil(queued / 28) undisturbed ticks the sender is drained and every byte has arrived, and the receiver is Done if and only if the length is no multiple of 1368 or the empty chunk at the end was there or is sent with new chunks only |
| `Completion.IdleSweepCompletes` | src/manager/state.rs:172-188 | From a drained sender a sweep, if anything still sets one off, makes the receiver Done and equal to the source with one undisturbed round, for every length |
| `Requests.QuietWhileAsked` | src/manager/state.rs:117-134 | While every missing chunk has a fresh request no decider, whatever positions it comes up with, asks for anything |
| `Requests.SweepAsksAll` | src/manager/state.rs:172-188 | A sweep of everything missing leaves it so for the next 500 ms, which is what makes the round after it undisturbed |
| `Stall.RoundStallsAtEnd` | src/manager/state.rs:479-514 | A round that does not complete the stream leaves the sender drained and only the empty chunk at the end missing |
| `Stall.StallIsFinal` | src/manager/state.rs:432-629 | From such a state on, over any run of both parties and the network, no write is accepted but that of the recovered empty chunk, which makes the receiver Done; sweeps are set off by accepted writes alone, so there is none |
| `Stall.PruneRescuesIff` | src/manager/state.rs:1917-1971 | A prune request completes such a stream, one tick later, if and only if the batch reports the end missing; otherwise it asks for nothing |
| `Stall.PrunedBatchRescuesIff` | src/manager/state.rs:1917-1971 | The exact condition for completion after a stall: the pruned batch carried the end and was consecutive from its first packet new to the receiver up to the end |
| `Delivery.EndListedIff` | src/packet_processor/fec/xor.rs:123-134 | The same condition on what a delivered batch reports when pruned |
| `Delivery.OthersDoNotListEnd` | src/packet_processor/fec/xor.rs:123-134 | A batch that does not carry the end never reports it, however its place was inferred |
| `Stall.StallReached` | src/manager/state.rs:976-1023 | A run of the loop on a buffer of one chunk, with nothing lost, that queues the chunk already delivered together with the empty one |
| `Stall.SharedBatchStalls` | src/manager/state.rs:456-522 | The round after it stalls for good: the empty chunk is not recovered, because a refused write is not shown to the batch, and the batch has nothing to report when it is pruned |
| `Completion.TicksForetell` | src/manager/state.rs:1188-1222 | No tick changes whether the empty chunk at the end will be filled, so its condition can be checked before the drain |
| `Completion.LosslessStream` | src/manager/state.rs:1188-1222 | What fresh batches alone do when none is lost: after ceil(chunks / 28) ticks, and not before, every byte is there, the sender is drained, and only the empty chunk behind a length that is a multiple of 1368 is missing |
| `Completion.LosslessMultipleCompletes` | src/manager/state.rs:479-495 | Such a length completes as well: the sweep at the end asks, whatever batch windows are live, for the empty chunk alone, and one tick later the parity of the batch that carries it makes the receiver Done |
| `Completion.LosslessIndex` | src/api/types.rs:205-237 | At that point the interval list is the one area of the empty chunk |
| `Completion.EmptyStreamIsSilent` | src/manager/state.rs:205-218 | A stream without bytes sends nothing, so nothing sets off a sweep and the receiver is not done |
| `Delivery.DeliverFills` | src/manager/state.rs:456-514 | A batch delivered in order with its parity fills its own non-empty chunks and, exactly when everything before it in the batch was new, the empty chunk at the end |
| `Delivery.CollectedMeaning` | src/manager/state.rs:456-522 | The batch object is shown exactly the packets whose write was accepted, which are those whose chunk was missing before the batch |
| `Delivery.RecoveredChunk` | src/packet_processor/fec/xor.rs:149-157 | What the parity of a delivered batch recovers is the empty chunk at the end, if the rest was new, and otherwise a chunk that is there already |
| `Completion.TicksServe` | src/manager/state.rs:1188-1222 | A queued chunk stays queued until it has arrived |
| `Writeable.WriteableBuffer.Occupy` | src/api/types.rs:205-237 | In-place update of the interval list: afterwards bitmap and list agree again and exactly the given chunk is marked |
| `Writeable.WriteableBuffer.AdvanceHead` | src/api/types.rs:309-322 | The head stops at the first missing chunk, or at the end |
| `Writeable.WriteableBuffer.SeekHead` | src/api/types.rs:157-177 | `None` exactly past the end, `Some(true)` exactly for a position ahead of the head, which then rests on the first missing chunk from the target's on; otherwise the head stays |
| `Writeable.WriteableBuffer.Write` | src/api/types.rs:327-359 | All three refusals in order, and on success bytes, bitmap, list and head change together, as the abstract write says |
| `Writeable.WriteableBuffer.IsDone` | src/api/types.rs:145-150 | Done says the head is at the end and no entry of the bitmap is false |
| `Writeable.WriteableBuffer.FindHoles` | src/api/types.rs:243-250 | Lists, in ascending order, exactly the chunks of the interval list that lie below the limit's chunk |
| `Writeable.WriteableBuffer.ScoreAreas` | src/api/types.rs:265-285 | The in-place reverse suffix sums give every hole the score that a direct count of later arrivals gives |
| `Writeable.WriteableBuffer.RequestableAreas` | src/api/types.rs:291-297 | The result is a true top two of the holes that reach the threshold |
| `Areas.AreaIsMaximalRun` | src/api/types.rs:205-237 | Each interval is a run of missing chunks that cannot be extended on either side |
| `Areas.IndexUnique` | src/api/types.rs:88-108 | A bitmap has exactly one sorted, disjoint, non-touching, non-empty interval list, so the maintained list is the one a scan would give |
| `Areas.CarveIndexes` | src/api/types.rs:205-237 | Splitting, shrinking or dropping the interval around a filled chunk keeps list and bitmap in step |
| `Areas.FreshIndex` | src/api/types.rs:95-108 | A new buffer's single interval indexes its empty bitmap |
| `Buffer.HeadOverRuns` | src/api/types.rs:157-177 | Over any run of writes and seeks the head is monotone, aligned or at the end, has only filled chunks between the last seek to a position ahead of it and itself, and rests on a missing chunk unless at the end |
| `Buffer.ApplyRests` | src/api/types.rs:309-359 | One write or seek keeps that, and restarts it from the seek target on a forward seek |
| `Buffer.SeekMeaning` | src/api/types.rs:157-177 | When a seek is out of range, moves or does not, in terms of position, head and length alone, and where the head comes to rest; contents never change |
| `Buffer.WriteMeaning` | src/api/types.rs:327-359 | A write is accepted if and only if the chunk is missing and the payload has a chunk's length, or lies in the last entry, and fits; each refusal has its own exact condition; on success that chunk and those bytes change and no other, and the head moves over filled chunks only |
| `Buffer.WriteKeepsFaithful` | src/api/types.rs:327-359 | A chunk's own bytes written at its own position leave every filled chunk right |
| `Buffer.OwnBytesAccepted` | src/api/types.rs:327-349 | A chunk's own bytes are accepted if and only if the chunk is missing, and refused as occupied otherwise, the short last chunk included |
| `Buffer.FaithfulDone` | src/api/types.rs:145-150 | A buffer whose filled chunks are right and that has no hole equals the source |
| `Buffer.PhantomChunk` | src/api/types.rs:96-107 | With all real chunks filled the buffer is done if and only if the length is no multiple of 1368 or the extra bitmap entry was filled too |
| `Buffer.PhantomCounterexample` | src/api/types.rs:96-107 | A buffer of 1368 bytes holds everything after one write and is not done |
| `Scoring.SuffixSumCounts` | src/api/types.rs:265-285 | Total minus end minus later missing is the number of filled chunks past the hole, and neither saturating subtraction saturates |
| `Scoring.SuffixInvalid` | src/api/types.rs:271-274 | The filled array holds, at each index, the number of missing chunks from that interval on |
| `Scoring.SelectionIsTop` | src/api/types.rs:291-297 | Filter, stable sort and truncate give the two best of all passing holes; none left out ranks above one taken |
| `Scoring.SortRanked` | src/api/types.rs:294 | The sort is a stable descending permutation |
| `Scoring.AheadPassesIff` | src/api/types.rs:55-84 | A hole `d` chunks ahead of the head with `v` arrivals past it reaches the threshold if and only if 40 v >= 3 d (v + 4) |
| `Scoring.BehindPassesIff` | src/api/types.rs:55-84 | A hole of `n` chunks behind the head reaches it if and only if 10 n v >= 24 (v + 4), or v >= 2 from eight chunks on |
| `Scoring.AheadWinsIff` | src/api/types.rs:50-72 | A hole ahead of the head is more urgent than every hole behind it if and only if it is at most four chunks away |
| `Requests.ReserveMeaning` | src/manager/state.rs:117-134 | A position is taken if and only if its chunk is missing and not freshly requested, once per chunk, and exactly the taken chunks are stamped |
| `Requests.SweepQueuesWanted` | src/manager/state.rs:172-188 | What the sender queues for a sweep is each missing chunk that is neither in an active batch nor freshly requested, once, and nothing else |
| `Requests.ExpiredSweepIsComplete` | src/manager/state.rs:172-188 | Once batches and requests have expired a sweep asks for a chunk if and only if it is missing |
| `Requests.LiveBatchNotAsked` | src/manager/state.rs:172-188 | No chunk of a contiguous batch with a live window and a packet received is asked for by a sweep |
| `Requests.StreamingFrom.ReserveForRequest` | src/manager/state.rs:117-134 | The loop over positions computes that reservation in place, after sweeping stale entries |
| `Requests.StreamingFrom.ReceiveChunk` | src/manager/state.rs:456-472 | Write and bookkeeping of one packet: requests go on waiting for missing chunks only, one is dropped only for a chunk that is there now, and a refused packet changes nothing |
| `Requests.StreamingFrom.ScorePolicyPick` | src/manager/state.rs:148-165 | Requests the chunks of a true top two of holes, less those active or freshly requested |
| `Requests.StreamingFrom.FinalizeSweepPick` | src/manager/state.rs:172-188 | Requests each wanted chunk exactly once and leaves exactly those and the still-fresh ones pending |
| `Dedup.RequestsAreSpaced` | src/manager/state.rs:117-140 | Over any run of arrivals, seeks and decisions by score policy, sweep and batch pruning: pending entries are for missing chunks, two requests for one chunk are more than 500 ms apart, and none follows its arrival |
| `Dedup.DecisionExact` | src/manager/state.rs:117-134 | A decision asks for a chunk if and only if one of its positions lies in it, it is missing, and any earlier request for it is more than 500 ms old |
| `Dedup.BufferRuns` | src/manager/state.rs:117-140 | Whatever the deciders do, the buffer goes through the arrivals and seeks alone |
| `Ranges.RequestRoundTrip` | src/manager/state.rs:1995-2052 | Coalescing positions in any order, grouping by at most 228 ranges, writing, reading and splitting each packet queues exactly the chunks asked for, with multiplicity, also across the u16 cut |
| `Ranges.CoalesceKeepsIndices` | src/manager/state.rs:2036-2052 | Each merge step, to the left or to the right, keeps the multiset of chunks |
| `Ranges.CoalescedMaximal` | src/manager/state.rs:2034-2052 | On sorted input neighbouring ranges do not touch unless joining them would leave the u16 |
| `Ranges.ConcatRuns` | src/manager/packets.rs:1509-1529 | A successful concatenation covers exactly the two ranges' chunks and still fits the wire |
| `Ranges.ConcatExact` | src/manager/packets.rs:1509-1529 | Two ranges merge if and only if their lengths fit a u16 together and some range covers both and nothing twice; the merge is that range |
| `Ranges.SplitWhole` | src/manager/state.rs:1995-2008 | Splitting a whole range gives its chunk indices one by one |
| `Ranges.SplitExact` | src/manager/state.rs:1995-2008 | For any range, aligned or not: how many pieces there are, where each starts and how long it is |
| `Ranges.GroupedExact` | src/manager/state.rs:2012-2031 | Packet `k` carries exactly the `k`th stretch of 228 ranges, and there are ceil(ranges / 228) packets |
| `Ranges.CoalesceBytePositions` | src/manager/state.rs:2036-2052 | The loop computes the merge and keeps exactly the chunks asked for |
| `Ranges.SplitRangeIntoChunks` | src/manager/state.rs:1995-2008 | The iterator yields the chunk-sized pieces in order |
| `Ranges.DispatchRetransmitRequest` | src/manager/state.rs:2012-2031 | One packet per group of at most 228 ranges, none for an empty list |
| `BatchWindow.BaseNeverSaturates` | src/manager/state.rs:1574-1589 | In an ascending batch the subtraction that derives the base never saturates |
| `BatchWindow.ActiveRangeExact` | src/manager/state.rs:1593-1599 | For a contiguous batch with a packet received, in any order, the active range contains a chunk position if and only if the batch carries it |
| `BatchWindow.TrackedMeaning` | src/manager/state.rs:1574-1589 | `contiguous` says that all packets received agree on the base |
| `BatchWindow.ActiveRangeExactIff` | src/manager/state.rs:1593-1599 | For an ascending batch with any packet received, the active range is there and exact if and only if the batch is contiguous |
| `BatchWindow.WindowOvershoots` | src/manager/state.rs:1574-1599 | A witness: for chunks 0, 1 and 5 with the first two received, the range wrongly contains chunk 2 |
| `Sending.LoopEmitsScattered` | src/manager/state.rs:1188-1213 | The loop does emit that batch: from a drained sender of a six-chunk buffer that is asked for chunks 0, 1 and 5 |
| `BatchWindow.MirrorTracksEachBatch` | src/manager/state.rs:1513-1530 | However packets of several batches interleave, a batch has a window if and only if a packet of it came, and the window holds what its own packets alone say |
| `BatchWindow.MirrorDates` | src/manager/state.rs:1513-1530 | A window dates from the first packet of its batch and keeps the size and recovery count that packet gave, whatever follows |
| `BatchWindow.SessionFecState.ActiveByteRanges` | src/manager/state.rs:1541-1548 | Sweeps expired windows, then lists exactly the live contiguous ranges |
| `Sending.NeverForgets` | src/manager/state.rs:976-1023 | Over every interleaving of ticks, pauses, plays, seeks and requests, each real chunk below the head or the last position sent has been sent or is queued |
| `Sending.NeverForgetsAnyMore` | src/manager/state.rs:976-1023 | Stronger: whatever was ever behind the head or the last position sent stays sent or queued for the rest of the run, also after backward seeks |
| `Sending.DrainBound` | src/manager/state.rs:1188-1222 | Undisturbed, the loop is drained after ceil(remaining / 28) + ceil(queued / 28) ticks and not one earlier, and by then every real chunk has been sent |
| `Sending.EmittedBatchLocated` | src/manager/state.rs:1196-1211 | Every batch the loop can emit has at most 28 aligned, distinct, ascending chunks with their own bytes; none makes the base saturate; a fresh batch is contiguous |
| `Sending.TakeMeaning` | src/manager/state.rs:205-218 | The fresh chunks are consecutive from the head and carry the source's bytes, and the head moves past exactly them |
| `Sending.RereadMeaning` | src/manager/state.rs:225-243 | Re-reading rising indices gives their chunks in order and skips those past the end |
| `Sending.ReadRangeExact` | src/manager/state.rs:225-243 | A requested range is refused only if it starts past the end; otherwise its bytes are read from its start, a chunk at most |
| `Sending.TickNeedsRunning` | src/manager/state.rs:1166-1213 | A tick that finds the loop paused, held back, closed or out of its state changes nothing; any other with fresh chunks left sends from the head |
| `Sending.SmallestMeaning` | src/manager/state.rs:1191-1197 | The indices taken are the smallest ones, in order, and nothing left behind is smaller |
| `Sending.ExtrasSent` | src/manager/state.rs:1191-1213 | An index taken off the queue is sent unless it lies past the buffer |
| `Sending.HandleRemembers` | src/manager/state.rs:976-1023 | An event, a backward or forward seek in particular, forgets no chunk |
| `Sending.ControlsExact` | src/manager/state.rs:976-1023 | Over every run the loop plays unless paused since the last play, is held back likewise, and is closed if and only if it was stopped or the peer closed it |
| `Sending.ClosedIsSilent` | src/manager/state.rs:976-1023 | After a stop or a close no run sends another chunk or takes another batch id |
| `Sending.SeekExact` | src/manager/state.rs:976-988 | A seek puts the head of an open stream on the chunk boundary at or below the clamped target and queues exactly the chunks between last sent and target, in either direction |
| `Sending.TickCounts` | src/manager/state.rs:1227-1229 | Every tick that sends, fresh chunks or extras, takes one batch number and records the last position sent; a tick that sends nothing takes none |
| `SendLoop.ReadableBuffer.Next` | src/api/types.rs:381-392 | The iterator yields the chunk at the head and advances, or ends |
| `SendLoop.ReadableBuffer.Seek` | src/api/types.rs:412-417 | The head lands on the chunk boundary at or below the clamped target |
| `SendLoop.ReadableBuffer.Read` | src/api/types.rs:425-428 | Refuses only a start past the end of the range or of the buffer; otherwise gives the buffer's bytes from the start, index by index, up to the clamped end |
| `SendLoop.StreamTo.GetChunks` | src/manager/state.rs:205-218 | Takes up to `n` chunks unless the stream is paused or closed, and moves head and shown progress |
| `SendLoop.StreamTo.Retransmit` | src/manager/state.rs:225-243 | Refuses only in a paused or closed stream; otherwise reads every range it can |
| `SendLoop.StreamTo.NextBatchId` | src/manager/state.rs:80-89 | Batch ids count from one and wrap with the u16 |
| `SendLoop.SendLoop.Tick` | src/manager/state.rs:1166-1257 | One tick in place equals the abstract tick; a batch it sends, extras included, goes out under the next id, and without one no id is used; the early return after extras were taken out is never taken |
| `SendLoop.SendLoop.AddSeekHoleIndices` | src/manager/state.rs:1977-1988 | Queues exactly the chunks between last sent and target, either way round |
| `SendLoop.SendLoop.QueueRanges` | src/manager/state.rs:1011-1021 | Queues exactly the chunk indices of the split ranges |
| `SendLoop.SendLoop.HandleStreamEvent` | src/manager/state.rs:976-1023 | Each event changes the loop exactly as the abstract event does |
| `XorFec.RecoveryExact` | src/packet_processor/fec/xor.rs:84-157 | For any order and duplicates, a batch is ready if and only if the parity and all data packets but one have arrived, and then the missing packet comes back with its position and its own, possibly shorter, payload |
| `XorFec.NeverOverfull` | src/packet_processor/fec/xor.rs:84-117 | Fed any packets whatever, those of a larger batch included, an object counts distinct indices, as many as its size and no more |
| `XorFec.MissingPositionsExact` | src/packet_processor/fec/xor.rs:123-134 | For a contiguous batch that saw any packet the listed positions are exactly those of the packets it did not see |
| `MissingList.MissingPositionsExactIff` | src/packet_processor/fec/xor.rs:123-134 | For any ascending batch that saw a packet, in any order and with duplicates, the list is exact if and only if the batch is contiguous or every packet came |
| `XorFec.UnpackPacked` | src/packet_processor/fec/mod.rs:27-97 | Packing a packet into the fixed block and unpacking it gives position and payload back, at every payload length |
| `XorFec.FoldMissing` | src/packet_processor/fec/xor.rs:149-157 | Folding all blocks but one with the parity gives the missing block |
| `StaleBatch.StaleObjectExact` | src/packet_processor/fec/xor.rs:284-321 | An object left over from an earlier use of the batch id, fed any packets of a newer batch of any size in any order until it can recover: for a new packet it has not taken, the block recovered is that packet's if and only if the old blocks held fold to the same as the other new ones missing (with the old parity: the old blocks lacking, to the same as the new ones taken and that packet) |
| `StaleBatch.FeedMoreMixes` | src/packet_processor/fec/xor.rs:84-117 | What such an object holds is the fold of the old blocks and of the new ones taken since |
| `StaleBatch.StaleObjectMisleads` | src/packet_processor/fec/xor.rs:284-321 | The smallest case: one old block in a batch of two gives the right block if and only if it equals the new one |
| `XorFec.Pack` | src/packet_processor/fec/mod.rs:27-38 | The buffer written slice by slice is the packed block |
| `XorFec.XorAssign` | src/packet_processor/fec/xor.rs:23-30 | The in-place exclusive or |
| `XorTable.InboundBatch.Add` | src/packet_processor/fec/xor.rs:84-117 | In place: an unseen index of a batch with room is folded in, anything else changes nothing, and the result says which |
| `XorTable.InboundBatch.Accept` | src/packet_processor/fec/xor.rs:294-301 | Parity or data is taken in, and the result says whether recovery is possible |
| `XorTable.InboundBatch.Recover` | src/packet_processor/fec/xor.rs:149-157 | Gives product and parity combined if and only if all but one data packet and the parity are there |
| `XorTable.XorInbound.Received` | src/packet_processor/fec/xor.rs:284-301 | Finds or makes the batch, changes that batch only, and says whether it can be recovered |
| `XorTable.XorInbound.RecoverBatch` | src/packet_processor/fec/xor.rs:308-321 | Takes the batch out of the table and gives the recovered packet |
| `XorTable.XorInbound.Prune` | src/packet_processor/fec/xor.rs:332-360 | Drops exactly the expired batches and reports what each one still lacked |
| `Encode.ExactlyOneParity` | src/packet_processor/fec/xor.rs:237-280 | For every interleaving of the lookup, add and remove sections of the tasks of one batch: the entry a filling task removes is there, no wrong or second parity is ever returned, and when all have finished exactly one returned the fold of all blocks and no entry is left |
| `Encode.EveryTaskFinishes` | src/packet_processor/fec/xor.rs:237-280 | Progress: once every task has had three turns, in whatever order and with whatever turns between, all have finished, exactly one has returned the parity of the whole batch, and the entry is gone |
| `Encode.AddKeeps` | src/packet_processor/fec/xor.rs:194-198 | An add under the batch lock folds in its block, and only the one that fills the batch goes on to remove it |
| `Wire.IntRoundTrip` | src/packet_processor/serialize.rs:20-60 | A value that fits the width survives big-endian writing and reading |
| `Wire.BytesRoundTrip` | src/packet_processor/serialize.rs:20-60 | The encoding of an integer is unique |
| `Wire.FirstByteWeighsMost` | src/packet_processor/serialize.rs:20-60 | The byte order is big-endian: the first byte weighs most |
| `Wire.FieldRoundTrip` | ubass_macros/src/lib.rs:195-274 | Every field kind reads back from the front of the bytes, whatever follows it |
| `Wire.StructRoundTrip` | ubass_macros/src/lib.rs:195-274 | For every packet layout, deserialize of serialize is the identity, the bytes are the headers and then the payload, and their number is the claimed size |
| `Wire.RangesRoundTrip` | src/manager/packets.rs:1532-1563 | A range list survives its stride codec |
| `Wire.Serialize` | ubass_macros/src/lib.rs:195-240 | Writes field by field in place; refuses a short buffer without touching it |
| `Wire.Deserialize` | ubass_macros/src/lib.rs:240-274 | The offset loop computes the field-by-field decoding |
| `Wire.Headers` | ubass_macros/src/lib.rs:288-317 | The header bytes, in a buffer of exactly their size |
| `Packets.DataPacketRoundTrip` | src/manager/packets.rs:306-348 | Round trip, headers then payload, and size, for data packets |
| `Packets.DataLayout` | src/manager/packets.rs:306-317 | The header of a data packet is thirty bytes, and each field is at its own offset |
| `Packets.RetransmitPacketRoundTrip` | src/manager/packets.rs:628-676 | The same for retransmit packets, which are lost if and only if they ask for nothing |
| `Packets.RetransmitLayout` | src/manager/packets.rs:628-645 | The header of a retransmit request is twenty-four bytes, and each field is at its own offset |
| `Packets.EnumRoundTripIff` | ubass_macros/src/lib.rs:77-97 | A variant survives the enum codec if and only if it has an explicit discriminant, comes first, or directly follows an explicit one |
| `Packets.SessionDoesNotExistIsLost` | src/manager/packets.rs:1377-1384 | The third error type is written as 3 and read back as nothing |
| `Fingerprints.OncePerWindow` | src/manager/state.rs:1838-1883 | Under every interleaving of the two halves of adds and of prunes, the set is the queued, the half-added and the half-removed, each in one place; the queue is sorted and duplicate-free; and an add of a fingerprint succeeds only more than 500 ms after the previous success for it |
| `Fingerprints.PopsExactlyExpired` | src/manager/state.rs:1856-1868 | A prune pops an entry if and only if it has expired |
| `Fingerprints.FingerprintWindow.Add` | src/manager/state.rs:1838-1848 | An add that nothing interrupts succeeds if and only if no queue entry remembers the fingerprint, and keeps set and queue in agreement |
| `Fingerprints.LetThroughAgain` | src/manager/state.rs:1838-1883 | In every run, after a prune pass, a fingerprint no add is busy with is let through if and only if every queue entry of it is more than 500 ms old |
| `Fingerprints.QuietEmpties` | src/manager/state.rs:1852-1883 | After more than 500 ms without an add a prune pass leaves only the adds under way |
| `Fingerprints.AddExact` | src/manager/state.rs:1838-1848 | In the interleaved system an add gets through if and only if no stage has the fingerprint, and is then queued and logged |
| `Fingerprints.FingerprintWindow.Prune` | src/manager/state.rs:1852-1883 | A prune pass that nothing interrupts leaves exactly the fingerprints that have not expired |
| `Fingerprints.FingerprintWindow.PopExpired` | src/manager/state.rs:1856-1868 | The loop takes the longest expired prefix |
| `Fingerprints.FingerprintWindow.RemoveExpired` | src/manager/state.rs:1870-1878 | Removes exactly the popped fingerprints |
| `PendingAcks.RetriesBounded` | src/manager/state.rs:1655-1793 | In every run a packet is sent again at most five times; with its session established and no acknowledgement it is pending and followed until its sixth expiry and afterwards in neither |
| `PendingAcks.LeaksExactlyWhenDropped` | src/manager/state.rs:1757-1793 | A packet stays pending with nothing left to resend or remove it if and only if a retry found its session not established and no acknowledgement has come |
| `PendingAcks.LeakHappens` | src/manager/state.rs:1757-1793 | A run of six steps that ends in such a leak |
| `PendingAcks.CollectKeeps` | src/manager/state.rs:1731-1745 | Collecting loses no entry, counts one retry on each it takes, restamps those to be sent again, and stops at the first entry that is not ready |
| `PendingAcks.CollectExact` | src/manager/state.rs:1731-1745 | What is left is the queue from its first entry not more than 500 ms old, and every entry before it is more than 500 ms old |
| `PendingAcks.CollectSorts` | src/manager/state.rs:1733-1745 | Of those taken, exactly the ones with fewer than five retries are sent again, with a new age and one retry more, and exactly the others are given up |
| `PendingAcks.ExpiriesSpaced` | src/manager/state.rs:1655-1793 | In every run two expiries of one packet are more than 500 ms apart, the first that long after the add; so it is given up at its sixth, more than 3000 ms after the add |
| `PendingAcks.PassExact` | src/manager/state.rs:1731-1793 | A pass over established sessions puts every ready, unacknowledged packet with a retry to spare back in the queue, forgets those that had their last one, and leaves the rest alone |
| `PendingAcks.PendingAckWindow.CollectReady` | src/manager/state.rs:1731-1745 | The loop takes exactly the entries at the front that are more than 500 ms old and sorts them into retries and expiries |
| `PendingAcks.PendingAckWindow.RemoveExpired` | src/manager/state.rs:1785-1791 | Removes exactly the expired fingerprints |

## Left out

- Protocol.StreamIsSafe: is about one stream without stale batch objects, as said under Assumptions; encryption is taken to deliver packets intact or not at all.
- Protocol.StreamIsSafe: the request policy is replaced by "any request at any time", which includes every run with the real policy; the policy's own theorems are in `Requests` and `Dedup`.
- Completion.SweepRoundCompletes: takes every request packet of the sweep as handled, while the sender's mailbox is one overwritable slot and can lose all packets but the last when a sweep needs more than 228 ranges.
- Completion.SweepRoundCompletes: is about a receiver whose application does not settle for partial data; with `complete == Some(true)` it declares Done and leaves the stream at the first accepted write with its head at the end.
- Completion.SweepRoundCompletes: a batch's packets arrive in the order sent and its parity after them, and nothing else is requested during the round; the last holds for 500 ms after the sweep (`Requests.SweepAsksAll`, `Requests.QuietWhileAsked`) and is assumed for longer rounds.
- Completion.IdleSweepCompletes: does not say what sets the sweep off; it takes an accepted write, and the program has no timer that sweeps when every packet after the end is lost or only the empty chunk is left, so no unconditional liveness is claimed.
- Progress.SweepRunDeclares: says that such a continuation exists, not that a network provides it; like `Progress.RoundHappens` it stays within the 65535 batches whose ids differ.
- PendingAcks.RetriesBounded: assumes that a fingerprint is not added again while an earlier add of it is still followed; the sleep between prunes is not modelled, a prune may happen at any time.
- Fingerprints.OncePerWindow: is about `add` alone; the callers check and then add and ignore the result, so packet-level uniqueness is not claimed.
- XorTable.XorInbound.Prune: is one step, while the program takes a snapshot and removes in a second section; `Protocol` lets a batch leave the table at any moment, which covers the gap.
- XorTable.InboundBatch.Recover: a batch size of 0, which no sender emits, would underflow in the program; here it is never ready.
- XorTable.InboundBatch.Add: the 256-bit mask of received indices is a set of numbers.
- Wire.StructRoundTrip: covers the field kinds of data and retransmit packets and of the enums; addresses, options beyond their integer, versions and keys are not given a meaning.
- Dedup.RequestsAreSpaced: one decision uses one clock value for the sweep and one, not earlier, for the stamps.
- SendLoop.SendLoop.HandleStreamEvent: the single-slot mailbox that delivers events is not modelled; an event that is overwritten there simply does not happen here.
- Writeable.WriteableBuffer.Write: the raw pointer to application memory, its failure to dereference and aliasing with the application are not modelled.
- Writeable.WriteableBuffer.ScoreAreas: floating-point rounding is not modelled.
- Reed-Solomon coding: its substance is in an external crate.
- Encryption, key exchange and hashing: foreign libraries; fingerprints are opaque numbers.
- Handshakes, session tables, address index, keep-alives and the socket pool: mostly lookups.
- The public API types, bindings, examples, logging and timers: handles and plumbing.
