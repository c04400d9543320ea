# Matrix Sentry: a verified model

This project models the parts of Matrix Sentry that hold its state and make its promises,
and proves those promises for every input, every run and every interleaving:

* **The journal** (`sentry/`): framed, checksummed records in rotating segment files;
  recovery after a crash. Files `crc32`, `crc_detection`, `framing`, `journal_layout`,
  `journal_soundness`, `journal_runs`, `journal`.
* **The agent channel** (`comms/`): messages, tasks with leases and deadlines, clears, pins,
  retention, the sweeper, rebuilding from the journal, and wake-ups that coalesce. Files
  `channel*`, `wakeup` and `wakeup_channel`.
* **The vector index** (`ivf/`, `pq/`): product quantization, the bounded heap, coarse
  routing, the exact tier, re-ranking and k-means. Files `vectors`, `topk`,
  `product_quantizer`, `codebooks`, `kmeans_cost`, `kmeans`, `index_layout`, `index_search`,
  `index_decoding`, `vector_index`, `index_meaning`, `index_training`.
* **Stores that must agree with a simple specification**: semantic memory (`tags`,
  `memory_log`, `memory_store`, `memory_meaning`), the cache policies and the exact tier
  (`recency`, `cache_policies`, `exact_tier`), and the fitness memo keyed on printed trees
  (`gp_printing`).
* **The RPC multiplexer** (`providerbroker/codex_session.go`): file `rpc_mux`.

`sets` holds facts about finite sets that several of these use.

Objects that the program updates in place are classes here, and loops over its slices and
arrays are loops. Each such method is proved against a specification function or predicate
on values (`AfterClaim`, `RecoverAll`, `Live`, `Held`, ...), and the main results are lemmas
about those values. What a specification function means is stated apart from its
definition, in the terms of the callers (`channel_effects`, `channel_leases`,
`journal_soundness`, `index_decoding`, `index_meaning`, `memory_meaning`). Protocols between
goroutines (wake-ups and RPC) are state machines with one step per critical section or
channel operation, and a run is any sequence of steps.

The clock, the outcome of an append, the moment of a sync, the order of a map iteration,
random draws, embeddings and fetched originals are parameters or arbitrary choices.
Distances and costs are real numbers. Hash functions other than CRC-32 are left abstract:
the index knows a vector by its hash value.

Four places where the code does not do what one would expect, each with its exact condition
for every input and an input that shows it:

* `Append` does not check payload sizes but recovery does. A cleanly closed journal reopens
  in full exactly when every payload is within recovery's limit
  (`JournalLayout.ReopensInFullIff`); after a crash recovery gives all records wholly on disk
  exactly when those are within the limit (`JournalLayout.CrashRecovery`); it fails exactly
  when an earlier segment holds a larger one (`JournalRuns.CrashSucceedsIff`); and the synced
  records outlive a crash exactly when they are within the limit
  (`JournalRuns.CrashKeepsSynced`). A two-step run of the journal that loses a synced record:
  `JournalRuns.OversizedWitness`.
* `Train` accepts fewer vectors than there are centroids to learn, but encoding then reads
  past the end of the codebooks: the quantizer is usable exactly when there were at least K
  training vectors (`Codebooks.Train`, `Codebooks.TryEncode`), and a trained index exactly
  when its residual sample had K vectors (`IndexTraining.TrainIndex`). One vector for two
  centroids: `Codebooks.TwoCentroidsFromOneVector`.
* A k-means++ draw of exactly 0 picks the first point whatever its weight: a later seed can
  be point i exactly when i is first or away from all earlier seeds (`KMeans.ReachableIff`).
  Two points of which the first is drawn twice: `KMeans.FirstDrawnAgain`.
* An LFU holds at most as many items as its capacity exactly when the capacity is at least 1
  (`CachePolicies.Lfu.Access`); one miss at capacity 0 leaves one item
  (`CachePolicies.HeldAtCapacityZero`).

## Model

| member | source | states |
|---|---|---|
| Crc32.UpdateInPieces | sentry/record.go:38-40 | a checksum continued over a second piece is the checksum of both, which lets readers check what the writer hashed in one go |
| CrcDetection.TableIsRegister | sentry/record.go:38-40 | one table lookup per byte is eight steps of the bitwise shift register |
| CrcDetection.ByteChangeShows | sentry/record.go:38-40 | changing any one byte of any message changes its checksum |
| CrcDetection.PolynomialShows | sentry/record.go:38-40 | the polynomial is the reflected IEEE one |
| Framing.GetPutLE | sentry/record.go:31-40 | reading a little-endian field gives back the number that was stored |
| Framing.Encode | sentry/record.go:29-42 | the buffer filled in place is the record's frame: checksum of all that follows it, then the header fields, then the payload |
| Framing.DecodeFrame | sentry/record.go:45-53 | decoding a frame's header returns every field of the record, negative times included |
| Framing.FrameChecksOut | sentry/store.go:137-139 | the checksum taken in two pieces from a frame is the one stored in it |
| Framing.FrameLayout | sentry/record.go:22-42 | every byte of a frame: checksum of what follows, number, time, type, tenant, payload length, each little-endian at its offset, and the payload |
| Framing.WhatDecodesIsFrame | sentry/record.go:45-53 | bytes whose length and checksum fit are the frame of the record they decode to, the converse of DecodeFrame |
| JournalLayout.NextWhole | sentry/store.go:89-154 | a whole frame is accepted if and only if its payload is within the limit |
| JournalLayout.NextTorn | sentry/store.go:96-136 | no proper part of a frame is ever accepted, wherever it was cut |
| JournalLayout.ParseFrames | sentry/store.go:89-154 | concatenated frames followed by a torn tail parse to exactly those frames, at their offsets |
| JournalLayout.CutBytes | sentry/store.go:89-154 | any prefix of a segment is whole frames and at most a part of the next |
| JournalLayout.WholeIsGreatest | sentry/store.go:89-154 | the frames kept after a cut are exactly those that end within it |
| JournalSoundness.NextExact | sentry/store.go:89-154 | for every file and offset a round accepts exactly the frames within the limit that start there, and nothing else |
| JournalSoundness.ParseAny | sentry/store.go:89-154 | a file of any content is parsed to its longest run of acceptable frames, clean exactly when nothing follows |
| JournalSoundness.RecoverAny | sentry/store.go:67-160 | for a disk of any content: the keydir points at the frames that each file starts with, all files but the last consist of them, and otherwise corruption is reported where the first such file goes on with something else |
| JournalSoundness.LimitMeans | sentry/store.go:109-114 | the accepted frames are those that fit into a segment of their own with a payload of at most 16 MiB |
| JournalSoundness.RecoveryNoticesDamage | sentry/store.go:137-149 | no frame with a damaged byte outside its length field is taken for a record |
| JournalSoundness.ReadNoticesDamage | sentry/store.go:248-259 | reading a record notices any single damaged byte of its frame |
| JournalLayout.RecoveryOutcome | sentry/store.go:67-160 | for every journal and every cut of its last segment, whatever the payload sizes: corruption at the end of the last acceptable frame of the first earlier segment that holds an oversized one, and otherwise the records before the cut and before the first oversized one |
| JournalLayout.CrashRecovery | sentry/store.go:67-160 | recovery after any cut of the last segment rebuilds exactly the keydir of the records wholly on disk and truncates to their end, if and only if those records are within the recovery limit |
| JournalLayout.UniqueParsing | sentry/record.go:29-42 | the format is uniquely decodable: two lists of frames with the same bytes are the same list |
| JournalLayout.RecoverTwice | sentry/store.go:67-160 | for every disk that recovers, whatever its bytes, a second recovery gives the same keydir and changes no file |
| JournalLayout.TornEarlierSegment | sentry/store.go:104-105 | a torn tail in an earlier segment is always reported as corruption: at the end of the last frame accepted there, or in a segment before it that holds an oversized payload |
| JournalLayout.ReopensInFullIff | sentry/store.go:108-123 | a cleanly closed journal reopens in full if and only if every payload is within the recovery limit, which Append does not check |
| JournalRuns.OversizedWitness | sentry/store.go:202-210 | with a 30-byte segment limit a representable record with a four-byte payload is appended and synced, and a run of these two steps ends, after recovery, without it |
| JournalLayout.ReadBackFrame | sentry/store.go:248-268 | reading the bytes of a frame returns its record |
| JournalLayout.KeydirPoints | sentry/store.go:151-152 | the keydir has one location per record, in order, each pointing at that record's frame |
| JournalRuns.HistoryOfAppended | sentry/store.go:202-227 | an append adds one frame to the history and one location at the place where it is written, with or without rotation |
| JournalRuns.DiskOfAppended | sentry/store.go:202-221 | the bytes of the frame go to the end of the last file, or into a new one exactly when it would exceed the segment limit |
| JournalRuns.AlwaysFits | sentry/store.go:202-210 | in every run a segment exceeds the limit only when it holds a single frame |
| JournalRuns.AppendKeepsSynced | sentry/store.go:183-230 | an append keeps every synced record unchanged and in place |
| JournalRuns.CrashSucceedsIff | sentry/store.go:67-160 | opening after a crash succeeds if and only if every payload of the earlier segments is within the recovery limit |
| JournalRuns.CrashKeepsFirst | sentry/store.go:67-160 | a crash that leaves at least the synced bytes, and recovery of what is on disk, keep the first m synced records if and only if these are within the recovery limit |
| JournalRuns.CrashKeepsSynced | sentry/store.go:67-160 | the same of all synced records |
| JournalRuns.SyncedRecordsSurvive | sentry/store.go:183-230 | over whole runs of appends of any size, rotations, crashes and recoveries of the actual disk, records once synced, within the recovery limit, are at every later point in the journal at the same numbers |
| JournalRuns.BoundedRunsSurvive | sentry/store.go:183-230 | in a run that appends only payloads within the limit every synced record survives, and no recovery fails |
| Journal.Store.Recover | sentry/store.go:67-160 | the loops over files and bytes compute the specified recovery, and on a disk of any content the keydir points at the frames that the files start with, or the place of corruption is where one of them stops |
| Journal.Store.ReadSegment | sentry/store.go:89-154 | the inner loop finds the file's longest run of acceptable frames, where it ends, and whether anything follows |
| Journal.Store.OpenSegment | sentry/store.go:162-181 | the segment exists afterwards and appends go to its end |
| Journal.Store.Open | sentry/store.go:42-65 | opening any crashed journal fails if and only if an earlier segment holds an oversized payload, with the corruption's place; otherwise it leaves a store whose history is the records that recovery finds; an empty directory gives an empty store |
| Journal.Store.Append | sentry/store.go:183-230 | the history grows by exactly this record, under the returned number, as one step of a run; a payload within the limit keeps the journal within it |
| Journal.Store.Read | sentry/store.go:232-269 | every number of the history reads back its original record and every other number is not found |
| Journal.Store.Scan | sentry/store.go:282-302 | a scan hands over exactly the records that match the filter, in order, up to and including the first at which the callback stops it |
| Journal.MatchingPositions | sentry/store.go:290-295 | the matching records are those of the asked tenant and of the asked type, each at its place |
| Journal.StopsAtFirst | sentry/store.go:296-299 | a scan hands over a prefix of these, all of them or up to the first at which the callback stops |
| Journal.Store.CrashAndReopen | sentry/store.go:42-160 | after a crash that keeps the synced bytes: whether reopening succeeds, that the store then holds a prefix of the history, and that it contains every synced record if and only if these are within the recovery limit, as they are when only such records were appended |
| ChannelStore.Store.constructor | comms/comms.go:147-270 | the successive passes over the journal end in exactly the state that it describes at that time: live unexpired messages in order, pins, task states |
| ChannelStore.Store.Post | comms/comms.go:280-304 | refusals, the appended record, the index entry, the seeded task and the pruning; the invariant is kept |
| ChannelStore.Store.PostImage | comms/comms.go:309-326 | as for Post, with the kind forced to image and no task |
| ChannelStore.Store.Clear | comms/comms.go:345-367 | drops exactly the tenant's messages of the area before the clear, keeps their task states, counts them |
| ChannelStore.Store.PruneAt | comms/comms.go:432-465 | marking from the newest and compacting the slice in place leaves the specified survivors and drops the tasks of the others |
| ChannelStore.Store.Pin | comms/comms.go:483-507 | pins and unpins one tenant's hold on a blob |
| ChannelStore.Store.LiveBlobIDs | comms/comms.go:512-527 | exactly the blobs of indexed messages and those that the journal's last pin events leave held by some tenant |
| ChannelStore.Store.Read | comms/comms.go:370-380 | exactly the tenant's messages of the area beyond the cursor, in order |
| ChannelStore.Store.Inbox | comms/comms.go:385-395 | exactly the tenant's messages for the target beyond the cursor, in order |
| ChannelEffects.PostMeans | comms/comms.go:280-304 | refused exactly without area, sender or text; otherwise the payload is recorded and indexed as given, an empty kind as note, and is never dropped by the pruning that follows |
| ChannelEffects.PostTasks | comms/comms.go:296-299 | exactly a posted task gets a state: pending, held by nobody, with its message's deadline |
| ChannelEffects.PostImageMeans | comms/comms.go:309-326 | as for a post, with the kind image and no task |
| ChannelEffects.ClearMeans | comms/comms.go:345-367 | exactly the tenant's messages of the area are gone, all others stay in order |
| ChannelEffects.PinMeans | comms/comms.go:483-507 | the tenant's hold on the blob is as asked for and no other hold changes |
| ChannelEffects.RetentionMeans | comms/comms.go:432-465 | a message is kept exactly when it is young enough and has fewer than N young newer ones of its tenant |
| ChannelEffects.ResolveMeans | comms/state.go:67-92 | exactly the holder or the owner closes a known task, as cancelled when asked for and as done otherwise |
| ChannelEffects.SweepOutcome | comms/sweep.go:53-82 | what becomes of a task in each status, with its lease over or not and its deadline missed or not |
| ChannelEffects.NudgesMean | comms/sweep.go:63-79 | one nudge for a lease that is over and one for a task that becomes overdue |
| ChannelEffects.SweepIndex | comms/sweep.go:84-99 | no expired message stays, and without retention every other does |
| ChannelEffects.RebuildMeans | comms/comms.go:147-220 | a message is rebuilt exactly when no later clear of its tenant and area covers it and it has not expired |
| ChannelEffects.LastEventWins | comms/state.go:178-203 | a task's replayed state is the one of its last event |
| ChannelEffects.LastPinWins | comms/comms.go:222-248 | a blob is held by a tenant exactly when the tenant's last pin event for it is a pin |
| ChannelStore.Store.SetRetention | comms/comms.go:419-425 | sets both bounds and prunes at once |
| ChannelStore.Store.Claim | comms/state.go:38-61 | granted if and only if the task is known, neither done nor cancelled, and pending, past its lease or held by the claimant; the new lease, and state and journal changing together or not at all |
| ChannelStore.Store.Resolve | comms/state.go:67-92 | succeeds if and only if the agent is the holder or the owner and the state is known; the previous state is not asked about |
| ChannelStore.Store.SweepOnce | comms/sweep.go:36-103 | the loop over tasks, the drop of expired messages and the pruning compute the specified sweep and its nudges |
| ChannelStore.Store.SweepTask | comms/sweep.go:57-80 | one round: lease expiry, then the deadline, each with its journal event and nudge; a failed lease event skips the deadline |
| ChannelIndex.PrunedPerTenant | comms/comms.go:427-465 | of each tenant exactly the last N messages inside the age bound survive, whatever other tenants have posted |
| ChannelIndex.PrunedTwice | comms/comms.go:432-465 | pruning again at the same time removes nothing |
| ChannelIndex.SortedUnique | comms/comms.go:192-194 | an index in number order is determined by the set of its numbers |
| ChannelInvariant.TaskChange | comms/state.go:50-60 | logging a task's new state and storing it keeps every in-memory state equal to its replay |
| ChannelInvariant.SweepConsistent | comms/sweep.go:36-103 | after a sweep, failed appends or not, replaying the journal gives every task's in-memory state |
| ChannelInvariant.RebuildConsistent | comms/state.go:178-203 | a rebuilt store satisfies the invariant of the live one |
| ChannelRuns.AlwaysConsistent | comms/comms.go:254-263 | after every operation of every run each indexed task message has a task state, and each state is what the journal's events add up to |
| ChannelRuns.LeaseSafety | comms/state.go:38-61 | once a task is granted to an agent until L, and until it is granted to it again, no other agent's claim succeeds at a time up to L, whatever sweeps, failed appends, clears and restarts intervene |
| ChannelLeases.ClaimGrantedIff | comms/state.go:49-51 | exactly the claims that are granted, status by status |
| ChannelLeases.LeasesEnd | comms/state.go:38-61 | after a grant until L, and until the next grant or resolve, every claim after L is granted to anybody, and every claim of the holder at any time, whatever sweeps, missed deadlines, failed appends, clears and restarts intervene, while the task is in memory |
| ChannelLeases.NewTasksAreFree | comms/state.go:38-61 | a task that was never granted or resolved since it was posted can be claimed by anybody, overdue or not |
| ChannelRuns.StepKeepsSafe | comms/sweep.go:53-82 | no single operation can free or hand over a leased task before its lease is over |
| ChannelRuns.ClosedForever | comms/state.go:38-92 | a done or cancelled task is never claimed again in any run and stays done or cancelled |
| ChannelRebuild.RebuildRefinesLive | comms/comms.go:147-270 | in any run without retention a restart yields the unexpired index in the same order, the same pins, and for the tasks still indexed exactly the live states |
| ChannelRebuild.RebuiltIndex | comms/comms.go:147-220 | the rebuilt index equals the live one, times aside, message by message |
| ChannelRebuild.RebuiltTasks | comms/comms.go:254-266 | a task is rebuilt if and only if it is live and its message is still indexed, and then with the same state |
| ChannelRebuild.RebuildKeepsLive | comms/comms.go:147-270 | with or without retention, no unexpired message in memory is lost by a rebuild |
| ChannelSweep.SweepTasksClosed | comms/sweep.go:53-82 | a sweep maps every task state by one function of the state and the time |
| ChannelSweep.SweepOrderIrrelevant | comms/sweep.go:36-103 | every map-iteration order gives the same tasks, the same index and the same multiset of nudges |
| ChannelSweep.SweepNudges | comms/sweep.go:63-79 | each indexed task message is nudged once per transition of its task, no other message at all |
| ChannelSweep.SweepTwice | comms/sweep.go:36-103 | a second sweep at the same time appends nothing, gives no nudge and changes nothing |
| Wakeup.Hub.Subscribe | comms/hub.go:59-66 | a fresh id and an empty slot; other subscribers are untouched |
| Wakeup.Hub.Cancel | comms/hub.go:66-78 | removes this subscriber only, any number of times |
| Wakeup.Hub.Publish | comms/hub.go:85-98 | exactly the tenant's subscribers to the message's target or area have a nudge afterwards, the message's own where there was none; no other slot changes |
| Wakeup.FilterMatches | comms/hub.go:26-39 | true exactly for the filter's tenant and its non-empty target or one of its areas |
| Wakeup.MatchingSince | comms/hub.go:108-118 | the highest number beyond the cursor of a message of the tenant for the target or in one of the areas, 0 when there is none |
| Wakeup.NoLostWakeup | cmd/sentrymcp/main.go:568-579 | in every interleaving a matching message beyond a cursor has its publish in flight, a nudge buffered, or a catch-up or read owed |
| Wakeup.AlwaysInv | comms/hub.go:80-98 | in every run: whatever is indexed beyond a cursor is under way, whatever is behind it has been read |
| Wakeup.QuietMeansRead | comms/hub.go:80-98 | a subscriber with nothing under way has read every matching indexed message after its starting cursor |
| Wakeup.CatchUpFirstLoses | cmd/sentrymcp/main.go:568-573 | a run of the protocol with catch-up and registration swapped ends with a matching message unread and nothing under way |
| WakeupChannel.OpIsProtocol | comms/comms.go:280-326 | every operation of the store is, for the hub, a commit of the posted message under the journal's next number, beyond all earlier ones, and then an eviction |
| WakeupChannel.ReadAll | comms/comms.go:370-395 | reading the inbox and the subscribed areas beyond the cursor finds exactly the messages that the filter wakes for |
| WakeupChannel.NoPostLost | comms/comms.go:280-304 | over every interleaving of the store's operations, sweeps, prunings and restarts with the hub and its subscribers, a message of the subscriber's tenant in the store's own index, for its target or in one of its areas and beyond its cursor, is under way |
| WakeupChannel.QuietHasRead | comms/hub.go:80-98 | in those runs a subscriber with nothing under way for a message has read it |
| RpcMux.RpcSafety | providerbroker/codex_session.go:189-330 | in every interleaving no send can block, each reply channel is sent to at most once, and a call receives only its own reply or the death notice |
| RpcMux.SendNeverBlocks | providerbroker/codex_session.go:217-251 | whoever holds a call finds its channel empty |
| RpcMux.AlwaysInv | providerbroker/codex_session.go:189-330 | every registered call is in exactly one of the map, the reader's hand, the death path's list, or answered |
| RpcMux.NeverForgotten | providerbroker/codex_session.go:294-329 | a waiting call is in the map or has an enabled step that serves it, and can return at once when the death path has finished |
| RpcMux.NoneRegistersAfterDeath | providerbroker/codex_session.go:270-277 | after death has begun a call that tries to register returns the death error and the map stays empty |
| Vectors.SquaredDistance | ivf/coarse.go:12-19 | the accumulator loop is the squared Euclidean distance |
| Vectors.SqL2Concat | ivf/coarse.go:10-19 | squared distances add up over subvectors |
| Vectors.SqL2One | ivf/coarse.go:10-19 | in one dimension the distance is the square of the difference |
| Vectors.SqL2Zero | ivf/coarse.go:10-19 | vectors are at distance 0 exactly when they are equal |
| Vectors.SubShifts | ivf/ivf.go:210-216 | from a difference a - b to c is as far as from a to the sum of b and c |
| Vectors.ArgMinIsLeast | ivf/coarse.go:21-31 | the running minimum is the least distance and, among equals, the lowest index |
| Vectors.Nearest | ivf/coarse.go:23-31 | the loop finds that index |
| TopK.RankUnique | ivf/heap.go:47-59 | a list of distances has one distance at each rank |
| TopK.MaxHeap.Push | ivf/heap.go:15-26 | keeps the heap order and adds exactly one element |
| TopK.MaxHeap.ReplaceTop | ivf/heap.go:28-45 | keeps the heap order and exchanges exactly the greatest element |
| TopK.MaxHeap.DrainAscending | ivf/heap.go:49-59 | a permutation of the heap, ascending by distance and then position |
| TopK.MaxHeap.Offer | ivf/index.go:186-190 | after one more candidate the heap still holds k closest of all candidates seen |
| TopK.RootIsGreatest | ivf/heap.go:9-11 | the root of a heap is a greatest element |
| TopK.BoundedSelection | ivf/heap.go:47-59 | for any stream of distinct candidates: min(k, scanned) distinct results from the stream whose distances are, rank by rank, the smallest |
| ProductQuantizer.EncodingIsBest | pq/pq.go:95-110 | choosing each subspace separately attains the least distance over all codes |
| ProductQuantizer.Encode | pq/pq.go:95-110 | the loop computes that code, and the byte conversion loses nothing |
| ProductQuantizer.DistanceTable | pq/pq.go:145-157 | the table filled row by row holds every piece-to-centroid distance |
| ProductQuantizer.LookupsAddUp | internal/lab/lab.go:247-264 | the lookups of a code add up to the distance to the code's reconstruction |
| ProductQuantizer.Adc | internal/lab/lab.go:248-254 | M lookups and additions give exactly the distance to the reconstruction |
| ProductQuantizer.Search | pq/pq.go:167-185 | the topK codes nearest by distance to their reconstructions, each position once, in no promised order among equal distances |
| Codebooks.Train | pq/pq.go:55-92 | error cases; every codebook is learned from its own slice of coordinates of the training vectors, with min(K, n) centroids; the quantizer is usable if and only if there were at least K vectors; only the first vector's length is checked, longer ones are cut |
| Codebooks.TryEncode | pq/pq.go:95-110 | encoding with any trained quantizer reads past the end if and only if some codebook has fewer than K centroids, and otherwise gives the specified code |
| Codebooks.TwoCentroidsFromOneVector | pq/pq.go:55-110 | training two centroids on one vector succeeds, and encoding that vector reads past the end |
| KMeansCost.MeanIsBest | ivf/kmeans.go:53-62 | no vector serves a cell better than the mean of its points |
| KMeansCost.NearestIsCheapest | ivf/kmeans.go:34-39 | no assignment costs less than nearest centroids |
| KMeansCost.UpdateIsCheaper | ivf/kmeans.go:53-62 | moving the centroids never raises the cost, wherever empty cells are reseeded |
| KMeansCost.LloydNeverWorse | ivf/kmeans.go:32-67 | an iteration never raises the cost of any assignment it starts from, nor the distortion |
| KMeans.Iterate | ivf/kmeans.go:32-67 | the loops assign every point to its nearest centroid, move every centroid to its mean or reseed it, report a change exactly when there was one, and the cost does not rise |
| KMeans.Accumulate | ivf/kmeans.go:41-52 | counts and sums per cell |
| KMeans.Cluster | pq/kmeans.go:28-87 | min(k, n) centroids, reached from k-means++ seeds by iterations that move each to the mean of its nearest points, as many as allowed or until the assignment repeats, with a distortion at most that of the seeds |
| KMeans.Refresh | ivf/kmeans.go:102-108 | comparing with the newest seed only keeps every distance to the nearest seed and their sum exact |
| KMeans.Pick | ivf/kmeans.go:90-98 | the chosen point is where the running total first reaches a target below the sum |
| KMeans.ReachableIff | ivf/kmeans.go:90-98 | a point can be drawn if and only if it is away from every seed or is the first point |
| KMeans.DrawnIff | ivf/kmeans.go:90-98 | as long as some point is no seed, the next seed is such a point or the very first point |
| KMeans.FirstDrawnAgain | ivf/kmeans.go:90-98 | with points 0 and 1 and seed 0 the first point, at distance 0, can be drawn again |
| KMeans.Seed | ivf/kmeans.go:73-111 | k seeds, each a point drawn with respect to the seeds before it |
| IndexLayout.ListsPartition | ivf/index.go:34-36 | the inverted lists partition the positions: each once, in the list of its own cell, ascending |
| IndexLayout.ByHashInverts | ivf/index.go:34-36 | the hash map and the entries are inverse to each other |
| IndexLayout.ProbeCells | ivf/engine.go:11-34 | exactly the cells that fewer than nprobe others precede by distance and index, min(nprobe, cells) of them, in that order |
| IndexLayout.ScanIsCandidates | ivf/index.go:177-192 | walking the lists of the probed cells meets each stored vector of a probed cell exactly once, with its own estimate |
| VectorIndex.KeptMeans | ivf/index.go:149-163 | adding a batch moves nothing, stores every new hash once and nothing else |
| VectorIndex.AddTwice | ivf/index.go:111-114 | adding the same batch again stores nothing |
| VectorIndex.Index.constructor | ivf/index.go:75-87 | an index over trained cells and codebooks is empty and valid |
| IndexTraining.Subsample | ivf/ivf.go:69-83 | min(m, n) of the points, none drawn more often than it occurs |
| IndexTraining.Residuals | ivf/engine.go:69-72 | coordinate by coordinate the vector less a centroid that no other is closer than |
| IndexTraining.TrainResidual | ivf/engine.go:53-86 | cells learned from a sample of the vectors, each codebook from its slice of a sample of the residuals; cells and codebooks fit together if and only if that sample has at least K vectors |
| IndexTraining.TrainIndex | ivf/index.go:75-87 | an empty learn set is refused, and so are a dimension that M does not divide and a K that is no byte; otherwise the index is empty, its cells and codebooks are learned as above, and it is valid if and only if the residual sample has at least K vectors |
| IndexDecoding.EstimateIsDistance | ivf/index.go:177-192 | the estimate of an entry is the squared distance from the query to its cell's centroid plus what its code reconstructs |
| IndexDecoding.DecodedAt | cmd/ivfsweep/main.go:219 | that vector coordinate by coordinate |
| IndexDecoding.HandleIsBest | ivf/index.go:135-147 | the closest cell, the first of equals, and a code that decodes as close to the vector as any code of that cell |
| VectorIndex.Index.Add | ivf/index.go:115-164 | stores each vector unless its hash is there, in its closest cell under a code that none of the cell beats, reports which, and keeps lists and maps exact |
| VectorIndex.Index.Load | ivf/persist.go:32-51 | rebuilds both maps as they were, so a saved index is valid again |
| VectorIndex.Index.Search | ivf/index.go:176-199 | the best topK of the vectors in probed cells, each at the distance from the query to what its code stands for, ties by position |
| VectorIndex.Index.SearchTiered | ivf/index.go:201-242 | rank by rank the distances of the true topK over exact distances of indexed residents and estimates of scanned others, no entry twice; plain Search when the tier is empty |
| IndexMeaning.PoolMeans | ivf/index.go:201-242 | what a tiered search chooses from: indexed residents at their exact distance, and scanned others at the distance to what they stand for |
| VectorIndex.TieredRanks | ivf/index.go:214-217 | fetching topK plus the size of the tier always suffices |
| IndexSearch.EnoughLeft | ivf/index.go:214-217 | at most as many candidates are removed as the tier has residents |
| VectorIndex.Index.SearchRerank | ivf/index.go:243-283 | with a depth of at least topK, the linear scan by re-scored distance and hash of the best estimates, whichever originals are at hand; with less depth the rest keeps plain Search's order; without originals the same distance at every rank; with all cells, full depth and all originals, the exact linear scan |
| IndexSearch.RerankWithoutOriginals | ivf/index.go:249-271 | when nothing is fetched every rank keeps its distance |
| VectorIndex.ExhaustiveRerank | ivf/index.go:254-283 | the exhaustive re-rank is the exact linear scan |
| IndexSearch.SortOfUnique | ivf/index.go:273-278 | with unique hashes the linear scan has exactly one answer |
| VectorIndex.Index.Recall | ivf/index.go:285-314 | nothing if and only if no entry of the own cell is within the tolerance; otherwise a closest such entry, the first stored among equals |
| IndexMeaning.NearMeans | ivf/index.go:296-302 | within the tolerance: in the vector's closest cell, with a code that differs in at most that many pieces from a best code of the vector |
| IndexMeaning.ClosestMeans | ivf/index.go:303-311 | closest by the distance from the vector to what the entries stand for |
| VectorIndex.HammingBytes | ivf/identity.go:30-38 | the loop counts the pieces in which two codes differ |
| IndexMeaning.HammingCounts | ivf/identity.go:30-38 | that count is the size of the set of differing positions |
| IndexMeaning.ByCodeIsLast | ivf/index.go:34-36 | the code map holds the last position stored under each cell and code |
| Tags.NormalizedTwice | memory/memory.go:181-202 | normalizing normalized tags changes nothing |
| Tags.NormalizedIsNormal | memory/memory.go:181-202 | the result has exactly the non-empty canonical forms, each once |
| Tags.Normalize | memory/memory.go:184-202 | the loop with its set of seen forms computes it |
| Tags.CanonicalMeans | memory/memory.go:190-191 | the tag without its leading and trailing white space, capitals turned to small letters, everything else as it was |
| Tags.FirstAppearances | memory/memory.go:184-202 | the canonical forms stand in the order in which they first appear |
| MemoryLog.TwoPassesAreLive | memory/memory.go:114-167 | adding and superseding first and forgetting afterwards gives the live entries in the same order, for every interleaving |
| MemoryLog.IdsNeverReused | memory/memory.go:130-135 | ids strictly increase over a whole journal, whatever was forgotten, superseded or restarted |
| MemoryLog.DropsCommute | memory/memory.go:172-179 | the order of two drops does not matter |
| MemoryMeaning.LiveMeans | memory/memory.go:114-167 | live after a written journal are exactly the memories that no later record of the tenant forgets or supersedes, each once, by id |
| MemoryMeaning.NextIDMeans | memory/memory.go:130-135 | the next id is 1 or one more than the largest on record |
| MemoryStore.Store.Rebuild | memory/memory.go:114-167 | fails if and only if a stored vector has the wrong dimension; on a journal the store wrote it returns the live entries and the next id |
| MemoryStore.Store.Remember | memory/memory.go:223-274 | supersede, force and the novelty gate: what is stored, dropped, journaled and answered in each case, and that failures change nothing |
| MemoryMeaning.GateMeans | memory/memory.go:231-261 | turned away exactly when not forced, the gate is on, nothing live is replaced and a live memory of the tenant is closer than the threshold |
| MemoryMeaning.GateKeepsSpread | memory/memory.go:247-261 | what the gate lets through keeps every tenant's memories at least the threshold apart |
| MemoryMeaning.DropKeepsSpread | memory/memory.go:172-179 | and so does whatever drops a memory |
| MemoryStore.FindNearest | memory/memory.go:250-261 | the tenant's closest memory, the earliest of equally close ones |
| MemoryStore.Store.Forget | memory/memory.go:281-292 | forgets exactly a live memory of the tenant and writes a tombstone only then |
| MemoryStore.DropEntry | memory/memory.go:172-179 | removes the first match, if there is one |
| MemoryStore.HasEntry | memory/memory.go:295-302 | whether the tenant has this id live |
| MemoryStore.Store.Recall | memory/memory.go:306-350 | the tenant's memories by distance and id, cut at k and at the first relevance cliff |
| MemoryMeaning.ScoresMean | memory/memory.go:322-332 | ranked are exactly the tenant's memories, each at its distance |
| MemoryMeaning.CutMeans | memory/memory.go:340-349 | cut at k, or before the first memory more than the gap times as far as the one before |
| Recency.ByRecencyMeans | internal/cache/cache.go:80-84 | recency order holds exactly the accessed items, each once, by last access |
| Recency.HeldStep | internal/cache/cache.go:88-120 | forgetting the tail before an access makes no difference to what is held after it |
| Recency.HeldByDistance | internal/cache/cache.go:80-120 | an item is held exactly when fewer different items than the capacity were accessed since it was |
| Recency.Lru.Access | internal/cache/cache.go:88-95 | a hit if and only if the item was held; the cache then holds the c most recently accessed items in recency order |
| Recency.Lru.Admit | internal/cache/cache.go:97-120 | to the front, the tail evicted beyond the capacity |
| Recency.Inclusion | internal/cache/cache.go:80-120 | a smaller cache's contents are the front of a larger one's, for every stream |
| Recency.HitsMonotone | internal/cache/cache.go:51-62 | hits never fall as capacity grows |
| Recency.Replay | internal/cache/cache.go:51-62 | the replayed hits are the accesses that find their item held |
| CachePolicies.Lfu.Access | internal/cache/cache.go:137-147 | a hit counts up; a miss on a full cache replaces the rarest item, the lowest among equals; the size is within the capacity if and only if the capacity is at least 1 |
| CachePolicies.HeldAtCapacityZero | internal/cache/cache.go:137-158 | one miss at capacity 0 leaves one item held |
| CachePolicies.Lfu.Evict | internal/cache/cache.go:149-158 | drops exactly that item in any iteration order |
| CachePolicies.Markov.Observe | internal/refine/predict.go:41-48 | the counts are the numbers of observed transitions |
| CachePolicies.ObservedCounts | internal/refine/predict.go:41-48 | a count is the number of places where the transition was seen |
| CachePolicies.TransitionsAt | internal/cache/cache.go:188-191 | the observed transitions are those from each accessed item to the next |
| CachePolicies.Markov.Predict | internal/refine/predict.go:53-72 | the k most often seen successors, lower items first among equals, and all of them when there are fewer |
| CachePolicies.MarkovPrefetch.Access | internal/cache/cache.go:186-200 | hit judged before the access, the likeliest successor of the item in front afterwards, loads counted exactly |
| CachePolicies.PrefetchMeans | internal/cache/cache.go:186-200 | the predicted item, then the accessed one, then what was held before in its order, as far as there is room |
| ExactTiers.ExactTier.AccessLru | internal/cache/tier.go:32-36 | the tier holds exactly the policy's items with their own vectors; fetches equal misses, or stay 0 at capacity 0 |
| ExactTiers.ExactTier.AccessLfu | internal/cache/tier.go:32-36 | the same over an LFU; fetches equal misses |
| ExactTiers.ExactTier.AccessMarkov | internal/cache/tier.go:32-36 | the same over the prefetching policy; fetches are at most misses plus loading prefetches |
| ExactTiers.ExactTier.Reconcile | internal/cache/tier.go:40-55 | fetches exactly what was admitted and drops what was evicted |
| ExactTiers.MarkovGrowth | internal/cache/tier.go:7-11 | one access adds at most the missed item and one loaded prediction to the membership |
| GpPrinting.ParseInvertsStr | internal/gp/gp.go:102-128 | a parser recovers any tree from its printed form, however the text continues |
| GpPrinting.StrInjective | internal/gp/gp.go:102-128 | equal printed trees are equal trees |
| GpPrinting.StringInjective | internal/gp/gp.go:191 | equal printed individuals are equal |
| GpPrinting.ItoaInverse | internal/gp/gp.go:110 | a variable's printed index is a plain token that determines the index |
| GpPrinting.Memo.Fit | internal/gp/gp.go:223-232 | always the individual's own fitness, computed at most once per individual |

## Left out

- HTTP, SSE and MCP handlers, OAuth, hooks, dashboards, the path registry, blob files and embedders: plumbing around the modelled stores.
- JSON and gob encoding: taken to be lossless, so the decode-error branches of the rebuild passes do not occur; SHA-256 and FNV are abstract.
- Journal.Store.Append: an append succeeds or leaves no trace; a write or sync that fails half way, and the ignored result of the sync before rotation, are not modelled.
- ScanReverse of the journal.
- Segment files are numbered contiguously from 0 and file-name parsing is left out; the default segment size is a parameter.
- CrcDetection.PolynomialShows: the published check value of the algorithm is not evaluated; that the table-driven algorithm is the bitwise one with this polynomial is proved.
- JournalSoundness.RecoveryNoticesDamage: damage to a length field, which decides how many bytes the checksum covers, is not shown to be noticed by recovery.
- Unsigned and signed overflow of times, ids, counters and positions: unbounded integers are used, except where the frame format or the segment limit fixes a width.
- Presence slots, GetBySeq, Get and Recent of the channel; SetLeaseTTL and SetOwnerLabel occur only as steps of runs.
- ChannelStore.Store.SweepOnce: the nested task map is one map keyed by tenant and number, and stale presence slots are not dropped.
- ChannelRebuild.RebuildRefinesLive: task states whose messages were cleared, and the index under retention, are not kept equal by the code; the statement leaves them out.
- Wakeup.NoLostWakeup: a read of several areas and the inbox is one atomic read; timers, heartbeats and delivery over the network are left out.
- RpcMux.RpcSafety: payloads, remote errors, requests from the server, notifications and the login race are left out.
- Floating-point rounding, NaN and overflow in distances, sums and means.
- The fan-out of Add, EncodeBatch, SearchBatch and Train over goroutines: read-only work whose results are taken in input order.
- VectorIndex.Index.SearchRerank: fetch is a function, so fetching the same hash twice gives the same original.
- IndexTraining.TrainIndex: all learn vectors have the dimension of the first, and there is at least one cell to train; with none the program fails at the first residual.
- KMeans.Cluster: random draws are arbitrary choices, so probabilities are not stated.
- Tags.Normalize: case and white space are the ASCII ones.
- MemoryStore.Store.Remember: the embedder's answer is a parameter; telemetry records of recalls are events of other kinds.
- Recency.Lru.Access: the capacity is a natural number; with a negative one the program's first miss indexes before the start of its order and panics.
- Recency.Lru.Admit: the same.
- CachePolicies.Lfu.Access: counters stay below the sentinel that the eviction loop starts from.
- ExactTiers.ExactTier.AccessLru: the policies' common interface is one access method per policy.
- GpPrinting.StringInjective: a constant is its printed token, taken to determine the constant, as the shortest round-trip format does; crossover, mutation, evaluation and the loop of Run are left out.
- Aliasing of slices returned to callers, and of centroid rows, is not captured: sequences are values.
- The prototype IVFADC type, internal/evolve, internal/aniso, internal/opq and the benchmark commands: duplicated or numerical experiments.
