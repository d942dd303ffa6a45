# Intersection bridge: verified model

Vehicles at an intersection agree by PBFT on who crosses when. A leader proposes an ORDER (or
a CANCEL, or a rollback) as packed bytes; each voter parses the bytes, checks them against its
own certificates, installs the PBFT membership the proposal implies, and, once the proposal is
decided, computes the crossing schedule from it. This project models that chain in Dafny and
proves what it promises, from payload bytes to crossing slots:

- **Scheduler** (`QueueOrder`, `BatchPacker`, `IntersectionScheduler`): the packing loops as
  methods over the entries, proved against a declarative schedule (`IsWorkQueue`, `IsPlan`).
  `ScheduleTheorems` and `PriorityTheorems` then prove strict lane FIFO, batch shape,
  maximality, optimality of the first ambulance, and independence of the payload order.
- **Wire formats** (`WireFormat`, `ProposalParser`): the packed records byte by byte, the parser
  as a class that fills its fields, and exactly which payloads survive a round trip.
- **Admission** (`Quorum`, `ForcedViews`, `ViewBuilders`, `PreVerify`, `GuardChecks`,
  `CancelDecisions`, `BridgeServers`): the four view builders, the view registry, every
  PreVerify check as a loop, and the executor, as a replica object whose methods are proved
  to be the steps of a state machine. `MembershipTheorems`, `AdmissionTheorems` and
  `AdmissionEffects` say, in terms of the packed fields, which memberships and proposals are
  accepted and what that leaves behind; `BridgeRuns` proves what holds over every run of the
  steps; `EndToEnd` joins admission to the schedule, and `BridgeExamples` holds the concrete
  inputs on which an expected property fails.
- **Geometry** (`SegmentGeometry`, `MovementTable`): the segment test behind the conflict table,
  over exact reals, and what a "disjoint" verdict means for vehicles sharing a batch.
- **Predictor** (`BinomialTail`) and **versioned stores** (`VersionedStore`).

Two predicates carry most theorems, and neither is empty: `BuildIntersectionSchedule` returns an
`IsSchedule` for every list of entries with distinct ids, and `OrderAcceptedIff` together with
`ExecuteData` says exactly which orders lead to an `AcceptedAndExecuted` crossing
(`ExecutedIsCrossing`).

`Sorting` models `std::sort` by its contract alone: a permutation, ordered by the comparator,
nothing said about ties. `BridgeTypes` holds the fixed-width integers and packed records.

Where the source fails to do what its comments or callers suggest, the model keeps the code and
states the exact condition:

- Three formats overlay the same bytes. A CANCEL whose epoch is reason + 1 and whose
  justification length has low byte 0 or 1 reads as a rollback header and is not recognised
  (`CancelRoundTrip`, `CollidingCancelIsLost`, `LostCancelExample`); an ORDER whose first vehicle
  has lane position 0 can be taken for a rollback (`OrderMistakenForRollback`,
  `PositionZeroExample`) and is then rejected (`MistakenOrderIsRejected`).
- An ambulance flagged in the payload but not SIGNED gets no priority, yet is not treated as a
  blocker of a certified ambulance behind it; the queue then breaks lane order, and only then
  (`QueueRespectsLanes`). PreVerify excludes this when a certificate snapshot is registered, and
  lets it through when none is (`UncertifiedAmbulanceExample`). The signed ambulance then need not
  be served in time (`DelayedAmbulanceExample`); `AmbulanceOptimal` excludes the case.
- The registry binds members per epoch, sequence number and hash, but PBFT looks a request up by
  sequence number and hash alone and takes the least epoch. A later PRE_PREPARE of a lower epoch
  therefore changes who may vote on a request and how many votes decide it: its quorums before and
  after need not meet (`QuorumShiftExample`). `AcceptedShiftsForce` and `ForceOverRun` state exactly
  when that happens, and the quorum theorems hold as long as it does not.
- Check 9, the omission guard, does not bound the certified vehicles a leader leaves out: it counts
  only those listed as QUIET. `LeftOutBound` splits them into at most f suppressed and the dropped, which have no
  bound (`DroppedVehiclesExample`).
- The crash-recovery gate covers orders only: a crash rollback to a gated epoch needs no evidence
  (`RollbackIgnoresGate`, `UngatedRollbackExample`).
- In per-epoch mode the rollback builder computes and logs a bounded fault number, but installs
  a view that lets the registry choose the largest one (`RollbackFaultsInstalled`,
  `RollbackFaultsExample`).
- The accepted-order branch for epoch 0 without a forced view reads as an unconditional handoff to
  the certified leader (resdb_omnet_bridge.cc:1774-1787), but `SetPrimary` acts only on a view
  number newer than the current one (consensus_manager_pbft.cpp:113-118). `PrimaryHandoff` states
  when the leader becomes the primary, `HandoffRefusedExample` an accepted order after which it is
  not.
- The header says that the magic number tells a cancel decision from an order
  (resdb_omnet_bridge.h:166-167); an order of the epoch that equals the magic number is taken for
  a cancel decision (`OrderTakenForCancel`, `OrderTakenForCancelExample`).
- The comments in resdb_omnet_bridge.h:176 and :184 give 48 and 44 bytes; the packed fields add
  up to 52 and 48, and the code's `sizeof` uses these.
- The two back ends differ on `GetTopHistory` with count 0 (`TopDiffersOnlyAtZero`,
  `TopZeroExample`), and LevelDB's version check ignores its own unflushed batch, so two writers
  can both succeed at one version (`LostUpdate`), which is impossible exactly if every single write
  is flushed (`OneWriterIffFlushed`, `InterchangeableIffFlushed`).

## Model

| member | source | states |
|---|---|---|
| QueueOrder.ComparatorsAreOrders | bridge/resdb_intersection_scheduler.cc:86-126 | the sort comparators are total preorders, as `std::sort` requires |
| QueueOrder.PlaceOrder | bridge/resdb_intersection_scheduler.cc:33-40 | vehicles stand by position and then by id, so of two with different ids one stands in front |
| QueueOrder.PushNew | bridge/resdb_intersection_scheduler.cc:107-112 | appends, in order, exactly the vehicles whose id is not queued and does not occur earlier in the line; the id set follows the queue |
| QueueOrder.FirstNewElements | bridge/resdb_intersection_scheduler.cc:107-112 | what is appended brings in exactly the missing ids of the line |
| QueueOrder.FirstNewPlaces | bridge/resdb_intersection_scheduler.cc:107-112 | it keeps, in order, exactly the first entry of each id that is not queued |
| QueueOrder.ServeAmbulance | bridge/resdb_intersection_scheduler.cc:95-113 | one round of the ambulance loop appends the new vehicles among the sorted blockers and the ambulance; with distinct ids these are exactly the vehicles this ambulance is the first to cover |
| QueueOrder.ServeAmbulances | bridge/resdb_intersection_scheduler.cc:93-113 | the whole loop queues exactly the ids of the signed ambulances and of the ordinary vehicles in front of one in its lane |
| QueueOrder.ServeRemaining | bridge/resdb_intersection_scheduler.cc:115-127 | appending the sorted rest yields the complete work queue |
| QueueOrder.BuildWorkQueue | bridge/resdb_intersection_scheduler.cc:82-127 | with distinct ids the queue is a permutation of the entries in strictly increasing service rank; for any entries its first part holds exactly the ids served with some signed ambulance, and behind it stand the entries of all other ids by position, id and arrival |
| QueueOrder.QueueByAmbulance | bridge/resdb_intersection_scheduler.cc:82-127 | on the entries, for any two places of the queue: the later vehicle is served with no earlier ambulance, and with a later one or none if it stands no further back; before a signed ambulance only signed ambulances in front of it and the ordinary vehicles these wait for are queued |
| BatchPacker.SomeSchedulable | bridge/resdb_intersection_scheduler.cc:42-53 | while some id is unplaced, some vehicle has all its lane predecessors placed |
| BatchPacker.NeverStuck | bridge/resdb_intersection_scheduler.cc:134-142 | with distinct ids a schedulable head is always found |
| BatchPacker.ScanSaturates | bridge/resdb_intersection_scheduler.cc:168-187 | with distinct ids, after one pass over the queue nobody in it can still join the batch |
| BatchPacker.ScanIdle | bridge/resdb_intersection_scheduler.cc:168-187 | a pass over a saturated batch adds nothing, so the do/while stops after it |
| BatchPacker.ScanCompatible | bridge/resdb_intersection_scheduler.cc:55-62 | members admitted one at a time are pairwise safe and never QUIET |
| BatchPacker.FillBatch | bridge/resdb_intersection_scheduler.cc:168-187 | for any entries the passes end when nobody queued can join, with pairwise safe members; with distinct ids the result equals a single scan from the head |
| BatchPacker.PassesSettle | bridge/resdb_intersection_scheduler.cc:168-187 | with distinct ids every pass after the first is idle |
| BatchPacker.FormBatch | bridge/resdb_intersection_scheduler.cc:153-187 | the head opens the greedy batch of `IsGreedyBatch`, with distinct ids that of a single scan |
| BatchPacker.PlaceLeftovers | bridge/resdb_intersection_scheduler.cc:142-151 | the fallback appends one batch of one vehicle for each id not yet placed, in payload order, the first entry of the id standing for it |
| BatchPacker.FallbackBatches | bridge/resdb_intersection_scheduler.cc:142-151 | so, in every plan with the fallback, behind the greedy batches come the first entries of the unplaced ids alone, in payload order |
| BatchPacker.GreedyConflict | bridge/resdb_intersection_scheduler.cc:168-187 | ids repeated or not: a vehicle of another id that is not QUIET and whose lane is clear is kept out of a batch only by a conflict with its head or with a member queued before it |
| BatchPacker.PackBatches | bridge/resdb_intersection_scheduler.cc:129-190 | for any entries: terminates, places every id exactly once, never batches conflicting movements, and its batches are the greedy ones followed, if and only if two entries share an id, by the fallback's single vehicles; with distinct ids each batch is a single scan |
| ScheduleTheorems.SlotUnique | bridge/resdb_intersection_scheduler.cc:192-200 | each vehicle has exactly one batch index |
| ScheduleTheorems.EveryoneScheduled | bridge/resdb_intersection_scheduler.cc:134-190 | every vehicle is in some batch |
| ScheduleTheorems.PlacedMeans | bridge/resdb_intersection_scheduler.cc:188-189 | the ids that count as placed are those of the vehicles in earlier batches |
| ScheduleTheorems.StrictFifo | bridge/resdb_intersection_scheduler.cc:42-53 | vehicles of one lane cross in strictly increasing batches, front-most first |
| ScheduleTheorems.SafePairFacts | bridge/resdb_intersection_scheduler.cc:12-27 | the table admits exactly the straight and right movements of two different lanes, a straight one only with the opposite lane; it is symmetric |
| ScheduleTheorems.CompatibleShape | bridge/resdb_intersection_scheduler.cc:12-27 | pairwise-safe vehicles number at most four, and three or more all turn right |
| ScheduleTheorems.BatchShape | bridge/resdb_intersection_scheduler.cc:153-190 | every batch has one to four pairwise-safe members, only right turns from three on; QUIET, left-turning and unknown-direction vehicles, and everyone in singleton mode, cross alone |
| ScheduleTheorems.ClosedBatchesAreMaximal | bridge/resdb_intersection_scheduler.cc:168-189 | a later non-QUIET vehicle whose lane predecessors are placed conflicts with a member of the closed batch |
| ScheduleTheorems.HeadIsFirst | bridge/resdb_intersection_scheduler.cc:134-140 | a batch is headed by the first queued vehicle that is not placed and has everybody in front of it in its lane placed |
| ScheduleTheorems.JoinOrder | bridge/resdb_intersection_scheduler.cc:168-186 | behind the head, members stand in queue order |
| ScheduleTheorems.EarlierConflict | bridge/resdb_intersection_scheduler.cc:168-186 | a waiting non-QUIET vehicle with its lane clear stays out of an open batch only by a conflict with the head or with a member queued before it |
| ScheduleTheorems.JoinsIff | bridge/resdb_intersection_scheduler.cc:168-186 | exactly who joins an open batch, by recursion on the queue: non-QUIET, not placed, lane clear, and safe with the head and with every member queued before |
| ScheduleTheorems.LaneDepthBound | bridge/resdb_intersection_scheduler.cc:42-53 | any assignment that keeps lane order gives a vehicle at least as many slots in front as there are vehicles ahead of it |
| ScheduleTheorems.ScheduleLength | bridge/resdb_intersection_scheduler.cc:134-192 | longest lane <= number of batches <= number of vehicles |
| PriorityTheorems.QueueRespectsLanes | bridge/resdb_intersection_scheduler.cc:93-127 | the queue keeps lane order if and only if no unsigned ambulance stands in front of a signed one in its lane |
| PriorityTheorems.QueueIndexBound | bridge/resdb_intersection_scheduler.cc:134-140 | the i-th queued vehicle crosses in batch i or earlier, as far as the queue keeps lane order |
| PriorityTheorems.HeadsByRank | bridge/resdb_intersection_scheduler.cc:134-140 | if the queue keeps lane order, then while a vehicle waits every batch is headed by it, or by one served with no later ambulance, and with an earlier one if it stands no further forward |
| PriorityTheorems.AmbulanceOptimal | bridge/resdb_intersection_scheduler.cc:82-190 | the signed ambulance of least position and id, if no unsigned ambulance stands in front of it: its batch index equals the number of vehicles ahead of it in its lane, in both modes, and no lane-FIFO slot assignment is earlier |
| PriorityTheorems.NeverEarly | bridge/resdb_intersection_scheduler.cc:42-53 | without any condition, no vehicle has a smaller batch index than there are vehicles ahead of it |
| BridgeExamples.DelayedAmbulanceExample | bridge/resdb_intersection_scheduler.cc:95-113 | with an unsigned ambulance in front the index can exceed that number: one vehicle ahead, third batch at the earliest |
| PriorityTheorems.WorkQueueUnique | bridge/resdb_intersection_scheduler.cc:82-127 | permuted entries have the same work queue |
| PriorityTheorems.ScheduleAgreement | bridge/resdb_intersection_scheduler.cc:82-190 | permuted entries give the same batches |
| IntersectionScheduler.IdSlotIsBatchIndex | bridge/resdb_intersection_scheduler.cc:193-200 | looking a slot up by id finds the vehicle's own batch |
| IntersectionScheduler.FillDecisions | bridge/resdb_intersection_scheduler.cc:193-200 | entry i gets the batch that holds its id, in payload order |
| IntersectionScheduler.EmitOrder | bridge/resdb_intersection_scheduler.cc:202-212 | the emitted bytes are the packed header and decisions |
| IntersectionScheduler.BuildIntersectionSchedule | bridge/resdb_intersection_scheduler.cc:66-215 | for any entries: terminates, at most one batch per entry, safe batches that follow the greedy plan with its fallback, every entry's decision names the batch holding its id, `ambulance_lane` is that of the first signed ambulance; for distinct ids the batches are a schedule |
| WireFormat.WordUnique | bridge/resdb_omnet_bridge.h:94-206 | four bytes are determined by the little-endian word they read as |
| WireFormat.LittleEndian | bridge/resdb_omnet_bridge.h:94-206 | integers lie low byte first, signed ones in two's complement |
| WireFormat.EntryRoundTrip | bridge/resdb_omnet_bridge.h:95-105 | a packed vehicle entry reads back field by field at any offset |
| WireFormat.EntriesRoundTrip | bridge/resdb_omnet_bridge.h:107-113 | so does a run of entries |
| WireFormat.EntryBytes | bridge/resdb_omnet_bridge.h:95-105 | at which byte of the i-th entry a receiver finds each field |
| WireFormat.HdrFields | bridge/resdb_omnet_bridge.h:107-119 | where each proposal header field lies, also as the words the other formats read there |
| WireFormat.OrderRoundTrip | bridge/resdb_omnet_bridge.h:186-205 | a receiver recovers the decision from the order bytes whatever trailer follows |
| WireFormat.OrderBytes | bridge/resdb_omnet_bridge.h:184-206 | which bytes a receiver reads the decision from: exactly those of a header of 12 bytes and 8 bytes per vehicle |
| ProposalParser.CancelIsNeverAnOrder | bridge/resdb_omnet_bridge.cc:57-122 | no byte string passes the cancel prefix and also parses as a normal or rollback proposal |
| ProposalParser.CancelBytes | bridge/resdb_omnet_bridge.cc:96-122 | exactly which byte strings are cancels, by offset, tag bytes included |
| ProposalParser.CancelTailBytes | bridge/resdb_omnet_bridge.cc:69-94 | where the tail holds leader, count (at most 10000) and electors |
| ProposalParser.RollbackBytes | bridge/resdb_omnet_bridge.cc:124-159 | exactly which byte strings are rollbacks |
| ProposalParser.NormalBytes | bridge/resdb_omnet_bridge.cc:124-159 | exactly which are ordinary orders: those that parse as one and are not rollbacks |
| ProposalParser.OrderBytesParse | bridge/resdb_omnet_bridge.cc:57-67 | exactly which byte strings parse as an order: 20 bytes, and 22 for each of at most 10000 vehicles |
| ProposalParser.ProposalView.ParseCancelTail | bridge/resdb_omnet_bridge.cc:69-94 | succeeds exactly on a complete tail, which it then holds; fails without touching leader and electors |
| ProposalParser.ProposalView.LooksLikeCancelProposal | bridge/resdb_omnet_bridge.cc:96-122 | true exactly on cancel prefix plus complete tail; `kind` is already set to cancel when only the tail is bad |
| ProposalParser.ProposalView.UnwrapRollbackIfPresent | bridge/resdb_omnet_bridge.cc:124-159 | succeeds exactly on the payloads classified by the formats, and all its fields then describe that one reading |
| ProposalParser.CancelRoundTrip | bridge/resdb_omnet_bridge.cc:96-122 | a sent cancel comes back, and is taken for a cancel at all, if and only if the reason is known, the justification begins with the tag, at most 10000 electors are named, and not (epoch = reason + 1 with length low byte at most 1) |
| ProposalParser.CollidingCancelIsLost | bridge/resdb_omnet_bridge.cc:108-159 | a colliding cancel below one gigabyte is recognised as nothing |
| ProposalParser.LostCancelExample | bridge/resdb_omnet_bridge.cc:108-159 | a concrete such cancel, of epoch 1 with a 256-byte justification |
| ProposalParser.RollbackRoundTrip | bridge/resdb_omnet_bridge.cc:124-159 | a sent rollback comes back if and only if reason, successor epoch, inner epoch and count are in order |
| ProposalParser.NormalRoundTrip | bridge/resdb_omnet_bridge.cc:57-67 | a sent order comes back if and only if it names at most 10000 vehicles and the rollback branch does not claim it |
| ProposalParser.OrderRecognised | bridge/resdb_omnet_bridge.cc:57-159 | at any propose time, an order comes back if and only if it names at most 10000 vehicles and its time, epoch, leader and the words behind the skipped high time word do not spell a rollback |
| ProposalParser.OrderMistakenForRollback | bridge/resdb_omnet_bridge.cc:135-158 | below 2^32 microseconds the rollback branch claims an order if and only if its time, epoch, leader, count, first entry's flags and length line up as listed in `Mistakable` |
| ProposalParser.OrdersComeBack | bridge/resdb_omnet_bridge.cc:124-159 | orders with a first lane position of at least 1 proposed before 2^32 microseconds parse as sent, entries included; so do later ones unless the time's low byte is 0 or 1 and the epoch follows the leader id |
| ProposalParser.MistakenOrder | bridge/resdb_omnet_bridge.cc:154-158 | a mistakable order reaches the voters as a rollback |
| EndToEnd.MistakenOrderIsRejected | bridge/resdb_omnet_bridge.cc:161-176 | and every guarded replica rejects it, its justification being empty |
| ProposalParser.PositionZeroExample | bridge/resdb_omnet_bridge.cc:135-158 | a concrete one-vehicle order of that kind |
| Quorum.SizingsAgree | experiments/shared/bft_quorum.py:5-13 | the experiments' `q` and the bridge's quorum agree on every positive membership, errors included |
| Quorum.QuorumIsLeast | experiments/shared/bft_quorum.py:16-18 | the quorum is the least vote count with guaranteed overlap above f, and never more than n - f |
| Quorum.QuorumExists | incubator-resilientdb/platform/consensus/ordering/pbft/omnet_forced_view.h:18-24 | the sizing throws exactly if a non-empty membership does not support f |
| Quorum.QuorumsIntersect | incubator-resilientdb/platform/consensus/ordering/pbft/omnet_forced_view.h:18-24 | any two quorums of one membership share at least f + 1 members, also when sized with different f |
| Quorum.NoTwoDecisions | incubator-resilientdb/platform/consensus/ordering/pbft/omnet_forced_view.h:18-24 | if at most f members vote twice, two proposals cannot both reach a quorum |
| ForcedViews.CandidateNormalizes | incubator-resilientdb/platform/consensus/ordering/pbft/omnet_forced_view.h:157-168 | what the builders return is normalised without throwing, changing only f and quorum, into a well-formed view |
| ForcedViews.NormalizeMeans | incubator-resilientdb/platform/consensus/ordering/pbft/omnet_forced_view.h:157-168 | normalising any view lists each member once in increasing order, settles f and takes the least quorum, and throws exactly if the members do not support f |
| ForcedViews.ForcedViewRegistry.InstallPending | incubator-resilientdb/platform/consensus/ordering/pbft/omnet_forced_view.h:55-61 | parks the normalised view under its hash; if normalising throws nothing changes |
| ForcedViews.ForcedViewRegistry.InstallForRequest | incubator-resilientdb/platform/consensus/ordering/pbft/omnet_forced_view.h:63-89 | binds the view exactly when the request has a hash and no other membership is bound; otherwise nothing changes |
| ForcedViews.ForcedViewRegistry.FindForRequest | incubator-resilientdb/platform/consensus/ordering/pbft/omnet_forced_view.h:91-132 | returns the exact match of least epoch, else promotes the pending view to the sequence number |
| ForcedViews.LeastKey | incubator-resilientdb/platform/consensus/ordering/pbft/omnet_forced_view.h:101-110 | among the views bound to a sequence number and hash the lookup takes one of least epoch |
| ForcedViews.InForceMeans | incubator-resilientdb/platform/consensus/ordering/pbft/omnet_forced_view.h:91-132 | exactly which view is in force: the least epoch bound to sequence number and hash, else the pending one |
| ViewBuilders.CollectMembers | bridge/resdb_omnet_bridge.cc:334-345 | reads the members or signed members, failing exactly on an id out of range |
| ViewBuilders.BuildCancelViewCandidate | bridge/resdb_omnet_bridge.cc:241-312 | succeeds exactly on an admissible electorate, with the sorted electors as members |
| ViewBuilders.BuildForcedViewCandidate | bridge/resdb_omnet_bridge.cc:314-459 | succeeds exactly on an admissible rollback membership, with the sorted signed ids |
| ViewBuilders.BuildToleratedFaultViewCandidate | bridge/resdb_omnet_bridge.cc:461-526 | succeeds exactly when all entries are in range, distinct, contain the leader and support f |
| ViewBuilders.BuildEpochOrderViewCandidate | bridge/resdb_omnet_bridge.cc:528-734 | epoch 0 as above, later epochs over the signed ids with the mode's f |
| MembershipTheorems.MembershipIff | bridge/resdb_omnet_bridge.cc:555-706 | what the order builders demand, by field: count, ids in range, distinct members, a leader among them, and a sender that is the leader's replica unless it has no replica id |
| MembershipTheorems.VoterMeans | bridge/resdb_omnet_bridge.cc:614 | voters are signed, and of entries whose status is known exactly those that are not QUIET |
| MembershipTheorems.OrderViewIff | bridge/resdb_omnet_bridge.cc:555-706 | from epoch 1 on a view is built if and only if the voters form such a membership and, with an anchored f, number at least 3f + 1 |
| MembershipTheorems.FirstOrderViewIff | bridge/resdb_omnet_bridge.cc:461-526 | in epoch 0 all listed vehicles count, and must number at least 3f + 1 |
| MembershipTheorems.OrderViewContents | bridge/resdb_omnet_bridge.cc:461-734 | the view holds the order's epoch and leader, the request's number and hash, the sorted members, and as f the configured bound, cut to (n - 1) / 3 in per-epoch mode |
| MembershipTheorems.RollbackViewIff | bridge/resdb_omnet_bridge.cc:314-459 | a rollback view is built if and only if the voters form such a membership of at least four, or 3f + 1 |
| MembershipTheorems.RollbackViewContents | bridge/resdb_omnet_bridge.cc:314-459 | and holds these members; f is left to the registry in per-epoch mode |
| MembershipTheorems.CancelViewIff | bridge/resdb_omnet_bridge.cc:241-312 | a cancel view is built if and only if the electors are distinct, in range and at least 3f + 1, with the leader, who must be the sender, among them |
| MembershipTheorems.CancelViewContents | bridge/resdb_omnet_bridge.cc:241-312 | and holds exactly the electors, for the cancelled epoch |
| MembershipTheorems.LeaderMayPropose | bridge/resdb_omnet_bridge.cc:424-434 | the sender check alone never refuses the leader's own order or rollback |
| MembershipTheorems.LeaderMayCancel | bridge/resdb_omnet_bridge.cc:284-295 | nor its cancel |
| ViewBuilders.OrderBuildersGiveCandidates | bridge/resdb_omnet_bridge.cc:314-734 | every view the three order builders return has strictly sorted in-range members that contain its primary, and an f they support |
| ViewBuilders.CancelBuilderGivesCandidates | bridge/resdb_omnet_bridge.cc:241-312 | the same for the cancel builder |
| ViewBuilders.RollbackFaultsInstalled | bridge/resdb_omnet_bridge.cc:369-448 | in per-epoch mode the installed f is the largest the voters support; it is the computed one if and only if the configured bound does not bite |
| ViewBuilders.QuorumNeverThrows | bridge/resdb_omnet_bridge.cc:225-229 | the builders' size checks are exactly what keeps the quorum computation from throwing |
| PreVerify.ParsedPayload | bridge/resdb_omnet_bridge.cc:1314-1348 | after a successful unwrap the header can be read without bounds checks |
| GuardChecks.CheckIds | bridge/resdb_omnet_bridge.cc:1479-1503 | accepts exactly distinct ids in range |
| GuardChecks.CheckFields | bridge/resdb_omnet_bridge.cc:1504-1544 | accepts exactly sane timestamps, flags and enumerations |
| GuardChecks.LeaderRoutes | bridge/resdb_omnet_bridge.cc:1551-1586 | the running minimum decides whether the leader is the least signed id, and whether it is the signed PBFT primary |
| GuardChecks.NoLowerCert | bridge/resdb_omnet_bridge.cc:1647-1660 | accepts exactly when no in-range local certificate names a lower id |
| GuardChecks.CheckAmbulances | bridge/resdb_omnet_bridge.cc:1662-1674 | accepts exactly when every ambulance is signed and certified locally |
| GuardChecks.CompareCerts | bridge/resdb_omnet_bridge.cc:1676-1712 | accepts exactly when signed entries match their certificates, and counts the suppressed ones |
| EndToEnd.LeftOutBound | bridge/resdb_omnet_bridge.cc:1594-1720 | the certified vehicles an accepted proposal does not present as signed are at most f suppressed ones plus those it does not list |
| BridgeExamples.DroppedVehiclesExample | bridge/resdb_omnet_bridge.cc:1676-1679 | an accepted order may drop all certified vehicles but one |
| GuardChecks.CheckCerts | bridge/resdb_omnet_bridge.cc:1603-1727 | the whole certificate block decides `CertsAccept` |
| GuardChecks.CollectSigners | bridge/resdb_omnet_bridge.cc:187-197 | the bar-separated scan finds a signer exactly when some field after the fourth has a colon |
| GuardChecks.NamesSignerMeans | bridge/resdb_omnet_bridge.cc:187-197 | a certificate names a signer if and only if some colon stands behind at least four bars |
| GuardChecks.CheckCancel | bridge/resdb_omnet_bridge.cc:178-199 | check 13 accepts exactly the justified cancels |
| BridgeServers.BridgeServer.InstallForcedViewForRequest | incubator-resilientdb/platform/consensus/ordering/pbft/consensus_manager_pbft.cpp:341-349 | binds the view and takes over its primary, or fails with no effect |
| BridgeServers.BridgeServer.InstallPendingForcedView | incubator-resilientdb/platform/consensus/ordering/pbft/consensus_manager_pbft.cpp:351-358 | parks the view and takes over its primary |
| BridgeServers.BridgeServer.SetPrimary | incubator-resilientdb/platform/consensus/ordering/pbft/consensus_manager_pbft.cpp:113-118 | acts only on a newer view number |
| BridgeServers.BridgeServer.QuorumForRequest | incubator-resilientdb/platform/consensus/ordering/pbft/message_manager.cpp:268-292 | the votes needed are those of the view in force, else the configured number; the lookup may bind a pending view |
| BridgeServers.BridgeServer.IsSenderActiveForRequest | incubator-resilientdb/platform/consensus/ordering/pbft/message_manager.cpp:294-309 | a vote counts if and only if its sender is a member of the view in force, or none is |
| BridgeServers.BridgeServer.VerifyCancel | bridge/resdb_omnet_bridge.cc:1323-1345 | the whole effect and verdict of a guarded cancel |
| BridgeServers.BridgeServer.EvidenceOk | bridge/resdb_omnet_bridge.cc:1385-1427 | passes exactly when the epoch is not gated or the trailer's first certificate is approved |
| PreVerify.EvidenceMeans | bridge/resdb_omnet_bridge.cc:1397-1413 | the approval is the callback's, asked about the epoch before with the first certificate |
| PreVerify.SentFirstCert | bridge/resdb_omnet_bridge.h:121-135 | which is the first one that the sender packed into the trailer |
| BridgeServers.BridgeServer.GuardOrder | bridge/resdb_omnet_bridge.cc:1347-1727 | all checks together decide `OrderGuards`, and change nothing |
| BridgeServers.BridgeServer.VerifyOrder | bridge/resdb_omnet_bridge.cc:1347-1801 | verdict and whole new state of a guarded order |
| BridgeServers.BridgeServer.VerifyRollback | bridge/resdb_omnet_bridge.cc:1428-1753 | verdict and whole new state of a guarded rollback |
| BridgeServers.BridgeServer.GuardedPreVerify | bridge/resdb_omnet_bridge.cc:1296-1801 | verdict and whole new state for any request |
| BridgeServers.BridgeServer.OpenPreVerify | bridge/resdb_omnet_bridge.cc:1227-1294 | the same with the firewall off |
| BridgeServers.BridgeServer.TriggerConsensus | bridge/resdb_omnet_bridge.cc:1934-2045 | exact condition for handing a submitted payload on; only a cancel changes the state, by parking its electorate under the new request's hash |
| BridgeServers.BridgeServer.SetToleratedFaults | bridge/resdb_omnet_bridge.cc:2207-2240 | accepted exactly when the static membership supports f |
| BridgeServers.BridgeServer.SetRollbackFaultMode | bridge/resdb_omnet_bridge.cc:2242-2257 | switches the mode and nothing else |
| BridgeServers.BridgeServer.PromotePrimaryFromCert | bridge/resdb_omnet_bridge.cc:1105-1124 | rotates the primary at the current view, for ids in range |
| BridgeServers.BridgeServer.ExecuteData | bridge/resdb_omnet_bridge.cc:754-897 | executes exactly what the parser recognises; a crash cancel gates the next epoch and every cancel yields the packed decision bytes; an order's output decodes to the slots of its schedule |
| BridgeServers.BridgeServer.ExecuteOrder | bridge/resdb_omnet_bridge.cc:807-864 | the decision decodes although the evidence trailer is appended, and the trailer is handed on unchanged |
| EndToEnd.TrailerReachesApplication | bridge/resdb_omnet_bridge.cc:848-864 | what the sender put behind the entries reaches the application behind the decisions |
| CancelDecisions.CancelSeq | bridge/resdb_omnet_bridge.cc:770-773 | the shift loop computes the first eight digest bytes as a big-endian number, without losing bits |
| CancelDecisions.CancelSeqBytes | bridge/resdb_omnet_bridge.cc:770-773 | the first digest byte is the most significant |
| CancelDecisions.DigestBytes | bridge/resdb_omnet_bridge.cc:231-239 | a 32-byte hash is kept, a longer one cut, a shorter one followed by zeros |
| CancelDecisions.BigEndianInjective | bridge/resdb_omnet_bridge.cc:770-773 | so two cancels with one sequence number agree on those digest bytes |
| CancelDecisions.CancelDecisionRoundTrip | bridge/resdb_omnet_bridge.h:166-176 | the application recovers epoch, reason, sequence number and digest |
| CancelDecisions.CancelDecisionBytes | bridge/resdb_omnet_bridge.h:166-176 | at which bytes the application finds the fields |
| CancelDecisions.OrderTakenForCancel | src/v2vbft/app/ResDBDecision.cc:939-945 | the application takes an order for a cancel decision if and only if its epoch is the magic number and it has at least 52 bytes |
| EndToEnd.ExecutedOrderTakenForCancel | src/v2vbft/app/ResDBDecision.cc:939-945 | the same for whatever the executor decides on an order |
| BridgeExamples.OrderTakenForCancelExample | src/v2vbft/app/ResDBDecision.cc:939-945 | whatever the executor decides on five vehicles in that epoch is taken for a cancel decision |
| BridgeRuns.ViewsAlwaysWellFormed | bridge/resdb_omnet_bridge.cc:1227-1801 | over every run, firewall on or off, every view ever held is sorted, in range, contains its primary, has an f its membership supports and the matching quorum |
| BridgeRuns.HeldViewsAreSound | bridge/resdb_omnet_bridge.cc:1227-1801 | spelled out: whatever view a replica holds at any moment of a run has sorted in-range members, its primary among them, n >= 3f + 1, and the least quorum of which any two share more than f members |
| BridgeRuns.RejectedHasNoEffect | bridge/resdb_omnet_bridge.cc:1755-1796 | a rejected proposal leaves registry, pending views, primary, view number and gate unchanged |
| BridgeRuns.MembershipIsImmutable | incubator-resilientdb/platform/consensus/ordering/pbft/omnet_forced_view.h:74-88 | once a membership is bound to (epoch, sequence, hash), no later event changes it |
| BridgeRuns.ForceOverRun | incubator-resilientdb/platform/consensus/ordering/pbft/omnet_forced_view.h:101-110 | over every run, once a view is bound for a sequence number and hash: the epoch in force never grows, it has fallen if and only if a PRE_PREPARE of a lower epoch was let through, and otherwise the members in force are the same |
| BridgeRuns.AcceptedShiftsForce | incubator-resilientdb/platform/consensus/ordering/pbft/omnet_forced_view.h:74-110 | an accepted PRE_PREPARE changes the members in force for its own sequence number and hash if and only if its view has other members and is of a lower epoch than the one in force, or that one was only pending |
| BridgeRuns.LookupKeepsForce | incubator-resilientdb/platform/consensus/ordering/pbft/omnet_forced_view.h:91-132 | a lookup changes the view in force of no request, and settles the one looked up |
| BridgeRuns.VotesForOneRequestOverlap | incubator-resilientdb/platform/consensus/ordering/pbft/message_manager.cpp:268-308 | quorums in force for one request at two moments of a run share more than min(f) members, unless a PRE_PREPARE of a lower epoch came in between |
| BridgeRuns.OneRequestDecided | incubator-resilientdb/platform/consensus/ordering/pbft/message_manager.cpp:268-308 | two replicas, at any moments of their runs, with views of the same members in force for two requests: if at most min(f) members vote for both, at most one request reaches its quorum |
| BridgeExamples.QuorumShiftExample | incubator-resilientdb/platform/consensus/ordering/pbft/omnet_forced_view.h:91-110 | two accepted PRE_PREPAREs for one sequence number and hash, after which the members in force have moved from [0] to [1] with quorum 1 each |
| BridgeRuns.GateIsExact | bridge/resdb_omnet_bridge.cc:774-780 | an epoch is gated if and only if a cancel of the epoch before with reason 0 was executed |
| BridgeRuns.GatedOrdersCarryEvidence | bridge/resdb_omnet_bridge.cc:1385-1427 | after such a cancel every accepted order of the next epoch carries a trailer whose first certificate the application approves for the cancelled epoch |
| BridgeRuns.GatedOrderIff | bridge/resdb_omnet_bridge.cc:1385-1427 | and, with the trailer as its sender packs it, is accepted if and only if it would be without the gate and that certificate is approved |
| BridgeRuns.RollbackIgnoresGate | bridge/resdb_omnet_bridge.cc:1385-1427 | the verdict on a rollback depends neither on the gate nor on the evidence callback |
| BridgeExamples.UngatedRollbackExample | bridge/resdb_omnet_bridge.cc:1385-1439 | a crash rollback to a gated epoch is accepted with no evidence callback at all |
| BridgeRuns.CertLeaderIsLeast | bridge/resdb_omnet_bridge.cc:1573-1660 | a leader admitted by the certificate route is the least in-range id of the voter's snapshot |
| BridgeRuns.CertLeaderUnique | bridge/resdb_omnet_bridge.cc:1628-1660 | voters whose snapshots certify the same replicas admit one and the same leader by that route |
| BridgeRuns.AcceptedOrderIsBound | bridge/resdb_omnet_bridge.cc:1758-1773 | an accepted PRE_PREPARE binds its members to the request under its leader if a view can be built; otherwise it is of epoch 0 and the registry is untouched |
| BridgeRuns.PrimaryHandoff | bridge/resdb_omnet_bridge.cc:1758-1787 | an accepted PRE_PREPARE makes its leader the PBFT primary if and only if its view is installed, or the leader is the primary already, or the request carries a newer view number, which is then taken over |
| BridgeRuns.HeldBackWouldBeRejected | bridge/resdb_omnet_bridge.cc:1985-2045 | what the submitting replica holds back, its guarded PreVerify would have rejected |
| AdmissionTheorems.OrderAcceptedIff | bridge/resdb_omnet_bridge.cc:1347-1801 | an order as sent is accepted if and only if its entries have distinct ids in range and sane fields, its leader is signed and is the least signed id or the primary, the certificates and the gate are satisfied, and its view may be bound to the request |
| AdmissionTheorems.CertsIff | bridge/resdb_omnet_bridge.cc:1603-1727 | the certificate block, by field: certified leader, least on the certificate route; certified ambulances; entries as certified; at most f certificates listed as QUIET |
| AdmissionTheorems.RollbackAcceptedIff | bridge/resdb_omnet_bridge.cc:161-176 | a rollback as sent is accepted if and only if it refers, in at least 48 bytes, to the cancel of the same epoch, its entries and certificates are in order, and its view may be bound |
| AdmissionTheorems.CancelAcceptedIff | bridge/resdb_omnet_bridge.cc:178-199 | a cancel as sent is accepted if and only if its certificate holds a signature and its electorate forms a view that may be bound |
| AdmissionTheorems.SenderIsViewPrimary | bridge/resdb_omnet_bridge.cc:703-714 | whatever the proposal's kind, a view is built only if the sender is the view's primary |
| AdmissionTheorems.AcceptedOrderSender | bridge/resdb_omnet_bridge.cc:703-714 | so from epoch 1 on an accepted order was sent by the leader it names |
| AdmissionEffects.AcceptedView | bridge/resdb_omnet_bridge.cc:1728-1796 | an accepted proposal leaves its view, f and quorum settled, pending and latest, a PRE_PREPARE leaves it bound to the request too, and nothing else in the registry changes |
| AdmissionEffects.SubmittedIff | bridge/resdb_omnet_bridge.cc:1963-2045 | exactly which submissions are handed on: unrecognised payloads, orders of epoch 0, and those for which a view can be built, a cancel or rollback with its justification in order |
| AdmissionEffects.SubmittedCancel | bridge/resdb_omnet_bridge.cc:1963-1986 | a submitted cancel that is not held back leaves its electorate pending under the new hash and its leader as primary, otherwise nothing changes |
| AdmissionEffects.SubmittedOther | bridge/resdb_omnet_bridge.cc:1985-2045 | other submissions change nothing |
| AdmissionEffects.OpenRejects | bridge/resdb_omnet_bridge.cc:1227-1294 | with the firewall off only an order of a later epoch without a view is rejected |
| AdmissionEffects.OpenEffect | bridge/resdb_omnet_bridge.cc:1227-1294 | a view is installed whenever one can be built, for a cancel or rollback with its justification in order, and otherwise nothing changes |
| AdmissionEffects.OpenAcceptsMore | bridge/resdb_omnet_bridge.cc:1227-1294 | what a guarded replica accepts an open one lets through, with the same effect on the registry |
| AdmissionEffects.FaultsConfigured | bridge/resdb_omnet_bridge.cc:2207-2240 | a fault bound is taken over exactly if the static membership supports it |
| AdmissionEffects.Promoted | bridge/resdb_omnet_bridge.cc:1105-1124 | a promotion makes the vehicle's replica the primary exactly if its id is in range |
| BridgeExamples.OneVehicleAccepted | bridge/resdb_omnet_bridge.cc:1347-1801 | a replica set of any size accepts a concrete order that it certifies, so the safety statements below are not empty |
| BridgeExamples.HandoffRefusedExample | bridge/resdb_omnet_bridge.cc:1774-1787 | in a replica set of two or more, one at view 1 with primary 2 accepts the certified order of leader 0 at view 1 and keeps its primary |
| BridgeExamples.UncertifiedAmbulanceExample | bridge/resdb_omnet_bridge.cc:1609-1674 | without a snapshot an order with an unsigned ambulance in front of a signed one is accepted, and every work queue for it breaks lane order |
| BridgeExamples.RollbackFaultsExample | bridge/resdb_omnet_bridge.cc:369-448 | an accepted rollback to seven voters with a configured bound of 1 installs a view with f = 2 |
| EndToEnd.ExecutedBatchIsSafe | bridge/resdb_omnet_bridge.cc:1220-1222 | whatever was admitted, firewall off and repeated ids included, vehicles executed in one batch have pairwise safe movements |
| EndToEnd.CertifiedMovementsAreSafe | bridge/resdb_omnet_bridge.cc:1676-1725 | if an accepted order is executed, no batch joins two locally certified vehicles whose certified movements conflict |
| EndToEnd.CertifiedOrderIsKept | bridge/resdb_omnet_bridge.cc:1688-1712 | non-QUIET certified vehicles of one lane cross strictly in certified order |
| EndToEnd.AmbulancePriority | bridge/resdb_omnet_bridge.cc:1662-1674 | in an accepted order an ambulance is signed and certified, the queue keeps lane order, and the ambulance of least position and id crosses after exactly the vehicles ahead of it in its lane, which is optimal |
| EndToEnd.DecisionNamesSlot | bridge/resdb_omnet_bridge.cc:848-896 | the decision bytes decode to each vehicle's batch index |
| EndToEnd.VotersAgree | bridge/resdb_intersection_scheduler.cc:66-215 | voters whose accepted orders list the same entries in any order compute the same batches |
| SegmentGeometry.SharedPointIsReported | fourway/audit_ksafe_geometry.py:129-137 | two closed segments that share a point are reported, for every tolerance of at least zero |
| SegmentGeometry.NegativeMeansDisjoint | fourway/audit_ksafe_geometry.py:118-137 | a negative verdict means disjoint, collinear and degenerate segments included |
| SegmentGeometry.ExactWithoutTolerance | fourway/audit_ksafe_geometry.py:118-137 | at tolerance zero the test decides exactly whether the segments meet; the tolerance only adds positive verdicts |
| SegmentGeometry.PositiveMeansNear | fourway/audit_ksafe_geometry.py:118-137 | a positive verdict means exactly: a shared point, or an endpoint within 1e-9 of the other segment's line and box |
| SegmentGeometry.VerdictSymmetric | fourway/audit_ksafe_geometry.py:129-137 | the verdict does not depend on the order of the segments |
| MovementTable.NegativePathsAreDisjoint | fourway/audit_ksafe_geometry.py:140-145 | a negative verdict on two polylines means they share no point |
| MovementTable.DisjointMeans | fourway/audit_ksafe_geometry.py:140-145 | that is, no point lies on a segment of one and on a segment of the other |
| MovementTable.PathsIntersectMeans | fourway/audit_ksafe_geometry.py:140-145 | a positive one means exactly that of some pair of segments |
| MovementTable.PathsIntersectSymmetric | fourway/audit_ksafe_geometry.py:140-145 | and is symmetric |
| MovementTable.BuildTable | fourway/generate_phase2_movement_conflicts.py:41-72 | fails exactly on a movement mismatch; otherwise cell (i, j) is the conflict of movements i and j and the report says why |
| MovementTable.MovementCodes | fourway/audit_ksafe_geometry.py:22-23 | lanes 0 to 3 are the approaches N, S, E, W, and directions 0 to 2 straight, left and right |
| MovementTable.TableIsTrustworthy | fourway/generate_phase2_movement_conflicts.py:48-72 | a cell is set if and only if the approaches are the same or the centerlines intersect; the table is symmetric with a true diagonal, and a safe cell means disjoint centerlines |
| MovementTable.AuditKSafe | fourway/audit_ksafe_geometry.py:166-179 | passes exactly when no pair the scheduler may batch has intersecting centerlines |
| MovementTable.AuditCovers | fourway/audit_ksafe_geometry.py:166-179 | a passed audit covers any two of the twelve movements |
| MovementTable.AuditFinds | fourway/audit_ksafe_geometry.py:166-179 | a failed one has found an allowed pair with intersecting centerlines |
| MovementTable.AuditedPairsAreDisjoint | fourway/audit_ksafe_geometry.py:148-179 | after a passed audit every allowed pair follows disjoint centerlines |
| MovementTable.BatchesFollowDisjointPaths | fourway/audit_ksafe_geometry.py:166-179 | so vehicles sharing a batch of any schedule follow centerlines that nowhere meet |
| BinomialTail.CombIsQuotient | experiments/e3_longitudinal_rank/fixtures/longitudinal_grid.py:97-99 | Pascal's rule computes n! / (k! (n-k)!) |
| BinomialTail.SumIsOne | experiments/e3_longitudinal_rank/fixtures/longitudinal_grid.py:97-99 | the full sum is 1, for every real p |
| BinomialTail.GuardsMatchSum | experiments/e3_longitudinal_rank/fixtures/longitudinal_grid.py:92-99 | the guarded special cases return what the plain sum would |
| BinomialTail.PlainTailIsPascal | experiments/e3_longitudinal_rank/fixtures/longitudinal_grid.py:97-99 | the tail obeys Pascal's recurrence in n |
| BinomialTail.TailRecurs | experiments/e3_longitudinal_rank/fixtures/longitudinal_grid.py:89-99 | so does the guarded prediction, with its boundary values, which determines it; without a probability there is no prediction |
| BinomialTail.TailIsProbability | experiments/e3_longitudinal_rank/fixtures/longitudinal_grid.py:89-99 | the value lies in [0, 1] |
| BinomialTail.TailMonotone | experiments/e3_longitudinal_rank/fixtures/longitudinal_grid.py:89-99 | non-decreasing in n and p and non-increasing in `required`, jointly |
| BinomialTail.RequiredSupport | experiments/e3_longitudinal_rank/fixtures/longitudinal_grid.py:151 | collusion support and required honest support add up to the threshold, up to which each signature saves one |
| BinomialTail.CollusionNeverLowers | experiments/e3_longitudinal_rank/fixtures/longitudinal_grid.py:151-172 | more collusion support never lowers the prediction, and full support makes it certain |
| VersionedStore.BetweenIsSlice | incubator-resilientdb/chain/storage/memory_db.cpp:172-182 | a version range query returns the contiguous slice of that range, reversed, nothing missing |
| VersionedStore.ReadVersionMeans | incubator-resilientdb/chain/storage/memory_db.cpp:109-129 | a version the key has is read as such, any other reads the newest, version k of 1..k |
| VersionedStore.NewestIsReversedTail | incubator-resilientdb/chain/storage/leveldb.cpp:398-404 | a top query returns the newest items, newest first |
| VersionedStore.TopMeans | incubator-resilientdb/chain/storage/memory_db.cpp:193-200 | what a negative count and a count of 0 mean in either back end |
| VersionedStore.MemoryDB.SetValueWithVersion | incubator-resilientdb/chain/storage/memory_db.cpp:95-107 | accepted exactly when the version is the key's current one, which then grows by one; otherwise nothing changes |
| VersionedStore.MemoryDB.GetValueWithVersion | incubator-resilientdb/chain/storage/memory_db.cpp:109-129 | the early-exit reverse scan returns the item of that version, else the newest |
| VersionedStore.MemoryDB.GetHistory | incubator-resilientdb/chain/storage/memory_db.cpp:164-183 | the early-exit scan equals the full filter |
| VersionedStore.MemoryDB.GetTopHistory | incubator-resilientdb/chain/storage/memory_db.cpp:185-202 | returns the newest max(1, count) items, a negative count standing for all |
| VersionedStore.MemoryDB.SetValueWithSeq | incubator-resilientdb/chain/storage/memory_db.cpp:79-93 | rejects exactly an older number; otherwise appends and keeps the newest `max_history_` |
| VersionedStore.AdmitsMeans | incubator-resilientdb/chain/storage/memory_db.cpp:79-88 | a write is rejected if and only if some stored number is later |
| VersionedStore.MemoryDB.GetValueWithSeq | incubator-resilientdb/chain/storage/memory_db.cpp:60-77 | the early-exit scan finds the newest item with that number, as a full scan would |
| VersionedStore.ReadSeqFinds | incubator-resilientdb/chain/storage/memory_db.cpp:60-77 | the scan finds the newest item with the number, and number 0 the newest of all |
| VersionedStore.ReadSeqMisses | incubator-resilientdb/chain/storage/memory_db.cpp:60-77 | and nothing if there is none |
| VersionedStore.BoundedLogIsWindow | incubator-resilientdb/chain/storage/memory_db.cpp:79-93 | after any writes the bounded list is the newest part of the log that never forgets: trimming never changes what is accepted |
| VersionedStore.BoundedLogIsSuffix | incubator-resilientdb/chain/storage/memory_db.cpp:89-92 | that is, its last `max_history_` items |
| VersionedStore.ResLevelDB.SetValue | incubator-resilientdb/chain/storage/leveldb.cpp:161-179 | the put joins the batch, which is applied in order when large enough; a failed disk write keeps it |
| VersionedStore.PutIsKept | incubator-resilientdb/chain/storage/leveldb.cpp:161-179 | whatever the batch size and the outcome of the disk write, store and batch together take in every put; only a failed write is reported |
| VersionedStore.ResLevelDB.Flush | incubator-resilientdb/chain/storage/leveldb.cpp:231-239 | applies the whole batch or nothing |
| VersionedStore.ResLevelDB.SetValueWithVersion | incubator-resilientdb/chain/storage/leveldb.cpp:241-267 | accepted exactly when the version is the stored one, batch ignored |
| VersionedStore.ResLevelDB.GetValueWithVersion | incubator-resilientdb/chain/storage/leveldb.cpp:269-294 | the guarded early-exit scan reads the same item as the in-memory scan would on that history |
| VersionedStore.ResLevelDB.GetHistory | incubator-resilientdb/chain/storage/leveldb.cpp:364-385 | the early-exit scan equals the full filter |
| VersionedStore.ResLevelDB.GetTopHistory | incubator-resilientdb/chain/storage/leveldb.cpp:388-405 | returns the newest `count` items, a negative count standing for all |
| VersionedStore.MemoryVersionsAreContiguous | incubator-resilientdb/chain/storage/memory_db.cpp:95-107 | over every run each key's versions are exactly 1..k |
| VersionedStore.LevelVersionsAreContiguous | incubator-resilientdb/chain/storage/leveldb.cpp:161-267 | the same for LevelDB, for every batch size and pattern of failed disk writes |
| VersionedStore.TopDiffersOnlyAtZero | incubator-resilientdb/chain/storage/memory_db.cpp:193-200 | the two top-history loops agree if and only if the count is not zero or the key has no history |
| VersionedStore.TopZeroExample | incubator-resilientdb/chain/storage/memory_db.cpp:193-200 | on a key written once the in-memory store returns one item and LevelDB none |
| VersionedStore.SettledRunsAgree | incubator-resilientdb/chain/storage/leveldb.cpp:161-405 | on every run that never touches a key with a pending write the back ends answer alike, whatever the batch size |
| VersionedStore.InterchangeableIffFlushed | incubator-resilientdb/chain/storage/leveldb.cpp:165-178 | the back ends answer alike on every run without top-0 queries if and only if each single write reaches the flush threshold |
| VersionedStore.OneWriterIffFlushed | incubator-resilientdb/chain/storage/leveldb.cpp:161-267 | on every run at most one put per key and version succeeds, if and only if each single write reaches the flush threshold |
| VersionedStore.LostUpdate | incubator-resilientdb/chain/storage/leveldb.cpp:181-199 | two writers at one version both succeed and the first is lost when the first write stays in the batch; the in-memory store rejects the second |

## Left out

- PBFT itself (commitment, view change, checkpoints, collectors): a view change may set primary and view number to anything at any step of a run.
- Callbacks: certificate snapshots and the evidence validator are arbitrary values and functions of each call, and SHA-256 is an arbitrary function from bytes to bytes.
- Protobuf: a request arrives with its first payload already extracted, or with none when the batch cannot be parsed or is empty; the LevelDB histories are stored as values.
- Environment reads, logging, threads and mutexes: the singleton and firewall switches are parameters, every call is atomic.
- Payloads are limited to fewer than 2^32 entries (the parser itself admits at most 10000) and static memberships to 32-bit sizes.
- OrdersComeBack: for propose times of 2^32 microseconds or more it leaves out times with low byte 0 or 1 in an epoch following the leader id; `OrderRecognised` gives the exact condition there, over the payload's own words.
- ServeAmbulance: with repeated ids the order of tied blockers is whatever `std::sort` leaves it as, so the line is stated up to ties.
- BuildTable: takes the loaded paths and the movement list as parameters; the report is kept row by row rather than flat, and route and lane names are dropped.
- SegmentGeometry computes over exact reals; floating-point rounding is not modelled.
- TriggerConsensus: ends where the request is injected; sequence allocation and the result of the injection, and the vote-progress and gossip-cancel services, are not modelled.
- The two stores: plain and range reads, the block cache, LevelDB's sequence-numbered writes with their checkpoint records, and one key used by both the versioned and the sequenced interface; versions are unbounded integers.
- Vehicle control, network, simulator, plotting, manifests, Wilson intervals and Gaussian calibration.
