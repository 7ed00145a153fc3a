# SeaCommons: verified model

A Dafny 4.11 model of the parts of SeaCommons whose correctness depends on state, order or arithmetic, with proofs.
`dafny verify dfyconfig.toml` checks everything. One module models one component:

| module | component |
|---|---|
| `LiveRoom` | the edge's durable room: versioned register per incident, tombstones, visible list, hash chain |
| `Outbox`, `Publisher` | the publisher's SQLite outbox, and its collect and deliver loops |
| `Replication` | both nodes and an unreliable link, as one transition system |
| `ConvexHull` | the monotone-chain hull of a particle cloud |
| `Clustering` | single-link clustering by union-find with path halving |
| `AisTrack`, `AisReports`, `AisDetector` | AIS jump quarantine, which reports count, emission cooldown, memory sweep |
| `Jobs`, `Leases`, `Scheduling` | the leased job queue, many workers sharing it, and when and in which order jobs are taken |
| `RateLimit` | the sliding-window limiter against its plain history |
| `Navtex` | block framing over a chunked character stream |
| `Ballistic`, `Landing` | the terminal-phase Euler integrator: when it is stable, and why it ends even when it is not |
| `Forcing` | the interpolating forcing grid and the filling of its gaps |
| `DebrisMix` | the split of particles over a debris mix |
| `Correlation` | the 120-second correlation window |
| `Evidence`, `Corroboration` | canonical evidence packets, and what a packet and its assessment say about the references |
| `Numbers`, `Options`, `Sorting`, `Sublists`, `Text` | arithmetic, optional values, Python's `sorted(set(...))` and tuple order, one list inside another, `strip` |

Objects whose methods update fields are classes (`Room`, `Store`, `Node`, `Detector`, `Queue`, `Limiter`, `Decoder`,
`Engine`); their methods are proved equal to a step function, and the theorems are about all runs of that function.
In-place algorithms keep their arrays (`Find`, `Union`, `FillMissing`). Times are integers or reals on the stated clock,
and floats are exact reals. Where an injective hash, a square root, a distance or `str.lower` matters, it is a parameter
with the facts it needs.

Properties that the code does not have for every input are stated with the exact condition (first name) and a failing
input (after the arrow):

- A snapshot can show an event past its deadline: a deadline of zero reads as unset. `LiveRoom.SnapshotDeadlines` → `EpochDeadlineIsMissed`
- Of equal claims the last to arrive is shown, so runs of the same posts can show different events. `LiveRoom.ShownEventConvergesIff`, whose proof builds both runs (`LeaderCanWin`)
- Content that returns to an earlier form keeps its old version id and is not sent again. `Replication.NewestOfferShownIff` → `ReturnedContentIsNotShown`
- The 12-hour sweep can orphan a jump candidate, which is then no longer a newer and impossible leg. `AisTrack.CandidatesSurviveIff` → `OrphanRaisesFalseAlarm`
- Such a candidate can be confirmed: an alert without a fast leg, and accepted times that run back. `AisTrack.LifeIsOrderedIff` → `OrphanRaisesFalseAlarm`
- After the sweep has forgotten a vessel, a replayed older fix is accepted. `AisTrack.LifeIsOrderedIff`, `UnorphanedLifeIff` → `ReplayRunsBack`
- A vessel that enters a dark zone by a confirmed jump is not reported as entering it. `AisTrack.ZoneAlertsAreEntriesIff` → `ConfirmedEntryIsSilent`
- A job whose workers die is claimed again whatever its attempt limit. `Leases.AttemptsAreBoundedIff` → `CrashLoopIsUnbounded`
- A worker that is late to renew can share its job with a second one, and its failure undoes a completed job. `Leases.ExclusiveIff`, `CompletedStaysIff` → `LateFailureRevives`
- More than sixteen blocks in one drain lose the rest. `Navtex.ChunkingIsInvisibleIff` → `BurstIsCut`
- Strong drag makes the integrator throw a falling body upward. `Ballistic.FallsOnIffStable` → `FragmentIsThrownUp`
- A text field cut at whitespace is not stable under normalisation, so a packet is not rebuilt as itself. `Evidence.RequiredIsStableIff`, `RebuildIsIdentityIff` → `CutSpaceIsUnstable`, `CutSubjectIsNotRebuilt`
- A lineage that lower-casing lengthened is not stable either. `Evidence.LineageIsStableIff` → `LoweredLineageIsUnstable`
- Evidence depends on listing order as soon as one id names two references. `Evidence.OrderIsIrrelevantIff` → `ClashChangesEvidence`, for every such pair

## Model

| member | source | states |
|---|---|---|
| LiveRoom.Room.Post | apps/edge/src/live.js:258-335 | one POST takes the stored keys to the specified next state and answers as specified, on every path (400, 403, duplicate, stale, accepted) |
| LiveRoom.Room.LoadSnapshot | apps/edge/src/live.js:337-340 | expired events are dropped from the list for good, nothing else changes, and the list is what is shown |
| LiveRoom.EveryRunKeepsStorage | apps/edge/src/live.js:274-309 | over every run: at most 500 events, one per incident, each being its incident's current active version |
| LiveRoom.RegisterIsJoin | apps/edge/src/live.js:271-309 | over every run each incident's version is one of the first arrivals for it, and none of them outranks it (later wins, removal wins ties) |
| LiveRoom.FinalVersionIsMaximum | apps/edge/src/live.js:105-117 | with one claim per id, the final `observed_at` is the maximum posted, and the incident is removed iff some removal carries that maximum |
| LiveRoom.RunsConverge | apps/edge/src/live.js:105-117 | strong convergence: two runs that posted the same events, in any order and with any repetition, agree on every incident's (observed_at, removed) |
| LiveRoom.ShownEventConvergesIff | apps/edge/src/live.js:105-117 | all runs of the same posts show the same event of an incident iff only one id carries its maximal claim |
| LiveRoom.VersionsOnlyRise | apps/edge/src/live.js:289-308 | a version record is never dropped, and never replaced by a lower one |
| LiveRoom.RemovedStaysHidden | apps/edge/src/live.js:110-116 | after a removal, only a strictly newer observation can ever show the incident again |
| LiveRoom.SnapshotDeadlines | apps/edge/src/live.js:98-103 | a snapshot shows exactly the unexpired stored events, except that a zero deadline falls back to receipt time |
| LiveRoom.EpochDeadlineIsMissed | apps/edge/src/live.js:98-103 | at any time after the epoch, a concrete event is shown after its deadline |
| LiveRoom.ListedUntilDisplacedIff | apps/edge/src/live.js:274-309 | over any run a listed event stays listed until it expires, a version of its incident is accepted, or one more arrives while 500 others are listed and it stands before all of them |
| LiveRoom.ListIsAcceptanceOrder | apps/edge/src/live.js:293-297 | over every run the list is a sublist of the accepted events in their order, none of them twice, so standing before another is having been accepted before it |
| LiveRoom.OldestWasAcceptedFirst | apps/edge/src/live.js:297 | of the events the cap counts, the one it drops was accepted first |
| LiveRoom.HistoryIsPosts | apps/edge/src/live.js:299-309 | over every run the accepted events carry the posts, content and receipt time included, in the order of the posts; the stored update time and head are those of the last one |
| LiveRoom.AnswerIff | apps/edge/src/live.js:262-335 | over every run a post is refused with 400 or 403 by its own flags, a duplicate iff its id has arrived before, stale iff an earlier arrival for its incident outranks it, and accepted otherwise |
| LiveRoom.AcceptedEventsAreChained | apps/edge/src/live.js:262-303 | only accepted events move the head, and each carries the hash of the accepted event before it |
| LiveRoom.SameHeadSameHistory | apps/edge/src/live.js:134-168 | under an injective digest, equal head hashes mean equal accepted histories |
| Outbox.Delay | apps/api/core/live_edge_publisher.py:173-175 | the retry delay is between 1 and 256 seconds, so the 300-second cap never applies |
| Outbox.DelayDoubles | apps/api/core/live_edge_publisher.py:173-175 | the delay starts at one second and doubles with each failure, up to the eighth or the attempt limit |
| Outbox.ReadyTakesEarliest | apps/api/core/live_edge_publisher.py:156-163 | a batch holds due rows in creation order, and leaves out a due row only when it is full of rows created before it |
| Outbox.FailMarksOne | apps/api/core/live_edge_publisher.py:173-180 | a failure changes its own row only: attempts, next attempt after the delay, and the first 500 characters of the error |
| Outbox.EnqueueKeepsTables | apps/api/core/live_edge_publisher.py:130-140 | a payload is added iff its id is neither pending nor delivered, and afterwards it is one of the two |
| Replication.EveryReachOk | apps/api/core/live_edge_publisher.py:130-185 | the protocol invariant over every run of offers, lost requests, lost replies, crashes, late arrivals, retries and prunes |
| Replication.PendingUntilAcknowledged | apps/api/core/live_edge_publisher.py:165-180 | a pending event stays pending through any step except an answered attempt, after which the edge has it |
| Replication.AttemptSettles | apps/api/core/live_edge_publisher.py:553-580 | an attempt moves its row to the delivered table iff the edge answers and takes it, leaves the tables alone in a crash, and otherwise counts the failure and sets the delay of this one row |
| Replication.LateCopyDelivers | apps/api/core/live_edge_publisher.py:553-580 | a request that was given up on can still arrive: it takes effect while its row stays pending, and the row's own delivery then changes nothing at the edge |
| Replication.ShownAreFresh | apps/edge/src/live.js:337-340 | a reader is shown the unexpired events in their order, and nothing else changes |
| Replication.NothingIsLost | apps/api/core/live_edge_publisher.py:553-580 | every offered id is pending or seen by the edge, never pending and delivered, and delivered only if seen |
| Replication.ExactlyOnce | apps/edge/src/live.js:271-309 | over every run an id has changed the edge exactly once if the edge has seen it, and never otherwise |
| Replication.StepEffect | apps/edge/src/live.js:271-291 | an arrival changes the room only when its id is new, and then marks it seen |
| Replication.PrunedIsSentAgainIff | apps/api/core/live_edge_publisher.py:182-185 | a delivered id that is offered again after a prune is sent again iff the prune forgot it, and cannot take effect again |
| Replication.DrainedRunsConverge | apps/api/core/live_edge_publisher.py:130-140 | when the outbox is empty, each incident's version is the maximum of the first payloads offered under its ids |
| Replication.DrainedWithdrawnIff | apps/api/core/live_edge_publisher.py:541-549 | the drained edge has an incident withdrawn iff a removal offered for it is at least as late as everything offered for it, and then lists nothing about it |
| Replication.NewestOfferShownIff | apps/api/core/live_edge_publisher.py:197-210 | the drained edge has the newest offer as current version iff its version id had not been offered with an older time, and then lists nothing else for the incident |
| Replication.ReturnedContentIsNotShown | apps/api/core/live_edge_publisher.py:197-210 | a concrete run A, B, A again that drains and keeps listing B, and B only |
| Publisher.Deliver | apps/api/core/live_edge_publisher.py:553-580 | one cycle over an unreliable link is a run of protocol steps, the k-th sending the k-th due row, one per due row unless a crash cuts it short, and counts the rows it moved, which are all of them when every POST is answered and accepted |
| Publisher.Drain | apps/api/core/live_edge_publisher.py:553-580 | progress: over a working link, with every row due and taken by the edge, the outbox is empty after exactly the number of cycles whose batches can hold it (`BatchesIsLeast`) |
| Publisher.Collect | apps/api/core/live_edge_publisher.py:536-551 | every public row's payload, and the removal of every withdrawn row the edge was sent before, is then pending or delivered; new rows hold nothing else; the cycle is the run of those offers, leaves the edge alone, stops at the first payload that breaks the contract, and counts the growth of the table |
| Publisher.Node.Cycle | apps/api/core/live_edge_publisher.py:641-646 | after any run of the protocol one cycle (collect, deliver, sometimes prune) is part of a run, so the protocol's invariant holds after it, and every payload and removal owed for the scanned rows is pending or has reached the edge |
| ConvexHull.Hull | apps/api/core/drift/opendrift_pool.py:708-727 | a strictly left-turning cycle of distinct input points with every point on or left of every edge; the two extreme points when collinear; the points themselves when fewer than two |
| ConvexHull.Chain | apps/api/core/drift/opendrift_pool.py:716-725 | the pop loop terminates and leaves a left-turning monotone chain of input points that supports all of them |
| ConvexHull.PushSupports | apps/api/core/drift/opendrift_pool.py:718-720 | after the pops, every processed point is left of every edge of the chain extended by the new point |
| ConvexHull.JoinTurnsLeft | apps/api/core/drift/opendrift_pool.py:726 | the two chains meet at a strict left turn unless all points are collinear |
| ConvexHull.ChainsMeetOnlyAtEnds | apps/api/core/drift/opendrift_pool.py:726 | the chains share no inner vertex, so the hull repeats none |
| ConvexHull.SortedSet | apps/api/core/drift/opendrift_pool.py:709 | the distinct points in tuple order |
| Clustering.Cluster | apps/api/core/geo.py:80-115 | two points share a group iff a chain of links joins them; groups are disjoint, in index order, and ordered by first member |
| Clustering.Find | apps/api/core/geo.py:95-99 | path halving terminates, returns the root, and changes nobody's root |
| Clustering.Union | apps/api/core/geo.py:101-102 | the forest then stands for the graph with the new edge |
| Clustering.RepIsConnectivity | apps/api/core/geo.py:86-92 | equal roots are exactly connectivity in the graph of links made so far |
| Clustering.GroupOpens | apps/api/core/geo.py:112-114 | a point with a new root opens the next group |
| Clustering.GroupGrows | apps/api/core/geo.py:112-114 | a point with a known root joins that root's group at its end |
| AisTrack.EveryRunKeepsTrack | apps/api/core/anomaly/ais.py:249-377 | over every run of positions: accepted times strictly rise, a candidate is newer than and over 55 kn from the accepted point, and speed alerts are the accepted legs over 55 kn, one for one and in order |
| AisTrack.GlitchErased | apps/api/core/anomaly/ais.py:267-344 | a lone impossible fix followed by a plausible one leaves the same state and alerts as the second alone |
| AisTrack.ScrubChangesNothing | apps/api/core/anomaly/ais.py:270-323 | deleting every isolated glitch from a stream changes neither state nor alerts |
| AisTrack.HistoryCanBeScrubbed | apps/api/core/anomaly/ais.py:249-377 | the same for the order in which the detector accumulates a history |
| AisTrack.ImpossibleFloor | apps/api/core/anomaly/ais.py:267-268 | the speed floor is 55 kn for every vessel class |
| AisTrack.CandidatesSurviveIff | apps/api/core/anomaly/ais.py:141-145 | over every run of reports and sweeps, the candidate invariant holds throughout iff no sweep forgets a vessel that has a candidate |
| AisTrack.SegmentKeepsTrack | apps/api/core/anomaly/ais.py:138-377 | without such a sweep, the track theorem holds for the track since the vessel was last forgotten |
| AisTrack.LifeIsOrderedIff | apps/api/core/anomaly/ais.py:138-377 | over every run of reports and sweeps: accepted times rise iff no step resumes a forgotten vessel earlier or confirms a candidate that is no newer than the accepted point; and speed alerts are the accepted fast legs throughout iff no step resumes too far away or confirms a candidate that is no fast leg |
| AisTrack.UnorphanedLifeIff | apps/api/core/anomaly/ais.py:138-377 | when no sweep orphans a candidate, only resuming can break either, and the final lists already show whether it did |
| AisTrack.ReplayRunsBack | apps/api/core/anomaly/ais.py:141-145 | a concrete run in which a replayed older fix is accepted after a sweep |
| AisTrack.OrphanRaisesFalseAlarm | apps/api/core/anomaly/ais.py:274-318 | a concrete run in which an orphaned candidate is published as confirmed, though neither newer than the accepted point nor a fast leg |
| AisTrack.ZoneAlertsAreEntriesIff | apps/api/core/anomaly/ais.py:346-355 | over every run of positions the dark-zone alerts are the entries of the accepted track into a zone, one for one and in order, iff no confirmed candidate lies in a zone that the track was outside of |
| AisTrack.ConfirmedEntryIsSilent | apps/api/core/anomaly/ais.py:298-355 | a concrete run that enters a zone by a confirmed jump and raises no zone alert |
| AisTrack.StepAlerts | apps/api/core/anomaly/ais.py:249-377 | a report raises one alert about its candidate iff it confirms it, naming where the candidate was; and, iff it becomes the last point, its own: at most one for a zone, and one iff the vessel is on the sanctions list |
| AisTrack.EveryRunKeepsRows | apps/api/core/anomaly/ais.py:324-377 | over every run the stored rows carry what some report said, and a candidate is the last report heard |
| AisReports.IgnoredIff | apps/api/core/anomaly/ais.py:253-281 | over every run a report is ignored iff it is not newer than every report before it |
| AisReports.SettleIff | apps/api/core/anomaly/ais.py:283-323 | over every run a candidate is a glitch, confirmed or superseded by speed alone, because the times of a report that is heard are always in order |
| AisReports.KnotsIs | apps/api/core/anomaly/ais.py:257-265 | speed is distance over time in knots, and nought without either |
| AisReports.GlitchCanBeLeftOut | apps/api/core/anomaly/ais.py:270-323 | an isolated glitch anywhere in a history can be left out without changing the final state or any alert |
| AisReports.GlitchIff | apps/api/core/anomaly/ais.py:270-344 | a report is such a glitch iff the detector quarantines it and settles it as a glitch at the next report |
| AisReports.ScrubLeavesNone | apps/api/core/anomaly/ais.py:270-323 | the scrubbed history has no isolated glitch left |
| AisReports.ConfidenceIs | apps/api/core/anomaly/ais.py:300-305 | a speed alert is more than 0.55 sure; full confidence 0.9 starts at a speed that depends on the vessel class, and each knot below it costs 0.01 |
| AisReports.SpeedAlertsAreSure | apps/api/core/anomaly/ais.py:293-308 | over every run each published speed alert is over the floor and between 0.55 and 0.9 sure |
| AisReports.NameIsKept | apps/api/core/anomaly/ais.py:367-375 | a vessel that was accepted stays so under reports, and its last point keeps its name until another is reported |
| AisReports.ForgottenIff | apps/api/core/anomaly/ais.py:138-145 | over every run of reports and sweeps, a sweep forgets a vessel iff nothing was heard of it for twelve hours, and otherwise changes nothing |
| AisDetector.Detector.ProcessPosition | apps/api/core/anomaly/ais.py:222-401 | the tables of the reporting vessel take the specified step and no other vessel changes; of the step's alerts exactly those are published whose kind was not published for the vessel in the last three hours |
| AisDetector.CallPublishesIff | apps/api/core/anomaly/ais.py:398-401 | after any run of calls and sweeps, a call is published iff its key was not published in the last three hours |
| AisDetector.ReportPublishes | apps/api/core/anomaly/ais.py:389-401 | the same for all alerts of one report together |
| AisDetector.KeysTellApart | apps/api/core/anomaly/ais.py:397 | two alerts share a cooldown iff they are of one vessel and one kind |
| AisDetector.Detector.SweepMemory | apps/api/core/anomaly/ais.py:138-148 | silent tracks and spent cooldowns are forgotten, candidates are not |
| AisDetector.PublicationsAreSpaced | apps/api/core/anomaly/ais.py:389-401 | two publications of one kind for one vessel are at least three hours apart, sweeps included |
| AisDetector.SweepIsInvisible | apps/api/core/anomaly/ais.py:146-148 | wherever a sweep falls in a run, the same alerts are published as without it |
| AisDetector.SweptTableIff | apps/api/core/anomaly/ais.py:146-148 | after a sweep the cooldown table holds exactly the keys published in the last six hours, at their latest time |
| Jobs.Queue.Claim | apps/api/core/jobs.py:25-40 | the claimed row is the earliest claimable one, only it changes, and None means none was claimable |
| Jobs.Queue.Fail | apps/api/core/jobs.py:50-61 | the row is dead iff its attempts are used up, and otherwise due for a retry 5 to 300 seconds later; it has no lease and the first 10,000 characters of the error, other rows stay; or the job is missing |
| Jobs.NextExists | apps/api/core/jobs.py:28-31 | whenever a row is claimable there is an earliest one |
| Leases.EveryRunKeepsRows | apps/api/core/jobs.py:17-96 | over every run, with late and dying workers: each status fits the attempts and the lease, and the attempt count is the number of claims since last queued |
| Leases.AttemptsAreBoundedIff | apps/api/core/jobs.py:28-38 | over every run, attempts stay within max(1, max_attempts) iff no claim takes a running job that has reached it |
| Leases.CrashLoopIsUnbounded | apps/api/core/jobs.py:28-38 | for every n, a run in which every lease is kept and a job whose workers die is claimed n times, whatever its limit |
| Leases.ExclusiveIff | apps/api/core/jobs.py:28-38 | over every run, no job ever has two workers iff no claim takes a running job whose named worker still executes it |
| Leases.CompletedStaysIff | apps/api/core/jobs.py:43-61 | over every run, a completed job stays completed iff no worker that still holds it reports a failure |
| Leases.LateFailureRevives | apps/api/core/jobs.py:50-61 | a concrete run in which two workers execute one job, and the late one's failure takes the completed job back |
| Leases.OneWorkerPerJob | apps/api/core/worker.py:45-67 | with leases renewed, settled or abandoned by death in time, at most one worker executes a job |
| Leases.CompletedIsFinal | apps/api/core/jobs.py:28-47 | under that assumption a completed job never changes again and is never claimed |
| Leases.ClaimsAreBounded | apps/api/core/jobs.py:50-61 | if moreover nobody dies, a job is claimed at most max(1, max_attempts) times between operator retries, and a job to be retried has been tried at least once and fewer times than allowed |
| Leases.WorkOnce | apps/api/core/worker.py:45-64 | one pass claims the earliest job, executes it and settles exactly that job, whatever other processes do meanwhile, and is part of a run of the queue |
| Scheduling.ClaimableAgainIff | apps/api/core/jobs.py:28-61 | the row an operation leaves can be claimed: once its lease is over (claim, renewal), once its delay is over unless it is dead (failure), at once (new, retried), or never (completed) |
| Scheduling.BackoffDoubles | apps/api/core/jobs.py:60 | the delay starts at five seconds and doubles with each attempt, up to five minutes |
| Scheduling.UntouchedUntilDue | apps/api/core/jobs.py:28-38 | over any run a job that nobody executes and that is not due stays as it is, unless an operator retries it |
| Scheduling.FailedJobWaits | apps/api/core/jobs.py:50-61 | over any run after a failure, no attempt starts before the delay is over, and none at all once the job is dead, unless an operator retries it |
| Scheduling.RetryStartsOver | apps/api/core/jobs.py:79-89 | a job can be retried iff it has failed, and is then as new and due at once |
| Scheduling.HoldersCanRenew | apps/api/core/jobs.py:92-99 | with leases kept in time, whoever executes a job can renew its lease, for the full term |
| Scheduling.QueuedAreTakenInOrder | apps/api/core/jobs.py:31 | over every run no claim passes over a queued job that was due earlier, or due then and created earlier |
| Scheduling.QueuedIsFound | apps/api/core/jobs.py:28-34 | over every run, while a job is queued an idle worker finds one to claim |
| RateLimit.Limiter.RateLimit | apps/api/core/api/ratelimit.py:39-52 | the table and the outcome are the specified ones |
| RateLimit.AdmittedIffRoom | apps/api/core/api/ratelimit.py:42-52 | a call is admitted iff fewer than its limit of its key were admitted in the last 60 s since the last clear |
| RateLimit.RefusalBreaksIff | apps/api/core/api/ratelimit.py:45-46 | the refusal raises an index error iff the limit is below one and the window is empty, which no call site's limit is |
| RateLimit.AnyMinuteIsBounded | apps/api/core/api/ratelimit.py:2-7 | between clears, every 60-second interval holds at most the limit |
| RateLimit.RetryAfterIsExact | apps/api/core/api/ratelimit.py:45-51 | with no other admission of the key, a call after Retry-After is admitted, and one a second earlier is refused unless the table was cleared |
| RateLimit.TableIsBounded | apps/api/core/api/ratelimit.py:40-42 | the table never holds more than 10,001 keys |
| Navtex.SearchIsLeftmostShortest | scripts/radio_decoders/navtex_jsonl.py:17 | the search finds the leftmost block (ZCZC, whitespace, two letters, two digits, anything, NNNN, in either case), and of those the shortest |
| Navtex.SearchInPrefix | scripts/radio_decoders/navtex_jsonl.py:51 | a block found in a prefix of the stream is the block found in the whole stream |
| Navtex.MessagesAreBlocks | scripts/radio_decoders/navtex_jsonl.py:50-55 | every message is a block of the text without its returns, from start mark to end mark; there is never anything to strip |
| Navtex.ReturnsVanish | scripts/radio_decoders/navtex_jsonl.py:54 | text without returns stays, and a return between two texts vanishes |
| Navtex.ExtractAppend | scripts/radio_decoders/navtex_jsonl.py:50-56 | extracting, then appending text and extracting again, is extracting from the whole |
| Navtex.DrainsExtractStream | scripts/radio_decoders/navtex_jsonl.py:38-57 | without overflow, all drains together find the blocks of one pass over the stream and keep its rest |
| Navtex.OverflowKeepsNewest | scripts/radio_decoders/navtex_jsonl.py:41-48 | however the output is chunked, a drain leaves the newest 65,536 characters of what there was and what came, and so drops only the oldest |
| Navtex.ChunkingIsInvisibleIff | scripts/radio_decoders/navtex_jsonl.py:38-57 | without overflow, the messages are those of one pass iff no drain found more than sixteen blocks |
| Navtex.BurstIsCut | scripts/radio_decoders/navtex_jsonl.py:49-57 | seventeen short bulletins in one chunk: the last leaves the buffer unreported |
| Navtex.Decoder.DrainOutput | scripts/radio_decoders/navtex_jsonl.py:38-57 | the buffer and the messages after one drain |
| Landing.Solve | apps/api/core/drift/models.py:96-103 | in light air the loop ends from every entry, on the ground or out of range; in any air it ends from entries with drag below a bound that steps respect, within an explicit number of steps; a stable body that does not rise at entry drops at least g dt^2 per step |
| Landing.EveryEntryEnds | apps/api/core/drift/models.py:96-103 | whatever the entry, if k g dt^2 <= 1/20: low drag loses energy, high drag explodes sideways out of range or into the ground, and drag that stays near 2 loses height in every two steps |
| Ballistic.BoundIsKeptIff | apps/api/core/drift/models.py:97-101 | for each bound between 1 and 2 on the drag k v dt: every state within it steps to one within it iff k g dt^2 is small enough for that bound |
| Ballistic.StabilityIsKeptIff | apps/api/core/drift/models.py:98-101 | for the bound 1: iff 4 k g dt^2 <= 3 |
| Ballistic.ShedsIffDamped | apps/api/core/drift/models.py:97-103 | one step takes at least (g dt)^2 / 2 from g y + vy^2 / 2 iff k v dt <= 2, when the body moves vertically |
| Ballistic.FlightFacts | apps/api/core/drift/models.py:97-103 | through any number of steps: the bound on drag is kept, horizontal speed relative to the wind never grows, and energy drops at that rate |
| Ballistic.FallFacts | apps/api/core/drift/models.py:97-103 | from a stable, non-upward entry: stability is kept, vertical speed stays at most -g dt, and altitude drops at least g dt^2 per step |
| Ballistic.FallsOnIffStable | apps/api/core/drift/models.py:101 | a falling body keeps vertical speed at most -g dt in one step iff k v dt <= 1 |
| Ballistic.FragmentIsThrownUp | apps/api/core/drift/models.py:68-103 | with the default drag, air and area, a 100-gram fragment falling at 800 m/s rises at more than 100 m/s after one step |
| Forcing.ValueBetween | apps/api/core/drift/opendrift_pool.py:177-227 | at every position and time the value lies between any bounds on the corner samples it blends |
| Forcing.NodeIsExact | apps/api/core/drift/opendrift_pool.py:181-196 | at a grid node on a whole hour the value is the sample, and past the last hour the last sample |
| Forcing.TimeIsLinear | apps/api/core/drift/opendrift_pool.py:181-224 | between two whole hours the value moves linearly from one to the other, and before the first hour it does not move |
| Forcing.SharedLatitudeAgrees | apps/api/core/drift/opendrift_pool.py:190-222 | neighbouring cells agree on a shared line of latitude |
| Forcing.SharedLongitudeAgrees | apps/api/core/drift/opendrift_pool.py:190-222 | neighbouring cells agree on a shared line of longitude |
| Forcing.SurfaceIsReproduced | apps/api/core/drift/opendrift_pool.py:193-224 | samples of any surface a + b lat + c lon + d lat lon are interpolated exactly, with positions clamped to the grid |
| Forcing.FillMissing | apps/api/core/drift/opendrift_pool.py:400-416 | each missing sample becomes that hour's centre sample or the fallback, and fetched samples stay |
| DebrisMix.Seed | apps/api/core/drift/opendrift_pool.py:1041-1056 | the seeding calls are the planned ones |
| DebrisMix.EveryMixIsConserved | apps/api/core/drift/opendrift_pool.py:1041-1056 | for any non-empty mix, any fractions and any count: batches are positive, sum to the particles, and tile the factor array |
| DebrisMix.AllSeededIff | apps/api/core/drift/opendrift_pool.py:1044-1056 | every component is seeded iff those before the last ask for less than all particles |
| DebrisMix.LastShareIsClose | apps/api/core/drift/opendrift_pool.py:1043-1045 | with fractions that sum to one, each share but the last is met to within one particle, and the last to within the number of the others |
| Correlation.Engine.Observe | apps/api/core/anomaly/correlation.py:113-127 | the window and the threat after one observation |
| Correlation.WindowIsHistory | apps/api/core/anomaly/correlation.py:117-126 | over every run the window is the part of the history since the last threat that is younger than 120 seconds, and no more, and its score is below the alert threshold |
| Correlation.FiresIffReached | apps/api/core/anomaly/correlation.py:121-127 | a threat fires iff that part of the history, with the new observation, reaches the threshold, and its evidence is that part |
| Correlation.ThreatsAreDisjoint | apps/api/core/anomaly/correlation.py:124-152 | threats use disjoint stretches of the history, so no observation counts twice; each reports the types, the score, the urgency and the label of what was younger than 120 seconds then |
| Correlation.ScoreIsAdditive | apps/api/core/anomaly/correlation.py:121-122 | each sensor type counts once, with its own weight |
| Correlation.ChannelWeights | apps/api/core/anomaly/correlation.py:16-40 | what an observation on each channel is worth, and that no other channel is worth anything |
| Correlation.ThreeSensorsReachIff | apps/api/core/anomaly/correlation.py:16-25 | three sensor types reach 0.55 iff they are infrasound, seismic and one that carries weight |
| Correlation.DefaultAlertNeedsThree | apps/api/core/anomaly/correlation.py:16-25 | at threshold 0.55 a threat needs infrasound or seismic evidence and at least three sensor types |
| Evidence.RequiredIsStableIff | apps/api/core/evidence/cross_modal.py:20-24 | normalising a field again leaves it alone iff the cut did not fall after whitespace |
| Evidence.CutSpaceIsUnstable | apps/api/core/evidence/cross_modal.py:20-24 | at each of the limits 128, 256 and 512, a concrete field that changes when normalised again |
| Evidence.LineageIsStableIff | apps/api/core/evidence/cross_modal.py:27-32 | a normalised lineage is stable iff it still fits 128 characters |
| Evidence.LoweredLineageIsUnstable | apps/api/core/evidence/cross_modal.py:27-32 | ninety dotted capital I, which Python lower-cases to two characters each, give a lineage of 179 characters that is cut when normalised again |
| Evidence.ReferenceIsStableIff | apps/api/core/evidence/cross_modal.py:46-71 | a reference is rebuilt unchanged iff its id was cut cleanly and its lineage fits |
| Evidence.MakePacket | apps/api/core/evidence/cross_modal.py:85-141 | the constructor's loops build the specified packet or raise the specified error |
| Evidence.PacketIsCanonical | apps/api/core/evidence/cross_modal.py:85-133 | when equal ids mean equal references, the packet depends only on the sets of references, required classes and contradictions |
| Evidence.OrderIsIrrelevantIff | apps/api/core/evidence/cross_modal.py:87-96 | listing order and repetition never matter iff equal ids mean equal references |
| Evidence.SameIdSamePacket | apps/api/core/evidence/cross_modal.py:118-133 | two built packets whose material does not collide in the digest have the same id iff they are the same packet, groups and missing classes included |
| Evidence.RebuildIsIdentityIff | apps/api/core/evidence/cross_modal.py:85-141 | rebuilding a packet from its own fields is the identity iff no text field was cut after whitespace |
| Evidence.CutSubjectIsNotRebuilt | apps/api/core/evidence/cross_modal.py:85-141 | a concrete packet that is rebuilt as another one |
| Evidence.AddingKeepsGroups | apps/api/core/evidence/cross_modal.py:60-65 | adding references never loses a group, and derived references never add one |
| Evidence.AisAddsAtMostOne | apps/api/core/evidence/cross_modal.py:62-63 | any number of AIS references adds at most one group |
| Evidence.DerivedNeverCorroborates | apps/api/core/evidence/cross_modal_analysis.py:46-84 | derived evidence never changes the assessed state, groups, direct count or direct modalities, and direct and derived counts sum to the evidence |
| Evidence.AssessmentIsCanonical | apps/api/core/evidence/cross_modal_analysis.py:55-63 | the order and repetition of the contradiction records never matter |
| Evidence.EvaluateIndependence | apps/api/core/evidence/cross_modal_analysis.py:46-84 | the assessment loop gives the specified assessment, with sorted distinct contradictions and direct modalities, or the error for unknown evidence |
| Corroboration.ReferenceIsBuiltIff | apps/api/core/evidence/cross_modal.py:46-71 | a reference is built iff its id and lineage are not blank, class and modality are known, the confidence is a fraction and the time has a zone; it keeps what was observed |
| Corroboration.CollapseSplits | apps/api/core/evidence/cross_modal.py:29 | each longest run outside the lineage alphabet becomes one underscore, and what stands on either side is treated alone |
| Corroboration.LineageKeeps | apps/api/core/evidence/cross_modal.py:29 | lower-case letters, digits, colon, underscore and dash stay in a lineage |
| Corroboration.PacketMeans | apps/api/core/evidence/cross_modal.py:85-141 | a built packet holds the first reference under each id, sorted; its groups are the lineages of the direct references, with all AIS evidence as one; missing are the required classes that no reference has |
| Corroboration.PacketIsBuiltIff | apps/api/core/evidence/cross_modal.py:85-117 | a packet is refused iff a field is blank, a class is unknown, the ceiling is no fraction, there is no evidence, or there is too much of anything |
| Corroboration.AssessmentMeans | apps/api/core/evidence/cross_modal_analysis.py:46-84 | a built packet is multi-lineage iff there are no contradictions and two direct references differ in lineage, not both AIS; counts, modalities and contradictions are those of the evidence; refused iff a record is about unknown evidence |
| Corroboration.RecordsAreListed | apps/api/core/evidence/cross_modal_analysis.py:61-64 | contradictions are listed by topic, then evidence ids, then reason |
| Text.StripTakesSpace | apps/api/core/evidence/cross_modal.py:21 | stripping takes whitespace off both ends, and nothing else |
| Text.StringOrderIff | apps/api/core/evidence/cross_modal.py:96 | strings are sorted by their first differing character, a proper prefix first |

## Left out

- HTTP, signatures, WebSocket broadcast, the Nostr bridge, R2 snapshots, Redis and SQL engines: only the state and atomic updates they stand for are modelled. A POST to the edge is one atomic step.
- `LiveRoom.reset`, source-health heartbeats and status labels: they wipe or decorate state.
- Validators of geometry, properties and confidence: their verdict is the input's `wellFormed` flag.
- `public_event_from_row` and the scan queries: which rows are eligible, and with what payload, is arbitrary input to `Publisher.Collect`.
- Publisher.Collect: `was_ever_delivered` is a plain prefix test here; SQL LIKE also treats `%` and `_` in an incident id as wildcards and ignores ASCII case.
- Publisher.Deliver: the clock is given per POST, and the stored error text is a constant; a crash is modelled between the edge's ingest and the acknowledge.
- Outbox row order: creation order is insertion order, which needs the publisher's clock not to go back.
- Clustering.Cluster: groups hold indices of points, and the distance is any function of two points; the haversine formula is not modelled.
- ConvexHull.Hull: the two pop loops of the source are one method, run in both directions.
- The AIS `gap` and `coverage_gap` alerts, persistence of alerts and the sanctions download: the sweep is modelled for what it forgets. Every vessel's rows are modelled; only unreadable source times are resolved before the model.
- AisDetector.CallPublishesIff: needs a nondecreasing clock that has run for three hours since its epoch, because a missing cooldown reads as time zero.
- Jobs and Leases: atomic claims and an ordered table scan are assumed; job payloads, heartbeats and listings are not modelled.
- RateLimit: the request's address parsing and the drift semaphore are not modelled; the window theorems need a nondecreasing clock.
- Navtex.ChunkingIsInvisibleIff: says nothing about drains that overflow the 65,536-character buffer, where text is discarded (`OverflowKeepsNewest` says which).
- Landing.Solve: for air with k g dt^2 above 1/20, which with the default drag takes more than 170 square metres per kilogram, it says nothing about entries outside such a bound; impact coordinates, rounding and the fragment radius are not modelled, and trigonometry is in the entry velocities.
- Forcing: only one variable at one position at a time; fetching, wave factors and the covariance ellipse are not modelled, and `_trajectory_properties` would only add easy members.
- DebrisMix.Seed: fractions are real numbers; NaN and infinities are not modelled.
- Correlation: Redis transport, geomagnetic suppression and forensic packets are not modelled; weights are exact.
- Evidence: the digest is any function of the packet's material, and collisions are excluded only between the two packets compared; the constructor of contradiction records and their field limits are not modelled.
