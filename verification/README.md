# Liqo resource agent: a verified model

The agent turns a broker's reservations into local instruction objects, acknowledges and expires them,
subtracts the enforced ones from the capacity it advertises, and publishes the result without disturbing
the broker's own `Reserved` bookkeeping. Several writers do this at once, over versioned stores, through
lagging caches and against a moving clock. This project models those writers and proves what they keep.

| file | what it holds |
|---|---|
| `Base.dfy`, `Sums.dfy` | optional values, the time line, sums that do not depend on order |
| `Api.dfy` | the local API server: instructions with versions and a status subresource |
| `Instructions.dfy` | key and spec of the instruction of a reservation |
| `Reconcilers.dfy` | the two instruction reconcilers and their timers |
| `AtomicStore.dfy` | the store as if every reconcile were one indivisible step |
| `Interleaving.dfy` | all writers in flight, stale reads, lost answers; each step of it is a step of `AtomicStore` |
| `Safety.dfy` | what holds in every concurrent run |
| `Ingestion.dfy`, `Agreement.dfy` | poller and watcher: first sighting and last event; when they agree |
| `Activations.dfy` | the methods are the activations of the concurrent machine |
| `Collector.dfy`, `Accounting.dfy` | the metrics collector, and its figures in every concurrent run |
| `Publishing.dfy`, `HttpPublishing.dfy` | the versioned and the HTTP publish protocol against a concurrent broker |
| `ClockSync.dfy` | the clock-aligned schedule |
| `Backoff.dfy` | HTTP retries and the watcher's main loop |

How the system is represented:

- Provider and requester instructions carry the same fields up to names, so one store indexed by `Kind`
  holds both; `flag` is `Enforced` or `Delivered`, `peer` is the other cluster.
- A write is accepted only at the version that was read, and gives the object a version that was never used
  before. Reads go through the informer cache, so a Get may return any version the object ever had, or miss
  it (`cmd/main.go:351`, `cmd/main.go:365`). The collector lists through the same kind of client
  (`cmd/main.go:316`), so its list holds, for some of the keys, what the store held at some earlier moment,
  a moment of its own for each. Sequential methods take the answer of a Get as a parameter; what
  other writers do between two calls, or between the writes of one call, is the subject of `Interleaving.dfy`
  and `Safety.dfy`, and `Activations.dfy` ties the two together write by write.
- Clock readings, answers of the broker, parsing of quantities and of RFC 3339 time stamps are parameters.
  A quantity is an integer number of smallest units. Times are nanoseconds on one line.
- The broker is an environment that may write or delete at any moment. For HTTP, a POST is taken to replace
  the record.

What turned out not to hold, with the exact condition under which it does:

- `Enforced` does not mean that the stored spec was checked: between the watcher's two writes the old flag
  sits beside the new spec (`WatcherRewritesUnderFlag`, `EnforcedBesideExpiredSpec`). The stored spec is
  the checked one if and only if no rewrite has landed since, or the last one brought the same spec
  (`FlaggedSpecOrigin`).
- Over HTTP, `Reserved` can be undone by a POST or wiped after a failed GET (`HttpLosesReserved`). It stays
  the broker's last word throughout a run if and only if every POST of it is harmless, which can be told
  from the GETs, the POSTs and the values the broker writes between them (`FaithfulIffHarmless`).
- Two accepted status writes are all an instruction ever gets if and only if it is a requester's or has no
  expiry (`TwoWritesSufficeIff`); a provider's that can expire is rewritten at every wakeup after its expiry
  (`ExpiredProviderIsRewritten`), though spec and flag then stay (`WithdrawnForGood`).
- Two wakeups for an expiring instruction are guaranteed to be enough when nothing but its timer wakes the
  reconciler; in general they are enough exactly if the third that lands comes after the expiry
  (`AcknowledgedForTwoWakeups`, `OwnWriteAddsAWakeup`). A wakeup lands if it reads the current instruction and
  its write, if any, is accepted; a stale read ends in a conflict and an error requeue, or in no write until
  the cache's update wakes the reconciler again. The time bound holds with any number of extra wakeups, and each
  lost one adds its own length and retry delay (`WithdrawnInTime`).
- An update schedule aligned to the interval, and one update per interval, hold exactly for whole-minute
  intervals that divide the hour (`AlignedIffDividesHour`, `PeriodicIffDividesHour`). Every other
  interval gets a schedule that repeats hourly: the minute the previous hour rolled over to, then the
  multiples of the interval within the hour, and one update an hour from one hour on (`HourlySchedule`).
- For intervals that divide the hour, the next advertisement is scheduled exactly when no boundary passes
  between two clock readings (`ScheduledIffSameSlot`). That a timer is set exactly for the update a fresh look
  would give holds for intervals that divide the hour or are whole hours, and for no others
  (`ScheduledIffSameUpdateIff`).
- An expiry that cannot be read makes the watcher store an instruction without expiry (`UnreadableExpiry`) and
  the whole poll fail, so a reservation is missed by the poller for the sake of any other record beside it
  (`AnotherRecordSpoilsThePoll`). Poller and watcher hold the same spec of an unchanging reservation that the
  watcher has landed if and only if some answer that offered it could be read as a whole (`IngestorsAgree`).
- A watcher event is lost exactly when its lookup was not current (`UpsertLandsIffCurrent`), so what is
  stored is the last ingestion that landed (`LastLandedIsStored`), not always the last event.

Where comments and code disagree the code is followed: the interval is truncated, not rounded, to minutes
(`internal/controller/advertisement_controller.go:190`); the poller creates and never updates
(`internal/transport/http/poller.go:168`); `Available` also excludes what is reserved
(`api/v1alpha1/advertisement_types.go:55`); the watcher does not look at the type of an event, so a deletion
of a reservation in phase `Reserved` is ingested like any other change.

## Model

| member | source | states |
|---|---|---|
| `Api.Server.Create` | api/v1alpha1/providerinstruction_types.go:42 | a create is refused on an existing object; otherwise it stores a blank status under a new version |
| `Api.Server.UpdateSpec` | internal/publisher/reservation_watcher.go:315-320 | a spec write is refused unless its version is current, and leaves the stored status alone |
| `Api.Server.UpdateStatus` | internal/controller/providerinstruction_controller.go:50-53 | a status write is refused unless its version is current, and leaves the stored spec alone |
| `Api.WriteAnswers` | internal/controller/providerinstruction_controller.go:50-53 | when each of the three writes is refused and why; an accepted one changes one key, at the next version, and leaves the part it is not about |
| `Instructions.NamingIsInjective` | internal/transport/http/poller.go:172 | distinct reservations never share an instruction name |
| `Reconcilers.ReconcileProvider` | internal/controller/providerinstruction_controller.go:27-105 | store and requeue answer for every Get answer, clock reading and write outcome: expired is always rewritten to not enforced, unexpired is enforced once |
| `Reconcilers.ReconcileRequester` | internal/controller/reservationinstruction_controller.go:27-116 | the same for delivered, where an expired instruction is written only while still marked |
| `Reconcilers.ReconcileWithoutInstruction` | internal/controller/providerinstruction_controller.go:31-37 | a deleted instruction finishes without a requeue, a failed lookup is an error to retry; neither writes |
| `Reconcilers.ReconcileAfterExpiry` | internal/controller/reservationinstruction_controller.go:40-65 | past the expiry field the flag is down, the provider writes every time, the requester only when it was up, and there is no requeue |
| `Reconcilers.ReconcileInForce` | internal/controller/providerinstruction_controller.go:59-104 | up to and at the expiry the flag is up after at most one write, and the requeue is the time left or 300 s |
| `Reconcilers.ReconcileStale` | internal/controller/providerinstruction_controller.go:50-53 | a reconcile that read something else than what is stored writes nothing, and fails exactly if it would have to write |
| `Reconcilers.WakeupIsReconcile` | internal/controller/providerinstruction_controller.go:31-104 | a reconcile that reads the stored instruction leaves the flag and asks for the delay that the schedules assume; one that reads another version changes nothing |
| `Reconcilers.FlagFollowsExpiry` | internal/controller/providerinstruction_controller.go:40-87 | a wakeup that lands leaves the instruction acknowledged exactly if it finds it unexpired; one that is lost leaves it as it was |
| `Reconcilers.WithdrawnInTime` | internal/controller/providerinstruction_controller.go:59-104 | with any number of extra and of lost wakeups, the withdrawing one is the first to land after E, comes by E + 5 minutes plus one wakeup's lateness and length and the time of those lost directly before, and the flag never rises again |
| `Reconcilers.AcknowledgedForTwoWakeups` | internal/controller/providerinstruction_controller.go:59-104 | of three wakeups that land the third leaves the instruction acknowledged exactly if it is not past the expiry, and never if timers alone wake the reconciler |
| `Reconcilers.OwnWriteAddsAWakeup` | internal/controller/providerinstruction_controller.go:107-112 | a schedule with one early wakeup in which three do |
| `Reconcilers.WakingAtExpiryWaitsFiveMinutes` | internal/controller/providerinstruction_controller.go:40-68 | the bound is reached by a timer that fires exactly at the expiry |
| `AtomicStore.FlagRisesOnce` | internal/controller/providerinstruction_controller.go:40-92 | undisturbed, the flag goes false, true, false, and falls only at expiry |
| `AtomicStore.SpecProvenance` | internal/publisher/reservation_watcher.go:299-320 | a key is taken exactly if a spec was stored and not removed since, and the last one stored is the one it holds |
| `AtomicStore.FlagProvenance` | internal/controller/providerinstruction_controller.go:86-92 | a raised flag goes back to one reconcile that found its spec unexpired; the spec beside it is that one or the last rewrite since |
| `Interleaving.AcceptedMeansFresh` | internal/controller/providerinstruction_controller.go:89 | an accepted versioned write meets exactly the instruction that was read |
| `Interleaving.StepKeepsInv` | internal/publisher/reservation_watcher.go:299-325 | every step of every writer keeps the version log, the naming and the pending reads consistent |
| `Interleaving.StepIsAtomic` | internal/controller/providerinstruction_controller.go:31-92 | each step with stale reads and pending writes is one step, or none, of the atomic machine |
| `Safety.RunIsAtomic` | internal/controller/providerinstruction_controller.go:31-92 | every concurrent run is a run of the atomic machine |
| `Safety.ReadsMayLag` | cmd/main.go:351-365 | in every run a read may answer with whatever the store held at any earlier moment, or with nothing |
| `Safety.FlagRisesOnWhatWasRead` | internal/controller/providerinstruction_controller.go:31-92 | every rise of a flag is a write whose activation read exactly the stored instruction and found it unexpired, with no write in between |
| `Safety.FlaggedSpecOrigin` | internal/publisher/reservation_watcher.go:315-325 | the spec beside a raised flag is the last watcher rewrite since the check, if any; it is the checked one if and only if there was none or the last one brought the same spec |
| `Safety.PolledInstructionLife` | internal/transport/http/poller.go:169-219 | without watcher and deletion of that key: spec immutable once created, flag false, true, false, withdrawn only when expired |
| `Safety.AtMostTwoWrites` | internal/controller/reservationinstruction_controller.go:40-103 | at most two accepted status writes for a requester instruction, one for any that cannot expire; after the last of them the instruction never changes |
| `Safety.TwoWritesSufficeIff` | internal/controller/providerinstruction_controller.go:40-92 | in all undisturbed runs two accepted writes suffice if and only if the instruction is a requester's or has no expiry |
| `Safety.WithdrawnForGood` | internal/controller/providerinstruction_controller.go:46-57 | once a write has found an instruction of either kind expired, its spec and its lowered flag stay |
| `Safety.OneInstructionPerReservation` | internal/transport/http/poller.go:172-208 | in every run an instruction sits under the key of its reservation, so two of one kind never name the same one |
| `Safety.LastLandedIsStored` | internal/publisher/reservation_watcher.go:299-325 | in every run an instruction is there exactly if an ingestion has landed and was not deleted since; its spec is that of the last one that landed, handed to the same activation before |
| `Safety.LastEventDecides` | internal/publisher/reservation_watcher.go:299-325 | among all writers, a watcher's event stores its spec exactly if its lookup is still current at the write, and then decides until another ingestion lands or the key is deleted |
| `Safety.UnchangingReservation` | internal/publisher/reservation_watcher.go:272-320 | in every run of pollers and watchers together, a reservation that never changes is stored with its own spec, whoever stored it |
| `Safety.StoredSpecWasIngested` | internal/transport/http/poller.go:189-206 | every stored spec is that of a reservation some ingestor was handed earlier in the run |
| `Safety.ExpiredProviderIsRewritten` | internal/controller/providerinstruction_controller.go:40-57 | for every n, a run in which the provider reconciler writes one expired instruction n times |
| `Safety.PollThenEnforce` | internal/transport/http/poller.go:169-219 | any unexpired reservation can be polled and enforced: the runs spoken of exist |
| `Safety.WatcherRewritesUnderFlag` | internal/publisher/reservation_watcher.go:315-325 | at any moment of any run two watcher steps can put any spec beside a raised flag |
| `Safety.EnforcedBesideExpiredSpec` | internal/publisher/reservation_watcher.go:315-325 | a run that ends with Enforced beside a spec that had expired at every moment of it |
| `Ingestion.CreateInstruction` | internal/transport/http/poller.go:116-219 | creates the instruction of a reservation not found, and reports failure exactly on a failed lookup or an existing object |
| `Ingestion.PollAndProcess` | internal/transport/http/poller.go:85-113 | the loop equals create-if-missing over the Reserved entries, or nothing when the fetch failed |
| `Ingestion.Poll` | internal/transport/http/poller.go:70-82 | requester first, then provider, each failing on its own |
| `Ingestion.PollStoresFields` | internal/transport/http/poller.go:93-219 | which entries create, under which name, and every field of the new instruction: the peer is the requester for a provider and the target for a requester |
| `Ingestion.PollNeverRewrites` | internal/transport/http/poller.go:127-130 | an existing instruction survives any polling untouched |
| `Ingestion.FirstMissWins` | internal/transport/http/poller.go:93-110 | whatever the lookups answer, the first Reserved entry whose lookup found nothing decides the spec |
| `Ingestion.FirstSightingWins` | internal/transport/http/poller.go:116-219 | with a cache that merely lags, the first Reserved entry whose lookup did not fail decides the spec |
| `Ingestion.RoundsAreOnePoll` | internal/transport/http/poller.go:60-91 | any number of polls, failed ones among them, do what one poll of all their entries does |
| `Ingestion.Watcher.ProcessEvents` | internal/publisher/reservation_watcher.go:122-205 | the event loop with all its filters equals the fold of upserts over the events that concern this cluster |
| `Ingestion.IgnoredEvents` | internal/publisher/reservation_watcher.go:122-158 | an event that is no object, lacks spec, status or resources, is not in phase Reserved or names this cluster in no role changes nothing |
| `Ingestion.OtherRolesKept` | internal/publisher/reservation_watcher.go:162-204 | an event leaves every instruction alone that is of another reservation or of a role in which it does not name this cluster |
| `Ingestion.EventStoresFields` | internal/publisher/reservation_watcher.go:215-326 | a Reserved event that names this cluster stores, on a current lookup, its own fields, the reset flag, the stamp and, for a requester, its version |
| `Ingestion.Upsert` | internal/publisher/reservation_watcher.go:215-326 | spec write, then status reset on the version that write produced; succeeds exactly when the lookup was current |
| `Ingestion.UpsertLandsIffCurrent` | internal/publisher/reservation_watcher.go:299-325 | an upsert takes effect exactly when its lookup was current, and touches no other key |
| `Ingestion.LastLandedWins` | internal/publisher/reservation_watcher.go:122-205 | for any events and lookups, in a store that only the watcher writes, the stored spec is that of the last event about the reservation that landed, and the flag is down |
| `Ingestion.NoneLandedKeeps` | internal/publisher/reservation_watcher.go:299-325 | there, if none landed the key keeps what it had |
| `Ingestion.LastEventWins` | internal/publisher/reservation_watcher.go:122-205 | there, the last Reserved event decides as soon as its own lookup is current |
| `Agreement.IngestorsAgree` | internal/publisher/reservation_watcher.go:272-320 | for any answers, events and lookups about unchanging reservations: the two never hold different specs; of one the watcher landed they hold the same if and only if some answer readable as a whole offered it, and of one the poller took up if and only if some event landed |
| `Agreement.AgreementNeedsReadableAnswer` | internal/transport/http/client.go:163-169 | of a landed reservation that every answer offers they hold the same spec if and only if one of the answers can be read as a whole |
| `Agreement.AnotherRecordSpoilsThePoll` | internal/transport/http/client.go:163-169 | a readable reservation polled beside any unreadable record is stored by the watcher and not by the poller |
| `Agreement.UnreadableExpiry` | internal/publisher/reservation_watcher.go:292-297 | a reservation whose expiry cannot be read never gets through a poll, and the watcher stores it, when an event lands, without expiry |
| `Activations.ReconcileActivation` | internal/controller/providerinstruction_controller.go:31-92 | a reconcile call does what its steps do in the concurrent machine |
| `Activations.PollActivation` | internal/transport/http/poller.go:169-219 | so does a create of the poller |
| `Activations.UpsertActivation` | internal/publisher/reservation_watcher.go:299-325 | so does an upsert, write by write, with anything in between; the first write lands exactly if its lookup is current |
| `Collector.IsNodeReady` | internal/metrics/collector.go:296-303 | true exactly when the first Ready condition is True |
| `Collector.FirstReadyConditionDecides` | internal/metrics/collector.go:296-303 | the first Ready condition alone decides; without one a node is not ready |
| `Collector.SumContainers` | internal/metrics/collector.go:151-162 | container sums, and the sticky flag is set exactly when a container mentions GPU |
| `Collector.MaxInitContainers` | internal/metrics/collector.go:164-181 | init container peaks and the sticky flag |
| `Collector.InitPeakIsPeak` | internal/metrics/collector.go:164-181 | the peak is the least non-negative upper bound of the requests |
| `Collector.ShareCoversRequests` | internal/metrics/collector.go:183-217 | a pod's share less overhead is the least non-negative amount that covers its containers together and each init container alone |
| `Collector.CalculateAllocated` | internal/metrics/collector.go:124-222 | the gated loop computes the ungated sum over active pods of max(containers, init peak) + overhead; GPU is present exactly when an active pod mentions it |
| `Collector.PodContribution` | internal/metrics/collector.go:138-219 | each running or pending pod adds its share, any other nothing; the GPU figure is there exactly if some such pod lists GPUs |
| `Collector.CalculateReserved` | internal/metrics/collector.go:225-293 | sum over enforced, unexpired instructions; an unreadable CPU drops the memory too, an unreadable memory keeps the CPU |
| `Collector.ReservedShare` | internal/metrics/collector.go:242-283 | what one instruction adds, from its flag, its expiry and what the parser says of its two requests: nothing unless enforced |
| `Collector.SumNodes` | internal/metrics/collector.go:47-79 | capacity and allocatable over ready nodes, GPU exactly when a ready node's capacity has it |
| `Collector.NodeContribution` | internal/metrics/collector.go:47-79 | each ready node adds its capacity to the capacity and its allocatable to the allocatable, any other nothing; GPU figures are there exactly if a ready capacity lists them |
| `Collector.CollectClusterResources` | internal/metrics/collector.go:23-121 | succeeds exactly on a complete, non-empty snapshot, names the first failure otherwise, and returns the declarative metrics |
| `Collector.Conservation` | internal/metrics/collector.go:93-112 | each figure stands under its own name, and available + allocated + reserved is what the ready nodes offer, for CPU, memory and, where present, GPU |
| `Collector.PodsInAnyOrder` | internal/metrics/collector.go:138-219 | allocated is the same for pods that agree up to the order of pods, containers and init containers |
| `Collector.OrderDoesNotMatter` | internal/metrics/collector.go:47-112 | all metrics, and the presence of each GPU figure, are the same under any reordering at any level |
| `Accounting.ReservedIsBounded` | internal/metrics/collector.go:242-279 | reserved never exceeds what unexpired instructions ask for |
| `Accounting.UpToDateCache` | cmd/main.go:316 | the current store is among the lists considered |
| `Accounting.ReservedIsExact` | internal/metrics/collector.go:242-279 | in every run, for any lagging list whose versions had each been reconciled since their last other write, reserved is exactly the unexpired sum, at any later time |
| `Accounting.EachReservationCountsOnce` | internal/metrics/collector.go:242-275 | in every run, for any lagging list, any total over the listed instructions is the total over distinct reservations, each counted once |
| `Accounting.AdvertisedAvailability` | internal/metrics/collector.go:93-112 | end to end: available + allocated + each listed unexpired reservation once is what the ready nodes offer |
| `Accounting.ReservationIsHeldUntilExpiry` | internal/metrics/collector.go:242-275 | in every run a listed enforced instruction goes back to an ingested reservation and adds exactly its request to reserved until its expiry, then nothing |
| `Publishing.BrokerApi.Create` | internal/publisher/broker_client.go:166-173 | a create is refused on an existing advertisement |
| `Publishing.BrokerApi.Update` | internal/publisher/broker_client.go:175-183 | an update is refused unless its version is current |
| `Publishing.PublishAdvertisement` | internal/publisher/broker_client.go:89-186 | writes the four figures and the captured `reserved`, and succeeds exactly when disabled or when its write lands |
| `Publishing.PublishShowsFigures` | internal/publisher/broker_client.go:117-183 | a publish lands exactly on the version it read or, after a failed Get, on nothing; then each of the four names shows its own figure, `reserved` is that of the Get, and there is no other name |
| `Publishing.LandedWriteIsAtomic` | internal/publisher/broker_client.go:136-183 | a write that lands carries `reserved` as it is at that instant |
| `Publishing.AgentStepKeepsReserved` | internal/publisher/broker_client.go:108-183 | no step of the agent changes `reserved` |
| `Publishing.ReservedIsTheBrokersLastWord` | internal/publisher/broker_client.go:108-183 | in every interleaving, failed Gets included, `reserved` is what the broker last wrote |
| `Publishing.FiguresAreTheLastPublished` | internal/publisher/broker_client.go:108-183 | in every interleaving, if the last write was a publish, the record shows the figures that publish began with and the broker's last word on `reserved`; else it is what the broker wrote, or gone |
| `Publishing.NoRecordWithoutWrite` | internal/publisher/broker_client.go:166-173 | before any write there is no record |
| `HttpPublishing.PreserveReserved` | internal/transport/http/client.go:91-106 | the copied field is the decoded one exactly if the status was 200, the body decoded and had one, else the agent's own; unset at first, it is what the interleavings take a publish to post |
| `HttpPublishing.PostedIsOldOrNothing` | internal/transport/http/client.go:79-138 | a POST leaves nothing, or exactly the value held at its GET |
| `HttpPublishing.PostStep` | internal/transport/http/client.go:108-121 | a POST keeps the field at the broker's last word exactly when that has not changed since its useful GET, or when there is nothing to lose |
| `HttpPublishing.FaithfulIffHarmless` | internal/transport/http/client.go:79-138 | for every run: the field is the broker's last word throughout if and only if every POST is harmless |
| `HttpPublishing.UndisturbedRunsPreserve` | internal/transport/http/client.go:79-138 | in runs whose GETs are useful and undisturbed the field is the broker's last word |
| `HttpPublishing.HttpLosesReserved` | internal/transport/http/client.go:79-138 | a four-step run in which the broker's last word is lost |
| `ClockSync.CalculateNextClockSync` | internal/controller/advertisement_controller.go:189-212 | minute arithmetic with rollover equals the closed form, for every clock and interval; for whole-minute intervals that divide the hour it is the least multiple of the interval after now |
| `ClockSync.IntervalMinutes` | internal/controller/advertisement_controller.go:191-194 | an interval under a minute counts as one minute, any other as the whole minutes in it |
| `ClockSync.SyncIsNextMultiple` | internal/controller/advertisement_controller.go:186-212 | an interval of whole minutes that divides the hour gets the least of its multiples after the clock |
| `ClockSync.SyncIsCountedFromTheHour` | internal/controller/advertisement_controller.go:189-212 | for every interval which instant it is: under two hours the first whole number of intervals after the start of the hour that is ahead; beyond, the instant of the next hour congruent to the interval |
| `ClockSync.SyncIsAhead` | internal/controller/advertisement_controller.go:189-212 | strictly later than now, less than two hours away, and at most one interval for intervals under two hours |
| `ClockSync.SyncIsMonotone` | internal/controller/advertisement_controller.go:189-212 | monotone in the clock, across hours too |
| `ClockSync.SyncIsLeastBoundary` | internal/controller/advertisement_controller.go:186-188 | for intervals dividing the hour: the least boundary after now, the same for all clocks of one slot |
| `ClockSync.EveryBoundaryOnce` | internal/controller/advertisement_controller.go:169-183 | iterated, it meets every later boundary exactly once |
| `ClockSync.AlignedIffDividesHour` | internal/controller/advertisement_controller.go:186-212 | always aligned if and only if the interval divides the hour |
| `ClockSync.PeriodicIffDividesHour` | internal/controller/advertisement_controller.go:186-212 | one update per interval if and only if the interval divides the hour |
| `ClockSync.HourlySchedule` | internal/controller/advertisement_controller.go:189-212 | for every interval the update is the rollover minute or a multiple of the interval in its hour, and the schedule repeats hourly with 59 / k + 1 updates: one an hour from one hour on |
| `ClockSync.RequeueDelay` | internal/controller/advertisement_controller.go:169-183 | the delay against a second clock reading; the default for a missing interval changes nothing |
| `ClockSync.ScheduledIffSameSlot` | internal/controller/advertisement_controller.go:176-183 | for intervals dividing the hour the delay is positive if and only if both readings fall into one slot |
| `ClockSync.ScheduledIffSameUpdateIff` | internal/controller/advertisement_controller.go:176-212 | a timer is always set exactly for the update a fresh look would give if and only if the interval divides the hour or is whole hours |
| `Backoff.DoWithRetry` | internal/transport/http/client.go:210-250 | at most N + 1 attempts; the first answer below 500, else the last response or error, else cancellation; pauses min(2^i, 16) s; the trailing error exactly for negative N |
| `Backoff.PausesTotal` | internal/transport/http/client.go:237-243 | the pauses add up to 2^n - 1 s up to five, and 31 + 16(n - 5) s beyond |
| `Backoff.PausesAre` | internal/transport/http/client.go:211-243 | the pauses are 1, 2, 4, 8 s and then 16 s each |
| `Backoff.Start` | internal/publisher/reservation_watcher.go:68-213 | after k failures in a row the delay is min(2^k, 60) s and the counter is k; the store is the fold over all delivered events |
| `Backoff.FailuresBefore` | internal/publisher/reservation_watcher.go:99-116 | the failures counted are those in a row since the last watch that ran, or the start |
| `Backoff.DelaysAre` | internal/publisher/reservation_watcher.go:99-116 | one second after a watch that ran; after k earlier failures in a row 1, 2, 4, 8, 16, 32 and then 60 s |

## Left out

- TLS, kubeconfig and HTTP transport set-up, Ping, Close, flags and manager wiring: input and output, no behaviour to state.
- Deep copies, scheme registration, DTO string conversion and the printing of quantities: generated or library code.
- Decoding of JSON and of unstructured maps: events carry optional fields, and only the filter decisions are kept.
- Namespaces: one namespace for all instructions.
- Truncation of stored times to seconds by the API server: an expiry is kept as it was parsed.
- Writes that change nothing and keep their version: every accepted write gets a new version, and one that changes nothing would be no step at all.
- Request bodies of HTTP retries: nothing is said about what a repeated POST carries.
- `Status.Published` and the rest of the advertisement reconciler: it is set before the broker is called and says nothing about delivery.
- GetClusterID and the creation of the first advertisement: single reads and writes that no other component races with.
- ClockSync.CalculateNextClockSync: takes the interval's minutes by integer division; `Minutes()` goes through floating point, which can differ for intervals beyond 45 days.
- Ingestion.LastLandedWins: the store is written by the watcher alone; with all writers it is `Safety.LastLandedIsStored` and `Safety.LastEventDecides`.
- Ingestion.NoneLandedKeeps: see Ingestion.LastLandedWins.
- Ingestion.LastEventWins: see Ingestion.LastLandedWins.
- The two RFC 3339 readers: the JSON decoder of a poll refuses a few spellings that the watcher's `time.Parse` takes; both are one parser here.
- Time zones and daylight saving: hours start at multiples of an hour on the time line.
