# gosmokeping verification model

gosmokeping is a distributed latency monitor: slaves probe targets on a schedule and push
their cycles to a master, which stores them, judges alerts and serves queries. Most of what
can go wrong in it is in-memory state kept correct by hand: rings and maps that must agree,
identities that are deleted to bound memory, transitions that are undone when a queue is full,
keys whose whole job is to differ when a configuration does. This project models that state in
Dafny 4.11 and proves what it promises.

Each module follows one component. Objects whose methods update fields are classes; what a
class's methods do is stated against functions on values, and whole runs are proved about
those functions.

- `PushSink`, `Dedup`, `Ingest`, `Delivery`, `Transport`, `Tolerance`: the slave's retry
  buffer, the master's redelivery window, and the two composed. Every cycle ever produced is
  always in exactly one place, and reaches the fanout at most once as long as few deliveries
  fail to return; how few is known exactly. None is given up but by the byte budget or by an
  answer of the master that is final for its batch. It is assumed that no two produced cycles
  have the same target and time.
- `Replay`, `Alerting`, `Paging`, `Dispatch`, `Notices`, `Evaluator`: the alert path. When an
  alert pages is told from the log of the cycles that arrived: so many in a row, or so many
  votes once warmed up. A measurement is
  applied to the alert state at most once although reapers delete the identity it was recognised
  by. The queue is given exactly the transitions the state machine keeps and somebody is to hear
  of, so what the operator hears of an alert is every firing and resolve the run kept, in order,
  up to what is still held; while no reload changes its quorum mode that alternates, and once
  nothing is held it ends in the stored state.
- `Cache`: the caching reader as a singleflight protocol over an LRU, and what its callers get.
- `Registry`: two maps kept one bijection under claims, pins, steals and sweeps; who claims an
  address first keeps it but for a pin, a sweep or a claim of its own.
- `TtlWalk`, `IcmpSchedule`: the probes' loops, their budgets and their sequence numbers.
- `Fingerprint`, `HealthSet`, `Lifecycle`: the rebuild key, which no two configurations share,
  and the loop that rebuilds on it.
- `Payload`, `Stats`: what a pushed cycle may hold and the summary recomputed from it.
- `TargetTree`: the SmokePing configuration's target tree; `HopGrid`: the hop timeline's buckets.
- `Names`, `Wrappers`: sorted name lists and an option type.

Times and durations are integer nanoseconds (the cache's and the registry's are any integer
clock). A Go string is a Dafny string whose chars stand for bytes. Clocks, random draws,
parsers, query results and what a send returns are parameters.

Results that came out other than the code's comments suggest, each with its exact condition:

- A measurement can be applied twice exactly when accepting a stamp pushes another, still no
  older than the longest freshness any interval gives, out of a list of 1024 stamps ahead of the
  master's clock (`Replay.ReplayableIffEvicted`, `Alerting.RepeatsIffEvicts`;
  `Alerting.OverflowAppliesTwice` is a run that does it).
- A delivery that does not return gives its window slot back but leaves it in the ring. Up to 825
  of them do no harm in any run, and 826 can deliver a cycle twice even when every push is
  handled in batch order (`Tolerance.SurvivesIff`).
- A mesh that changes between the key and the build and then changes back leaves a scheduler
  built from the mesh in between (`Lifecycle.RecurrenceGoesUnseen`). A settled loop runs the
  present world exactly when the world made no net move between those two events
  (`Lifecycle.SettledRuns`).
- The key writes addresses unescaped, and an address may carry a zone of any text. One holding
  an entry byte and then a field byte reads back as two peers (`HealthSet.RawAddressForgesPeer`);
  the key tells all meshes apart exactly when address text cannot hold both of those bytes
  (`HealthSet.DistinguishesIff`).

## Model

| member | source | states |
|---|---|---|
| `Dedup.RunIsSound` | internal/cluster/master/dedup.go:28-53 | over every run of admits and forgets, distinct unreleased identities in the window and every released position in range |
| `Dedup.RefusedIffProtected` | internal/cluster/master/dedup.go:55-82 | a call is refused exactly when the identity's insertion is among the last 1024 insertions and was not forgotten since |
| `Dedup.ProtectedIsRemembered` | internal/cluster/master/dedup.go:36-45 | an insertion with fewer than a window of insertions after it and no forget is still remembered |
| `Dedup.RememberedIsProtected` | internal/cluster/master/dedup.go:36-45 | whatever is remembered has such an insertion |
| `Dedup.SeenStep` | internal/cluster/master/dedup.go:69-80 | sliding past a slot drops that position from the map and no other, though a forget left its slot behind and the identity may have a newer one |
| `Dedup.ReplayRefines` | internal/cluster/master/dedup.go:34-82 | over every run the ring and the map hold the last window of the insertion log and its unreleased identities |
| `Dedup.SeenAnswers` | internal/cluster/master/dedup.go:56-60 | an identity is in the map exactly when the log remembers it |
| `Dedup.SeenIsBounded` | internal/cluster/master/dedup.go:19-23 | the map never outgrows the window however ring and map drift apart |
| `Dedup.SourceWindow.Intern` | internal/cluster/master/dedup.go:61-66 | sharing the target's string never changes the identity a call names |
| `Dedup.SourceWindow.Admit` | internal/cluster/master/dedup.go:55-82 | the in-place ring and map admit exactly what the log of calls does not remember |
| `Dedup.SourceWindow.Forget` | internal/cluster/master/dedup.go:127-135 | a forget is one more call of the log |
| `Dedup.VictimIsUnique` | internal/cluster/master/dedup.go:158-175 | the evicted window does not depend on map order |
| `Dedup.VictimIff` | internal/cluster/master/dedup.go:152-175 | a registered source is displaced only when every window's source is, and of those that may go it is the one unused for longest |
| `Dedup.CycleDedup.Victim` | internal/cluster/master/dedup.go:158-171 | the least recently used unregistered window if there is one, else the least recently used, whatever order the map is walked in |
| `Dedup.CycleDedup.EvictLRU` | internal/cluster/master/dedup.go:158-175 | drops exactly that window and its identities |
| `Dedup.CycleDedup.WindowFor` | internal/cluster/master/dedup.go:107-115 | a newcomer displaces the victim only when the table is full, and then just it |
| `Dedup.CycleDedup.Admit` | internal/cluster/master/dedup.go:106-120 | one call answers for one source's log and touches no other window but a displaced victim's |
| `Dedup.CycleDedup.Forget` | internal/cluster/master/dedup.go:127-135 | releases an identity in its source's window and neither opens a window nor counts as a use of one |
| `Dedup.CycleDedup.ForgetSource` | internal/cluster/master/dedup.go:143-150 | drops a source's window unless the name is registered again |
| `PushSink.EntriesFor` | internal/cluster/slave/pushsink.go:137-142 | the least doubling of the ring that holds what is asked |
| `PushSink.ShedMeaning` | internal/cluster/slave/pushsink.go:155-200 | shedding costs the hops of the k oldest cycles that carry any and then d cycles of one end, no cycle while any carries hops, and no rung more than needed |
| `PushSink.OnCycleMeaning` | internal/cluster/slave/pushsink.go:250-266 | a new cycle goes to the end, evicts only from the front, and leaves the bytes within budget unless it is alone |
| `PushSink.RequeueMeaning` | internal/cluster/slave/pushsink.go:367-402 | a returned batch goes intact to the front, evicts only from the old tail, and leaves the bytes within budget unless only the batch remains |
| `PushSink.DropsLeaveNoHops` | internal/cluster/slave/pushsink.go:66-73 | a measurement is dropped only when nothing left buffered carries hops |
| `PushSink.StripOneMore` | internal/cluster/slave/pushsink.go:155-168 | each strip takes the hops of the oldest entry that has any |
| `PushSink.AllStripped` | internal/cluster/slave/pushsink.go:193-199 | after as many strips as hop-bearing entries none carries hops |
| `PushSink.StripOnlyHops` | internal/cluster/slave/pushsink.go:160-165 | a strip changes nothing of an entry but its hops |
| `PushSink.RowsAreCharged` | internal/cluster/slave/pushsink.go:105-127 | every hop, sample, text byte and spare slot of a payload is charged to the budget |
| `PushSink.WrapIsModulo` | internal/cluster/slave/pushsink.go:130-132 | the offset into the ring is (head + i) modulo its length |
| `PushSink.PushSink.Fits` | internal/cluster/slave/pushsink.go:148-150 | the byte counter and the ring the growth would need decide as the sum over the entries does |
| `PushSink.PushSink.StripOldestHops` | internal/cluster/slave/pushsink.go:155-168 | the cursor finds the oldest hop-bearing entry and strips it, or reports none |
| `PushSink.PushSink.DropOldest` | internal/cluster/slave/pushsink.go:171-180 | the first entry goes, counted, with its bytes, and the cursor still points past hopless entries only |
| `PushSink.PushSink.DropNewest` | internal/cluster/slave/pushsink.go:411-417 | the last entry goes, counted, with its bytes |
| `PushSink.PushSink.MakeRoom` | internal/cluster/slave/pushsink.go:193-200 | terminates with the outcome of a specification that has no cursor |
| `PushSink.PushSink.Resize` | internal/cluster/slave/pushsink.go:204-211 | a fresh ring of the new length holds the same sequence, accounting and cursor |
| `PushSink.PushSink.GrowFor` | internal/cluster/slave/pushsink.go:214-218 | growth changes the ring length only |
| `PushSink.PushSink.ShrinkIfIdle` | internal/cluster/slave/pushsink.go:230-241 | shrinking changes the ring length only |
| `PushSink.PushSink.OnCycle` | internal/cluster/slave/pushsink.go:250-266 | the ring refines the sequence specification of a push, and a health target's hops enter it only for a master that has markers |
| `PushSink.PushSink.Drain` | internal/cluster/slave/pushsink.go:330-359 | removes the first entries in order, every hop of a health target withheld if and only if the master lacks markers, and leaves the ring small or at least a quarter full |
| `PushSink.PushSink.Requeue` | internal/cluster/slave/pushsink.go:367-402 | the ring refines the sequence specification of a requeue |
| `Transport.FlushOnce` | internal/cluster/slave/runner.go:325-395 | a final answer costs the batch and nothing else; after any other, a lost one included, the whole batch is back at the head of the buffer, only newer cycles dropped for it; the runner ends exactly for want of its token or its name |
| `Transport.FlushMeaning` | internal/cluster/slave/runner.go:325-395 | the same of the sequence specification the runs are made of |
| `Transport.PushTick` | internal/cluster/slave/runner.go:289-308 | a tick flushes again only after an accepted full batch, so a failing batch is pushed once, and ends; the runner ends exactly on its last flush's answer |
| `Transport.NewCycleIds` | internal/cluster/slave/pushsink.go:250-266 | what a push does to the identities in the buffer |
| `Transport.RequeueIds` | internal/cluster/slave/pushsink.go:367-402 | what a requeue does to them |
| `Transport.NextIsCoupled` | internal/cluster/slave/runner.go:325-395 | strips, withheld hops and evictions are invisible to the identities: each step of the system is one event of the flow |
| `Transport.StepRefines` | internal/cluster/slave/runner.go:325-395 | one input of the real buffer is at most one enabled event of the flow |
| `Transport.TraceRefines` | internal/cluster/slave/runner.go:289-395 | so is a run of them, whatever the byte budget evicts |
| `Transport.DiscardedWasRefused` | internal/cluster/slave/runner.go:338-362 | over every run, a cycle is discarded only after a batch that held it was answered as unauthorized, not found or rejected |
| `Transport.OnlyTheBudgetLoses` | internal/cluster/slave/runner.go:338-395 | so over a run with no such answer every produced cycle is accepted, in flight, buffered, or counted as dropped |
| `Transport.EndToEnd` | internal/cluster/slave/runner.go:325-395 | buffer, retries and window together, with at most 825 deliveries failing to return: every produced cycle is in exactly one place, reaches the fanout at most once, and did reach it if its batch was accepted and its target known |
| `Ingest.ResolveTargets` | internal/cluster/master/inbound.go:43-64 | every id that occurs resolves to the last target of that id, health targets after configured ones |
| `Ingest.Deliver` | internal/cluster/master/inbound.go:135-146 | a delivery that does not come back gives its slot back |
| `Ingest.IngestCycle` | internal/cluster/master/inbound.go:73-115 | one cycle is unknown, a duplicate, delivered or given back, and the window answers the calls that come with it |
| `Ingest.IngestBatch` | internal/cluster/master/inbound.go:73-146 | the fanout gets the resolved cycles the window does not remember, in order, up to the first delivery that does not return, whose slot is released; otherwise accepted, duplicate and unknown make up the batch |
| `Ingest.DeliveredIsInserted` | internal/cluster/master/inbound.go:108-113 | the fanout gets exactly what the window inserts, in that order |
| `Ingest.DeliveredIsStamped` | internal/cluster/master/inbound.go:80-113 | nothing reaches the fanout but cycles of the batch, under the configured target's names, the batch's source and their own times |
| `Ingest.BatchDeliversOnce` | internal/cluster/master/inbound.go:80-86 | one batch reaches the fanout once per identity, however its names split group from name |
| `Ingest.BatchIsRemembered` | internal/cluster/master/inbound.go:108-113 | every resolved cycle of a batch of new identities is inserted |
| `Ingest.RedeliveryIsSilent` | internal/cluster/master/inbound.go:103-112 | a batch resent because its acknowledgement was lost delivers nothing and moves nothing |
| `Ingest.CycleIsHandled` | internal/cluster/master/inbound.go:103-146 | one cycle of the program, delivered or given back, is one event of the flow |
| `Ingest.IngestIsHandling` | internal/cluster/master/inbound.go:73-115 | the flow's events for a push leave the window and the fanout just as the program does |
| `Delivery.StepConserves` | internal/cluster/slave/runner.go:325-395 | every produced cycle is buffered, in flight, settled or lost, in one of these only |
| `Delivery.StepInOrder` | internal/cluster/slave/pushsink.go:330-402 | what can be sent again is always a suffix of what was posted, in posting order |
| `Delivery.StepNear` | internal/cluster/master/dedup.go:17-23 | identities inserted after one still unsettled were posted less than a batch from it |
| `Delivery.FewInsertionsSince` | internal/cluster/master/dedup.go:17-23 | so at most two batches less two of unreleased insertions follow an unsettled cycle's |
| `Delivery.FrontIsRemembered` | internal/cluster/master/dedup.go:17-23 | and the window still recognises it for as long as it can be sent again |
| `Delivery.EndToEnd` | internal/cluster/master/inbound.go:76-115 | under lost acknowledgements, retries, evictions and few enough failed deliveries, no identity reaches the fanout twice |
| `Delivery.ReleasesAreFailures` | internal/cluster/master/inbound.go:135-146 | no more recent slots are released than deliveries failed to return |
| `Delivery.FewFailuresAreCalm` | internal/cluster/master/inbound.go:135-146 | a run with at most 825 failed deliveries, and so one where every delivery returns, is such a run throughout |
| `Tolerance.OneFailureMore` | internal/cluster/master/inbound.go:118-146 | a run of slave and master with one failed delivery more, every push handled in batch order and cut short where a delivery failed, in which a cycle reaches the fanout twice |
| `Tolerance.SurvivesIff` | internal/cluster/master/dedup.go:17-23 | no run with at most n failed deliveries delivers an identity twice if and only if n is at most the window less two batches plus one |
| `Replay.RetentionCoversFreshness` | internal/alert/evaluator.go:1136-1151 | no accepted interval's freshness outlasts the retention of an identity |
| `Replay.AcceptKeeps` | internal/alert/evaluator.go:156-182 | the list of stamps ahead of the clock stays sorted, distinct, above the past mark and within the ceiling, even when it overflows |
| `Replay.AcceptKeepsBarred` | internal/alert/evaluator.go:156-182 | accepting a stamp bars it and keeps barred what was, all but the oldest stamp of a list it overflows |
| `Replay.AcceptWellKept` | internal/alert/evaluator.go:156-182 | short of an overflow every stamp applied stays barred |
| `Replay.ReplayableIffEvicted` | internal/alert/evaluator.go:143-182 | after an acceptance some applied stamp passes both the freshness gate and the mark at some later clock, under some accepted interval, exactly when it pushed out a stamp no older than the retention |
| `Alerting.MajorityDecides` | internal/alert/evaluator.go:902-924 | a majority pages only with more than half of the live sources firing and the warm-up over, and resolves only without |
| `Alerting.StepMarks` | internal/alert/evaluator.go:1056-1105 | a step accepts into one mark, forgets marks older than the retention, and leaves the rest |
| `Alerting.StepSpends` | internal/alert/evaluator.go:1056-1105 | a reaper that deletes an identity, or a list that drops a stamp, forgets only stamps every gate refuses from then on |
| `Alerting.RunSpends` | internal/alert/evaluator.go:647-654 | so an applied measurement stays spent over every run on a clock that does not go back |
| `Alerting.AtMostOnce` | internal/alert/evaluator.go:837-842 | no (target, alert, source, timestamp) is applied to the alert state twice, across reaping, reloads and every accepted interval, unless a full list evicts a stamp still fresh |
| `Alerting.ListedWasApplied` | internal/alert/evaluator.go:156-182 | over every run, whatever a list remembers was applied |
| `Alerting.RefusedHasReason` | internal/alert/evaluator.go:143-182 | over every run the guard turns away only a measurement it applied before or one older than what it applied, and one ahead of the clock only for one that is newer |
| `Alerting.RepeatsIffEvicts` | internal/alert/evaluator.go:647-654 | a run, or one it could have become, applies a measurement a second time if and only if some turn evicted a stamp no older than the retention |
| `Alerting.OverflowAppliesTwice` | internal/alert/evaluator.go:1166-1175 | past 1024 stamps ahead of the clock the guarantee fails, with a run that shows it |
| `Alerting.SourceStepTells` | internal/alert/evaluator.go:844-898 | a source's firing bit moves exactly with an accepted transition |
| `Alerting.SourceAlternates` | internal/alert/evaluator.go:844-898 | a source's accepted events strictly alternate, firing first, and the stored state is the last one told, though refused transitions are undone and quiet sources reaped |
| `Alerting.QuorumStepTells` | internal/alert/evaluator.go:902-948 | an aggregate moves exactly with an accepted transition |
| `Alerting.QuorumAlternates` | internal/alert/evaluator.go:902-948 | the same alternation for a (target, alert) with a quorum, whichever source drives it |
| `Alerting.AggNeverPending` | internal/alert/evaluator.go:903-910 | an aggregate is never pending |
| `Evaluator.PruneQuietSources` | internal/alert/evaluator.go:1090-1105 | the loop that deletes while it walks leaves the pruned map |
| `Evaluator.PruneKeepsVotes` | internal/alert/evaluator.go:1056-1073 | pruning changes no live source and so no vote |
| `Evaluator.Tally` | internal/alert/evaluator.go:1056-1073 | the counts are those of the pruned map, and stale sources leave the vote |
| `Notices.TakenIsAnOutcome` | internal/alert/evaluator.go:844-948 | what a step judges and offers does not depend on the answer of the queue |
| `Notices.MoveTells` | internal/alert/dispatcher.go:94-101 | with the live dispatcher a move commits a notice exactly when it is an accepted firing or resolve |
| `Notices.CommittedTells` | internal/alert/evaluator.go:700-745 | over every run the committed notices of a source or a quorum are the run's accepted firings and resolves, in order |
| `Notices.OperatorHears` | internal/alert/evaluator.go:693-699 | what was told and what its shard still holds are together the transitions the run kept: no kept transition goes untold |
| `Notices.HeardAlternates` | internal/alert/evaluator.go:693-699 | what the operator has heard alternates, firing first, and agrees with the stored state once nothing is held |
| `Notices.MovesAreNamed` | internal/alert/evaluator.go:814-822 | every alert the target names that is configured and parsed is judged, and no other |
| `Paging.RunCounts` | internal/alert/evaluator.go:844-866 | over every run the counters kept with a source are what the log says: how many triggered cycles in a row it has sent, and when it was last heard |
| `Paging.SourceDecides` | internal/alert/evaluator.go:844-898 | an applied cycle of a source that speaks for itself asks to page if and only if it and enough before it in a row triggered and it is not firing, goes pending if fewer did, resolves if it does not trigger, and moves if the queue takes it |
| `Paging.VoterDecides` | internal/alert/evaluator.go:844-898 | a source with a vote fires under the same count |
| `Paging.FiresIffSustained` | internal/alert/evaluator.go:844-898 | over every run under one sustained setting with no transition refused, reaping and stale votes included, a source fires exactly while its last sustained cycles in a row triggered, and is pending while fewer did |
| `Paging.VotersAreCounted` | internal/alert/evaluator.go:1056-1088 | the sources counted are exactly those the log heard within the window, and those of them firing |
| `Paging.RunWarms` | internal/alert/evaluator.go:912-924 | the warm-up record is what the log says: who was heard since the quorum's mode changed, and when the first was |
| `Paging.QuorumDecides` | internal/alert/evaluator.go:902-948 | a quorum asks to page if and only if more than half of the live sources, or as many as asked for, fire and two sources were heard or one for a whole warm-up, and resolves if and only if they do not |
| `Paging.ReapersReap` | internal/alert/evaluator.go:1056-1105 | no source that is silent for longer than the retention and out of the window is kept, but one that owes a resolve |
| `Paging.OffersFiringSources` | internal/alert/evaluator.go:844-948 | an offered event is the cycle's own, with the sources that fire once it is judged |
| `Paging.SourcePages` | internal/alert/evaluator.go:810-898 | in terms of the configuration and the cycle: an alert without a quorum offers its page on exactly that cycle |
| `Paging.QuorumPages` | internal/alert/evaluator.go:810-948 | and one with a quorum on the cycle that makes the votes and the warm-up |
| `Evaluator.SourceStep` | internal/alert/evaluator.go:844-898 | the step of a source that speaks for itself, from its parts |
| `Evaluator.QuorumStep` | internal/alert/evaluator.go:902-948 | the step under a quorum, from its parts |
| `Evaluator.Evaluator.Enqueue` | internal/alert/evaluator.go:870-898 | a transition is committed, under its own key and scrubbed, if and only if the queue takes it and it notifies somebody |
| `Evaluator.Evaluator.Unaided` | internal/alert/evaluator.go:867-899 | a transition is offered and committed so, and a refused one is undone after the reaper has run |
| `Evaluator.Evaluator.PollQuorum` | internal/alert/evaluator.go:902-924 | tally, threshold and warm-up in place come to the state machine's verdict |
| `Evaluator.Evaluator.MoveAggregate` | internal/alert/evaluator.go:926-948 | the aggregate moves if and only if the queue takes the transition, which is then committed if it notifies somebody |
| `Evaluator.Evaluator.StepSource` | internal/alert/evaluator.go:844-898 | an admitted cycle without a quorum is one step of the state machine, with the answer of the queue, and commits exactly what it offered and the queue took |
| `Evaluator.Evaluator.StepQuorum` | internal/alert/evaluator.go:902-948 | and with a quorum |
| `Evaluator.Evaluator.TakeStep` | internal/alert/evaluator.go:824-948 | and one that is not admitted offers nothing |
| `Evaluator.Evaluator.EvaluateOne` | internal/alert/evaluator.go:824-948 | one alert of one cycle extends the run by one gated step, and the ledger by exactly what that step keeps |
| `Evaluator.Evaluator.Evaluate` | internal/alert/evaluator.go:810-951 | every alert the target names is one step, in order, and the ledger stays the one those steps make |
| `Evaluator.Evaluator.OnCycle` | internal/alert/evaluator.go:631-691 | a cycle that sent nothing, names no alert, or is older than both five minutes and three intervals changes nothing; any other is its alerts' steps, and what was committed is what the run's steps kept |
| `Evaluator.Evaluator.WorkersStep` | internal/alert/evaluator.go:437-481 | workers stepping between calls leave that so |
| `Evaluator.Evaluator.Heard` | internal/alert/evaluator.go:693-699 | what the operator hears of a key is the transitions the run kept, in order, up to what is held; it alternates and ends in the stored state |
| `Evaluator.Evaluator.Pages` | internal/alert/evaluator.go:844-898 | what the evaluator's fields hold makes a cycle page exactly when it is the sustained triggered one in a row, counted on the run |
| `Evaluator.Evaluator.ReloadModes` | internal/alert/evaluator.go:612-629 | a reload drops the aggregates and warm-ups of exactly the alerts whose quorum mode changed |
| `Evaluator.TakesStep` | internal/alert/evaluator.go:647-654 | the gates in front of evaluate are those the runs assume |
| `Dispatch.Scrub` | internal/alert/evaluator.go:1014-1029 | no health target's address leaves, nothing else of its event changes, and no other event changes |
| `Dispatch.PushAccounted` | internal/alert/evaluator.go:700-745 | admitting keeps a shard's counter its bytes, over the ceiling only for one event alone |
| `Dispatch.ReleaseAccounted` | internal/alert/evaluator.go:460-481 | so does releasing |
| `Dispatch.KeyWithinShard` | internal/alert/evaluator.go:365-381 | an alert's events are within one shard, so its order is the shard's |
| `Dispatch.NumberedAlertsSpread` | internal/alert/evaluator.go:365-381 | two alerts of one target whose names differ only in a last byte of one block of eight, as two digits up to 7 do, are in different shards |
| `Dispatch.PushConsistent` | internal/alert/evaluator.go:725-745 | inflight is what is queued and in delivery, and each shard holds the rest of what it was given: kept by a push |
| `Dispatch.ReceiveConsistent` | internal/alert/evaluator.go:437-456 | kept by a worker's receive |
| `Dispatch.FinishConsistent` | internal/alert/evaluator.go:460-481 | kept when a delivery returns or panics |
| `Dispatch.QuitConsistent` | internal/alert/evaluator.go:437-456 | kept when a worker drains at shutdown, balancing both counters |
| `Dispatch.ToldInCommitOrder` | internal/alert/evaluator.go:365-381 | of one (target, alert), what was told is what was committed, in commit order, up to what is still held |
| `Dispatch.RefusesIffCrowded` | internal/alert/evaluator.go:725-745 | a shard refuses if and only if its channel is full, or it holds something and would pass its ceiling with the newcomer; so one with room refuses nothing |
| `Dispatch.DispatchQueue.Offer` | internal/alert/evaluator.go:700-745 | an open queue refuses an event somebody is to hear of if and only if its shard has its full depth pending, or holds some bytes and would pass the ceiling with the event's; what it takes it commits, nothing is queued after Close, and a refusal changes nothing but its counter |
| `Dispatch.DispatchQueue.Push` | internal/alert/evaluator.go:725-745 | commits one event |
| `Dispatch.DispatchQueue.Finish` | internal/alert/evaluator.go:458-481 | tells the event that was in delivery and releases its bytes |
| `Dispatch.DispatchQueue.Quit` | internal/alert/evaluator.go:437-456 | abandons what is queued, counted out |
| `Cache.OneQueryPerKey` | internal/storage/cache.go:275-328 | no two queries for one key are outstanding |
| `Cache.FewQueries` | internal/storage/cache.go:28-56 | nor more than the ceiling in all |
| `Cache.RunSound` | internal/storage/cache.go:275-373 | over all interleavings the maps, the list and the leaders agree |
| `Cache.AnswersAreResults` | internal/storage/cache.go:336-373 | whatever is cached or answered under a key is what some query for that key returned |
| `Cache.StoredStands` | internal/storage/cache.go:336-373 | a stored result stands, with no leader for its key, until it expires or is evicted |
| `Cache.NoRedundantLeader` | internal/storage/cache.go:280-311 | after a success no caller leads another query for the key within its lifetime, unless it was evicted |
| `Cache.HoldsMostRecent` | internal/storage/cache.go:676-722 | the cache holds exactly the most recently touched keys, in that order |
| `Cache.ItemsAreLastStored` | internal/storage/cache.go:336-373 | what is cached under a key is the result last stored for it |
| `Cache.HitIff` | internal/storage/cache.go:276-296 | over every run, a call is a hit if and only if its key is among the most recently touched and its last result has not expired, and then it is that result |
| `Cache.CallersGet` | internal/storage/cache.go:336-373 | over every run, a query's callers get its own result if it succeeded, its own error if it was refused or nothing with rows is cached, and the result last stored for the key otherwise |
| `Cache.AnswerStays` | internal/storage/cache.go:363-373 | an answer once given stays |
| `Cache.CachingReader.Lookup` | internal/storage/cache.go:676-692 | answers an entry if and only if it is cached and unexpired, and moves just that to the front |
| `Cache.CachingReader.Enter` | internal/storage/cache.go:280-311 | a hit for an unexpired entry, else joining the query outstanding for the key, else a refusal at the ceiling, else leadership, all under one lock |
| `Cache.CachingReader.Store` | internal/storage/cache.go:702-722 | the stored map and list are the specification's |
| `Cache.CachingReader.EvictPastMax` | internal/storage/cache.go:715-721 | the loop forgets exactly the least recently used past the maximum |
| `Cache.CachingReader.Finish` | internal/storage/cache.go:336-373 | callers get a success's very value, a refusal's own error, and after an outage the cached rows if there are any; the success is stored and the slot given back in one section |
| `Registry.MeshIsInjective` | internal/cluster/master/registry.go:54-74 | no two slaves of the mesh share an address |
| `Registry.PinBeatsSquatter` | internal/cluster/master/registry.go:298-330 | a pinned slave gets its address, whoever holds it, exactly when no other slave is pinned to it and holds it |
| `Registry.ClaimIsNext` | internal/cluster/master/registry.go:298-330 | what the two maps decide of a claim is what the mesh alone decides |
| `Registry.GetsIff` | internal/cluster/master/registry.go:298-330 | a claimant gets an address if and only if its own pin allows it and whoever holds it is pinned elsewhere, or has no pin where the claimant has |
| `Registry.LosesIff` | internal/cluster/master/registry.go:298-330 | a holder loses its address if and only if it claims otherwise or is pinned otherwise, is swept, or such a claimant comes |
| `Registry.RunIsInjective` | internal/cluster/master/registry.go:54-74 | over every run of check-ins and sweeps no two slaves hold one address |
| `Registry.LostOnlySo` | internal/cluster/master/registry.go:298-330 | over every run, an address is lost at an event that is one of these |
| `Registry.FirstComeKeeps` | internal/cluster/master/registry.go:322-330 | without pins an address changes hands only after its holder claimed otherwise or was swept |
| `Registry.ClaimMoves` | internal/cluster/master/registry.go:206-225 | a claim moves the mesh exactly when it moves the claimant's own address |
| `Registry.SweptMesh` | internal/cluster/master/registry.go:429-461 | a sweep moves the mesh exactly when it drops a member of it |
| `Registry.InverseDecides` | internal/cluster/master/registry.go:374-399 | the sorted inversion of the pins decides eligibility however they were walked |
| `Registry.PeerIff` | internal/cluster/master/registry.go:362-404 | while no two pins name one address, a pinned slave is listed exactly where its pin says, and an unpinned one exactly where nobody's does |
| `Registry.PeersAreDistinct` | internal/cluster/master/registry.go:362-404 | the listed peers have distinct addresses and are exactly the eligible ones |
| `Registry.Registry.ResolveAdvertise` | internal/cluster/master/registry.go:274-348 | grants a claim, unseats the owner that loses it, or refuses, as the mesh and the live pins say, both maps in step |
| `Registry.Registry.Claim` | internal/cluster/master/registry.go:199-233 | the mesh after a claim, and onChange exactly when it moved |
| `Registry.Registry.Touch` | internal/cluster/master/registry.go:152-243 | which calls are refused and why, that only a new name is kept out for it, that the mesh moves as the run's next check-in makes it, and onChange exactly when it moved |
| `Registry.Registry.Sweep` | internal/cluster/master/registry.go:429-461 | drops exactly those not heard of since the cutoff, as the run's next sweep does, keeps the bijection, and fires onChange exactly when the mesh moved |
| `Registry.Registry.Peers` | internal/cluster/master/registry.go:362-404 | distinct names and addresses, in name order, exactly the pairs the live pins admit |
| `TtlWalk.TallyAccounts` | internal/probe/trace.go:200-222 | the rows of a TTL are its responders, each once, with all their times in order, and every probe is in a row or a loss |
| `TtlWalk.TtlConserves` | internal/probe/trace.go:264-292 | the Sent of a TTL's rows sums to the probes sent there, and there are no more rows than probes |
| `TtlWalk.RowsAreLawful` | internal/probe/trace.go:264-293 | every row has Sent = Lost + its times, rows at one TTL differ in address or marker, and indices never decrease |
| `TtlWalk.TargetIsDeepest` | internal/probe/trace.go:247-268 | a target row stands at the deepest emitted TTL, the least one the target answered |
| `TtlWalk.TargetRowIffReached` | internal/probe/trace.go:223-244 | there is a target row exactly when some complete round reached the target |
| `TtlWalk.TraceRuns` | internal/probe/trace.go:190-238 | a round goes on until the target or an unreachable answers, the TTLs run out or the context is done, and rounds follow until there are enough or it is |
| `TtlWalk.CountsMeaning` | internal/probe/trace.go:223-244 | the counts are the rounds that came to an end of their own, and those of them whose last reply is the target's |
| `TtlWalk.ShownToTarget` | internal/probe/trace.go:247-268 | every TTL up to the first the target echoed at is shown whole, and none behind it |
| `TtlWalk.HopsAreLabelled` | internal/probe/trace.go:217-219 | a row carries the first unreachable label its responder gave |
| `TtlWalk.WalkConserves` | internal/probe/trace.go:175-295 | for any prober and context: lawful rows, every probe of an emitted TTL accounted for, rows at most rounds x maxTTL, reached <= attempted <= rounds |
| `TtlWalk.WalkRound` | internal/probe/trace.go:194-238 | one round in place on the aggregate array, stopped by its terminal, maxTTL or the context |
| `TtlWalk.FindTarget` | internal/probe/trace.go:254-262 | the nearest TTL with a target row |
| `TtlWalk.WalkRounds` | internal/probe/trace.go:175-295 | the nested loops emit the rows and counts the replies call for |
| `IcmpSchedule.AcceptedIff` | internal/config/config.go:812-833 | a schedule is accepted exactly when there is room for every echo's least budget and every gap |
| `IcmpSchedule.NothingOverflows` | internal/config/config.go:816-826 | the bounds checked first keep the arithmetic within 64 bits, and an accepted schedule has at most 17180 pings |
| `IcmpSchedule.EchoKeepsRoom` | internal/probe/icmp.go:89-107 | an echo gets its share, and whatever it takes of it leaves the rest theirs |
| `IcmpSchedule.ShareIsLargest` | internal/probe/icmp.go:86-107 | an echo gets the largest timeout, up to the configured one, that leaves time for as much again for every echo to come, and none when the gaps alone take it all |
| `IcmpSchedule.EchoBatch` | internal/probe/icmp.go:237-277 | for any deadline: echoes are sent, each with the share its start leaves it, until one has no time left, and losses are counted; with room for all and prompt sends, all are sent by the deadline |
| `IcmpSchedule.RoomHolds` | internal/probe/icmp.go:89-107 | whatever deadline leaves room for a budget each, every echo gets the configured timeout or that budget, and is over in time |
| `IcmpSchedule.SetupLeavesRoom` | internal/probe/icmp.go:171-199 | what resolving and listening may take of the interval first for every echo still to be left a given budget |
| `IcmpSchedule.AcceptedScheduleHolds` | internal/config/config.go:808-811 | under an accepted schedule every echo gets the configured timeout or its derived budget less its share of the setup, so none is skipped, and the batch ends by the end of the cycle, whatever each send takes within its timeout |
| `IcmpSchedule.WalkSeqIsInjective` | internal/probe/trace.go:302-308 | no two probes of a walk share a sequence number |
| `IcmpSchedule.EchoesStayClearIff` | internal/probe/icmp.go:158-169 | whatever is drawn, a batch stays above the walk's numbers without wrapping exactly when it fits there |
| `IcmpSchedule.EchoesAvoidWalk` | internal/probe/mtr.go:43-50 | icmp and mtr echoes never share a number with the walk beside them |
| `Fingerprint.EscapeIsReplace` | internal/config/config.go:757-775 | skipping the replacer when nothing needs it changes nothing |
| `Fingerprint.EscapedHasNoStructure` | internal/config/config.go:757-775 | no escaped name holds a separator |
| `Fingerprint.PutSplits` | internal/config/config.go:757-775 | a field is recovered from the text, whatever bytes the name holds |
| `Fingerprint.PutAllSplits` | internal/scheduler/fingerprint.go:85-94 | a list is recovered with its boundary, so no name can move from one list to the next |
| `Fingerprint.PutTargetSplits` | internal/scheduler/fingerprint.go:79-96 | every field and both lists of a target are recovered |
| `Fingerprint.PutProbesSplit` | internal/scheduler/fingerprint.go:57-75 | every probe is recovered, by name |
| `Fingerprint.PutConfigSplits` | internal/scheduler/fingerprint.go:37-100 | two configurations that print alike agree on interval, pings, source, probes, groups and targets |
| `Fingerprint.AppendGroups` | internal/scheduler/fingerprint.go:77-98 | the nested loops print the groups |
| `Fingerprint.ConfigFingerprint` | internal/scheduler/fingerprint.go:37-100 | the printed bytes are the text the splitting lemmas are about, with the probes sorted by name |
| `HealthSet.OrderIsUnique` | internal/slavehealth/slavehealth.go:61-66 | the order the peers were passed in is lost |
| `HealthSet.NewSet` | internal/slavehealth/slavehealth.go:67-77 | a sorted copy of the same peers, alerts as given |
| `HealthSet.AddrIsWhole` | internal/slavehealth/slavehealth.go:187-192 | a raw address is recovered whole: a longer one would run over an entry byte and then a name's field byte |
| `HealthSet.SetTextSplits` | internal/slavehealth/slavehealth.go:182-202 | two sets that print alike are equal, and none is a nil one, while no address holds both separators |
| `HealthSet.DistinguishesIff` | internal/slavehealth/slavehealth.go:174-178 | the mesh's text tells all meshes apart exactly when address text cannot hold both an entry and a field byte |
| `HealthSet.SetFingerprint` | internal/slavehealth/slavehealth.go:182-202 | the loops print that text; a nil set prints nothing |
| `HealthSet.RebuildKey` | internal/scheduler/lifecycle.go:44-51 | the whole key |
| `HealthSet.KeyIsInjective` | internal/scheduler/lifecycle.go:44-51 | no two configurations and meshes have one key, absent addresses that hold both separators |
| `HealthSet.KeysAgreeIff` | internal/scheduler/fingerprint.go:10-36 | the key changes exactly when a field, the peers as a collection, or the health alerts do |
| `HealthSet.RawAddressForgesPeer` | internal/slavehealth/slavehealth.go:187-192 | addresses are written raw: one printing an entry byte and then a field byte reads as two peers, whatever stands around it |
| `Lifecycle.StepKeepsPlaced` | internal/scheduler/lifecycle.go:62-126 | every step keeps one scheduler running, or none while one is being swapped; once the context is cancelled, wherever the loop stands, only cancelled ones |
| `Lifecycle.StepKeepsCurrent` | internal/scheduler/lifecycle.go:62-126 | with no signal pending, what the loop has read is the world as it is |
| `Lifecycle.AtMostOne` | internal/scheduler/lifecycle.go:89-125 | at most one scheduler is ever running, under any interleaving of world changes and cancellation |
| `Lifecycle.ReturnedIsQuiet` | internal/scheduler/lifecycle.go:59-97 | when the loop has returned, so has every scheduler |
| `Lifecycle.FailedBuildIsRetried` | internal/scheduler/lifecycle.go:106-115 | a failed build leaves the scheduler and the recorded key, so the next signal in the same world builds again |
| `Lifecycle.RebuiltIsRunning` | internal/scheduler/lifecycle.go:30-35 | OnRebuilt speaks only of the configuration now running, alone |
| `Lifecycle.RunIsMarked` | internal/scheduler/lifecycle.go:63-73 | over every run, the mesh a key was read from and the mesh a build met are the ones the events so far had left |
| `Lifecycle.SettledRuns` | internal/scheduler/lifecycle.go:63-73 | a settled loop runs the present configuration, and the present mesh exactly when the world made no net move between the reading of its key and its build |
| `Lifecycle.SettledIsCurrent` | internal/scheduler/lifecycle.go:63-73 | when no mesh recurs, a settled loop runs the present world |
| `Lifecycle.RecurrenceGoesUnseen` | internal/scheduler/lifecycle.go:106-110 | when one does, a scheduler built from the mesh in between can be kept |
| `Lifecycle.Loop.Reload` | internal/scheduler/lifecycle.go:98-123 | the code of one turn is that turn of the machine |
| `Lifecycle.TurnKeeps` | internal/scheduler/lifecycle.go:106-115 | an unchanged key or a failed build only reports the reload |
| `Lifecycle.TurnRebuilds` | internal/scheduler/lifecycle.go:116-123 | a rebuild leaves one scheduler and the key of the world its key was read in |
| `Payload.Validate` | internal/cluster/protocol.go:190-233 | accepts exactly the payloads within every bound |
| `Payload.ValidateHop` | internal/cluster/protocol.go:235-252 | accepts exactly the hops within theirs |
| `Payload.ToCycle` | internal/cluster/protocol.go:361-396 | the master's target and recomputed counters over the payload's measurements |
| `Payload.AcceptedCycle` | internal/cluster/protocol.go:351-360 | every accepted payload becomes a cycle with Sent = LossCount + samples, never above the claim or 65535, an ordered summary within MaxSampleRTT, and a sum within 64 bits |
| `Payload.AcceptedIsStorable` | internal/cluster/protocol.go:165-169 | nothing accepted wraps in the column it lands in, no time is further from the clock than allowed, and no hop loses its address |
| `Payload.HonestIsAccepted` | internal/cluster/protocol.go:172-176 | a legitimate slave produces no payload that is refused: samples, counters and a summary that belong together, the rows of a walk, labels within their length and times on the master's clock |
| `Payload.FromCycle` | internal/cluster/protocol.go:450-480 | the slave spells every measurement, and of the target its two names |
| `Payload.RoundTripIff` | internal/cluster/protocol.go:361-480 | a cycle sent and rebuilt comes back as it was exactly when the master resolves it to its own target, its counters and summary are the ones its samples give and its text is canonical |
| `Payload.WalkIsAccepted` | internal/config/config.go:673-681 | whatever a walk sees, the master's hop bounds admit its rows |
| `Stats.PercentileGrows` | internal/stats/stats.go:96-117 | a greater ratio never gives a smaller percentile |
| `Stats.PercentileIsWithin` | internal/stats/stats.go:96-117 | a percentile lies between the extremes |
| `Stats.PercentileMeaning` | internal/stats/stats.go:96-117 | a percentile is the weighted mean of the two ranks its position lies between, rounded down |
| `Stats.SummaryMeaning` | internal/stats/stats.go:40-73 | a summary holds the extremes, the mean rounded down, and the percentiles 5 to 45, 50 and 55 to 95 so read |
| `Stats.SummaryIsLadder` | internal/stats/stats.go:9-36 | 0 <= Min <= P5 <= ... <= P45 <= Median <= P55 <= ... <= P95 <= Max, and Mean between Min and Max |
| `Stats.SumFits` | internal/stats/stats.go:49-52 | the nanosecond sum of an accepted cycle's samples fits int64 |
| `Stats.Compute` | internal/stats/stats.go:40-73 | the summary of the sorted samples; the input is not modified |
| `Stats.SummaryIsUnique` | internal/stats/stats.go:38-39 | a summary depends on which samples there were, not on their order |
| `Stats.MinMaxMeanMedian` | internal/stats/stats.go:75-94 | the fast path sorts in place and gives the slow path's four values |
| `TargetTree.KeysAreParams` | internal/smokepingconv/parser/build.go:46-54 | a node lists exactly the names it has values for, each once |
| `TargetTree.PathGrows` | internal/smokepingconv/parser/build.go:158-163 | a child appended to the stack's parent comes last in the preorder, at its depth |
| `TargetTree.Build` | internal/smokepingconv/parser/build.go:56-175 | succeeds exactly on lines with no depth jump and no orphan probe line, and then the tree's preorder is the node lines, each with its assigns' last values in first-write order |
| `TargetTree.ProbeLine` | internal/smokepingconv/parser/build.go:109-134 | a subprobe with no parent and an assign with no probe fail |
| `TargetTree.ProbesIff` | internal/smokepingconv/parser/build.go:109-134 | the probes section passes if and only if every subprobe and every assign in it comes after a probe, with no section header between |
| `TargetTree.BuildInvertsFlattening` | internal/smokepingconv/parser/build.go:152-163 | whatever tree the lines are the preorder of, that is the tree built |
| `TargetTree.FlatIsStepped` | internal/smokepingconv/parser/build.go:154-157 | the preorder of any tree is accepted |
| `HopGrid.StepIsWhole` | internal/storage/backend.go:101-133 | the step is a positive whole number of seconds, never under the cadence or the tier, and within a second of the wider |
| `HopGrid.GridIsBounded` | internal/storage/backend.go:85-90 | no window the timeline serves touches more buckets than the cap, at any offset and any cadence |
| `HopGrid.FinestStepIsLeast` | internal/storage/backend.go:95-99 | the finest step is the least whole second whose grid over its tier fits the cap wherever the window starts |
| `HopGrid.StepIsLeast` | internal/storage/backend.go:101-133 | up to two hours show from 11 seconds, up to a day from five minutes, more from fifteen: the step is the least whole second no finer than its tier or the cadence |

## Left out

- HTTP, JSON, authentication, sockets, ICMP and DNS parsing, file watching and ClickHouse.
- Log lines, their rate limits, and counters no decision reads.
- Alert conditions, actions and their delivery: an event's size and whether the dispatcher wants it are parameters.
- Removal of departed targets, a master restart, and a handler still running after its slave gave up: assumed away, as the guarantees themselves do.
- Context deadlines inside the fanout, the push client and the cache's detached queries; an echo batch cancelled before its deadline, and a send that reports the deadline instead of a loss.
- Wrap-around of 64-bit counters, clocks and byte sums, except where a row says a value fits.
- Sharing by reference: a dedup table's windows, an alert's per-source states, registry entries and cache entries are held by value; target nodes live in a store and are named by index; a cached result is one value, so copies of it are not told apart.
- The evaluator as concurrent goroutines: `OnCycle` is one atomic step, queue workers are separate steps.
- The list of firing sources in an event is a set, not a sorted list.
- The hops half of the caching reader, which is the same protocol over another key and value, and rounding of query bounds to cache keys.
- The summary field of a buffered payload; the standard deviation; rounding of floating-point ratios.
- Building the Probes, Alerts and Database sections' contents, file positions and the sectionless flag; of the Probes section only what makes Build fail is kept.
- Parsing of addresses and of advertised claims, canonical error texts and the runtime's printing of durations and integers: parameters, assumed injective and free of separators where a lemma says so.
- `Dispatch.NumberedAlertsSpread`: says that the shard depends on the last byte of the alert's name, not that shards are evenly loaded.
