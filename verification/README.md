# Keelith verification

A Dafny model of the parts of the Keelith microservice runtime whose correctness does not show in any single
function: lock-protected and durable state machines, schedulers, and tree algorithms.

| module | models |
|---|---|
| `Saga`, `SagaOwners`, `SagaEngine` | durable forward/compensate orchestration; any number of owners over a fenced, revision-checked repository; the engine loop, the in-memory repository and coordinator |
| `WeightedRoundRobin` | smooth weighted round-robin selection |
| `CacheBackend`, `VersionedCache` | the backend with watermarks; read-through loads racing versioned invalidations from any number of replicas |
| `LocalCache`, `StripeLocks` | stripe generations of one unversioned cache; the order in which its stripe mutexes are taken |
| `Bulkhead` | the FIFO slot allocator with a limit set anew by every call |
| `Breaker` | the generation-stamped circuit breaker |
| `Components`, `Lifecycle` | topological sort of components; start, rollback and shutdown of an application |
| `ConfigMerge`, `Revisions`, `ConfigWatch`, `HotReload` | tree merge with deletion markers; combined revisions; publishing by the watch loop; the hot-reload boundary of typed components |
| `Health` | the health registry with its report cache |
| `Feature` | feature flag compilation, rollout and evaluation |
| `Hedging` | hedged calls |
| `Sets`, `Text`, `Wrappers` | shared helpers |

Each stateful component appears twice: as a class whose methods follow the source statement by statement and
are proved to do to the fields what a pure function says, and as a state machine whose steps are those
functions. A machine takes any sequence of events (calls, critical sections, timer firings, crashes, handler
outcomes); an event that is not possible at that moment changes nothing. The main results hold for every such
sequence.

Where the code and what one would expect of it differ, the model follows the code:

- A `Load` called while a watch runs can make the watch publish an older snapshot of a source again
  (`ConfigWatch.LoadBringsBackOldSource`). The watch stays on track if and only if every such `Load` reads the
  revisions already accepted, or sources that do not merge or are not accepted (`ConfigWatch.AlwaysTracksIff`).
- A watch that begins on a manager with a published snapshot keeps that snapshot if its revision is the loaded
  one, even where the content differs (`ConfigWatch.SameRevisionHidesContent`). Without a concurrent `Load` this
  is the only way for it to publish anything but a merge of its own sources (`ConfigWatch.WatchIsFaithfulIff`).
- Combined revisions of one source and of several can coincide (`Revisions.SingleSourceImitates`); for a fixed
  number of sources they cannot (`Revisions.CombinedIsInjective`).
- Queue timeouts and cancellations of the bulkhead also count waiters that had already been granted and
  accepted, so `Bulkhead.EveryRunIsGood` accounts for those separately.

## Model

| member | source | states |
|---|---|---|
| `Saga.PlayKeeps` | saga/engine.go:181-324 | Every durable write of the Run loop keeps the position invariant of its status, the list of committed actions, the compensations owed and the uniqueness of announced calls. |
| `Saga.EveryStoryKeeps` | saga/engine.go:181-324 | Every record reachable by one owner's writes satisfies that invariant, and its revision is the number of writes plus one. |
| `Saga.UndoingIsReverse` | saga/engine.go:247-318 | Counting the compensation index down from the failed step undoes the compensable committed actions in reverse. |
| `Saga.CompensatedUndoesAll` | saga/engine.go:198-318 | In every history that ends Compensated, the committed compensations are exactly the committed actions that have a compensator, each once, in reverse order. |
| `Saga.CompletedDidAll` | saga/engine.go:198-208 | Completed is reached only after all actions have committed in order and nothing was undone. |
| `Saga.NothingActsAfterFailure` | saga/engine.go:226-318 | Between any two moments of a history: once Running is left no action commits, a cause once set never changes, and a terminal record never changes. |
| `Saga.CallsAreUnique` | saga/engine.go:209-222 | No handler call is announced twice with the same step, phase and attempt. |
| `Saga.CauseIsTheFailedAction` | saga/engine.go:226-238 | In every history the cause on record is the reason of the action that failed, and empty as long as none has. |
| `Saga.FailureIsTheLastOutcome` | saga/engine.go:222-318 | In every history the failure reason is what the last recorded handler outcome left: its error, the cause after a compensation that succeeded, nothing after an action that did, and nothing before the first. |
| `Saga.AttemptCountsTries` | saga/engine.go:209-314 | The attempt on record is the number of calls announced for the step in hand since another step was last finished or passed over. |
| `Saga.EveryStoryNumbers` | saga/engine.go:209-222 | Attempts at a step and phase are announced one after the other, from one, and the attempt on record is the one announced. |
| `Saga.FailsExactlyWhenExhausted` | saga/engine.go:287-304 | A saga becomes Failed exactly when a compensation fails that has been tried at least the allowed number of times. |
| `SagaOwners.SaveIsOneMove` | saga/engine.go:380-393 | A save from any owner's copy is refused, or is one legal single-owner move from the record it replaces. |
| `SagaOwners.StepIsFaithful` | saga/engine.go:181-393 | Every event of any owner (load, create, save, handler return, crash, lost lease) keeps the durable record on one single-owner story and every copy outdated or equal to it. |
| `SagaOwners.EveryRunIsOneStory` | saga/engine.go:122-393 | For any number of interleaved owners the durable record is one that a single undisturbed owner reaches, placed as its status demands. |
| `SagaOwners.EveryRunNamesItsCause` | saga/engine.go:226-238 | In every run of any owners the durable cause is the reason of the one action that failed, and empty without one. |
| `SagaOwners.HandlerOutcomeContinues` | saga/engine.go:222-318 | A saved handler outcome sends its owner round the loop again on the saved record, except that a failed compensation ends its run. |
| `SagaOwners.EveryWriteIsOneMove` | saga/engine.go:380-393 | One more event of any run changes the durable record by at most one legal move. |
| `SagaOwners.EveryRunUndoesAll` | saga/engine.go:247-318 | Whatever owners came and went, a Compensated saga undid exactly its compensable actions in reverse. |
| `SagaOwners.StepIsFenced` | coordination/memory/memory.go:54-71 | Fences are given out once each, and accepted writes carry fences that never go back. |
| `SagaOwners.StaleOwnersNeverWrite` | saga/memory/repository.go:80-121 | Once an owner with a newer lease has written, no owner of an older lease writes again. |
| `SagaOwners.StepKeepsOnce` | saga/engine.go:209-224 | Every event keeps announced calls held by one owner at most and invoked at most once. |
| `SagaOwners.NoInvocationIsRepeated` | saga/engine.go:181-324 | In no run do two handler invocations, by whichever owners, share step, phase and attempt. |
| `SagaEngine.Repository.Create` | saga/memory/repository.go:51-77 | Inserts at revision 1 under its fence, or refuses for the first failing reason in the store's order; other instances stay as they were. |
| `SagaEngine.Repository.Save` | saga/memory/repository.go:80-121 | Stores revision plus one exactly when the instance exists, the fence is not stale, the expected revision matches and definition and version are unchanged; otherwise refuses for the first failing reason. |
| `SagaEngine.Coordinator.TryAcquire` | coordination/memory/memory.go:44-71 | Refuses a malformed request, an ended context or a held key, each exactly then and without effect on leases; otherwise grants the key under the next fence, and keeps acquired = released + live. |
| `SagaEngine.Coordinator.Release` | coordination/memory/memory.go:123-144 | Ends only the lease that carries this fence; releasing twice or late leaves the current owner alone. |
| `SagaEngine.Engine.Save` | saga/engine.go:380-393 | Saves the changed copy as the next move of the story exactly unless the context has ended or the fence is stale; otherwise the durable record stays and the error says which. |
| `SagaEngine.Engine.Forward` | saga/engine.go:198-246 | One iteration in status Running: its outcome and its durable moves are exactly those that context, fence and handler result call for; a failed action leaves its own reason as cause and failure; it counts a committed action and leaves less to do. |
| `SagaEngine.Engine.Backward` | saga/engine.go:247-318 | One iteration in status Compensating: the same, and a failed compensation ends the run as failed or to be retried by the number of attempts. |
| `SagaEngine.Engine.Iterate` | saga/engine.go:181-324 | One iteration in either direction: an interrupted one had an ended context, a refused one a stale fence, an unsuccessful one a failed handler. |
| `SagaEngine.Engine.LoadOrCreate` | saga/engine.go:345-378 | For any durable record: a missing instance is created, one of another definition or version is a mismatch, one whose revision or positions are out of range is invalid, an ended context or a zero fence is an error, and nothing else is. |
| `SagaEngine.Engine.Enter` | saga/engine.go:122-147 | A run starts exactly with a valid identity, a live context, a valid lease request and a free key, under the next fence; otherwise the first reason against it is returned and no lease is taken. |
| `SagaEngine.Engine.Loop` | saga/engine.go:181-324 | The loop ends within a bound given by status, next step and compensation index, on a record that continues the story; every error has its cause; with handlers that succeed it only goes on in the direction it had. |
| `SagaEngine.Engine.Run` | saga/engine.go:122-324 | Returns within 2 * steps + 3 iterations and with the first failed compensation; what it wrote continues the story before it; a terminal outcome names the durable status and counts this run; a run that may not start says why and changes nothing; every error has its cause; a run that nothing interrupts ends terminal or in a failed compensation, and Completed if every handler succeeds; the lease is given back. |
| `WeightedRoundRobin.SelectConservesCurrent` | selector/weighted.go:135-157 | For any eligible subset, a Select leaves the sum of current over all nodes unchanged. |
| `WeightedRoundRobin.ChargeEffect` | selector/weighted.go:138-144 | Charging adds each eligible known node's weight to it once and touches nothing else. |
| `WeightedRoundRobin.SelectKeepsBalance` | selector/weighted.go:135-157 | Values that sum to zero keep doing so, and the chosen node stays above minus the total weight. |
| `WeightedRoundRobin.Debt` | selector/weighted.go:135-157 | After i picks from zero with a fixed eligible set, a node holds i * weight - W * picks, and that is above -W. |
| `WeightedRoundRobin.ShareBounds` | selector/weighted.go:135-157 | After any k picks the count c of a node of weight w satisfies k*w - (n-1)*(W-1) <= W*c < k*w + W. |
| `WeightedRoundRobin.ExactPeriod` | selector/weighted.go:135-157 | W picks from zero choose every node exactly weight times and bring every node back to where it was. |
| `WeightedRoundRobin.Periodic` | selector/weighted.go:135-157 | The state repeats every W picks. |
| `WeightedRoundRobin.EveryWindowIsExact` | selector/weighted.go:135-157 | Any W consecutive Selects, wherever they begin, pick node x exactly weight(x) times. |
| `WeightedRoundRobin.SelectIsDeterministic` | selector/weighted.go:145-149 | The choice, ties included, and the new state are determined by the old state and the eligible list. |
| `WeightedRoundRobin.Selector.Update` | selector/weighted.go:73-109 | Accepts exactly valid snapshots in which every node advertises no weight or one from 1 to 1,000,000; a new revision installs the advertised weight, or 1 for none, keeps the current of surviving nodes, starts new ones at zero and drops the others; the same revision changes nothing. |
| `WeightedRoundRobin.Selector.Consider` | selector/weighted.go:138-150 | One turn of the loop charges the node and lets it take the lead over the candidate if it has more, or as much and a smaller key. |
| `WeightedRoundRobin.Selector.Select` | selector/weighted.go:112-162 | Refuses a foreign service or an eligible list with no known node without changing anything; otherwise chooses the unique leader after charging and makes it pay the total. |
| `WeightedRoundRobin.WindowIsAsAsked` | selector/weighted.go:164-180 | A stretch of picks as long as the advertised shares together picks each node exactly as often as it advertises. |
| `WeightedRoundRobin.Deal` | selector/weighted.go:73-180 | A new selector given an accepted snapshot and asked any number of times over nodes of it: every such stretch, wherever it begins, picks each node as often as the snapshot advertises. |
| `VersionedCache.WatermarksNeverGoBack` | cache/memory/memory.go:143-163 | Over any run a watermark never goes back, and where it moved an invalidation was applied meanwhile. |
| `VersionedCache.WatermarkIsLargestVersion` | cache/memory/memory.go:143-163 | After any run the watermark of a key is the largest version any invalidation of it named, and zero before the first. |
| `VersionedCache.InvalidationTakesEffectOnce` | cache/memory/memory.go:143-163 | After any run, an invalidation above all earlier ones of its key removes the entry and becomes the watermark; any other leaves the backend as it was. |
| `VersionedCache.UndisturbedLoadIsCached` | cache/cache.go:183-214 | A load that knew the version and saw no invalidation of its key and no bump of its stripe since before it began is cached with what it read. |
| `VersionedCache.LoneLoadIsCached` | cache/cache.go:183-214 | A whole load left alone ends in the cache with the revision it read; with the version unknown it leaves the cache as it was. |
| `VersionedCache.HitEndsLoad` | cache/cache.go:185-190 | A load that finds its key cached when it looks again ends there. |
| `CacheBackend.Store.Get` | cache/memory/memory.go:52-68 | Returns a value exactly when there is an entry that never expires or has not expired by now; an expired one is removed. |
| `CacheBackend.Store.Delete` | cache/memory/memory.go:89-103 | Removes every listed key, leaves the rest, and counts those that were present, repeats once. |
| `CacheBackend.Store.StoreIfVersion` | cache/memory/memory.go:116-140 | Writes the value, expiring after a positive ttl, if and only if the watermark is the expected one; otherwise nothing changes. |
| `CacheBackend.Store.Invalidate` | cache/memory/memory.go:143-163 | Refuses version zero; a version above the watermark is applied, deletes the entry and becomes the watermark; an equal one is current and a lower one stale, and both leave everything as it was. |
| `VersionedCache.NextPhaseIsInTime` | cache/cache.go:183-214 | At every phase of a load, a guard that still matches the watermark was read after that watermark was set and before the load began. |
| `VersionedCache.InvalidateIsInTime` | cache/memory/memory.go:143-163 | An applied invalidation makes every guard read so far outdated and deletes what it guards. |
| `VersionedCache.StepIsInTime` | cache/cache.go:183-214 | Every event of any replica keeps this. |
| `VersionedCache.NothingIsResurrected` | cache/cache.go:436-531 | For any interleaving of loads and invalidations from any number of replicas, loads with an unknown version included, a loaded entry present for a key began loading after the invalidation that set the key's watermark. |
| `VersionedCache.NoStaleDataIsCached` | cache/cache.go:183-214 | If invalidations name committed revisions only, no loaded entry in the backend is older than its key's watermark. |
| `VersionedCache.Replica.StoreIfCurrent` | cache/cache.go:436-531 | Writes only under a current generation, a known version and an unmoved watermark; encoding and backend failures are errors that write nothing; suppressed writes are counted, except for want of a version. |
| `VersionedCache.Replica.InvalidateVersion` | cache/cache.go:234-273 | Refuses an invalid key or version zero, counts a backend failure, and otherwise applies the watermark, counts the verdict and bumps the stripe generation unless the event was stale. |
| `LocalCache.GenerationsTell` | cache/cache.go:295-353 | The generation of a stripe is unchanged between two moments if and only if no Set, Invalidate or ObserveInvalidation touched it. |
| `LocalCache.CurrentIffUntouched` | cache/cache.go:436-450 | A loaded value passes the generation check if and only if nothing touched its stripe since the load captured it. |
| `LocalCache.EntriesAreJustified` | cache/cache.go:436-492 | Every loaded entry was stored while its stripe was untouched, and no Set or Invalidate of its key has succeeded since. |
| `LocalCache.NoEarlierLoadSurvives` | cache/cache.go:276-324 | Once a Set or Invalidate of a key has succeeded, every loaded value ever held for it comes from a load that captured its generation after that call took its locks. |
| `LocalCache.NoEarlierLoadIsStored` | cache/cache.go:331-353 | After an observed invalidation no load captured before it is ever stored. |
| `LocalCache.StoredIffUntouched` | cache/cache.go:436-467 | A load that gets its stripe is cached exactly if nothing touched the stripe since it captured the generation. |
| `LocalCache.MutationsAreExact` | cache/cache.go:276-324 | A Set that succeeds stores its value, an Invalidate that succeeds removes exactly its keys, one that fails removes a part of them, and no other key changes. |
| `LocalCache.MutationsExclude` | cache/cache.go:541-564 | Two mutations in progress never share a stripe. |
| `LocalCache.MutationsTakeTurns` | cache/cache.go:541-564 | A mutation begins exactly when no other holds a stripe of its keys, and gives them back when it ends. |
| `LocalCache.Cache.BumpAll` | cache/cache.go:313-317 | Bumps the generation of each stripe of the keys exactly once, however many keys share it. |
| `LocalCache.Cache.Set` | cache/cache.go:276-292 | Refuses an invalid key without effect; otherwise bumps the key's stripe, and stores the value if the write succeeds. |
| `LocalCache.Cache.Invalidate` | cache/cache.go:295-324 | Refuses an empty list, a versioned cache or an invalid key, in that order and without effect; otherwise bumps, deletes, counts the keys and returns the number of removed entries. |
| `LocalCache.Cache.DeleteAll` | cache/memory/memory.go:89-103 | Removes the keys, or the part of them that a failing backend removed, and counts the entries that went. |
| `LocalCache.Cache.ObserveInvalidation` | cache/cache.go:331-353 | Refuses an empty list or an invalid key without effect; otherwise bumps and counts without touching the backend. |
| `LocalCache.Cache.StoreIfCurrent` | cache/cache.go:436-467 | Writes only under the captured generation and counts what it suppresses. |
| `StripeLocks.LockOrder` | cache/cache.go:541-558 | The list to lock is ascending, without duplicates, and holds exactly the stripes of the keys. |
| `StripeLocks.EveryRunIsValid` | cache/cache.go:541-564 | In every reachable state each stripe has one owner at most, and a thread owns exactly the first stripes of its list. |
| `StripeLocks.MutualExclusion` | cache/cache.go:551-556 | Two callers never own the same stripe. |
| `StripeLocks.NoDeadlock` | cache/cache.go:541-564 | In every reachable state with an unfinished call some thread can take its next lock or unlock. |
| `StripeLocks.StepWorks` | cache/cache.go:541-564 | Every lock or unlock that happens does one unit of the work left. |
| `StripeLocks.Drain` | cache/cache.go:541-564 | From every such state all calls can be run to their end, in exactly as many steps as there is work left. |
| `Bulkhead.GrantTakesHead` | governance/bulkhead/bulkhead.go:232-249 | In an orderly queue a grant goes to the oldest waiter and changes nothing else. |
| `Bulkhead.GrantAllIsSound` | governance/bulkhead/bulkhead.go:119-122 | Granting under new limits keeps the books and leaves nobody waiting below the limit. |
| `Bulkhead.ArriveIsSound` | governance/bulkhead/bulkhead.go:98-137 | An Acquire keeps the books under whatever limits it brings, loses no wakeup, and does not add load above them. |
| `Bulkhead.AbandonIsGood` | governance/bulkhead/bulkhead.go:201-230 | A timeout or cancellation, of a queued or of an already granted waiter, keeps books and order, hands the slot on and raises neither load nor queue. |
| `Bulkhead.HandOver` | governance/bulkhead/bulkhead.go:187-194 | A freed slot goes straight to the oldest waiter, if the limit in force allows it. |
| `Bulkhead.EveryRunIsGood` | governance/bulkhead/bulkhead.go:98-261 | After every run: inflight = permits out + granted waiters not yet returned; accepted = inflight + releases + cancelled after grant; every arrival is accounted for; queued waiters are distinct, queued and in arrival order; nobody waits below the limit in force. |
| `Bulkhead.FixedPolicyIsRespected` | governance/bulkhead/bulkhead.go:98-155 | Under one policy neither inflight nor the queue ever exceeds its bound. |
| `Bulkhead.NoOvertaking` | governance/bulkhead/bulkhead.go:232-249 | Once a waiter has been granted, no earlier one is still queued, and grants follow the order of arrival. |
| `Bulkhead.NewcomersDoNotOvertake` | governance/bulkhead/bulkhead.go:123-128 | A newcomer gets a slot at once only when nobody is left waiting. |
| `Bulkhead.AnswerIsExact` | governance/bulkhead/bulkhead.go:115-139 | After any run, with free slots under the new limit: a caller gets a permit iff fewer wait than slots are free, is turned away iff those left waiting fill the queue, and waits otherwise. |
| `Bulkhead.ArrivalIsExact` | governance/bulkhead/bulkhead.go:115-139 | After any run an Acquire lets in the waiters the new limit allows from the head of the queue, and a caller told to wait is a new waiter at its end. |
| `Bulkhead.RefusalIsExact` | governance/bulkhead/bulkhead.go:98-114 | A policy passes unguarded exactly when disabled and is invalid exactly for the listed reasons, both without effect. |
| `Bulkhead.ReleaseIsExact` | governance/bulkhead/bulkhead.go:187-194 | A slot given back goes to the oldest waiter if the limit in force was just used up, and otherwise lowers inflight. |
| `Bulkhead.LeavingIsExact` | governance/bulkhead/bulkhead.go:201-230 | A queued waiter that gives up leaves the others in order, and is counted as a timeout or as a cancellation. |
| `Bulkhead.LapseIsExact` | governance/bulkhead/bulkhead.go:201-230 | A granted waiter that gives up hands its slot on as a release does, and is counted likewise. |
| `Bulkhead.HighWaterWasReached` | governance/bulkhead/bulkhead.go:135-138 | The queue has been as long as the reported high-water mark. |
| `Bulkhead.HighWaterIsNeverPassed` | governance/bulkhead/bulkhead.go:135-138 | The queue has never been longer than the reported high-water mark. |
| `Bulkhead.Bulkhead.Acquire` | governance/bulkhead/bulkhead.go:98-139 | The method does to the fields what the modelled critical section says, with the same answer; `Bulkhead.AnswerIsExact`, `Bulkhead.ArrivalIsExact` and `Bulkhead.RefusalIsExact` say what that is. |
| `Bulkhead.Bulkhead.RaiseLimits` | governance/bulkhead/bulkhead.go:115-122 | The loop over grants reaches the state in which the limit or the queue is used up. |
| `Bulkhead.Bulkhead.GrantNextLocked` | governance/bulkhead/bulkhead.go:232-249 | Skips waiters that are no longer queued and grants the first that is. |
| `Bulkhead.Bulkhead.RemoveWaiterLocked` | governance/bulkhead/bulkhead.go:251-261 | Removes the first occurrence of a waiter and keeps the order of the others. |
| `Bulkhead.Bulkhead.ReleaseSlot` | governance/bulkhead/bulkhead.go:187-194 | Gives one slot back and hands it on. |
| `Bulkhead.Bulkhead.CancelGranted` | governance/bulkhead/bulkhead.go:201-230 | Withdraws a queued or granted waiter, counts it, hands on a slot, and tells whether it was still queued. |
| `Breaker.CompleteCounts` | governance/breaker/breaker.go:180-212 | A completion keeps the probe counters equal to the permits of the generation, or starts a new generation with none. |
| `Breaker.CompletionJoinsWindow` | governance/breaker/breaker.go:188-194 | A completion in the closed state joins the window it falls in, and the counters grow with it. |
| `Breaker.EveryRunIsGood` | governance/breaker/breaker.go:98-241 | After every run permits of a generation carry its state, none is from the future, and the counters are the numbers of permits of the current generation and, closed, of the current window. |
| `Breaker.GenerationsDoNotMix` | governance/breaker/breaker.go:133-138 | All permits issued within one generation carry the same state. |
| `Breaker.LatePermitsChangeNothing` | governance/breaker/breaker.go:180-186 | A permit of an earlier generation completes without any effect. |
| `Breaker.ProbesAreCounted` | governance/breaker/breaker.go:127-132 | Half-open, probesInFlight is the number of uncompleted permits of the generation, all of them probes. |
| `Breaker.ProbeBound` | governance/breaker/breaker.go:127-132 | Under one policy a generation that is still half-open has admitted at most 2 * HalfOpenProbes - 1 probes. |
| `Breaker.RecoveryNeedsProbes` | governance/breaker/breaker.go:199-210 | A half-open breaker closes only after HalfOpenProbes permits of its generation completed without failure and none failed. |
| `Breaker.WindowIsCounted` | governance/breaker/breaker.go:188-194 | Closed, requests and failures are the numbers of completed and of failed permits of the current window. |
| `Breaker.TripsExactlyOnEvidence` | governance/breaker/breaker.go:189-198 | A closed breaker opens if and only if a pending permit of its generation completes and the permits completed in the window with it are at least MinRequests, the configured share of them failed. |
| `Breaker.OpeningIsTimed` | governance/breaker/breaker.go:224-230 | Whatever opens a breaker is a completion, and it opens for its permit's own timeout from then, under a new generation. |
| `Breaker.StaysOpen` | governance/breaker/breaker.go:109-117 | Through any events before its timeout an open breaker stays as it is, late completions included. |
| `Breaker.RejectsUntilTimeout` | governance/breaker/breaker.go:109-132 | From the completion that opened it, every guarded call before that permit's OpenTimeout has passed is rejected, and the first one from then on is admitted as a probe. |
| `Breaker.AnswerIsExact` | governance/breaker/breaker.go:109-139 | Closed, every guarded call is admitted; half-open, exactly while fewer than HalfOpenProbes probes are out. |
| `Breaker.RefusalIsExact` | governance/breaker/breaker.go:98-107 | A policy passes unguarded exactly when disabled and is invalid exactly for the listed reasons, both without effect. |
| `Breaker.HalfOpenEndsExactly` | governance/breaker/breaker.go:199-210 | A half-open breaker opens exactly on a failed probe and closes exactly when, with a passed one, HalfOpenProbes have passed. |
| `Breaker.WindowIsTimed` | governance/breaker/breaker.go:214-222 | Everything counted in the window of a closed breaker completed within that window. |
| `Breaker.AskKeepsWindow` | governance/breaker/breaker.go:214-222 | A guarded call keeps the current window exactly if its time is inside, and otherwise begins one. |
| `Breaker.DoneKeepsWindow` | governance/breaker/breaker.go:187-194 | So does a counted completion, which joins the window. |
| `Breaker.RatioTest` | governance/breaker/breaker.go:195-196 | The division in the code decides the same as the product used in the proofs. |
| `Breaker.Breaker.Admit` | governance/breaker/breaker.go:98-139 | Timed transitions, rejection and admission as in the modelled critical section. |
| `Breaker.Breaker.Finish` | governance/breaker/breaker.go:180-212 | Completion as in the modelled critical section, with the ratio computed by division; `Breaker.TripsExactlyOnEvidence`, `Breaker.HalfOpenEndsExactly` and `Breaker.OpeningIsTimed` say what that is. |
| `Components.IndexNames` | app/component.go:66-82 | Reports a defect exactly when a name is blank, untrimmed or used twice; otherwise indexes every component. |
| `Components.ValidNameMeans` | app/component.go:70-73 | A name is valid exactly if it is not empty and has no white space at either end. |
| `Components.CheckDependencies` | app/component.go:84-113 | Reports a defect exactly when a dependency is malformed, unknown, repeated or the component itself. |
| `Components.OrderedIsAcyclic` | app/component.go:115-149 | Where an order with dependencies first exists there is no cycle. |
| `Components.ClosesCycle` | app/component.go:128-130 | The search path with the component met again ends in a cycle. |
| `Components.Visitor.Visit` | app/component.go:123-143 | Visits a component after everything it depends on, or reports a real cycle; the search ends and loses nothing already ordered. |
| `Components.Visitor.VisitAll` | app/component.go:134-138 | Visits every dependency in turn before the component itself. |
| `Components.SortComponents` | app/component.go:61-150 | Succeeds if and only if names and dependencies are valid and the graph has no cycle; the result is a permutation with dependencies first; a reported cycle is real. |
| `Text.TrimTrims` | app/component.go:70-73 | Trimmed text has no white space at its ends, text is left unchanged exactly if it had none there, and nothing is left exactly of blank text. |
| `Lifecycle.ServersUnwind` | app/run.go:203-208 | A server is stopped if and only if its start succeeded. |
| `Lifecycle.HooksUnwind` | app/run.go:190-221 | A stop callback of a hook is called if and only if it is set and the hook was activated, with or without a BeforeStart; a hook with one is active exactly when it succeeded. |
| `Lifecycle.EverythingOnce` | app/run.go:95-221 | Nothing is called twice in one run. |
| `Lifecycle.ShutdownReverses` | app/run.go:190-221 | Each kind of stop call runs last to first. |
| `Lifecycle.ServersStopFirst` | app/run.go:203-218 | Components stop only after the servers. |
| `Lifecycle.StartupInOrder` | app/run.go:99-141 | BeforeStart calls, server starts and AfterStart calls each run first to last, a failing one included. |
| `Lifecycle.CallbacksAreCalled` | app/run.go:99-218 | Each callback of a given hook is called exactly if it is set and was reached, the stop callbacks exactly if the hook was activated. |
| `Lifecycle.CompleteCallsAll` | app/run.go:95-147 | A complete startup has called every set BeforeStart and AfterStart and started every server, none of which failed. |
| `Lifecycle.StagesInOrder` | app/run.go:99-141 | Before any AfterStart every server has started, and before any server every BeforeStart has passed. |
| `Lifecycle.HooksPrepareFirst` | app/run.go:193-208 | BeforeStop calls precede the stops of servers. |
| `Lifecycle.ComponentUnwinds` | app/run.go:99-220 | A component is stopped if and only if its start succeeded. |
| `Lifecycle.OneHookEach` | app/app.go:66-72 | Exactly one hook serves a component, the one at its place in the sorted order. |
| `Lifecycle.StopsBeforeDependencies` | app/app.go:62-72 | Wherever startup fails or is cancelled: if a component was started, every component it depends on was started before it and is stopped after it. |
| `Lifecycle.App.Attempt` | app/run.go:99-111 | One call of startup: a cancelled context or a failing call ends it, a callback that is not set is passed over. |
| `Lifecycle.App.Start` | app/run.go:95-147 | Startup makes exactly the calls of a reachable prefix and stops short only where a call failed or the context had ended. |
| `Lifecycle.App.Unwind` | app/run.go:193-201 | Calls of one kind run last to first whatever fails, and failures are reported. |
| `Lifecycle.App.Shutdown` | app/run.go:190-221 | Undoes exactly the started servers and activated hooks. |
| `Lifecycle.App.Run` | app/run.go:15-45 | A second run is refused; any other makes the calls of a reachable startup and of the shutdown that undoes it, and ends Stopped exactly when a Stop call or an ordinary end of the context ended it and nothing failed to stop. |
| `Lifecycle.NewApp` | app/app.go:62-82 | An application is built exactly from sortable components, with the hook of each component, in sorted order, after the given hooks. |
| `Lifecycle.ComponentsUnwind` | app/run.go:95-221 | For every reachable startup, each component is stopped exactly if it was started, and only after the started components that depend on it. |
| `Lifecycle.BuildAndRun` | app/run.go:15-45 | The same about the calls of any application built from components and run once, whatever fails and whenever its context ends. |
| `ConfigMerge.OverlayDecides` | config/merge.go:35-56 | At every path the overlay decides if it speaks about it; otherwise the target stays as it was. |
| `ConfigMerge.OverlayIsClean` | config/merge.go:35-56 | Overlaying leaves no deletion marker as the value of a key, at any depth. |
| `ConfigMerge.ViewsDetermine` | config/merge.go:35-56 | Trees without markers as values that look the same at every path are equal, so the views say everything. |
| `ConfigMerge.ViewIsLookup` | config/snapshot.go:48-69 | What a path shows is what a lookup finds there. |
| `ConfigMerge.Lookup` | config/snapshot.go:48-69 | The walk finds the value at the path, the whole tree at the empty one, and nothing through a leaf or a missing key. |
| `ConfigMerge.OverlayIsIdempotent` | config/merge.go:35-56 | Overlaying the same source twice is overlaying it once. |
| `ConfigMerge.HighestSourceDecides` | config/merge.go:10-33 | The merged tree shows at every path what the highest-priority source that speaks about it says. |
| `ConfigMerge.NobodyDecides` | config/merge.go:10-33 | A path no source speaks about is absent. |
| `ConfigMerge.MarkersAreTheDifference` | config/snapshot.go:103-109 | The strict copy refuses a valid value exactly when a deletion marker is inside it. |
| `ConfigMerge.MergeFailsOnMarkers` | config/merge.go:25-28 | The merge of valid trees is refused if and only if an array that survives it holds a deletion marker. |
| `ConfigMerge.MergeIsRefused` | config/merge.go:10-33 | Merging valid snapshots is refused exactly for want of sources or for such a marker. |
| `ConfigMerge.MergeHoldsNoMarker` | config/merge.go:25-28 | A successful merge holds no deletion marker anywhere. |
| `ConfigMerge.MergeShows` | config/merge.go:10-33 | A successful merge shows the deciding source's value at every decided path. |
| `ConfigMerge.CloneValue` | config/snapshot.go:103-162 | Copies exactly the valid values and refuses all others. |
| `ConfigMerge.CloneMap` | config/snapshot.go:85-101 | The same for an object, in any order of its keys. |
| `ConfigMerge.MergeMap` | config/merge.go:35-56 | Whatever the order of the keys, the loop yields the overlay. |
| `ConfigMerge.Merge` | config/merge.go:10-33 | The combined revision and the merged tree of valid snapshots, or a refusal. |
| `Revisions.CombineRevisions` | config/merge.go:58-72 | The built text is the length-prefixed join, or the single revision itself. |
| `Revisions.CombinedIsInjective` | config/merge.go:58-72 | Equal combined revisions mean equal lists, for the same number of sources, and unless exactly one list has a single entry. |
| `Revisions.SingleSourceImitates` | config/merge.go:58-61 | A single source can carry the combined revision of several, so that exception is needed. |
| `Revisions.ItemReadsBack` | config/merge.go:67-69 | A length-prefixed revision can be read back whatever follows it. |
| `ConfigWatch.SkipIsSound` | config/config.go:373-376 | A candidate skipped for its revision agrees with what is published in every single source revision. |
| `ConfigWatch.WatchIsFaithfulIff` | config/config.go:251-292 | Whatever was loaded before, over every run of the watch loop without a concurrent Load the published snapshot is a validated merge of the accepted sources, if and only if the watch does not begin by skipping other content under the revision already published. |
| `ConfigWatch.SameRevisionHidesContent` | config/config.go:373-376 | The input that needs the condition: a load, then a watch of a source with new content under its old revision. |
| `ConfigWatch.WatchTracks` | config/config.go:251-292 | Whatever an earlier load published, the published snapshot is a validated one, merged from sources with the accepted revisions. |
| `ConfigWatch.ChangesArePublished` | config/config.go:277-290 | No update is lost: a source whose revision changed is published as soon as its merge is accepted. |
| `ConfigWatch.LoadKeepsTrackIff` | config/config.go:175-190 | A Load during the watch leaves it on track if and only if its sources have the revisions the watch has accepted, or do not merge, or are not accepted. |
| `ConfigWatch.AlwaysTracksIff` | config/config.go:265-292 | Over every run with Loads, the watch is on track throughout if and only if every Load meets that condition when it comes. |
| `ConfigWatch.NextChangeForgetsLoad` | config/config.go:277-290 | The harm of a Load: the next change that is published is merged with the other sources as the watch had accepted them before it. |
| `ConfigWatch.LoadBringsBackOldSource` | config/config.go:277-291 | For any number of sources and any validators: a change published by a Load is skipped by the watch, and the next accepted change of another source brings the old snapshot back. |
| `ConfigWatch.Manager.TryPublish` | config/config.go:366-395 | Skips a published revision, refuses what any check refuses, and otherwise replaces the snapshot. |
| `ConfigWatch.Manager.Receive` | config/config.go:277-290 | Candidate sources replace the accepted ones only when their merge is published. |
| `ConfigWatch.Manager.WatchSources` | config/config.go:251-292 | The loop follows the modelled run over the changes up to the first failed watcher or the end of the context, and says which stopped it. |
| `HotReload.IsPathReloadable` | config/typed.go:421-431 | A path is covered exactly by an allowed path equal to it or above it. |
| `HotReload.CoversIsBySegments` | config/typed.go:421-431 | An allowed path covers exactly the paths whose dot-separated segments begin with its own. |
| `HotReload.PathListsNames` | config/typed.go:386-419 | The path of a leaf is the names of the fields on its way, in order, between dots. |
| `HotReload.CollectRestartChanges` | config/typed.go:386-419 | Appends exactly the changes of the two values to the list it is given. |
| `HotReload.ReloadableBelow` | config/typed.go:421-431 | A reloadable path makes its whole subtree reloadable. |
| `HotReload.FixedLeavesAreReported` | config/typed.go:386-419 | Every differing leaf that neither a tag nor a path covers is reported under its path. |
| `HotReload.ReportsAreFixedLeaves` | config/typed.go:386-419 | Whatever is reported is such a leaf. |
| `HotReload.NoChangesIffAgree` | config/typed.go:379-384 | No restart is needed if and only if every uncovered leaf keeps its value. |
| `HotReload.ApplyInstallsExactly` | config/typed.go:249-314 | An Apply installs its candidate exactly when its context is live, it decodes, agrees on every uncovered leaf and the callback accepts; otherwise value and revision stay. |
| `HotReload.VerdictIsExact` | config/typed.go:249-314 | Each verdict has its exact cause; a restart report is recorded when one is needed, cleared by an install and otherwise left alone. |
| `HotReload.ReportIsExact` | config/typed.go:282-294 | The restart report names exactly the uncovered leaves in which the refused value differs. |
| `HotReload.ValidatedIsApplied` | config/typed.go:227-268 | An Apply after a Validate of the same revision takes the validated value. |
| `HotReload.FixedForever` | config/typed.go:249-314 | Once a value is installed, no sequence of Validate and Apply calls changes an uncovered leaf. |
| `HotReload.Component.ValidateSnapshot` | config/typed.go:227-245 | Remembers the decoded value under its revision, or forgets the last one. |
| `HotReload.Component.ApplySnapshot` | config/typed.go:249-314 | Verdict and new state as modelled; a rejected call records the pending revision and fields but leaves the active value. |
| `Health.Aggregate` | health/registry.go:330-353 | Fails exactly when some result fails and passes exactly when all pass. |
| `Health.StepIsGood` | health/registry.go:206-263 | Every event keeps cached reports computed from what the registry holds now, and checks in progress outdated or equal to it. |
| `Health.AnswersAgreeWithRegistry` | health/registry.go:102-151 | For every interleaving, every report returned, cached or not, is an evaluation of exactly the phase and contributors held when its Check took its snapshot. |
| `Health.PassesExactly` | health/registry.go:265-287 | A Check passes iff the phase at its snapshot suits its kind and every checker held then passed, and fails iff the phase does not suit or a checker failed. |
| `Health.CompleteOnceReady` | health/registry.go:199-202 | Startup is complete exactly from when the application was first ready. |
| `Health.PhaseIsFurthest` | health/registry.go:190-204 | The phase is the furthest one asked for so far. |
| `Health.CheckersChangeExactly` | health/registry.go:55-98 | A new, non-blank name below the limit is added, a given one removed, and nothing else changes. |
| `Health.ChangesInvalidate` | health/registry.go:190-204 | A change starts a new generation with an empty cache; a refused registration or a repeated phase does neither. |
| `Health.HitsAreExact` | health/registry.go:222-258 | In every run a Check is answered at once exactly when an unexpired report of its kind is cached, with that report. |
| `Health.EndsAreExact` | health/registry.go:206-220 | A finished Check is cached exactly if nothing changed since its snapshot. |
| `Health.PhasesOnlyAdvance` | health/registry.go:190-204 | Phases never go back and completed startup stays completed. |
| `Health.NeverReadyAfterDraining` | health/registry.go:265-287 | No readiness Check whose snapshot follows Draining, Stopped or Failed passes, whatever the checkers return. |
| `Health.StartupPassesOnlyWhenComplete` | health/registry.go:265-271 | A passing startup report means startup was complete at its snapshot. |
| `Health.EveryNameIsProper` | health/registry.go:55-87 | In every run contributors are held under names that are not blank and have no white space around them. |
| `Health.RunChecker` | health/registry.go:289-316 | Only a checker that returns a valid status before its context ends, without a panic, is believed. |
| `Health.Registry.AddChecker` | health/registry.go:55-87 | Adds a trimmed, new name below the limit and invalidates; anything else changes nothing. |
| `Health.Registry.RemoveChecker` | health/registry.go:90-98 | Removes the name if present and invalidates in any case. |
| `Health.Registry.AdvanceTo` | health/registry.go:190-204 | Moves forward only, marks startup complete on Ready, and invalidates. |
| `Health.Registry.CheckSnapshot` | health/registry.go:222-258 | Answers from the cache exactly on a live entry of the current generation; otherwise takes the current basis and generation. |
| `Health.Registry.StoreCached` | health/registry.go:206-220 | Caches only if nothing has changed since the snapshot. |
| `Health.RunChecks` | health/registry.go:118-146 | In whatever order checkers run, the report is the evaluation of the basis. |
| `Feature.ValidateCondition` | feature/store.go:486-515 | Accepts exactly the conditions whose operator has the values it will read. |
| `Feature.CompileRule` | feature/store.go:429-484 | Accepts exactly rules with valid conditions and either an existing variation or a rollout of existing variations that totals 10,000 basis points. |
| `Feature.CompileVariations` | feature/store.go:397-410 | Accepts exactly valid, distinct variations of one kind. |
| `Feature.CompileFlag` | feature/store.go:381-427 | Accepts exactly the valid flags. |
| `Feature.CompiledIsSound` | feature/store.go:381-427 | A valid flag compiles to one whose every readable variation and condition value exists and has the flag's kind. |
| `Feature.CompileDefinition` | feature/store.go:353-379 | Accepts exactly the valid definitions, with every flag compiled and sound. |
| `Feature.OwnerOwnsInterval` | feature/store.go:557-568 | An allocation owns exactly the buckets between the totals before and after it. |
| `Feature.SharesAreExact` | feature/store.go:557-568 | Each allocation receives exactly its basis points of the buckets. |
| `Feature.RolloutVariation` | feature/store.go:557-568 | The loop finds the owner of the bucket; the return after it is never reached. |
| `Feature.OperatorsMean` | feature/store.go:527-555 | Each operator by what it says of the text: prefix, suffix, membership and their negations; an absent attribute matches NotExists alone. |
| `Feature.PercentageIsByDigest` | feature/store.go:557-568 | A percentage rule gives a target the allocation whose stretch of the buckets holds the remainder of its digest. |
| `Feature.Select` | feature/store.go:226-264 | The first applicable rule decides, percentage rules being skipped without a targeting key; otherwise the default. |
| `Feature.SelectionMeans` | feature/store.go:227-255 | Every rule passed over has an unmet condition or is a percentage rule without a targeting key; the deciding rule has neither. |
| `Feature.SelectionIsSound` | feature/store.go:226-264 | The selection is unique, names an existing variation, and yields a valid value of the flag's kind. |
| `Feature.Store.Update` | feature/store.go:182-199 | Publishes exactly valid definitions of another revision; anything else leaves the current one. |
| `Feature.Store.Evaluate` | feature/store.go:203-265 | The error code, the selected or fallback value, and exactly one reason counted per evaluation. |
| `Feature.CountersBalance` | feature/store.go:211-263 | However evaluations and updates overlap, evaluations = defaults + rule matches + percentage matches + fallbacks + those still inside. |
| `Feature.ReasonsAreRight` | feature/store.go:203-265 | Every evaluation that ended was counted under the reason that the snapshot it read calls for, a fallback exactly on an error. |
| `Hedging.EveryRunIsGood` | governance/hedging/middleware.go:125-186 | For every order of timers, completions and cancellation: attempts stay within the maximum, each sends once, and active counts those not yet received. |
| `Hedging.AttemptsAreBounded` | governance/hedging/middleware.go:153-184 | Launched never exceeds MaxAttempts, and a loop that has not returned still has an attempt out, so its fall-through return is unreachable. |
| `Hedging.SendsNeverBlock` | governance/hedging/middleware.go:134-147 | An attempt about to send finds room in the buffer, even after the call has returned. |
| `Hedging.NeverStuck` | governance/hedging/middleware.go:153-184 | A waiting loop has a result to receive or an attempt that has yet to send one. |
| `Hedging.JoinedErrorIsComplete` | governance/hedging/middleware.go:171-173 | The joined error is returned only after all MaxAttempts attempts failed retryably, and it holds all their errors. |
| `Hedging.LastResultDecides` | governance/hedging/middleware.go:157-173 | In every run the last result received decides: a success answers, a fatal error ends the call with that error, and the last allowed failure ends it with the joined error; all earlier results were retryable failures. |
| `Hedging.TimerLaunches` | governance/hedging/middleware.go:174-182 | While the call waits and attempts are left, a tick launches exactly one; otherwise none. |
| `Hedging.FailureLaunches` | governance/hedging/middleware.go:167-173 | A retryable failure launches the next attempt at once exactly if no other is out and some are left. |
| `Hedging.RunFollowsSignals` | governance/hedging/middleware.go:153-184 | The loop of any run is where the signals it heard take it, so the results about runs are about what the call returns. |
| `Hedging.Invoke` | governance/hedging/middleware.go:125-186 | On any signals the loop yields the modelled outcome, launches at most the maximum, and never ends by running out of attempts. |

## Left out

- Integer width: counters, generations, fences and weights are unbounded; 64-bit wrap-around is not modelled.
- Strings: a string is a sequence of characters, and its length stands for Go's length in bytes; UTF-8 validity is not modelled.
- Contexts, clocks, timers and goroutine scheduling: they appear as events, oracles or parameters.
- WeightedRoundRobin.Selector.Select: the eligible list comes from filters, observers and preference tiers that are parameters here, a node key is its rank in the byte order of keys, and the completion callback is not modelled.
- SagaEngine.Engine.Run: the wording check of instance identities is a parameter; timestamps, idempotency keys, the panic guard around handlers and the engine's own counters are not modelled; a handler's outcome is a parameter.
- SagaEngine.Coordinator.TryAcquire: the wording check of keys is a parameter; lease expiry is an event of `SagaOwners`.
- VersionedCache.NothingIsResurrected: says nothing about values stored by an explicit Set, which are not loaded.
- LocalCache.Cache.Invalidate: the wording check of keys is a parameter and the stripe hash is any function.
- Cache payloads: codec, envelope bytes, negative results as distinct from values, TTL jitter and request coalescing beyond "any number of leaders per key".
- Breaker.Breaker.Finish: which errors count as failures is a parameter, and ratios are exact reals instead of 64-bit floats.
- Bulkhead and breaker pools, and every Describe or Description snapshot.
- Lifecycle.App.Run: waiting for servers and the concurrent Stop call are reduced to what ended the run; error values carry no text.
- Components.SortComponents: nil components, and the text of errors beyond the names of a cycle.
- ConfigMerge.MergeMap: nested maps are values, so the in-place update of a nested map and its aliasing are not modelled.
- Config sources, subscribers and the schema of known fields: schema and validators are parameters, and subscribers are notified outside the model.
- HotReload.CollectRestartChanges: reflection is replaced by an explicit schema; leaf comparison is equality, so values that are not equal to themselves are not modelled, and the final sorting of field names is omitted.
- HotReload.Component.ApplySnapshot: decoding, defaults and validators yield the decoded value as a parameter.
- Health.RunChecks: reasons and timestamps are not modelled, and checkers run one after the other.
- Feature.CompileDefinition: the wording checks of names, keys and values are parameters.
- Feature.RolloutVariation: the hash of the targeting key is a parameter.
- Feature.Store.Update: the store begins empty instead of with a first definition.
- Hedging.Invoke: requests, responses and attempt numbers are not modelled; the policy gate before it is left out.
- Service discovery, dependency injection, outbox, inbox, idempotency, HTTP and operations plumbing, observability, transports and generated code.
