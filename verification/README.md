# daari: admission, shared state, budgets and pricing

A Dafny model of the parts of the daari gateway that decide who may run, what several
processes share, and what a request costs. Each module follows one component of the
source; a component that changes its fields in place is a class whose methods are proved
against functions, and the properties are lemmas about those functions and about every
run of the state machines built from them.

| files | component |
|---|---|
| `WaiterHeap`, `GateModel`, `GateTheorems`, `GateAnswers`, `AdmissionGate` | the concurrency gate of `RateLimiter`: a priority semaphore over a binary heap, with cancellation and drain |
| `Counters`, `CounterBackends`, `CounterDrift` | the three window counters, and what they do when a clock goes back |
| `WindowLimits`, `FailoverRules`, `FailoverBackends`, `RateCheck` | the degrade and recover switch, Redis and SQLite behind it, and the loop of `check` |
| `GaugeLeases` | acquiring several in-flight gauges, with rollback |
| `SemanticTrim`, `RowKeys`, `SharedList`, `LostWrites` | the bounded semantic-cache list and the keys of its rows, its WATCH/MULTI/EXEC loop, and which writes through it are lost |
| `SingleFlight` | coalesced fills |
| `RolloverBudget`, `CapMerge`, `Calendar`, `Periods`, `CivilDates` | carry-over, merging of caps, period ids and resets, dates in closed form |
| `SlidingWindow`, `SamplerDrift`, `KeyRotation` | the 60-second samplers, what they do when a clock goes back, and rotation of virtual-key secrets |
| `ModelNames`, `NameTies`, `AliasRates`, `TokenCost` | matching of model ids, alias chains, and the cost of a request |
| `Basics` | optional values and three facts of arithmetic that several modules use |

`dafny verify dfyconfig.toml` checks everything.

## How the model is set up

- Concurrency is a state machine with one event for each critical section (or each server
  command), and a theorem holds for every sequence of enabled events. Futures are named by
  ticket (gate) or position (single flight).
- Clocks, random secrets, failures of a backend, writes of other clients and calls of the
  embedder are parameters of the events or of the methods.
- Money, rates and instants are `real`. Token counts and counters are integers without
  bound, as in Python.
- A digest is a free constructor over the secret, so no two secrets share one.
- Text is taken after `strip()` and `lower()`.
- Some fields of a state are history that the source does not keep; the theorems count
  with them. No step reads `grants`, `releases` or `order` of the gate. `active`, `handed`
  and `told` only say which events can happen (a request that runs can release, a resolved
  task can resume, a leader finishes once), and `leaked` is fed from `handed`. The length of
  a shared list's `log` is also its version, which WATCH compares.

## What was found

- A waiter cancelled after its future was resolved keeps its slot for ever: the handler at
  `daari/auth/rate_limit.py:816-819` drops the waiter but gives no slot back.
  `in_flight` still equals grants minus releases and stays within the cap, but a gate can
  fill up with such slots and then admits nobody (`LeakIsReachable`, `LeaksAreForever`,
  `FullOfLeaksIsClosed`). These slots are exactly those of tasks cancelled between their
  grant and their resumption (`LateCancellationsLeak`), and a drain can reach zero if and
  only if there was no such cancellation (`DrainCompletesIffNoneLate`).
- The wake-up at `daari/auth/rate_limit.py:782` never wakes anybody and the comparison of
  ranks at line 784 never decides anything (`WakeOnArrivalIsIdle`, `ArrivalRule`).
- A client driven out of the compare-and-set loop writes without a guard and can erase a
  commit that reported success (`AWriteCanBeLost`). Over every run the list is what the
  surviving writes make of it, in order, and a write is lost if and only if it came between
  the load and the save of a surviving write after the loop; so nothing is lost if and only
  if nobody wrote between such a load and its save (`RunsLoseOnlyErased`). Puts with room
  for all of them leave a row each exactly then (`PutsAreLostIffStale`).
- `max_entries` 0 evicts no current row, because `current[-0:]` is the whole list
  (`ZeroNeverEvicts`, `BoundedIffPositive`).
- A cache row stored under another embedder counts as the running one's when the running id
  is the beginning of the other (`LongerIdsAreLive`); where no other segment of the key looks
  like a tag, exactly then (`LiveIffIdBegins`).
- Cancelling one waiter of a single flight cancels the shared future, for callers still to
  come too, until the leader finishes (`CancellationIsShared`); after that it does nothing
  (`LeaderDecidesUnlessCancelled`).
- With `fail_open`, or without a fallback, an outage lifts the limits altogether
  (`OutageLiftsTheLimit`); with several processes the bound is one limit for the primary
  and one for each process (`FailoverLetsThrough`), and it is reached
  (`FailoverReachesTheBound`).
- The three counter backends agree as long as no key goes back to an earlier window; the
  clock may go back inside a window, and other keys' clocks do not matter (`BackendsAgree`).
  Beyond that each falls short of the ledger by a known amount. Memory loses what a window
  had counted when its key is seen in any other window, SQLite when it is seen in a later
  one, and Redis when the row was left alone, by the server's clock, for a whole window
  length, in each case after calls that counted something, a call of amount zero counting
  nothing; each answers rightly exactly when that has not happened
  (`MemoryAgreesIff`, `SqliteAgreesIff`, `RedisAgreesIff`). With one clock for callers and
  server Redis never loses anything, however it jumps (`RedisMindsNoClock`).
- The two samplers count the same hits for a call exactly when no hit it would count was
  pruned by a call of another key whose clock was ahead
  (`CountsAgreeIffNothingSwept`). A clock that does not go back is enough for that
  (`InOrderIsUnswept`), but not needed. When they part it is memory that denies
  (`AnswersPartIffLimitBetween`).
- The previous bucket of a rolling window is the one before except in the last fractional
  second of the first bucket after the epoch (`PreviousBucketIsOneBefore`), and a rolling
  reset, to the microsecond, opens the next bucket only for an instant that opens its own
  (`RollingResetOpensNextIffAligned`).
- `coalesce_windows` drops the rollover flag of the first lifetime window but not of a
  second one (`LifetimeRolloverSurvives`). The caps and owners of a merge do not depend on
  the order of the windows (`OrderDoesNotMatter`); its rollover terms do, unless the owner's
  windows that set the money cap all have the same (`OrderIsIdleIffTermsAgree`,
  `OrderDecidesTerms`).
- Only current digests of virtual keys are unique: a secret leads to two rows exactly when
  an accepted create or rotation puts in force what another row has as its previous one
  (`ReusedSecretIsShared`, `NeverSharedIffNeverReused`).
- An alias chain resolves only if one entry on it sets both the input and the output rate
  by itself: two entries that set one each do not add up (`NearestEntryWins`).
- A larger cached share lowers the cost exactly when cached tokens are cheaper than fresh
  ones, and splitting a request can cost more only if cached tokens exceed input tokens in
  one part and not in the other (`CachedTokensSaveIfCheaper`, `ClampMakesSplittingDearer`).

## Model

| member | source | states |
|---|---|---|
| WaiterHeap.Push | daari/auth/rate_limit.py:803 | a heap stays a heap and gains exactly the pushed waiter |
| WaiterHeap.Pop | daari/auth/rate_limit.py:757 | returns the least waiter by rank and arrival; the rest is a heap of all the others |
| WaiterHeap.Heapify | daari/auth/rate_limit.py:830 | any list becomes a heap of the same waiters |
| WaiterHeap.HeadOfHeap | daari/auth/rate_limit.py:757 | the root of a heap is the first of its waiters in serving order |
| WaiterHeap.DropHolds | daari/auth/rate_limit.py:821-834 | dropping a waiter and re-heapifying leaves the others in their serving order |
| GateModel.WakeTakesPrefix | daari/auth/rate_limit.py:755-762 | the wake-up loop takes a prefix off the queue and grants exactly the live waiters of that prefix, in order, changing nothing else |
| GateModel.WakeKeepsBase | daari/auth/rate_limit.py:755-762 | the loop keeps the accounts straight and ends only with an empty queue or a full gate |
| GateTheorems.GateIsSafe | daari/auth/rate_limit.py:755-841 | in every interleaving in_flight is grants minus releases and at most the cap, queued is the heap's size and at most queue_size, and a non-empty heap means a full gate |
| GateTheorems.StepKeepsInv | daari/auth/rate_limit.py:755-841 | every step keeps the gate's invariant: accounts, sorted queue of all undecided waiters, nobody waiting beside a free slot |
| GateTheorems.WakeOnArrivalIsIdle | daari/auth/rate_limit.py:782 | the wake-up at the start of an arrival changes nothing |
| GateTheorems.ArrivalRule | daari/auth/rate_limit.py:783-799 | an arrival is admitted exactly when a slot is free, and then the queue is empty; so the rank comparison never decides |
| GateAnswers.AnswerRule | daari/auth/rate_limit.py:764-799 | in every state: admitted exactly while not draining and the gate is off or has a free slot; refused exactly while draining or full without room, and then nothing changes; the remaining count and the slots in use make the cap, an open gate shows 0 |
| GateAnswers.AnswerMovesAccounts | daari/auth/rate_limit.py:783-804 | admitted exactly if one more grant and one more running request are booked, parked with t exactly if t joins the queue with an open future |
| GateAnswers.DrainRefusesEverybody | daari/auth/rate_limit.py:305-307 | over every run every arrival after a drain began is refused and changes nothing, and before that one is refused only by a full gate without room |
| GateAnswers.ServedByClassThenArrival | daari/auth/rate_limit.py:755-804 | over whole runs everybody served while w waits is of a better rank, or of its own with an earlier ticket |
| GateAnswers.TicketsFollowArrivals | daari/auth/rate_limit.py:800-803 | of two parked arrivals the later has the larger ticket |
| GateAnswers.CancelledIsNeverServed | daari/auth/rate_limit.py:816-834 | a waiter cancelled or dropped while its future is open is never granted, over any continuation |
| GateAnswers.SpareReleaseIsIdle | daari/auth/rate_limit.py:836-841 | a release with nothing in use, or with the gate off, is possible and changes nothing |
| AdmissionGate.ClassThenArrival | daari/auth/rate_limit.py:43 | a high waiter goes before a normal one and that before a low one, inside a class the earlier first |
| GateTheorems.StepServesTheLeast | daari/auth/rate_limit.py:755-762 | every grant of a step goes to a live waiter that precedes, by class and then arrival, every waiter left behind; nobody is admitted past a queue |
| GateTheorems.NoOvertaking | daari/auth/rate_limit.py:764-834 | over whole runs: while a waiter stays undecided, everybody granted precedes it by class and then arrival, and nobody is admitted without queueing |
| GateTheorems.EveryWaiterIsServed | daari/auth/rate_limit.py:755-841 | no wake-up is lost: an uncancelled waiter has been served by the time a slot stands idle |
| GateTheorems.DrainOnlyEmpties | daari/auth/rate_limit.py:305-307 | after begin_drain nobody new is queued, only queued waiters are granted, and running plus waiting falls at least once for every release |
| GateTheorems.DrainCompletes | daari/auth/rate_limit.py:305-307 | without lost slots, resumes and releases alone bring running plus waiting to zero |
| GateTheorems.LateCancellationsLeak | daari/auth/rate_limit.py:806-819 | over every run the slots lost are exactly those of tasks cancelled after their future was resolved and before they resumed; a gate on which nothing runs is empty if and only if there was none |
| GateTheorems.DrainCompletesIffNoneLate | daari/auth/rate_limit.py:305-307 | a drain can reach zero, by any events at all, if and only if no task was cancelled between its grant and its resumption |
| GateTheorems.QuietGateHoldsOnlyLeaks | daari/auth/rate_limit.py:816-819 | when no request holds a slot, in_flight is exactly the number of lost slots (which `LateCancellationsLeak` reads off the events); it is zero if and only if there is none |
| GateTheorems.LeaksAreForever | daari/auth/rate_limit.py:816-819 | a slot lost to a late cancellation never comes back |
| GateTheorems.FullOfLeaksIsClosed | daari/auth/rate_limit.py:816-819 | once all slots are lost this way nobody is granted again |
| GateTheorems.LeakIsReachable | daari/auth/rate_limit.py:816-819 | a run of four events that loses the only slot |
| AdmissionGate.RateLimiter.Acquire | daari/auth/rate_limit.py:764-804 | the method on the heap and counters takes exactly the machine's arrival step and keeps its invariant |
| AdmissionGate.RateLimiter.WakeNextLocked | daari/auth/rate_limit.py:755-762 | the loop over the heap computes the machine's wake-up |
| AdmissionGate.RateLimiter.FirstRemoved | daari/auth/rate_limit.py:821-829 | the scan keeps all waiters but the one dropped, and says whether it was there |
| AdmissionGate.RateLimiter.DropWaiter | daari/auth/rate_limit.py:821-834 | takes exactly the machine's drop step |
| AdmissionGate.RateLimiter.Release | daari/auth/rate_limit.py:836-841 | takes exactly the machine's release step |
| AdmissionGate.RateLimiter.CancelTask | daari/auth/rate_limit.py:806-819 | a cancelled task decides its pending future at once, or loses its slot if the future was resolved |
| Counters.BackendsAgree | daari/auth/rate_limit.py:110-227 | on every run in which no key goes back to an earlier window, memory, SQLite and Redis give the same answers: the sum of amounts for the key in the current window |
| Counters.TimelyBackendsAgree | daari/auth/rate_limit.py:110-227 | in particular on every run whose clock does not go back |
| CounterDrift.MemoryFallsShort | daari/auth/rate_limit.py:118-126 | after any calls memory's answer is the ledger's less what the window had counted when its key was last in another window |
| CounterDrift.MemoryAgreesIff | daari/auth/rate_limit.py:118-126 | so it is the ledger's if and only if there was no call that counted something for the key in this window followed by one of the key in another; calls of amount zero, which count nothing, are among the calls |
| CounterDrift.SqliteFallsShort | daari/auth/rate_limit.py:165-184 | after any calls SQLite's answer is the ledger's less what the window had counted when its key was last in a later window |
| CounterDrift.SqliteAgreesIff | daari/auth/rate_limit.py:165-184 | so it is the ledger's if and only if there was no call that counted something for the key in this window followed by one of the key in a later |
| CounterDrift.RedisFallsShort | daari/auth/rate_limit.py:219-227 | after any calls Redis' answer is the ledger's less what the row had counted when it last expired |
| CounterDrift.RedisAgreesIff | daari/auth/rate_limit.py:219-227 | so it is the ledger's if and only if no row that had counted something was left alone for a whole window length by the server's clock |
| CounterDrift.RedisMindsNoClock | daari/auth/rate_limit.py:219-227 | with one clock for callers and server and one window length for a key, Redis always answers as the ledger, however the clock jumps |
| Counters.RedisRefines | daari/auth/rate_limit.py:219-227 | a Redis row never expires inside its own window, and its answers are the ledger's |
| Counters.SqliteRefines | daari/auth/rate_limit.py:165-184 | cleaning up old windows of a key never changes an answer |
| Counters.MemoryRefines | daari/auth/rate_limit.py:118-126 | the (count, window) pair answers as the ledger |
| Counters.TableIsShared | daari/auth/rate_limit.py:165-199 | cleanup of one key leaves other keys and gauges alone; gauge rows follow the in-memory gauges and touch no window |
| Counters.GaugeMoves | daari/auth/rate_limit.py:128-132 | a change moves one gauge by its delta, never below zero, and no other |
| Counters.BackwardsClockParts | daari/auth/rate_limit.py:118-126 | three calls after which memory and Redis answer differently (the exact conditions are those of `CounterDrift`) |
| CounterBackends.MemoryCounterBackend.Increment | daari/auth/rate_limit.py:118-126 | the code takes the step proved against the ledger |
| CounterBackends.SqliteCounterBackend.Increment | daari/auth/rate_limit.py:165-184 | the code takes the step proved against the ledger |
| CounterBackends.RedisCounterBackend.Increment | daari/auth/rate_limit.py:219-227 | the code takes the step proved against the ledger |
| WindowLimits.OneBackendOneLimit | daari/auth/rate_limit.py:404-428 | what one backend lets through in a window is at most the limit, and at most what it counted |
| WindowLimits.FailoverLetsThrough | daari/auth/rate_limit.py:353-428 | whatever fails, degrades and recovers, with a fallback and without fail_open a window lets through at most limit plus one limit per process: twice the limit for one process, also when a failing increment took effect |
| WindowLimits.FailoverReachesTheBound | daari/auth/rate_limit.py:404-428 | for any number of processes a run of requests of one each lets through exactly that much |
| WindowLimits.AllowedStayWithin | daari/auth/rate_limit.py:676-702 | requests allowed because all their increments were within limits stay, together, within that bound, however they interleave |
| FailoverBackends.BackendsAnswerAlike | daari/auth/rate_limit.py:404-428 | while no key goes back to an earlier window, Redis as primary and SQLite as fallbacks answer as the failover system does |
| FailoverBackends.BackendsLetThrough | daari/auth/rate_limit.py:353-428 | so the bound holds of Redis with SQLite to fall back on |
| RateCheck.CheckDecidesAllowed | daari/auth/rate_limit.py:676-702 | put after any increments of other requests, a decision allows exactly if every increment of its own request was answered within its limit |
| RateCheck.ResetOpensNextWindow | daari/auth/rate_limit.py:678 | the reset is the first instant of the next window, at most a window length away |
| RateCheck.RetryMeetsTheReset | daari/auth/rate_limit.py:683-687 | a day limit's delay is positive, ends within the second before the reset, and goes past it only when less than a second was left |
| RateCheck.ReportTells | daari/auth/rate_limit.py:676-697 | remaining and count make the limit while it fits and nothing remains after; no delay when allowed, the configured one for a minute limit, whole seconds to the reset and at least one for a day limit; the backend that counted |
| RateCheck.UnlimitedTells | daari/auth/rate_limit.py:578-586 | without a counter to consult: allowed, no limit, no delay, the end of the minute |
| RateCheck.HealthyCheckDecides | daari/auth/rate_limit.py:676-702 | with a primary that answers, allowed if and only if at every counter what stood there and what the request adds up to it fit the limit; and all it was charged is there after |
| RateCheck.NamedIsCurrent | daari/auth/rate_limit.py:343-428 | the backend a process names is the one that gave its latest answer, or the primary |
| WindowLimits.HealthyPrimaryLetsThrough | daari/auth/rate_limit.py:404-417 | while the primary answers, at most one limit |
| FailoverRules.DegradedIff | daari/auth/rate_limit.py:343-417 | a process has given up the primary exactly from a failed increment of its own until a probe of its own succeeds |
| FailoverRules.AnswersComeFrom | daari/auth/rate_limit.py:404-428 | read off the increments alone: which store answers each, and that the answer is all this store has counted at the key and window, an increment that failed after it was counted included; without a store the answer is 0 |
| WindowLimits.OutageLiftsTheLimit | daari/auth/rate_limit.py:419-428 | with fail_open or no fallback, any number of requests pass a limit of one |
| RateCheck.RateLimiter.Increment | daari/auth/rate_limit.py:343-428 | the code takes the step of the failover system, and names the backend that counted, or the primary when none did |
| RateCheck.RateLimiter.Check | daari/auth/rate_limit.py:676-702 | allowed exactly when every counter is within its limit, showing the tightest with its reset, delay and backend; else it shows the first counter over its limit and has charged no later one |
| RateCheck.StaysWithin | daari/auth/rate_limit.py:698-701 | the running choice of the tightest counter stays the earliest of least room |
| GaugeLeases.LeasesStayWithinCaps | daari/auth/rate_limit.py:469-524 | for any interleaving of workers each gauge shows exactly what is raised on it, and granted leases never exceed the cap, rollbacks pending or not |
| GaugeLeases.DoneLeavesNothing | daari/auth/rate_limit.py:469-524 | when all workers are done, denied or released, every gauge is at zero |
| GaugeLeases.ReleaseUndoesAcquire | daari/auth/rate_limit.py:522-524 | releasing what was held restores every gauge, but for what others did to it meanwhile |
| GaugeLeases.AcquiringTurns | daari/auth/rate_limit.py:485-507 | in any interleaving a worker turns to rolling back exactly if its next lease would take the gauge above the limit, and holds its leases exactly when none is left to try |
| GaugeLeases.AloneEndsAsAcquired | daari/auth/rate_limit.py:469-520 | a worker nobody disturbs ends holding all leases if all fit, else idle with every gauge as it was |
| GaugeLeases.LeasesAreGivenBack | daari/auth/rate_limit.py:469-524 | started, and then told to finish, such a worker ends idle with every gauge as it was |
| GaugeLeases.DecisionsTell | daari/auth/rate_limit.py:475-520 | what is left and the count shown make the limit of a grant, nothing is left of a denial; the delay only on a denial, and the reset the second of the decision plus the delay |
| GaugeLeases.GaugeLimiter.TryAcquireGauges | daari/auth/rate_limit.py:469-520 | granted exactly when every lease fits, duplicates counted; then each gauge is raised once per lease, otherwise none changes; a grant shows the lease with least room left, a denial the first that does not fit and the delay |
| GaugeLeases.GaugeLimiter.ReleaseGauges | daari/auth/rate_limit.py:522-524 | each gauge falls once for each time it is listed, and never below zero |
| SemanticTrim.PutsAreABoundedFifo | daari/cache/semantic.py:689-750 | after any puts the list has at most max_entries rows: the newest of those whose key has the marker at some position, in order, and a suffix of the old rows without it where there is room |
| SemanticTrim.UnmarkedPutsKeepNewest | daari/cache/semantic.py:749-750 | without an embedder id the list is the newest max_entries rows |
| SemanticTrim.ZeroNeverEvicts | daari/cache/semantic.py:745-746 | with max_entries 0 every current row is kept for ever, and every row when there is no embedder id |
| SemanticTrim.BoundedIffPositive | daari/cache/semantic.py:736-750 | the bound holds for every sequence of puts if and only if max_entries is at least one |
| SemanticTrim.TrimKeepsNewest | daari/cache/semantic.py:736-750 | trimming leaves max_entries rows: the newest of those whose key has the marker at some position, and the newest others only in the room left |
| SemanticTrim.ContainsIff | daari/cache/semantic.py:743-744 | the marker is in a key exactly if it stands at some position of it |
| RowKeys.LongerIdsAreLive | daari/cache/semantic.py:71-101 | a key built under an id that begins with the running one carries its marker, so every row the running embedder stores does |
| RowKeys.LiveIffIdBegins | daari/cache/semantic.py:71-101 | where no other segment looks like a tag, a row counts as live if and only if the running id begins the id it was stored under |
| RowKeys.LiveRowsGoLast | daari/cache/semantic.py:743-749 | a row without the marker is kept by a trim only if every row with it is |
| RowKeys.OtherEmbeddersGoFirst | daari/cache/semantic.py:736-749 | so of rows as the cache builds their keys, one of an embedder whose id the running one does not begin goes before one of the running embedder |
| SemanticTrim.PruneRemovesTheExpired | daari/cache/semantic.py:643-652 | pruning removes every row stamped longer ago than the ttl, no other, and keeps the rest in order |
| SemanticTrim.PruneIsIdempotent | daari/cache/semantic.py:643-652 | pruning leaves no row that is too old, and a second prune no later on the clock finds none |
| SemanticTrim.NearestEntry | daari/cache/semantic.py:570-609 | the first row of the best positive score among the usable ones; none exactly if no usable row scores above zero |
| SharedList.EveryRunSurvives | daari/cache/redis_semantic.py:91-179 | over every run the list is a replay of the writes in which a stale write goes back to the list as it was when loaded, and each prune returns what its own write removed of it |
| SharedList.RunsAreSequential | daari/cache/redis_semantic.py:91-179 | linearizability: unless a write after the loop is stale, the stored list is the mutators applied one after another in the order of the writes, and each prune returns what its own write removed |
| SharedList.MutatorsMean | daari/cache/redis_semantic.py:152-179 | a put appends its row and trims; a prune keeps just the rows that are not too old and answers how many were |
| SharedList.PrunesCountTheOutdated | daari/cache/redis_semantic.py:164-179 | over every run a prune that is done has answered the number of rows too old in the list its own write built on |
| SharedList.ConflictsAreReal | daari/cache/redis_semantic.py:102-126 | a failed attempt means another write in between, and a client leaves the loop exactly after its fifth |
| SharedList.StaleWriteForgets | daari/cache/redis_semantic.py:124 | in any run a write after the loop stores its mutator of the list as it was when loaded, whatever has been written since |
| SharedList.AWriteCanBeLost | daari/cache/redis_semantic.py:124 | a run in which a reported commit is lost |
| LostWrites.SurvivorsInSequence | daari/cache/redis_semantic.py:91-124 | that replay is the mutators of the surviving writes, one after another, as if the others had never been |
| LostWrites.LostIff | daari/cache/redis_semantic.py:124 | a write is lost if and only if it came between the load and the save of a surviving write after the loop |
| LostWrites.AllSurviveIffFresh | daari/cache/redis_semantic.py:124 | every write survives if and only if nobody wrote between the load and the save of a write after the loop |
| LostWrites.RunsLoseOnlyErased | daari/cache/redis_semantic.py:91-124 | the three together, over every run |
| LostWrites.PutsAreLostIffStale | daari/cache/redis_semantic.py:124-162 | with room for all, the list has the surviving puts behind the rows it began with, and a row for every put if and only if no write was stale |
| LostWrites.SurvivingPutsAreAFifo | daari/cache/redis_semantic.py:128-162 | runs of puts, from any list, leave a bounded FIFO of the puts that survive |
| LostWrites.ConcurrentPutsAreAFifo | daari/cache/redis_semantic.py:128-162 | without a stale write they leave the newest rows of all puts in the order of the writes, from any list, with an embedder id or without |
| SharedList.RedisSemanticCache.MutateEntries | daari/cache/redis_semantic.py:91-124 | commits at the first undisturbed attempt on top of all that came before; after five disturbed ones stores its mutator of the list as loaded |
| SingleFlight.OneFillPerKey | daari/cache/singleflight.py:25-56 | at most one unfinished leader per key, and a slot exactly while there is one |
| SingleFlight.WhoLeads | daari/cache/singleflight.py:25-37 | a call leads exactly if all earlier leaders of the key have finished, by result or error; else it joins the unfinished one |
| SingleFlight.OneOutcome | daari/cache/singleflight.py:48-53 | a future completes at most once |
| SingleFlight.LeaderDecidesUnlessCancelled | daari/cache/singleflight.py:39-69 | once the leader has finished, the outcome all see is the leader's if and only if no cancellation came before that; otherwise it is the cancellation |
| SingleFlight.CancelledFirstMeans | daari/cache/singleflight.py:48-53 | that condition by position: a cancellation of the future with no finish of it before |
| SingleFlight.FlightsCanEnd | daari/cache/singleflight.py:39-61 | exactly the flights whose leader has not finished can end, by any result and any error, and waiters can be cancelled at any time |
| SingleFlight.CancellationIsShared | daari/cache/singleflight.py:58-61 | until the leader finishes, every later call of the key is handed the cancelled future |
| SingleFlight.KeysAreApart | daari/cache/singleflight.py:25-56 | an event of one key changes no slot and no future of another |
| SingleFlight.KeysRunApart | daari/cache/singleflight.py:25-56 | over whole runs a key's futures come out, and its slot is taken, as if its own events were all there was |
| SingleFlight.SingleFlight.BeginFlight | daari/cache/singleflight.py:25-37 | the code takes the machine's begin step |
| SingleFlight.SingleFlight.FinishFlight | daari/cache/singleflight.py:39-56 | the code takes the machine's finish step |
| RolloverBudget.RolloverNeverMints | daari/auth/budgets.py:326-347 | over any number of periods, skipped ones included, spend is at most one base each plus the first carry plus what was overspent |
| RolloverBudget.RolloverLosesNothing | daari/auth/budgets.py:660-706 | while nobody overspends and the multiple cuts nothing off, the limit in force plus all spent before it is exactly one base a period plus the first carry |
| RolloverBudget.UnspentIsCarried | daari/auth/budgets.py:326-347 | what is left of a limit raises the next one in full, up to the multiple |
| RolloverBudget.BasesAreAProduct | daari/auth/budgets.py:326-347 | that many bases are n times the base |
| RolloverBudget.LimitRange | daari/auth/budgets.py:326-331 | an effective limit lies between base and base times the multiple, and is base plus carry exactly when that fits |
| RolloverBudget.LimitsByTheMultiple | daari/auth/budgets.py:326-347 | with the multiple as configured: at least 1, the limit is the lesser of base plus carry and base times it, reached by a large carry, and at most base times it less 1 is carried; 0 stands for 2; anything else below 1 allows the base alone |
| RolloverBudget.CarryComesFromTheRow | daari/auth/budgets.py:672-706 | which stored row is used: the period's own as it is, the one before's for the limit then in force, any other not at all; nothing for a window that does not roll over or is for life |
| RolloverBudget.ComputedCarryIsNotClipped | daari/auth/budgets.py:334-347 | a computed carry is used in full: the limit is base plus carry |
| RolloverBudget.CarryIsSettledOnce | daari/auth/budgets.py:660-706 | within a period the stored carry is returned again, whatever is spent meanwhile |
| RolloverBudget.CarryIsUnspent | daari/auth/budgets.py:684-703 | at the turn of a period no more is carried than the limit left unspent |
| RolloverBudget.WindowStore.ResolveCarry | daari/auth/budgets.py:672-706 | the code takes the step of which `CarryComesFromTheRow` and `LimitsByTheMultiple` speak, and stores its row |
| CapMerge.NormalizeIsIdempotent | daari/auth/budgets.py:21-33 | a canonical duration is its own name |
| CapMerge.NormalizeNames | daari/auth/budgets.py:15-33 | which texts get each name: the aliases of a span its own, a number of hours or days itself, nothing else any |
| CapMerge.CapsAreLeast | daari/auth/budgets.py:122-151 | the cap on a duration is the least positive one, for money and requests apart |
| CapMerge.OrderDoesNotMatter | daari/auth/budgets.py:179-223 | caps depend on the set of windows only |
| CapMerge.OwnerAttainsTheLeast | daari/auth/budgets.py:186-202 | the owner is the side attaining the least cap of both lists, the team when both do |
| CapMerge.CoalescingKeepsCaps | daari/auth/budgets.py:122-151 | a coalesced list sets the same caps as the original |
| CapMerge.CoalescingKeepsOwners | daari/auth/budgets.py:122-223 | coalescing either side first changes no cap and no owner |
| CapMerge.CoalesceWindows | daari/auth/budgets.py:122-151 | one entry per capped duration, in order of first appearance, carrying exactly its caps, rolling over if some window of it does, with the first one's multiple; an unknown duration is refused |
| CapMerge.LifetimeRolloverSurvives | daari/auth/budgets.py:64-65 | one lifetime window never rolls over, two with the flag set do |
| CapMerge.MergeWindowScopes | daari/auth/budgets.py:179-223 | one entry per capped duration, with both caps, their owners, and the rollover terms of the first of the owner's windows that sets the money cap; an unknown duration is refused |
| CapMerge.OrderIsIdleIffTermsAgree | daari/auth/budgets.py:190-218 | listing the same windows otherwise leaves the entry as it is if and only if the owner's windows that set the money cap agree on their rollover terms |
| CapMerge.OrderDecidesTerms | daari/auth/budgets.py:190-218 | two windows of one cap, of which one rolls over: the entry rolls over exactly if that one is listed first |
| Calendar.DatesAreUnique | daari/auth/budgets.py:274-275 | a calendar date names one day |
| Calendar.IsoWeeksAreWeeks | daari/auth/budgets.py:276-277 | two days share an ISO year and week (section 4.1.4 of ISO 8601:2004) exactly if one Monday starts their weeks |
| Calendar.IsoWeekNumbers | daari/auth/budgets.py:276-277 | ISO week numbers lie in 1 to 53 |
| Calendar.YearLength | daari/auth/budgets.py:274-279 | years of the calendar have 365 or 366 days by the leap rule |
| CivilDates.MonthStartsInClosedForm | daari/auth/budgets.py:240-245 | the day number of the first of a month, in closed form from year and month |
| CivilDates.DateIff | daari/auth/budgets.py:274-279 | a day has a date if and only if the date counts to that day in closed form and its day runs from 1 to the last of its month |
| CivilDates.EpochIsThursday | daari/auth/budgets.py:285 | 1 January 1970 is day 719163, a Thursday |
| CivilDates.FourthOfJanuary | daari/auth/budgets.py:276-277 | 4 January is in week 1 of its ISO year |
| CivilDates.WeeksCountOn | daari/auth/budgets.py:276-277 | from week to week the number rises by one inside an ISO year and falls to 1 where the next begins |
| Periods.IdsAreIntervals | daari/auth/budgets.py:266-279 | two instants share a day, week or month id exactly if they share a period number; numbers never go back or skip |
| Periods.PreviousIsTheOneBefore | daari/auth/budgets.py:294-314 | an instant has the previous id exactly if it lies in the period numbered one less; there is no previous id exactly in the first period of the calendar |
| Periods.ResetIsFirstOfNext | daari/auth/budgets.py:226-247 | the reset is the first instant with another id |
| CivilDates.MonthsByDate | daari/auth/budgets.py:240-246 | the ids by date, and the monthly reset is midnight of the first of the next month |
| CivilDates.WeeksByDate | daari/auth/budgets.py:232-239 | the daily reset is the next midnight, the weekly one midnight of the next Monday, at most a week away |
| Periods.BucketCountsLengths | daari/auth/budgets.py:280-290 | a rolling bucket is the number of whole lengths since the epoch, by the second of the instant |
| Periods.MomentsAreInstants | daari/auth/budgets.py:226-290 | days and microseconds number the instants in order, each once, from 1 January 1970 |
| Periods.BucketsAreIntervals | daari/auth/budgets.py:280-290 | rolling buckets never go back and rise by at most one a second |
| Periods.PreviousBucketIsOneBefore | daari/auth/budgets.py:315-322 | the previous rolling bucket is one less if and only if the length is not zero and the instant is not in the last, fractional second of the first bucket after the epoch |
| Periods.RollingResetOpensNextIffAligned | daari/auth/budgets.py:248-254 | for every microsecond since the epoch, a rolling reset falls in the next bucket, and opens it exactly for an instant that opens its own |
| Periods.RollingResetIsInNext | daari/auth/budgets.py:248-254 | for any instant and length, the reset falls in the next bucket if and only if the length is not zero and the instant is not in the last second before the epoch |
| SlidingWindow.SamplersAgree | daari/auth/postgres_virtual_keys.py:1513-1528 | with a clock that does not go back the in-memory and the SQLite sampler give the same answers on every run, those of a log that is never pruned |
| SlidingWindow.AnswersAreExact | daari/auth/postgres_virtual_keys.py:1513-1528 | a call is admitted if and only if it has no limit or fewer than rpm hits of its key were admitted in the 60 seconds up to it |
| SlidingWindow.AtMostRpmInAnyMinute | daari/auth/virtual_keys.py:1835-1850 | every interval of 60 seconds, ends included, holds at most rpm admitted hits of a key |
| SlidingWindow.BackwardsClockParts | daari/auth/virtual_keys.py:1842 | three calls which the two samplers answer differently (the exact condition is that of `SamplerDrift`) |
| SamplerDrift.CountsAgreeIffNothingSwept | daari/auth/virtual_keys.py:1842 | while answers have been alike, memory counts for a call what SQLite counts plus the hits other keys' calls swept away; so they count, and answer, the same exactly when none was |
| SamplerDrift.AnswersPartIffLimitBetween | daari/auth/virtual_keys.py:1842-1848 | they answer differently exactly if the limit lies between the two counts, and then memory denies |
| SamplerDrift.UnsweptRunsAgree | daari/auth/postgres_virtual_keys.py:1513-1528 | on every run in which no call finds a hit swept away the samplers give the same answers |
| SamplerDrift.InOrderIsUnswept | daari/auth/virtual_keys.py:1840-1842 | a clock that does not go back never sweeps one away |
| SlidingWindow.LocalSampler.CheckRpm | daari/auth/postgres_virtual_keys.py:1513-1528 | the code takes the in-memory step |
| SlidingWindow.LocalSampler.Fresh | daari/auth/postgres_virtual_keys.py:1522 | the filter keeps exactly the hits not older than a minute, in order |
| SlidingWindow.TableSampler.CheckRpm | daari/auth/virtual_keys.py:1835-1850 | the code takes the SQLite step |
| KeyRotation.LiveSecretsResolve | daari/auth/virtual_keys.py:1758-1799 | over every run with fresh secrets the current secret of a live key resolves to it with its own expiry, the one before to the same key with the grace deadline as expiry |
| KeyRotation.NothingElseResolves | daari/auth/virtual_keys.py:1758-1799 | a secret that resolves is one of the last two of the one live key it was issued to |
| KeyRotation.RevokedStaysRevoked | daari/auth/virtual_keys.py:1546-1554 | no secret of a revoked key resolves again, whatever happens later |
| KeyRotation.ReusedSecretIsShared | daari/auth/virtual_keys.py:252-254 | freshness is needed: a previous secret may become another key's, since only current digests are unique |
| KeyRotation.AnswersTell | daari/auth/virtual_keys.py:1157-1607 | revoking answers yes exactly if the key was live; rotating raises KeyError exactly if no live key has the id, and fails otherwise exactly if the digest is another's current one; creating fails exactly if id or digest is in use |
| KeyRotation.KeysAreUnique | daari/auth/virtual_keys.py:252-254 | over every run each id and each current digest has one row |
| KeyRotation.SharedIffReused | daari/auth/virtual_keys.py:1157-1607 | from a table where no secret leads to two rows, an event makes one exactly if it is an accepted create or rotation to a secret that another row has as its previous one |
| KeyRotation.NeverSharedIffNeverReused | daari/auth/virtual_keys.py:1157-1607 | over whole runs no secret ever led to two rows if and only if there was no such event |
| KeyRotation.VirtualKeyStore.CreateKey | daari/auth/virtual_keys.py:1157-1193 | inserts one row with the secret's digest, or is refused with nothing changed |
| KeyRotation.VirtualKeyStore.RotateKey | daari/auth/virtual_keys.py:1556-1607 | the old digest becomes the previous one with its deadline; a missing or revoked key is a KeyError |
| KeyRotation.VirtualKeyStore.RevokeKey | daari/auth/virtual_keys.py:1546-1554 | marks a live key revoked, once |
| KeyRotation.VirtualKeyStore.ResolveSecret | daari/auth/virtual_keys.py:1758-1799 | finds the row that carries the digest, and shows its expiry or the deadline |
| ModelNames.CandidatesAreTails | daari/pricing.py:407-422 | the candidates are the id and its non-empty tails after a dot or a slash |
| ModelNames.JoinUndoesSplit | daari/pricing.py:417-419 | joining what was split gives the text back |
| ModelNames.LongestKeyWins | daari/pricing.py:389-404 | a match is a configured key that starts the id or a tail of it, none such is longer, and there is none exactly if no key does |
| ModelNames.KeyOrderDoesNotMatter | daari/pricing.py:389-404 | the match depends on the set of keys only, ties included |
| NameTies.CandidatesInOrder | daari/pricing.py:414-422 | the id first, then its tails after a dot, then those after a slash, the longer of a kind first |
| NameTies.TiesGoToTheEarliest | daari/pricing.py:398-404 | of keys of one length the match is the one that starts the earliest candidate |
| ModelNames.FindModelKey | daari/pricing.py:389-404 | the loops compute that match |
| ModelNames.ModelIdCandidates | daari/pricing.py:407-422 | the loops compute the candidates |
| AliasRates.ChainEnds | daari/pricing.py:573-590 | on every table, cyclic ones included, an alias chain is no longer than the keys not excluded |
| AliasRates.LinksAreLongest | daari/pricing.py:580-588 | each link goes to the longest unvisited key that describes the alias, and the chain stops only where there is none |
| AliasRates.NearestEntryWins | daari/pricing.py:573-596 | an entry resolves exactly if some entry on its chain sets both rates by itself, and then each field is the nearest one up to the last such entry |
| AliasRates.TailsResolveUpToTheReach | daari/pricing.py:584-590 | that cut is at the first tail that does not resolve by itself |
| TokenCost.BilledAtNearestRates | daari/pricing.py:425-464 | a decisions request is billed by its card; any other flat exactly if no key describes its model or the chain does not resolve, else at the nearest rates of the chain, or above its threshold at the nearest above rates |
| TokenCost.UnpricedIsBilledFlat | daari/pricing.py:461-504 | a request nothing prices costs the per-1k rate for every thousand tokens, input and output alike, written ones 1, 1.25, 2 or 2.5 times by TTL, times the multipliers |
| TokenCost.UnsetCacheRates | daari/pricing.py:490-532 | without configured rates a cached token costs a fresh one, a written one 1, 1.25, 2 or 2.5 times that |
| TokenCost.SetCacheRates | daari/pricing.py:490-532 | configured cache rates are charged as they are, each by its TTL |
| TokenCost.NegativeCountsAreFree | daari/pricing.py:486-492 | negative output and written counts, and a cached count above the input, are not credited |
| TokenCost.LargerIsNoCheaper | daari/pricing.py:599-680 | with sane rates no rate of a larger request is lower |
| TokenCost.SplittingNeverCostsMore | daari/pricing.py:467-504 | pricing is superadditive: two parts never cost more than the whole |
| TokenCost.SplittingIsFreeInOneBand | daari/pricing.py:467-504 | with equality when the threshold does not come between the parts and the whole |
| TokenCost.CostGrows | daari/pricing.py:467-504 | cost is monotone in input, output and written tokens |
| TokenCost.EachTokenCostsItsRate | daari/pricing.py:487-499 | nothing costs nothing, and each further token of a kind costs a millionth of that kind's rate |
| TokenCost.ThresholdKeepsProportions | daari/pricing.py:645-668 | at the threshold the above rates apply to the whole request, and each cache rate keeps its proportion to the input rate |
| TokenCost.CachedTokensSaveIfCheaper | daari/pricing.py:490-494 | a larger cached share costs no less exactly if a cached token is charged no less than a fresh one |
| TokenCost.ClampMakesSplittingDearer | daari/pricing.py:488-489 | without the bound on cached tokens splitting at one price costs more exactly if one part has more cached than input tokens and the other fewer |
| TokenCost.CostUsd | daari/pricing.py:467-504 | the running total is the charge at the resolved price, times the multipliers |

## Left out

- Networks, files, SQL text and serialisation: each store is a map or a list with atomic operations that may fail.
- The asyncio lock around the gate's critical sections, and the tasks themselves: a critical section is one event.
- The exact array layout that CPython's heapq leaves behind: `Push`, `Pop` and `Heapify` are sift loops with the contract of the library, and no result depends on the layout.
- RateCheck.RateLimiter.Check: starts from the list of counters, and is one caller at a time; `CheckDecidesAllowed` puts it after any increments of others, and interleaved callers are the runs of `WindowLimits`.
- The probe interval of `_maybe_recover`: whether the primary is found healthy is an input of each increment.
- Redis gauges (their expiry and their two-step clamp), and gauges that move between backends during an outage.
- The parsing of priority texts: an unknown one is normal.
- GaugeLeases.GaugeLimiter.TryAcquireGauges: leaves out the failover of single adjustments, and with it the name of the backend.
- `SemanticCache.invalidate`, which loads and saves outside the compare-and-set loop.
- Embeddings and cosine scores (a score function), and the stored bodies of cache rows beyond their identity.
- A negative max_entries.
- Exceptions other than a watch conflict in the compare-and-set loop, and clients without a pipeline.
- Rollover of week and rolling windows: the source takes one calendar day as the spend of the period before, so only day and month are modelled as consecutive periods.
- Dates after the last year of Python's datetime.
- The fields of a virtual key other than digests, expiry and revocation; export and import of keys; the parsing of grace and expiry texts (a deadline is an input).
- The service tier, region and speed multipliers: `TokenCost.Cost` takes their product as one factor.
- Rounding of floating point.
- `key_lockout.py`, `invalid_key_throttle.py`, `model_access.py`, `service_tier_access.py`, `agent_access.py`, `rate_families.py`, `cache/exact.py` and `cache/verify.py`: one-branch facts or the sliding window again.
- The CLI, scripts, client recipes, audit, webhooks, reports and gauge rendering.
