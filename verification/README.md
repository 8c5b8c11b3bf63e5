# A model of the webhook service's job engine, resilience stack and caches

The service receives GitLab webhooks and turns them into Jira comments. This project models the
part of it that carries state: the priority job queue with its workers and retries, the delayed
jobs, the circuit breaker, retry loops and middleware around every outgoing call, the token
bucket in front of Jira, the caches with their consistent hash ring, and the normaliser of
comment documents. What is proved are statements about every run, every interleaving or every
input of these parts.

Each entity the code updates in place is a class whose methods are held to a function or relation
on values; the main results are lemmas about those functions, about whole runs of them, or about
transition systems in which several callers interleave. Times are integers handed to each call as
the clock readings it makes. Map iteration visits keys in an arbitrary order.

| file | what it covers |
|---|---|
| `RateLimiter.dfy` | the token bucket, how many calls it lets through at most and how many at least |
| `CommentRetry.dfy` | the attempt loop that posts a comment, paid for at the bucket |
| `Backoff.dfy` | the three copies of capped exponential backoff, and jitter |
| `CircuitBreaker.dfy` | the breaker, for interleaved and for sequential callers |
| `BreakerLoad.dfy` | the load of overlapping callers on a server that never answers |
| `ApiClient.dfy` | the retry loop inside the breaker, and the load on a failing server |
| `Middleware.dfy` | the middleware chain and nested retries |
| `JobQueue.dfy` | the four-level queue, operation by operation |
| `PriorityOrder.dfy` | what strict-priority polling amounts to |
| `JobEngine.dfy` | submitters, workers and retry goroutines interleaved: conservation, order, capacity |
| `JobCounters.dfy` | what the queue's statistics say, exactly |
| `RetryBudget.dfy`, `RetryRuns.dfy` | how often a job is tried, with runs to show it, and why the engine comes to rest |
| `JobStatus.dfy` | what a job's status says about where it is and how its last try went |
| `JobShutdown.dfy` | what a shutdown leads to |
| `DelayedQueue.dfy` | the delayed list and its concurrent drainers |
| `HashRing.dfy` | the consistent hash ring and the node table |
| `EvictionScans.dfy` | the scans that pick what to evict, over any order of the map |
| `AdvancedCache.dfy`, `LruRefinement.dfy` | the cache with eviction strategies, its accounting, and LRU as a move-to-front list |
| `History.dfy` | histories of calls on a cache, and what they say about one key |
| `CacheHistory.dfy`, `MemoryHistory.dfy` | every run of the caches against those histories: values, expiry, use and eviction |
| `MultiLevelCache.dfy` | the two-level cache against a plain map |
| `Adf.dfy` | validation, plain-text fallback and sanitising of comment documents |
| `Common.dfy`, `Arithmetic.dfy` | definitions and facts that several files share |

## Where the code and its descriptions differ

The model follows the code. Each of these is stated by a lemma or method below.

- A comment at `Build` says that the first middleware added is executed first. The last one added is
  outermost (`FirstAddedRunsFirstIff`).
- A comment in the breaker says that half open allows one request. It keeps to one exactly when
  there is at most one caller (`SingleProbeIff`); any number can run at once while it is half open
  (`EveryoneProbes`). And it is open exactly at its threshold only for a single caller or a
  threshold of one (`SettledAtRestIff`). Overlapping callers can still be bounded
  (`OverlappingLoad`).
- The bucket is said to allow `rate` requests a second. It does exactly when callers never overlap
  and the rate divides a second into whole nanoseconds (`KeepsRateIffDivides`, `KeepsRateForIff`):
  it drops its lock while it sleeps, so `m` callers in flight get `m` calls through in every wait
  time, for as long as they like (`OverlappingSleepersAllPass`), and no more (`BoundForCallers`).
- `PendingJobs` is used as the length of the queue. It is that length exactly until the first retry
  is put back (`PendingIsQueueLengthIff`) and can be negative (`PendingBelowZero`). `FailedJobs`
  counts retries as failures (`FailedIsDeadIff`), and attempts are numbered 1, 2, ... only for jobs
  that are never retried (`AttemptsCountFromOneIff`); `DiesAfterTwoTries` is a run that shows both.
- A job may be configured for many retries. Its context is cancelled by its first completion, so
  without an earlier deadline it is tried at most twice (`ExecutionBound`), and a budget of two
  retries or more is used up exactly by jobs whose deadline had passed (`BudgetIsUsedUpIff`). For
  every budget there are runs to show it (`DiesAfterTwoTries`, `UsesItsBudgetUp`).
- Priorities are strict only among the jobs a worker sees while it polls: what it takes is the head
  of the line exactly when no higher level has been filled behind its back (`TakeIsHeadIff`).
- A budget that allows no attempt makes a retry loop report success without doing anything
  (`RetryerExecute`, `NilMeansSuccessIff`, `AddComment`).
- `WaitForReadyJobs` reports success when the list is empty, which may be before the jobs have
  reached the main queue (`EmptyListMeansAllMovedIff`, `EmptyListWhileBusy`).
- The adaptive strategy chooses by a hit rate that nothing ever writes; it always evicts as LFU does
  (`EvictAdaptive`). The two-level cache's "LRU" chooses by number of accesses.
- The empty key stands for "no victim found" in every eviction scan, so an item under it is never
  evicted, and it can make the scan pick a recently used item or nothing at all
  (`OldestIsPickedIff`, `LeastIsPickedIff`, `SetsKeepsLimitIff`, `SetKeepsLimitIff`).
- LFU is sure to store a new item only while there is room; in a full cache it may drop the very item
  being set, even if others are unused as well (`LfuStoresTheNewItemIff`). For every strategy the
  exact condition is `SetIsStoredIff`.
- An item promoted within the last five minutes of its time to live is served beyond it
  (`PromotionOutlivesTtlIff`).
- The comment generators write `strong` marks, which validation refuses, so that such a comment is
  posted as plain text (`StrongMarkFallsBack`). Sanitising does not make every document valid
  (`SanitizedIsValidIff`).

## Model

| member | source | states |
|---|---|---|
| TokenBucket.RateLimiter.Wait | internal/jira/client.go:51-76 | one undisturbed call leaves the bucket that the run lemmas reason about, and returns at once exactly if there is a token left or the time since the last refill has earned one |
| TokenBucket.CallIsPaidFor | internal/jira/client.go:51-76 | each call moves the potential (wait time times tokens, less the last refill) by at least the price of one token, whether it refills, caps or sleeps |
| TokenBucket.RunIsPaidFor | internal/jira/client.go:51-76 | on every sequential run, the first k+1 returns have used up the initial tokens and the time since the last refill |
| TokenBucket.BoundFromConstruction | internal/jira/client.go:38-76 | for every rate, at most rate + T / waitTime calls return within T of construction |
| TokenBucket.BoundInAnyWindow | internal/jira/client.go:51-76 | for every rate, at most rate + 1 + W / waitTime calls return in any window of length W |
| TokenBucket.IdleTimeBuys | internal/jira/client.go:51-76 | of the callers that enter together d after the last refill, exactly the largest burst that the tokens left and d * rate / 10^9 earned ones pay for, up to the rate, returns at once, and the next caller sleeps |
| TokenBucket.EarlyCallersTakeOne | internal/jira/client.go:51-76 | the same after any callers who came before a token was earned: they take one each of those there were and delay nobody |
| TokenBucket.BurstAfterSleep | internal/jira/client.go:51-76 | on a run, d after a sleeper returned exactly min(rate, d * rate / 10^9) callers return at once and the next one sleeps; after a second that is a full burst |
| TokenBucket.KeepsRateIffDivides | internal/jira/client.go:51-76 | the advertised bound of rate + rate*T calls holds on every sequential run if and only if the rate divides 10^9 |
| TokenBucket.EnterThenWakeIsWait | internal/jira/client.go:51-76 | the two locked sections of a call that nobody overlaps add up to the sequential call |
| TokenBucket.BoundForCallers | internal/jira/client.go:38-76 | with at most m callers in flight, overlapping in their sleeps in any way, at most rate + m * T / waitTime calls return within T of construction |
| TokenBucket.WindowForCallers | internal/jira/client.go:51-76 | with at most m callers in flight, at most rate + m + m * W / waitTime calls return in any window of length W, on every run |
| TokenBucket.OverlappingSleepersAllPass | internal/jira/client.go:51-76 | for every n and every k up to m, a run from construction in which exactly rate + n * k calls return within n wait times, so the bound for m callers is attained at every lap and sustained for ever |
| TokenBucket.KeepsRateForIff | internal/jira/client.go:51-76 | with at most m callers in flight the advertised bound holds on every run if and only if m is one and the rate divides 10^9 |
| CommentRetry.AddComment | internal/jira/client.go:131-170 | every attempt but the last was sent and broke off or got a 5xx, the last one was final or used up the budget, no error means that it got a 2xx, each attempt passed the bucket once, and the pauses are those between the attempts made |
| CommentRetry.PausesClosedForm | internal/jira/client.go:164-166 | the pauses between n attempts add up to the base delay times 2^(n-1) - 1 |
| CommentRetry.PacedRun | internal/jira/client.go:143-167 | the attempts of one undisturbed call are a sequential run of the bucket, delayed by at least all their pauses |
| CommentRetry.AttemptsWithin | internal/jira/client.go:131-170 | attempts made within T of the start are bounded both by the logarithm of T over the base delay and by the bucket |
| Backoff.GetDelay | internal/async/middleware.go:267-277 | the early-break loop computes the fully iterated clamped delay when the multiplier is at least one |
| Backoff.RetryerDelay | internal/errors/types.go:523-533 | the same for attempts counted from one |
| Backoff.JobRetryDelay | internal/async/queue.go:355-364 | the same for the loop written inside the retry of a queued job |
| Backoff.SameBackoff | internal/async/queue.go:355-364 | the three loops agree on equal parameters once their attempt numbers are lined up |
| Backoff.EarlyBreakIsDelay | internal/async/middleware.go:267-277 | stopping at the first delay above the maximum changes nothing, from any point of the iteration, for multipliers of at least one |
| Backoff.EarlyBreakAgreesIff | internal/async/middleware.go:267-277 | for any multiplier, stopping early is harmless for every attempt if and only if the first step stays within the maximum or the maximum does not shrink |
| Backoff.Monotone | internal/async/middleware.go:267-277 | delays never fall and stay between base and maximum when the base is within the maximum |
| Backoff.ClosedForm | internal/async/middleware.go:267-277 | for a whole multiplier m the k-th delay is the smaller of base*m^k and the maximum, and the first is not capped |
| Backoff.PowerBounds | internal/async/middleware.go:267-277 | for any multiplier num/den of at least one, the k-th delay times den^k lies between (base - k) * num^k and base * num^k, the truncations costing no more, unless it is at the maximum |
| Backoff.JitterStaysWithinAQuarter | internal/errors/types.go:536-543 | jitter moves a delay by at most a quarter and never up to the whole quarter |
| Backoff.JitterIsProportional | internal/errors/types.go:536-543 | the jitter is the quarter of the delay times 2r - 1, truncated toward zero, for the last three digits r of the clock in thousandths, and balances out around the middle reading |
| Backoff.JitterCanPassMaxIff | internal/errors/types.go:523-543 | the exact delays for which some clock reading lifts the jittered delay above the cap |
| CircuitBreakers.CircuitBreaker.Admit | internal/async/middleware.go:311-342 | a call is admitted exactly if the breaker is not open or its timeout has passed since the last failure, and only an admitted caller of an open breaker makes it half open |
| CircuitBreakers.CircuitBreaker.OnFailure | internal/async/middleware.go:353-369 | the breaker after a failure, as the transition system has it |
| CircuitBreakers.CircuitBreaker.OnSuccess | internal/async/middleware.go:371-378 | the breaker after a success, as the transition system has it |
| CircuitBreakers.InterleavedRun | internal/async/middleware.go:311-378 | however callers interleave, the counter is the number of failures since the last success and a closed breaker is below its threshold |
| CircuitBreakers.FreshBreakerKeepsInvIff | internal/async/middleware.go:301-308 | that invariant holds of a fresh breaker if and only if the threshold is at least one |
| CircuitBreakers.RefusesUntilTimeout | internal/async/middleware.go:311-378 | after any run of overlapping callers, an open breaker turns a call away and stays as it is exactly until the timeout has passed since the last recorded failure; a call after that runs, and its success closes the breaker |
| CircuitBreakers.RestingRun | internal/async/middleware.go:311-378 | for any number of callers and any interleaving: when no call is under way the breaker is not half open, and it is open if the failures since the last success reach the threshold |
| CircuitBreakers.SettledAtRestIff | internal/async/middleware.go:311-378 | "open exactly at the threshold" holds at rest after every run of n callers if and only if n is at most one or the threshold is one |
| CircuitBreakers.SingleProbeIff | internal/async/middleware.go:325-336 | from a fresh breaker, at most one of n callers runs while it is half open, on every run, if and only if n is at most one |
| CircuitBreakers.UndisturbedCall | internal/async/middleware.go:311-351 | the three separately locked sections of an undisturbed call add up to the call the load bounds reason about |
| CircuitBreakers.HalfOpenAdmitsEveryone | internal/async/middleware.go:325-336 | from any open breaker whose timeout has passed, every caller that is waiting can be let through |
| CircuitBreakers.EveryoneProbes | internal/async/middleware.go:311-336 | for every configuration and number of callers, a run from a fresh breaker at whose end all of them run at once while it is half open |
| CircuitBreakers.StaleSnapshotOpensEarly | internal/async/middleware.go:311-330 | for every threshold, timeout and number of callers from two on, a run from a fresh breaker that ends at rest with the breaker open after a single failure since the last success |
| BreakerLoads.OverlappingLoad | internal/async/middleware.go:311-378 | n callers that never succeed, overlapping in any way, are within T of construction let through at most threshold - 1 + n + n * n * (T / timeout) times; for one caller this is threshold + T / timeout |
| ApiClients.RetryerExecute | internal/errors/types.go:483-520 | which attempts are made, when the loop goes on, and which result it gives in each case, the empty budget included |
| ApiClients.FirstSuccessEnds | internal/errors/types.go:483-520 | if the k-th attempt is the first that does not call for another one and it succeeds, exactly k attempts are made and the result is success |
| ApiClients.ApiClient.ExecuteRequest | internal/errors/integration.go:64-128 | a refused request sends nothing; an admitted one makes attempts exactly as the retry loop does, ends with the result of the last one, and succeeds after exactly k attempts if the k-th is the first that calls for no other one and succeeds; the breaker records one outcome per request |
| ApiClients.OpenLoad | internal/errors/integration.go:115-121 | on every run of failing requests an open breaker lets at most one probe per elapsed timeout reach into a window |
| ApiClients.LoadBound | internal/errors/integration.go:115-121 | in every window of length T a fresh client with no success sends at most maxAttempts * (threshold + T / timeout) attempts |
| Middlewares.MiddlewareChain.Build | internal/async/middleware.go:38-47 | the built handler is the innermost one wrapped by all middleware, the last one added outermost |
| Middlewares.WrappedConcat | internal/async/middleware.go:38-47 | building a concatenation is building the second part around the handler built from the first |
| Middlewares.LastAddedIsOutermost | internal/async/middleware.go:38-47 | the exact order in which every chain is entered and left |
| Middlewares.FirstAddedRunsFirstIff | internal/async/middleware.go:41-44 | middleware is entered in the order of addition if and only if the chain reads the same backwards |
| Middlewares.RunRetry | internal/async/middleware.go:109-141 | the loop computes the retry middleware as a function of the handler it wraps |
| Middlewares.RetryEnds | internal/async/middleware.go:109-141 | a retry loop ends with the first try that succeeds, finds the context done or is the last allowed, or whose wait the context ends: how often it then has called the handler, and with which result |
| Middlewares.NestedRetriesMultiply | internal/async/middleware.go:109-141 | nested retry middleware calls the base handler at most the product of (budget + 1) times |
| Middlewares.ProductIsAttained | internal/async/middleware.go:109-141 | the product is attained when every call fails and nobody cancels |
| Middlewares.NilMeansSuccessIff | internal/async/middleware.go:109-141 | no error means that the last call of the base handler succeeded, if and only if no budget is negative |
| JobQueues.PriorityQueue.constructor | internal/async/queue.go:174-215 | an empty queue whose levels have the integer quotients of the configured size as capacities |
| JobQueues.PriorityQueue.SubmitJob | internal/async/queue.go:218-261 | when a job is accepted, timed out, refused for its priority or for shutdown, and that refusal changes nothing |
| JobQueues.PriorityQueue.GetJob | internal/async/queue.go:264-295 | the oldest job of the highest non-empty level is taken, and none exactly when all levels are empty or the queue is down |
| JobQueues.PriorityQueue.CompleteJob | internal/async/queue.go:298-345 | a success completes the job; a failure is retried exactly if retries are left and the context is not cancelled, and is final otherwise; the retry count, attempt record, context and counters follow |
| JobQueues.PriorityQueue.RetryJob | internal/async/queue.go:366-406 | after the delay the job is put back, finally fails on a full level, or is abandoned at shutdown |
| JobQueues.PriorityQueue.UpdateStats | internal/async/queue.go:434-489 | which counters each action moves |
| JobQueues.TakeIsHeadOfLine | internal/async/queue.go:264-295 | taking from the four levels is taking the head of one line ordered by priority, then arrival |
| JobQueues.PendingBelowZero | internal/async/queue.go:446-469 | one job, failed once and retried, leaves the pending counter at minus one with nothing queued |
| PriorityOrder.DrainIsStableSort | internal/async/queue.go:264-295 | draining a quiescent queue yields the stable sort of what arrived by descending priority |
| PriorityOrder.StableSortIsUnique | internal/async/queue.go:264-295 | there is only one such order, so the order of draining is determined |
| PriorityOrder.EnqueueHolds | internal/async/queue.go:218-261 | submitting appends an arrival to the line that draining sorts |
| PriorityOrder.TakeHolds | internal/async/queue.go:264-295 | a take yields the next arrival, highest priority and then earliest, which is the head of the stable sort, and leaves the arrivals without it |
| PriorityOrder.RunIsOneQueue | internal/async/queue.go:218-407 | on every run of submissions, retries put back and takes, the four channels serve as one list ordered by priority and then arrival, and what is left drains as its stable sort |
| JobEngine.StepConserved | internal/async/queue.go:217-407 | no step of any goroutine loses a job or puts it in two places |
| JobEngine.StepFifo | internal/async/queue.go:217-407 | per level, what was taken followed by what is queued is what was put in, and no level exceeds its capacity, across every step |
| JobEngine.RunInv | internal/async/priority_worker_pool.go:387-457 | conservation, order and capacity hold after every run, whatever the interleaving of submitters, workers and retries |
| JobEngine.NotParked | internal/async/priority_worker_pool.go:427-457 | a job in a worker's hands is in exactly one worker's hands and nowhere else |
| JobEngine.TakeIsHeadIff | internal/async/queue.go:264-295 | with jobs arriving between the probes of a poll, the job taken is the head of the line if and only if no higher level is occupied when it is taken |
| JobEngine.TakeCanBeOvertaken | internal/async/queue.go:264-295 | a run with one worker in which a low job is taken while a critical one is queued |
| JobCounters.CounterLaws | internal/async/queue.go:434-489 | from an empty engine every counter law holds after every run, with counter updates as separate steps, and never more jobs are processing than there are workers |
| JobCounters.StepCounters | internal/async/queue.go:434-489 | every step keeps the five counter laws: totals, per-priority totals, pending and processing, outcomes, and the sum of the state counters |
| JobCounters.PendingIsQueueLengthIff | internal/async/queue.go:446-469 | with no update outstanding, the pending counter is the queue length less the retries put back, so it is the length if and only if there were none |
| JobCounters.FailedIsDeadIff | internal/async/queue.go:446-469 | the failed counter is the number of jobs that finally failed if and only if nothing was retried |
| RetryBudget.RunLives | internal/async/queue.go:298-345 | on every run each job's retry count stays within its maximum and its attempt record matches its retries |
| RetryBudget.ExecutionBound | internal/async/queue.go:298-345 | a job is tried at most maxRetries + 1 times, and at most twice unless its deadline had passed by its first completion |
| RetryBudget.BudgetIsUsedUpIff | internal/async/queue.go:298-345 | for every maxRetries, when a job that ended with a failed try has had all its tries: with two retries or more if and only if its deadline ended its context, with one if and only if its first failed try did not find the context cancelled, without retries always |
| RetryBudget.SingleTryIff | internal/async/queue.go:298-345 | with any positive maxRetries, such a job was tried only once if and only if that try found the context cancelled |
| RetryRuns.DiesAfterTwoTries | internal/async/queue.go:298-407 | for every positive maxRetries, a run that ends with the job dead after two tries, its context cancelled by the first, its first attempt numbered two and its retry counted as a failure |
| RetryRuns.DiesAfterOneTry | internal/async/queue.go:298-407 | for every maxRetries, a run in which a shutdown during the first try leaves the job dead after it |
| RetryRuns.UsesItsBudgetUp | internal/async/queue.go:298-407 | for every maxRetries, a run in which a job past its deadline is tried maxRetries + 1 times |
| JobStatuses.StatusTellsPlace | internal/async/queue.go:217-407 | after every run: a done job is completed and its last try succeeded, a dead one failed as did its last try, one between tries or abandoned is retrying, one in a worker's hands is processing, and a queued one is pending until tried and retrying from then on |
| JobShutdowns.ShutdownCancels | internal/async/queue.go:492-502 | after every run that shut the queue down no job's context is alive, also of jobs accepted later, so that a failed try is final unless the deadline had passed |
| JobShutdowns.DrainsAfterShutdown | internal/async/priority_worker_pool.go:387-425 | after a shutdown, on every run, at most one more job per polling worker is taken, and only retries that were past their check for shutdown are put back or refused |
| RetryBudget.ContextIsSettled | internal/async/queue.go:336-345 | the first completion settles a job's context for the rest of its life |
| RetryBudget.AttemptsCountFromOneIff | internal/async/queue.go:310-327 | attempts are numbered 1, 2, ... if and only if the job was never retried |
| RetryBudget.StepMeasure | internal/async/queue.go:264-407 | every step that moves a job lowers an explicit measure, and without submissions no step raises it |
| RetryBudget.RunsAreFinite | internal/async/queue.go:264-407 | without submissions the known jobs make at most 6 * (maxRetries + 1) more steps each, in any interleaving |
| DelayedQueues.DelayedQueue.SubmitDelayedJob | internal/async/delayed_queue.go:67-107 | the job joins the end of the list with its schedule |
| DelayedQueues.DelayedQueue.TakeReady | internal/async/delayed_queue.go:134-155 | the batch is exactly the entries whose time has come, at their schedule included, and the list keeps exactly those before their time, both in list order |
| DelayedQueues.DelayedQueue.ProcessReadyJobs | internal/async/delayed_queue.go:134-191 | every entry whose time has come is handed over or, if refused, in the list again for a second later; every other one stays; if nothing is refused exactly those before their time are left |
| DelayedQueues.NeverLostNorEarly | internal/async/delayed_queue.go:66-190 | with any number of drainers and any interleaving, the list, the batches and the main queue hold exactly what was asked for, and nothing is moved before its delay is over |
| DelayedQueues.TakeLeavesNothingDue | internal/async/delayed_queue.go:134-155 | at any point of a concurrent run, a drainer that splits the list leaves no entry whose time has come and takes all of them |
| DelayedQueues.NeverLate | internal/async/delayed_queue.go:134-190 | with drainers interleaved in any way, a call that was refused nothing and is through its batch has handed over every entry whose time had come when it began |
| DelayedQueues.StepCount | internal/async/delayed_queue.go:134-190 | each step of each drainer keeps the number of copies of every submission |
| DelayedQueues.SplitKeepsOrder | internal/async/delayed_queue.go:134-155 | both parts of the split keep the order of the list |
| DelayedQueues.AcceptedKeepOrder | internal/async/delayed_queue.go:157-190 | one drainer's hand-overs keep the order of its batch |
| DelayedQueues.CallKeepsOrder | internal/async/delayed_queue.go:134-190 | with drainers interleaved in any way, what one call hands over keeps the order of the list that call found |
| DelayedQueues.EmptyListMeansAllMovedIff | internal/async/delayed_queue.go:194-233 | an empty list means that every job has been handed over if and only if no drainer is in the middle of a batch |
| DelayedQueues.EmptyListWhileBusy | internal/async/delayed_queue.go:134-233 | for every number of drainers from one on, a run after which the list is empty, a drainer is in the middle of its batch and its job has not been handed over |
| HashRings.ConsistentHashRing.AddNode | internal/cache/advanced_cache.go:600-614 | the points of the node are added and the key list stays sorted with the same elements as the map |
| HashRings.ConsistentHashRing.RemoveNode | internal/cache/advanced_cache.go:617-639 | exactly the node's points disappear, from the map and from the sorted list, and duplicates with them |
| HashRings.ConsistentHashRing.GetNode | internal/cache/advanced_cache.go:642-661 | the owner of the least point at or after the key's hash, wrapping to the least of all |
| HashRings.SortKeys | internal/cache/advanced_cache.go:689-699 | the nested loop leaves a sorted permutation in place |
| HashRings.NamesDiffer | internal/cache/advanced_cache.go:605-610 | no two virtual nodes share a name, whatever the node names look like |
| HashRings.PointsCanDiffer | internal/cache/advanced_cache.go:605-610 | so for any two virtual nodes some hash tells their points apart |
| HashRings.AddDisruptsMinimally | internal/cache/advanced_cache.go:600-661 | after adding a node each position's owner is its old owner or the new node, for any hash function |
| HashRings.RemoveDisruptsMinimally | internal/cache/advanced_cache.go:617-661 | after removing a node every position it did not own keeps its owner |
| HashRings.RemovedOwnsNothing | internal/cache/advanced_cache.go:617-661 | a removed node owns nothing |
| HashRings.AddThenRemoveIff | internal/cache/advanced_cache.go:600-639 | adding and removing a node restores the ring if and only if it was absent and its points were free |
| HashRings.AddsCommuteIff | internal/cache/advanced_cache.go:600-614 | the order of two additions is irrelevant if and only if the nodes are the same or their points are disjoint |
| HashRings.ReAddKeepsLargerWeight | internal/cache/advanced_cache.go:600-614 | adding a node again leaves it with the larger of both weights |
| HashRings.DistributedCache.AddNode | internal/cache/advanced_cache.go:545-560 | table and ring change together, and every point keeps belonging to a registered node |
| HashRings.DistributedCache.RemoveNode | internal/cache/advanced_cache.go:563-569 | the node leaves table and ring together |
| HashRings.DistributedCache.GetNodeForKey | internal/cache/advanced_cache.go:572-589 | a registered node for every key of a non-empty ring, unless that node is named by the empty string |
| AdvancedCaches.PackThenUnpack | internal/cache/advanced_cache.go:223-276 | reading back a stored value undoes encoding, compression and encryption, whichever of them failed, unless more than 100 MB were compressed |
| AdvancedCaches.PackedAsAsked | internal/cache/advanced_cache.go:223-256 | more than 1024 bytes are compressed, and anything is encrypted after that, exactly if the policy asks for it and the step succeeds |
| AdvancedCaches.AdvancedCache.Get | internal/cache/advanced_cache.go:157-220 | hit, miss, expiry, and that an expired item leaves its size behind in the memory counter |
| AdvancedCaches.AdvancedCache.Set | internal/cache/advanced_cache.go:223-306 | the eviction before and after storing; that the item, if it stays, is found exactly until its time to live is over, or always without one; and that exactly the size of the item overwritten after the first eviction stays behind in the memory counter |
| AdvancedCaches.AdvancedCache.Delete | internal/cache/advanced_cache.go:309-323 | the item and its size are gone |
| AdvancedCaches.AdvancedCache.Clear | internal/cache/advanced_cache.go:326-333 | everything, and all slack of the memory counter, is gone |
| EvictionScans.OldestIsPickedIff | internal/cache/advanced_cache.go:365-416 | for any times, the scan by time is sure to pick an item of the least time in every order if and only if there is one and the empty key is not strictly the oldest |
| EvictionScans.LeastIsPickedIff | internal/cache/advanced_cache.go:383-398 | for any counts, the scan by count is sure to pick a least used item in every order if and only if some count is below the limit and the empty key is not among the least used |
| EvictionScans.OldestCanBePickedIff | internal/cache/advanced_cache.go:365-416 | the scan by time picks a key in some order if and only if the empty key beats every other key that is older |
| EvictionScans.LeastCanBePickedIff | internal/cache/advanced_cache.go:383-398 | the scan by count picks a key in some order if and only if it is among the least used and below the limit |
| AdvancedCaches.EvictsShrinksIff | internal/cache/advanced_cache.go:349-439 | for each strategy, when an eviction is sure to remove something |
| AdvancedCaches.EvictionSparesIff | internal/cache/advanced_cache.go:349-439 | for each strategy, when an eviction is sure to spare a given key |
| AdvancedCaches.AdvancedCache.EvictLRU | internal/cache/advanced_cache.go:365-380 | a least recently used item goes, whatever the order of the map, unless the cache is empty or the empty key is the strictly oldest; in every case at most one item goes, and it is counted |
| AdvancedCaches.AdvancedCache.EvictLFU | internal/cache/advanced_cache.go:383-398 | a least used item goes, whatever the order of the map, unless the empty key is among the least used or every count is at the limit; in every case at most one item goes, and it is counted |
| AdvancedCaches.AdvancedCache.EvictFIFO | internal/cache/advanced_cache.go:401-416 | an item of the earliest creation goes, whatever the order of the map, unless the cache is empty or the empty key is the strictly oldest; in every case at most one item goes, and it is counted |
| AdvancedCaches.AdvancedCache.EvictAdaptive | internal/cache/advanced_cache.go:430-439 | which strategy the unwritten hit rate selects |
| AdvancedCaches.AdvancedCache.EvictExpired | internal/cache/advanced_cache.go:419-427 | exactly the expired items go, with their sizes |
| AdvancedCaches.AdvancedCache.Cleanup | internal/cache/advanced_cache.go:462-481 | exactly the expired items go, and one eviction more if still above the limit |
| AdvancedCaches.SetsKeepsLimitIff | internal/cache/advanced_cache.go:277-306 | for every strategy, TTL and the empty key included: storing is sure to keep the limit if and only if the key is present, there is room, or an eviction it makes is sure to remove something |
| AdvancedCaches.SetsKeepsLimit | internal/cache/advanced_cache.go:277-306 | so with non-empty keys every strategy that chooses a victim keeps the limit, whatever the order of the scan |
| AdvancedCaches.SetIsStoredIff | internal/cache/advanced_cache.go:277-306 | for every strategy, the empty key included: an item just set is sure to be stored if and only if the key was there, there is room, memory pressure is sure to make some, or the eviction that follows is sure to spare it |
| AdvancedCaches.SetWithRoom | internal/cache/advanced_cache.go:258-306 | with room by number and by memory, storing changes nothing but the key |
| AdvancedCaches.SetUnderPressure | internal/cache/advanced_cache.go:258-306 | above the memory limit in whole megabytes, storing does not grow a cache in which an eviction is sure to remove something |
| AdvancedCaches.EvictsMemory | internal/cache/advanced_cache.go:349-427 | no eviction changes the gap between the memory counter and the live sizes, nor any remaining item |
| CacheHistories.ItemIsItsHistory | internal/cache/advanced_cache.go:157-306 | after every run, for every strategy, an item is what the calls made of it: the value last set, the expiry asked for, the time it was set, and when and how often it was asked for since; and it is found exactly while it is in time |
| CacheHistories.HitIsLastSet | internal/cache/advanced_cache.go:157-333 | on every run, for every strategy, a hit is the value last set under the key, not deleted or cleared since, and in time |
| CacheHistories.ExpiredIsNotFound | internal/cache/advanced_cache.go:168-306 | on every run, for every strategy, a value set with a time to live is not found any more once that is over, unless the key was set again |
| CacheHistories.CleanupLeavesLive | internal/cache/advanced_cache.go:462-481 | after every run a cleanup leaves nothing that is out of time and, within the limit, everything that is in time |
| CacheHistories.TtlIsPlainMap | internal/cache/advanced_cache.go:157-427 | with the TTL strategy and a clock that does not go back, a key is found exactly if it was set, not deleted or cleared since, and is in time: the cache is a plain map with expiry, however full |
| CacheHistories.SetEvictsFirst | internal/cache/advanced_cache.go:277-439 | what a full cache evicts, in terms of the calls made: the key unused for longest, the one set first, one asked for least often since it was set, or one out of time, by strategy |
| LruRefinement.OldestIsEvictedIff | internal/cache/advanced_cache.go:365-380 | the strictly oldest item is the victim in every scan order, if and only if its key is not empty |
| LruRefinement.StepSimulates | internal/cache/advanced_cache.go:157-380 | each call on the timestamped map is the same call on a move-to-front list, with the same hit and the same victim |
| LruRefinement.RunSimulates | internal/cache/advanced_cache.go:157-380 | with the LRU strategy and increasing clock every run of the cache is a run of the move-to-front list |
| LruRefinement.FallsBackByOne | internal/cache/advanced_cache.go:157-380 | without memory pressure any call moves an item back by at most one place |
| LruRefinement.RecentItemSurvives | internal/cache/advanced_cache.go:157-380 | an item at place p survives the next maxSize - p - 1 calls that do not set, delete or expire it |
| LruRefinement.JustSetIsInFront | internal/cache/advanced_cache.go:223-306 | an item just set is in front, so it survives maxSize - 1 further calls |
| LruRefinement.SetIsFoundAgain | internal/cache/advanced_cache.go:157-306 | on the cache itself: after any run, a value set is found and decodes to what was encoded, through fewer than maxSize calls that leave its key alone, until it expires |
| LruRefinement.LfuDropsTheNewItemIff | internal/cache/advanced_cache.go:383-398 | setting a new key in a full LFU cache is sure to have no effect if and only if every other item has been used |
| LruRefinement.LfuStoresTheNewItemIff | internal/cache/advanced_cache.go:383-398 | setting a new key in an LFU cache is sure to store it if and only if there is room |
| MultiLevelCaches.MemoryCache.Get | internal/cache/cache.go:73-96 | hit, miss and expiry, and what they do to the map and the counters |
| MultiLevelCaches.MemoryCache.Set | internal/cache/cache.go:99-117 | the new map is the old one after at most one eviction, with the item stored |
| MultiLevelCaches.MemoryCache.EvictLRU | internal/cache/cache.go:153-173 | the scan removes an item with fewest accesses, the earliest created among those |
| MultiLevelCaches.MemoryCache.Cleanup | internal/cache/cache.go:192-205 | exactly the expired items go and the size counter is exact again |
| MultiLevelCaches.SetKeepsLimitIff | internal/cache/cache.go:99-173 | storing a new key is sure to keep the limit if and only if the cache is not full or the empty key cannot be the victim |
| MemoryHistories.ItemIsItsHistory | internal/cache/cache.go:73-117 | after every run an item is the value last set, with the expiry asked for and the number of times it was asked for since, and is found exactly while it is in time |
| MemoryHistories.CleanupLeavesLive | internal/cache/cache.go:192-205 | after every run a cleanup leaves exactly what is in time |
| MemoryHistories.SetEvictsLeastUsed | internal/cache/cache.go:99-173 | after every run, what a full cache evicts was asked for no more often than any other key since it was set, and among equals was set no later |
| MultiLevelCaches.MultiLevelCache.Get | internal/cache/cache.go:230-244 | with a clock reading for each level and for the promotion: a hit is the value of the last set that was not deleted or cleared; from the second level within its time to live, from the first at most five minutes and the longest promotion later |
| MultiLevelCaches.MultiLevelCache.Set | internal/cache/cache.go:247-250 | each level stores the item by its own clock reading, after at most one eviction, and the plain map the value |
| MultiLevelCaches.MultiLevelCache.Delete | internal/cache/cache.go:253-256 | the key is gone from both levels and from the plain map |
| MultiLevelCaches.MultiLevelCache.Clear | internal/cache/cache.go:259-262 | both levels and the plain map are empty |
| MultiLevelCaches.SetThenGet | internal/cache/cache.go:230-250 | a value just set is found throughout its time to live, whatever the two levels held before |
| MultiLevelCaches.PromotionOutlivesTtlIff | internal/cache/cache.go:230-244 | an item found in the second level is served later if and only if it still lives or was promoted no more than five minutes ago |
| Adf.ValidateMark | internal/jira/adf_validator.go:185-224 | accepts exactly the good marks and names the first fault otherwise |
| Adf.ValidateADF | internal/jira/adf_validator.go:83-182 | accepts exactly the documents all of whose parts are good |
| Adf.SmallDocumentIsValidIff | internal/jira/adf_validator.go:83-224 | which types of blocks, texts and marks make a valid document, one by one |
| Adf.FallbackToPlainText | internal/jira/adf_validator.go:227-248 | the document's text and one newline |
| Adf.ExtractTextFromADF | internal/jira/adf_validator.go:251-269 | the document's text |
| Adf.ValidateAndFallback | internal/jira/adf_validator.go:272-286 | the normalised document |
| Adf.NormaliserLaws | internal/jira/adf_validator.go:272-286 | normalising always yields a valid document, is idempotent, is the identity exactly on valid ones, and keeps the text up to one final newline |
| Adf.StrongMarkFallsBack | internal/jira/adf_validator.go:185-224 | a single `strong` mark reduces a document to its plain text |
| Adf.SanitizeADF | internal/jira/adf_validator.go:300-314 | the sanitised document, as the laws below describe it |
| Adf.SanitizeLaws | internal/jira/adf_validator.go:300-418 | sanitising is idempotent and the identity on every valid document |
| Adf.SanitizeKeepsText | internal/jira/adf_validator.go:300-372 | sanitising loses no text of the blocks it keeps |
| Adf.MarksKept | internal/jira/adf_validator.go:358-418 | the marks that remain are exactly the acceptable ones, and all of them if all are acceptable |
| Adf.KeptIff | internal/jira/adf_validator.go:300-418 | a mark, a text and a block remain exactly under the conditions written out: a type and an address for links, a type and text for plain texts, a known type |
| Adf.SanitizedIsValidIff | internal/jira/adf_validator.go:300-418 | the exact documents that sanitising makes valid |

## Left out

- HTTP handlers, the GitLab and Jira clients around the loops modelled here, OAuth, JWT and signature checks: plumbing over libraries.
- The comment generators, URL builders and event dispatch: straight copying of fields.
- The legacy worker pool in `worker_pool.go`: its workers never receive a job.
- Scaling of the priority worker pool: `ScaleUp` locks a mutex its caller already holds and never returns, and `ScaleDown` acts only on more workers than the pool ever starts, so the number of workers is constant here.
- gzip, AES-GCM, JSON and the FNV hash are parameters of which nothing, or only that they can be undone, is assumed. The integrity hash of a cache item, which `Get` never compares, and the compression and encryption counters are not part of the model.
- Multipliers are exact fractions whose products are truncated, where the code multiplies floating-point numbers; overflow of 64-bit durations and counters is not modelled.
- Clocks, timers and random choices are parameters; each call makes the clock readings listed in its signature.
- Caches are used by one caller at a time: the unsynchronised counter updates inside `Get` are not modelled.
- The average times and the utilisation figures of the statistics, and the eviction counter of the two-level cache, are not stated.
- Jobs, cache items and delayed jobs are values in a map or list, so sharing of the pointers to them is not captured; a nil and an empty slice of a document are the same.
- `CompleteJob` is one step of the engine; the sends, receives and statistics updates of the other operations are separate steps.
- A queue size below eight gives some level the capacity zero, which accepts nothing here; in the code such a channel can hand a job directly to a waiting worker.
- What the main queue answers to a delayed job is an arbitrary yes or no.
- The texts of errors are reduced to what went wrong and where.
- Rates and thresholds below one are taken only where the code's behaviour with them is stated; a bucket is assumed to have a positive rate, as the configuration check demands.
- Health checks, metrics, tracing, logging and configuration.
- JobQueues.PriorityQueue.SubmitJob: the call is modelled at the moment its select statement decides; how long a submitter waited for room before is not part of it, and in the engine a submission happens at any moment at which there is room.
- MultiLevelCaches.MemoryCache.Delete: the size counter is stated only where the key was present, because the code leaves it alone otherwise.
- MultiLevelCaches.MultiLevelCache.Get: no statement that a value set earlier is still found, because either level may have evicted it.
