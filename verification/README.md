# Verified models of the SwayRider API gateway

Dafny models of the stateful and the input-parsing parts of the gateway, each proved against what its code, its
tests and its documentation promise. `dafny verify dfyconfig.toml` checks everything.

| files | what they model |
|---|---|
| `SlidingWindow`, `MemoryLimiter`, `MemoryRuns`, `MemoryCapacity` | timestamp logs; the in-process limiter as a class over arrays and a map; its whole runs, and its cap on keys |
| `RedisWindow`, `RedisExpiry` | one rate-limit key in Redis: the four pipelined commands, lost and half-applied pipelines; when its expiry can show |
| `LimiterCore`, `LimiterPaths`, `DegradingLimiter` | the program of the degrading limiter, step by step; what a path through it decides; and the same program as a class with its mutually recursive methods |
| `LimiterStore`, `LimiterSystem`, `LimiterLedger`, `LimiterRedis` | the key in Redis command by command, deadline included; any number of concurrent calls of that program, for one key and for others that share its state, interleaved at lock sections and Redis commands; what single steps mean; what every action keeps |
| `RedisAgreement` | that the key of the pipeline histories and the key of the interleaved system are one |
| `LimiterStraddle`, `LimiterThrottle`, `LimiterReentry`, `LimiterAlone`, `LimiterExact` | the throttle bound; how often a call recurs among others; one call at a time; and exactly how late its commands may be |
| `JobCodec`, `JobProtocol`, `JobGuarantees`, `JobWakeups`, `JobHandlers` | the asynchronous job protocol: producers, workers and waiters interleaved over a stream, a key and a channel; and enqueueing and processing as methods |
| `EventStream`, `JobResponse`, `JobDelivery` | the Server-Sent Events of a job's response, a client's parser for them, and what the client of a run reads |
| `ServiceToken` | the service token's refresh loop, its stale reports and its abandoned fetches |
| `Extension`, `RateKeys` | validated extension routes and their lookup; which budget a request is charged to |
| `Text`, `ClientAddress`, `Cookies` | splitting and trimming; the rightmost untrusted client address; the cookie filter |
| `Arithmetic`, `Options` | products, quotients and set sizes; values that may be missing |

## Reading the models

*The limiter.* Times are nanoseconds on the clock, milliseconds in the logs. Both backends log denied requests too.
A pipeline that fails may have been applied up to any of its commands. In `LimiterSystem` every lock section and every
Redis command is one atomic action, executed at the clock's time, with the key gone once its deadline has passed;
commands of calls that gave up, and of other replicas, arrive at any time as stray prunes, additions and renewals, or as
whole pipelines. Calls for other keys fail, degrade, probe, recover and evict, but leave this key alone.
`Throttle` then bounds everything answered "allowed" inside an interval: at most the limit twice (once in deny mode),
plus the fail-open answers, which are paid for by failures below the threshold, by calls already under way and by
probes, plus the straddlers: admissions whose pipeline was under way when a deadline wiped the key. The lag is how far
behind the newest drop of the window a count was ever taken; `WindowBoundExactly` says why it cannot be spared.
`StepRecorded` says that the histories the bound speaks of are those of the answers.

For one call at a time there is no lag beyond what its commands were late by more than a second, the slack of the
deadline, and `ThrottlePrompt` is the bound `2 L + (threshold - 1)(2 + W / interval)` if no pipeline is cut off between
ZADD and EXPIRE. `BoundExactly` says that this second is exact: Redis admits at most the limit in every span shorter
than the window if and only if every command takes effect within it, and, where pipelines can be cut off, if and only
if every command takes effect in the millisecond of its reading. Both failures are shown by runs, for every limit.

*The job protocol.* Entries of one stream, one consumer group. The code does not wait for Redis to have processed its
SUBSCRIBE before it sends the GET, so a wakeup can be lost: `LateSubscriptionSleeps` is such a run. `WokenExactly`
says which waiters are woken, `NoLostWakeup` that none sleeps on whose subscription was active when its GET was
answered. A GET that fails sends its waiter on to the wait all the same.

*Strings.* A string is a sequence of Unicode characters. Networks, address parsing and URL parsing are parameters.
A result's text is whatever JSON text the worker stored; JSON as Go writes it has no line end, which is the condition
in `ResponseReads`.

## Where the code and its documentation differ

* Failures are called "consecutive" (`README.md:140`, `internal/ratelimit/limiter.go:51`, `:144`), but no success
  resets the counter. `CounterCounts` says what is counted, `NotConsecutive` gives a run without two failures in a row
  that degrades the limiter.
* The queue limit is documented as "pending messages across routing/search streams combined" (`README.md:150`). The code
  compares one stream's length, and acknowledging removes nothing: `FullForGood`, `LateSubscriptionSleeps`.
* The in-process limiter is said to mirror the Redis pipeline (`internal/ratelimit/memory.go:9-13`). They
  differ at the boundary: `MemoryIsStricter` says by how much, `ClosedIntervalOverAdmits` shows it.
* The in-process map is said to hold at most `maxKeys` keys (`internal/ratelimit/memory.go:22`). That fails for the empty
  key, which is never evicted: `CapHoldsExactly` says when, `GrowsWithoutBound` by how much. The
  middleware's keys all begin with "rl:", so it does not meet this.
* The deadline on a Redis key is meant for idle keys only. A pipeline cut off between its ZADD and its EXPIRE lets it
  fire on a live one: `TornPipelineForgets`. `ExpiryShowsExactly` says when counts go wrong, `RedisAnswerMeans` what an
  answer means without such pipelines, and even with them no window holds more than the limit as long as every pipeline
  executes in one instant (`RedisThrottle`). One that the deadline divides breaks it; `BoundExactly` says how late
  commands must be for that.
* Rate-limit classes of extension routes are said to be separate (`internal/middleware/ratelimit.go:19-21`). Route names
  with colons can make two of them share a key; `ClashExactly` says which.

## Model

| member | source | states |
|---|---|---|
| SlidingWindow.LogIsWindow | internal/ratelimit/memory.go:63-71 | on a nondecreasing clock the log pruned request by request holds exactly the requests of the closed window |
| SlidingWindow.AdmittedMeans | internal/ratelimit/memory.go:47-74 | a request is admitted if and only if it and all requests of the window before it, denied ones included, number at most the limit |
| SlidingWindow.WindowBound | internal/ratelimit/memory.go:63-73 | no closed interval as long as the window, less the lateness of logging, holds more admissions than the limit |
| SlidingWindow.WindowBoundExactly | internal/ratelimit/memory.go:47-73 | runs logged up to a skew late, as concurrent calls can, never exceed the limit in [lo, hi] if and only if the limit is 0, or is 1 and hi - lo is within the window, or hi - lo plus the skew is |
| SlidingWindow.LogCount | internal/ratelimit/memory.go:63-71 | the log never forgets a request inside an interval that every prune so far stayed below |
| SlidingWindow.KeepTwice | internal/ratelimit/memory.go:63-69 | pruning again with a later start leaves what pruning with it at once leaves |
| SlidingWindow.AdmittedAreRequests | internal/ratelimit/memory.go:73 | admitted requests are among the logged ones, in any interval |
| MemoryLimiter.Window.constructor | internal/ratelimit/memory.go:59 | a new window is empty and touched now |
| MemoryLimiter.Window.Compact | internal/ratelimit/memory.go:63-69 | compaction inside the buffer leaves exactly the entries from the window's start on, in order |
| MemoryLimiter.Window.Append | internal/ratelimit/memory.go:70-71 | the request is appended and the window touched, in place or in a larger buffer |
| MemoryLimiter.Window.Admit | internal/ratelimit/memory.go:63-73 | one request leaves the pruned and extended log and is admitted if that is within the limit |
| MemoryLimiter.Limiter.constructor | internal/ratelimit/memory.go:34-42 | no keys; a cap that is not positive becomes 100000 |
| MemoryLimiter.Limiter.LeastRecent | internal/ratelimit/memory.go:79-88 | the scan finds a key no other key was touched before |
| MemoryLimiter.Limiter.EvictOldest | internal/ratelimit/memory.go:78-92 | one least recently touched key goes, every other log stays; the empty key never goes |
| MemoryLimiter.Limiter.Allow | internal/ratelimit/memory.go:47-74 | one call makes room if needed, records the request under its key, changes no other log and compares with the limit |
| MemoryLimiter.Limiter.MakeRoom | internal/ratelimit/memory.go:54-58 | room is made exactly when a new key meets a full map |
| MemoryLimiter.Limiter.Open | internal/ratelimit/memory.go:59-60 | a new key gets a window shared with no other key |
| MemoryLimiter.Limiter.Touch | internal/ratelimit/memory.go:63-73 | the key's log is pruned and extended, all other logs stay |
| MemoryRuns.SizeBounded | internal/ratelimit/memory.go:54-61 | the map never holds more than maxKeys keys while nobody uses the empty key |
| MemoryRuns.SizeStep | internal/ratelimit/memory.go:54-61 | no call takes the map above maxKeys |
| MemoryCapacity.ExceedsExactly | internal/ratelimit/memory.go:54-61 | from at most maxKeys keys a call exceeds the cap if and only if a new key meets a full map and the victim chosen is the empty key |
| MemoryCapacity.CapHoldsExactly | internal/ratelimit/memory.go:76-92 | a run keeps to the cap if and only if no scan for a victim finds the empty key |
| MemoryCapacity.GrowsWithoutBound | internal/ratelimit/memory.go:89-91 | while the empty key is strictly the oldest nothing is evicted: any number of new keys is added, whatever the cap |
| MemoryCapacity.EmptyKeyOverflows | internal/ratelimit/memory.go:54-91 | a run over different keys that begins with the empty key keeps every one of them |
| MemoryRuns.VictimIsStale | internal/ratelimit/memory.go:78-92 | if few enough keys are in use, the evicted key was last touched before the window began |
| MemoryRuns.TracksStep | internal/ratelimit/memory.go:47-74 | a call keeps the bounded map in step with logs that are never evicted, and answers as they would |
| MemoryRuns.EvictionUnobservable | internal/ratelimit/memory.go:54-92 | while at most maxKeys keys are used in any window, every answer of a run is that of unevicted per-key logs |
| MemoryCapacity.CrowdedKeyspaceForgets | internal/ratelimit/memory.go:54-92 | one key too many is observable at every cap: a request is admitted that the unevicted logs would deny |
| MemoryRuns.UnboundedIsLog | internal/ratelimit/memory.go:54-71 | a key's unevicted log depends on its own requests only |
| MemoryRuns.AdmissionsAgree | internal/ratelimit/memory.go:47-74 | a key's admissions are those of its own sliding window |
| MemoryRuns.MemoryThrottle | internal/ratelimit/memory.go:47-92 | under eviction no closed window holds more than the limit of one key's admissions |
| RedisWindow.RunComplete | internal/ratelimit/limiter.go:133-138 | without torn pipelines the sorted set holds every request logged inside the window, whatever expired |
| RedisWindow.RedisAnswerMeans | internal/ratelimit/limiter.go:128-142 | then a request is admitted if and only if it and the requests less than a window old number at most the limit; the key's expiry changes no answer |
| RedisWindow.TornPipelineForgets | internal/ratelimit/limiter.go:134-138 | a ZADD applied without its EXPIRE can let the older deadline wipe a window still in use |
| RedisExpiry.RunWhole | internal/ratelimit/limiter.go:133-138 | until the deadline first fires on a key with an entry inside the window, the set holds every request logged inside the window |
| RedisExpiry.NextCount | internal/ratelimit/limiter.go:134-137 | until then the next pipeline counts right if and only if it does not find such a firing |
| RedisExpiry.ExpiryShowsExactly | internal/ratelimit/limiter.go:133-141 | in a history every pipeline counts right if and only if none finds the deadline passed with an entry inside the window |
| RedisExpiry.WholePipelinesNeverFire | internal/ratelimit/limiter.go:134-138 | which none does if no pipeline was cut off between its ZADD and its EXPIRE |
| RedisWindow.RunCovers | internal/ratelimit/limiter.go:133-138 | through failed and torn pipelines and expiry, admitted requests inside the window stay in the set |
| RedisWindow.RedisThrottle | internal/ratelimit/limiter.go:128-142 | with any failures, no half-open window holds more than the limit of admissions |
| RedisWindow.ClosedIntervalOverAdmits | internal/ratelimit/limiter.go:130-134 | under any limit, that many requests at one instant and as many exactly one window later are all admitted |
| RedisWindow.MemoryIsStricter | internal/ratelimit/limiter.go:129-141 | on one history the in-process limiter admits only what Redis admits, and they differ by the requests exactly one window old |
| LimiterCore.Configure | internal/ratelimit/limiter.go:82-109 | positive options are kept, others become 3 failures and 15 seconds; only "deny" denies |
| LimiterCore.AtMostTwoPipelines | internal/ratelimit/limiter.go:128-176 | with a threshold above one a call running alone enters redisAllow at most twice |
| LimiterCore.ThresholdOneRecurs | internal/ratelimit/limiter.go:128-200 | with a threshold of one a long enough call can enter it any number of times, even running alone |
| LimiterCore.ReentriesSpaced | internal/ratelimit/limiter.go:168-200 | a call running alone re-enters redisAllow only after a recovery, and recoveries move the last probe on by a whole interval |
| LimiterCore.RecoveriesSpaced | internal/ratelimit/limiter.go:181-200 | n recoveries of a call running alone take the last probe n intervals forward |
| LimiterCore.CallsArePaths | internal/ratelimit/limiter.go:115-163 | a series of healthy calls takes the program's steps |
| LimiterCore.DegradesOnTotal | internal/ratelimit/limiter.go:138-159 | a fresh limiter called once at a time degrades exactly when threshold calls have failed, whatever succeeded in between |
| LimiterCore.NotConsecutive | internal/ratelimit/limiter.go:144-155 | for every threshold above one a run without two consecutive failures degrades the limiter |
| DegradingLimiter.Limiter.constructor | internal/ratelimit/limiter.go:82-109 | a new limiter is healthy, has not probed and has an empty fallback |
| DegradingLimiter.Limiter.Allow | internal/ratelimit/limiter.go:115-126 | run by one caller at a time, a call takes the program's steps, hears the server's own replies to its pings and pipelines, and changes no other key in Redis. It returns whether the requests its last pipeline left under the key are within the limit, or those its one request left in the fallback, or yes below the threshold, or an error in deny mode; a degraded limiter asks Redis only after a ping has succeeded, a healthy one asks it first. On a key that whole pipelines left, an answer from Redis is yes if and only if the request and the logged ones less than a window old number at most the limit. redisAllow is entered at most twice, or once more per interval |
| DegradingLimiter.Limiter.RedisAllow | internal/ratelimit/limiter.go:128-142 | a successful pipeline decides by the number of requests it left under the key and leaves the failure count alone; a failed one is counted; pipelines and replies are those the server has seen |
| DegradingLimiter.Limiter.OnRedisError | internal/ratelimit/limiter.go:147-163 | below the threshold the request passes, at it the limiter degrades and the counter restarts; the answer is what its kind says |
| DegradingLimiter.Limiter.DegradedAllow | internal/ratelimit/limiter.go:168-176 | after a successful probe Redis is asked again; otherwise deny mode refuses with an error and memory mode asks the fallback |
| DegradingLimiter.Limiter.TryProbe | internal/ratelimit/limiter.go:181-200 | a ping is sent when none was for an interval, and none before; the limiter recovers if and only if it succeeds, is then healthy with no failure counted, and otherwise stays as it was; a recovery uses up the budget that ends the recursion |
| DegradingLimiter.Limiter.DepthBound | internal/ratelimit/limiter.go:115-200 | entries into redisAllow of a call running alone are at most two, or two and one per whole interval it lasts |
| DegradingLimiter.AnswerMeans | internal/ratelimit/limiter.go:128-142 | an answer from Redis, also after failed pipelines of the same call that were not cut off between ZADD and EXPIRE, is yes if and only if the request and the logged ones less than a window old number at most the limit |
| DegradingLimiter.CallMeans | internal/ratelimit/limiter.go:115-176 | by the server's replies: without a successful ping a degraded limiter sends nothing and stays degraded; a healthy one's first pipeline decides between its count, a free pass with one more failure counted, and degrading |
| LimiterPaths.RecoversAfterPing | internal/ratelimit/limiter.go:190-197 | in a call the step before a recovery is a successful ping |
| LimiterPaths.FailedPing | internal/ratelimit/limiter.go:168-192 | after a failed ping the limiter's state stays as it is, no pipeline is sent, and deny mode refuses while memory mode asks the fallback |
| LimiterPaths.SuccessfulPing | internal/ratelimit/limiter.go:190-199 | after a successful one the limiter is healthy, has counted no failure, and the call goes to Redis |
| LimiterPaths.CallEnds | internal/ratelimit/limiter.go:115-176 | what a whole call is answered and how it leaves the limiter, by the replies to its pings and pipelines |
| LimiterSystem.CounterStep | internal/ratelimit/limiter.go:147-197 | every atomic step of every call keeps the failure count below the threshold and the account of fail-open answers |
| LimiterSystem.FailOpenBounded | internal/ratelimit/limiter.go:147-162 | in every interleaving fail-open answers are at most (threshold - 1)(1 + degradations + recoveries) |
| LimiterSystem.ProbeStep | internal/ratelimit/limiter.go:181-188 | every atomic step keeps probes an interval apart |
| LimiterSystem.ProbesSpaced | internal/ratelimit/limiter.go:181-192 | however many calls race, two probes never start within one interval |
| LimiterSystem.CounterCounts | internal/ratelimit/limiter.go:138-159 | in every interleaving the counter equals the failures since the last degradation or recovery, and exactly the failure that brings it to the threshold degrades |
| LimiterLedger.StepRecorded | internal/ratelimit/limiter.go:115-176 | the histories that the bounds speak of gain an entry exactly when a call for this key is answered yes by Redis, by the fallback or for a failure below the threshold |
| LimiterLedger.LocalAgrees | internal/ratelimit/memory.go:47-74 | the fallback's section of a concurrent call does to the log, and answers, what the in-process limiter does |
| LimiterLedger.GateDecides | internal/ratelimit/limiter.go:181-188 | a probe starts if and only if none has for an interval |
| LimiterLedger.RecoversAfterPing | internal/ratelimit/limiter.go:190-199 | in every interleaving the last step of a call before it recovers the limiter is its own successful ping; the limiter is then healthy and the call goes to Redis |
| LimiterLedger.FailedPingGivesUp | internal/ratelimit/limiter.go:168-192 | in every interleaving a call whose ping failed changes neither the limiter's state nor the key any more, and is refused in deny mode or served by the fallback |
| LimiterStore.LiveKeeps | internal/ratelimit/limiter.go:137 | a deadline that takes effect loses no member of the newest window without recording it, and leaves the grants within the limit |
| LimiterStore.CountedKeeps | internal/ratelimit/limiter.go:134-141 | a count within the limit bounds the grants of every short enough interval |
| LimiterStore.LiveLapses | internal/ratelimit/limiter.go:137 | deadlines take effect a window and a second apart, and wipe no admission whose pipeline had renewed the deadline |
| LimiterStore.AdmittedWithin | internal/ratelimit/limiter.go:133-141 | in an interval shorter than the window by the lag at most the limit is admitted, besides at most two admissions per call in flight that a deadline wiped under their pipeline |
| RedisAgreement.PipelineAgrees | internal/ratelimit/limiter.go:128-141 | any prefix of a pipeline's commands, executed at one instant, does to the key of the interleaved system what it does to the key of the histories, members, order and deadline; ZCARD reads the same |
| RedisAgreement.StrayAgrees | internal/ratelimit/limiter.go:133-138 | so does a whole pipeline of another caller |
| RedisAgreement.HistoryGoesOn | internal/ratelimit/limiter.go:128-142 | a call whose commands execute at one instant extends the history of pipelines by its own |
| RedisAgreement.AnswerMeans | internal/ratelimit/limiter.go:128-142 | such a call of the interleaved system, on a key that whole pipelines left, is admitted if and only if it and the requests less than a window old number at most the limit |
| RedisAgreement.CountMeans | internal/ratelimit/limiter.go:133-141 | after cut-off pipelines too: until a deadline first fires on a live window, its count is right if and only if none does now |
| LimiterRedis.RedisStep | internal/ratelimit/limiter.go:128-142 | every action, late commands and deadlines included, keeps the set complete, its grants within the limit and its deadlines harmless to renewed admissions |
| LimiterRedis.RedisHolds | internal/ratelimit/limiter.go:128-142 | so in every run |
| LimiterSystem.LocalInvStep | internal/ratelimit/memory.go:47-74 | every action keeps the fallback's admissions within the limit per interval |
| LimiterThrottle.PaidStep | internal/ratelimit/limiter.go:128-200 | every action keeps the account: fail-open answers are paid for by recoveries, recoveries by probes |
| LimiterThrottle.PaidRun | internal/ratelimit/limiter.go:128-200 | so does any part of a run |
| LimiterThrottle.ProbesWithin | internal/ratelimit/limiter.go:181-192 | in a stretch of time at most one probe starts, and one more per whole interval |
| LimiterThrottle.FailOpensWithin | internal/ratelimit/limiter.go:147-162 | with k calls in flight at most (threshold + k - 2)(k + 1 + W / interval) fail-open answers fall into one window |
| LimiterThrottle.LogsBounded | internal/ratelimit/limiter.go:128-176 | in every run Redis and the fallback each admit at most the limit per interval, and in deny mode the fallback nothing |
| LimiterStraddle.LateStep | internal/ratelimit/limiter.go:129-138 | every action keeps: an admission a deadline wiped was read no earlier than that deadline less the longest delay of a command |
| LimiterStraddle.PromptStraddlers | internal/ratelimit/limiter.go:129-138 | if no delay exceeds the second of slack, the admissions wiped within one window were wiped by one deadline, at most one per call in flight |
| LimiterThrottle.FewHolds | internal/ratelimit/limiter.go:133-137 | no deadline catches more pipelines than there are calls in flight |
| LimiterThrottle.Throttle | internal/ratelimit/limiter.go:115-200 | through any failures, degradations, probes, recoveries and deadlines, those that calls for other keys cause included, and any eviction of stale logs, admissions of one key in one window, less the lag, are at most 2 L (L in deny mode), plus those fail-open answers, plus the admissions a deadline wiped under their pipeline, at most one per call in flight if commands take effect within a second of their reading, else two |
| LimiterReentry.ReentriesProbe | internal/ratelimit/limiter.go:168-200 | whatever other calls do, each recovery of a call uses up a probe it started itself |
| LimiterReentry.EntriesRecover | internal/ratelimit/limiter.go:115-176 | a call comes to redisAllow once from its entry, and again only by recovering |
| LimiterReentry.EntriesWithin | internal/ratelimit/limiter.go:128-192 | in every interleaving a call under way for a span of time re-enters redisAllow at most 1 + span / interval times |
| LimiterAlone.AloneInStep | internal/ratelimit/limiter.go:115-142 | one call at a time, with late prunes and evictions carrying no newer readings than its own, a call counts behind the newest drop of the window by no more than its commands were late beyond a second |
| LimiterAlone.ThrottleAlone | internal/ratelimit/limiter.go:115-200 | one call at a time: at most 2 L + (threshold - 1)(2 + W / interval), in deny mode with L for 2 L, and besides at most one admission that a deadline wiped under its pipeline if commands take effect within a second of their reading, else two |
| LimiterAlone.SafeStep | internal/ratelimit/limiter.go:133-138 | with no pipeline cut off between ZADD and EXPIRE, timed-out ones that Redis works off late and whole included, every action keeps deadlines off admissions whose pipeline was not late |
| LimiterAlone.ThrottlePrompt | internal/ratelimit/limiter.go:115-200 | with commands taking effect within a second of their reading and no pipeline cut off between ZADD and EXPIRE, whatever timed-out pipelines Redis works off late and whole: at most 2 L + (threshold - 1)(2 + W / interval), in deny mode with L for 2 L |
| LimiterExact.BoundExactly | internal/ratelimit/limiter.go:128-142 | one call at a time, under any limit: Redis admits at most the limit in every span shorter than the window, in every run, if and only if commands take effect within the second of slack, or, where pipelines can be cut off between ZADD and EXPIRE, in the millisecond of their reading |
| LimiterExact.ThrottleExactly | internal/ratelimit/limiter.go:115-200 | under that condition every configuration keeps to 2 L + (threshold - 1)(2 + W / interval), in deny mode with L for 2 L; a limiter in deny mode with a threshold of one keeps to it only under that condition |
| LimiterExact.LateCallBreaks | internal/ratelimit/limiter.go:129-138 | a run without cut-off pipelines whose one late command, a millisecond beyond the slack, admits one request too many |
| LimiterExact.TornCallBreaks | internal/ratelimit/limiter.go:133-138 | a run with one pipeline cut off between ZADD and EXPIRE in which a command late by one millisecond does |
| LimiterExact.Burst | internal/ratelimit/limiter.go:128-142 | from an empty key any number of calls up to the limit is admitted within one millisecond |
| LimiterExact.CallDivided | internal/ratelimit/limiter.go:128-142 | a call whose ZADD comes before a deadline and whose ZCARD comes after it is admitted, and leaves the key empty |
| JobCodec.ParseInvertsFields | internal/queue/result.go:180-195 | parsing an entry gives back the job that was enqueued, under the ID it was given |
| JobGuarantees.WorkStep | internal/queue/worker.go:46-105 | every action keeps: an entry handed out went to one worker, and is acknowledged only once told or panicked |
| JobGuarantees.AtMostOnce | internal/queue/worker.go:46-105 | each entry is delivered to at most one worker, never again, and acknowledged only after its PUBLISH was attempted unless its processing panicked |
| JobGuarantees.DepthStep | internal/queue/stream.go:45-67 | every action keeps the account of the depth gate, and streams only grow |
| JobGuarantees.DepthBound | internal/queue/stream.go:45-67 | with at most k calls between XLEN and XADD a stream never holds more than maxDepth + k - 1 entries |
| JobGuarantees.FullForGood | internal/queue/stream.go:50-52 | a stream that has reached maxDepth refuses every later job |
| JobGuarantees.ResultsStep | internal/queue/worker.go:97-104 | every action keeps stored and delivered payloads genuine: the owner of the job and the result of its worker |
| JobGuarantees.SubmittedStep | internal/queue/stream.go:54-66 | every action keeps entries decoding to what was submitted, under IDs used once |
| JobGuarantees.OwnedResult | internal/sse/hub.go:99-108 | an answered waiter hears of the one job enqueued under its ID: the user who submitted it gets exactly what the worker computed for it, anyone else "not found" |
| JobGuarantees.OwnerNeverRefused | internal/sse/hub.go:54-83 | whoever submitted a job is never told "not found" |
| JobGuarantees.WakeStep | internal/sse/hub.go:50-78 | every action keeps: what was published and stored has reached the waiters whose subscription was active |
| JobGuarantees.NoLostWakeup | internal/sse/hub.go:50-84 | once a result is stored and published and has not expired, a waiter has given up, or was answered with this very result, or finds it with its GET, or has a message if its subscription was active when the GET was answered |
| JobWakeups.SettledStays | internal/sse/hub.go:70-84 | after the PUBLISH no action gives a waiting waiter a message it was not sent, or takes one from it |
| JobWakeups.WokenExactly | internal/sse/hub.go:50-84 | once a job's result has been published, a waiter of it that is still waiting has a message if and only if its subscription was active at that moment |
| JobGuarantees.MissedGet | internal/sse/hub.go:50-54 | a run whose waiter misses the result with its GET before its subscription is active |
| JobGuarantees.LateSubscriptionSleeps | internal/sse/hub.go:50-54 | that run goes on to lose the wakeup, and its stream is full although every entry is acknowledged |
| JobHandlers.Redis.Enqueue | internal/queue/stream.go:45-67 | an undisturbed call adds exactly its own entry or none, never beyond the limit; a full queue, a failure and a success are told apart |
| JobHandlers.Redis.ProcessMessage | internal/queue/worker.go:71-105 | the steps taken are processing, SET, PUBLISH and XACK in this order, or XACK alone after a panic; the result is stored for the job's user under the job's ID and sent to that job's subscribers, each as far as it succeeds |
| JobHandlers.Redis.SetResult | internal/queue/worker.go:103 | SET is one step of the protocol and changes only the stored results |
| JobHandlers.Redis.PublishResult | internal/queue/worker.go:104 | PUBLISH reaches the active subscribers of this job only |
| JobHandlers.Redis.AckMessage | internal/queue/worker.go:72-73 | XACK marks this entry only |
| EventStream.WrittenIsRead | internal/sse/hub.go:110-112 | an event of one-line name and data is read back by a parser of sections 9.2.5 and 9.2.6 of the WHATWG HTML Standard, and reading goes on behind it |
| EventStream.ReadBackExactly | internal/handlers/route.go:420-422 | an event is read back unchanged if and only if neither its name nor its data holds a line end |
| EventStream.ReadIsClean | internal/sse/hub.go:110-112 | no parsed event has a line end in its name or a carriage return in its data |
| EventStream.DataShrinks | internal/sse/hub.go:110-112 | text yet to be parsed adds less data than it is long |
| EventStream.PrefixReads | internal/handlers/route.go:141-147 | at any moment of a response the client has read a prefix of its events |
| JobResponse.Response.WriteEvent | internal/handlers/route.go:420-422 | the body grows by the event's text |
| JobResponse.Response.WaitForResult | internal/sse/hub.go:41-94 | at most one event is written: "result" with the stored text for its owner, "error" with code 5 for anyone else and for a payload that does not decode, with code 4 after a timeout, with code 13 if the response cannot be flushed, and nothing for a client that has gone |
| JobResponse.Response.StreamJob | internal/handlers/route.go:89-148 | an enqueued job is answered with one queued event and then at most one other; a full queue with 429, a failure with 500 |
| JobResponse.ResponseReads | internal/handlers/route.go:141-147 | the client reads exactly the queued event and the one after it if and only if a delivered result is one line |
| JobResponse.DecimalReads | internal/handlers/route.go:141-142 | the queue position's digits stand for the depth, without a leading zero |
| JobDelivery.WaitEnds | internal/sse/hub.go:50-94 | the GET, the message, the timeout and the cancellation of the protocol end a wait as the response method does |
| JobDelivery.ClientReads | internal/sse/hub.go:41-108 | in every run the client of a finished waiter reads a "queued" event with its job's ID and the depth in digits, and then "result" with the worker's result for its own job, "error" with code 5 for another's, with code 4 after a timeout, or nothing if it has gone |
| ServiceToken.Manager.constructor | internal/servicetoken/manager.go:38-48 | no token, no expiry |
| ServiceToken.Manager.NextSleep | internal/servicetoken/manager.go:69-81 | until 180 s before the expiry, or the retry delay when that has passed or there is none |
| ServiceToken.Manager.NoteStale | internal/servicetoken/manager.go:138-150 | an expired token is reported when it has not been in this episode, or not for 3600 s; token and expiry stay |
| ServiceToken.Manager.Refresh | internal/servicetoken/manager.go:102-133 | a token that came in time replaces token and expiry together and ends the episode; an error or a timeout keeps both and may report |
| ServiceToken.Manager.Run | internal/servicetoken/manager.go:57-90 | the loop's attempts end at the times, report at the times, and leave the state, of the timeline the properties are stated on |
| ServiceToken.AttemptEnds | internal/servicetoken/manager.go:68-88 | when the i-th failing attempt is over at the latest, and exactly when all time out |
| ServiceToken.AttemptsBeforeExpiry | internal/servicetoken/manager.go:68-88 | a token with more than 3 minutes left gets (3 min - refreshTimeout) / (retryDelay + refreshTimeout) + 1 completed attempts before it expires if all fail, and exactly so many when all time out; one with less left gets left / (retryDelay + refreshTimeout) |
| ServiceToken.ReportsSpaced | internal/servicetoken/manager.go:135-150 | while refresh keeps failing, reports are at least an hour apart |
| ServiceToken.NeverSilent | internal/servicetoken/manager.go:135-150 | every failing attempt after the expiry ends less than an hour after a report, or with one |
| ServiceToken.NewEpisodeReported | internal/servicetoken/manager.go:118-150 | a fetched token ends the episode: the first failed attempt that ends past its expiry is reported, however recently an earlier token was |
| ServiceToken.FetchedIsHeld | internal/servicetoken/manager.go:123-131 | the token and expiry fetched last are the ones held after every later failed attempt |
| ServiceToken.ReportedStale | internal/servicetoken/manager.go:138-150 | reports are made only at the end of failed attempts, past the expiry of the token then held |
| ServiceToken.StoredFromOneFetch | internal/servicetoken/manager.go:105-126 | in every interleaving with abandoned fetches, token and expiry come from one fetch that answered within its own refresh |
| ServiceToken.NeverLate | internal/servicetoken/manager.go:98-133 | a refresh that is over without storing its fetch's answer never has it stored later |
| Extension.ValidatePath | internal/extension/extension.go:174-188 | a path is accepted if and only if it is below the base, has none of the forbidden parts and is not reserved |
| Extension.ValidPathMeans | internal/extension/extension.go:43-59 | below the base a path is valid if and only if it is not empty, has no doubled dot or slash and none of the six forbidden characters, and its first segment is not auth, route, search or region |
| Extension.Validate | internal/extension/extension.go:118-172 | no problem is reported if and only if every route is valid and names, and methods with paths, are distinct; the report names the first offending route and a problem it has |
| Extension.CheckMethods | internal/extension/extension.go:139-148 | a method is rejected exactly when it is not allowed, given twice or taken by an earlier route, which is named |
| Extension.CheckRest | internal/extension/extension.go:149-169 | the remaining checks of one route pass exactly when it is valid |
| Extension.KeyInjective | internal/extension/extension.go:143-147 | the map's keys tell methods and paths apart |
| Extension.HasMethod | internal/extension/extension.go:257-264 | membership in the list |
| Extension.Match | internal/extension/extension.go:233-248 | the route found takes the method, serves the path, none that does has a longer path, and none is found only if none serves the request |
| Extension.PrefixServes | internal/extension/extension.go:250-255 | a route whose path ends in "/" serves every continuation of it, however deep: some route at least as long is found |
| Extension.ExactServes | internal/extension/extension.go:250-255 | for any other route's own path, a route with exactly this path is found |
| Extension.ServedByMeans | internal/extension/extension.go:233-255 | the route found has the request's path, or a prefix of it that ends in "/", and takes the method |
| Extension.SameLengthSamePattern | internal/extension/extension.go:250-255 | patterns of one length that match one path are equal |
| Extension.BestIsLongest | internal/extension/extension.go:233-248 | in an accepted set the route found is strictly longer than every other that serves the request |
| Extension.MatchIgnoresOrder | internal/extension/extension.go:233-248 | the order of an accepted set's routes changes no match |
| Extension.ReservedNeverMatched | internal/extension/extension.go:174-188 | no accepted pattern, exact or prefix, matches a path equal to or under a reserved one |
| RateKeys.RateClass | internal/extension/extension.go:278-289 | the class of the best matching route |
| RateKeys.RateLimit | internal/middleware/ratelimit.go:50-126 | every request asks the limiter once, with its charge's key and limit, and is served if and only if the answer is yes without error |
| RateKeys.OwnBudgets | internal/middleware/ratelimit.go:79-163 | the key and the limit asked for each of the gateway's own paths, with and without a user |
| RateKeys.RouteBudgets | internal/middleware/ratelimit.go:71-78 | a request served by an extension route is asked under the user's budget of that route if it has a user and the route is not open to all, and else under the address's |
| RateKeys.OwnClasses | internal/middleware/ratelimit.go:128-163 | every path has one of six classes, and all but auth and public are per user |
| RateKeys.KeyReadsBack | internal/middleware/ratelimit.go:71-98 | class, kind and principal can be read back from a key whose class name has no colon |
| RateKeys.KeyDecidesCharge | internal/middleware/ratelimit.go:71-104 | requests that share a key share class, kind, principal and limit if no extension route's name has a colon |
| RateKeys.ClashExactly | internal/middleware/ratelimit.go:71-78 | two differently named extension routes can share a key if and only if one name continues as a key of the other's class does |
| ClientAddress.IsTrustedProxy | internal/middleware/auth.go:131-142 | an address is trusted if and only if it parses and some network contains it |
| ClientAddress.ClientIP | internal/middleware/auth.go:154-171 | the rightmost entry that is neither blank nor trusted, else the peer; from an untrusted peer, or with only blank and trusted entries, always the peer |
| ClientAddress.RightmostMeans | internal/middleware/auth.go:162-169 | an eligible entry with only ineligible ones after it is the one found |
| ClientAddress.NoneEligible | internal/middleware/auth.go:162-170 | without an eligible entry none is found |
| ClientAddress.ClientMeans | internal/middleware/auth.go:158-170 | behind a trusted peer the last entry that is neither blank nor trusted is the client |
| ClientAddress.PeerMeans | internal/middleware/auth.go:154-170 | with none the peer is |
| ClientAddress.HopDecides | internal/middleware/auth.go:146-150 | a proxy that appends an untrusted peer decides the client; one that appends a trusted peer leaves the decision to the header before |
| ClientAddress.ChainFindsClient | internal/middleware/auth.go:144-171 | behind trusted proxies the client is the last untrusted peer, whatever the header held before |
| ClientAddress.TrustedChainKeepsHeader | internal/middleware/auth.go:144-171 | if every hop is trusted the client's own header decides, and a forged address is believed |
| Cookies.Request.StripCookies | internal/handlers/proxy.go:41-74 | the header becomes the named pairs of all lines joined in order, or is dropped if there are none |
| Cookies.HeaderHoldsKept | internal/handlers/proxy.go:53-73 | re-read as section 4.2.1 of RFC 6265 writes cookies, the new header holds exactly the input's pairs filtered by name, in order |
| Cookies.KeptWhole | internal/handlers/proxy.go:54-66 | every pair kept is trimmed, not empty, without separator, and has a name to keep |
| Cookies.StripTwice | internal/handlers/proxy.go:41-74 | filtering a filtered header changes nothing |
| Cookies.KeptPiece | internal/handlers/proxy.go:54-66 | a piece between semicolons is kept, trimmed, if and only if the text before its first "=", trimmed, is a name to keep |
| Cookies.KeptBare | internal/handlers/proxy.go:54-66 | a piece without "=" is its own name, and dropped if blank |
| Cookies.KeptPieces | internal/handlers/proxy.go:53-66 | the pieces of a line are filtered one by one, in order |
| Cookies.KeptLines | internal/handlers/proxy.go:52-66 | so are the lines of the header |
| Text.SplitConcat | internal/middleware/auth.go:162 | a separator between two texts separates their pieces |
| Text.SplitPieces | internal/handlers/proxy.go:55 | no piece contains the separator |
| Text.TrimCuts | internal/handlers/proxy.go:55 | trimming cuts off white space at both ends and nothing else |

## Left out

- LimiterThrottle.Throttle: the fallback evicts this key only once its entries have left the window of the evicting request, as `VictimIsStale` shows for few enough keys; `CrowdedKeyspaceForgets` is what happens otherwise. Other replicas' admissions are not counted.
- LimiterExact.BoundExactly: where pipelines can be cut off, for windows of at least two milliseconds; the gateway's is a minute.
- LimiterExact.ThrottleExactly: that the condition is needed is shown for deny mode with a threshold of one, where every admission is one of Redis.
- RedisThrottle: pipelines reach Redis whole and in the order of their clock readings, and Redis runs on the gateway's clock; `LimiterSystem` interleaves their commands and drops the order, and `PipelineAgrees` joins the two.
- RedisAnswerMeans: for histories without a pipeline cut off between ZADD and EXPIRE; the exact condition is in `ExpiryShowsExactly`.
- Redis loses no data by itself, scores are exact integers although Redis keeps them as floating point, and the driver's rounding of deadlines is not modelled.
- The clock never goes back.
- OwnedResult: job IDs are assumed fresh; they are random UUIDs.
- JobHandlers.Redis.Enqueue: the contract is for a call no other call comes between; the interleaved protocol is in `JobProtocol`.
- One stream stands for the three; they share nothing but the result keys, which are per job. Re-delivery of unacknowledged messages is not part of the repository.
- JobResponse.Response.WaitForResult: what the GET finds and what ends the wait are parameters; `WaitEnds` and `ClientReads` tie them to the protocol.
- JobResponse.Response.StreamJob: what enqueueing answers is a parameter, headers are not modelled, and the JSON of the queued event is written out for IDs that need no escaping.
- EventStream.WrittenIsRead: a byte order mark at the start of a stream, which no response has, is not stripped.
- ServiceToken.Manager.NoteStale: its two clock readings are taken as one. The relaunch of a panicked loop is not modelled.
- ServiceToken.AttemptsBeforeExpiry: timers fire exactly.
- Extension.Validate: `validateUpstream` rests on URL parsing and is a parameter. Loading the YAML file, the mux, the proxying and the header rewriting are not modelled.
- ClientAddress.ClientIP: `X-Forwarded-For` is one header line, the first; CIDR and address parsing are parameters.
- RateKeys.RateLimit: the limiter is a parameter, and the 429 response's headers are not modelled.
- JWT verification, cookie encoding, CORS, HTTP transport, logging, configuration and startup: libraries and plumbing.
- The circuit breaker: its behaviour lives in a library.
- The gRPC proxy handlers, the error tables and the field-by-field result mappings: they would only add one-branch facts.
- Liveness: nothing is proved that needs fair scheduling.
