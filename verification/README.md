# FortressWAF: a verified model of the in-memory state machines and scanners

FortressWAF inspects HTTP requests with a chain of inspectors. Much of what decides a request lives in small
mutable structures: rate-limit buckets, sliding windows, lockout trackers, circuit breakers, an event buffer shared
by threads, session indexes, a sorted rule list, and a few hand-written scanners. This project models those in Dafny
and proves what they promise.

Each component comes as a specification (values and pure steps, with the theorems about every input and every run)
and, where the program updates objects or arrays, as classes and methods that are proved to carry out exactly those
steps.

| files | what they model |
|---|---|
| `arithmetic.dfy`, `time.dfy`, `options.dfy`, `windows.dfy` | quotients; units; optional values; timestamp windows and their pruning |
| `ratelimit.dfy`, `ratelimiter.dfy`, `ratelimit_history.dfy`, `ratelimit_bounds.dfy`, `ratelimit_leaky.dfy`, `ratelimit_visible.dfy` | the four limiters, the limiter object, the background sweep, interval bounds |
| `ratelimit_numbers.dfy`, `ratelimit_kept.dfy` | what they admit and report, and what the sweep leaves, in whole numbers |
| `ddos.dfy`, `flood_detector.dfy`, `behavioral.dfy` | HTTP-flood counters; the velocity window compacted in place |
| `siem.dfy`, `siem_close.dfy`, `siem_manager.dfy` | the event buffer, its signal channel, the flush loop and Close, interleaved |
| `gate.dfy`, `breaker.dfy`, `breaker_tally.dfy`, `performance.dfy` | the worker gate and the circuit breakers |
| `credential.dfy`, `lockout_history.dfy`, `credential_protection.dfy` | login lockout and brute-force backoff |
| `ml_breaker.dfy`, `ml_history.dfy`, `ml_relentless.dfy`, `ml_client.dfy` | the ML client's breaker under retrying callers |
| `sql_tokens.dfy`, `sqli.dfy`, `sql_keywords.dfy`, `sql_text.dfy` | the SQL tokenizer, the analysis of its tokens, and the findings read off the text |
| `frames.dfy`, `frame_bytes.dfy`, `websocket.dfy` | WebSocket frames (sections 5.2 and 5.3 of RFC 6455), byte by byte, and the in-place parser |
| `graphql_depth.dfy`, `percent.dfy` | the GraphQL depth scan; iterated percent-decoding |
| `pipeline.dfy`, `engine.dfy` | the inspector loop and the final decision |
| `session_index.dfy`, `session_story.dfy`, `session_store.dfy` | the session maps, their indexes, and what becomes of one session |
| `rule_order.dfy`, `rules.dfy` | rule ordering and dispatch |
| `baselines.dfy`, `baseline_mix.dfy`, `learning.dfy` | online statistics of the learning mode and its whitelist |

`dafny verify dfyconfig.toml` checks everything.

Laws that are stated through helper functions have a counterpart in plain terms, without their names: limits and
times in whole numbers, characters, bytes, and the fields of rules, rates and sessions.

Conventions. Time is an integer number of nanoseconds and is passed in; the runs let it stand still but not go
back. Floating-point numbers are reals. Regular expressions, hashes, Unicode tables, generated ids and calls to
inspectors or to the remote service are parameters. A Go slice error or a division by zero is either an explicit
outcome or a precondition named below.

What the proofs found in the code:

- The sweep of token buckets is noticeable exactly when an empty bucket needs longer than ten minutes to refill
  (`TokenEvictionInvisibleExactlyWhen`); then, and only then, a key can exceed burst + rate * length
  (`TokenBucketBoundExactlyWhen`), by twice its burst in ten minutes (`DrainTwiceAdmits`). Leaky buckets are never
  swept at all (`LeakyNeverEvicted`).
- A circuit breaker can admit a call one second after it tripped, when it was half-open from an old admission
  (`AdmittedSoonAfterTrip`); exactly then does a trip not hold (`TripHoldsExactlyWhen`).
- The worker gate bounds waiting callers, not running inspections: those exceed it by as many as may time out
  (`InspectionsBoundedExactlyWhen`).
- An event sent after the closing flush is delivered only if the flush loop still serves its ticker or a signal
  before it stops: what is in the buffer when the loop has left is lost (`LeftoverDeliverableExactlyWhen`,
  `NothingMoves`, `SentTooLate`).
- Closing while a batch is in flight may deliver later events first (`CloseMayReorder`), unless the two read the same
  in either order (`OrderKeptExactlyWhen`).
- Percent-decoding calls itself for ever on any value whose fixpoint keeps a percent sign, such as one whose only
  percent sign is its last character (`DecodesExactlyWhen`, `StuckNeverDecodes`).
- A frame length whose end does not fit a signed 64-bit integer makes the parser slice out of range
  (`OutOfRangeExactlyWhen`, `OutOfRangeExample`); parsing the same buffer twice masks the payload again
  (`ParsingTwice`).
- An unterminated block comment leaves its last character outside the token (`BlockCommentEnd`); an unclosed string
  in a text that ends in an odd number of backslashes makes the tokenizer slice past the text
  (`OverrunsExactlyWhen`, `Tokenize`).
- More requests of one IP in a window than ten times the tolerated number overflow its array
  (`FitsExactlyWhenWindowsDo`, `TooManyAtOnce`).
- An inspector with a negative score can weaken the final action (`WeakensExactlyWhen`); shadow mode still blocks
  on the summed score (`ShadowBlocksExactlyWhen`).
- Loading saved sessions into a store that still indexes one of them makes lookups wrong
  (`LoadLooksUpExactlyWhen`, `ReloadFindsTwice`); changing a session's address does too
  (`PutKeepsLookupExactlyWhen`).
- An expired whitelist entry keeps a path off the whitelist until the sweep removes it
  (`WhitelistedExactlyWhen`, `PraisedButNotWhitelisted`).
- A keyword need not be a whole word: digits may stand just before it, as in `1DROP` (`KeywordsBegin`,
  `DigitBeforeWordRaises`).
- A decision that does not allow counts in a path's learned statistics like one more at the mean so far
  (`StatisticsOfMix`).
- An escape with one hexadecimal digit swallows the byte after it, and white space may stand for the first digit
  (`PassOnThree`).
- The numeric bounds on backoff and on retries leave room in some cases; the exact maxima are
  `PassesPossibleExactlyWhen` and `AttemptsBound` with `AttemptsBoundIsReached`.

## Model

| member | source | states |
|---|---|---|
| `Windows.Prune` | `internal/ratelimit/ratelimit.go:166-172` | the pruning loop keeps exactly the timestamps after the cutoff, in their order |
| `Windows.NoWindowExceedsLimit` | `internal/ratelimit/ratelimit.go:160-198` | with the whole history kept, no window of the given length, wherever it ends, holds more admitted calls than the limit |
| `Limiter.RateLimiter.constructor` | `internal/ratelimit/ratelimit.go:73-95` | a new limiter is empty and every key has the default limits |
| `Limiter.RateLimiter.Inspect` | `internal/ratelimit/ratelimit.go:99-115` | dispatches to the configured algorithm with the limits of key and granularity; state and decision are the algorithm's |
| `Limiter.RateLimiter.CheckFixedWindow` | `internal/ratelimit/ratelimit.go:125-158` | the in-place update is the fixed-window step: first call of a second always admitted, later ones up to rate + burst |
| `Limiter.RateLimiter.CheckSlidingWindow` | `internal/ratelimit/ratelimit.go:160-198` | the in-place update is the sliding-window step, for every limit; it fails exactly when the limit is below one and nothing is live |
| `Limiter.RateLimiter.CheckTokenBucket` | `internal/ratelimit/ratelimit.go:200-240` | the in-place update is the token-bucket step: refill, cap, spend one or deny |
| `Limiter.RateLimiter.CheckLeakyBucket` | `internal/ratelimit/ratelimit.go:242-288` | the in-place update is the leaky-bucket step: drain whole leak intervals, then queue or deny |
| `Limiter.RateLimiter.SetRateLimit` | `internal/ratelimit/ratelimit.go:327-343` | exactly one key of one granularity changes its rate; sessions cannot be configured |
| `Limiter.RateLimiter.SetPriority` | `internal/ratelimit/ratelimit.go:320-349` | exactly one key changes its burst, to double or back |
| `Limiter.RateLimiter.Cleanup` | `internal/ratelimit/ratelimit.go:351-402` | one tick deletes exactly the stale windows and idle buckets and prunes the sliding windows, in all four maps |
| `RateLimitHistory.DecisionsFollowHistory` | `internal/ratelimit/ratelimit.go:125-402` | each decision is the one that the whole unpruned, unswept history calls for: of the fixed and sliding windows in every run with sweep ticks, of token buckets when each key keeps limits that refill within the eviction age |
| `RateLimitHistory.LevelIsTightestBudget` | `internal/ratelimit/ratelimit.go:200-240` | the token level reaches x exactly when every interval from an earlier admission to now leaves at least x of burst + rate * length |
| `RateLimitHistory.RecordAgrees` | `internal/ratelimit/ratelimit.go:160-198` | pruning before recording never changes what a later window sees |
| `RateLimitBounds.EvictionInvisible` | `internal/ratelimit/ratelimit.go:351-402` | any interleaving of sweep ticks leaves every decision as it is without the sweep: for both windows and the leaky bucket in every run, for token buckets when each key keeps limits that refill within the eviction age |
| `RateLimitBounds.FixedWindowAdmits` | `internal/ratelimit/ratelimit.go:125-158` | while all calls of a key carry one limit, in each second exactly the first max(1, rate + burst) of them are admitted |
| `RateLimitBounds.SlidingWindowBound` | `internal/ratelimit/ratelimit.go:160-198` | no window of one second, wherever it ends, holds more admitted calls of a key than the greatest rate + burst that its calls carry |
| `RateLimitBounds.TokenBucketIsGreedy` | `internal/ratelimit/ratelimit.go:200-240` | the token bucket admits a call if and only if every interval bound has room for it |
| `RateLimitBounds.TokenBucketWithinInterval` | `internal/ratelimit/ratelimit.go:200-240` | while each key keeps its limits, over any closed interval at most burst + rate * length calls of a key are admitted, by the decisions that the history calls for |
| `RateLimitVisible.TokenBucketRunWithinInterval` | `internal/ratelimit/ratelimit.go:200-402` | the same bound for a key in every run with the sweep, provided that its own limits stay and refill within the eviction age |
| `RateLimitVisible.TokenBucketBoundExactlyWhen` | `internal/ratelimit/ratelimit.go:200-402` | that bound holds of a key in all runs in which its limits stay if and only if an empty bucket refills within the eviction age |
| `RateLimitVisible.DrainTwiceAdmits` | `internal/ratelimit/ratelimit.go:200-402` | draining a bucket, having it swept and draining it again admits twice the burst within ten minutes and a nanosecond |
| `RateLimitBounds.LeakyNeverEvicted` | `internal/ratelimit/ratelimit.go:391-397` | between calls a leaky bucket's queue is never empty, whatever limits the calls carry, so the sweep never deletes one |
| `RateLimitLeaky.LeakyBucketWithinInterval` | `internal/ratelimit/ratelimit.go:242-288` | in every run, over any closed interval at most burst + floor(length / leak interval) calls of a key are admitted, by the limits of its first call |
| `RateLimitLeaky.LeakyBucketNeverStarves` | `internal/ratelimit/ratelimit.go:242-288` | a call is denied only if some call of the key was admitted less than one leak interval ago, and a key's first call never |
| `RateLimitLeaky.LeakyFollowsHistory` | `internal/ratelimit/ratelimit.go:242-402` | with the sweep running at any times, each leaky decision is that of a meter fed with the whole history of calls, denied ones included, whatever limits they carry |
| `RateLimitVisible.TokenEvictionInvisibleExactlyWhen` | `internal/ratelimit/ratelimit.go:383-389` | for any limits that each key keeps, the sweep of token buckets is invisible in all runs if and only if every key's empty bucket refills within the eviction age |
| `RateLimitNumbers.TokenBucketAdmitsExactlyWhen` | `internal/ratelimit/ratelimit.go:200-240` | in nanoseconds: in every run with the sweep, provided that the key keeps limits and that burst * 10^9 <= max(1, rate) * 600000000001, a call is admitted if and only if the burst is positive and, from every earlier admission to now, the admissions and this call, times 10^9, are at most burst * 10^9 + max(1, rate) * the nanoseconds between |
| `RateLimitNumbers.TokenBucketKeepsExactlyWhen` | `internal/ratelimit/ratelimit.go:200-402` | in nanoseconds: in all runs in which a key keeps its limits, its admissions over any closed interval, times 10^9, are at most burst * 10^9 + max(1, rate) * length, if and only if burst * 10^9 <= max(1, rate) * 600000000001 |
| `RateLimitNumbers.FixedWindowAdmitsExactlyWhen` | `internal/ratelimit/ratelimit.go:125-158` | in every run with the sweep a call is admitted if and only if it is the first of its key in its second of the clock or no more than the rate + burst-th |
| `RateLimitNumbers.SlidingWindowAdmitsExactlyWhen` | `internal/ratelimit/ratelimit.go:160-198` | in every run with the sweep a call is admitted if and only if fewer than rate + burst admissions of its key lie less than a second back |
| `RateLimitNumbers.LeakyBucketKeeps` | `internal/ratelimit/ratelimit.go:242-288` | over any closed interval at most burst + floor(length / floor(10^9 / max(1, rate))) calls of a key are admitted, by the limits of its first call |
| `RateLimitNumbers.SingleLeakAdmitsExactlyWhen` | `internal/ratelimit/ratelimit.go:242-288` | with a burst of one a call is admitted if and only if floor(10^9 / max(1, rate)) nanoseconds have passed since the last admission |
| `RateLimitNumbers.RemainingMeans` | `internal/ratelimit/ratelimit.go:125-288` | for every algorithm and state, what an admission reports as remaining is how many further calls at the same instant are admitted; after a denial none is |
| `RateLimitKept.TokensKeptExactlyWhen` | `internal/ratelimit/ratelimit.go:351-389` | after a tick of the sweep a token bucket is kept if and only if its key called within the last ten minutes |
| `RateLimitKept.FixedKeptExactlyWhen` | `internal/ratelimit/ratelimit.go:351-372` | after a tick the window of a key and a second is kept if and only if its first call in that second is no more than two seconds old |
| `RateLimitKept.SlidingKeptExactlyWhen` | `internal/ratelimit/ratelimit.go:351-382` | after a tick the timestamps of a key are kept if and only if its last admission is less than two seconds old |
| `Flood.PassesFollowsHistory` | `internal/engine/ddos.go:100-187` | a request passes exactly the stages at which fewer than the limit of requests got past in the last second, counted over the whole history |
| `Flood.FloodLimitsHold` | `internal/engine/ddos.go:123-187` | requests let through meet the global, IP, path and session limits at once: no one-second window of any counter exceeds its limit |
| `Flood.FourLimitsHold` | `internal/engine/ddos.go:123-187` | in no window of one second are more requests let through than rates.global in all, rates.perIP of one IP, rates.perEndpoint of one path, rates.perSession of one session |
| `Flood.PassesExactly` | `internal/engine/ddos.go:100-187` | a request fails at the first of the stages global, IP, path and session past which as many requests of its kind as rates.global, perIP, perEndpoint and perSession got within the last second, and gets through when there is none |
| `Flood.IpKeptExactlyWhen` | `internal/engine/ddos.go:341-349` | after a sweep the counter of an IP holds something if and only if one of its requests got past it within the last ten minutes, and the other counters are as they were |
| `FloodDetector.DDoSProtection.constructor` | `internal/engine/ddos.go:40-63` | a new detector holds no timestamps for any counter |
| `FloodDetector.DDoSProtection.CheckRate` | `internal/engine/ddos.go:100-121` | prunes the counter, and records the request if and only if there is room |
| `FloodDetector.DDoSProtection.GetOrCreateCounter` | `internal/engine/ddos.go:87-98` | finds or creates the counter, distinct from every other one, changing no contents |
| `FloodDetector.DDoSProtection.CheckStage` | `internal/engine/ddos.go:128-165` | asks one counter and leaves all others as they were |
| `FloodDetector.DDoSProtection.DetectHTTPFlood` | `internal/engine/ddos.go:123-187` | stops at the first stage without room; the counters of the passed stages gain the request, the refusing one is pruned, the rest is untouched |
| `FloodDetector.DDoSProtection.Cleanup` | `internal/engine/ddos.go:341-349` | drops exactly the IP counters that are empty or idle for ten minutes |
| `Behavioral.VelocityWindow.Add` | `internal/engine/behavioral.go:46-62` | the in-place compaction leaves exactly the live entries, in order, followed by now, and returns how many; it fails exactly when the live entries fill the array, leaving the entries as they were |
| `Behavioral.PrunedIsRecentHistory` | `internal/engine/behavioral.go:46-62` | repeated adding keeps exactly the calls of the last window, as if nothing had been forgotten |
| `Behavioral.CountIsWindowCount` | `internal/engine/behavioral.go:46-62` | the returned count is the number of calls in the window that ends now |
| `Behavioral.FitsExactlyWhenWindowsDo` | `internal/engine/behavioral.go:38-62` | the backing array never overflows if and only if no window, wherever it ends, holds more calls than its capacity |
| `Behavioral.TooManyAtOnce` | `internal/engine/behavioral.go:38-62` | as many simultaneous calls as the capacity fit, one more does not |
| `Behavioral.BehavioralEngine.GetWindow` | `internal/engine/behavioral.go:186-195` | finds or creates the IP's window, sharing no storage with another |
| `Behavioral.BehavioralEngine.CountRequest` | `internal/engine/behavioral.go:87-110` | one request changes the window of its own IP only, and fails exactly when that window is full |
| `Siem.NoLostEvent` | `internal/siem/siem.go:115-168` | in every interleaving each exporter's deliveries, its in-flight batch and the buffer account for every event once; before Close they concatenate to the sent sequence |
| `Siem.NoLostWakeUpExactlyWhen` | `internal/siem/siem.go:115-150` | until Close a full buffer implies a pending signal, a sender about to signal, or a loop about to flush: in all interleavings if and only if the batch size is at least one |
| `Siem.SignalsFollow` | `internal/siem/siem.go:115-150` | in every interleaving the channel holds a signal exactly from one that is set to the next received, and a sender sets one exactly when its event filled a batch |
| `Siem.FullBufferIsFlushed` | `internal/siem/siem.go:115-168` | from any reachable full buffer before Close, whatever steps already under way are taken, in whatever order and without the ticker, the buffer is empty after a bounded number of them or once none is left |
| `SiemClose.CloseDeliversAllExactlyWhen` | `internal/siem/siem.go:115-185` | after Close is over and nothing is in flight, every exporter has every event exactly once if and only if nothing was sent since a thread last took the buffer |
| `SiemClose.NothingMoves` | `internal/siem/siem.go:136-172` | once both the flush loop and the closing caller are gone, no continuation delivers anything |
| `SiemClose.LeftoverDeliverableExactlyWhen` | `internal/siem/siem.go:136-172` | events left in the buffer after closing can still be delivered, without new sends, if and only if the flush loop has not left yet |
| `SiemClose.SentTooLate` | `internal/siem/siem.go:115-172` | a run after which, however it goes on, an event that was sent is never delivered |
| `SiemClose.CloseMayReorder` | `internal/siem/siem.go:136-172` | with a batch in flight, a run in which Close delivers a later event first |
| `SiemClose.OrderKeptExactlyWhen` | `internal/siem/siem.go:136-172` | Close keeps an exporter's order in every continuation without new sends if and only if the batch in flight for it and the buffer read the same in either order, above all when one of them is empty |
| `SiemManager.Manager.Send` | `internal/siem/siem.go:115-128` | appends the event, and sets the signal when the batch is full: the append and signal steps, which lengthen the run that the object follows |
| `SiemManager.Manager.SendBatch` | `internal/siem/siem.go:130-134` | appends all events in order, and signals if the buffer fills on the way |
| `SiemManager.Manager.Flush` | `internal/siem/siem.go:152-168` | carries out the loop's steps, which lengthen the run that the object follows: empties the buffer, and hands every exporter exactly what was in it |
| `Gate.GateHolds` | `internal/engine/performance.go:82-156` | in every interleaving the counter equals the callers between increment and decrement, is zero exactly when there are none, and at most maxWorkers are past the check |
| `Gate.LiveInspectionsBounded` | `internal/engine/performance.go:115-156` | running inspections are at most maxWorkers plus the callers that ever timed out |
| `Gate.InspectionsBoundedExactlyWhen` | `internal/engine/performance.go:82-156` | a number bounds the running inspections in all runs with at most t timeouts if and only if it is at least maxWorkers + t, so maxWorkers does exactly when none may time out |
| `Gate.TimeoutsEvadeTheGate` | `internal/engine/performance.go:143-155` | for every n some run has n inspections running while the counter is zero |
| `Breaker.TrippedRefuses` | `internal/engine/performance.go:158-228` | after a trip and until the next admission, a call is admitted only when more than the recovery time has passed since the last admission (or, without one, since the trip), whatever late outcomes arrive |
| `Breaker.TripHoldsExactlyWhen` | `internal/engine/performance.go:158-211` | within the recovery time of a trip, calls are refused if and only if the breaker is not half-open from an admission longer ago than that |
| `Breaker.AdmittedSoonAfterTrip` | `internal/engine/performance.go:170-180` | a concrete run in which a call is admitted one second after a trip |
| `Breaker.Reopens` | `internal/engine/performance.go:158-183` | once the recovery time since the last trip has passed, a call is admitted in every run |
| `Breaker.OpenRefuses` | `internal/engine/performance.go:261-282` | a breaker that reports Open refuses |
| `Breaker.RefusalReportsOpenExactlyWhen` | `internal/engine/performance.go:261-282` | a refusing breaker reports Open if and only if it is not half-open, still at its threshold, and not exactly at the recovery time |
| `BreakerTally.FollowsHistory` | `internal/engine/performance.go:158-228` | in every run the failures counted are the most by which, over any time up to now since the breaker last started afresh, failures outnumbered successes, and it tripped when that came to five |
| `BreakerTally.AdmitsExactlyWhen` | `internal/engine/performance.go:158-183` | a call is admitted if and only if nothing ever failed, or the breaker never tripped, or more than thirty seconds have passed since it last tripped or became half-open |
| `BreakerTally.ReportsExactly` | `internal/engine/performance.go:261-282` | the state reported, read off the history: half-open since an admission until a fresh start; otherwise open if and only if it tripped less than thirty seconds ago and failures still outnumber successes by five |
| `Performance.CircuitBreaker.CanProceed` | `internal/engine/performance.go:168-182` | the object carries out the asking step, half-open state included |
| `Performance.CircuitBreaker.RecordFailure` | `internal/engine/performance.go:199-210` | the object carries out the failure step |
| `Performance.CircuitBreaker.RecordSuccess` | `internal/engine/performance.go:222-227` | the object carries out the success step |
| `Performance.PerformanceManager.CanProceed` | `internal/engine/performance.go:158-183` | asks only the named inspector's breaker, and admits when there is none |
| `Performance.PerformanceManager.RecordFailure` | `internal/engine/performance.go:185-211` | creates the breaker on its first failure and moves no other |
| `Performance.PerformanceManager.RecordSuccess` | `internal/engine/performance.go:213-228` | moves only an existing breaker |
| `Performance.PerformanceManager.CircuitState` | `internal/engine/performance.go:261-282` | reports the state of the named breaker |
| `Performance.PerformanceManager.Inspect` | `internal/engine/performance.go:67-156` | takes the gate's steps and gives the worker's place back on every path; only an inspection that ran records an outcome, a panic two |
| `Lockout.UnflaggedBound` | `internal/engine/credential.go:99-175` | by any time a user hash draws no finding at most max + (max + 1) * floor(elapsed / lockout) times |
| `Lockout.UnflaggedBoundIsReached` | `internal/engine/credential.go:99-175` | for every number of lockouts a run meets that bound exactly |
| `Lockout.PassedBound` | `internal/engine/credential.go:230-274` | by any time at most 21 + floor(elapsed / 30 min) requests of an IP are let through |
| `Lockout.PassesPossibleExactlyWhen` | `internal/engine/credential.go:230-274` | n requests of an IP may have been let through by a time if and only if the backoffs of the passes before the n-th fit in, the first excepted: the exact maximum at every time |
| `Lockout.EarliestIs` | `internal/engine/credential.go:260-271` | that is 3154 seconds for the 21st pass and half an hour for each further one |
| `Lockout.BackoffEnds` | `internal/engine/credential.go:230-274` | an IP that has waited the longest backoff is let through |
| `LockoutHistory.FindingExactly` | `internal/engine/credential.go:123-175` | of the attempts since the last lockout the first max draw no finding, those up to three times as many are rate-limited, and the next locks out: from it on all are blocked until the lockout is over, and the first one then draws no finding |
| `LockoutHistory.BackoffExactly` | `internal/engine/credential.go:230-274` | a request is let through if and only if it comes at least 0, 1, 30, 300 or 1800 seconds after the last one let through, by that one's place among all requests of the IP; otherwise it is blocked |
| `CredentialProtection.CredentialProtection.constructor` | `internal/engine/credential.go:46-67` | non-positive settings become five attempts and one hour, so the detectors' assumptions always hold |
| `CredentialProtection.CredentialProtection.DetectCredentialStuffing` | `internal/engine/credential.go:99-121` | only a POST with a user name and a password, in form or query, is counted, and only against that user's hash |
| `CredentialProtection.CredentialProtection.CountLogin` | `internal/engine/credential.go:118-174` | the tracker object carries out the lockout step; no other user's tracker moves |
| `CredentialProtection.CredentialProtection.DetectBruteForce` | `internal/engine/credential.go:230-274` | the tracker object carries out the backoff step; no other IP's tracker moves |
| `MlBreaker.AttemptsBound` | `internal/ml/client.go:99-121` | against a service that always fails, any number of callers together make at most (1 + retries) * (callers + floor((threshold - 1) / (1 + retries))) attempts per cycle, and there is one cycle at first and one for each cooldown and nanosecond since |
| `MlBreaker.PerCycleIs` | `internal/ml/client.go:99-121` | per cycle that is at most threshold - 1 + callers * (1 + retries); for one caller the least multiple of 1 + retries that reaches the threshold, so at most threshold + retries |
| `MlRelentless.AttemptsBoundIsReached` | `internal/ml/client.go:99-121` | for any number of callers, retries and cycles a run makes exactly that many attempts |
| `MlBreaker.NoBudgetNoAttempts` | `internal/ml/client.go:104-105` | with a negative retry count nothing is ever attempted |
| `MlBreaker.CallIsRun` | `internal/ml/client.go:99-121` | one call with its retries is a run of the step machine that the bound is about |
| `MlHistory.FollowsHistory` | `internal/ml/client.go:232-270` | in every run of any callers the failures counted are the attempts in a row that failed since the breaker last started afresh, and it is open since five of them did |
| `MlHistory.LetInExactlyWhen` | `internal/ml/client.go:232-270` | a call is let in if and only if the service counts as available and no five attempts in a row failed since the breaker last started afresh, or the last to do so did more than thirty seconds ago |
| `MlClient.Client.IsAvailable` | `internal/ml/client.go:232-253` | carries out the check, which may close the breaker |
| `MlClient.Client.RecordSuccess` | `internal/ml/client.go:255-259` | clears the failures, but leaves an open breaker open |
| `MlClient.Client.RecordFailure` | `internal/ml/client.go:261-270` | carries out the failure step |
| `MlClient.Client.SetAvailable` | `internal/ml/client.go:283-287` | changes availability and nothing of the breaker |
| `MlClient.Client.FallbackResult` | `internal/ml/client.go:272-281` | a fallback is malicious exactly in block mode, and scores above zero exactly in block and monitor mode |
| `MlClient.Client.Inspect` | `internal/ml/client.go:99-121` | makes attempts up to the first success and at most 1 + retries, none when refused; answers with that success or with the fallback, leaving the breaker as those outcomes make it |
| `SqlTokens.LosslessExactlyWhen` | `internal/engine/sqli.go:234-357` | tokens are non-empty slices of the text, in order and disjoint, with only white space between them, if and only if the last token is no string left open: unclosed, in a text ending in an odd number of backslashes |
| `SqlTokens.OverrunsExactlyWhen` | `internal/engine/sqli.go:248-263` | the scan runs past the end if and only if the last token is such a string |
| `SqlTokens.OverrunEndsInBackslash` | `internal/engine/sqli.go:250-259` | only a text that ends in a backslash can make the scan run past the end |
| `SqlTokens.LoneBackslashOverruns` | `internal/engine/sqli.go:250-259` | a quote followed by a lone backslash does |
| `SqlTokens.TokensDetermineText` | `internal/engine/sqli.go:234-357` | another text with the same tokens has the same character everywhere, except that white space may be other white space or missing at the end: the text can be read back |
| `SqlTokens.TokensApart` | `internal/engine/sqli.go:234-357` | no two tokens overlap, even when the scan runs past the end |
| `SqlTokens.KindsAreRight` | `internal/engine/sqli.go:248-354` | what each kind is made of, so that the text decides it: strings and comments by their delimiters; numbers of digits and dots; keywords, functions and identifiers as maximal words, listed, before a bracket, or neither; operators of one character or two; the eight punctuation marks, the semicolon among them; and any other single character |
| `SqlTokens.ExtentsAreRight` | `internal/engine/sqli.go:248-275` | every string token ends behind the first unescaped quote like the one that opened it, every block comment behind its first terminator; without one they end with the text, give or take a character |
| `SqlTokens.BlockCommentEnd` | `internal/engine/sqli.go:265-275` | a block comment ends behind the first terminator; without one it ends one character before the text does |
| `SqlTokens.StringEndMeans` | `internal/engine/sqli.go:248-263` | a string ends behind the first quote of its kind with an even number of backslashes before it; without one, with the text, or one past it when the text ends in an odd number of backslashes |
| `Sqli.SkipString` | `internal/engine/sqli.go:251-259` | the string loop stops where the string token ends, escapes included |
| `Sqli.SkipBlock` | `internal/engine/sqli.go:266-272` | the comment loop stops where the block comment ends |
| `Sqli.SkipRun` | `internal/engine/sqli.go:279-310` | the run loops stop at the first character that does not continue the run |
| `Sqli.ScanToken` | `internal/engine/sqli.go:248-354` | the branches yield the kind and end of the token at a position |
| `Sqli.Tokenize` | `internal/engine/sqli.go:234-357` | terminates on every input and yields exactly the tokens of the text; it fails exactly when the scan runs past the end of a buffer with no spare room |
| `Sqli.AnalyzeTokens` | `internal/engine/sqli.go:359-414` | reports the first dangerous keyword; else chaining exactly with a semicolon and a keyword; else a pattern exactly with two keywords and a string |
| `Sqli.KeywordOutsideStrings` | `internal/engine/sqli.go:234-389` | a keyword shares no character with any string or comment token |
| `SqlKeywords.KeywordsBegin` | `internal/engine/sqli.go:242-334` | before a keyword stands nothing, or no word character, or digits that no letter precedes |
| `SqlKeywords.DigitBeforeWordRaises` | `internal/engine/sqli.go:296-334` | a digit just before a dangerous word leaves it a keyword that raises SQLI021 |
| `SqlKeywords.RaisesExactlyWhen` | `internal/engine/sqli.go:234-389` | a text has a keyword that raises SQLI021 if and only if it has a dangerous word, not continued, at a place where a word may begin, that no string and no comment covers |
| `SqlText.ChainsExactlyWhen` | `internal/engine/sqli.go:346-394` | some token chains statements if and only if a semicolon stands outside strings and comments |
| `SqlText.StringsExactlyWhen` | `internal/engine/sqli.go:248-263` | there is a string token if and only if a quote stands outside comments |
| `SqlText.TwoKeywordsExactlyWhen` | `internal/engine/sqli.go:296-334` | there are two keyword tokens if and only if keywords stand at two places outside strings and comments |
| `SqlText.InspectText` | `internal/engine/sqli.go:160-165` | tokenizing and analysing, by the text alone: SQLI021 if and only if a dangerous word stands outside strings and comments; else SQLI022 if and only if a semicolon and a keyword do; else SQLI023 if and only if two keywords do and a quote stands outside comments |
| `Frames.RoundTrip` | `internal/engine/websocket.go:264-314` | for every fin, opcode, reserved bits, optional key, payload and length form, parsing the encoding followed by any bytes gives that frame |
| `Frames.ParsedIsEncoded` | `internal/engine/websocket.go:264-314` | conversely, whatever parses is the encoding of the frame it parses to, followed by ignored bytes |
| `Frames.PrefixRejected` | `internal/engine/websocket.go:264-301` | every proper prefix of a frame is rejected, with the error that says how far it got |
| `Frames.UnmaskTwice` | `internal/engine/websocket.go:303-307` | masking is its own inverse |
| `Frames.ParsingTwice` | `internal/engine/websocket.go:302-307` | parsing the same buffer again restores its bytes and finds the masked payload |
| `Frames.OutOfRangeExactlyWhen` | `internal/engine/websocket.go:285-302` | the payload slice is out of range if and only if the declared end does not fit a signed 64-bit integer and the bytes reach the wrapped end |
| `Frames.OutOfRangeExample` | `internal/engine/websocket.go:285-302` | the ten bytes of an unmasked frame with the largest 64-bit length make it fail |
| `Frames.SmallLengthsAreSafe` | `internal/engine/websocket.go:285-302` | no length with a clear top bit, short of the last few, makes it fail |
| `FrameBytes.ParsedReads` | `internal/engine/websocket.go:264-314` | a parsed frame byte by byte: as many payload bytes as the header declares, from right behind it on, each XORed with data[start - 4 + i % 4] when the top bit of the second byte is set; opcode and fin from the first byte |
| `FrameBytes.ParsesExactlyWhen` | `internal/engine/websocket.go:264-302` | a buffer parses if and only if it reaches the end that its header declares, and that fits a signed 64-bit integer; the errors for short buffers in the same terms |
| `FrameBytes.OnlyPayloadChanges` | `internal/engine/websocket.go:302-307` | afterwards the buffer holds the payload where it was read from and is otherwise unchanged, byte by byte |
| `FrameBytes.HelloParses` | `internal/engine/websocket.go:264-314` | the unmasked text frame Hello of section 5.7 of RFC 6455 |
| `FrameBytes.MaskedHelloParses` | `internal/engine/websocket.go:264-314` | the masked text frame Hello of section 5.7 of RFC 6455 |
| `WebSocket.ReadLength` | `internal/engine/websocket.go:274-296` | reads the three length forms and where the payload starts, or rejects a truncated length |
| `WebSocket.UnmaskInPlace` | `internal/engine/websocket.go:303-307` | the XOR loop unmasks exactly the payload, by the four bytes before it, and leaves the rest of the buffer alone |
| `WebSocket.ParseFrame` | `internal/engine/websocket.go:264-314` | result and buffer are those of the specification; the frame reads byte by byte from the old buffer: opcode, fin, and each payload byte, XORed with its key byte when the mask bit is set |
| `Pipeline.ActionIsVerdict` | `internal/engine/engine.go:303-377` | the final action depends only on whether something blocks outside shadow mode, on the sum of all scores, and on whether something limits the rate |
| `Pipeline.OrderDoesNotMatter` | `internal/engine/engine.go:303-377` | permuted answers give the same final action, in shadow mode or not |
| `Pipeline.WeakensExactlyWhen` | `internal/engine/engine.go:303-429` | one more answer, anywhere, weakens the action if and only if nothing blocks outright and its score pulls the sum below the threshold reached |
| `Pipeline.NeverWeakens` | `internal/engine/engine.go:303-429` | one more answer with a non-negative score never weakens it |
| `Pipeline.NegativeScoreWeakens` | `internal/engine/engine.go:407-429` | a concrete case in which a negative score turns a block into an allow |
| `Pipeline.ShadowBlocksExactlyWhen` | `internal/engine/engine.go:362-371` | in shadow mode a request is blocked exactly when the scores reach the blocking threshold |
| `Pipeline.ContextGathers` | `internal/engine/engine.go:341-374` | the context gathers every decision asked for, in order, with the sum of scores, and is a known attack exactly when one of them blocks |
| `Pipeline.FinalDecisionIs` | `internal/engine/engine.go:303-429` | outside shadow mode the first block is final as it is; otherwise the sum of scores decides, with 90 and 50 as thresholds, then a rate-limiting decision, and the score is that sum, or zero for an allow |
| `Pipeline.BotScoreIs` | `internal/engine/engine.go:362-371` | the bot score ends as the score of the last decision asked for that blocks |
| `Engine.Engine.Inspect` | `internal/engine/engine.go:290-378` | the loop carries out the pipeline over the context object, skipping absent inspectors and errors and stopping at a block outside shadow mode |
| `Engine.Engine.DecideFinally` | `internal/engine/engine.go:407-429` | reads the context and applies the thresholds in order |
| `Engine.InspectorOrderDoesNotMatter` | `internal/engine/engine.go:303-377` | rearranging the inspectors never changes the final action of any request |
| `Baselines.StatisticsAreExact` | `internal/engine/shadow.go:71-94` | when every decision allows, count times mean is the sum of the rates and sumSquares the sum of squared deviations from the mean |
| `Baselines.SumSquaresGrows` | `internal/engine/shadow.go:80-90` | no decision lowers sumSquares |
| `Baselines.MeanIsBetween` | `internal/engine/shadow.go:71-94` | for any mix of decisions the mean, once set, lies between the least and the greatest rate, and the variance is never negative |
| `BaselineMix.StatisticsOfMix` | `internal/engine/shadow.go:71-94` | for any mix of decisions mean and sumSquares are those of one number per decision, its rate when it allows and the mean so far when it does not; the variance divides sumSquares by the count at the last that allowed |
| `BaselineMix.BaselineKeptExactlyWhen` | `internal/engine/shadow.go:145-164` | after a sweep a baseline is kept if and only if a decision was recorded for its path within the last three days |
| `Baselines.QualifiesMeans` | `internal/engine/shadow.go:96` | the integer test is exactly more than nine in ten of more than a hundred |
| `Baselines.EntryWasEarned` | `internal/engine/shadow.go:96-143` | a whitelist entry stems from a decision by which the path qualified and lasts seven days from then, never extended |
| `Baselines.WhitelistedExactlyWhen` | `internal/engine/shadow.go:96-164` | after a decision by which it qualifies, a path is whitelisted if and only if no entry of it expired before that decision without a sweep in between |
| `Baselines.PraisedButNotWhitelisted` | `internal/engine/shadow.go:96-164` | a week of allowed requests with the sweep every quarter of an hour, and one more a nanosecond later: the path qualifies and is not whitelisted |
| `Learning.PathBaseline.Observe` | `internal/engine/shadow.go:71-94` | the baseline object carries out the statistics step |
| `Learning.LearningEngine.Record` | `internal/engine/shadow.go:50-100` | records for one path, creating its baseline, and changes no other path |
| `Learning.LearningEngine.AutoWhitelist` | `internal/engine/shadow.go:129-143` | adds an entry of seven days only where there is none |
| `Learning.LearningEngine.IsWhitelisted` | `internal/engine/shadow.go:113-127` | an entry counts until it expires |
| `Learning.LearningEngine.Cleanup` | `internal/engine/shadow.go:145-164` | one tick drops exactly the expired entries and the baselines idle for three days |
| `GraphQLDepth.DepthIsMaximum` | `internal/engine/graphql.go:252-273` | the scan returns the largest excess of opening over closing braces of any substring |
| `GraphQLDepth.DepthOfBalanced` | `internal/engine/graphql.go:252-273` | if no prefix closes more than it opened, a prefix reaches that maximum |
| `GraphQLDepth.BalancedIsDocument` | `internal/engine/graphql.go:252-273` | every balanced text is a tree of blocks, and the scan returns how deep it nests |
| `GraphQLDepth.DepthIsNesting` | `internal/engine/graphql.go:252-273` | for every tree of blocks the scan of its text returns its nesting depth |
| `GraphQLDepth.SplittingDoesNotMatter` | `internal/engine/graphql.go:256-257` | scanning line by line is scanning the whole |
| `GraphQLDepth.SplitMeans` | `internal/engine/graphql.go:256` | the lines, joined by newlines, are the text, and none holds a newline |
| `GraphQLDepth.CountDepth` | `internal/engine/graphql.go:252-273` | the nested loops compute that scan |
| `Percent.PassShortens` | `internal/engine/parser.go:300-316` | a pass shortens the value by two per escape and changes nothing exactly when there is none |
| `Percent.FixpointReached` | `internal/engine/parser.go:296-322` | at most half the length of the value passes change it, and then none does |
| `Percent.DecodesExactlyWhen` | `internal/engine/parser.go:296-322` | the recursion returns if and only if the fixpoint has no percent sign; then it returns the fixpoint, nesting at most half the length plus one calls |
| `Percent.StuckNeverDecodes` | `internal/engine/parser.go:303-320` | it never returns on a value whose first percent sign starts no escape and never will |
| `Percent.EncodedTimesDecodes` | `internal/engine/parser.go:296-322` | a value without percent signs comes back however many times it was encoded |
| `Percent.PassUndoesEncode` | `internal/engine/parser.go:300-316` | one pass undoes one encoding in which at least the percent signs were escaped |
| `Percent.PassUndoesEncoding` | `internal/engine/parser.go:300-316` | one pass undoes every encoding of a value in which the percent signs at least are escaped, with digits small or capital |
| `Percent.PassOnThree` | `internal/engine/parser.go:300-316` | what a pass makes of a percent sign and any two bytes after it, in characters: two digits of either case, one digit and a byte lost, white space and a digit, or no escape |
| `Percent.DecodeOnce` | `internal/engine/parser.go:300-316` | the loop computes one pass |
| `Percent.DecodePathValue` | `internal/engine/parser.go:296-322` | the calls compute the decoding, up to the nesting allowed |
| `SessionIndex.IndexesAgree` | `internal/session/session.go:64-258` | after any run of creations, lookups, changes, deletions, sweeps and loads into an empty store, GetByIP returns each live session with the address exactly once, no list is empty, and every user entry leads to a live session of that user |
| `SessionIndex.CreateKeepsIndexExactlyWhen` | `internal/session/session.go:64-81` | creating keeps the index if and only if the generated id is not in use |
| `SessionIndex.PutKeepsIndexExactlyWhen` | `internal/session/session.go:106-117` | changing a session keeps the index if and only if its address stays |
| `SessionIndex.PutKeepsLookupExactlyWhen` | `internal/session/session.go:106-165` | changing a session keeps every lookup right if and only if its address stays |
| `SessionIndex.PutKeepsUsersExactlyWhen` | `internal/session/session.go:106-117` | changing a session keeps the user entries if and only if its user stays or that user's entry leads elsewhere |
| `SessionIndex.DeleteAllKeepsIndex` | `internal/session/session.go:225-258` | deleting any sessions leaves no dead session listed and no list empty |
| `SessionIndex.DeleteEachIsDeleteAll` | `internal/session/session.go:119-142` | in an indexed store, deletions that look at one list and one user each lose nothing by it |
| `SessionIndex.DeleteOneMore` | `internal/session/session.go:119-142` | in any state of the indexes, deletions one after another add up, in any order |
| `SessionIndex.LoadRestores` | `internal/session/session.go:199-223` | loading what was saved into a fresh store gives the same sessions and, for every address, the same lookup, whatever the order of the walk, and every named user an entry |
| `SessionIndex.LoadLooksUpExactlyWhen` | `internal/session/session.go:205-223` | loading into any store answers every lookup rightly if and only if no id the old index lists is among the loaded sessions |
| `SessionIndex.LoadKeepsIndexExactlyWhen` | `internal/session/session.go:205-223` | loading keeps both indexes if and only if the store held no sessions |
| `SessionIndex.ReloadFindsTwice` | `internal/session/session.go:205-223` | loading a store's own save into itself finds every session twice |
| `SessionStory.StoreFollowsStories` | `internal/session/session.go:64-258` | in every run a session is there, with its address, user, times and counts, exactly as its own creations, lookups, changes, deletion, sweeps and loads decide; a sweep takes it exactly when it was last seen longer ago than the time to live |
| `SessionStory.LookupIsRoster` | `internal/session/session.go:64-258` | in every admissible run GetByIP returns the sessions in the order in which they came to the address |
| `SessionStory.EntriesFollow` | `internal/session/session.go:119-258` | in every admissible run a user's entry leads to the last of its sessions loaded, until that one goes |
| `SessionStore.Store.Create` | `internal/session/session.go:64-81` | adds a session object and lists it; nothing else changes |
| `SessionStore.Store.GetOrCreate` | `internal/session/session.go:89-104` | touches a known session in place, or creates one |
| `SessionStore.Store.Update` | `internal/session/session.go:106-117` | changes one session object in place and no other |
| `SessionStore.Store.AddRiskScore` | `internal/session/session.go:167-187` | adds to one session's score, capped at 100 |
| `SessionStore.Store.Delete` | `internal/session/session.go:119-142` | removes the session from all three maps |
| `SessionStore.Store.Cleanup` | `internal/session/session.go:237-256` | deleting expired sessions one by one, in any order and any state of the indexes, takes away exactly them, their places in the lists of their addresses and the entries of their users |
| `SessionStore.Store.GetByIP` | `internal/session/session.go:153-165` | returns the live session objects listed for the address |
| `SessionStore.Store.Serialize` | `internal/session/session.go:199-203` | writes the sessions out and none of the indexes |
| `SessionStore.Store.Deserialize` | `internal/session/session.go:205-223` | replaces the sessions and adds to the indexes left from before |
| `Rules.DispatchIsLeast` | `internal/rules/rules.go:114-154` | every rule that is enabled and matches without error has a greater priority number than the decision, or the same one and no smaller id; without such a rule, or in a dry run, the decision is to allow |
| `Rules.LoadingOrderDoesNotMatter` | `internal/rules/rules.go:114-154` | rule sets without equal keys decide the same however they were ordered before loading |
| `RuleOrder.SortedIsUnique` | `internal/rules/rules.go:383-390` | without equal keys there is one sorted list of the same rules |
| `RuleOrder.NotAfterIsTotal` | `internal/rules/rules.go:383-390` | priority and then id order any two rules, equal only when both agree |
| `RuleOrder.NotAfterIsTransitive` | `internal/rules/rules.go:383-390` | that order is transitive |
| `RuleOrder.WithoutStaysSorted` | `internal/rules/rules.go:479-486` | filtering keeps the order and drops every rule of the id |
| `RuleOrder.Sort` | `internal/rules/rules.go:383-390` | yields a permutation by ascending priority number and, where that is equal, by ascending id |
| `RuleOrder.LessMeans` | `internal/rules/rules.go:388` | an id is smaller if and only if it is a proper prefix or has the smaller character where the two first differ |
| `RuleOrder.SortedMeans` | `internal/rules/rules.go:383-390` | being in order by the fields is being sorted by the comparison |
| `Rules.Engine.LoadRules` | `internal/rules/rules.go:363-381` | the list is in ascending order of priority number and id, and holds exactly the loaded rules |
| `Rules.Engine.AtomicSwap` | `internal/rules/rules.go:392-400` | the swapped-in list is sorted and holds exactly the new rules |
| `Rules.Engine.AddRule` | `internal/rules/rules.go:428-449` | refuses a known id and then a broken regular expression, changing nothing; otherwise exactly the rule is added, in order |
| `Rules.Engine.UpdateRule` | `internal/rules/rules.go:451-469` | whatever slot the index points to, the list stays sorted and at most that slot's rule is replaced |
| `Rules.Engine.ReorderRule` | `internal/rules/rules.go:491-504` | whatever slot the index points to, the list stays sorted and at most that slot's priority changes |
| `Rules.Engine.DeleteRule` | `internal/rules/rules.go:471-489` | every rule of the id goes, and the rest stays sorted without sorting again |
| `Rules.Engine.Inspect` | `internal/rules/rules.go:114-154` | the loop returns what dispatch over the list decides |

## Left out

- Limiter.RateLimiter: buckets are values in maps rather than shared pointers, and one reading of the clock serves a whole call; the retry and reset hints are not modelled.
- Limiter.RateLimiter.CheckSlidingWindow: where the program panics, reading the head of an empty list, the method returns that it failed; runs take limits of at least one.
- Limiter.RateLimiter.CheckLeakyBucket: for a key without a bucket the program divides by zero at rates above 10^9 and reads an empty queue at a burst below one; its precondition excludes making such a bucket.
- FloodDetector.DDoSProtection: slow-request and cache-busting detection, and the adaptive rate, are left out.
- Behavioral.VelocityWindow.Add: where the program panics, slicing past its array, the method returns that it failed.
- Behavioral.BehavioralEngine.CountRequest: reputation, blocking and path entropy are left out.
- Siem.NoLostEvent: exporters are handed batches, and whether they accept them is not modelled.
- Performance.PerformanceManager.Inspect: one caller's path with nobody in between; the interleavings are those of Gate and Breaker. Memory use and the answer are inputs.
- CredentialProtection.CredentialProtection: password-spray, leaked-credential, token and OAuth checks are left out; the spray thresholds are unreachable because nothing fills the user-name map.
- MlBreaker.AttemptsBound: the pauses between retries are not used, so the bound holds for any spacing and is reached where there is none.
- Sqli.Tokenize: works on the decoded characters, so bytes that are not valid UTF-8 are seen as replacement characters; the pattern lists and decoders before it are left out. What the Unicode tables are trusted for is stated in Sane.
- WebSocket.ParseFrame: returns the payload as a value; that it aliases the caller's buffer is stated only for the moment of return.
- Percent.DecodePathValue: takes the nesting it may use as a parameter, since the recursion may not end; DecodesExactlyWhen says what any amount of it yields.
- Engine.Engine.Inspect: inspectors are functions of the request; confidence, explanations and logging do not touch the action and are left out, and sums are exact where the program's round.
- Learning.LearningEngine: the standard deviation is kept as its square; method and status tallies are left out.
- SessionStore.Store: Get and the following touch are one step; generated ids, the walk order of maps and JSON are parameters or identities; tags, metadata and decision lists are left out.
- Rules.Engine: the index by id is its set of keys; the pointers it holds into the list, which sorting and deleting leave behind, appear as the slot that UpdateRule and ReorderRule are given. Evaluation of one rule is an oracle.
- RuleOrder.Sort: any sorted permutation; the library's algorithm and what it does with equal keys are not modelled.
- Regular-expression detectors, HTTP plumbing, TLS and token checks, exporters' network code, configuration, the admin API, the dashboard and the ML service itself.
- Tenants, billing, compliance tables and the audit chain, which never accepts an entry.
