# Hamburger: verified models of its stateful parts

Hamburger is an HTTP gateway. This project models the parts of it that keep state across
requests (the flow-control limiters and their controller, the ordered dictionary, the bounded
queue, the bucketed request counter, the round-robin balancer, the circuit breaker, the flow
recorder and the running average of the gzip statistics) and proves what they guarantee over
whole runs.

How the model is built:

- **Time** is an integer number of nanoseconds, passed to each call; a call takes one clock reading.
  The counters of `time.Time` are taken as unbounded, and readings of one run never decrease.
- **Each stretch of code under one mutex is one atomic step.** Where the source works without a
  lock (the breaker, the balancer cache) or gives it up in the middle (the queue's blocking calls,
  a request between two limiters), the model is a step system in which any caller may move next.
- **Objects the source updates in place are classes.** Every method is proved against a function
  on values (`Step`, `Charge`, `Sweep`, `Check`, `Assign`, `Query`, `Add`, ...); the
  statements about whole runs are lemmas about those functions.
- **Floating point**: the leaky bucket's floats are real numbers, extended by the two infinities
  and NaN, because a window of zero makes the source divide by zero.

| file | models |
|---|---|
| `history.dfy` | histories of clock readings and intervals |
| `sliding_window.dfy`, `fixed_window.dfy`, `leaky_bucket.dfy` | the three limiters |
| `strategies.dfy`, `rate_limiter.dfy` | the per-key table, by value and as an object |
| `eviction.dfy`, `composition.dfy` | what eviction and several rules at once amount to |
| `arithmetic.dfy`, `options.dfy`, `texts.dfy` | quotients; optional values; the string functions of Go's library |
| `decimal.dfy`, `durations.dfy` | printing and parsing numbers; `parseDuration` |
| `requests.dfy` | which rules match a request, its client and its keys |
| `rule_charging.dfy`, `flow_control.dfy` | the controller, by value and as an object |
| `concurrent_requests.dfy` | requests in flight together, and the janitor |
| `ordered_map.dfy` | the ordered dictionary |
| `queue.dfy` | the bounded queue and its threads |
| `calendar.dfy`, `sequence.dfy` | table names and the bucketed counter |
| `balancer.dfy`, `balancer_races.dfy` | the balancer cache and round robin; concurrent first calls |
| `breaker.dfy` | the breaker's concurrent callers |
| `flow_record.dfy` | the flow recorder's buffer |
| `running_average.dfy` | the gzip statistics' average |

Where the code falls short of what its design suggests, the model keeps the code and states when
it does meet the property:

- A leaky rule with a negative window ("-5s" parses) never drains, and then evicting idle keys is
  visible to clients; `Eviction.EvictionInvisibleIff` gives the exact condition.
- Table names resolve minutes, so buckets shorter than a minute share tables and are counted more
  than once; `Sequence.AgreesIffAMinute`.
- Producers and consumers of the queue share one condition variable, and a Signal can wake the
  wrong kind. Wake-ups are never lost exactly when only one kind blocks or the capacity is zero
  (`Queues.NeverStuckIff`).
- The breaker's check and push are separate steps. The error limit is kept exactly with one caller
  at a time or with channels no larger than the limit (`Breaker.LimitKeptIff`; how far it is overshot
  otherwise is `Breaker.NeverOverIff`), and no Set blocks for ever exactly when both capacities
  leave room for all callers (`Breaker.NeverBlocksIff`). With the bucket size unset, `add` uses 10
  but `Reset` uses 0 (`Breaker.UnsetBucketBlocks`).
- A fixed window admits twice its limit around a window's end. In an interval of any length but a
  single instant the limit is kept only by a limit of zero (`FixedWindow.LimitKeptIff`). Because a
  window still holds at its very last instant, limit * (ceil(d / window) + 1) is not always
  attained; `FixedWindow.ExactBound` is the bound that is.
- `GetBalancer` looks up and stores in two steps, so concurrent first callers can each get a
  balancer of their own; callers share one exactly when there is one at a time
  (`BalancerRaces.SharedIff`).
- Durations beyond 64 bits wrap silently (`Durations.ParseUndoesPrintS` and its companions).

## Model

| member | source | states |
|---|---|---|
| `SlidingWindow.SlidingWindowLimiter.Allow` | gateway/flow_control/sliding_window.go:26-51 | the loop over the records, the reslice and the append have the effect and the answer of `Step` on the object's value |
| `SlidingWindow.LiveRecords` | gateway/flow_control/sliding_window.go:33-45 | what a call keeps after expiring a prefix is exactly those of all earlier admissions that lie in its window (now - window, now], in order, whatever earlier calls dropped |
| `SlidingWindow.RecordsAreRecentAdmissions` | gateway/flow_control/sliding_window.go:33-49 | after every call `records` is the whole admission history filtered by that call's cutoff |
| `SlidingWindow.RefusedIffWindowFull` | gateway/flow_control/sliding_window.go:46-50 | a call is refused if and only if its window already holds `limit` admissions |
| `SlidingWindow.WindowBound` | gateway/flow_control/sliding_window.go:26-51 | no window (t - window, t], wherever it ends, holds more than `limit` admissions |
| `SlidingWindow.GreedyStaysAhead` | gateway/flow_control/sliding_window.go:26-51 | against every other choice of arrivals that keeps all windows within the limit, the limiter has admitted at least as many, the k-th no later than the k-th chosen (the arrivals are arbitrary, so this is so in every prefix) |
| `FixedWindow.FixedWindowLimiter.Allow` | gateway/flow_control/fixed_window.go:27-42 | reset, count and answer are those of `Step` on the object's value |
| `FixedWindow.RefusedIffWindowFull` | gateway/flow_control/fixed_window.go:32-41 | a call is refused if and only if its window already holds `limit` admissions; the window opens at creation and then at each first call later than its opening + window, whatever was refused; with a negative window every call opens one |
| `FixedWindow.EveryRunKeeps` | gateway/flow_control/fixed_window.go:27-42 | the invariant behind the bounds: admissions since any instant are those of the current window plus at most `limit` for each window that can have begun before it |
| `FixedWindow.ExactBound` | gateway/flow_control/fixed_window.go:27-42 | a closed interval of length d holds at most limit * (ceil(d / (window + 1)) + 1) admissions, in whole nanoseconds |
| `FixedWindow.BoundAttained` | gateway/flow_control/fixed_window.go:27-42 | for every limit, window and d some run attains exactly that |
| `FixedWindow.IntervalBound` | gateway/flow_control/fixed_window.go:27-42 | hence at most limit * (ceil(d / window) + 1) |
| `FixedWindow.IntervalBoundAttainedIff` | gateway/flow_control/fixed_window.go:27-42 | which is attained if and only if the limit is zero or the two numbers of windows agree |
| `FixedWindow.WindowsIsCeiling` | gateway/flow_control/fixed_window.go:31-34 | the number of windows used in those bounds is the quotient rounded up |
| `FixedWindow.TwiceTheLimit` | gateway/flow_control/fixed_window.go:27-42 | at most twice the limit in one window length |
| `FixedWindow.TwiceTheLimitAttained` | gateway/flow_control/fixed_window.go:27-42 | for every limit and window some run is admitted 2 * limit times within one nanosecond |
| `FixedWindow.LimitKeptIff` | gateway/flow_control/fixed_window.go:27-42 | no interval of length d ever holds more than `limit` admissions if and only if d or the limit is zero |
| `LeakyBucket.LeakyBucketLimiter.Allow` | gateway/flow_control/leaky_bucket.go:29-51 | leak, clamp and admission are those of `Step` on the object's value |
| `LeakyBucket.PeakIsMaximum` | gateway/flow_control/leaky_bucket.go:29-51 | the closed form's `Peak` is the maximum of zero and of every suffix's length minus its leakage: a bound for all, attained by one |
| `LeakyBucket.WaterIsPeak` | gateway/flow_control/leaky_bucket.go:29-51 | after any run `water` equals that maximum over the suffixes of the admitted requests |
| `LeakyBucket.RefusedIffIntervalOverfull` | gateway/flow_control/leaky_bucket.go:46-50 | a request at t is refused exactly when, for some s, admitting it would put more than capacity + rate * (t - s) admissions into [s, t] |
| `LeakyBucket.IntervalBound` | gateway/flow_control/leaky_bucket.go:29-51 | every closed interval keeps that bound |
| `LeakyBucket.LeakIsRate` | gateway/flow_control/leaky_bucket.go:20-42 | the leakage in these statements is limit / window for each nanosecond |
| `LeakyBucket.RefusedOtherwise` | gateway/flow_control/leaky_bucket.go:36-50 | what is refused with a limit or window that is not positive: everything, or what comes after `limit` admissions at the same instant (window zero) or ever (window negative) |
| `RateLimiters.RateLimiter.Allow` | gateway/flow_control/flow_control.go:271-306 | strategies are created for an unknown key, charged in order and up to the first refusal; the table changes as by `Charge`, and no other key's strategies change although all are references |
| `RateLimiters.RateLimiter.Cleanup` | gateway/flow_control/flow_control.go:326-352 | exactly the keys idle for longer than the longest window are dropped, in whatever order the map is walked |
| `RateLimiters.NewStrategy` | gateway/flow_control/flow_control.go:280-292 | a new limiter of the rule's mode, sliding by default, by value as `Fresh` gives it |
| `RateLimiters.AllowAll` | gateway/flow_control/flow_control.go:299-305 | charging a list in place is `StepAll` on its values |
| `RateLimiters.LatestUse` | gateway/flow_control/flow_control.go:340-346 | the latest access over the strategies, from the zero time up |
| `Strategies.StepAllAt` | gateway/flow_control/flow_control.go:299-305 | a list admits exactly when each of its strategies would, and then all were charged |
| `Strategies.MaxWindowIsMax` | gateway/flow_control/flow_control.go:332-337 | the sweep's threshold bounds every rule's window, and is one of them or zero |
| `Eviction.IdleIsFresh` | gateway/flow_control/flow_control.go:340-350 | a strategy idle for longer than its window admits, and is afterwards equal to one created at that moment |
| `Eviction.IdleKeyIsFresh` | gateway/flow_control/flow_control.go:348-350 | an idle key's whole list answers, and then looks, as fresh ones would; none is skipped by the short circuit |
| `Eviction.SweptAndUnswept` | gateway/flow_control/flow_control.go:271-352 | bisimulation: the table with cleanups is the one without minus idle keys, after every run |
| `Eviction.BlockedRunsRefuse` | gateway/flow_control/flow_control.go:299-303 | with a rule whose Requests is not positive every answer is no |
| `Eviction.SweptStormAdmits` | gateway/flow_control/flow_control.go:326-352 | a key swept after every spaced request is admitted every time |
| `Eviction.UnsweptFills` | gateway/flow_control/leaky_bucket.go:36-49 | without sweeps a bucket with a negative window counts every request of a run that is admitted in full, which has at most Requests of them |
| `Eviction.EvictionInvisibleIff` | gateway/flow_control/flow_control.go:271-352 | for all runs and all placements of cleanups the answers are those of the run without cleanups, if and only if no leaky rule has a negative window or some rule has no positive Requests |
| `Eviction.RememberedIff` | gateway/flow_control/flow_control.go:326-352 | in every run a key is in the table if and only if it was requested and no cleanup since its last request came later than the longest window |
| `Composition.RunsCompose` | gateway/flow_control/flow_control.go:299-305 | the first strategy sees every call of its key and the rest see exactly what it admits |
| `Composition.EachStrategyAdmitted` | gateway/flow_control/flow_control.go:299-305 | the i-th strategy runs on exactly the calls that all the ones before it admit, and what the limiter admits is a subsequence of what it admits of them |
| `Composition.KeysAreIndependent` | gateway/flow_control/flow_control.go:276-305 | in every run, cleanups and all, a key's strategies and grants depend on its own calls and the cleanups alone, however other keys' calls are interleaved |
| `Composition.OwnCallsDecide` | gateway/flow_control/flow_control.go:276-305 | where eviction is invisible they depend on its own calls alone: the grants are what fresh strategies admit of them |
| `Composition.EveryRuleHoldsAtOnce` | gateway/flow_control/flow_control.go:271-352 | in every run, with evictions, what a key is granted keeps the bound of every configured rule at once (fixed and leaky bounds are about positive windows) |
| `Durations.ParseSeconds` | gateway/flow_control/flow_control.go:124-129 | every text ending in "s" is seconds if what stands before is a number, and else an error, whatever the unit |
| `Durations.ParseMinutes` | gateway/flow_control/flow_control.go:130-136 | every text ending in "min" likewise |
| `Durations.ParseBare` | gateway/flow_control/flow_control.go:120-147 | every other text follows the unit if it is a number, and is else an error |
| `Durations.UnitsAre` | gateway/flow_control/flow_control.go:124-147 | seconds and minutes are 64-bit products with 10^9 and 60 * 10^9 nanoseconds |
| `Durations.ParseUndoesPrintS` | gateway/flow_control/flow_control.go:124-129 | "<n>s" parses to n seconds, whatever the unit, if and only if that fits in 64 bits |
| `Durations.ParseUndoesPrintMin` | gateway/flow_control/flow_control.go:130-136 | "<n>min" parses to n minutes, whatever the unit, if and only if that fits in 64 bits |
| `Durations.ParseUndoesPrintBare` | gateway/flow_control/flow_control.go:140-147 | a bare number follows the unit with the same exact range, and any third unit is an error |
| `Durations.DistinctDurations` | gateway/flow_control/flow_control.go:120-148 | in range, distinct numbers give distinct durations in each form |
| `Decimal.AtoiOfItoa` | gateway/flow_control/flow_control.go:121 | parsing a printed number gives it back exactly on the 64-bit range |
| `Decimal.AtoiForms` | gateway/flow_control/flow_control.go:121 | a plus and leading zeros change nothing, a minus negates |
| `Decimal.AtoiRejects` | gateway/flow_control/flow_control.go:121 | anything but digits with at most a sign before them is no number |
| `Decimal.DigitAt` | gateway/balancer/balance.go:42 | a printed number has its decimal digits, without leading zeros |
| `FlowControl.GetSortedRules` | gateway/flow_control/flow_control.go:193-207 | the exchange sort returns a permutation of the rules sorted by priority; a list already sorted stays as it is, and of the rules with the smallest number the one listed first goes first |
| `FlowControl.CreateRateLimiter` | gateway/flow_control/flow_control.go:96-117 | exactly the limits whose duration parses become rules, each with its requests, mode and duration at its place |
| `FlowControl.ParseAppend` | gateway/flow_control/flow_control.go:102-114 | the rules of two lists of limits joined are those of the one and then those of the other |
| `FlowControl.ParseOne` | gateway/flow_control/flow_control.go:103-113 | one limit gives one rule if its window parses and none otherwise |
| `FlowControl.FlowController.constructor` | gateway/flow_control/flow_control.go:72-93 | a limiter for each name of an enabled rule and no other, new, with the limits of the last enabled rule of that name, and a global one with the global limit; none of them when disabled |
| `FlowControl.NamedIs` | gateway/flow_control/flow_control.go:85-89 | the same of the table of names alone |
| `FlowControl.FlowController.CheckRequest` | gateway/flow_control/flow_control.go:151-190 | verdict, all limiters afterwards and the log of charges are those of `Check` over a priority-sorted permutation of the rules; no two limiters share an object |
| `Requests.ForwardedClient` | gateway/flow_control/flow_control.go:249-254 | a forwarded request's client is the first address of the list, whatever blanks surround it and whatever follows |
| `Requests.RealClient` | gateway/flow_control/flow_control.go:257-259 | X-Real-IP decides when there is no forwarded list |
| `Requests.PeerClient` | gateway/flow_control/flow_control.go:262-266 | and else the peer's host without its port |
| `Texts.ContainsIff` | gateway/flow_control/flow_control.go:213-216 | a text contains exactly its slices |
| `Requests.MatchesIff` | gateway/flow_control/flow_control.go:210-223 | a host or header rule matches when its value is a slice of that text, an ip rule when it is the client, any other type never |
| `Requests.KeysSeparateClients` | gateway/flow_control/flow_control.go:226-245 | two requests are charged to the same budget of a rule exactly when they agree in the host, header or client address it matches on; the global budget goes by client address |
| `Requests.KeysSeparateRules` | gateway/flow_control/flow_control.go:226-239 | without colons in names and header keys, two rules' keys are equal exactly when the rules agree in name, type and header key and the requests in what they look at |
| `RuleCharging.ProceedFollows` | gateway/flow_control/flow_control.go:157-187 | after every step the request's log holds one admitted charge for each applicable rule passed, in order and under its own key, and at the end the refusal or the global charge |
| `RuleCharging.CheckExplains` | gateway/flow_control/flow_control.go:157-187 | that log accounts for every change to the limiters: each is its old self charged by its own entries, with the recorded answers |
| `RuleCharging.CheckReadings` | gateway/flow_control/flow_control.go:157-187 | each charge is made at its own rule's turn, or after the loop, with that turn's clock reading |
| `RuleCharging.ChargingOrder` | gateway/flow_control/flow_control.go:151-190 | for any list of rules, repeated names included: a denial by a rule means that all applicable rules of smaller number were charged and admitted, once for each time they are listed, and that none of larger number, nor the global limiter, was charged; otherwise all were, and the verdict is the global limiter's |
| `RuleCharging.LimitersTell` | gateway/flow_control/flow_control.go:151-190 | with distinct names the same can be read off the limiters: which were charged once and admitted, which refused, and which are as they were |
| `ConcurrentRequests.OrderInEveryInterleaving` | gateway/flow_control/flow_control.go:151-190 | the charging order holds of each request's own charges however requests and cleanups interleave between the limiters |
| `ConcurrentRequests.BoundsInEveryInterleaving` | gateway/flow_control/flow_control.go:151-352 | in every such interleaving each rule's bound holds on what its limiter admitted under any key, all requests taken together |
| `ConcurrentRequests.UndisturbedCheck` | gateway/flow_control/flow_control.go:151-190 | a request with nothing in between keeps the charging order, and its charges account for all changes |
| `OrderedMaps.OrderedMap.Set` | internal/structure/ordered_map.go:56-73 | the pointer structure stays consistent and its sequence of pairs changes as by `Assign` |
| `OrderedMaps.OrderedMap.Delete` | internal/structure/ordered_map.go:111-121 | the key's pair is taken out of the sequence, the rest keep their order; the answer says whether it was there |
| `OrderedMaps.OrderedMap.AppendToTail` | internal/structure/ordered_map.go:213-224 | the links afterwards run through the old entries and then the new one, both ways |
| `OrderedMaps.OrderedMap.RemoveFromList` | internal/structure/ordered_map.go:227-244 | every link, `head` and `tail` lead past the removed entry, and its own links are cleared |
| `OrderedMaps.OrderedMap.Get` | internal/structure/ordered_map.go:43-53 | the value paired with the key, or nothing exactly when the key is absent |
| `OrderedMaps.OrderedMap.Len` | internal/structure/ordered_map.go:36-40 | the map's size is the list's length |
| `OrderedMaps.OrderedMap.List` | internal/structure/ordered_map.go:76-90 | the walk ends and returns the sequence |
| `OrderedMaps.OrderedMap.Keys` | internal/structure/ordered_map.go:124-135 | the keys of the sequence in order |
| `OrderedMaps.OrderedMap.Values` | internal/structure/ordered_map.go:138-149 | the values of the sequence in order |
| `OrderedMaps.OrderedMap.Find` | internal/structure/ordered_map.go:93-108 | the first pair that satisfies the predicate, or nothing when none does |
| `OrderedMaps.OrderedMap.Front` | internal/structure/ordered_map.go:173-184 | the first pair |
| `OrderedMaps.OrderedMap.Back` | internal/structure/ordered_map.go:187-198 | the last pair |
| `OrderedMaps.OrderedMap.Clear` | internal/structure/ordered_map.go:152-159 | the empty sequence |
| `OrderedMaps.AssignPresent` | internal/structure/ordered_map.go:60-62 | setting a present key keeps its position and changes only its value |
| `OrderedMaps.AssignAbsent` | internal/structure/ordered_map.go:63-72 | setting a new key appends |
| `OrderedMaps.WithoutPresent` | internal/structure/ordered_map.go:115-118 | deleting takes out exactly that position |
| `OrderedMaps.InsertionOrder` | internal/structure/ordered_map.go:20-26 | for every run of operations: a key is present if and only if some insertion of it was never undone, keys stand in the order of those insertions, and each carries its latest value |
| `Queues.Queue.Enqueue` | internal/structure/queue.go:34-51 | appends and signals, or refuses when closed or full: the whole state, parked and woken threads included, changes as by the thread system's step |
| `Queues.Queue.Dequeue` | internal/structure/queue.go:82-94 | takes the oldest item, also after Close, and signals, as by that step |
| `Queues.Queue.EnqueueBlocking` | internal/structure/queue.go:53-79 | the call up to its return or its wait, as by that step |
| `Queues.Queue.DequeueBlocking` | internal/structure/queue.go:96-117 | the call up to its return or its wait, as by that step |
| `Queues.Queue.Resume` | internal/structure/queue.go:65-79 | a woken thread's next turn of its loop, as by that step |
| `Queues.PutDoes` | internal/structure/queue.go:34-79 | of all calls that put, exactly those that find the queue open and not full get their item in, at the end, and wake one parked thread |
| `Queues.TakeDoes` | internal/structure/queue.go:82-117 | a call that takes gets the oldest item, closed or not, and wakes one parked thread |
| `Queues.WaitDoes` | internal/structure/queue.go:65-106 | a blocking call waits exactly when the queue is open, full (or empty) and its deadline has not passed; else it is over |
| `Queues.OthersUndisturbed` | internal/structure/queue.go:34-117 | no other thread changes its place, but for the one a Signal picks |
| `Queues.Queue.Close` | internal/structure/queue.go:146-151 | closed, items kept, every parked thread woken and none left parked |
| `Queues.Queue.Clear` | internal/structure/queue.go:161-166 | emptied, closed or not as before, every parked thread woken |
| `Queues.ClearDoes` | internal/structure/queue.go:161-166 | the buffer is empty, its items have left as cleared, and nothing is accepted |
| `Queues.StepSafe` | internal/structure/queue.go:34-166 | every step of every thread keeps the safety invariant |
| `Queues.EveryInterleavingIsSafe` | internal/structure/queue.go:34-166 | in every interleaving of blocking and other calls: size within capacity; the accepted items are, in order and each once, those dequeued or cleared and then those queued; no thread is parked once closed |
| `Queues.HistoryGrows` | internal/structure/queue.go:34-166 | what was accepted or has left is never rewritten |
| `Queues.NothingAfterClose` | internal/structure/queue.go:146-151 | of whole runs: from any Close on nothing is accepted and no thread is parked |
| `Queues.ClosedIffClose` | internal/structure/queue.go:146-151 | the queue is closed if and only if the run so far holds a Close |
| `Queues.ClosedForGood` | internal/structure/queue.go:65-74 | after Close nothing is accepted and no loop guard lets a thread wait again, in any continuation |
| `Queues.ClosedCallsReturn` | internal/structure/queue.go:65-111 | a thread inside a blocking call when the queue is closed leaves it at its next step |
| `Queues.SharedSignalGetsLost` | internal/structure/queue.go:65-79 | for every positive capacity, a run that wakes the longest-waiting thread each time and leaves a producer parked beside an empty buffer with no thread left to run |
| `Queues.OneKindNeverStuck` | internal/structure/queue.go:53-117 | while only producers or only consumers use blocking calls, no reachable state is stuck like that |
| `Queues.NeverStuckIff` | internal/structure/queue.go:53-117 | no possible run gets stuck if and only if the capacity is zero, producers never block or consumers never block |
| `Calendar.CivilDateIs` | gateway/stat/sequence/sequence.go:131-136 | the n-th day has the date that the closed form of the Gregorian calendar gives |
| `Calendar.StampReads` | gateway/stat/sequence/sequence.go:131-136 | a date and time of day is printed as its year, month, day, an underscore, hour and minute, with fixed numbers of digits |
| `Calendar.StampInjective` | gateway/stat/sequence/sequence.go:131-136 | no two minutes, before year 1 or after, are printed alike in the layout 20060102_1504 |
| `Sequence.BucketStartIsTruncation` | gateway/stat/sequence/sequence.go:127-129 | the bucket start is t minus its remainder by the interval |
| `Sequence.TablesAreDistinct` | gateway/stat/sequence/sequence.go:133-136 | with intervals of a minute or more, distinct buckets get distinct table names |
| `Sequence.TableNameShows` | gateway/stat/sequence/sequence.go:133-136 | a table carries the local date and time of its bucket, down to the minute |
| `Sequence.UpsertSum` | gateway/stat/sequence/sequence.go:76-79 | an upsert adds one to the sums that match its row, and to no other |
| `Sequence.UpsertKeepsIndex` | gateway/stat/sequence/sequence.go:76-79 | no table ever has two rows of one (domain, path, method) |
| `Sequence.SequenceManager.RecordRequest` | gateway/stat/sequence/sequence.go:56-83 | after every record, each table's sum for every predicate on rows is the number of recorded requests with that table name and predicate |
| `Sequence.SequenceManager.QueryRequests` | gateway/stat/sequence/sequence.go:87-124 | the walk ends; it fails exactly when some bucket between the two has a table with an error; and else, when a bucket is at least a minute, the total is the number of recorded requests between the two buckets that agree in each of domain, path and method the query does not leave empty, in whichever order the ends are given |
| `Sequence.OneMoreRecorded` | gateway/stat/sequence/sequence.go:99-123 | one more recorded request raises a query's total by one exactly if its bucket lies between those of the ends and it agrees in every field not left empty |
| `Sequence.MatchingSelects` | gateway/stat/sequence/sequence.go:103-111 | the WHERE clauses select just those |
| `Sequence.QueryCounts` | gateway/stat/sequence/sequence.go:99-123 | the same for the walk from any bucket |
| `Sequence.QueryFailsIff` | gateway/stat/sequence/sequence.go:113-120 | missing tables are skipped: a query fails exactly on an error of an existing table among its buckets |
| `Sequence.AgreesIffAMinute` | gateway/stat/sequence/sequence.go:87-136 | the index agrees with the history for every history and query if and only if the interval is at least a minute |
| `Balancer.KeyInjective` | gateway/balancer/balance.go:40-43 | no two port lists have the same cache key |
| `Balancer.PrintKey` | gateway/balancer/balance.go:40-43 | the loop prints that key |
| `Balancer.LoadBalancer.PickOne` | gateway/balancer/balance.go:63-71 | the counter advances modulo 2^64 and picks its remainder; a single port is served without counting |
| `Balancer.PicksGoRound` | gateway/balancer/balance.go:63-71 | the picks go round, each one place further than the one before |
| `Balancer.BalancerCache.GetBalancer` | gateway/balancer/balance.go:35-60 | after any history of calls the balancer returned serves exactly the given ports, is the one served before for them, and no other list gets it |
| `Balancer.BalancerCache.PickOneRoundRobin` | gateway/balancer/balance.go:85-91 | a member of the given ports chosen by their own counter; no other list's counter moves; 0 for an empty list |
| `Balancer.RoundRobinIsFair` | gateway/balancer/balance.go:63-71 | in m consecutive picks without a wrap, each of n indices is chosen floor(m/n) or ceil(m/n) times |
| `Balancer.FairAcrossTheWrap` | gateway/balancer/balance.go:69 | across one wrap of the counter the counts of two indices differ by at most 2 |
| `BalancerRaces.ServesOwnPorts` | gateway/balancer/balance.go:35-60 | in every interleaving of lookups and stores each call returns a balancer made for exactly its ports |
| `BalancerRaces.AtMostOneEach` | gateway/balancer/balance.go:45-57 | with n callers at a time no list ever gets more than n balancers |
| `BalancerRaces.SharedIff` | gateway/balancer/balance.go:45-57 | no list ever gets two balancers if and only if there is at most one caller at a time |
| `BalancerRaces.SettledForGood` | gateway/balancer/balance.go:45-57 | once a list is cached and nobody is about to store for it, all later calls for it return that one balancer |
| `Breaker.StepBounded` | gateway/breaker/breaker.go:52-95 | entries and outstanding claims of every channel stay within errorConn + N - 1 in every step |
| `Breaker.OvershootBound` | gateway/breaker/breaker.go:65-76 | with N concurrent callers no channel ever holds more than errorConn + N - 1 entries, in any interleaving with Get and Reset |
| `Breaker.OvershootAttained` | gateway/breaker/breaker.go:70-73 | for every configuration some run reaches that number, or the larger capacity if that is less |
| `Breaker.NeverOverIff` | gateway/breaker/breaker.go:65-95 | that is the least bound on the entries of any channel in all interleavings |
| `Breaker.LimitKeptIff` | gateway/breaker/breaker.go:65-95 | the error limit is kept in all interleavings if and only if there is one caller or neither capacity exceeds it |
| `Breaker.NeverBlocksIff` | gateway/breaker/breaker.go:65-95 | no Set ever blocks in any interleaving if and only if both initial and reset capacity are at least errorConn + N - 1 |
| `Breaker.UnsetBucketBlocks` | gateway/breaker/breaker.go:78-95 | with the bucket size unset the reset capacity is 0 and some Set blocks |
| `Breaker.ConfiguredIs` | gateway/breaker/breaker.go:78-95 | set values are used as they are; unset, the limit is 5 and the first channel's size 10 |
| `Breaker.BrokenUntilReplaced` | gateway/breaker/breaker.go:52-76 | once the limit is reached, and until the bucket or its channel is replaced, every Get that starts refuses and every Set that starts pushes nothing, in all interleavings |
| `Breaker.TickMends` | gateway/breaker/breaker.go:86-95 | a tick leaves the domain's channel empty, so that it is no longer broken |
| `FlowRecord.FlowRecorder.AddRecord` | gateway/flow_control/flow_record.go:160-170 | the record joins the live buffer, in place or in a larger array; no batch taken before changes; a flush is started from 100 records on |
| `FlowRecord.FlowRecorder.DoFlush` | gateway/flow_control/flow_record.go:183-195 | the buffer is copied to a new array and truncated; batches taken before keep their contents although the backing array is reused |
| `FlowRecord.NothingLost` | gateway/flow_control/flow_record.go:160-195 | for every interleaving, the batches in lock order and then the live buffer are exactly the records added |
| `RunningAverage.Stats.UpdateStats` | gateway/modifier/gzip_optimized.go:367-378 | the fields hold the truncated average of all durations so far |
| `RunningAverage.Drift` | gateway/modifier/gzip_optimized.go:375-377 | 0 <= S - n * avg <= n * (n - 1) / 2 |
| `RunningAverage.DriftAttained` | gateway/modifier/gzip_optimized.go:375-377 | for every n some durations attain that bound |
| `RunningAverage.AverageWithin` | gateway/modifier/gzip_optimized.go:367-378 | the average lies between the smallest and the largest duration |

## Left out

- RateLimiters.RateLimiter.Allow: rules of mode "token" are left out, because `TokenBucketLimiter` delegates to golang.org/x/time/rate, which is not part of this model.
- RateLimiters.NewStrategy: the same.
- FlowControl.CreateRateLimiter: the same; the token mode's limits are excluded.
- FlowControl.FlowController.constructor: the same.
- FlowControl.FlowController.CheckRequest: one request at a time; requests in flight together are the step system of `ConcurrentRequests`.
- Balancer.BalancerCache.GetBalancer: one call at a time; concurrent calls are the step system of `BalancerRaces`.
- Sequence.SequenceManager.QueryRequests: an interval of zero or less, for which the source's loop would not end.
- Rounding of the leaky bucket's floats: reals are exact, so equalities at the very edge of the capacity may differ in the program.
- Several clock readings within one limiter call: `FixedWindowLimiter.Allow` reads the clock three times; here it reads it once, and the constructor and first call of a new key share one reading.
- Saturation of `time.Time.Sub` at about 292 years.
- The ticker loops themselves: a tick is a `RateLimiter.Cleanup` of each limiter, at any time.
- Header name canonicalisation, and white space beyond ASCII in `TrimSpace`.
- Deadlines of the blocking queue calls: whether one has passed is a free choice at each step.
- Fairness of the scheduler and liveness of the queue beyond lost wake-ups.
- `ForEach`, `Contains` and `IsEmpty` of the ordered dictionary: a callback, and one-line wrappers.
- SQL and GORM: the database is a map from table name to rows. Errors are a free choice of existing tables; a SUM over no matching row, which the driver reports as an error when scanning NULL, is one of them.
- Zones that change during the run, and overflow of the 64-bit request counts.
- The random balancers `PickOne` and `PickOneAddrRoundRobin` of `balance.go`.
- Breaker domains other than one: they share no bucket. Memory-model effects of the unsynchronised bucket field are those of interleaved single accesses.
- Overflow of the running average's 64-bit product.
- Storing the recorder's batches, and everything else that is I/O: servers, TLS, proxies, configuration loading, logging, Mongo, geo lookup, error pages, the gzip cache.
- `Set`, `Map` and `MapStruct` (plain maps behind a lock), the header modifiers (rewriting of header fields), and `Ruler.Parse` and `MatchAPIRule` (branching over the configured rules).
