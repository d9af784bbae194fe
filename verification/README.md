# GateFlow: a Dafny model of its state machines

GateFlow is an API gateway whose instances share a Redis server and a database. This project
models the parts of it where correctness depends on whole runs rather than on one call, and
proves what those runs keep.

- **Redis scripts.** `TokenBucket`, `CircuitBreaker` and `MonthlyQuota` each hold a class whose one
  field is the Redis key, with its fields and its expiry deadline, and one method per script. The
  clock is a parameter. A pure step function specifies each method, and the theorems are about
  sequences of steps. `Admission` compares the bucket with every other admission policy.
- **One request.** `Proxy` follows a request through admission, quota, retries, fallback and refund
  over an arbitrary sequence of downstream outcomes. Its effects go to a log, and an independent
  audit of that log is what the contract speaks of. The quota steps of that log are exactly the
  shapes `MonthlyQuota` assumes of the requests it interleaves; `Billing` puts the two together. `Recovery`
  is the requests of several gateways, attempt by attempt, on the breaker of their target.
- **Anomaly detection.** `Anomaly` is the detector with its windows; `Statistics` holds the exact
  statistics it needs: sorting, ranks, and Samuelson's inequality.
- **Authentication.** `TtlCache` is the cache in memory, `KeyStore` the rows of the database and their
  copies in Redis. `Auth` is a machine of several instances, each with two caches, over that store:
  logins read the row, fall back to the copy and write it back, while keys and tiers are saved and
  deleted and requests are counted part by part. Anything may happen between two awaits, every access
  may fail, and every operation may stop half-way. `Staleness`, `Revocation` and `Saves` say what all
  runs of it keep, `Tightness` that the staleness bound is attained; `Gateway` is one instance at work
  with nothing in between.
- **Routing.** `Router`: canonical prefixes, the longest match, the path sent downstream.
- **Notifications.** `Notifications`: a consumer group with retries and dead letters, in which every
  await may fail, before or after it has taken effect.

Numbers that Lua or Python keep as floating point are exact reals here. `Prelude` holds a few shared
values.

## Where the code and its documents differ

The model follows the code. Each difference is a lemma.

- ADR-004 (`docs/ARCHITECTURE.md:24`) and `docs/RUNBOOK.md:45` promise a single probe in HALF_OPEN. The
  script lets every check through until somebody reports: `CircuitBreaker.EveryCheckIsAProbe`, and a run
  with two probes: `CircuitBreaker.TwoProbes`. The runbook also says that a success closes the breaker.
  With several retries only that of the last permitted attempt does; a downstream that has recovered
  and answers at once keeps its breaker half-open: `Recovery.FirstReportDecides`,
  `Recovery.SuccessesKeepHalfOpen`.
- `docs/RUNBOOK.md:49` tells clients to back off by `Retry-After`. The header is floored, so it
  suffices only when nothing was lost by that: `TokenBucket.HeaderSufficesIffNothingWasFloored`, and
  `TokenBucket.HeaderIsTooShort` for a run in which it does not.
- The detector's documentation compares the current minute with the average of the previous ones. The
  record of a group starts with a minute of no requests that never was, which lowers the baseline; the
  rule is the documented one exactly from the sixth active minute of a group on:
  `Anomaly.RuleIsDocumentedIff`. It also lists three kinds of anomaly; the code has four, and the fourth
  can never be raised with a window of ten samples or fewer: `Anomaly.OutliersNeedElevenSamples`.
- The store's comments call the database authoritative and promise that a delete removes a key from
  both places. A login that reads the Redis copy between the two removals writes the row back for good,
  and a request counted meanwhile leaves a copy on which every login breaks with an error:
  `Revocation.DeletedKeyComesBack`, `Revocation.CountBreaksDeletedKey`. A key is out for good exactly
  when row and copy are gone and nothing that writes one is under way: `Revocation.KeyIsOutIff`. A key
  that is only in Redis survives a delete: `Revocation.DeleteAlone`.
- A saved key record is put back by a login that read another one and is still under way, and later
  logins on that instance get it: `Saves.SaveIsSeenIff`, `Saves.UndoneSaveIsReachable`. A save that
  takes away an expiry leaves it in the copy: `KeyStore.CopyReadsAsSavedIff`.
- A request of a tier without a quota reserves nothing but still gives a unit back when its downstream
  fails. If its user also has metered requests, the counter is then too low:
  `MonthlyQuota.ConservationIffStraysFindNothing`, `MonthlyQuota.StrayRefundOverspends`.
- A reservation that is the first of its month and falls into the last second before 23:59:59 gets a
  time to live of zero and is forgotten: `MonthlyQuota.FirstReservationIsKeptIff`.
- With several retries, a success before the last permitted attempt is not reported to the circuit:
  `Proxy.SuccessIsReportedIff`.
- A path with a second leading slash matches a route, but the prefix is not stripped from it:
  `Router.DoubleSlashIsNotStripped`; the round trip holds exactly for one leading slash.

## Model

| member | source | states |
|---|---|---|
| `TokenBucket.Bucket.Take` | gateflow/redis_client.py:31-69 | the script's answer and the key it leaves are those of the step function the run theorems are about |
| `TokenBucket.ReplyMeans` | gateflow/redis_client.py:43-60 | by the fields of the key: an expired key counts for nothing, the inflow is capped, a cost within the level is granted and paid with a hint of zero, and the hint of a denial times the refill rate is what is missing |
| `TokenBucket.KeyMeans` | gateflow/redis_client.py:62-69 | the key left holds what remains and the time of the call, and lives a minute, in whole seconds, longer than a full refill takes, or a day without refill |
| `TokenBucket.StoredTokensStayInRange` | gateflow/redis_client.py:37-66 | in every run the stored tokens, and the level every call finds, lie between zero and the capacity |
| `TokenBucket.SameLevelsSameAnswers` | gateflow/redis_client.py:43-58 | two buckets with the same level at every later instant are told apart by no run |
| `TokenBucket.ExpiryIsInvisible` | gateflow/redis_client.py:62-66 | a bucket that expires answers every run exactly like one that is kept for ever |
| `TokenBucket.ExpiryIsInvisibleIffRefilling` | gateflow/redis_client.py:62-66 | expiry can be observed by some run exactly when the refill rate is zero |
| `TokenBucket.ExpiryShowsWithoutRefill` | gateflow/redis_client.py:62-66 | the run that shows it: a drained bucket is full again after a day |
| `TokenBucket.DenialChangesNoLevel` | gateflow/redis_client.py:53-60 | a denied call leaves the level at every later instant as it was |
| `TokenBucket.DenialsAreInvisible` | gateflow/redis_client.py:53-60 | erasing a denied call changes no later answer |
| `TokenBucket.DenialsKeepLevels` | gateflow/redis_client.py:53-60 | any number of denials in a row leaves the levels as they were |
| `TokenBucket.RetryAfterIsExact` | gateflow/redis_client.py:56-58 | after a denial, and further denials, the same cost is granted at an instant exactly if that is not before the hinted one |
| `TokenBucket.OversizedIsNeverGranted` | gateflow/redis_client.py:53-58 | a cost above the capacity is always refused |
| `TokenBucket.HeaderSufficesIffNothingWasFloored` | gateflow/proxy.py:159-164 | waiting the seconds of the header suffices exactly when flooring lost nothing; one second more always does |
| `TokenBucket.HeaderIsTooShort` | gateflow/proxy.py:159-164 | a run in which the call that waits the seconds of the header is denied |
| `Admission.HeldBelow` | gateflow/redis_client.py:48-54 | what a bucket holds is bounded by the allowance of every interval of arrivals |
| `Admission.HeldAttained` | gateflow/redis_client.py:48-54 | and it equals the allowance of one of them |
| `Admission.AffordableIffWithinRate` | gateflow/redis_client.py:48-60 | a bucket can pay for a spending pattern exactly when every interval spends at most the capacity plus the inflow |
| `Admission.LimiterHoldsWhatItGranted` | gateflow/redis_client.py:37-66 | the level the script finds, expiry included, is what its grants have left of capacity and inflow |
| `Admission.RateConformance` | gateflow/redis_client.py:37-66 | between any two calls the limiter grants at most the capacity plus the refill rate times the time between them |
| `Admission.Dominance` | gateflow/redis_client.py:48-60 | a greedy policy is never behind another one, and what it holds less it has spent on the grants it is ahead by |
| `Admission.LimiterIsGreedy` | gateflow/redis_client.py:53-58 | the limiter grants exactly the calls it can pay for |
| `Admission.GreedyIsOptimal` | gateflow/redis_client.py:43-60 | for calls of equal cost, after every prefix of any arrivals the limiter has granted at least as many as any set of grants within the rate |
| `CircuitBreaker.Breaker.Run` | gateflow/redis_client.py:71-140 | the script's answer and the key it leaves, for checks, successes and failures, are those of the step function the run theorems are about |
| `CircuitBreaker.CheckMeans` | gateflow/redis_client.py:93-106 | by the fields of the key: a check of a closed or missing breaker is answered CLOSED and changes no more than the deadline, one of an open breaker OPEN with the rest of its period as hint, and HALF_OPEN with the count reset once the period is over |
| `CircuitBreaker.SuccessMeans` | gateflow/redis_client.py:109-113 | a success closes the breaker and starts the count anew |
| `CircuitBreaker.FailureMeans` | gateflow/redis_client.py:115-138 | a failure opens a half-open breaker; else it counts one more, or one if the last is out of the window, and opens exactly at the threshold |
| `CircuitBreaker.KeyTracksStreak` | gateflow/redis_client.py:82-138 | the expiring key agrees, in every run, with the streak of failures the history ends with |
| `CircuitBreaker.StreakIsARun` | gateflow/redis_client.py:121-126 | the streak counts a stretch of failures without a success in which each comes within the window of an earlier one |
| `CircuitBreaker.NoRunIsLonger` | gateflow/redis_client.py:121-126 | no such stretch that ends there has more failures |
| `CircuitBreaker.TripsExactlyAtThreshold` | gateflow/redis_client.py:108-138 | a closed breaker opens on precisely the failure that completes a run of `threshold` failures; while closed it has counted fewer |
| `CircuitBreaker.ClosedUntilTripped` | gateflow/redis_client.py:93-138 | in every run, while no failure has completed a run of `threshold` failures, the breaker is found closed |
| `CircuitBreaker.HalfOpenIsEarned` | gateflow/redis_client.py:93-105 | a check is answered HALF_OPEN exactly if it found the breaker half-open, or open with the period of its last failure over |
| `CircuitBreaker.ChecksKeepClosed` | gateflow/redis_client.py:93-106 | a check is answered CLOSED exactly if it found the breaker closed |
| `CircuitBreaker.OnlyFailuresOpen` | gateflow/redis_client.py:93-113 | a check or a success leaves a breaker open only if it was |
| `CircuitBreaker.StaysOpen` | gateflow/redis_client.py:87-137 | after a failure left it open, and without a success, the breaker is open until the period is over; later failures move the end, expiry never brings it forward |
| `CircuitBreaker.OpenPeriodIsSafe` | gateflow/redis_client.py:93-102 | every check in that period is answered OPEN, with a hint in (0, open duration] that names the end of the period |
| `CircuitBreaker.OpenPeriodIsExact` | gateflow/redis_client.py:94-102 | with nothing but checks since the failure, a check is answered OPEN exactly before the end of the period |
| `CircuitBreaker.HalfOpenAdmitsEveryCheck` | gateflow/redis_client.py:94-105 | until a report comes, no check that follows a HALF_OPEN answer is refused |
| `CircuitBreaker.EveryCheckIsAProbe` | gateflow/redis_client.py:94-105 | from a HALF_OPEN answer to the next report as many checks are admitted as come, so at most one exactly when at most one comes |
| `CircuitBreaker.TwoProbes` | gateflow/redis_client.py:94-105 | a run from a new target in which two checks in a row are answered HALF_OPEN |
| `CircuitBreaker.ProbeDecides` | gateflow/redis_client.py:109-119 | in HALF_OPEN one failure opens the breaker whatever the threshold, one success closes it |
| `MonthlyQuota.QuotaCounter.Reserve` | gateflow/redis_client.py:162-183 | grants exactly below the quota, and leaves the counter, with its deadline, as the step function says |
| `MonthlyQuota.ReserveMeans` | gateflow/redis_client.py:162-183 | by the fields of the counter: granted exactly below the quota; a denial changes nothing, the first unit sets the deadline, a later one keeps it |
| `MonthlyQuota.QuotaCounter.Refund` | gateflow/redis_client.py:185-193 | takes one off and never leaves the counter below zero |
| `MonthlyQuota.RefundMeans` | gateflow/redis_client.py:185-193 | by the fields of the counter: one less with the same deadline, or a zero without one |
| `MonthlyQuota.QuotaCounter.ReserveMonthly` | gateflow/governance.py:43-57 | a tier without a quota is granted and changes nothing |
| `MonthlyQuota.SecondsLeftMeans` | gateflow/governance.py:28-34 | the time to live is the whole seconds left of the month, and one second after its end |
| `MonthlyQuota.RollbackNeverFires` | gateflow/redis_client.py:177-180 | after the increment the counter is within the quota, so the roll-back branch is dead |
| `MonthlyQuota.FirstReservationIsKeptIff` | gateflow/governance.py:28-34 | the first reservation of a month is remembered exactly when a whole second is left before 23:59:59, or that instant has passed |
| `MonthlyQuota.HoldersReserved` | gateflow/governance.py:43-67 | the requests that hold a unit are those whose story so far is one granted reservation |
| `MonthlyQuota.CounterStaysAlive` | gateflow/governance.py:28-34 | within the month a counter that counts something does not expire |
| `MonthlyQuota.ConservationStep` | gateflow/redis_client.py:162-193 | one event keeps the counter equal to the number of holders unless it is an unmetered refund that takes somebody's unit |
| `MonthlyQuota.ConservationIffStraysFindNothing` | gateflow/governance.py:48-67 | in any interleaving the counter equals the number of holders throughout exactly when every unmetered refund finds none |
| `MonthlyQuota.QuotaIsConserved` | gateflow/governance.py:43-67 | in any interleaving of metered requests the counter is reservations minus refunds, a reservation succeeds exactly below the quota, and the refund clamp never fires |
| `MonthlyQuota.NeverOverQuota` | gateflow/redis_client.py:162-183 | under a fixed quota no more than that many requests are ever charged at once |
| `MonthlyQuota.StrayRefundOverspends` | gateflow/proxy.py:313-314 | with one unmetered refund, two requests are charged under a quota of one |
| `Proxy.Admit` | gateflow/proxy.py:110-188 | by the fields of the request: who is let through, which of the refused get 401, 403, 404, 405 and 429, and that a unit of quota is asked exactly of a metered key with everything else in order |
| `Proxy.ObjectionMeans` | gateflow/proxy.py:110-188 | the same of the functions that the other contracts speak in: who is admitted, who is asked, and the status of every objection |
| `Proxy.BodyMeans` | gateflow/proxy.py:201-231 | by the fields of the request: which bodies are streamed, which are told 400 and 413, and who uses idempotency |
| `Proxy.AccountCounts` | gateflow/proxy.py:186-339 | an account counts the reservations, grants, refunds, sends and reports of its log |
| `Proxy.AccountHoldsOpen` | gateflow/proxy.py:260-339 | a response is open in the account exactly if it was opened and neither closed nor passed on since |
| `Proxy.OrderlyMeans` | gateflow/proxy.py:186-339 | in an orderly log nothing is sent or opened while a response is open, only open responses are handed over, closed or passed on, and no unit is asked or given back twice |
| `Proxy.TryTarget` | gateflow/proxy.py:348-385 | one attempt: what it sends, opens and reports, over every outcome and state of the circuit |
| `Proxy.BuildResponse` | gateflow/proxy.py:489-566 | exactly which events follow: the response is handed over, a 5xx of an authenticated request is refunded, and then it is closed if it was read in full, else left to the client |
| `Proxy.TryPrimary` | gateflow/proxy.py:260-279 | the loop stops at the first usable answer, leaves no other response open, and reports the last permitted attempt only |
| `Proxy.Forward` | gateflow/proxy.py:260-339 | the whole downstream part: which answer the client gets and the account of its effects |
| `Proxy.HandleRequest` | gateflow/proxy.py:106-339 | for every sequence of outcomes, by the fields of the request: who is let through and who is asked for quota; which answer is given, one reservation at most, a refund exactly when the client sees the downstream fail, every opened response released, one kept for a replay before the client gets it, and only the quota steps the interleaving theorems assume |
| `Proxy.AccountGivesSteps` | gateflow/proxy.py:186-339 | an orderly log asks at most once, refunds at most once, and refunds last |
| `Proxy.SendsAreBounded` | gateflow/proxy.py:207-279 | a streamed body is sent to the primary target at most once, and no body more often than the retries permit |
| `Proxy.UnchargedIff` | gateflow/proxy.py:186-339 | an admitted metered request, whatever becomes of it, has reserved as much as it has given back exactly on the gateway's own 504 or a fallback 5xx, and else one unit more |
| `Proxy.OutcomeIsUnique` | gateflow/proxy.py:260-339 | the downstream outcomes determine the answer |
| `Proxy.OutcomeMeans` | gateflow/proxy.py:260-339 | the answer is that of the first attempt with a closed circuit and no failure, else of the fallback, else a 504 |
| `Proxy.SuccessIsReportedIff` | gateflow/proxy.py:263-274 | a success is reported exactly when the last permitted attempt serves the request |
| `Recovery.VisitsAreProper` | gateflow/proxy.py:263-279 | in every interleaving, no attempt before a request's current one was usable, and it has told the breaker what the proxy reports |
| `Recovery.EndedVisitIsServed` | gateflow/proxy.py:263-279 | a request that has ended is served by the attempt that the proxy chooses, or by none, and has reported what the proxy reports |
| `Recovery.HalfOpenUntilReport` | gateflow/proxy.py:358-384 | in every interleaving, until the first report a half-open breaker stays so and lets every attempt through |
| `Recovery.FirstReportDecides` | gateflow/proxy.py:263-274 | the first report, which only a last permitted attempt makes, closes the breaker if it was a success and else opens it |
| `Recovery.SuccessesKeepHalfOpen` | gateflow/proxy.py:263-274 | in every interleaving of requests that find a success before their last permitted attempt nobody reports, and the breaker stays half-open |
| `Recovery.SingleAttemptReports` | gateflow/proxy.py:271-271 | with one permitted attempt every answer is reported |
| `Recovery.OneInstantIsLively` | gateflow/redis_client.py:87-87 | runs at one instant meet the premise that no call comes after the key has expired |
| `Recovery.HalfOpenIsReached` | gateflow/redis_client.py:93-99 | a new target comes to be half-open with its whole time to live ahead |
| `Billing.CounterIsRequestsServed` | gateflow/proxy.py:186-339 | once all metered requests of a user have ended, in any interleaving, the counter is the number of those that were admitted and whose client did not see the downstream fail |
| `Billing.StepsAreThoseOfLog` | gateflow/proxy.py:186-339 | the quota steps of the log a request leaves are those of its account |
| `Statistics.AboveThreeSigmaMeans` | gateflow/anomaly.py:79-81 | the comparison of squares is the comparison with three standard deviations |
| `Statistics.DispersionMeans` | gateflow/anomaly.py:79-80 | mean and sample variance by the sums of the samples and of their squares |
| `Statistics.Samuelson` | gateflow/anomaly.py:79-81 | for every sequence the last sample's squared distance from the mean is at most (n - 1) / n of the sum of squared deviations |
| `Statistics.RankExceedsIff` | gateflow/anomaly.py:75-76 | the element of rank k of the sorted samples exceeds a bound exactly when at least n - k samples do |
| `Anomaly.AnomalyDetector.Check` | gateflow/anomaly.py:47-107 | the findings are the rules applied to the window and traffic after the metric, and only its own group changes |
| `Anomaly.AnomalyDetector.JudgeWindow` | gateflow/anomaly.py:69-82 | an error spike is found exactly when more than the permitted share of ten or more samples are 5xx, a latency spike exactly when at least a twentieth of them exceed the threshold, and an outlier only among eleven samples or more |
| `Anomaly.AnomalyDetector.JudgeTraffic` | gateflow/anomaly.py:92-102 | a spike is found exactly when the current count times the number of minutes exceeds the multiple of their total, which is not zero, and there are two minutes at least |
| `Anomaly.P95Means` | gateflow/anomaly.py:74-76 | the p95 is one of the durations, and exceeds a bound exactly when at least a twentieth of them do |
| `Anomaly.FindingsSay` | gateflow/anomaly.py:69-102 | the value each finding reports: the share of server errors, the p95, the newest duration, the average of the counts |
| `Anomaly.OutlierMeans` | gateflow/anomaly.py:79-82 | the newest of ten or more samples is an outlier exactly when it is more than three standard deviations, which are not zero, above the mean |
| `Anomaly.WindowIsLastReadings` | gateflow/anomaly.py:56-67 | the window is the group's last `window_size` readings; other groups never show in it |
| `Anomaly.WindowIsATail` | gateflow/anomaly.py:56-67 | by its length and its place: the window is the tail of the readings, at most `window_size` long |
| `Anomaly.ErrorSpikeIsACount` | gateflow/anomaly.py:69-72 | an error rate spike is raised exactly when there are ten readings and more of them than the permitted share are server errors |
| `Anomaly.LatencySpikeIsACount` | gateflow/anomaly.py:74-77 | in every run a latency spike is raised exactly when there are ten readings and at least a twentieth of them exceed the threshold |
| `Anomaly.TenSamplesHoldNoOutlier` | gateflow/anomaly.py:79-82 | no window of at most ten samples raises an outlier |
| `Anomaly.TenEqualAndOne` | gateflow/anomaly.py:79-81 | for ten equal samples and one more, mean and variance meet Samuelson's bound with equality |
| `Anomaly.LargerEleventhIsAnOutlier` | gateflow/anomaly.py:79-82 | ten equal samples and a larger one always do |
| `Anomaly.OutliersNeedElevenSamples` | gateflow/anomaly.py:67-82 | a detector can ever raise an outlier exactly when its window size exceeds ten |
| `Anomaly.TrafficIsPerActiveMinute` | gateflow/anomaly.py:84-91 | the traffic record is the counts of the group's active minutes, behind a phantom minute of none |
| `Anomaly.SecondMinuteIsMeasuredAgainstHalf` | gateflow/anomaly.py:92-102 | the first minute is never a spike, and the second is compared with half of the first |
| `Anomaly.DilutedBaseline` | gateflow/anomaly.py:92-93 | one minute of no requests lowers every average |
| `Anomaly.BaselineIsAverageIff` | gateflow/anomaly.py:84-93 | the baseline is the average of the previous active minutes, at most five, exactly when there are five at least |
| `Anomaly.RuleIsDocumentedIff` | gateflow/anomaly.py:84-94 | the rule is the documented one for every multiplier exactly from the sixth active minute of a group on |
| `Anomaly.TrafficSpikeIsDocumented` | gateflow/anomaly.py:84-102 | in a run, a traffic spike is raised from then on exactly when the documented rule says so |
| `TtlCache.TTLCache.Get` | gateflow/cache.py:30-40 | the value found and the table left: a hit moves to the back, an expired entry goes |
| `TtlCache.TTLCache.Set` | gateflow/cache.py:42-48 | the table left: the entry at the back, the oldest dropped until the bound is met |
| `TtlCache.TTLCache.Delete` | gateflow/cache.py:50-52 | all entries but those of the key stay, in order |
| `TtlCache.GetMeans` | gateflow/cache.py:30-40 | by the positions of the table: a live entry is found and moved to the back, an expired one is dropped, a missing key changes nothing |
| `TtlCache.SetMeans` | gateflow/cache.py:42-48 | by the positions of the table: the entry goes to the back in place of one for its key, and what exceeds the bound goes from the front |
| `TtlCache.CacheAgreesWithMap` | gateflow/cache.py:30-56 | after any operations the table is within its bound, its keys are distinct, and each entry holds what a plain map would hold, with the expiry of that set |
| `TtlCache.HitsAreLatest` | gateflow/cache.py:30-40 | a hit returns the latest set since the last delete or clear, at most ttl after it, however often it was read |
| `TtlCache.LiveKeyStaysAhead` | gateflow/cache.py:39-48 | only keys touched since the key was can stand behind it |
| `TtlCache.LiveKeyIsHit` | gateflow/cache.py:30-48 | a live key is a hit for sure while fewer than `maxsize` other keys have been touched since it was |
| `KeyStore.CopyReadsAsSavedIff` | gateflow/store.py:78-82 | a save leaves a copy that reads as the saved record unless it takes away an expiry that the copy has |
| `Staleness.EverythingIsFresh` | gateflow/auth.py:128-163 | in every reachable world, whatever a login holds or a cache keeps was in its row, or in its copy when the row was missing, within the bound for its place |
| `Staleness.TwoLevelStaleness` | gateflow/auth.py:128-163 | a granted login uses a record that was current at most ttl ago and a tier that was current at most 2 ttl ago, plus the time the logins took, and not after the grant |
| `Tightness.TwoLifetimesAreAttained` | gateflow/auth.py:138-163 | a run with logins that take no time, in which a tier that was replaced right after it was read is granted two lifetimes later |
| `Revocation.RefusalHasCause` | gateflow/store.py:92-109 | in every run, a refused login found no row and later no copy, or a silent Redis, since it began |
| `Revocation.StepRefusesIff` | gateflow/store.py:92-115 | the step that reads the copy refuses the login exactly when there is none, and no other step of a read refuses it |
| `Revocation.GoneStaysOut` | gateflow/store.py:92-186 | a key that is gone while nothing that writes it is under way stays gone, and every later login is turned away, on every instance and whatever is cached |
| `Revocation.KeyIsOutIff` | gateflow/store.py:92-186 | every later login is turned away in every run in which nobody starts to write the key, exactly when row and copy are gone and no save, count or backfill is under way |
| `Revocation.DeleteAlone` | gateflow/store.py:169-186 | a delete that nothing comes between leaves the key gone exactly if it had a row or no copy |
| `Revocation.DeletedKeyComesBack` | gateflow/store.py:100-115 | a run in which a finished delete is undone by the backfill of a login |
| `Revocation.CountBreaksDeletedKey` | gateflow/store.py:118-132 | a run in which a finished delete leaves a copy with nothing but a count, on which logins break |
| `Saves.RunKeepsClean` | gateflow/store.py:144-166 | while nobody saves or deletes the key and no login carries another record, the row and the cache of the instance keep the record, and it is served |
| `Saves.DisturbedIsUndone` | gateflow/auth.py:143-163 | any login under way that carries another record, or waits for a copy that is or becomes one, has a run in which a later login is served it |
| `Saves.SaveIsSeenIff` | gateflow/store.py:144-166 | every later login on the saving instance sees the save exactly when no such login is under way |
| `Saves.UndoneSaveIsReachable` | gateflow/store.py:144-166 | gateways that start over an empty store can get there |
| `Saves.SavesCanMix` | gateflow/store.py:144-166 | a run in which two saves at once leave the row of one and the copy of the other |
| `Auth.FailingStepMeans` | gateflow/store.py:92-115 | an access of a login that fails writes nothing: no database breaks the login, no Redis is a missing copy or tier, and a backfill is given up with what was found |
| `Gateway.FinishIsARun` | gateflow/auth.py:138-163 | finishing a login in one go is a run of the machine, so its theorems apply |
| `Gateway.PerformedIsARun` | gateflow/store.py:144-186 | so is an operation on the store |
| `Gateway.FetchOnIs` | gateflow/store.py:92-115 | a read in one go finds the row, else the copy, which is then in the row as well |
| `Gateway.FetchTierOnIs` | gateflow/store.py:333-357 | the same for a tier |
| `Gateway.LoginAloneIff` | gateflow/auth.py:112-163 | left alone, a login is refused exactly when the key has neither row nor copy, breaks exactly when it has no row and a copy that cannot be read, and is granted in all other cases |
| `Gateway.LoginMeans` | gateflow/auth.py:138-163 | what it is granted: with a row, the live pair in the key cache; else the record of the row or the copy, with the tier in the tier cache, else of its row, its copy, or the default |
| `Gateway.Instance.SaveKeyRecord` | gateflow/store.py:144-166 | replaces the row and the copy of the key, except an expiry that only the copy has, drops the cache entry and nothing else; what the machine's save comes to when nothing comes in between |
| `Gateway.Instance.DeleteKeyRecord` | gateflow/store.py:169-186 | with a row, removes row, copy and cache entry, else nothing, and says which; what the machine's delete comes to |
| `Gateway.Instance.CountRequest` | gateflow/store.py:118-132 | creates a missing copy with nothing but the count, drops the cache entry, and leaves the rest; what the machine's count of a request comes to |
| `Gateway.Instance.SaveTierConfig` | gateflow/store.py:360-380 | replaces row and copy of the tier, and drops its cache entry except in a backfill; what the machine's save of a tier comes to |
| `Gateway.Instance.DeleteTierConfig` | gateflow/store.py:383-400 | removes row, copy and cache entry of the tier, and says whether there was a row; what the machine's delete of a tier comes to |
| `Gateway.Instance.GetKeyRecord` | gateflow/store.py:92-115 | finds the row, else the copy, which then has its row back, else nothing; what the machine's read comes to |
| `Gateway.Instance.GetTierConfig` | gateflow/store.py:333-357 | the same for a tier |
| `Gateway.Instance.ResolveKeyId` | gateflow/auth.py:112-125 | the first candidate identifier with a row or a copy, if there is one, and nothing changed by the others |
| `Gateway.Instance.Authenticate` | gateflow/auth.py:128-174 | refused when no candidate is known; else, of the record and tier that the machine's login comes to, accepted exactly if the record is active, has no expiry that is past, and allows the address; 403 exactly if only the address fails, else 401; no inactive or expired record is ever accepted |
| `Router.JoinSplit` | gateflow/router.py:21-25 | splitting at slashes loses nothing |
| `Router.HasDotsIff` | gateflow/models.py:16-17 | two dots in a row, by positions |
| `Router.CanonicalIsFixed` | gateflow/models.py:11-18 | exactly the canonical prefixes are left as they are, and every accepted prefix becomes canonical |
| `Router.NormaliseKeepsSegments` | gateflow/models.py:11-18 | a prefix is refused exactly when it has no segment but empty ones, or two dots in a row; otherwise its other segments are kept in order |
| `Router.MatchRoute` | gateflow/router.py:16-28 | a route exactly when some prefix covers the path by segments, and then the one with strictly more segments than any other |
| `Router.AsLongIsSame` | gateflow/router.py:21-27 | two prefixes of one path with as many segments are the same |
| `Router.AnswerIsUnique` | gateflow/router.py:21-28 | the answer depends on the routes, not on the order of the table |
| `Router.AnswersAsText` | gateflow/router.py:16-28 | the answer in terms of text: the longest prefix that the path, without the slashes in front, equals or goes on after with a slash, or none |
| `Router.SegmentsAsText` | gateflow/router.py:25-26 | being a prefix by segments is being equal, or a prefix of the text up to a slash |
| `Router.CoversAsText` | gateflow/router.py:21-26 | for a trimmed prefix, the match in terms of the text after the leading slashes |
| `Router.StripRoundTrip` | gateflow/router.py:31-39 | putting the stripped prefix back gives the path, and a bare prefix leaves a slash, exactly when the path has one leading slash; any other path is passed on as it is |
| `Router.DownstreamMeans` | gateflow/router.py:31-39 | for every routed path: without `strip_prefix`, or with several leading slashes, it is passed on as it is; else what follows the prefix is, from its slash on, or just a slash |
| `Router.DoubleSlashIsNotStripped` | gateflow/router.py:31-39 | a prefix matches a path with a second slash before it but is not stripped |
| `Notifications.Consumer.SendWithRetry` | gateflow/notifications.py:83-103 | unless cancelled, every target in turn gets attempts until one succeeds or three have failed, and the round raises exactly if some target failed three times |
| `Notifications.Consumer.TryTarget` | gateflow/notifications.py:92-100 | unless cancelled, up to three failures and then a success, or three failures and an exception |
| `Notifications.Consumer.WriteDeadLetter` | gateflow/notifications.py:106-112 | after a round that gave up a target, a write that returns has added one dead letter and kept the log lawful |
| `Notifications.Consumer.Handle` | gateflow/notifications.py:156-162 | one message: acknowledged only after its round, and after its dead letter if the round raised |
| `Notifications.Consumer.ReadNew` | gateflow/notifications.py:140-146 | new messages become pending in order, even if the answer is lost |
| `Notifications.Consumer.ConsumeBatch` | gateflow/notifications.py:133-167 | a pass acknowledges the batch from its front; what it did not reach stays pending, and a pass without failure leaves exactly the pending messages beyond the first `count` and none of the new ones |
| `Notifications.Consumer.Consume` | gateflow/notifications.py:132-167 | over any passes and arrivals what is delivered is pending until acknowledged; a backlog is worked off, whatever the webhooks do, if Redis answers and nothing arrives; while a message can neither be delivered nor dead-lettered nothing is acknowledged, neither what was pending nor what is delivered after it |
| `Notifications.BatchAscends` | gateflow/notifications.py:150-154 | no message occurs twice in a batch, and older ones come first |
| `Notifications.ExhaustedIffRun` | gateflow/notifications.py:91-103 | a target was given up in a round exactly when the round shows MAX_RETRIES failures in a row |
| `Notifications.AckedIsSettled` | gateflow/notifications.py:156-162 | an acknowledged message was accepted by every target or dead-lettered before |
| `Notifications.AckedIsFinal` | gateflow/notifications.py:156-162 | nothing happens to a message after its acknowledgement |
| `Notifications.DeadLetterHasCause` | gateflow/notifications.py:157-161 | a dead letter comes right after a whole round in which some target failed every time |
| `Notifications.AckFollowsRound` | gateflow/notifications.py:156-162 | an acknowledgement comes right after a whole round, with a dead letter between them exactly when some target failed every time |
| `Notifications.NothingIsLost` | gateflow/notifications.py:132-167 | in every state a delivered message is either pending or settled and acknowledged, never both |

## Left out

- Floating point: `tostring` keeps 14 digits of a number in Redis, and Lua and Python round; reals do
  not. The index `int(n * 0.95)` is taken as floor(95 n / 100).
- Limits that change while a bucket lives: the run theorems fix capacity and refill rate.
- A denied call on a bucket that never refills: its hint is infinite, and the conversion of it to whole
  seconds for the header, which raises, is not modelled.
- The failure count a failure report returns to the gateway, and `last_success`, which nothing reads.
- MonthlyQuota.QuotaIsConserved: is about one user's counter within one month, up to its last whole
  second; requests that straddle the end of the month refund into another counter.
- Proxy.HandleRequest: exceptions that `_try_target` does not catch, Redis failures in the middle of a
  request, and a client that never reads a streamed response are not modelled; header rewriting,
  telemetry and the storing of idempotent responses leave no mark in the account.
- Anomaly.AnomalyDetector.Check: the standard deviation is replaced by the comparison of squares, which
  `Statistics.AboveThreeSigmaMeans` justifies; missing metric fields are taken to have their defaults.
- Staleness.TwoLevelStaleness: the time a login spends between its steps is a parameter, because the code
  bounds it by nothing; where logins take no time the bounds are ttl and 2 ttl.
- Saves.SaveIsSeenIff: is about a save with no other save or delete of the key under way. Two at
  once can leave the row of one and the copy of the other: `Saves.SavesCanMix`.
- Gateway.Instance.Authenticate: hashing and the address check are parameters; the order of the secrets is
  the order of the candidate identifiers. In the machine, each candidate is a login of its own.
- The request count of a record and its custom limits: of the optional fields only the expiry is modelled;
  the custom refill rate behaves alike in the Redis copy.
- Listing keys, tiers and routes, which also falls back to Redis.
- Notifications.Consumer.Consume: another consumer of the group, and the trimming of the stream, are not
  modelled; the pauses between attempts have no length; whether a failed attempt reached its target is
  not known to the gateway and not recorded.
- `ROTATE_KEY_LUA`, for which there is no caller in the repository's gateway code.
- Address rules and trusted proxies, `resolve_rate_limits`, `Route.allows` and the JSON forms of routes:
  they would add only easy members.
- Redis connections, publish and subscribe, admin endpoints, the portal, middleware, metrics, the
  scoring models, and the two other stream workers, whose loops are weaker forms of the one modelled.
