# Telite backend: a verified model of its stateful cores

This project models, in Dafny, the parts of the Telite learning platform's backend in which state,
time or a query rewrite makes correctness hard to see, and proves what those parts promise.

* **Rate limiting** (`RateLimiter`, `AttemptWindows`, `Claims`, `LoginProtocol`, `LoginBursts`, `SingleLogin`,
  `SoloRuns`, `RedisProtocol`, `RedisBursts`, `RedisSolo`, `RedisOutage`, `OutageAnswers`, `OutageSharpness`,
  `LoginHandler`). The limiter's two stores, a dictionary of lazily pruned deques and a Redis sorted set, are fields of
  a class whose methods follow the source. Over runs: both stores, under any outages, answer as if nothing were ever
  pruned; k concurrent logins record at most limit - 1 + k attempts in
  any window, in memory under its lock as well as in Redis command by command and through outages, and some
  interleavings record that many; if Redis comes back at most m times in the middle of a request, 2 * limit + m is the
  least bound on both stores together; the advertised delay is exact if and only if two entries expire in the same
  second, and always for a single worker, on either store.
* **Quiz statistics** (`QuizStatistics`, `QuizReport`). The report with a query per learner and quiz, and the batched
  one that groups a single query's rows in a dictionary, return the same report on every database, and each of its
  columns is what the tables say.
* **Course snapshots** (`CourseSnapshot`, `SnapshotProperties`, `SnapshotContents`). Flat tables become one nested
  document; hydration of question references; conservation, order, contents, failures, both summary functions.
* **Branding** (`Branding`). Draft, publish and rollback as a state machine whose cache is the replay of its
  audit log, and whose public payload shows the last configuration published.
* **Topic averages** (`Rounding`, `RunningAverage`). The accumulated error of a mean rounded at every step,
  and when it freezes for good.
* **Identifiers and slugs** (`Text`, `Users`, `UserChanges`, `Organizations`). A cross-column uniqueness invariant and
  two fresh-name loops.
* **Response comparison** (`ResponseCompare`, `ResponsePlaces`), **notifications** (`Notifications`,
  `NotificationEffects`, `IdempotencyKeys`), **timestamps as text** (`Timestamps`, `Sessions`), **invitations**
  (`Invitations`) and **pagination** (`Pagination`).

`Wrappers` holds Option and Result; `Ordering` holds WHERE, ORDER BY and the pigeonhole argument; `Totals` and
`Spacing` hold sums and evenly spaced times. To verify: `dafny verify dfyconfig.toml`.

## How to read the model

A class method follows the source step by step and its `ensures` equates the result and the new state with a
specification function (`Step`, `Serve`, `Report`, `Compiled`, ...); the theorems are lemmas about those functions
and about all runs of them. Tables are sequences of rows or maps, clock readings and fresh ids are parameters,
times are reals, and raised exceptions are error values.

Where the code and its text disagree, the code is modelled:

* `is_limited` is described as falling back to memory, but it also asks memory whenever Redis finds the key free
  (`telite-backend/app/core/rate_limiter.py:220-225`).
* `mark_read` is described as marking everything for None; an empty id list does so too
  (`telite-backend/app/repositories/notification_repo.py:142`).
* The comparator has a branch for booleans that is never reached: `bool` is a subclass of `int`, so booleans are
  compared as numbers (`telite-backend/performance/response_compare.py:79-103`).

* `list_pending` lists an invitation until it expires, but the accepting route compares an ISO text, whose "T" sorts
  after a blank, with the stored expiry (`telite-backend/app/models/invitation.py:34-38`); `ListedIsRefusedIff` gives
  the interval in which a listed invitation is refused.

In one place the intention is modelled instead: `quiz_statistics_optimized` passes pairs (block, course) to a filter on
block ids (`telite-backend/performance/example_benchmark.py:176`), and the model filters on the block ids of those
pairs, which is what the grouping that follows needs.

Properties that turned out to need a condition, each with the condition proved necessary:

* The retry delay is the least sufficient one if and only if the oldest live entry and the limit-th youngest expire
  in the same whole second (`RetryAfterExactIff`); two concurrent logins reach a bucket for which they do not
  (`OverfullBucketReached`), a single worker never does (`SingleWorkerDelayExact`).
* The doubled limit holds if and only if Redis never comes back between a request's check and its record
  (`DoubledLimitIff`); each such recovery can cost one attempt more, and no more than that (`LeastBound`).
* While Redis is up memory is sure to stay empty if and only if at most one worker runs at a time
  (`MemoryUntouchedIff`). In a given run a worker turns to memory if and only if the ZCARD after its own ZADD finds the
  set empty (`FallsBackIff`); its stamp can have left the set only by a clear or by a prune a full window later
  (`EmptyCountHasCause`, `StampLeavesIff`), and either does happen (`FallbackAfterClear`, `FallbackAfterExpiry`).
* Identifiers of two users stay apart in both columns if and only if every update is given values that, as they stand,
  nobody else has (`RunApartIff`), because `update` validates normalised values and stores the ones given; the admin
  route passes them as received (`telite-backend/app/api/routes/management/admins.py:131-142`). `UpdatesCollide` is a
  run in which two users come to share one. Lookup by identifier stays unambiguous in every run all the same
  (`RunInv`, `LookupExact`), since it asks only for normalised identifiers; what is lost is that a stored identifier
  leads back to its owner (`OwnIdentifierFindsIff`, `UnnormalisedEmailIsUnreachable`).
* An explicitly given organisation slug is certain to be new, and so to be accepted by its UNIQUE column, if and only
  if it is already normalised (`GivenSlugIsNewIff`, `RawSlugIsRefused`).
* The session clean-up never deletes an unexpired session if and only if the server's local time is not ahead of UTC
  (`SparesUnexpiredIff`).
* Apart from ties, an update leaves a topic's average alone if and only if the score is within
  0.005 * (attempts + 1) of it (`UpdateKeepsIff`).
* Idempotency keys are injective for colon-free version and path ids; the possible clashes are characterised by
  `VersionClashIff` and `UnlockedClashIff`, and `ColonShiftClash` is one.
* The section list of a snapshot is ordered as a whole if and only if nothing is collected at its end or no live
  section comes after (9999, 0) (`AllSectionsInOrderIff`).
* An invitation is acceptable exactly when it is listed as pending or expires in this very second (`AcceptableIff`).

## Model

| member | source | states |
|---|---|---|
| RateLimiter.Limiter.Prune | telite-backend/app/core/rate_limiter.py:164-168 | popping from the left while the head is at or before the cutoff leaves `Pruned` |
| RateLimiter.Limiter.MemoryIsLimited | telite-backend/app/core/rate_limiter.py:171-185 | one locked check, as in `LazyStep`: the answer is that of the pruned bucket, an emptied bucket leaves the dictionary, other keys are untouched |
| RateLimiter.Limiter.MemoryRecordAttempt | telite-backend/app/core/rate_limiter.py:188-195 | one locked record, as in `LazyStep`: the bucket is pruned, then the stamp appended, and its length returned |
| RateLimiter.Limiter.MemoryClearAttempts | telite-backend/app/core/rate_limiter.py:198-201 | the key leaves the dictionary, other keys are untouched |
| RateLimiter.Limiter.IsLimited | telite-backend/app/core/rate_limiter.py:89-119 | Redis answers first when it is up, memory whenever Redis has no answer; the stores change as in `CheckStores` |
| RateLimiter.Limiter.RecordAttempt | telite-backend/app/core/rate_limiter.py:228-245 | one store receives the attempt, Redis if it is up, and its count is returned |
| RateLimiter.Limiter.ClearAttempts | telite-backend/app/core/rate_limiter.py:248-258 | memory always forgets the key, Redis only when reachable |
| RateLimiter.PruneShowsLive | telite-backend/app/core/rate_limiter.py:164-168 | pruning the lazily kept deque shows exactly the unexpired part of the full attempt log |
| RateLimiter.LazyRefinesLog | telite-backend/app/core/rate_limiter.py:164-201 | on a monotone clock every run of checks, records and clears gets the replies of an unpruned log |
| RateLimiter.LimiterRefinesLog | telite-backend/app/core/rate_limiter.py:164-201 | from an empty dictionary, every interleaving of calls on any keys, one window per key, gets the replies that unpruned logs would give |
| RateLimiter.RetryAfterBounds | telite-backend/app/core/rate_limiter.py:184-185 | the retry delay lies between 1 and the window |
| RateLimiter.AnswerMeaning | telite-backend/app/core/rate_limiter.py:182-185 | a key is limited iff at least `limit` entries are live and there is one; the delay is the first whole second from 1 on at which the oldest has left the window |
| RateLimiter.LimitedLater | telite-backend/app/core/rate_limiter.py:180-185 | with no new attempts a key stays limited for exactly as long as its limit-th youngest live entry lives |
| RateLimiter.RetryAfterExactIff | telite-backend/app/core/rate_limiter.py:180-185 | the delay is the least sufficient whole number of seconds iff the oldest and the blocking entry expire in the same second |
| RateLimiter.RetryAfterExact | telite-backend/app/core/rate_limiter.py:180-185 | for a bucket of exactly `limit` entries the delay is the least sufficient one |
| RateLimiter.RetryAfterTooEarly | telite-backend/app/core/rate_limiter.py:184-185 | an overfull log that is still limited after the advertised delay |
| LoginBursts.OverfullBucketReached | telite-backend/app/api/auth.py:532-546 | an interleaving of two logins leads to that log |
| SingleLogin.SingleWorkerDelayExact | telite-backend/app/core/rate_limiter.py:180-185 | in every run of a single worker the advertised delay is the least sufficient one |
| RedisOutage.RedisDelayExact | telite-backend/app/core/rate_limiter.py:107-115 | with Redis up, after any run of requests, the delay Redis advertises is the least sufficient one |
| OutageAnswers.OutageRefinesLogs | telite-backend/app/core/rate_limiter.py:207-257 | under any pattern of outages, every request of every run is answered from the full logs of what Redis and memory were given since their last clears |
| OutageAnswers.MemoryAnswers | telite-backend/app/core/rate_limiter.py:217-225 | whenever Redis is down or answers nothing, the request gets the answer of all that memory was given |
| OutageAnswers.MemoryDelayExact | telite-backend/app/core/rate_limiter.py:217-225 | whatever outages there were, the delay that memory hands on is the least whole number of seconds after which memory lets the key in |
| OutageAnswers.DownDelayExact | telite-backend/app/core/rate_limiter.py:171-185 | with Redis down throughout, every delay is the least one after which the key is free |
| OutageAnswers.SuccessFreesKey | telite-backend/app/core/rate_limiter.py:248-257 | after a success with Redis up both stores of the key are empty and the next request is let in |
| OutageAnswers.SuccessWhileDown | telite-backend/app/core/rate_limiter.py:149-158 | a success while Redis is down forgets memory only: the next request is limited iff Redis is back and what it was given before still fills the limit |
| OutageAnswers.RecordCounts | telite-backend/app/core/rate_limiter.py:228-245 | the count returned is that of the entries of the full log still in the window, with the new one |
| Claims.AllowedBounded | telite-backend/app/api/auth.py:532-546 | whatever one worker may do to a log - pass a check, write, drop its claim, clear - entries plus claims stay within the cap |
| LoginProtocol.PassedCheck | telite-backend/app/core/rate_limiter.py:171-185 | a passed check, even with a stale clock reading, leaves fewer than `limit` attempts in every window still open |
| LoginProtocol.NextInv | telite-backend/app/api/auth.py:532-546 | every locked step of every worker keeps recorded plus committed attempts within the cap, for all keys and windows |
| LoginProtocol.BurstBound | telite-backend/app/api/auth.py:532-546 | any interleaving of k logins puts at most limit - 1 + k attempts on a key in any window since its last clear |
| LoginProtocol.SingleWorkerBound | telite-backend/app/api/auth.py:532-546 | a single worker is held to the limit itself |
| LoginBursts.BurstAttained | telite-backend/app/api/auth.py:532-546 | for every limit, window and k an explicit interleaving reaches limit - 1 + k |
| RedisProtocol.NextInv | telite-backend/app/core/rate_limiter.py:89-158 | every Redis command, answered or refused, and every memory call of every worker keeps recorded plus committed attempts within the cap, in either store |
| RedisProtocol.BurstUnderOutages | telite-backend/app/core/rate_limiter.py:89-245 | under any interleaving of the commands of k logins and any outages no window holds more than limit - 1 + k attempts in memory, nor in Redis apart from those recorded without its check |
| RedisProtocol.RedisBurstBound | telite-backend/app/core/rate_limiter.py:89-158 | while Redis stays up, no window holds more than limit - 1 + k attempts in either store |
| RedisBursts.RedisSingleWorker | telite-backend/app/core/rate_limiter.py:89-158 | a single worker on Redis is held to the limit itself and never falls back to memory |
| RedisBursts.RedisBurstAttained | telite-backend/app/core/rate_limiter.py:89-158 | for every limit, window and k an interleaving of commands with distinct stamps reaches limit - 1 + k |
| RedisBursts.FallsBackIff | telite-backend/app/core/rate_limiter.py:141-146 | while Redis is up a worker turns to memory iff the ZCARD after its own ZADD finds the set empty |
| RedisBursts.MemoryUntouched | telite-backend/app/core/rate_limiter.py:228-245 | in a run without such a count memory is not written |
| RedisBursts.StampLeavesIff | telite-backend/app/core/rate_limiter.py:132-156 | a stamp leaves the set iff the step is a clear, or a prune a full window later |
| RedisBursts.EmptyCountHasCause | telite-backend/app/core/rate_limiter.py:132-156 | a worker that counts none after its own ZADD was overtaken by one of the two |
| RedisBursts.FallbackAfterClear | telite-backend/app/core/rate_limiter.py:129-142 | with any k > 1 workers a clear between one worker's ZADD and ZCARD makes it record its failure in memory too, although Redis is up |
| RedisBursts.FallbackAfterExpiry | telite-backend/app/core/rate_limiter.py:97-142 | so does another worker's prune a window later, without any success |
| RedisBursts.MemoryUntouchedIff | telite-backend/app/core/rate_limiter.py:228-245 | while Redis is up memory is sure to stay empty iff at most one worker runs |
| LoginHandler.Settle | telite-backend/app/api/auth.py:537-546 | a failure is recorded on both keys, a success clears both, and no other key changes |
| LoginHandler.Login | telite-backend/app/api/auth.py:528-546 | the handler is one request of the outage model to each of its two keys; a key that passed while the other was limited is neither recorded nor cleared, and no other key changes |
| SoloRuns.SoloLogin | telite-backend/app/api/auth.py:528-546 | a login that no other worker interrupts, in any state, does to its two keys what the handler does from beginning to end with the times it reads, and touches no other key |
| SoloRuns.SuccessClearsIp | telite-backend/app/api/auth.py:544 | a success empties its address key, whatever other workers did, and no other |
| SoloRuns.SuccessClearsId | telite-backend/app/api/auth.py:545 | and then its identifier key |
| RedisSolo.SoloRequest | telite-backend/app/core/rate_limiter.py:89-257 | the commands and memory calls of a request that is not interrupted leave the stores and logs that serving it as a whole leaves |
| RedisOutage.ServeInv | telite-backend/app/core/rate_limiter.py:207-258 | every request keeps memory within the limit in every window, and Redis within the limit plus the attempts recorded in it without a check of it |
| RedisOutage.AttemptsBound | telite-backend/app/core/rate_limiter.py:207-245 | under any outages both stores together hold at most twice the limit plus the recoveries that lie in that very window |
| RedisOutage.RecoveryBound | telite-backend/app/core/rate_limiter.py:207-245 | hence at most twice the limit plus the number of recoveries of the run |
| RedisOutage.OutageBound | telite-backend/app/core/rate_limiter.py:207-245 | under any outage pattern between requests both stores together hold at most twice the limit in a window |
| OutageSharpness.OutageBoundAttained | telite-backend/app/core/rate_limiter.py:207-245 | a run of 2 * limit requests reaches that bound |
| OutageSharpness.RecoveryBoundAttained | telite-backend/app/core/rate_limiter.py:207-245 | for every limit, window and m a run with m recoveries reaches 2 * limit + m |
| OutageSharpness.LeastBound | telite-backend/app/core/rate_limiter.py:207-245 | a bound holds for all runs with at most m recoveries iff it is at least 2 * limit + m |
| OutageSharpness.DoubledLimitIff | telite-backend/app/core/rate_limiter.py:207-245 | the doubled limit holds for all such runs iff m = 0 |
| OutageSharpness.MidRequestRecoveryUnbounded | telite-backend/app/core/rate_limiter.py:207-245 | with any number of recoveries allowed, no number bounds the attempts of a window |
| RedisOutage.AlwaysUp | telite-backend/app/core/rate_limiter.py:220-225 | while Redis is up memory stays empty and the answer is Redis's own |
| RedisOutage.NoOutageBound | telite-backend/app/core/rate_limiter.py:207-245 | while Redis is up the plain limit holds |
| RedisOutage.RedisRefinesLog | telite-backend/app/core/rate_limiter.py:89-147 | while Redis is up every answer of every run is the one computed from the full attempt log |
| QuizStatistics.BuildHistory | telite-backend/performance/example_benchmark.py:62-77 | the loop numbers and converts the events one by one |
| QuizStatistics.Original | telite-backend/performance/example_benchmark.py:49-131 | the N+1 form returns `Report` |
| QuizStatistics.GroupEvents | telite-backend/performance/example_benchmark.py:179-185 | after the grouping loop every key looks up exactly its events, in query order, and a missing key none |
| QuizStatistics.QuizBlocksFacts | telite-backend/performance/example_benchmark.py:148-163 | the joins give distinct (block, course) pairs |
| QuizStatistics.BuildBlockInfo | telite-backend/performance/example_benchmark.py:167 | the dictionary lists the quizzes in join order |
| QuizStatistics.GroupIsQuery | telite-backend/performance/example_benchmark.py:171-191 | sort, filter broadly, then group and look up equals filter narrowly, then sort |
| QuizStatistics.Optimized | telite-backend/performance/example_benchmark.py:165-261 | the batched form returns the same `Report` on every database |
| QuizStatistics.EventsOfUnique | telite-backend/performance/example_benchmark.py:54-60 | with primary keys any answer of the query sorted by (created_at, id) is the modelled one |
| QuizStatistics.HistoryInOrder | telite-backend/performance/example_benchmark.py:63-68 | attempts are listed by (created_at, id); one without its own number is numbered by its place, from 1 |
| QuizStatistics.BestIsFirstMaximum | telite-backend/performance/example_benchmark.py:91 | best_attempt is the earliest attempt of maximal score, and missing only without attempts |
| QuizStatistics.EntryColumns | telite-backend/validate_quiz_statistics.py:286-316 | average and latest score never exceed the highest; used and remaining attempts add up to the limit, clamped at 0 |
| QuizStatistics.RowCountsSubmissions | telite-backend/performance/example_benchmark.py:121 | a learner's total counts each of their submissions to a listed quiz exactly once |
| QuizStatistics.HighestIsBestRounded | telite-backend/performance/example_benchmark.py:114-125 | the separately computed highest score is the rounded score of the best attempt |
| QuizStatistics.RowStatusIff | telite-backend/performance/example_benchmark.py:127 | a row is completed iff some listed submission passed, not started iff there is none |
| QuizReport.ReportShowsTables | telite-backend/performance/example_benchmark.py:49-131 | the report has a row per learner with an entry per quiz, and every column, down to each attempt, is what the tables say |
| QuizReport.EntryShown | telite-backend/performance/example_benchmark.py:79-112 | every column of an entry: ids and titles, limit and remaining attempts, highest, latest and average score rounded, status, history |
| QuizReport.EntryAverage | telite-backend/validate_quiz_statistics.py:303 | n times the average differs from the total of the n scores by at most n half hundredths |
| QuizReport.RowShown | telite-backend/performance/example_benchmark.py:114-129 | every column of a row: used and remaining totals, highest, latest and best over the attempted quizzes, their average, status |
| QuizReport.RowAverage | telite-backend/performance/example_benchmark.py:126 | the same of the average over the highest scores of the attempted quizzes |
| QuizReport.AttemptLimitIff | telite-backend/validate_quiz_statistics.py:286-293 | a quiz is limited to n attempts iff n is positive and what max_attempts says, or attempt_limit if there is no max_attempts |
| QuizReport.QuizzesAre | telite-backend/performance/example_benchmark.py:36-47 | the quizzes are the live quiz blocks with a live module and a course of the category, each once |
| QuizReport.LearnersAre | telite-backend/performance/example_benchmark.py:30-34 | the learners are those of the category and organisation, each once, by name if names are collated in an order |
| CourseSnapshot.HydrateQuestions | telite-backend/app/repositories/publishing_repo.py:95-133 | the loop hydrates in order and stops at the first reference that cannot be resolved |
| CourseSnapshot.GroupBlocks | telite-backend/app/repositories/publishing_repo.py:87-143 | blocks are hydrated and filed under their module in query order; the first failure is the one reported |
| CourseSnapshot.GroupUnits | telite-backend/app/repositories/publishing_repo.py:145-156 | modules are filed under their section in query order |
| CourseSnapshot.BuildSnapshot | telite-backend/app/repositories/publishing_repo.py:68-182 | the compiler returns the nested document in which each section and module holds the answer of its own query, or the first failure |
| CourseSnapshot.BlockGroup | telite-backend/app/repositories/publishing_repo.py:83-85 | a group of the joint block query is the module's own ordered query |
| CourseSnapshot.UnitGroup | telite-backend/app/repositories/publishing_repo.py:76-78 | a group of the joint module query is the section's own query, wherever NULL sorts |
| SnapshotProperties.HydrateAllSucceedsIff | telite-backend/app/repositories/publishing_repo.py:96-113 | hydration succeeds iff every bank reference with a version id names a PUBLISHED version of the organisation |
| SnapshotProperties.HydrationKeepsShape | telite-backend/app/repositories/publishing_repo.py:95-133 | length and order are kept; only references change, each into the content of the version it asks for, column by column, with the first correct answer as the correct option |
| SnapshotProperties.HydrationIdempotent | telite-backend/app/repositories/publishing_repo.py:95-133 | hydrating hydrated output again, against any later database, changes nothing |
| SnapshotContents.QuestionIdIdentifies | telite-backend/app/repositories/publishing_repo.py:119 | bank questions carry the same id iff question and version are the same |
| SnapshotProperties.CompileSucceedsIff | telite-backend/app/repositories/publishing_repo.py:68-113 | a snapshot is produced iff the course exists and every live block of a live module resolves |
| SnapshotContents.CompileFails | telite-backend/app/repositories/publishing_repo.py:68-113 | a failure is the missing course, or that of a live block before which, by module, position and id, every live block resolves |
| SnapshotContents.HeadingShown | telite-backend/app/repositories/publishing_repo.py:178-182 | the heading shows the course row and the time of capture |
| SnapshotContents.SnapshotShowsTables | telite-backend/app/repositories/publishing_repo.py:68-182 | the document shows the live sections, their live modules and those modules' live blocks, each once, in order and column by column, and collects modules without a section at the end |
| SnapshotProperties.UnitsConserved | telite-backend/app/repositories/publishing_repo.py:145-176 | each live module with no section or a live one is listed exactly once, and no other module |
| SnapshotProperties.BlocksConserved | telite-backend/app/repositories/publishing_repo.py:87-156 | each live block of a listed module appears exactly once, and no other block |
| SnapshotProperties.SnapshotInOrder | telite-backend/app/repositories/publishing_repo.py:72-85 | the live sections of the snapshot, the modules of each section and the blocks of each module stand by (sort_order, id) |
| SnapshotProperties.AllSectionsInOrderIff | telite-backend/app/repositories/publishing_repo.py:158-176 | the whole section list is in that order iff nothing is collected at its end or no live section comes after (9999, 0) |
| SnapshotProperties.SummariesAgree | telite-backend/app/models/course_version.py:37-46 | the two summary functions agree on a snapshot iff there is one |
| SnapshotProperties.SummaryCountsRows | telite-backend/app/repositories/publishing_repo.py:187-192 | on a compiled snapshot the summary counts live sections (plus the collecting one), listed modules and blocks |
| Branding.BrandingRepository.SaveDraft | telite-backend/app/repositories/org_repo.py:161-195 | an existing draft is overwritten, otherwise a draft with the next number is added |
| Branding.BrandingRepository.WriteCache | telite-backend/app/repositories/org_repo.py:215-234 | the columns are overwritten, terminology only if the configuration has it, and a NULL theme is refused |
| Branding.BrandingRepository.PublishDraft | telite-backend/app/repositories/org_repo.py:197-246 | the draft is promoted, written to the cache and logged, or nothing changes |
| Branding.BrandingRepository.RollbackTo | telite-backend/app/repositories/org_repo.py:248-295 | a published version is written to the cache and logged; versions do not change |
| Branding.RunInv | telite-backend/app/repositories/org_repo.py:161-246 | in every run versions are numbered 1..n and only the highest may be a draft |
| Branding.PublishedNeverChanges | telite-backend/app/repositories/org_repo.py:161-295 | a published version keeps its configuration in every run |
| Branding.CacheReplaysAuditLog | telite-backend/app/repositories/org_repo.py:197-295 | in every run the cache is the last logged configuration, with the terminology of the last entry that has one |
| Branding.AuditGrowsByOutcome | telite-backend/app/repositories/org_repo.py:236-293 | the log grows by one entry for each successful publish or rollback and by nothing else |
| Branding.RollbackRestores | telite-backend/app/repositories/org_repo.py:248-295 | rolling back, after any run, succeeds and restores every column but a terminology the version lacks |
| Branding.SavedIsPublished | telite-backend/app/repositories/org_repo.py:135-216 | what is saved is what the draft shows and what the next publication publishes |
| Branding.PublishedIsShown | telite-backend/app/repositories/org_repo.py:102-246 | after save and publish the public payload shows the saved configuration key by key, with the stated defaults; publishing is refused iff no theme is set and the theme mode is an explicit null |
| Branding.RolledBackIsShown | telite-backend/app/repositories/org_repo.py:248-295 | after a rollback it shows the configuration of the version rolled back to |
| Branding.ShownIsLastLogged | telite-backend/app/repositories/org_repo.py:102-295 | in every run of a new tenant the public sees the configuration of the last log entry, or the defaults |
| Branding.NewTenantShowsDefaults | telite-backend/app/repositories/org_repo.py:110-133 | a tenant without a cache row shows its name, its slug and the defaults |
| Branding.DraftFallsBack | telite-backend/app/repositories/org_repo.py:135-159 | without a draft the draft endpoint shows the published payload under its own keys |
| Branding.VersionsStep | telite-backend/app/repositories/org_repo.py:161-295 | what each operation does to the versions, and when it is refused |
| Branding.MaxNumberIs | telite-backend/app/repositories/org_repo.py:166-170 | the latest version number is the highest in the table, 0 in an empty one |
| Branding.PublishingThePayloadIsIdentity | telite-backend/app/repositories/org_repo.py:102-133 | saving and publishing the unmodified public payload leaves the public payload unchanged |
| Rounding.Round2IsNearest | telite-backend/app/repositories/pal_repo.py:251 | round-half-even to two decimals is a nearest-hundredth rounding |
| Rounding.Round2Iff | telite-backend/app/repositories/pal_repo.py:251 | the rounded value is the nearest hundredth, and of two equally near ones the even one |
| RunningAverage.PalTopics.UpsertTopic | telite-backend/app/repositories/pal_repo.py:213-257 | the first score is stored as it is, later ones as the rounded incremental mean; other topics stay |
| RunningAverage.AccumulatedError | telite-backend/app/repositories/pal_repo.py:245-251 | after n scores n times the average is within `ErrorBound(n)` of their sum, for every nearest-hundredth rounding |
| RunningAverage.ErrorBoundClosed | telite-backend/app/repositories/pal_repo.py:245-251 | that bound is 0.005 * (n(n+1)/2 - 1) |
| RunningAverage.DistanceToMean | telite-backend/app/repositories/pal_repo.py:245-251 | after n scores n * abs(average - mean) <= 0.005 * (n(n+1)/2 - 1) |
| RunningAverage.StaysWithin | telite-backend/app/repositories/pal_repo.py:245-251 | the average never leaves an interval of hundredths that holds all scores |
| RunningAverage.AverageFreezes | telite-backend/app/repositories/pal_repo.py:245-251 | once attempts + 1 > 200 * (hi - lo), no run of scores in [lo, hi] moves the average again |
| RunningAverage.HistoryFreezes | telite-backend/app/repositories/pal_repo.py:245-251 | a history of n > 1 scores in [lo, hi] with n + 1 > 200 * (hi - lo) fixes the average for all continuations in [lo, hi] |
| RunningAverage.UpdateKeepsIff | telite-backend/app/repositories/pal_repo.py:245-251 | apart from ties, an update keeps an average on the grid iff the score is within 0.005 * (attempts + 1) of it |
| RunningAverage.FrozenFarFromMean | telite-backend/app/repositories/pal_repo.py:245-251 | after n zeros and n scores of hi the average is still 0, half the range away from the true mean |
| Text.SlugifyIdempotent | telite-backend/app/core/utils.py:3-6 | a slug is its own slug |
| Text.SlugIsNormal | telite-backend/app/core/utils.py:3-6 | a slug consists of lower-case letters, digits and inner hyphens, so it is already normalised |
| Text.SlugKeepsLetters | telite-backend/app/core/utils.py:3-6 | a slug keeps the letters and digits, lower-cased and in order, and has single inner hyphens exactly where the text separates two of them |
| Text.NormalKeeps | telite-backend/app/repositories/user_repo.py:60-61 | normalising drops the outer spaces and lower-cases what stands between them |
| Text.CharacterClasses | telite-backend/app/core/utils.py:4 | the alphanumeric characters and the white space of ASCII, character by character |
| Text.LowerThenStrip | telite-backend/app/repositories/user_repo.py:222-226 | lower().strip() and strip().lower() agree |
| Users.UserRepository.BuildUniqueUsername | telite-backend/app/repositories/user_repo.py:346-366 | the loop ends, and returns the first candidate free in both columns |
| Users.TakenBound | telite-backend/app/repositories/user_repo.py:355-361 | at most 2 * users candidates can be taken, since candidates are pairwise distinct |
| Users.FreshUsernameIsFresh | telite-backend/app/repositories/user_repo.py:346-366 | the name found is nobody's e-mail or username, and every earlier candidate was taken |
| UserChanges.SlugEmptyIff | telite-backend/app/repositories/user_repo.py:347 | a slug is empty iff its text has no letter or digit |
| UserChanges.GeneratedUsername | telite-backend/app/repositories/user_repo.py:221-223 | the generated name is the first free one from the slug of the local part, of the full name if that has no letter or digit, or from "user" |
| Users.UserRepository.CreateUser | telite-backend/app/repositories/user_repo.py:206-251 | a user is added, normalised, iff neither identifier collides |
| UserChanges.CreatedIs | telite-backend/app/repositories/user_repo.py:221-251 | a user with a username is added with both identifiers normalised, or the first identifier held by someone is reported |
| UserChanges.CreatedIsFound | telite-backend/app/repositories/user_repo.py:206-251 | a created user is found under the address and username given, however they are spelled |
| Users.UserRepository.PatchProfile | telite-backend/app/api/auth.py:636-657 | both identifiers are validated against everyone else, and the given ones stored normalised |
| UserChanges.PatchedIs | telite-backend/app/api/auth.py:636-657 | which identifiers are looked at, what is refused, and what is stored |
| UserChanges.PatchedIsFound | telite-backend/app/api/auth.py:636-657 | after a change the user is found under each identifier given |
| Users.UserRepository.UpdateUser | telite-backend/app/repositories/user_repo.py:253-264 | identifiers are validated normalised and stored as given, unless the database refuses the row |
| UserChanges.UpdatedIs | telite-backend/app/repositories/user_repo.py:253-264 | validated in the same way but stored as given; the columns' own constraints come last |
| Users.UserRepository.Flush | telite-backend/app/models/user.py:26-27 | the database refuses NULL and a value that the same column has elsewhere |
| Users.RunInv | telite-backend/app/repositories/user_repo.py:55-89 | in every run, whatever updates are given, two users share no identifier that a lookup can ask for |
| Users.LookupExact | telite-backend/app/repositories/user_repo.py:91-115 | after any run lookup by identifier never meets two matches and returns u iff the normalised identifier is u's e-mail or username |
| Users.OwnIdentifierFindsIff | telite-backend/app/repositories/user_repo.py:91-115 | a stored identifier leads back to its owner iff its normalised form is one of the owner's two |
| Users.CreateFailsOnlyOnEmail | telite-backend/app/repositories/user_repo.py:222-228 | without a username, creation fails iff the e-mail is taken |
| Users.UpdateKeepsApartIff | telite-backend/app/repositories/user_repo.py:253-264 | an update keeps all identifiers of two users apart iff the values given are, as they stand, nobody else's |
| Users.RunApartIff | telite-backend/app/repositories/user_repo.py:206-264 | a run keeps them apart throughout iff that holds of every update in it |
| Users.NormalisedRun | telite-backend/app/repositories/user_repo.py:206-264 | if updates are given normalised values, they stay apart and every user is found under either identifier, after any run |
| Users.UpdatesCollide | telite-backend/app/repositories/user_repo.py:253-264 | two updates that both succeed give one user the e-mail and another the username "X", which no lookup finds |
| Users.UnnormalisedEmailIsUnreachable | telite-backend/app/repositories/user_repo.py:253-264 | otherwise the stored e-mail finds nobody and its normal form is free for another account |
| Organizations.OrgRepository.FreshSlug | telite-backend/app/repositories/org_repo.py:69-75 | the loop ends, and returns the first candidate that is not found |
| Organizations.OrgRepository.CreateOrg | telite-backend/app/repositories/org_repo.py:60-88 | the chosen slug is added, or refused by the UNIQUE column if the table has it |
| Organizations.FoundBound | telite-backend/app/repositories/org_repo.py:69-75 | at most as many candidates are found as there are organisations |
| Organizations.ChosenSlugIsFree | telite-backend/app/repositories/org_repo.py:69-75 | the slug chosen is not found, and every earlier candidate was |
| Organizations.CreatedIs | telite-backend/app/repositories/org_repo.py:69-88 | the slug is the first not found of base, base-1, ..., from the given slug or else the name, and is refused iff the table has it |
| Organizations.SlugFromNameIsNew | telite-backend/app/repositories/org_repo.py:69-75 | a slug made from a name is looked up as it is stored, so it is new in the table |
| Organizations.NameIsAccepted | telite-backend/app/repositories/org_repo.py:69-88 | so creation from a name alone never fails on the slug |
| Organizations.GivenSlugIsNewIff | telite-backend/app/repositories/org_repo.py:69-86 | a given slug is new, and accepted, on every table iff it is already normalised |
| Organizations.RawSlugIsRefused | telite-backend/app/models/organization.py:18 | a slug that is not normalised is chosen again, and refused, once it is stored |
| ResponseCompare.ResponseComparator.Compare | telite-backend/performance/response_compare.py:26-40 | the verdict is the tolerance relation, and the list holds exactly the differences of the two trees |
| ResponseCompare.ResponseComparator.CompareRecursive | telite-backend/performance/response_compare.py:42-112 | the list grows by exactly the differences at or below the path |
| ResponseCompare.ResponseComparator.CompareDicts | telite-backend/performance/response_compare.py:114-146 | missing keys of either side, and the differences under common keys |
| ResponseCompare.ResponseComparator.CompareLists | telite-backend/performance/response_compare.py:148-167 | a length difference, and the differences up to the shorter length |
| ResponseCompare.NoReportsIffSimilar | telite-backend/performance/response_compare.py:26-181 | nothing is reported iff the trees are equal up to the tolerance at numbers |
| ResponsePlaces.ReportsIffSomewhere | telite-backend/performance/response_compare.py:42-181 | the differences reported are exactly those between the two values of some place that both responses have, with its path |
| ResponsePlaces.SimilarIffNowhere | telite-backend/performance/response_compare.py:26-40 | the responses compare as the same iff no common place tells them apart |
| ResponseCompare.SimilarReflexive | telite-backend/performance/response_compare.py:42-181 | the relation is reflexive |
| ResponseCompare.SimilarSymmetric | telite-backend/performance/response_compare.py:42-181 | the relation is symmetric |
| ResponseCompare.SimilarComposes | telite-backend/performance/response_compare.py:169-181 | tolerances add up along a chain |
| ResponseCompare.SimilarAtZeroIsEquality | telite-backend/performance/response_compare.py:169-181 | at tolerance 0 the relation is equality |
| Notifications.NotificationRepository.CreateNotification | telite-backend/app/repositories/notification_repo.py:47-91 | active types need a source and a routable payload; otherwise nothing is written |
| Notifications.NotificationRepository.CreateNotificationOnce | telite-backend/app/repositories/notification_repo.py:93-132 | the newest notification with the key is returned, or one is written with the key in its metadata |
| NotificationEffects.PayloadIs | telite-backend/app/core/notification_payloads.py:45-54 | a payload is valid iff it names a route that the client shows, and the route's name |
| NotificationEffects.CreatedIs | telite-backend/app/repositories/notification_repo.py:47-91 | a created notification is unread and holds what was given; an active type without source or valid payload is refused |
| NotificationEffects.CreatedOnceIs | telite-backend/app/repositories/notification_repo.py:93-132 | the newest notification of the slot is returned, or the first is created with the key in its metadata |
| Notifications.NotificationRepository.MarkNotificationsRead | telite-backend/app/repositories/notification_repo.py:134-156 | exactly the selected rows are marked, and the drop of the unread count is returned |
| NotificationEffects.MarkedIs | telite-backend/app/repositories/notification_repo.py:134-145 | exactly the unread notifications asked for become read, and their number is returned |
| NotificationEffects.UnreadIs | telite-backend/app/repositories/notification_repo.py:147-156 | the unread count is the number of the user's unread notifications in the organisation |
| Notifications.RunInv | telite-backend/app/repositories/notification_repo.py:93-132 | in every run each (user, organisation, type, source, key) has at most one notification |
| Notifications.RepeatedCallReturnsSame | telite-backend/app/repositories/notification_repo.py:93-132 | repeating a call, after any run, returns the same notification and writes nothing |
| Notifications.MarkReadEffect | telite-backend/app/repositories/notification_repo.py:134-156 | only is_read of the user's own rows changes, and without ids nothing stays unread |
| Notifications.OthersUnaffected | telite-backend/app/repositories/notification_repo.py:134-156 | no other user's unread count changes |
| IdempotencyKeys.SameKeySameKind | telite-backend/app/core/notification_payloads.py:141-176 | for one user keys of different kinds never coincide |
| IdempotencyKeys.PublishedKey | telite-backend/app/core/notification_payloads.py:141-152 | the key of a published course, from the version id if given, and when it raises |
| IdempotencyKeys.OtherKeys | telite-backend/app/core/notification_payloads.py:155-176 | the other keys, and when they raise |
| IdempotencyKeys.VersionClashIff | telite-backend/app/core/notification_payloads.py:141-152 | a version key and a numbered key coincide iff the version id spells out course, ":v" and number |
| IdempotencyKeys.UnlockedClashIff | telite-backend/app/core/notification_payloads.py:161-164 | keys of unlocked paths coincide iff id and course are the same or a colon has shifted: one id is the other, a colon and a text that with a colon begins the other's course |
| IdempotencyKeys.ColonShiftClash | telite-backend/app/core/notification_payloads.py:161-164 | one such clash |
| IdempotencyKeys.KeysAreInjective | telite-backend/app/core/notification_payloads.py:141-176 | with colon-free version and path ids equal keys mean the same subject |
| IdempotencyKeys.NumberedPathsAreInjective | telite-backend/app/core/notification_payloads.py:161-176 | with integer path ids equal keys mean equal subjects, without any condition |
| Timestamps.TextOrderIsTimeOrder | telite-backend/app/repositories/invite_repo.py:21-26 | for four-digit years the texts are ordered as the moments on the calendar are |
| Timestamps.MinuteTextCutsAtMinuteStart | telite-backend/app/repositories/auth_repo.py:83-84 | against a text without seconds, a text is smaller iff its moment lies before that minute began |
| Timestamps.FormatsRead | telite-backend/app/repositories/invite_repo.py:21 | the three formats, digit by digit |
| Timestamps.InstantCounts | telite-backend/app/repositories/invite_repo.py:21-26 | the time line counts the seconds of the calendar one by one |
| Timestamps.CalendarGoesOn | telite-backend/app/repositories/invite_repo.py:21-26 | the calendar goes on second by second from the year 1000 to the end of 9999 |
| Timestamps.YearLength | telite-backend/app/repositories/invite_repo.py:21-26 | a year has 366 days iff it is a leap year of the Gregorian calendar |
| Sessions.SessionStore.CleanupExpired | telite-backend/app/repositories/auth_repo.py:81-90 | exactly the sessions with a smaller expiry text are deleted, and their number is returned |
| Sessions.CleanupCutsAtMinuteStart | telite-backend/app/repositories/auth_repo.py:81-90 | exactly the sessions that expired before the current minute of the clean-up's own clock are deleted |
| Sessions.SparesUnexpiredIff | telite-backend/app/repositories/auth_repo.py:81-90 | no unexpired session is ever deleted iff local time is not ahead of UTC, in which expiries are written |
| Sessions.ExpiredSurvivorsIff | telite-backend/app/repositories/auth_repo.py:81-90 | on one clock an expired session survives iff it expired within the current minute |
| Sessions.ResetUsableIff | telite-backend/app/api/auth.py:788-790 | a reset token is usable up to and including the second of its expiry |
| Invitations.InviteRepository.CreateInvitation | telite-backend/app/repositories/invite_repo.py:34-68 | an invitation is added iff no open one exists for the organisation and normalised address |
| Invitations.InviteRepository.AcceptInvitation | telite-backend/app/repositories/invite_repo.py:116-130 | only an open, unexpired invitation is marked accepted; the errors come in the source's order |
| Invitations.InviteRepository.RevokeInvitation | telite-backend/app/repositories/invite_repo.py:100-114 | only an open invitation is marked revoked |
| Invitations.InviteRepository.RecordResend | telite-backend/app/repositories/invite_repo.py:84-98 | only an open invitation's resend count grows, with the times of the last sending |
| Invitations.CreatedStays | telite-backend/app/repositories/invite_repo.py:34-68 | an invitation is created iff no open one has its organisation and normalised address, and keeps what it was created with in every run |
| Invitations.AcceptedForGood | telite-backend/app/repositories/invite_repo.py:116-130 | an acceptance succeeds iff the invitation is open and in time, stamps it alone, and after any further operations the stamp stands, nothing lists it, accepting, revoking and resending are refused, and its address can be invited again |
| Invitations.RevokedForGood | telite-backend/app/repositories/invite_repo.py:100-114 | the same of a revocation |
| Invitations.ResendsAreRecorded | telite-backend/app/repositories/invite_repo.py:84-98 | in every run the count grows by the successful resends, one for each call while the invitation is open, and both times are the last one's |
| Invitations.UnknownIsNotFound | telite-backend/app/repositories/invite_repo.py:86-119 | an unknown token or id is not found and changes nothing |
| Invitations.ListedIff | telite-backend/app/repositories/invite_repo.py:20-32 | listed iff neither accepted nor revoked, expiring later, and of the organisation asked for |
| Invitations.RunInv | telite-backend/app/repositories/invite_repo.py:34-130 | in every run no invitation is both accepted and revoked, and at most one is open per organisation and address |
| Invitations.MarksAreFinal | telite-backend/app/repositories/invite_repo.py:84-130 | in every run a mark once set never changes, and a closed invitation is frozen |
| Invitations.AcceptableIff | telite-backend/app/repositories/invite_repo.py:20-32 | an invitation can be accepted iff it is listed as pending now, or is open and expires this very second |
| Invitations.PendingIsAcceptable | telite-backend/app/repositories/invite_repo.py:20-32 | everything listed as pending can be accepted at that instant |
| Invitations.AcceptableUntilExpiry | telite-backend/app/repositories/invite_repo.py:116-124 | an open invitation is acceptable up to and including the second of its expiry |
| Invitations.ListedIsRefusedIff | telite-backend/app/models/invitation.py:34-38 | the accepting route, reading an ISO clock, refuses a listed invitation iff midnight of its last day has come |
| Invitations.IsoExpiryListedIff | telite-backend/app/repositories/invite_repo.py:20-32 | an open invitation with an ISO expiry stays listed to the end of its last day |
| Pagination.PagesPartition | telite-backend/app/repositories/base_repo.py:110-137 | pages 1..pages, put together, are the whole list |
| Pagination.PagesAreEnough | telite-backend/app/repositories/base_repo.py:110-137 | the page size is clamped to 1..200, and `pages` is the least number of pages that holds all items |
| Pagination.PastTheLast | telite-backend/app/repositories/base_repo.py:110-137 | a page past the last is empty |
| Pagination.PageIs | telite-backend/app/repositories/base_repo.py:110-137 | a page holds the rows from (page - 1) * size on, as many as fit, and says which page of what size it is |

## Left out

- Floating point: times, scores and averages are reals, so binary rounding errors of Python floats are not modelled; `Round2` is round-half-even on reals, and the bounds on the average hold for every nearest-hundredth rounding.
- Text.SlugifyIdempotent: on ASCII strings; Unicode letters, digits, case folding and white space are not modelled.
- Text.SlugIsNormal: on ASCII strings, for the same reason.
- Text.LowerThenStrip: on ASCII strings, for the same reason.
- Text.SlugKeepsLetters: on ASCII strings, for the same reason.
- Text.NormalKeeps: on ASCII strings, for the same reason.
- LoginProtocol.BurstBound: covers the in-memory limiter, with the digests inside rate keys arbitrary strings; `BurstUnderOutages` covers Redis.
- LoginProtocol.SingleWorkerBound: covers the in-memory limiter; `RedisSingleWorker` covers Redis.
- OutageAnswers.OutageRefinesLogs: requests for a key are served one after the other with distinct record times, and Redis does not fail in the middle of a command sequence; Redis key expiry is left out.
- SoloRuns.SoloLogin: covers the in-memory limiter; `SoloRequest` covers Redis.
- SingleLogin.SingleWorkerDelayExact: covers the in-memory limiter; `RedisDelayExact` covers Redis.
- RedisProtocol.BurstUnderOutages: follows one key, as a login that stops because of its other key just stops; it needs distinct stamps, because set members are the stamps' texts; Redis key expiry is left out.
- RedisProtocol.RedisBurstBound: needs distinct stamps, and Redis up throughout; without the latter it is `BurstUnderOutages`.
- RedisBursts.RedisSingleWorker: needs distinct stamps, and Redis up throughout.
- RedisOutage.AttemptsBound: requests for a key are served one after the other with distinct record times, and a client does not fail in the middle of a command sequence; `BurstUnderOutages` drops both, but for the distinct stamps.
- QuizStatistics.Optimized: filters on the block ids of the (block, course) pairs, where the code passes the pairs themselves; tables are read in one fixed order where the source gives none (the joined quizzes, learners of equal name), and NaN and text scores are left out.
- QuizReport.ReportShowsTables: the order of the joined quizzes and the choice among learners of equal names are those of the tables, as the source gives none.
- CourseSnapshot: JSON other than question objects is an opaque map; `restore_snapshot` is a stub in the source.
- Branding: a JSON text stands for the value it encodes, so malformed stored JSON is left out; the legacy `update_branding`, which writes the cache without a log entry, is left out.
- Users.RunInv: passwords, roles, memberships and row-level security are left out; identifier checks see the whole table, as they do in the source while row-level security is bypassed; new ids are assumed to be new.
- Organizations: an organisation is its slug; its other columns, two of which are UNIQUE as well, and its branding row are left out.
- ResponseCompare: the order in which Python iterates over a set of keys is not fixed, so the difference list is specified by its members; `IgnoredFieldsComparator` and the size comparison are left out.
- Invitations.RunInv: holds for the repository's own operations. `invite_admin` and `invite_learner` (`telite-backend/app/services/user_provisioning.py:45-190`) also insert rows, with ISO expiries, and open a second invitation once the first has expired; the accepting route (`telite-backend/app/services/user_provisioning.py:192-208`) makes the same checks as `Accept` with an ISO clock text, and also tests the delivery status and provisions a user.
- Invitations.ListPending: the order by creation time, delivery records, who revoked and why, and e-mail are left out; tokens and ids are fresh by assumption.
- Sessions.ExpiredSurvivorsIff: holds on one clock, while the source writes expiries in UTC and reads the server's local time; `CleanupCutsAtMinuteStart` and `SparesUnexpiredIff` are about two.
- Routing, cookies, tokens, password hashing, e-mail, migrations, the frontend, metrics, and the enrolment, task, announcement, assignment and media repositories are left out: wrappers around libraries, or single-field updates that would only add easy members.
- The copy of the in-memory limiter in `app/services/auth_rate_limiter.py` is covered by the same model.
