# Verified models of the Skytrax review platform

The platform crawls airline reviews, keeps airline and airport master data, builds a
knowledge graph, and computes forecasts, anomalies and dashboards.  This project models
the parts of it that keep state across many steps or rest on a mathematical bound, and
proves what these parts promise.  `dafny verify dfyconfig.toml` checks everything.

- **Governor** - the crawl subprocess governor: eight ordered kill triggers over
  remembered timestamps, and the SIGTERM, SIGKILL, zombie protocol.  A run is a sequence
  of polls; the remembered fields are compared with the whole history.
- **RateLimit, JobLock, CrashGate** - three protocols over time windows: the per-client
  request limiter, the lease lock around jobs, and the crash window that gates the
  forecasting child.
- **Slug, Identity, AirlineSync, AirlineTable, RawMetadata** - aviation identity: the slug
  pipeline, the non-destructive merge, folding a feed into a table with unique slugs, the
  same on row objects, and the in-place merge of raw dictionaries.
- **RealSums, Anomaly, Forecast, Hubs** - arithmetic over reals: z-scores, topic weights,
  least squares, weighted averages, concentration, incidents.
- **SafeJson, KnowledgeGraph, Integrity, MetadataBackfill** - payload normalisation, the
  graph builder and its check, KPI reconciliation with the correlation pre-flight, and the
  batch loop for review metadata.  `Sorting` is Python's stable sort, used by two of them.

Where the code changes fields, rows or lists, the model is a class whose methods are
proved against a function; the lemmas are about that function and about whole runs.

## What the proofs found

- `telemetry_frozen` cannot fire unless its limit is below the static-page limit, which
  the defaults rule out; `saturated` is never shown as a state; `duplicate_streak` needs
  a run without any insert, since the page counter it subtracts was just raised.  Its
  description speaks of pages with duplicates only.
- The limiter calls itself a fixed window; it keeps a sliding log, and the stronger
  sliding bound holds.  With a limit of one it holds for every clock; with a higher one,
  any step back of the clock, however small, can let one request too many through.
- The job lock compares a stored time with the clock, but the column is declared without
  a time zone (`database/models/intelligence.py:149`,
  `database/migrations/versions/0005_operational_intelligence.py:80`) and every call
  opens a new session, so the stored time comes back naive while the clock is aware, and
  Python raises.  As declared, an acquire on a row with a lease therefore neither skips
  nor takes over: jobs exclude each other however long they run, and a crash locks its
  job for good.  What the lock intends is proved for a column that keeps the zone; there
  it fails exactly when the lease of a live, overdue job is taken over, and since a
  release checks no owner, one overdue job can let two others overlap.
- The change flag of the airline merge ignores in-place updates of raw metadata and
  reports blank callsigns and invalid ICAO codes again and again.
- The marker for an empty code slips through in lower case and is stored as a two-letter
  code; only a second normalisation would remove it.
- An enumeration's payload is returned unnormalised.  So a normalised payload need not be
  JSON nor stay as it is when normalised again; it does exactly when every payload met is
  JSON within the depth limit where it comes to stand.  Map keys are not cut.
- A sync reconciles airlines by their codes only against the table as it was before: two
  names of one airline in one feed become two rows with one IATA code, and a match by slug
  can give a row a code that another row has.  The exact conditions are proved.
- The graph's consistency check does not look at edge targets, and `mention_count` counts
  builder runs rather than mentions; the edge weights do count mentions.
- `remaining` of the metadata backfill is 0 for a run of no batches, and too small when
  rows of deleted reviews exist, since nothing ties a row to its review; the loop then
  stops early.  `integrity_consistent` cannot be false.
- The slug examples with an en dash and a dotless i in the documentation of
  `normalize_airline_slug` do not match what the code returns; the model follows the code.

## Assumptions

- `JobLock.ZONED` is the assumption, against the declaration, that the lock's column
  returns aware times; every lemma that rests on it names it.
- Steps are atomic and calls sequential: a job-lock acquire or release is one step, crash
  records do not race, one session writes a table.
- Clocks are inputs that do not run backwards unless a lemma says so.
- The truncated telemetry hash is injective on its four fields.
- Texts are ASCII when they reach the slug and code normalisers; optional text fields use
  "" for both None and the empty string, as the code only tests their truth.
- A query for the first row returns rows in table order; ids from `uuid4` never repeat.
- `AirlineMetadata` has no field `name`, so the graph build fails at the first such row
  (`analytics/knowledge_graph.py:116-117`) and passes over the error; in the model those
  rows are a number, and what the failure keeps out of the graph follows from that.
- A release of the job lock that raises is rolled back.
- Real arithmetic is exact; the rounding of displayed values is not modelled.

## Model

| member | source | states |
|---|---|---|
| Governor.InsertsAreFaithful | worker/subprocess_governor.py:220-228 | the remembered insert count and time are the first time the maximum of all counted readings was reached |
| Governor.PagesAreFaithful | worker/subprocess_governor.py:231-238 | the same for the page counter |
| Governor.AirlineIsFaithful | worker/subprocess_governor.py:251-258 | the remembered airline and time are those of the current unbroken stretch of one named airline |
| Governor.ContentIsFaithful | worker/subprocess_governor.py:260-269 | the remembered telemetry content and time are those of the current stretch of equal readings |
| Governor.ThroughputIsFaithful | worker/subprocess_governor.py:271-277 | the remembered time is the last counted poll with throughput, or the start |
| Governor.VerdictIsFirstShown | worker/subprocess_governor.py:201-277 | the verdict at any poll of any run is the first trigger, in the order of the checks, that the readings show: peaks of inserts and pages, unbroken stretches of one airline or one content, the last throughput, each past its own limit |
| Governor.VerdictKeepsEarlierUpdates | worker/subprocess_governor.py:201-277 | a trigger leaves the updates of the checks before it and no other |
| Governor.StateByReadings | worker/subprocess_governor.py:279-291 | the state shown by the readings: no progress if and only if the last insert is more than a minute past, with more than five pages |
| Governor.RunIsBounded | worker/subprocess_governor.py:152-172 | if each turn takes at least a heartbeat, at most hard_timeout/heartbeat + 1 polls pass without a kill |
| Governor.PollsAreBounded | worker/subprocess_governor.py:152-175 | so the loop makes at most hard_timeout/heartbeat + 2 polls |
| Governor.StoppedInTime | worker/subprocess_governor.py:152-172 | a run that is stopped is judged so within the hard timeout and one turn of its start |
| Governor.IdleCrawlIsStopped | worker/subprocess_governor.py:206-228 | a poll past the first 30 seconds and later than the no-insert limit after the last insert, with no new insert and over five pages, always fires one of the first three triggers |
| Governor.IdlePollIsCounted | worker/subprocess_governor.py:216-228 | with a no-insert limit of 30 seconds or more such a poll is always past the first 30 seconds |
| Governor.SilenceIsBounded | worker/subprocess_governor.py:216-228 | over whole runs: once inserts stop rising and pages stay above five, no surviving poll past the first 30 seconds is later than the limit after the last insert |
| Governor.PagesAreNoNewerThanContent | worker/subprocess_governor.py:230-269 | in every run the last page growth is no later than the last content change, and equal content implies pages within the remembered maximum |
| Governor.FrozenFiresExactlyWhen | worker/subprocess_governor.py:230-269 | `telemetry_frozen` is the verdict of some run if and only if its limit is below the static-page limit, that limit is not negative, and the hard timeout is at least 30 seconds |
| Governor.DefaultsInSeconds | worker/subprocess_governor.py:40-46 | the default limits: a crawl that shows one thing alone is stopped for it if and only if more than 180, 120, 300 or 120 seconds, 30 pages or an hour have passed |
| Governor.ReachableByDefault | worker/subprocess_governor.py:40-46 | with the default limits exactly the other seven triggers can fire; `telemetry_frozen` is dead |
| Governor.Witness | worker/subprocess_governor.py:201-277 | a concrete run for each of the seven reachable triggers |
| Governor.StreakExactlyWithoutInserts | worker/subprocess_governor.py:240-249 | `duplicate_streak` fires only in runs without any insert if and only if its limit is not negative, or the hard timeout below 30 seconds |
| Governor.NeverSaturated | worker/subprocess_governor.py:279-291 | no surviving poll leaves the state `saturated`: its branch is dead |
| Governor.LifetimeIsFirstFire | worker/subprocess_governor.py:152-172 | the loop ends at the first poll that fires or with the child's life |
| Governor.SubprocessGovernor.EvaluateTriggers | worker/subprocess_governor.py:201-277 | the verdict is the first trigger in order, and the remembered fields keep just the updates made before it; `VerdictIsFirstShown` says which trigger that is |
| Governor.SubprocessGovernor.UpdateState | worker/subprocess_governor.py:279-291 | the state shown after a surviving poll |
| Governor.SubprocessGovernor.Terminate | worker/subprocess_governor.py:312-391 | SIGTERM first; SIGKILL if and only if the child outlives the grace period, at its end; zombie with one more SIGKILL if and only if it outlives five more seconds; all signals with their times; the whole takes at most grace, lag and five seconds |
| Governor.SubprocessGovernor.CollectResult | worker/subprocess_governor.py:422-455 | the final state: that of the termination if there was one, else by the return code; and the elapsed time, with the wait for the output, at most ten seconds |
| Governor.SubprocessGovernor.Run | worker/subprocess_governor.py:136-175 | the whole loop: number of polls, verdict, signals, state and remembered fields of a run that ends by itself or is stopped, and a bound in time on the whole of a stopped run, the collection of its result included |
| RateLimit.DequeSummarisesHistory | app/middleware.py:138-151 | after any run with a monotone clock the trimmed deque is the full accept history without entries older than a window |
| RateLimit.RejectedExactlyWhenFull | app/middleware.py:138-150 | only `/metrics` is exempt; another request is rejected if and only if the full history has `requests_per_minute` acceptances of its client in the preceding 60 seconds |
| RateLimit.WindowIsBounded | app/middleware.py:132-152 | no closed 60-second window of any run holds more than `requests_per_minute` acceptances of one client |
| RateLimit.OneAtATime | app/middleware.py:144-151 | with a limit of one, acceptances of a client are more than 60 seconds apart whatever the clock does |
| RateLimit.BoundHoldsExactlyWhen | app/middleware.py:144-151 | the bound holds of all runs whose clock steps back by at most d if and only if d is no step back or the limit is at most one |
| RateLimit.RateLimiter.Dispatch | app/middleware.py:140-152 | one request: verdict and new deque |
| JobLock.AcquireRaisesExactlyOnLease | worker/job_lock.py:15-24 | with the column as declared an acquire raises if and only if the row carries a lease, and is never refused; with a zoned column it is refused if and only if the lease has not ended, and never raises |
| JobLock.StepExcludesExactlyWhen | worker/job_lock.py:12-49 | a step ends exclusion if and only if the column is zoned and the step takes over the lease of a live, overdue holder |
| JobLock.ExclusionWithoutDeadlines | worker/job_lock.py:12-49 | as declared: at most one live worker per job for any workers, jobs and interleaving, however long the jobs run |
| JobLock.ExclusiveExactlyWithoutTakeover | worker/job_lock.py:12-49 | zoned: exclusion holds throughout a run if and only if no step takes over the lease of a live, overdue holder |
| JobLock.MutualExclusion | worker/job_lock.py:12-49 | zoned: at most one live worker per job as long as no live job outlasts its lease |
| JobLock.StaleReleaseBreaksExclusion | worker/job_lock.py:35-47 | release checks no owner: zoned, an overdue worker's release lets two on-time workers run together; as declared the same five steps leave one worker (concrete run) |
| JobLock.CrashLocksForGood | worker/job_lock.py:15-24 | as declared: after a crash the lease stays for good, nobody runs the job and every acquire raises, over any interleaving |
| JobLock.CrashBlocksUntilExpiry | worker/job_lock.py:23-28 | zoned: after a crash the lease stands through any interleaving until it ends, and the next acquire succeeds if and only if it has ended |
| JobLock.RunCountIsReleases | worker/job_lock.py:35-47 | with either column, over any run `run_count` is the number of releases, and a row is `running` exactly while it carries a lease |
| JobLock.JobTable.AcquireJobLock | worker/job_lock.py:12-32 | the acquire step on the table: granted, refused or raising |
| JobLock.JobTable.ReleaseJobLock | worker/job_lock.py:35-49 | the release step on the table |
| JobLock.JobTable.WithLock | worker/jobs.py:29-41 | a skip or a raising acquire changes nothing; otherwise acquire, body and one release that counts, recorded as a failure when body or release raised; if the handler's release raises too, the lease stays; the row afterwards field by field |
| CrashGate.PrunedAgreesWithHistory | app/runtime_state.py:176-185 | pruning the timestamps forgets nothing that a later pruning of the full history would keep |
| CrashGate.CooldownIsLoop | app/runtime_state.py:176-189 | the stored cooldown is on at t if and only if some crash less than 600 s before t was at least the third within 300 s |
| CrashGate.CrashesAreOrdered | app/runtime_state.py:176-185 | over sequential calls the stored state is the one the full crash history gives |
| CrashGate.SpawnsExactlyOutsideLoops | worker/forecasting_isolation.py:67-95 | a call spawns a child if and only if isolation is on and the history shows no crash loop |
| CrashGate.SafeModeExactlyAfterSegfault | worker/forecasting_isolation.py:107-115 | safe mode is on if and only if some call was let through whose child ended by signal 11, as the process or a shell tells |
| CrashGate.CrashesAreSpaced | worker/forecasting_isolation.py:67-124 | three crashes in less than 300 s are followed by at least 600 s without one |
| CrashGate.AtMostThreeCrashesPerWindow | worker/forecasting_isolation.py:67-124 | any four crashes of a run with sequential calls span at least 300 s |
| CrashGate.ForecastRuntime.RecordSubprocessCrash | app/runtime_state.py:176-185 | the prune-append-cooldown update |
| CrashGate.ForecastRuntime.RunForecastingIsolated | worker/forecasting_isolation.py:53-150 | gate, spawn and classification: the path for every case, and what is recorded |
| Slug.SqueezeIsJoin | aviation/master_data/normalize.py:22-23 | the two replacements yield the words joined by single hyphens, with a hyphen for leading or trailing separators |
| Slug.SlugIsJoinedWords | aviation/master_data/normalize.py:20-24 | the slug of any ASCII name is the hyphen-join of the lower-cased words of its kept characters |
| Slug.EveryCharacter | aviation/master_data/normalize.py:20-24 | what each single character between two letters becomes: kept, lower-cased, a hyphen, or nothing |
| Slug.SlugOfLetters | aviation/master_data/normalize.py:20-24 | a name of letters and digits keeps all of them |
| Slug.SlugFixesExactlyWellFormed | aviation/master_data/normalize.py:20-24 | every slug is over a-z, 0-9 and single inner hyphens, and exactly such strings are left unchanged |
| Slug.SlugIsIdempotent | aviation/master_data/normalize.py:20-24 | a slug normalises to itself |
| Identity.SlugIgnoresCase | aviation/master_data/normalize.py:20-24 | a name and its upper-case form have one slug, and lower-casing loses no letter |
| Identity.SameSlugExactlyWhen | aviation/master_data/normalize.py:20-24 | two names of letters and digits have one slug if and only if they are equal up to case |
| Identity.CodeIsReading | aviation/aviation_identity_governance.py:29-40 | a raw text is normalised to the code it stands for and no other: the text without the white space around it, in upper case, if that has an allowed length and is no marker |
| Identity.MergeLands | aviation/aviation_identity_governance.py:106-175 | field by field, what a raw record leaves in a row: gaps take the code that its text stands for, the trimmed callsign, country, region and alliance; id and alias go into the raw mapping; the stamps |
| Identity.MergeIsNonDestructive | aviation/aviation_identity_governance.py:106-175 | a merge keeps slug, codes, normalised name and every other non-empty field except for a longer name, lowers no confidence and loses no inner raw key |
| Identity.SilentMergeTouchesOnlyRaw | aviation/aviation_identity_governance.py:158-175 | an unreported merge changes nothing but the inner raw mapping |
| Identity.RepeatedMergeReports | aviation/aviation_identity_governance.py:127-133 | repeating a merge reports a change if and only if the record has an ICAO or callsign that normalises to nothing where the row has none |
| Identity.NormalizedCodes | aviation/aviation_identity_governance.py:29-40 | a normalised code is trimmed, upper-case and of an allowed length |
| Identity.CodesAreFixedExactlyWhen | aviation/aviation_identity_governance.py:29-40 | normalising a code again keeps it if and only if the trimmed input is not the empty marker in lower case, where two letters are allowed |
| Identity.MarkerBecomesACode | aviation/aviation_identity_governance.py:29-40 | that marker is stored as an IATA and as an ICAO code (concrete input) |
| Identity.CodesGoFirst | aviation/aviation_identity_governance.py:63-103 | an IATA match is preferred to an ICAO match, and both to a name match |
| Identity.SemanticMatchFinds | aviation/aviation_identity_governance.py:63-103 | the secondary lookup finds a row exactly when some flushed row matches by IATA, ICAO or normalised name |
| Identity.KeptIdentityStillMatches | aviation/aviation_identity_governance.py:63-103 | whatever a row matched before a merge, it still matches after |
| AirlineSync.CreationIsAMerge | aviation/aviation_identity_governance.py:228-256 | a created row is what merging its record into a blank row gives, field by field |
| AirlineSync.EveryRecordLands | aviation/master_data/sync.py:165-202 | at any place of any feed of raw records: it is skipped, or merged into the row its slug leads to, else the first flushed row with its IATA code, else ICAO code, else name, or makes a new row if there is none; and what it leaves there, in the lookup and in the counters |
| AirlineSync.PlainCodesAreStored | aviation/aviation_identity_governance.py:228-236 | a trimmed upper-case IATA or ICAO code of a new airline is stored as it is |
| AirlineSync.CoreLands | aviation/master_data/sync.py:403-455 | what each core airline leaves in the table and the lookup: which row it is linked to, or the new row field by field |
| AirlineSync.BackfilledIsFound | aviation/aviation_identity_governance.py:86-101 | in any later sync a record whose name has the same slug finds the row made from a core airline, whatever that airline's own slug |
| AirlineSync.BackfilledIsLinked | aviation/master_data/sync.py:418-449 | a row made from a core airline needs no further linking to it |
| AirlineSync.StepKeepsIndex | aviation/aviation_identity_governance.py:187-256 | one record keeps every row's own slug indexed to it and all identities, and leaves the record's slug known |
| AirlineSync.SyncInvariant | aviation/master_data/sync.py:159-202 | over any feed: slugs stay pairwise distinct, the lookup leads each row's slug to that row, no row loses its identity |
| AirlineSync.EveryRecordIsCounted | aviation/master_data/sync.py:165-202 | created, updated and skipped fall short of the feed by just the merges that report no change, and the table grows by the created ones |
| AirlineSync.SecondSyncFollows | aviation/master_data/sync.py:159-202 | replaying the feed in order rebuilds every alias of the first run |
| AirlineSync.RecordResolvesAgain | aviation/aviation_identity_governance.py:207-211 | a record that matched or was created resolves to some row at its place in any later run |
| AirlineSync.SecondSyncCreatesNothing | aviation/master_data/sync.py:159-202 | a second sync of the same feed, over any table in which the rows survive, creates no row |
| AirlineSync.StepKeepsCodesExactlyWhen | aviation/aviation_identity_governance.py:207-256 | one record keeps the non-empty IATA codes distinct if and only if it does not give a row without one a code that another row has |
| AirlineSync.SyncKeepsCodesExactlyWhen | aviation/master_data/sync.py:159-202 | a sync ends with distinct codes if and only if it starts with them and no record of the feed duplicates one |
| AirlineSync.FlushedCodesAreFound | aviation/aviation_identity_governance.py:63-103 | in any run a code of the table before the sync is duplicated only through a match by slug |
| AirlineSync.SlugMatchDuplicates | aviation/aviation_identity_governance.py:207-221 | and so it is when the slug's row has no code and another row has the record's |
| AirlineSync.FirstSyncKeepsCodesExactlyWhen | aviation/master_data/sync.py:159-202 | into an empty table: codes end distinct if and only if no two slugs of the feed have the same first code |
| AirlineSync.PendingRowsAreNotSeen | aviation/aviation_identity_governance.py:1-5 | the promised reconciliation by code fails within one feed: two slugs with one code give two rows in one sync, one row in two |
| AirlineSync.BackfillKeepsIndex | aviation/master_data/sync.py:403-455 | one core airline keeps the index invariant and is linked or reachable afterwards |
| AirlineSync.BackfillInvariant | aviation/master_data/sync.py:391-458 | the invariant of the sync holds through the backfill |
| AirlineSync.BackfillCoversCores | aviation/master_data/sync.py:403-455 | after the backfill every core airline is linked or found by its slug |
| AirlineSync.ResyncAfterBackfill | aviation/master_data/sync.py:144-217 | sync, backfill, sync of the same feed: the second sync creates nothing and slugs stay distinct |
| AirlineTable.AirlineRow.MergeFromOpenFlights | aviation/aviation_identity_governance.py:106-175 | the in-place merge gives the merged fields and the change flag |
| AirlineTable.AirlineRow.LinkToCore | aviation/master_data/sync.py:418-422 | linking fills the core id and an empty country |
| AirlineTable.SyncSession.constructor | aviation/aviation_identity_governance.py:57-60 | the lookup of all rows by slug |
| AirlineTable.SyncSession.FindExisting | aviation/aviation_identity_governance.py:207-211 | lookup first, then the queries over the flushed rows |
| AirlineTable.SyncSession.ResolveRecord | aviation/aviation_identity_governance.py:187-256 | one record on row objects: skip, merge in place or add, and the alias |
| AirlineTable.SyncSession.SyncAirlines | aviation/master_data/sync.py:159-202 | the loop over the feed's raw records equals the fold on values, aliased row objects included, and every record does to the table what its own texts call for |
| AirlineTable.SyncSession.BackfillRecord | aviation/master_data/sync.py:403-455 | one core airline on row objects, and what it leaves |
| AirlineTable.SyncSession.BackfillFromCore | aviation/master_data/sync.py:391-458 | the loop over the core airlines equals the fold on values |
| RawMetadata.MergeRawMetadata | aviation/aviation_identity_governance.py:43-54 | the outer dictionary is copied, inner dictionaries are updated in place and shared with the original |
| RawMetadata.MergedAt | aviation/aviation_identity_governance.py:43-54 | what the merged dictionary holds under each key of the patch: the old inner dictionary where both sides are mappings, the value elsewhere, nothing new for None |
| RawMetadata.MergeAndTest | aviation/aviation_identity_governance.py:158-164 | the change test fires if and only if the row held no inner mapping; an update in place goes unnoticed |
| Anomaly.LastDeviation | analytics/anomaly/detector.py:136-139 | the squared distance of the last count from the mean is at most n-1 variances |
| Anomaly.ZScoreIsBounded | analytics/anomaly/detector.py:136-139 | Samuelson: z squared is at most n-1, with the zero deviation replaced by one |
| Anomaly.SpikesNeedDays | analytics/anomaly/detector.py:135-147 | a spike at threshold t needs at least t*t + 1 days, a `high` one ten |
| Anomaly.OneMoreReachesTheBound | analytics/anomaly/detector.py:136-139 | n-1 days with equal counts and one with one more reach the bound exactly, for every count from one on |
| Anomaly.ScoreOnSquareDays | analytics/anomaly/detector.py:136-139 | on k*k + 1 such days the deviation is k/(k*k + 1) and the score exactly k |
| Anomaly.TenDaysSuffice | analytics/anomaly/detector.py:135-147 | ten days can give a `high` spike and five one at the default threshold, so both bounds are the best |
| Anomaly.FewExceedTwiceTheMean | analytics/anomaly/detector.py:289-293 | fewer than half of any non-negative weights exceed twice their mean |
| Anomaly.CutDropsNothing | analytics/anomaly/detector.py:278-294 | with at most five non-negative weights the final `[:2]` drops no topic |
| Anomaly.ExplodingTopicsAreExact | analytics/anomaly/detector.py:278-294 | as queried, a topic is reported if and only if its weight exceeds twice the mean |
| Anomaly.CutIsSafeExactlyUpTo | analytics/anomaly/detector.py:278-294 | a row limit is safe for the `[:2]` if and only if it is at most six; the query's is five |
| Forecast.ComputeEwma | analytics/forecasting/safe_service.py:195-201 | the loop computes the recursive average |
| Forecast.EwmaIsWeightedSum | analytics/forecasting/service.py:268-274 | the average is the weighted sum with weights alpha*(1-alpha)^k and (1-alpha)^(n-1) for the first value |
| Forecast.EwmaWithin | analytics/forecasting/service.py:268-274 | it stays within any bounds of the series |
| Forecast.ProjectionWithin | analytics/forecasting/safe_service.py:108-111 | the 0.55/0.45 projection stays within any bounds of the series |
| Forecast.ProjectionIsWeightedSum | analytics/forecasting/safe_service.py:108-111 | the weight of each value in the projection: 0.55 of its weight in the average, and equal shares of 0.45 for the last values of the window |
| Forecast.ForecastPoints | analytics/forecasting/service.py:171-176 | the k-th point keeps alpha^k of the distance between projection and current value |
| Forecast.PointsFollowTrend | analytics/forecasting/service.py:168-176 | every point lies between current value and projection, and those of a stable trend stay within 1.5 of the current value |
| Forecast.DenominatorPositive | analytics/forecasting/safe_service.py:212-213 | for two or more values the denominator is positive, so its replacement is never used |
| Forecast.SlopeFollowsMonotoneSeries | analytics/forecasting/safe_service.py:204-214 | Chebyshev: the slope of a non-decreasing series is non-negative, of a non-increasing one non-positive |
| Forecast.SlopeOfLine | analytics/forecasting/safe_service.py:203-214 | on a straight line the slope is the line's |
| Forecast.FittedErrors | analytics/forecasting/safe_service.py:203-214 | the normal equations: the errors of the fitted line cancel and are uncorrelated with the positions |
| Forecast.SlopeMinimisesSquaredError | analytics/forecasting/safe_service.py:203-214 | no line has a smaller squared error than the one with this slope through the means |
| Hubs.Concentration | analytics/hub_intelligence.py:375-381 | adding the squared shares gives the sum of squares over the square of the sum, and 0 without links |
| Hubs.HerfindahlIsBounded | analytics/hub_intelligence.py:367-381 | the index lies in [1/n, 1]; it is 1 if and only if n = 1 and 1/n if and only if all counts are equal |
| Hubs.MonthlyIncidents | analytics/hub_intelligence.py:673-713 | the loop over the months: just the incidents that `IncidentsAreExact` describes, in order |
| Hubs.IncidentsAreExact | analytics/hub_intelligence.py:673-701 | in whole numbers: a month is an incident if and only if its complaints exceed one and a half times the average, and the grade by two and three times the average or one |
| Hubs.GradeIsAThreshold | analytics/hub_intelligence.py:676-701 | the zero test never decides, and `critical` is exactly three times the average or more |
| Hubs.IncidentsAreFew | analytics/hub_intelligence.py:673-713 | fewer than two thirds of the months are flagged, at most one third as critical |
| Hubs.SortDescendingSorts | analytics/hub_intelligence.py:334-334 | the sort is a descending permutation |
| Hubs.CriticalHubs | analytics/hub_intelligence.py:334-337 | the number of hubs reaching the threshold, independent of the list's order: at least a tenth of the hubs if that many have complaints, and fewer lie above the least critical count |
| Hubs.TopTenthIsCritical | analytics/hub_intelligence.py:334-337 | a tenth of the hubs is critical if and only if that many have complaints; fewer exceed the threshold |
| SafeJson.SafeJsonValue | app/payload_serialization.py:38-97 | terminates on every value, cyclic or not, and equals the specification |
| SafeJson.SafeMapping | app/payload_serialization.py:66-75 | the mapping loop: text keys, a later value replaces an earlier one in place |
| SafeJson.ScalarsKeepContent | app/payload_serialization.py:42-64 | numbers, dates, UUIDs and truth values keep their content, texts all but what exceeds 16384 characters |
| SafeJson.PutKeepsKeys | app/payload_serialization.py:66-75 | maps get string keys only, each once |
| SafeJson.MapsKeepTheLastValue | app/payload_serialization.py:66-75 | keys that read the same become one, with the normalised last of their values |
| SafeJson.SortByTextSorts | app/payload_serialization.py:77-79 | a set is listed as a permutation in text order |
| SafeJson.SetsNormaliseAlikeExactlyWhen | app/payload_serialization.py:77-79 | every iteration order of a set gives the same list if and only if members with equal text normalise alike |
| SafeJson.SafeIsJsonExactlyWhen | app/payload_serialization.py:38-97 | the result is JSON with bounded strings, at any depth level or without one, if and only if every enumeration payload that is met (and not shadowed) is JSON where it comes to stand and nothing but text lies beyond the limit |
| SafeJson.FixedExactlyWhen | app/payload_serialization.py:38-97 | a value is left unchanged in every world if and only if it is in normal form |
| SafeJson.NormalisingTwice | app/payload_serialization.py:38-97 | normalising a result again, at any depth and in any later world, changes nothing if and only if the input meets the condition of `SafeIsJsonExactlyWhen` for that depth |
| SafeJson.RawPayloadIsNotFixed | app/payload_serialization.py:57-58 | an enumeration's payload is returned raw: neither JSON nor fixed (concrete value) |
| SafeJson.DeeperMayCut | app/payload_serialization.py:40-41 | at a greater depth a normal form can be cut |
| SafeJson.KeysAreNotCut | app/payload_serialization.py:66-75 | keys are not subject to the string limit |
| SafeJson.CyclicListIsCutOff | app/payload_serialization.py:40-41 | a list that contains itself becomes 33 nested lists around its own text |
| SafeJson.SafeJsonPayload | app/payload_serialization.py:100-106 | the normalised map, or a map with the normalised payload under `value`; JSON exactly when the enumeration payloads that are met are |
| KnowledgeGraph.TouchKeepsSound | analytics/knowledge_graph.py:28-52 | ensure_node keeps nodes unique, the cache truthful and all ids |
| KnowledgeGraph.JoinKeepsSound | analytics/knowledge_graph.py:54-83 | ensure_edge between known nodes keeps edges unique and anchored |
| KnowledgeGraph.RunKeepsSound | analytics/knowledge_graph.py:28-83 | over any run: unique nodes and edges, truthful cache, no dangling edge, no key changes its id |
| KnowledgeGraph.RepeatsGiveTheSameId | analytics/knowledge_graph.py:28-52 | asking for a key again gives the id of its only node |
| KnowledgeGraph.EdgeMergesProperties | analytics/knowledge_graph.py:62-83 | a request for an edge merges its properties into that edge alone |
| KnowledgeGraph.WeightsAddUp | analytics/knowledge_graph.py:62-83 | an edge's weight is its old weight plus all weights passed in the run |
| KnowledgeGraph.RequestsAddUp | analytics/knowledge_graph.py:28-83 | the same by keys: the weight between two keys grows by just what a run asks for between them, whichever ids they have |
| KnowledgeGraph.OneMentionPerRun | analytics/knowledge_graph.py:28-52 | a run adds one mention to a key however often it asks for it, because of the cache |
| KnowledgeGraph.ValidateGraphConsistency | analytics/pipeline_integrity.py:473-502 | valid if and only if every edge's source is a node; the list of issues is given |
| KnowledgeGraph.RunsLeaveNoOrphans | analytics/pipeline_integrity.py:473-502 | after any run the check finds no orphan |
| KnowledgeGraph.DanglingTargetIsMissed | analytics/pipeline_integrity.py:482-493 | an edge to a missing target goes unreported (concrete tables) |
| KnowledgeGraph.AviationKnowledgeGraph.EnsureNode | analytics/knowledge_graph.py:28-52 | returns the cached id and extends the run by one request |
| KnowledgeGraph.AviationKnowledgeGraph.EnsureEdge | analytics/knowledge_graph.py:54-83 | links two returned ids, gives the id of the edge with these ends and kind, and extends the run by the request |
| KnowledgeGraph.AirportsAreImportedExactlyWhen | analytics/knowledge_graph.py:107-151 | as the failing airline row ends the import: an airport of the master data gets its node from there if and only if there is no such row |
| KnowledgeGraph.AviationKnowledgeGraph.ImportMasterData | analytics/knowledge_graph.py:107-151 | the requests of the master-data part, up to the error that is passed over |
| KnowledgeGraph.FirstTouchWrites | analytics/knowledge_graph.py:28-52 | in a run only the first request for a key writes to its node: title and properties of a new one, properties merged into a known one |
| KnowledgeGraph.BuildTouches | analytics/knowledge_graph.py:85-189 | a build asks for just the nodes that corpus, master data and reviews call for, with their keys, titles and properties |
| KnowledgeGraph.BuildAddsMentions | analytics/knowledge_graph.py:163-189 | a build adds to each link of an airline how often its reviews tell of the entity: airports one half each, aircraft, complete routes and present disruptions one |
| KnowledgeGraph.BuildAddsCountries | analytics/knowledge_graph.py:103-151 | and to `country_of` how often the airline, or the airport of the master data, is listed with the country |
| KnowledgeGraph.AviationKnowledgeGraph.UpdateFromCorpus | analytics/knowledge_graph.py:85-189 | the build makes exactly the requests that airlines, master data and reviews call for, in order, and all the link weights grow by the counts above |
| Integrity.Reconcile | analytics/pipeline_integrity.py:242-324 | the loop yields the pointwise join, exactly the listed fields, and always calls itself consistent; metric by metric the larger of the readable count and the whole KPI, with its lineage |
| Integrity.ListsAreExact | analytics/pipeline_integrity.py:259-282 | a field is listed as reconciled, or as impossible, if and only if the KPI exceeds the count, or meets a zero count |
| Integrity.ImpossibleIsReconciled | analytics/pipeline_integrity.py:261-297 | an impossible state never goes without a reconciled field |
| Integrity.RuntimeIsNeverTheSource | analytics/pipeline_integrity.py:270-282 | the lineage never names the runtime alone as source |
| Integrity.JoinNeverLowers | analytics/pipeline_integrity.py:259-269 | no readable count is lowered, and no count with a KPI stays unreadable |
| Integrity.JoinIsIdempotent | analytics/pipeline_integrity.py:259-282 | reconciling again changes and reports nothing |
| Integrity.JoinsCommute | analytics/pipeline_integrity.py:259-269 | two KPI sources may be reconciled in either order |
| Integrity.SnapshotCleanup | analytics/pipeline_integrity.py:431-440 | a cached snapshot is dropped if and only if some live KPI meets a zero count |
| Integrity.ReconciledIsNeverStale | analytics/pipeline_integrity.py:250-269 | a snapshot reconciled with live KPIs is never dropped because of them |
| Integrity.CheckStageContract | analytics/pipeline_integrity.py:110-143 | satisfied if and only if every requirement is met |
| Integrity.FailuresAreExact | analytics/pipeline_integrity.py:110-143 | the failures are just the unmet requirements, unreadable or below the minimum |
| Integrity.MergeUpstreamCounts | analytics/semantic_correlation_upstream.py:33-70 | five counts become the maximum of the database, the field of the stage result that stands for them, and the KPI; the others stay |
| Integrity.ValidateUpstream | analytics/semantic_correlation_upstream.py:73-201 | the false-empty guard and the unreadable blockers never arise; `no_graph_nodes` if and only if every source is below the minimum; when it is ready; when it fails on a non-dictionary stage result |
| MetadataBackfill.PendingAfter | analytics/metadata_extractor.py:244-249 | rows for any first part of the pending reviews leave exactly the rest pending, in order |
| MetadataBackfill.PendingCount | analytics/metadata_extractor.py:321-322 | the pending reviews number the difference of the counts plus the rows whose review is gone |
| MetadataBackfill.RunCoversOldestFirst | analytics/metadata_extractor.py:347-370 | whatever fails, a run covers the oldest pending reviews, after full batches |
| MetadataBackfill.CoveredRowsAreDistinct | analytics/metadata_extractor.py:347-370 | with one row each |
| MetadataBackfill.RunCreates | analytics/metadata_extractor.py:347-370 | the exact number of rows a run without failures adds |
| MetadataBackfill.RunWithoutOrphans | analytics/metadata_extractor.py:347-370 | without orphaned rows it is min(pending, batch_size * max_batches), reported exactly |
| MetadataBackfill.RunReportsRemaining | analytics/metadata_extractor.py:347-370 | the `remaining` a run without failures reports, from the counts before it |
| MetadataBackfill.HonestExactlyWhen | analytics/metadata_extractor.py:347-370 | `remaining` = 0 means covered, for every backlog, if and only if one batch is allowed and no row is orphaned |
| MetadataBackfill.RunIsHonest | analytics/metadata_extractor.py:347-370 | the same for the tables of a run |
| MetadataBackfill.MetadataStore.RunBatch | analytics/metadata_extractor.py:252-344 | one batch and its report by the counts of the two tables, and the two failures; the `no rows visible` error never arises |
| MetadataBackfill.MetadataStore.RunUntilDone | analytics/metadata_extractor.py:347-370 | the loop terminates, changes the table and reports as specified |

## Left out

- Governor heartbeats, metrics and the Redis clean-up; the `_duplicate_streak` field, which nothing reads.
- Rounding and floating point in all statistics; NaN and infinities as KPI values.
- The in-process and safe-mode forecasting paths, which can call each other without end, and alerts and log lines.
- Concurrent read-modify-write of the lock row and of the runtime state, and its fallback from Redis to memory.
- `record_degraded_stage`, `get_degraded_history` and `remove_false_degraded_events`: list trimming and filtering.
- The airports sync, `_link_to_core_airlines`, the recovery from a unique violation, and the static alliance and region tables, whose results come with each record.
- Unicode decomposition before the slug's ASCII stage.
- The sentiment and reputation anomalies, the forecast series queries and the other hub dashboards: single comparisons or sums.
- The log-only creation counters of the graph build, and all but the number of its airline rows, which no statement after the failing one reaches.
- `live_kpis_from_stage_results`: its result enters the reconciliation as part of the KPIs; the coverage percentages are left out too.
- What the metadata extraction finds in a text, severities included; a negative batch size, which the database refuses.
- Failures of `str`, `isoformat` or `float` in payload normalisation, and the metrics it records.
- The iteration order of Python sets is an input; when it shows is proved.
- SafeJson.SafeJsonPayload: conversions do not fail in the model, so the `degraded` reply of the handler is left out.
- Hubs.MonthlyIncidents: one airport, in month order, with count and severity; ratings, top complaints and the final sort over all airports are left out.
