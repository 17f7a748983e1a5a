# ZaqorinCore verification

A Dafny 4.11 model of the parts of ZaqorinCore where state, arithmetic or a fast form can go
wrong, with proofs of what they promise. Each file follows one component:

- `Tarpit.dfy`, `TarpitRuns.dfy`: the bounded connection table of the deception layer, a fixed
  array of slots threaded by an intrusive list, refines an abstract most-recently-used list;
  whole runs of it.
- `EditDistance.dfy`: the two-row Levenshtein table against shortest edit scripts.
- `Timing.dfy`, `TimingTable.dfy`, `TimingRuns.dfy`: sample rings, budgets and scores in 64-bit
  arithmetic, behind a probing hash table; `Probing.dfy` and `Efsm.dfy` hold that table and its
  second instance.
- `Engine.dfy`, `TimedEngine.dfy`: the threat state machine, its alert log and the timing gate.
- `SlidingWindow.dfy`, `RateLimit.dfy`, `CspThrottle.dfy`, `SigmaRunner.dfy`, `SigmaRuns.dfy`:
  three trimmed windows against definitions that never forget anything.
- `CommandProtocol.dfy`, `CommandHandler.dfy`, `Dispatch.dfy`, `EndToEnd.dfy`: at-most-once
  execution of commands, from the database row through the agent and back.
- `DepthJson.dfy`, `Toml.dfy`, `Nginx.dfy`, `Canonical.dfy`: scanners, printers and encodings.
- `Wrappers.dfy`, `Numbers.dfy`, `Counting.dfy`, `Sequences.dfy`, `Strings.dfy`,
  `Hexadecimal.dfy`: options, number types, cardinalities, filtering, cutting and joining strings,
  number formats.

Code that updates state is a class or a method with loops, proved against a specification
function; the properties are lemmas about those functions and about whole runs. Go's 64-bit
integers wrap where `Int64` says so, the 32-bit cursor wraps, and clocks are integers (nanoseconds)
or reals (seconds). HMACs, clocks, the outcome of an action, Sigma matching, dedup rendering and
name normalisation are parameters about which nothing is assumed.

## Where the code and its descriptions differ

The model follows the code.

- agent/pkg/engine/timed.go:26-30 promises that a subject is never blocked while the timing table
  is full or the subject is unknown. The code applies the 250 ms default there, so one slower
  response moves such a subject to Challenge (`FirstSampleLateIff`, `OneLateSampleChallenges`).
- agent/pkg/timing/timing.go:173-193 computes the deviation in 64 bits. Payloads are 32-bit, and
  then the sum of squares can wrap. `DeviationExactIff` and `DeviationExactBelow` say exactly when
  the result is right: for a window, and for all windows of samples up to a bound.
  `DeviationWraps` names a window with deviation 0 instead of 1859775392. The budget of that
  window is 18 minutes instead of 250 ms (`BudgetWraps`); `BudgetIsAdaptiveIff` and
  `BudgetExactBelow` say exactly when the budget is right.
- The score (agent/pkg/timing/timing.go:324-347) never exceeds 96, wrapping or not. That at most a
  quarter of a window is late once the deviation is at least 1 holds for samples up to 1518500249
  and not beyond (`QuarterBoundSharp`); `ScoreWraps` names a window with score 40.
- server/src/zaqorincore_server/rate_limit.py:211-215 rounds the waiting time with 0.999 so that a
  client does not come back too early. Since a hit still counts at the very instant it ages out,
  the header is too short exactly when the waiting time is at least a second and its fraction is
  below a thousandth
  (`HeaderSufficesIff`, `HeaderTooShort`).
- agent/pkg/webtail/webtail.go:86-223 is described as ignoring lines that it cannot parse. On a
  line that ends with the closing quote of its request it panics (`PanicsIff`).
- agent/internal/response/response.go:209-212 answers "applied" for a command that is still
  running. Such answers are true exactly when every active handler's command has succeeded before
  (`AppliedAnswersTrueIff`), as with the agent's one command reader (`SerialAnswerTrue`);
  otherwise they can turn out false (`DuplicateOfRunningCanLie`).
- server/src/zaqorincore_server/dispatcher.py:252-263 marks a row after sending its frame. An
  acknowledgement that is handled in between updates no row, and the row then stays dispatched
  for ever (`AnswerBeforeMarkSticks`). Since only pending rows are sent, a dispatched row whose
  last frame, answer or handler is lost with a connection or a restart is not repaired either.
  `StuckIffLost` and `NeverSettlesIffLost` say that these are the only ways.
- For the same reason a frame can be sent twice. If the second is refused, for instance because
  the command has expired, the row can say failed although the command succeeded
  (`FailedThoughSucceeded`); `FailedRowsAreTrueIff` says exactly when failures are true.
- server/src/zaqorincore_server/rule_engine/runner.py:8-13 documents that a rule fires on the
  matching events of the last `timeframe_sec`. The code (lines 122-149) does not record events
  that arrive during cooldown (`FiresIffNaive`), so an event can fall short
  (`CooldownHidesEvents`). Without such an event the two agree, and only then
  (`FiresAsDocumentedIff`, `RunAsDocumentedIff`).
- The signing string (agent/internal/crypto/crypto.go:24-33) is injective on the commands whose
  identifier, kind and issue time hold no `|`, whatever their targets hold
  (`CanonicalInjective`); identifiers are UUIDs and kinds come from a fixed list. Among all
  commands, one shares its string with another exactly when a `|` precedes its lifetime or a
  number stands between two of them after it (`AmbiguousIff`).

## Model

| member | source | states |
|---|---|---|
| `Deception.Tarpit.constructor` | agent/pkg/deception/deception.go:145-166 | a new table holds no connection; a TTL that is not positive means five minutes |
| `Deception.Tarpit.LinkHead` | agent/pkg/deception/deception.go:331-343 | linking a free slot puts it in front of the threaded order: `lruNext` from `head` gives exactly the new order, and `lruPrev` its reverse |
| `Deception.Tarpit.Touch` | agent/pkg/deception/deception.go:345-363 | the touched slot moves to the front, all others keep their order, whether it was head, tail, both or neither |
| `Deception.Tarpit.Unlink` | agent/pkg/deception/deception.go:309-325 | unlinking takes exactly that slot out of the threaded order |
| `Deception.Tarpit.Clear` | agent/pkg/deception/deception.go:307-329 | releasing a slot removes that connection and no other from the list, the entries and the reverse index |
| `Deception.Tarpit.AcquireSlot` | agent/pkg/deception/deception.go:279-305 | the lowest free slot without any eviction while one exists, else the slot of the last connection of the list, which is the only one to go |
| `Deception.Tarpit.Accept` | agent/pkg/deception/deception.go:168-195 | the new connection is at the front under an identifier that names its slot and subject; the table refines the abstract list, so links, entries and index agree |
| `Deception.Tarpit.Verify` | agent/pkg/deception/deception.go:197-220 | the answer for unknown, wrong cookie, expired and good connections, a cookie being examined before the age; only a good one moves to the front, only an expired one is removed |
| `Deception.Tarpit.Release` | agent/pkg/deception/deception.go:222-232 | removes the named connection and only it; unknown identifiers are an error and change nothing |
| `Deception.Tarpit.Sweep` | agent/pkg/deception/deception.go:234-259 | leaves exactly the unexpired connections in the same order and counts the others, although it unlinks nodes while it walks; it terminates |
| `Deception.Tarpit.Len` | agent/pkg/deception/deception.go:261-277 | the walk from `head` meets each live connection once: its length is the number of live connections |
| `LruList.SameID` | agent/pkg/deception/deception.go:175-195 | identifiers are unique among live connections |
| `LruList.Lookup` | agent/pkg/deception/deception.go:365-372 | the reverse index knows exactly the live identifiers, and leads to the slot that stores the connection |
| `LruList.TouchLaws` | agent/pkg/deception/deception.go:345-363 | touching is removal followed by insertion of the refreshed connection: the stored entries and the index stay right, and the index does not change at all |
| `LruList.AcceptedIs` | agent/pkg/deception/deception.go:168-195 | the new connection, field by field, in front of the old ones, without the last of these when 16384 were live |
| `LruList.AcquiresIff` | agent/pkg/deception/deception.go:279-305 | below 16384 live connections, the new slot is held by none and every lower slot is held |
| `LruList.VerdictIff` | agent/pkg/deception/deception.go:197-220 | a cookie is honoured if and only if some live connection has that identifier and cookie and is not older than the TTL; each of the three errors if and only if the identifier is unknown, the cookie differs, or the connection is too old |
| `LruList.VerifiedIs` | agent/pkg/deception/deception.go:197-220 | a wrong cookie leaves the list as it is, an expired connection goes, an honoured one moves to the front with the time of its use; all others keep their order |
| `LruList.UnknownChangesNothing` | agent/pkg/deception/deception.go:197-232 | an identifier of no live connection changes nothing, whether it is verified or released |
| `LruList.ReleasedIs` | agent/pkg/deception/deception.go:222-232 | after a release no connection has the identifier, and all others are there in their order |
| `LruList.SweptIs` | agent/pkg/deception/deception.go:234-259 | a sweep keeps exactly the connections not older than the TTL, in their order |
| `TarpitRuns.AcceptKeeps` | agent/pkg/deception/deception.go:168-195 | after an accept the live count is the old one plus one, capped at 16384, and no slot is used twice |
| `TarpitRuns.StepKeeps` | agent/pkg/deception/deception.go:168-259 | every operation keeps slots distinct, identifiers tied to slots, and the cap |
| `TarpitRuns.RunKeeps` | agent/pkg/deception/deception.go:168-259 | so does every run from an empty table |
| `TarpitRuns.RunSorted` | agent/pkg/deception/deception.go:279-305 | on a run whose clock does not go back, the list is sorted by last use, newest first |
| `TarpitRuns.EvictsLeastRecentlyUsed` | agent/pkg/deception/deception.go:168-195 | on such a run an accept evicts only when all slots are taken, and then a connection with the least `LastSeen` |
| `TarpitRuns.Survives` | agent/pkg/deception/deception.go:168-259 | a connection at position p outlives any fewer than 16384 - p operations that neither release it nor meet it expired |
| `TarpitRuns.AcceptedCookieIsHonoured` | agent/pkg/deception/deception.go:168-220 | the round trip: the cookie handed out by an accept is honoured by a verify after up to 16383 further operations that spare the connection |
| `TarpitRuns.OtherCookieIsRefused` | agent/pkg/deception/deception.go:197-213 | on every run, a cookie other than the one handed out for a live identifier is refused, and the table stays as it was |
| `TarpitRuns.RunHandedOut` | agent/pkg/deception/deception.go:168-220 | on every run, every live connection still has the cookie that was made for it when it was accepted |
| `EditDistance.LevIsDistance` | server/src/zaqorincore_server/detection/brand_protection.py:51-73 | the recurrence is the length of the shortest script of insertions, deletions and replacements, and some script has that length |
| `EditDistance.NoShorterScript` | server/src/zaqorincore_server/detection/brand_protection.py:51-73 | no script from a to b, with edits at any positions in any order, is shorter |
| `EditDistance.ScriptExists` | server/src/zaqorincore_server/detection/brand_protection.py:51-73 | a script of exactly that length is constructed |
| `EditDistance.LevSymmetric` | server/src/zaqorincore_server/detection/brand_protection.py:51-73 | distance is symmetric |
| `EditDistance.LevTriangle` | server/src/zaqorincore_server/detection/brand_protection.py:51-73 | distance satisfies the triangle inequality |
| `EditDistance.LevZero` | server/src/zaqorincore_server/detection/brand_protection.py:51-73 | distance is 0 exactly for equal strings, which is what makes the early exit right |
| `EditDistance.LevBounds` | server/src/zaqorincore_server/detection/brand_protection.py:51-73 | distance lies between the difference and the maximum of the lengths |
| `EditDistance.Levenshtein` | server/src/zaqorincore_server/detection/brand_protection.py:51-73 | the two-row table computes the least script length |
| `EditDistance.CheckTyposquat` | server/src/zaqorincore_server/detection/brand_protection.py:89-127 | a match exactly for equal normalised names, or when least script length and length difference are within their bounds; it carries both names, that length and that difference, and is legitimate exactly for equal names |
| `EditDistance.FirstTyposquat` | server/src/zaqorincore_server/detection/brand_protection.py:130-151 | the first brand of the active list that matches, and none only if no brand matches; an empty list means the configured one |
| `EditDistance.LengthGuardRedundantIff` | server/src/zaqorincore_server/detection/brand_protection.py:89-127 | the length guard rejects no pair that passes the distance test if and only if it is no tighter than the distance bound (as the defaults are) or that bound is not positive |
| `Int64Arithmetic.IntSqrt` | agent/pkg/timing/timing.go:195-219 | the floor of the square root, with termination; 0 for negative arguments; for all arguments up to where the guard of the search wraps |
| `TimingModel.VarianceSmall` | agent/pkg/timing/timing.go:173-193 | whatever the window, the argument of the square root is at most 2^62, where the source's search cannot overflow |
| `TimingModel.RingStep` | agent/pkg/timing/timing.go:111-119 | overwriting the slot under the cursor is what appending a sample does to the ring |
| `TimingModel.RingIsRotation` | agent/pkg/timing/timing.go:111-119 | the ring holds the last 32 samples, rotated |
| `TimingModel.RingStatistics` | agent/pkg/timing/timing.go:135-193 | mean, deviation, budget and score read off the ring are those of the last 32 samples in arrival order |
| `Timing.CursorWraps` | agent/pkg/timing/timing.go:111-119 | the 32-bit cursor keeps addressing the right slot when it wraps |
| `Timing.PerSubject.Record` | agent/pkg/timing/timing.go:111-119 | the history grows by the sample, the ring stays its last 32, and the cache is never valid for an older history |
| `Timing.PerSubject.Recompute` | agent/pkg/timing/timing.go:173-193 | the cached mean and deviation are those of the last 32 samples |
| `Timing.PerSubject.Budget` | agent/pkg/timing/timing.go:135-163 | the budget of the last 32 samples, whether or not the cache had to be refreshed |
| `Timing.PerSubject.ATS` | agent/pkg/timing/timing.go:324-347 | the score of the last 32 samples, at most 100 |
| `TimingBounds.MeanBounds` | agent/pkg/timing/timing.go:173-193 | for 32-bit payloads the mean is the exact floor of the average |
| `TimingBounds.DeviationBounds` | agent/pkg/timing/timing.go:173-219 | when the sum of squared differences is below 2^63, the deviation is the exact floor of the root of the mean square |
| `TimingBounds.Chebyshev` | agent/pkg/timing/timing.go:324-347 | for 32-bit payloads whose sum of squared differences is below 2^63, with deviation s: the number of samples above mu + 3 s, times (3 s + 1)^2, is below the number of samples times (s + 1)^2 |
| `TimingBounds.LateWeight` | agent/pkg/timing/timing.go:324-347 | for 32-bit payloads, whatever wraps: the late samples together weigh at most the sum of squares, and they are never all samples |
| `TimingBounds.ScoreBounds` | agent/pkg/timing/timing.go:324-347 | for 32-bit payloads the score is at most 96, whatever wraps; it is at most 24 when the deviation is at least 1 and the sum of squared differences is below 2^64 |
| `TimingBounds.ScoreIs` | agent/pkg/timing/timing.go:324-347 | for 32-bit payloads the score is the percentage of samples above the mean plus three deviations, and 0 when both are 0; nothing wraps once the deviation is computed |
| `TimingBounds.SpreadBound` | agent/pkg/timing/timing.go:173-193 | samples from 0 to m have a mean square of differences of at most m^2 / 4 + 1 |
| `TimingBounds.QuarterBoundSharp` | agent/pkg/timing/timing.go:324-347 | the score is at most 24 on all windows of samples from 0 to m with a deviation of at least 1 if and only if m is at most 1518500249 |
| `TimingBounds.ScoreWraps` | agent/pkg/timing/timing.go:324-347 | five 32-bit samples with deviation 858993457 and score 40 |
| `TimingBounds.BudgetFromDeviation` | agent/pkg/timing/timing.go:135-163 | for 32-bit payloads the budget never wraps: given the deviation that was computed, it is mu + 3 sigma, with the default as floor and as fallback for all-zero and noisy windows |
| `TimingBounds.SmallMeanFits` | agent/pkg/timing/timing.go:173-193 | the squares of 32-bit payloads fit in 63 bits whenever their mean is at most the default budget |
| `TimingBounds.BudgetIsAdaptiveIff` | agent/pkg/timing/timing.go:135-193 | for 32-bit payloads the budget is that of unbounded arithmetic if and only if the window is short, or the squares fit in 63 bits, or both the computed and the exact deviation make the window noisy |
| `TimingBounds.BudgetExactBelow` | agent/pkg/timing/timing.go:135-193 | the budget is right on all windows of samples from 0 to m if and only if m is below 2^30 |
| `TimingBounds.DeviationExactIff` | agent/pkg/timing/timing.go:173-193 | in 64 bits the deviation is right if and only if the sum of squared differences is below 2^63 |
| `TimingBounds.DeviationExactBelow` | agent/pkg/timing/timing.go:173-193 | the deviation is right on all windows of samples from 0 to m if and only if m is below 2^30 |
| `TimingBounds.DeviationWraps` | agent/pkg/timing/timing.go:173-193 | four 32-bit samples for which it is not: the deviation comes out as 0 |
| `TimingBounds.BudgetWraps` | agent/pkg/timing/timing.go:135-163 | and their budget as 18 minutes, where unbounded arithmetic gives the 250 ms default |
| `Timing.Table.GetOrCreate` | agent/pkg/timing/timing.go:253-279 | the record of the subject itself, entered if there is room; none exactly when the subject has no slot and the table is full |
| `Timing.Table.BudgetFor` | agent/pkg/timing/timing.go:281-291 | the budget of the subject's own last 32 samples, or the default when it has no record |
| `Timing.Table.Record` | agent/pkg/timing/timing.go:293-303 | appends to the subject's own history and changes no other; false exactly when there is no room |
| `Timing.Table.ATSFor` | agent/pkg/engine/timed.go:81-92 | the score of the subject's own last 32 samples, or 0 when it has no record |
| `TimingRuns.TrackedAfter` | agent/pkg/timing/timing.go:253-303 | after any calls, a tracked subject has exactly its own samples, and one that was asked for and is not tracked found the table full |
| `TimingRuns.BudgetAfterRun` | agent/pkg/timing/timing.go:281-291 | after any interleaving of calls for any subjects, the budget and the score are those of the last 32 samples recorded for the subject, and the default exactly when it never got a slot and the table is full |
| `TimingRuns.OthersDoNotInterfere` | agent/pkg/timing/timing.go:253-303 | calls for other subjects leave the budget of a tracked subject alone |
| `Probing.FindsHeldKey` | agent/pkg/timing/timing.go:253-279 | a held key is found where it sits: every slot from its home up to there is occupied |
| `Probing.FailsIffFull` | agent/pkg/timing/timing.go:253-279 | a lookup fails if and only if the table is full and does not hold the key |
| `Probing.EnteredValid` | agent/pkg/timing/timing.go:253-279 | entering a key keeps keys distinct and probe chains unbroken, and takes a free slot if the key is new |
| `Probing.EnteredKeys` | agent/pkg/timing/timing.go:253-279 | a lookup adds at most its own key, and succeeds exactly when the key is held or there are fewer keys than slots |
| `Probing.SlotIsOwn` | agent/pkg/timing/timing.go:253-279 | the slot of a key is found for that key and for no other |
| `Probing.SlotsAreStable` | agent/pkg/timing/timing.go:253-279 | through any further lookups a key keeps the slot it once got, and no other key is ever led there |
| `Efsm.ConnTable.LookupOrCreate` | agent/pkg/efsm/efsm.go:184-203 | the connection table is the same partial map: the record of the key itself, reset only when it is new, all other records untouched, and the error exactly when the table is full without the key |
| `EngineModel.ContainsStep` | agent/pkg/engine/engine.go:215-227 | containing a pattern in order, after one more event: either before, or the event completes it |
| `EngineModel.ReachesLevelIff` | agent/pkg/engine/engine.go:190-227 | a subject has reached level n if and only if its own events contain, in order, kinds that lead there |
| `EngineModel.ContainmentIff` | agent/pkg/engine/engine.go:190-227 | containment if and only if its events contain a canary touch or rate-limit trip, then a failed challenge, then a canary touch or CFI exit |
| `EngineModel.StatusNeverDecreases` | agent/pkg/engine/engine.go:256-280 | from any store, no events lower a status |
| `EngineModel.AlertsFollowChain` | agent/pkg/engine/engine.go:256-280 | the alerts of a subject are one per level reached, in order, each for an own event with the matching kind and reason |
| `EngineModel.ProcessedConcat` | agent/pkg/engine/engine.go:290-311 | how a run is cut into batches does not matter |
| `EngineModel.ProcessedIs` | agent/pkg/engine/engine.go:215-280 | five moves of tracked subjects, each with its alert and reason, named by their numbers; nothing else changes store or alerts |
| `Engine.Engine.InstallDefaults` | agent/pkg/engine/engine.go:215-227 | every one of the 64 table entries agrees with the three-step chain |
| `Engine.Engine.Process` | agent/pkg/engine/engine.go:256-280 | one step of the chain; untracked subjects, unknown kinds and garbage statuses included; changed exactly when store and alerts change |
| `Engine.Engine.Run` | agent/pkg/engine/engine.go:290-311 | the loop processes the consumed batches in order, and reports a cancellation exactly when one comes before the end of the source |
| `Engine.ConsumedIs` | agent/pkg/engine/engine.go:290-311 | what is consumed, by index: every batch before a cancellation, up to and including the one that comes with the end of the source, in order |
| `TimedEngine.TimedProcess` | agent/pkg/engine/timed.go:102-158 | record, then look up, then absorb, rewrite or pass on; absorbed exactly when the gate passes nothing, and without a policy it is plain processing |
| `TimedModel.GateIsRewriting` | agent/pkg/engine/timed.go:102-145 | any gated run leaves store and alerts as plain processing does on the run with within-budget timing events deleted and late ones rewritten |
| `TimedModel.GateFollowsBudget` | agent/pkg/engine/timed.go:102-145 | read off the events alone: from an empty table, a gated run leaves the engine as plain processing of the events that carry no time and, as trips, of those above the budget of their subject's own last 32 times, their own included; with no room for the subject, above 250 ms |
| `TimedModel.GateStep` | agent/pkg/engine/timed.go:73-145 | one more event after any run: the engine stays as it is within that budget, and above it goes where a rate-limit trip takes it |
| `TimedModel.FastNeverPassed` | agent/pkg/engine/timed.go:73-79 | a round trip of at most 250 ms is never late, whatever the history |
| `TimedModel.FastRunChangesNothing` | agent/pkg/engine/timed.go:102-145 | a run of timing events within 250 ms changes no status and raises no alert |
| `TimedModel.TimingStopsAtChallenge` | agent/pkg/engine/timed.go:102-145 | timing events alone never take a subject past Challenge |
| `TimedModel.ScoreAfterRun` | agent/pkg/engine/timed.go:133 | after any gated run, the score of every tracked subject is at most 96, and at most 24 under the condition of `ScoreBounds`: every recorded sample is a 32-bit payload |
| `TimedModel.FirstSampleLateIff` | agent/pkg/engine/timed.go:26-30 | a first sample is late if and only if it exceeds 250 ms, with a full table too; the comment promises that such subjects are never blocked |
| `TimedModel.OneLateSampleChallenges` | agent/pkg/engine/timed.go:26-30 | one late first sample takes a nominal subject to Challenge |
| `SlidingWindow.WindowNeverOverfull` | server/src/zaqorincore_server/rate_limit.py:109-144 | with a clock that does not go back, no closed window of any position holds more accepted hits of a caller than the limit |
| `SlidingWindow.TrimCounts` | server/src/zaqorincore_server/rate_limit.py:133-137 | dropping old hits from the front leaves as many as a count over the whole window |
| `SlidingWindow.TrackTrim` | server/src/zaqorincore_server/rate_limit.py:133-137 | trimming what was kept gives what trimming the full history would |
| `SlidingWindow.RefusedIsFull` | server/src/zaqorincore_server/rate_limit.py:137-142 | a refused request finds the closed window exactly full |
| `SlidingWindow.AcceptedIffLater` | server/src/zaqorincore_server/rate_limit.py:137-142 | a refused caller is accepted later if and only if more than the reported time has passed; at that very instant it is still refused |
| `SlidingWindow.NextAfterRetryAccepted` | server/src/zaqorincore_server/rate_limit.py:137-142 | requests made meanwhile, by this caller or others, do not move that time |
| `SlidingWindow.HeaderSufficesIff` | server/src/zaqorincore_server/rate_limit.py:211-215 | waiting as long as the whole-second header says suffices if and only if the remaining time is below a second or its fraction is at least a thousandth |
| `SlidingWindow.HeaderTooShort` | server/src/zaqorincore_server/rate_limit.py:211-215 | a concrete caller that waits exactly as told and is refused again |
| `RateLimit.Bucket.Allow` | server/src/zaqorincore_server/rate_limit.py:126-144 | allowed exactly when fewer than the limit remain after trimming; a refusal records nothing and reports when the oldest remaining hit ages out |
| `RateLimit.RateLimiter.Prune` | server/src/zaqorincore_server/rate_limit.py:175-189 | every bucket is trimmed and exactly the empty ones are dropped |
| `RateLimit.RateLimiter.Dispatch` | server/src/zaqorincore_server/rate_limit.py:197-209 | the decision, the buckets and the prune counter after one request, for old and new callers |
| `RateLimitModel.BucketsTrackHistory` | server/src/zaqorincore_server/rate_limit.py:175-209 | on any run the buckets are the full accepted histories without hits that no later window can contain |
| `RateLimitModel.DecidesAsFullHistory` | server/src/zaqorincore_server/rate_limit.py:175-209 | on any run the limiter decides as the definition that never forgets, so pruning changes no decision |
| `RateLimitModel.PrunedIff` | server/src/zaqorincore_server/rate_limit.py:175-189 | pruning keeps exactly the callers with a hit in the last 60 seconds |
| `RateLimitModel.OnlyRecentCallersStay` | server/src/zaqorincore_server/rate_limit.py:197-209 | after every 256th request, a caller that still has a bucket was accepted in the last 60 seconds |
| `RateLimitModel.BucketsBounded` | server/src/zaqorincore_server/rate_limit.py:126-144 | no bucket ever holds more hits than the limit |
| `CspThrottle.Throttle.EvictStale` | server/src/zaqorincore_server/self_defense/csp_violation_reporter.py:93-103 | exactly the addresses whose latest report is out of the window go |
| `CspThrottle.Throttle.ThrottleAllowed` | server/src/zaqorincore_server/self_defense/csp_violation_reporter.py:106-125 | admitted exactly when fewer than 10 reports remain; the whole map after the call |
| `CspThrottle.EvictionTracks` | server/src/zaqorincore_server/self_defense/csp_violation_reporter.py:93-103 | eviction drops only reports that no later window can contain |
| `CspThrottle.DecidesAsFullHistory` | server/src/zaqorincore_server/self_defense/csp_violation_reporter.py:106-125 | on any run an address is admitted exactly when fewer than 10 of its reports were accepted in the closed 60 s before |
| `CspThrottle.BudgetHolds` | server/src/zaqorincore_server/self_defense/csp_violation_reporter.py:106-125 | no address is accepted more than 10 times in any closed 60 s |
| `CspThrottle.OnlyRecentAddressesStay` | server/src/zaqorincore_server/self_defense/csp_violation_reporter.py:93-125 | besides the reporting address, exactly the addresses with an accepted report in the last 60 seconds stay, with the reports they had |
| `SigmaRunner.SigmaRuleRunner.CountInWindow` | server/src/zaqorincore_server/rule_engine/runner.py:94-102 | the number of recorded events in the half-open window, with expired keys counting as empty; the sets of other pairs are untouched |
| `SigmaRunner.SigmaRuleRunner.EvaluateRule` | server/src/zaqorincore_server/rule_engine/runner.py:127-149 | the store and the fires after one rule sees one event, for a rule that does not match, is cooling, keeps counting or fires |
| `SigmaRunner.SigmaRuleRunner.Evaluate` | server/src/zaqorincore_server/rule_engine/runner.py:122-149 | all rules in order, each on the store that the ones before it left |
| `SigmaRuns.EntriesTrimmed` | server/src/zaqorincore_server/rule_engine/runner.py:94-102 | trimming twice is trimming once: earlier trims never lose an event of a later window |
| `SigmaRuns.FiresAsShould` | server/src/zaqorincore_server/rule_engine/runner.py:127-149 | a store that represents a log fires, and counts, as the log says |
| `SigmaRuns.AppliedRepresents` | server/src/zaqorincore_server/rule_engine/runner.py:104-149 | recording, expiry and cooldown keep representing the log for all later times |
| `SigmaRuns.PairAfterEvent` | server/src/zaqorincore_server/rule_engine/runner.py:122-149 | other rules, before and after, do not disturb a pair |
| `SigmaRuns.StoreRepresentsLog` | server/src/zaqorincore_server/rule_engine/runner.py:94-149 | after any run, the trimmed and expiring keys answer at every later time as the full log does |
| `SigmaRuns.FiresIffNaive` | server/src/zaqorincore_server/rule_engine/runner.py:122-149 | a rule fires at t if and only if it matches, did not fire in the cooldown before t, and at least `count` matching events were recorded outside cooldown in (t - timeframe, t]; the reported count is that number |
| `SigmaRuns.RunnerIsNaive` | server/src/zaqorincore_server/rule_engine/runner.py:122-149 | the list of fires of every event on every run is the one of the definition that never forgets |
| `SigmaRuns.RecordedIsArrivedIff` | server/src/zaqorincore_server/rule_engine/runner.py:8-13 | never more events are recorded in a window than match in it, and as many if and only if none of the window came during cooldown |
| `SigmaRuns.FiresAsDocumentedIff` | server/src/zaqorincore_server/rule_engine/runner.py:8-13 | on the next event of any run the runner fires as documented if and only if the event does not fall short: outside cooldown, with enough matching events in the window but not enough recorded ones |
| `SigmaRuns.FiresAsDocumented` | server/src/zaqorincore_server/rule_engine/runner.py:8-13 | in particular whenever no event of the window came during cooldown |
| `SigmaRuns.RunAsDocumentedIff` | server/src/zaqorincore_server/rule_engine/runner.py:8-13 | whole runs: the fires are those of a runner that counts every matching event and has its own cooldowns, at every moment, if and only if no event fell short |
| `SigmaRuns.CooldownHidesEvents` | server/src/zaqorincore_server/rule_engine/runner.py:122-149 | four events of which the last falls short: documented to fire, and it does not |
| `SigmaRuns.FiresFarApart` | server/src/zaqorincore_server/rule_engine/runner.py:112-120 | two fires in the full log of one rule and dedup key are at least the cooldown apart |
| `SigmaRuns.RunnerFiresFarApart` | server/src/zaqorincore_server/rule_engine/runner.py:112-149 | and so are any two fires that the runner returns for them on any run |
| `SigmaRuns.OtherKeysDoNotMatter` | server/src/zaqorincore_server/rule_engine/runner.py:131 | deleting the earlier events of other keys - the rendered one, or the rule's identifier where nothing is rendered - leaves the fire on the next event and its count as they were, on every run |
| `SigmaRuns.FireCarriesKey` | server/src/zaqorincore_server/rule_engine/runner.py:122-149 | every returned fire is of a rule that matches, on the event itself, under the rendered key or, where that is empty, the rule's identifier, with a count of at least the rule's |
| `SigmaModel.AppliedWrites` | server/src/zaqorincore_server/rule_engine/runner.py:104-149 | one evaluation touches only the keys of its own rule and rendered key; what it writes there, with the expiry of both keys |
| `CommandHandler.Handler.ReserveCommand` | agent/internal/response/response.go:145-156 | a duplicate exactly when the command is remembered or running; otherwise reserved |
| `CommandHandler.Handler.FindOldest` | agent/internal/response/response.go:168-174 | an oldest entry, in whatever order the map is walked |
| `CommandHandler.Handler.RememberApplied` | agent/internal/response/response.go:164-180 | at the cap one oldest entry, and only that, makes room for the new one |
| `CommandHandler.Handler.Handle` | agent/internal/response/response.go:182-257 | without a secret, with a blank identifier or kind, an issue time that does not parse or is more than 300 s off, a signature that does not verify or a kind that is not allowed, nothing is executed and the answer is failed; otherwise it is executed exactly when it is neither remembered nor in flight, and a call is a legal run of the protocol's steps |
| `CommandModel.StepKeepsInv` | agent/internal/response/response.go:145-180 | every step of every handler keeps: reservations are those of the active handlers, no two handlers share a command, and the memory is exactly the last 10000 successes |
| `CommandModel.NeverOverlaps` | agent/internal/response/response.go:145-257 | in every interleaving executions of one command never overlap, the memory stays within its cap, and no reservation outlives its handler |
| `CommandModel.SuccessesFarApart` | agent/internal/response/response.go:164-180 | a successful command can succeed again only after 10000 other commands, pairwise different, succeeded |
| `CommandModel.StartsOnlyWhenForgotten` | agent/internal/response/response.go:145-156 | a command that is executed anew is not among the last 10000 successes |
| `CommandModel.SerialAnswerTrue` | agent/internal/transport/transport.go:151 | with the agent's one command reader, every command that is answered "applied" did succeed |
| `CommandModel.AppliedAnswersTrueIff` | agent/internal/response/response.go:209-212 | in every state that any interleaving reaches, all "applied" answers that can come next are true if and only if the command of every active handler has succeeded already |
| `CommandModel.StepKeepsSound` | agent/internal/response/response.go:145-180 | what a restarted agent still has: handlers with distinct reserved commands, and a memory that holds successful commands only |
| `CommandModel.DuplicateIffRunning` | agent/internal/response/response.go:145-156 | a command that never succeeded is taken for a duplicate if and only if some handler is active on it |
| `CommandModel.DuplicateOfRunningCanLie` | agent/internal/response/response.go:209-253 | in every state in which a command is running that never succeeded, a second handler can be told "applied" and the first then fail |
| `CommandModel.ConcurrentDuplicateCanLie` | agent/internal/response/response.go:209-253 | such a state is one reservation away from the start |
| `ActionService.ActionTable.WriteAction` | server/src/zaqorincore_server/detectors/action_service.py:27-50 | adds one pending row and touches no other |
| `ActionService.ActionTable.MarkDispatched` | server/src/zaqorincore_server/detectors/action_service.py:53-69 | only a pending row becomes dispatched, no other row changes, and the answer says whether it did |
| `ActionService.ActionTable.MarkApplied` | server/src/zaqorincore_server/detectors/action_service.py:72-87 | the same from dispatched to applied |
| `ActionService.ActionTable.MarkFailed` | server/src/zaqorincore_server/detectors/action_service.py:90-106 | the same from dispatched to failed |
| `Dispatcher.Dispatcher.Offer` | server/src/zaqorincore_server/dispatcher.py:238-263 | one job: skipped, dropped with its connection, or sent and then marked |
| `Dispatcher.Dispatcher.Tick` | server/src/zaqorincore_server/dispatcher.py:227-270 | which frames go out and in which order, which connections are dropped, and which rows are marked, for a tick that may stop between a send and its mark |
| `DispatchModel.FramesAre` | server/src/zaqorincore_server/dispatcher.py:238-263 | the frame of a job goes out if and only if its host exists, has opted in and is connected, the frame is built and taken, and no earlier offer to that host failed; the frames go out in the order of the jobs |
| `DispatchModel.ConnectedIff` | server/src/zaqorincore_server/dispatcher.py:252-263 | a connection is dropped if and only if an offer to it fails; a job without host or opt-in drops none |
| `DispatchModel.MarkedIff` | server/src/zaqorincore_server/dispatcher.py:263 | with distinct actions a row is marked if and only if it was pending and its frame went out; a job without host or opt-in leaves its row alone |
| `EndToEnd.TickIsRun` | server/src/zaqorincore_server/dispatcher.py:227-270 | a tick is a legal run of send and mark steps of the whole system |
| `EndToEnd.RowsMoveForward` | server/src/zaqorincore_server/detectors/action_service.py:53-106 | in every run of server and agent a row moves only from pending to dispatched to applied or failed |
| `EndToEnd.AppliedRowsAreTrueIff` | server/src/zaqorincore_server/api/v1/stream.py:302-327 | at every moment of a run, rows and answers that say applied are true and only written commands are carried out, if and only if no command is delivered again while it is carried out for the first time; messages may be lost and the agent may restart |
| `EndToEnd.FailedRowsAreTrueIff` | server/src/zaqorincore_server/api/v1/stream.py:302-327 | rows and answers that say failed are about commands that did not succeed, at every moment of a run, if and only if no step answers failed after a success or succeeds after a failure was told |
| `EndToEnd.FailedThoughSucceeded` | server/src/zaqorincore_server/dispatcher.py:252-263 | it can go wrong: a frame sent again before the mark is refused, and the row says failed although the command succeeded |
| `EndToEnd.SerialIsNeverHasty` | agent/internal/transport/transport.go:151 | with one command reader no command is |
| `EndToEnd.StuckStep` | server/src/zaqorincore_server/dispatcher.py:252-263 | one step of server, agent or network: a row is stuck afterwards if and only if it was before, or it is marked after its answer was dropped, or its last frame, last answer or last handler is lost |
| `EndToEnd.StuckIffLost` | server/src/zaqorincore_server/dispatcher.py:252-263 | whole runs: a row is stuck if and only if some step of the run lost it in one of these ways |
| `EndToEnd.StuckForever` | server/src/zaqorincore_server/api/v1/stream.py:302-327 | a dispatched row without frame, answer or active handler stays dispatched in every run |
| `EndToEnd.SettlesIffNotStuck` | server/src/zaqorincore_server/api/v1/stream.py:302-327 | a dispatched row can still become applied or failed if and only if it is not stuck |
| `EndToEnd.NeverSettlesIffLost` | server/src/zaqorincore_server/dispatcher.py:252-263 | after any run from the start, a dispatched row can never be settled any more if and only if some step of the run lost it |
| `EndToEnd.AnswerBeforeMarkSticks` | server/src/zaqorincore_server/dispatcher.py:252-263 | a run that loses a row without losing a message: an answer that overtakes the mark is dropped, and the row is stuck though the command succeeded |
| `DepthJson.CheckDepth` | server/src/zaqorincore_server/utils/depth_json.py:52-81 | raises exactly when some bracket outside strings takes the depth above the limit, from any start index |
| `Json.PrintSpells` | server/src/zaqorincore_server/utils/depth_json.py:52-81 | every JSON value has a text, so the results below speak of every value |
| `DepthJson.CharReturns` | server/src/zaqorincore_server/utils/depth_json.py:62-70 | in whatever way section 7 of RFC 8259 spells a character, the scan is inside the string before and after it |
| `DepthJson.StringReturns` | server/src/zaqorincore_server/utils/depth_json.py:62-70 | so brackets, quotes and backslashes inside a string never count, however they are spelled |
| `DepthJson.ValueReturns` | server/src/zaqorincore_server/utils/depth_json.py:52-81 | scanning any text of a value returns to the depth it started from |
| `DepthJson.RaisesIffTooDeep` | server/src/zaqorincore_server/utils/depth_json.py:52-81 | for every JSON value and every text of it - each string and key in any spelling, each gap with its own filler - the check raises if and only if the structural depth is positive and exceeds the limit, or what follows the value raises by itself |
| `DepthJson.RaisesIffUnclosed` | server/src/zaqorincore_server/utils/depth_json.py:52-81 | on any text, well formed or not: raises if and only if, with the strings taken out, some bracket opens where the brackets opened less those closed exceed the limit; surplus closing brackets make room |
| `Toml.TomlQuote` | server/src/zaqorincore_server/api/v1/agents_provision.py:348-368 | the loop writes the quoted value of the specification that `QuoteReadsBack` and `QuoteIsOneLine` are about |
| `Toml.TomlArrayOfTables` | server/src/zaqorincore_server/api/v1/agents_provision.py:371-378 | the loops write the document that `TablesReadBack` is about, including the empty list |
| `Toml.QuoteReadsBack` | server/src/zaqorincore_server/api/v1/agents_provision.py:348-368 | a TOML v1.0.0 basic-string reader gets back every value, and stops at its closing quote |
| `Toml.QuoteIsOneLine` | server/src/zaqorincore_server/api/v1/agents_provision.py:348-368 | a quoted value holds no control character, so it never spans a line |
| `Toml.PairReadsBack` | server/src/zaqorincore_server/api/v1/agents_provision.py:376-377 | a rendered key and value read back as that key and value |
| `Toml.TablesReadBack` | server/src/zaqorincore_server/api/v1/agents_provision.py:371-378 | for every list of tables with bare distinct keys, reading the rendered document gives the same tables in the same order |
| `Toml.EscapeCharIs` | server/src/zaqorincore_server/api/v1/agents_provision.py:348-368 | quotes and backslashes get a backslash, control characters four upper-case hexadecimal digits, and no other character is touched |
| `Toml.RenderedLines` | server/src/zaqorincore_server/api/v1/agents_provision.py:371-378 | each table is a blank line, the header, and its pairs in order |
| `Nginx.ExtractQuoted` | agent/pkg/webtail/webtail.go:230-243 | the contents of the leading quoted token and what follows it; no token, no change |
| `Nginx.ParseNginxLine` | agent/pkg/webtail/webtail.go:86-223 | the index arithmetic of the parser computes the field-by-field parse, its rejections and its panic included |
| `NginxModel.RoundTrip` | agent/pkg/webtail/webtail.go:86-223 | printing a record in combined format and parsing it, with any line ending, gives back its fields, for all fields free of their own delimiters |
| `NginxModel.KeysOfFieldMap` | agent/pkg/webtail/webtail.go:205-222 | address and user are absent exactly when they are a dash, referer and agent exactly when they are empty; the four other keys are always there, and each key has its own field |
| `NginxModel.NoOtherKeys` | agent/pkg/webtail/webtail.go:205-222 | the map has no other keys than these eight |
| `NginxModel.RecognisedIff` | agent/pkg/webtail/webtail.go:86-223 | a line is recognised with given fields if and only if, without its line ending, it is put together from parts of the combined format, free of their delimiters and with two numbers that fit in 64 bits, and these are its fields |
| `NginxModel.AtoiIff` | agent/pkg/webtail/webtail.go:169-188 | a number is digits with an optional sign, within 64 bits |
| `NginxModel.QuotedIs` | agent/pkg/webtail/webtail.go:230-243 | the token is the text between the leading quote and the next, and one space after it goes; without two quotes nothing is taken |
| `NginxModel.PanicsIff` | agent/pkg/webtail/webtail.go:149-157 | the slice expression runs past the end exactly on lines with well-formed head fields whose request closes with the last character |
| `NginxModel.TruncatedRecordPanics` | agent/pkg/webtail/webtail.go:149-157 | every record cut off right after its request is such a line |
| `Canonical.FormsAgree` | server/src/zaqorincore_server/crypto.py:31-40 | the server's form and the agent's form are equal |
| `Canonical.ItoaReadsBack` | agent/internal/crypto/crypto.go:25-30 | the decimal lifetime can be read back and holds no separator |
| `Canonical.CanonicalInjective` | agent/internal/crypto/crypto.go:24-33 | commands whose identifier, kind and issue time hold no separator have equal signing strings only if they are equal, whatever their targets hold |
| `Canonical.UnambiguousIsUnique` | agent/internal/crypto/crypto.go:24-33 | a signing string with no separator before the lifetime and no number between separators after it belongs to one command only, among all commands |
| `Canonical.AmbiguousIff` | agent/internal/crypto/crypto.go:24-33 | and that condition is sharp: every other command shares its signing string |

## Left out

- Int64Arithmetic.IntSqrt: requires an argument below 3037000499^2, from where on the guard of the source's search wraps; `VarianceSmall` proves that its only caller never exceeds 2^62.
- CommandHandler.Handler.Handle: describes a call during which the other active handlers do nothing; interleavings are the steps of `CommandModel`, whose timestamps are strictly increasing and whose agent does not restart; restarts are steps of `EndToEnd`, where at-most-once execution is not claimed across them.
- Dispatcher.Dispatcher.Tick: hosts that connect during a tick, and the dispatcher's polling loop; whether a connection takes a frame is a parameter of each job, whose actions `TickIsRun` takes to be distinct and pending.
- Nginx.ExtractQuoted: passes and returns the string that the source advances through a pointer.
- RateLimit.RateLimiter.Dispatch: needs a positive limit, which server/src/zaqorincore_server/config.py:53 enforces; path exclusion, the choice of the bucket key and the HTTP answer are not modelled, except the Retry-After value.
- SigmaRuns.FiresIffNaive: assumes distinct rule identifiers, event identifiers that are never reused, positive timeframes and cooldowns, and a clock that starts at 0 or later and does not go back.
- Toml.TablesReadBack: reads with a reader for comments-free documents of `[[log_source]]` tables whose values are basic strings; `render_agent_toml` and the rest of the configuration file are not modelled.
- Redis is its atomic effect on one sorted set and one key; one clock reading serves both the runner and the expiry of keys, and pairs are indexed by rule identifier and dedup key instead of one concatenated string.
- HMAC-SHA256, UUIDs, nonces and constant-time comparison: no cryptographic claim is made.
- Mutexes: every locked section is one atomic step. Goroutine scheduling, `sync.Pool`, allocation counts and memory layout are not modelled.
- Saturation of `time.Duration` on clock differences of more than 292 years, and rounding of Python floats.
- `ATSGate` and `RunWithTiming` (agent/pkg/engine/timed.go:160-200), and an engine without an alert sink: one-line variations of what is modelled.
- Canonical.AmbiguousIff: lifetimes are unbounded integers, as in Python.
- EndToEnd.StuckIffLost: an operator who edits rows is not among the steps.
- EndToEnd.FailedRowsAreTrueIff: a command has succeeded when the agent has remembered it; one that was carried out just before a crash has not.
- Unicode: strings are sequences of characters; byte offsets in Go coincide with them only for the single-byte delimiters that the parsers look for. `strip` and `lower` are an arbitrary function.
- `protected_brands` parsing of the environment variable: the configured list is a parameter.
- `raw_decode` after the depth check, that is JSON decoding itself.
- The ModSecurity parser, protocol recognition in `efsm.go`, `pkg/decode`, tailers, eBPF, the Windows event log and the canary watcher: byte formats and operating-system effects.
- The action kinds, evidence store, SOAR worker, provisioning commands, web UI, database models, HTTP and WebSocket plumbing: foreign calls, or claims of one branch.
