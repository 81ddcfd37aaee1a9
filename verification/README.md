# Export-intelligence core: a verified model

The repository is a platform that advises on exporting a product to a market. This project models the
parts of it that carry invariants and proves what they keep. Every module follows one group of source files.

- **Tariff codes.** `HsBands`, `HsSelection`, `HsDialog`, `HsClassifier`: reading numeric bands from tariff
  texts, accepting a set of candidate codes only if its bands partition an interval, choosing by a measured
  value, refusing approximate conversions near an edge, completing a list with siblings, merging candidate pools.
- **Report checks.** `Grounding`, `Isolation`, `Escalation`: which numbers of a report are traceable, delimiting
  untrusted text in a prompt, and retrying a truncated report under growing output caps.
- **Resilience.** `CircuitBreaker`, `HttpFetch`, `Throttle`, `RateLimiter`, `Collector`: state machines with
  histories, and the costs and counts of whole runs.
- **Agreement of data paths.** `MarketStore`, `CountryCodes`, `CollectedStore`, `Decision`, `Leads`: aggregation
  against store read-back from both writers, the weighted decision, and company leads.
- **Shared.** `Wrappers`, `Common`, `StableSort`, `KeyedBest`, `Rounding`.

Where the source changes state or runs a loop, the model has a class or a method with a loop, proved equal to a
specification function; the lemmas are about that function and about sequences of calls. Clocks, random draws,
HTTP replies and model answers are parameters chosen freely, attempt by attempt. Numbers that are floats in the
source are exact reals, with Python's `round` (halves to even) written out.

## Where the code and its documentation differ

The model follows the code. A row whose last column begins with "Finding" shows an input for which a
documented promise fails, or states exactly when the promise holds.

- Half open is documented as one exploratory attempt: until an outcome is recorded the breaker admits every caller,
  each with its retries.
- Retry-After is cut at thirty seconds, and a throttled caller's wait at five.
- The daily budget is called hard, but overlapping runs each read all of it, runs that are cut off leave no row,
  `budget_left` is read before the run's own row is filled in, and a run that crosses midnight counts for the day before.
- The reserve for live requests may be eaten into by the last code that is pre-warmed.
- The three-percent tolerance is plus or minus one for expected values under a hundred thirds.
- A finished report that is shorter than a truncated earlier one is dropped in its favour; the rule that nothing
  partial is delivered holds for all runs only where nothing escalates.
- Supplier rows that a refresh no longer sees stay in the store. Collection stores a supplier's last record, where a
  live result sums them, and the World row as it comes.
- GO asks for a confidence of 0.6 after rounding, and an input of zero counts as absent in two pillars.
- An automatic tariff code must be clear of the runner-up by a margin, but the runner-up is by rank, so a candidate
  with more overlap may stand third.
- Leads are told apart by name and address joined with a bar that either may contain.

## Model

| member | source | states |
|---|---|---|
| `HsBands.EndsComeFromPhrases` | packages/silk_intel/silk_intel/silk_hs_attributes.py:384-424 | Each end of a band read from a tariff text is the last bound phrase of its side in the band's own unit family, with that phrase's strictness, and is open if and only if there is none; the family prevails over every other in the text |
| `HsBands.HoldsWhatTheTextSays` | packages/silk_intel/silk_intel/silk_hs_attributes.py:384-501 | A band read from a text holds exactly the values that obey the last lower and the last upper phrase of its family: more or less than the bound, or equal to it where the phrase admits that |
| `HsBands.TextGivesBandExactly` | packages/silk_intel/silk_intel/silk_hs_attributes.py:396-424 | A text with bound phrases gives a band if and only if its last phrases leave room for more than one value and its dimension has a name |
| `HsBands.BandIsOf` | packages/silk_intel/silk_intel/silk_hs_attributes.py:403-424 | A band keeps the code, the axis and the basis of its text; its dimension is its family where that names one, and else the word before the first phrase of the family |
| `HsBands.DominantHasMost` | packages/silk_intel/silk_intel/silk_hs_attributes.py:403-407 | The unit family chosen for a text has more bound phrases than any other in it, or as many and the last one of all |
| `HsBands.InteriorPoint` | packages/silk_intel/silk_intel/silk_hs_attributes.py:417-424 | Every band the code builds contains a value strictly between its ends: no band is empty |
| `HsBands.AcceptsExactlyPartitions` | packages/silk_intel/silk_intel/silk_hs_attributes.py:441-481 | A candidate set is accepted if and only if it has two or more bands, one dimension, family and axis, and the bands partition an interval of the real line; the partition is defined without mention of sorting or adjacency |
| `HsBands.AcceptedIs` | packages/silk_intel/silk_intel/silk_hs_attributes.py:455-481 | What is accepted is the bands of the candidates, each as often as it was given, in strictly rising order of lower end, under the dimension and the family of every one of them |
| `HsBands.Partition` | packages/silk_intel/silk_intel/silk_hs_attributes.py:466-526 | In an accepted chain a value has exactly one band when it lies between the first lower and last upper end and none otherwise, so the single-hit test means "some band contains it" |
| `HsBands.ChainedDisjoint` | packages/silk_intel/silk_intel/silk_hs_attributes.py:466-481 | Two bands of a chain, adjacent or not, never hold a common value |
| `HsBands.OrderIndependent` | packages/silk_intel/silk_intel/silk_hs_attributes.py:455-481 | Any permutation of the candidates gives the same acceptance and the same ordered list of bands |
| `HsSelection.EdgeGuardSound` | packages/silk_intel/silk_intel/silk_hs_attributes.py:515-526 | A code returned for a reading whose unit basis conflicts with the bands is the one every value within the margin would get |
| `HsSelection.EdgeGuardExact` | packages/silk_intel/silk_intel/silk_hs_attributes.py:218-241 | On a conflicting basis a code is returned if and only if some band holds the whole margin around the reading strictly inside it |
| `HsSelection.SameBasisExact` | packages/silk_intel/silk_intel/silk_hs_attributes.py:504-526 | On the bands' own basis a code is returned for exactly the values of the chain's hull |
| `HsSelection.CandidatesSelectExactly` | packages/silk_intel/silk_intel/silk_hs_attributes.py:441-526 | From candidates in any order whose bands have the family of the unit read, and in a percentage on their own terms, a code is returned if and only if some candidate's band holds the converted value, and it is the code of every candidate whose band does |
| `HsSelection.CandidatesGuardedExactly` | packages/silk_intel/silk_intel/silk_hs_attributes.py:218-241 | The same in foreign terms, mass per volume or a basis that no band declares where some band declares another: a code is returned if and only if some candidate's band holds the whole margin around the converted value |
| `HsSelection.UnmeasuredSelectsNothing` | packages/silk_intel/silk_intel/silk_hs_attributes.py:511-519 | Candidates that are not accepted, or whose family is not that of a known unit, select nothing |
| `HsSelection.ResolvedIsMeasured` | packages/silk_intel/silk_intel/silk_hs_attributes.py:756-855 | A resolved code belongs to the one band that holds the measured value, and a second source, if there was one, converts to the same family and lies within the tolerance, or within a billionth |
| `HsSelection.ConflictsExactly` | packages/silk_intel/silk_intel/silk_hs_attributes.py:747-817 | A product is reported as conflicting, and gets no code, if and only if both sources were read and their values do not convert or lie further apart than the tolerance and a billionth; with no reading it gets none |
| `HsSelection.ResolvesExactly` | packages/silk_intel/silk_intel/silk_hs_attributes.py:756-855 | Measured on the bands' own basis, a product gets a code if and only if its readings agree and the leading one, the image before the web, lies in the chain's hull |
| `HsSelection.SourcesInterchangeable` | packages/silk_intel/silk_intel/silk_hs_attributes.py:747-753 | Two agreeing readings select the same code when the tolerance cannot straddle an edge and the edge guard treats both alike |
| `HsSelection.SourcesInterchangeableExactly` | packages/silk_intel/silk_intel/silk_hs_attributes.py:747-753 | Every reading in a unit that agrees with the photographed one chooses the band that one chooses if and only if the band takes both ends of the tolerance in that unit, guard included, or, where none was chosen, no band takes any value of the tolerance |
| `HsSelection.SourcesSelectSameCodeExactly` | packages/silk_intel/silk_intel/silk_hs_attributes.py:504-526 | The same about codes: with one band per code, every agreeing reading in the unit selects what the photographed one selects under exactly the same condition |
| `HsSelection.AgreedReadingsMayDifferInCode` | packages/silk_intel/silk_intel/silk_hs_attributes.py:819-850 | Agreement of the values alone does not suffice: two equal values on different bases, one refused by the guard; the source promises only that the stronger source decides |
| `HsDialog.HeadingIndex` | packages/silk_intel/silk_intel/silk_hs_dialog.py:86-103 | The per-heading, per-axis index answers the sibling query of every banded code |
| `HsDialog.SiblingsAre` | packages/silk_intel/silk_intel/silk_hs_dialog.py:106-116 | The siblings of a code are exactly the banded codes that share its first four digits and its axis, itself included, each once and sorted |
| `HsDialog.LexLeExactly` | packages/silk_intel/silk_intel/silk_hs_dialog.py:102-103 | The order in which codes are sorted: one is the start of the other or has the smaller character where they first differ |
| `HsDialog.BuildCandidates` | packages/silk_intel/silk_intel/silk_hs_dialog.py:204-264 | The accumulating loops build the list that the specification function describes |
| `HsDialog.Shown` | packages/silk_intel/silk_intel/silk_hs_dialog.py:217-250 | The shown codes are, each once, exactly the requested codes that stand in the reference or the seed, and the siblings of those |
| `HsDialog.ClosureOperator` | packages/silk_intel/silk_intel/silk_hs_dialog.py:217-264 | Extensive on real codes, shows no unreal code, closed under siblings, and applying it to its own codes gives the same set |
| `HsDialog.ClosureMonotone` | packages/silk_intel/silk_intel/silk_hs_dialog.py:217-264 | More requested codes never show fewer |
| `HsDialog.FlagsAdded` | packages/silk_intel/silk_intel/silk_hs_dialog.py:251-264 | The rows are those of the shown codes in their order; a row is banded, verified and flagged as added exactly when its code has a band, is in the seed, and was not requested |
| `HsDialog.ShownOrder` | packages/silk_intel/silk_intel/silk_hs_dialog.py:236-250 | Banded codes come first, in nondecreasing order of lower end |
| `HsDialog.UnbandedAsAsked` | packages/silk_intel/silk_intel/silk_hs_dialog.py:217-248 | Codes without a band stand at the end of the list, in the order in which they were first asked for |
| `HsDialog.ResolverUnaffected` | packages/silk_intel/silk_intel/silk_hs_confirm.py:715-725 | What the numeric resolver is fed of the completed, reordered list discriminates exactly as the codes originally asked for |
| `HsDialog.PublicKeepsEngineOrder` | packages/silk_intel/silk_intel/silk_hs_classifier.py:661-685 | The public list is the engine's real candidates in the engine's order, then the added siblings in order of code |
| `KeyedBest.CollectHoldsBest` | packages/silk_intel/silk_intel/silk_hs_classifier.py:424-430 | The insertion-ordered dictionary keeps one entry per key, the best seen for that key |
| `KeyedBest.BestIsMaximal` | packages/silk_intel/silk_intel/silk_hs_classifier.py:424-430 | The kept entry is at least as good as every entry of its key |
| `KeyedBest.BestIsFirst` | packages/silk_intel/silk_intel/silk_gmaps.py:263-274 | Among equally good entries of a key the first to arrive is kept |
| `HsClassifier.DedupeCandidates` | packages/silk_intel/silk_intel/silk_hs_classifier.py:424-430 | The dictionary loop and the descending sort compute the specification function |
| `HsClassifier.DedupeIs` | packages/silk_intel/silk_intel/silk_hs_classifier.py:384-430 | One candidate per code, the best of its code, listed best first, and no code lost; better is shown before not shown, then proposed by the model before not, then overlap, then confidence |
| `HsClassifier.DedupeKeepsTies` | packages/silk_intel/silk_intel/silk_hs_classifier.py:424-430 | Equally ranked candidates stay in the order in which their codes were first seen |
| `HsClassifier.IncrementalMerge` | packages/silk_intel/silk_intel/silk_hs_classifier.py:517-525 | Deduplicating a pool, adding another and deduplicating again keeps exactly the candidates of doing it once |
| `HsClassifier.IncrementalMergeSameList` | packages/silk_intel/silk_intel/silk_hs_classifier.py:587-597 | The two lists are also in the same order when no two kept candidates tie |
| `HsClassifier.MergeOrderCannotChangeVerdict` | packages/silk_intel/silk_intel/silk_hs_classifier.py:527-543 | Ties can reorder the pool but never change which candidate, if any, is confirmed automatically |
| `HsClassifier.ConfirmedExactly` | packages/silk_intel/silk_intel/silk_hs_classifier.py:527-543 | A candidate of a merged pool is confirmed automatically if and only if it is listed first, has a seed row whose share of terms reaches the threshold, and is ahead of every runner-up by the margin in overlap |
| `HsClassifier.MarginCoversAllExactly` | packages/silk_intel/silk_intel/silk_hs_classifier.py:527-543 | Finding: over the pools that validation admits, the margin of an automatic confirmation holds against every candidate if and only if the model did not propose the runner-up, or the runner-up fails the display threshold and every two-place overlap below it is clear of the leader's by the margin |
| `Grounding.FormulaGroundedNumbers` | packages/silk_intel/silk_intel/silk_evals.py:154-189 | The pass that grows two sets returns the set of the specification function |
| `Grounding.GroundedExactly` | packages/silk_intel/silk_intel/silk_evals.py:120-189 | A number is known or rooted if and only if it has a finite derivation tree of equations that hold, each with a traceable operand and using only what stands earlier; known or grounded also admits assumptions declared in such an equation. To hold is defined without the pass: a percentage is a hundredth, division is multiplication backwards, and the written result is within one of the outcome or within three percent |
| `Grounding.ResultGroundedExactly` | packages/silk_intel/silk_intel/silk_evals.py:124-146 | Between two cited numbers, for each of the four operations and any percent signs, the written result is grounded if and only if it rounds the outcome; division by zero grounds nothing |
| `Grounding.OnlyAssumptionsAreUnrooted` | packages/silk_intel/silk_intel/silk_evals.py:177-188 | What is grounded but not rooted is neither cited nor derived: it is a declared assumption operand of a derived equation |
| `Grounding.MonotoneInEvidence` | packages/silk_intel/silk_intel/silk_evals.py:160-189 | Two runs: citing more numbers can only enlarge what counts as traceable |
| `Grounding.ScoreMonotone` | packages/silk_intel/silk_intel/silk_evals.py:192-207 | A report that scores 100 still does after more findings are added |
| `Grounding.ScoreExact` | packages/silk_intel/silk_intel/silk_evals.py:192-207 | A report scores 100 if and only if each of its numbers is traceable in the sense of the derivation trees, and 0 otherwise |
| `Grounding.NoEvidenceNoGrounding` | packages/silk_intel/silk_intel/silk_evals.py:160-189 | With no cited number nothing is grounded, however many equations check |
| `Grounding.ToleranceIsRelativeExactly` | packages/silk_intel/silk_intel/silk_evals.py:129-146 | Finding: the check is a three-percent check if and only if the expected value is at least a hundred thirds in size |
| `Grounding.SmallNumbersPassUnchecked` | packages/silk_intel/silk_intel/silk_evals.py:141-146 | Finding: below that size wrong arithmetic passes; 0.1 x 0.2 = 0.9 grounds 0.9 |
| `Isolation.MarkersOnce` | packages/silk_intel/silk_intel/silk_ai_judge.py:59-72 | For every text the start marker occurs once, at the very beginning, and the end marker once, at the very end |
| `Isolation.NoNewOccurrence` | packages/silk_intel/silk_intel/silk_ai_judge.py:68-70 | A replacement creates no occurrence of a marker, not even across a replacement boundary |
| `Isolation.CleanIsFree` | packages/silk_intel/silk_intel/silk_ai_judge.py:68-70 | After the two successive replacements neither marker occurs in the text |
| `Isolation.CleanOnlyMarkers` | packages/silk_intel/silk_intel/silk_ai_judge.py:68-70 | Cleaning changes a text if and only if it carries a marker, keeps its length, and is idempotent |
| `Isolation.PromptReadsBack` | packages/silk_intel/silk_intel/silk_ai_judge.py:59-72 | Round trip: a reader that honours the markers recovers every embedded text as data and all trusted text outside, for any number of embedded texts |
| `Escalation.Escalate` | packages/silk_intel/silk_intel/silk_ai_judge.py:1238-1260 | The loop makes the attempts, keeps the text and raises the flag that the specification functions say |
| `Escalation.CapsOfARun` | packages/silk_intel/silk_intel/silk_ai_judge.py:1238-1260 | A run uses one cap an attempt: the base first, then the base times two to the attempt, cut at the ceiling; every attempt but the last stayed below the ceiling, and caps never fall |
| `Escalation.CapReaches` | packages/silk_intel/silk_intel/silk_ai_judge.py:1254-1260 | Attempt k runs at the ceiling if and only if base times two to the k reaches it |
| `Escalation.NoSilentTruncationExactly` | packages/silk_intel/silk_intel/silk_ai_judge.py:1238-1260 | No run can end on a truncated attempt without the flag if and only if base times two to the retries reaches the ceiling |
| `Escalation.KeptIsLongest` | packages/silk_intel/silk_intel/silk_ai_judge.py:1239-1249 | The text kept is a longest one of all attempts, the first of that length |
| `Escalation.FinishedTextKeptExactly` | packages/silk_intel/silk_intel/silk_ai_judge.py:1248-1253 | The finished text of the last attempt is kept if and only if it is strictly longer than every truncated text before it |
| `Escalation.SafeExactly` | packages/silk_intel/silk_intel/silk_ai_judge.py:1261-1277 | No partial text ships unchecked if and only if the run is flagged, has no text, or ends with a finished text longer than all before |
| `Escalation.SafeSettingsExactly` | packages/silk_intel/silk_intel/silk_ai_judge.py:1238-1277 | Finding: no run, whatever the model answers, ships a partial text unchecked if and only if the base cap already is the ceiling, so that nothing escalates |
| `Escalation.ShorterFinishIsDropped` | packages/silk_intel/silk_intel/silk_ai_judge.py:1238-1277 | Finding: with the default settings a finished but shorter retry loses to the truncated text before it, which then ships unchecked |
| `Escalation.OrderExactly` | packages/silk_intel/silk_intel/silk_ai_judge.py:1325-1339 | The order check passes if and only if the known headings are the eleven sections in order, each once |
| `Escalation.FlaggedShipsComplete` | packages/silk_intel/silk_intel/silk_ai_judge.py:1269-1291 | A text shipped after truncation has all eleven sections and ends on a terminal mark |
| `Escalation.ShippedExactly` | packages/silk_intel/silk_intel/silk_ai_judge.py:1261-1291 | A text is shipped if and only if it is the kept one of an unflagged run, or, where the run is flagged, the longer of the kept one and its continuation, the kept one on a tie, and has all eleven sections and a terminal mark at its end |
| `CircuitBreaker.Breaker.constructor` | packages/silk_intel/silk_intel/silk_circuit.py:31-36 | An empty history; threshold and cooldown clamped to at least one |
| `CircuitBreaker.Breaker.IsOpen` | packages/silk_intel/silk_intel/silk_circuit.py:38-51 | Open if and only if the history says so |
| `CircuitBreaker.Breaker.RecordFailure` | packages/silk_intel/silk_intel/silk_circuit.py:53-59 | Appends one failure of the key to the history the table stands for |
| `CircuitBreaker.Breaker.RecordSuccess` | packages/silk_intel/silk_intel/silk_circuit.py:61-64 | Appends one success of the key |
| `CircuitBreaker.Breaker.Failures` | packages/silk_intel/silk_intel/silk_circuit.py:66-70 | The failures since the key's last success or reset |
| `CircuitBreaker.Breaker.Reset` | packages/silk_intel/silk_intel/silk_circuit.py:72-78 | Appends the reset of one key or of all |
| `CircuitBreaker.CellsRefineHistory` | packages/silk_intel/silk_intel/silk_circuit.py:53-64 | The stored pair is the current failure streak and, once the streak reaches the threshold, the time of the last failure |
| `CircuitBreaker.OpenExactly` | packages/silk_intel/silk_intel/silk_circuit.py:38-64 | After any history the circuit is open if and only if the failures since the last success or reset reach the threshold and the last failure is younger than the cooldown |
| `CircuitBreaker.HalfOpenAdmitsEveryCaller` | packages/silk_intel/silk_intel/silk_circuit.py:38-51 | A caller who is let in would be let in at any later time until something is recorded for its key: asking refuses nobody |
| `CircuitBreaker.HalfOpenExactly` | packages/silk_intel/silk_intel/silk_circuit.py:41-51 | Finding: once the cooldown of an open key is over, a later caller is refused if and only if the key failed again within the cooldown and, where it was cleared meanwhile, reached the threshold anew; the documented single attempt holds only so |
| `CircuitBreaker.TurnsGiveOneProbe` | packages/silk_intel/silk_intel/silk_circuit.py:41-51 | Callers who record their outcome before the next asks get one attempt a cooldown while the attempts fail, and all are let in after one succeeds |
| `CircuitBreaker.TwoProbesAtOnce` | packages/silk_intel/silk_intel/silk_circuit.py:41-51 | Finding: with the default settings two callers, a second apart, are both let in after the cooldown; only a recorded failure shuts out the third |
| `HttpFetch.HttpGet` | packages/silk_intel/silk_intel/silk_data_layer.py:159-206 | One call makes at most retries plus one attempts, one if the circuit is open, and records exactly one outcome, of its last attempt, unless an exception outside the HTTP library passes through, which records none; an answer leaves the host without a failure, and anything else adds one |
| `HttpFetch.AnswerCloses` | packages/silk_intel/silk_intel/silk_data_layer.py:191-193 | A call that ends in a status other than 429, 500, 502, 503 and 504 clears its host's streak and closes its circuit at once, and changes no other host's |
| `HttpFetch.RunOpensExactly` | packages/silk_intel/silk_intel/silk_data_layer.py:171-206 | After any calls to any hosts that follow one another, a host's circuit is open if and only if some stretch to the end without an answer from it has at least T failed calls to it, and the latest failure is younger than the cooldown |
| `HttpFetch.StormCost` | packages/silk_intel/silk_intel/silk_data_layer.py:171-206 | A run of failing calls to a host, interleaved with any calls to others, costs at most one attempt a call plus the retries of the calls that found the circuit closed |
| `HttpFetch.StormBound` | packages/silk_intel/silk_intel/silk_data_layer.py:171-206 | From a clean slate m such calls, m at least T, make at most T(retries+1) + (m-T) attempts |
| `HttpFetch.StormBoundReached` | packages/silk_intel/silk_intel/silk_data_layer.py:171-206 | The bound is an equality when the host answers only retryable statuses |
| `HttpFetch.TrafficBound` | packages/silk_intel/silk_intel/silk_data_layer.py:171-206 | In any interleaving of at most k failing calls at a time, from a clean slate, at most T + k - 1 calls find the circuit closed, so attempts are at most (T + k - 1) retries and one for every call |
| `HttpFetch.TrafficBoundReached` | packages/silk_intel/silk_intel/silk_data_layer.py:171-206 | The bound is reached: T - 1 failures in turn and then k calls that all ask before any of them ends |
| `HttpFetch.ProbeIsSingleExactly` | packages/silk_intel/silk_intel/silk_data_layer.py:171-206 | Finding: a call that finds the circuit half open is a single attempt, whatever the host answers, if and only if no retries are configured |
| `HttpFetch.DelayBounds` | packages/silk_intel/silk_intel/silk_data_layer.py:146-156 | Without Retry-After the wait lies between two to the attempt and twice that, both cut at thirty seconds |
| `HttpFetch.RetryAfterHonouredExactly` | packages/silk_intel/silk_intel/silk_data_layer.py:146-156 | Finding: a numeric Retry-After (section 10.2.3 of RFC 9110) is waited out if and only if it is at most thirty seconds |
| `HttpFetch.RetryAfterSpreadExactly` | packages/silk_intel/silk_intel/silk_data_layer.py:146-156 | For a header of up to 29.5 seconds the waits that the jitter can give are exactly those from it to half a second more |
| `Throttle.Throttle.constructor` | packages/silk_intel/silk_intel/silk_data_layer.py:104-104 | No slot has been given out |
| `Throttle.Throttle.Reserve` | packages/silk_intel/silk_intel/silk_data_layer.py:135-143 | One passage through the lock reserves the next slot of the host and returns the wait the code computes |
| `Throttle.SpacedSnoc` | packages/silk_intel/silk_intel/silk_data_layer.py:135-143 | In every interleaving the slots of one host stay pairwise at least one gap apart |
| `Throttle.ReleasedInSlot` | packages/silk_intel/silk_intel/silk_data_layer.py:135-143 | A caller whose wait is at most five seconds goes on no earlier than its slot |
| `Throttle.ReleasedInSlotExactly` | packages/silk_intel/silk_intel/silk_data_layer.py:141-143 | Finding: with no delay in between, a caller goes on in its slot if and only if the wait is at most five seconds |
| `Throttle.BurstReleased` | packages/silk_intel/silk_intel/silk_data_layer.py:135-143 | Caller k of a burst goes on k gaps after the first, but never later than five seconds after it |
| `Throttle.BurstSpacedExactly` | packages/silk_intel/silk_intel/silk_data_layer.py:135-143 | Finding: a burst is really spaced by the gap if and only if its last caller is due within five seconds |
| `Throttle.FirstCallerAtOnceExactly` | packages/silk_intel/silk_intel/silk_data_layer.py:140-143 | The first caller of a host goes on at once if and only if the clock is at least a gap past zero, and then has its slot at that time |
| `RateLimiter.Limiter.RateLimit` | packages/silk_intel/silk_intel/api.py:799-825 | The table method: a request is logged and answered as the replay of the log says; a limit of zero or less lets everything through |
| `RateLimiter.DropStale` | packages/silk_intel/silk_intel/api.py:812-814 | The pruning loop computes the specification function of which InWindowJoin states the meaning |
| `RateLimiter.InWindowJoin` | packages/silk_intel/silk_intel/api.py:812-814 | Pruning works entry by entry, in order: an entry stays if and only if it is of the current window |
| `RateLimiter.EvictOther` | packages/silk_intel/silk_intel/api.py:815-820 | Eviction removes one entry, the oldest that is not the caller's, and keeps the order of the rest |
| `RateLimiter.Bounded` | packages/silk_intel/silk_intel/api.py:801-820 | In every run the table has at most 4096 entries after each call, one per identity |
| `RateLimiter.CallerKept` | packages/silk_intel/silk_intel/api.py:805-820 | In every run the caller's own counter survives its call |
| `RateLimiter.NeverOvercounts` | packages/silk_intel/silk_intel/api.py:799-820 | In every run no stored counter exceeds the requests it stands for |
| `RateLimiter.ExactCounters` | packages/silk_intel/silk_intel/api.py:799-825 | With nondecreasing windows and at most 4096 identities a window, every current counter is the true request count |
| `RateLimiter.AdmitsExactly` | packages/silk_intel/silk_intel/api.py:799-825 | Under the same conditions exactly min(requests, limit) are admitted per identity and window |
| `RateLimiter.NeverAdmitsLess` | packages/silk_intel/silk_intel/api.py:799-825 | In every run at all at least min(requests, limit) are admitted |
| `RateLimiter.ClockBackAdmitsMore` | packages/silk_intel/silk_intel/api.py:799-804 | Finding, an instance: a caller seen in window 1, then 2, then 1 again gets a second request past a limit of one |
| `RateLimiter.ExactUnlessReturning` | packages/silk_intel/silk_intel/api.py:799-820 | Finding: while all callers of a run fit the table, whatever the clock does, admission is exact for every limit, identity and window if and only if no caller comes back to a window it had left |
| `RateLimiter.ForwardNeverReturns` | packages/silk_intel/silk_intel/api.py:799-804 | A clock that does not step back brings no caller back |
| `RateLimiter.CapacityIsTight` | packages/silk_intel/silk_intel/api.py:806-820 | Finding: 4097 identities in one window, with a clock that stands still, are enough to admit one of them past the limit |
| `RateLimiter.ExactForCallersExactly` | packages/silk_intel/silk_intel/api.py:799-825 | Finding: with nondecreasing windows, admission is exact for every limit, identity and window in every run of at most n identities a window if and only if n is at most 4096 |
| `Collector.FetchTarget` | packages/silk_intel/silk_intel/silk_collectors.py:179-201 | The retry loop makes up to three calls for a target and stops at the budget or the first record; what that comes to is RunIs |
| `Collector.CollectComtrade` | packages/silk_intel/silk_intel/silk_collectors.py:172-212 | The loop computes the report and the number of calls of the specification function |
| `Collector.RunIs` | packages/silk_intel/silk_intel/silk_collectors.py:172-207 | For any budget and answers a run makes as many calls as its targets need, up to the first record each or three without one, as far as the budget goes; it reaches the targets whose first call the budget covers, and fetched counts exactly those whose first record comes with a call that the budget covers |
| `Collector.AmpleBudgetFetchesAll` | packages/silk_intel/silk_intel/silk_collectors.py:172-212 | With three calls to spare for every target, fetched is the number of targets that answer within three attempts, failed is the remaining calls they all need, and none is skipped |
| `Collector.ReportAddsUp` | packages/silk_intel/silk_intel/silk_collectors.py:172-212 | Calls are at most the budget and three a target; fetched plus failed equals the calls; fetched, failed and skipped targets sum to the targets requested; nothing is skipped with budget left |
| `Collector.LedgerBound` | packages/silk_intel/silk_intel/silk_collectors.py:63-77 | With at most k runs under way at once, in any interleaving and with any runs cut off, the ledger of a day never passes k times the cap |
| `Collector.SequentialRunsKeepTheCap` | packages/silk_intel/silk_intel/silk_collectors.py:159-209 | In the schedule of abstract runs, one at a time keeps the ledger within the cap |
| `Collector.CollectedDayKeepsTheCap` | packages/silk_intel/silk_intel/silk_collectors.py:148-212 | Over any sequence of runs of the collecting loop in a day, with any targets and any answers, the ledger never exceeds the cap |
| `Collector.SkipsOnlyWhenSpent` | packages/silk_intel/silk_intel/silk_collectors.py:63-77 | A run of a day skips targets only when the rows then record exactly the whole cap |
| `Collector.LedgerBoundReached` | packages/silk_intel/silk_intel/silk_collectors.py:161-164 | Finding: k runs that begin together spend k times the cap |
| `Collector.CapIsHardExactly` | packages/silk_intel/silk_intel/silk_collectors.py:63-77 | Finding: the ledger of every schedule with at most k runs under way stays within the cap if and only if k is at most one, or the cap is zero |
| `Collector.SentInADayExactly` | packages/silk_intel/silk_intel/silk_collectors.py:70-77 | Finding: a row counts for the day its run began, so even runs that take turns can send twice the cap in one day; a number bounds the calls of every day of every timeline if and only if it is at least twice the cap |
| `Collector.LedgerGap` | packages/silk_intel/silk_intel/silk_collectors.py:207-210 | Finding: the ledger falls short of the calls made by exactly the calls of runs that were cut off |
| `Collector.Ledger.Collect` | packages/silk_intel/silk_intel/silk_collectors.py:148-212 | One run appends its actual calls as its row, reports the budget as it was before, and keeps the rows within the cap |
| `Collector.ReportedBudgetExactly` | packages/silk_intel/silk_intel/silk_collectors.py:207-212 | Finding: the reported budget is too high by the run's own calls, so it is right if and only if there was no target or no budget |
| `Collector.Refresh` | packages/silk_intel/silk_intel/silk_collectors.py:271-278 | The pre-warm loop spends what the specification function says |
| `Collector.RefreshFloor` | packages/silk_intel/silk_intel/silk_collectors.py:271-277 | A refresh that starts above the reserve ends with at least max(0, reserve + 1 - 3 x targets) |
| `Collector.ReserveKeptExactly` | packages/silk_intel/silk_intel/silk_collectors.py:258-277 | Finding: the reserve survives whatever the source answers if and only if three calls for every target of every code fit above it |
| `MarketStore.InverseExactly` | packages/silk_intel/silk_intel/silk_data_layer.py:383-399 | Inverting the code dictionary gives an inverse if and only if no country stands under two codes |
| `MarketStore.CodeRoundTripExactly` | packages/silk_intel/silk_intel/silk_data_layer_v2.py:265-281 | A partner code survives the store's spelling if and only if it is in the table or is not spelled like one of its countries |
| `MarketStore.MarketImports` | packages/silk_intel/silk_intel/silk_data_layer_v2.py:139-189 | The pass over the records computes the live result of the specification function |
| `MarketStore.PartnersConserve` | packages/silk_intel/silk_intel/silk_data_layer_v2.py:139-158 | The partners' values add up to all numeric non-World records, however they are split and ordered |
| `MarketStore.TotalIsTheLarger` | packages/silk_intel/silk_intel/silk_data_layer_v2.py:139-166 | The total is the larger of the last numeric World row, zero if there is none, and the sum of all other numbers when that is positive, and unknown otherwise |
| `MarketStore.LiveIsCoherent` | packages/silk_intel/silk_intel/silk_data_layer_v2.py:166-189 | The live competitors carry distinct codes and the shares of their own sum |
| `MarketStore.LiveIsRanked` | packages/silk_intel/silk_intel/silk_data_layer_v2.py:184-187 | Competitors are ranked: neither values nor rounded shares rise down the list |
| `MarketStore.SharesAddUp` | packages/silk_intel/silk_intel/silk_data_layer_v2.py:105-189 | Every share listed is its value in percent of all other numbers than the World row's, to the nearest hundredth, and the shares of n competitors add up to 100 within n times 0.005 |
| `MarketStore.FactStore.constructor` | packages/silk_intel/silk_intel/silk_store.py:200-217 | An empty table |
| `MarketStore.FactStore.UpsertTradeFlows` | packages/silk_intel/silk_intel/silk_store.py:200-217 | The table becomes the old one with the rows put in under their primary keys |
| `MarketStore.FactStore.WriteThrough` | packages/silk_intel/silk_intel/silk_data_layer_v2.py:258-284 | Writes the World row when there is a total, and one row per competitor under its ISO code |
| `MarketStore.UpsertedKeeps` | packages/silk_intel/silk_intel/silk_store.py:200-217 | A write leaves every other key alone |
| `MarketStore.WrittenPartner` | packages/silk_intel/silk_intel/silk_data_layer_v2.py:265-281 | After a write the rows of the key are exactly the new competitors and the earlier rows they do not overwrite |
| `MarketStore.WrittenUnderIso` | packages/silk_intel/silk_intel/silk_data_layer_v2.py:265-281 | A supplier is written, as an import of the year, under the ISO code that its number has in the table, or under the number where the table has none |
| `MarketStore.RoundTripExactly` | packages/silk_intel/silk_intel/silk_data_layer_v2.py:330-375 | Writing a result with suppliers over any store and reading it back gives the same total, suppliers, values and shares if and only if no earlier supplier row is left over |
| `MarketStore.FreshRoundTrip` | packages/silk_intel/silk_intel/silk_data_layer_v2.py:258-375 | From a store without rows for the key every live result with a total reads back the same; one without stays a miss |
| `MarketStore.RefreshLeavesOrphan` | packages/silk_intel/silk_intel/silk_data_layer_v2.py:258-284 | Finding: with the code table's entries for 682 and 784, two live results written to an empty store, the second without the supplier of the first, read back as suppliers that add up to more than the total beside them |
| `CountryCodes.TableIsInvertible` | packages/silk_intel/silk_intel/silk_data_layer.py:383-399 | In the platform's seventy entries no code and no country stands twice, so the inverted table is an inverse |
| `CountryCodes.NumericIsUnambiguous` | packages/silk_intel/silk_intel/silk_data_layer_v2.py:265-281 | With that table no numeric partner code is confused with another, or with the World row, by the store's spelling |
| `CountryCodes.TableRoundTrip` | packages/silk_intel/silk_intel/silk_data_layer_v2.py:258-375 | With that table, from a store without rows for the key, every live result with numeric codes and a total reads back the same; one without a total stays a miss |
| `CountryCodes.TableLeavesOrphan` | packages/silk_intel/silk_intel/silk_data_layer_v2.py:258-284 | Finding: the left-over supplier, with the platform's own table |
| `CollectedStore.RowsToStore` | packages/silk_intel/silk_intel/silk_collectors.py:184-194 | The loop prepares one row per record that has a number, the World row apart |
| `CollectedStore.SuppliersAre` | packages/silk_intel/silk_intel/silk_collectors.py:184-196 | What is read back of collected records is exactly the last number of every supplier |
| `CollectedStore.LiveListsExactly` | packages/silk_intel/silk_intel/silk_data_layer_v2.py:139-188 | The live result lists a supplier with a value if and only if that is the sum of its numbers and the sum of all suppliers is positive |
| `CollectedStore.CollectedReadsLiveExactly` | packages/silk_intel/silk_intel/silk_collectors.py:184-196 | Finding: collected records read back as what the live path makes of them if and only if every supplier's last number is its sum and the World row, where there is one, is at least the sum of the suppliers |
| `Decision.ScorePillars` | packages/silk_intel/silk_intel/silk_decision.py:232-246 | The accumulating loop computes the renormalised weighted score and the list of exactly the missing pillars |
| `Decision.OpenConditions` | packages/silk_intel/silk_intel/silk_decision.py:259-276 | Conditions name exactly the open gate (first), the missing and the weak pillars, and there are none if and only if every pillar is present and at least 0.5 and no gate is open |
| `Decision.Decide` | packages/silk_intel/silk_intel/silk_decision.py:211-311 | The verdict, score, confidence and conditions of the specification functions |
| `Decision.MarketInterpolates` | packages/silk_intel/silk_intel/silk_decision.py:79-104 | Growth, income and Saudi share run in a straight line between the anchors the pillar's note names (growth: -10% is 0, +30% is 1; income: 50,000 dollars) and are flat beyond, as does the logarithm of a positive market size up to 9, for which the activity index stands in; each anchor is an equivalence |
| `Decision.CompetitionInterpolates` | packages/silk_intel/silk_intel/silk_decision.py:107-124 | Likewise for concentration (0 to 0.5), the largest supplier's share (0 to 100) and named companies (0 to 10) |
| `Decision.RegulatoryInterpolates` | packages/silk_intel/silk_intel/silk_decision.py:127-143 | Likewise for the tariff, falling from 1 at 0% to 0 at 30%, and the listed requirements (0 to 8) |
| `Decision.ProfitInterpolates` | packages/silk_intel/silk_intel/silk_decision.py:146-160 | Likewise for the margin (0 to 40) and the price ratio, falling from 1 at 0.5 to 0 at 1.5, which exists if and only if both prices are nonzero |
| `Decision.RiskInterpolates` | packages/silk_intel/silk_intel/silk_decision.py:163-182 | Likewise for stability and regulation (-2.5 to 2.5), logistics (1 to 5) and currency volatility, falling from 1 at 0% to 0 at 20% |
| `Decision.PillarsAreMeans` | packages/silk_intel/silk_intel/silk_decision.py:70-182 | Every pillar is the mean, to the nearest thousandth, of its components that are present and absent where none is; competition counts as one minus it, and an open gate cuts the regulatory one at 0.3 |
| `Decision.FullScore` | packages/silk_intel/silk_intel/silk_decision.py:14-17 | With all pillars present the score is the weighted sum the module documents for each option, rounded |
| `Decision.ScoreRenormalises` | packages/silk_intel/silk_intel/silk_decision.py:232-246 | Whatever is missing, the score is what the present pillars contribute by the documented weights over the sum of their weights, to the nearest thousandth; there is none if and only if no pillar is present |
| `Decision.DecisionMonotone` | packages/silk_intel/silk_intel/silk_decision.py:79-311 | Improving any raw inputs, coverage, the gate or the critical flag, with the same inputs present, never lowers the score and never moves the verdict down, from GO or from CONDITIONAL-GO, under both sets of weights |
| `Decision.CheaperIsNoDearer` | packages/silk_intel/silk_intel/silk_decision.py:149-155 | For positive prices a lower Saudi price or a higher market price is an improvement in that sense |
| `Decision.PillarsGraded` | packages/silk_intel/silk_intel/silk_decision.py:70-182 | Every effective pillar is a multiple of 0.001 between 0 and 1 |
| `Decision.GatedGraded` | packages/silk_intel/silk_intel/silk_decision.py:136-138 | An open gate makes the regulatory pillar the smaller of its mean and 0.3, with nothing lost to the second rounding |
| `Decision.ScoreBetweenPillars` | packages/silk_intel/silk_intel/silk_decision.py:232-246 | The score exists if and only if a pillar does, and lies between the smallest and the largest effective pillar, rounding included |
| `Decision.GoExactly` | packages/silk_intel/silk_intel/silk_decision.py:251-289 | GO if and only if all five pillars are present and effectively at least 0.5, no gate is open, the risk is not critical, the score is at least 0.65 and coverage at least 0.595; the documented 0.6 is compared after rounding |
| `Decision.NoGoExactly` | packages/silk_intel/silk_intel/silk_decision.py:278-292 | NO-GO if and only if no pillar could be computed, the risk is critical, or the score is below 0.45 |
| `Decision.ConfidenceIsShare` | packages/silk_intel/silk_intel/silk_decision.py:251-253 | Whatever is missing, the confidence is the coverage in proportion to the pillars that could be computed, to the nearest hundredth |
| `Decision.StrongPillarsGo` | packages/silk_intel/silk_intel/silk_decision.py:232-289 | Five pillars of at least 0.65 give GO under either set of weights |
| `Decision.WeightsNeverReverse` | packages/silk_intel/silk_intel/silk_decision.py:34-39 | A GO under one set of weights is never a NO-GO under the other, and scores at least 0.5 there |
| `Decision.NewComponentExactly` | packages/silk_intel/silk_intel/silk_decision.py:70-74 | Finding: a component that appears in its slot lowers its pillar's mean, before rounding, if and only if it lies below it, so monotonicity needs the same inputs present |
| `Decision.NewComponentLowersPillarExactly` | packages/silk_intel/silk_intel/silk_decision.py:70-74 | The rounded pillar falls when a component appears if and only if the component is below the tipping point of the pillar's last thousandth, or on it with that thousandth odd |
| `Decision.KnownIncomeLosesGo` | packages/silk_intel/silk_intel/silk_decision.py:94-94 | Finding: a market whose income per head becomes known to be anything up to 4000 dollars falls from GO to CONDITIONAL-GO; zero counts as unknown |
| `Rounding.RoundMonotone` | packages/silk_intel/silk_intel/silk_decision.py:74-74 | Rounding to two or three places, halves to even, never reverses an order |
| `Rounding.RoundIsOnGrid` | packages/silk_intel/silk_intel/silk_decision.py:246-246 | Rounding lands on the decimal grid and leaves what is on the grid unchanged |
| `Rounding.RoundIsNearest` | packages/silk_intel/silk_intel/silk_decision.py:246-246 | Rounding moves a number by at most half a step, and from halfway goes to the even neighbour |
| `Leads.Dedupe` | packages/silk_intel/silk_intel/silk_gmaps.py:263-274 | The dictionary loop, which skips nameless leads, computes the specification function |
| `Leads.DedupedIs` | packages/silk_intel/silk_intel/silk_gmaps.py:263-279 | One lead per key, one with most of phone, email, website and map link of its key, and no named lead's key is lost |
| `Leads.DedupedTwice` | packages/silk_intel/silk_intel/silk_gmaps.py:263-274 | Deduplicating again changes nothing, order included |
| `Leads.SharedKeyExactly` | packages/silk_intel/silk_intel/silk_gmaps.py:270-270 | Two pairs of name and address prefix share a key if and only if they are the same pair or a bar has moved from the longer name into the other's prefix |
| `Leads.SameKeyExactly` | packages/silk_intel/silk_intel/silk_gmaps.py:267-270 | The same for the keys of two leads, normalised names and prefixes cut at twenty characters |
| `Leads.ConfusableExactly` | packages/silk_intel/silk_intel/silk_gmaps.py:270-270 | Finding: a pair can share its key with another that a lead can have if and only if the name has a bar with a proper name before it and the rest, a bar and the prefix make a possible prefix, or the prefix has a bar that makes a longer proper name and leaves a possible prefix |
| `Leads.BarLosesACompany` | packages/silk_intel/silk_intel/silk_gmaps.py:263-274 | Finding: of two companies that share neither name nor address one is dropped |
| `Leads.ParseAndRank` | packages/silk_intel/silk_intel/silk_gmaps.py:282-292 | Deduplicates, sorts stably and keeps fifteen |
| `Leads.RankedIsTheTop` | packages/silk_intel/silk_intel/silk_gmaps.py:288-292 | The result is sorted by number of contacts, then rating, then reviews, one per key, as long as fifteen allows, and nothing dropped for length is ahead of anything kept |
| `Leads.RankedKeepsTies` | packages/silk_intel/silk_intel/silk_gmaps.py:289-292 | Equally ranked leads keep the order in which they were first seen |
| `Leads.MergeWebCandidates` | packages/silk_intel/silk_intel/silk_gmaps.py:393-413 | The loop over the names computes the specification function |
| `Leads.MapLeadsComeFirst` | packages/silk_intel/silk_intel/silk_gmaps.py:396-413 | The map leads are an unaltered prefix, up to fifteen; with names to merge the result has at most fifteen rows, and without it is the map leads |
| `Leads.WebRowsAreNew` | packages/silk_intel/silk_intel/silk_gmaps.py:400-412 | A row added from the web carries a nonblank name, its level, and nothing else, and its name is neither part of the name of any row before it nor has that as a part |
| `Leads.NamesAreCovered` | packages/silk_intel/silk_intel/silk_gmaps.py:400-408 | Unless the list is full, every nonblank name contains, or lies within, the name of some row of the result |
| `Leads.MergeTwice` | packages/silk_intel/silk_intel/silk_gmaps.py:393-413 | Merging the same names again changes nothing, the cut at fifteen included |

## Left out

- RateLimiter.AdmitsExactly: one run at a time, under a forward clock and at most 4096 identities a window; that the bound on identities is exact over all runs is ExactForCallersExactly, and which steps of the clock matter ExactUnlessReturning.
- HsSelection.SourcesInterchangeable: a sufficient condition on one pair of readings; the equivalence, over all readings in a unit, is SourcesInterchangeableExactly.
- Leads.ConfusableExactly: which names and which prefixes leads can have are parameters; SameKeyExactly needs neither.
- HsClassifier.MarginCoversAllExactly: that a six-digit code belongs to an existing chapter and to the local seed is not modelled.
- HsSelection.ResolvedIsMeasured: the two readings arrive as optional values, not in a list that is appended to; how a reading is obtained is not modelled.
- HsDialog.ClosureOperator: for a reference in which every code stands once with six characters and only its codes have bands, as the loaders deliver it.
- HsClassifier.IncrementalMergeSameList: the order of tied candidates may differ between the two merges; what is proved without the condition is that the candidates are the same.
- MarketStore.RoundTripExactly: for results with suppliers whose codes the store's spelling keeps apart; that the platform's own table keeps all numeric codes apart is in CountryCodes.
- CollectedStore.CollectedReadsLiveExactly: for records whose suppliers sum to more than zero, read from a store without earlier rows for the key.
- HsSelection.SourcesSelectSameCodeExactly: for one band per code, as bands are read from codes; SourcesInterchangeableExactly, about bands, needs no such condition.
- RateLimiter.ExactUnlessReturning: for runs whose callers all fit the table; with more of them, ExactForCallersExactly bounds the callers of a window under a forward clock.
- Collector.SentInADayExactly: runs that are cut off are not in it; their calls are those of LedgerGap.
- Decision.DecisionMonotone: compares inputs of which the same ones are present; the effect of an input that appears is stated separately.
- Throttle.ReleasedInSlotExactly: assumes that the clock does not move between the reading and the sleep; the one-directional form does not.
- Collector.ReserveKeptExactly: for a refresh that starts above the reserve and is the only run of its time.
- Floating point: sums, quotients and comparisons are over exact reals, so rounding errors of binary floats are not modelled; `log10` is any increasing function.
- Sorting in place is modelled by its result: a stable sort of the list as a value.
- Text extraction: bound phrases, equations, headings and lead fields are inputs, as are `strip` and `lower`; the regular expressions are not modelled.
- Network, language-model and scraper calls: their results are parameters; nothing is said about their content.
- HTTP dates in Retry-After: only the numeric form is modelled.
- Freshness of stored rows and serving stale data while refreshing: the store branch is modelled for rows that are fresh.
- The timestamp column and data-source column of a stored row, and every unit of prose, note and citation attached to a result.
- Threads: the breaker, the throttle and the limiter are modelled as sequences of passages through their locks, in any order; what happens between unlocking and sleeping is not.
- Reading settings from the environment: settings are parameters, clamped where the code clamps them.
- The risk register, first steps, weight labels and wording of reasons in the decision.
- Review counts that are not numbers: a lead's rating and review count are optional numbers.
- World Bank collection, monitoring, and the reservation and resume protocol of research runs.
- Report prose, document export, web wiring, authentication and the web application.
- Single-branch agent wrappers and one-line indicators, which would only add easy members.
