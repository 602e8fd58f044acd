# Verified model of the evidence, ledger and migration logic

A Dafny 4.11 model of the deterministic core of the flood-response system: how evidence is selected under
a budget, how predictions are cached, how evaluation cases are built, how writes are made idempotent, how
stored payloads move from key to key and from SQLite to PostGIS, and what the agreement and calibration
figures of the evaluations mean. `dafny verify dfyconfig.toml` checks everything.

Loops of the source are methods with loops, objects that it updates are classes, and each method is
proved against a specification function or predicate; the theorems are lemmas about those.

| file | models |
|---|---|
| `Ordering.dfy` | code-point order, Python's rounding, sums and counts shared by the others |
| `EvidenceSelection.dfy` | the evidence-set query of `flood_system/rag.py` |
| `EvidenceMeaning.dfy` | what the objective of that query rewards and punishes |
| `CoverageSelection.dfy` | the two coverage-greedy selectors over precomputed scores |
| `BudgetSelection.dfy` | budgeted top-k, the two-phase proxy selector, the token-budget report |
| `PredictionCache.dfy` | the resumable prediction cache of the conflict classifier and its seeding |
| `CaseBuilder.dfy` | the builder of composite housing cases |
| `CaseExistence.dfy` | how many cases that builder makes, why it fails, and what it prefers |
| `TemporalCases.dfy` | EUR-Lex repeal pairs, their boundary cases and the applicability filter |
| `IdempotentWrites.dfy` | the idempotency ledger and the protocol of a write request |
| `KeyRing.dfy` | payload encryption, its migration at startup, key rotation |
| `PostgisMigration.dfy` | projection, upsert and reconciliation of the shadow migration |
| `Annotation.dfy` | acceptance and comparison of annotation submissions, Cohen's kappa |
| `Calibration.dfy` | the expected calibration error |
| `ChunkWindows.dfy` | the overlapping windows of the chunk-length study |

## Findings

Where the code does less than its comments, or than one would expect, the model keeps the code and proves
what holds.

- The comment at `flood_system/rag.py:567-569` speaks of the smallest sufficient evidence set. What holds
  for all inputs is that no proper prefix of the selection is sufficient (`RunStopsForAReason`), and that a
  document lies in every sufficient choice exactly when it alone covers some slot or required role
  (`UnavoidableIff`). When no two candidates share a slot or role, the selection is the smallest if and only
  if each selected document covers one (`SmallestIff`), so candidates that all cover something suffice
  (`UsefulCandidatesGiveSmallest`). Under the default policy an official document that covers nothing may
  be selected before the one document that would have been enough (`SufficientIsNotSmallest`).
- The ledger executes a write at most once per key while every handler settles before its reservation
  expires and no handler takes effect and then refuses (`AtMostOneEffect`). Both conditions are needed.
  From every guarded state in which a handler overruns its reservation there is a schedule with two
  effects for one key (`TimelinessIsNeeded`). A handler that acts and refuses frees its key, and the
  repetition acts again although everything is in time (`CleanRefusalIsNeeded`). Publishing a document
  version is such a handler: when the import fails, `flood_system/response_workflow/service.py:3274-3300`
  stores a failed index build and a lifecycle event and then raises a `ValueError`, which
  `flood_system/http/response_router.py:119-153` turns into a client error.
- Reconciliation sorts `id:digest` strings on one side and identifiers on the other. A kind of record
  passes if and only if its identifiers are distinct and none of them clashes with an extension of itself
  (`PassesIffFaithful`); an evidence package that reaches version 10 always clashes (`VersionTenClashes`).
- Two mapping versions give equal content the same batch exactly when their first 24 characters agree
  (`SameBatchIff`), as those of the default version 5 and its predecessor do (`MappingVersionIsCutOff`).
- Startup does not open rows that already carry the active key's label, so a damaged one passes startup
  and blocks the next rotation (`StartVouchesForOthers`, `DamagedRowGoesUnnoticed`). A startup that fails
  in the migration has already marked the pending rotation as activated (`FailedStartHasPromoted`).
- With every statute in one record and every question group asked once per state, the case builder makes as
  many cases as were asked for or as the states' quotas allow, whatever the seed (`BuildsUpToCapacity`).
- A case builder called with zero distractors takes every statute of the state's other questions
  (`DistractorsAreDistinct`).
- The superseded act's identifier is selected exactly when a distractor bears it, applies, and is a best
  act that fits (`SupersededIsSelectedIff`). A chain of repeals whose middle act entered into force twice
  parses into such a case (`ChainParses`, `ChainSelectsSuperseded`).
- No disagreement is reported if and only if two annotators agree on every item and also list the roles of
  every document in the same order (`NoDisagreementIff`); where only that order differs, four perfect
  statistics come with a disagreement (`RoleOrderIsReported`).
- An item that brings no label a higher score is picked only if nothing that fits is more relevant
  (`MostRelevantIsPicked`), and over a run each label is paid once for being covered (`LabelIsPaidOnce`).
- The classifier gives every row the model's own answer if and only if rows that share case and method get
  one answer from it (`Classify`), and an interruption that tears a line of its file stops every later run
  (`ResumeAfterInterruptions`).

## Model

| member | source | states |
|---|---|---|
| EvidenceSelection.ComputeSlotGain | flood_system/rag.py:507-511 | the loop over covered slots adds up the support of exactly those not covered yet, in whatever order the set is walked |
| EvidenceSelection.ComputeSupport | flood_system/rag.py:200-204 | the support score is the best support over all slots, and zero without slots |
| EvidenceSelection.ComputeNovelty | flood_system/rag.py:687-698 | the running maximum is the largest token overlap with the selection; novelty is its rounded complement |
| EvidenceSelection.ComputeConflict | flood_system/rag.py:700-729 | the rounded conflict is 1.0 if a selected document and the candidate name one another, at least 0.8 for opposed stances on a shared slot and 0.45 for negated overlapping words of a less trusted pair, and otherwise exactly the own risk |
| EvidenceSelection.MaxConflictIs | flood_system/rag.py:700-729 | the largest pairwise conflict has that level, for every candidate and selection |
| EvidenceMeaning.ConflictIs | flood_system/rag.py:520-525 | the penalty counts the rounded level, and nothing below the threshold or at zero |
| EvidenceMeaning.DeclaredConflictIsAvoided | flood_system/rag.py:700-729 | of two documents alike in all but declared conflicts, the one in declared conflict with the selection is never picked while the other fits, for a positive penalty weight and an own risk below 1 |
| EvidenceMeaning.ScoreIsWeightedSum | flood_system/rag.py:527-536 | six terms count for the document, conflict and cost against it, each with its own weight |
| EvidenceMeaning.CoverageIs | flood_system/rag.py:507-512 | coverage adds the support of the slots no selected document supports with at least 0.18, over the number of slots |
| EvidenceMeaning.RoleTermIs | flood_system/rag.py:513-518 | the role term is the share of required roles that the document has and no selected one does |
| EvidenceMeaning.NoveltyIs | flood_system/rag.py:687-698 | novelty is the rounded rest of the largest share of words common with a selected document, and 1 for the first pick |
| EvidenceMeaning.SupportIs | flood_system/rag.py:200-204 | the support term is attained by a slot and bounds the support of every slot |
| EvidenceMeaning.CostIs | flood_system/rag.py:526 | the cost term is the share of the budget, and 1 for a priced document without a budget |
| EvidenceSelection.ComputeScored | flood_system/rag.py:502-551 | every remaining candidate that fits the budget is scored with the objective for the present selection, and no other |
| EvidenceSelection.FirstBest | flood_system/rag.py:553-557 | the head of the stable sort: nothing sorts before it, and everything ahead of it in the list sorts after it |
| EvidenceSelection.Select | flood_system/rag.py:484-573 | the loop with its running sets performs exactly the greedy run; the score it reports for each pick is the rounded objective at that rank |
| EvidenceSelection.DiminishingReturns | flood_system/rag.py:507-536 | for every candidate, valid policy and selection, adding any further documents never raises the candidate's objective |
| EvidenceSelection.NoveltyFalls | flood_system/rag.py:687-698 | novelty never rises as the selection grows, rounding included |
| EvidenceSelection.ConflictRises | flood_system/rag.py:520-525 | the thresholded conflict penalty never falls as the selection grows |
| EvidenceSelection.CoverageFalls | flood_system/rag.py:507-518 | slot coverage and role gain never rise as the selection grows |
| EvidenceSelection.ScoreFallsStep | flood_system/rag.py:527-536 | the weighted sum of the eight terms never rises by one more pick, for all weights the constructor accepts |
| EvidenceSelection.NextNotBeaten | flood_system/rag.py:556-557 | the pick comes first, by score, trust, cost and identifier, among all unselected documents that fit |
| EvidenceMeaning.PickIsBest | flood_system/rag.py:556-557 | spelled out: no fitting unselected document has a higher objective, nor an equal one with more trust, then less cost, then an earlier identifier |
| EvidenceSelection.PickScoresNeverRise | flood_system/rag.py:501-573 | along any run the objective of the picks never rises with the selection rank |
| EvidenceSelection.RunIsUnique | flood_system/rag.py:556-566 | two runs of one call pick the same documents: ties never leave a choice |
| EvidenceSelection.FinishedRunsAgree | flood_system/rag.py:501-573 | for documents with distinct identifiers the finished selection does not depend on the order of retrieval |
| EvidenceSelection.SelectionWithinLimits | flood_system/rag.py:501-566 | any run selects at most `top_k` distinct documents of the input and pays at most the budget |
| EvidenceSelection.RunStopsForAReason | flood_system/rag.py:501-571 | a run shorter than `top_k` covers all slots and required roles, or nothing left fits; no proper prefix was sufficient |
| EvidenceSelection.SufficientMeansAllCovered | flood_system/rag.py:570-571 | comparing the number of covered slots with the number of slots is the same as covering each of them |
| EvidenceSelection.SufficientMeetsNeeds | flood_system/rag.py:570-571 | the stop test holds for a query with required roles exactly when every slot and every required role is met by a selected document |
| EvidenceSelection.UnavoidableIff | flood_system/rag.py:567-571 | for all candidates: a document lies in every sufficient choice exactly when it alone meets some slot or required role |
| EvidenceSelection.SmallestIff | flood_system/rag.py:567-571 | when no two candidates share a slot or required role, a sufficient run has the fewest documents of all sufficient choices if and only if each selected document covers one |
| EvidenceSelection.UsefulCandidatesGiveSmallest | flood_system/rag.py:567-571 | checked before the call: candidates that all cover something and share nothing make every sufficient run the smallest |
| EvidenceSelection.SufficientIsNotSmallest | flood_system/rag.py:567-571 | under the default policy, for all supports on either side of the threshold, a finished run of two documents is not the smallest although its second document suffices alone |
| EvidenceSelection.Attach | flood_system/rag.py:576-617 | the flags and the cost attached to every document are those of the whole selected set |
| EvidenceSelection.QueryEvidenceSet | flood_system/rag.py:335-380 | the query returns distinct documents within count and budget, reported scores that never rise, exact slot flags, and is short only for a reason; without positive limits it returns nothing |
| CoverageSelection.GainAntitoneIff | flood_system/frc_housing_ablation.py:672-675 | the gain never rises with the old best exactly when the score exceeds its threshold by no more than four, as scores up to one do |
| CoverageSelection.ComputeGainSum | flood_system/frc_housing_ablation.py:702-717 | summing gains over the dictionary of best scores gives the gain of the item over the selection |
| CoverageSelection.UpdateBest | flood_system/frc_housing_ablation.py:727-734 | after a pick the dictionary again holds the best score of every label over the selection |
| CoverageSelection.SelectByFieldsAndRoles | flood_system/frc_housing_ablation.py:678-735 | the selector performs exactly the greedy run of its objective |
| CoverageSelection.SelectByRoles | flood_system/frc_public_evidence.py:2443-2476 | the role selector performs exactly the greedy run of its own objective |
| CoverageSelection.SelectorsAgree | flood_system/frc_public_evidence.py:2443-2476 | with distinct roles, no fields, role weight 2 and one set of thresholds it returns the same sequence as the selector over fields and roles, ties and early exhaustion included |
| CoverageSelection.FinishedRunsAgree | flood_system/frc_housing_ablation.py:691-735 | a finished greedy run is determined by the values of its objective |
| CoverageSelection.NextIsLargest | flood_system/frc_housing_ablation.py:721-724 | the pick has the largest pair of objective and identifier among all unselected items that fit |
| CoverageSelection.MostRelevantIsPicked | flood_system/frc_housing_ablation.py:718-724 | for weights of zero or more: an item that brings no label a higher score is picked only if no other fitting item has a higher relevance, or an equal one and a later identifier |
| CoverageSelection.CoverageOutweighsRelevance | flood_system/frc_housing_ablation.py:672-724 | for weights of zero or more: to be picked before an item that newly covers a field or role, such an item must be more relevant by that label's share of the weight |
| CoverageSelection.RunWithinLimits | flood_system/frc_housing_ablation.py:691-735 | at most `k` distinct items of the pool, within the budget |
| CoverageSelection.PickedObjectivesNeverRise | flood_system/frc_housing_ablation.py:691-735 | the objective of the picks never rises along a run |
| CoverageSelection.CreditOnceIffCovered | flood_system/frc_housing_ablation.py:672-675 | a label receives its full credit exactly once if it ends covered, and never otherwise |
| CoverageSelection.LabelIsPaidOnce | flood_system/frc_housing_ablation.py:672-675 | over a whole run a label is paid exactly 1 for being covered and a quarter of every other rise of its best score |
| CoverageSelection.BestIsFlooredMax | flood_system/frc_housing_weight_sensitivity.py:61-72 | the best score kept step by step is the maximum the scorers recompute, floored at zero |
| CoverageSelection.BestIsLargest | flood_system/frc_housing_ablation.py:727-734 | the best score bounds the score of every selected item and is one of them, or zero |
| CoverageSelection.ReportedCoverage | flood_system/frc_public_evidence.py:2192-2205 | the coverage that is reported is the share of labels that received their full credit during selection |
| BudgetSelection.TakeWithBudget | flood_system/frc_public_evidence.py:2366-2379 | the scan that tests `k` after appending keeps, in order, what fits the rest of the budget |
| BudgetSelection.TakeExactly | flood_system/frc_housing_ablation.py:656-669 | the variant that stops on equality does the same, and never stops early for a limit below one |
| BudgetSelection.TakeWithinBudget | flood_system/frc_public_evidence.py:2366-2379 | the cost is never negative and never above a non-negative budget |
| BudgetSelection.TakeIsMaximal | flood_system/frc_public_evidence.py:2366-2379 | what is left out does not fit, unless the limit is reached |
| BudgetSelection.TakeIsSubsequence | flood_system/frc_public_evidence.py:2366-2379 | only listed items, at most the limit (at least one), distinct if the list is |
| BudgetSelection.TakeInOrder | flood_system/frc_public_evidence.py:2366-2379 | candidates are decided in order: each is kept exactly when there is room for one more and it fits what the earlier ones left |
| BudgetSelection.RankedIsSorted | flood_system/frc_public_evidence.py:2399-2405 | the ranking is sorted by descending score and ascending identifier |
| BudgetSelection.HighestComesFirst | flood_system/frc_public_evidence.py:2399-2405 | in scores: of two ranked items the earlier has the higher score, or the same score and no later identifier; a missing score is zero |
| BudgetSelection.RankedIsPermutation | flood_system/frc_public_evidence.py:2399-2405 | the ranking holds the same items, each as often |
| BudgetSelection.BestForRoleIsLargest | flood_system/frc_public_evidence.py:2413-2423 | the item taken for a role has the largest role score, relevance and identifier of all items not taken |
| BudgetSelection.RoleIsServed | flood_system/frc_public_evidence.py:2410-2430 | the item left with the highest score for the next role is selected for it, if it fits and the selection is not full |
| BudgetSelection.SelectByProxy | flood_system/frc_public_evidence.py:2408-2441 | the two loops perform the role phase and then the fill phase of the specification |
| BudgetSelection.ProxyIsMaximal | flood_system/frc_public_evidence.py:2408-2441 | both phases together stay within limit and budget, repeat no identifier, and leave out only what does not fit |
| BudgetSelection.SelectorsWithinBudget | flood_system/frc_public_evidence.py:2382-2476 | every selector that is compared stays within any non-negative budget |
| BudgetSelection.CountViolations | flood_system/frc_public_evidence.py:2528-2563 | the counted budget violations are none, and all rows for a negative budget |
| BudgetSelection.RateIsClose | flood_system/frc_public_evidence.py:2554-2563 | the reported rate is within half a millionth of the share of rows |
| BudgetSelection.TokenBudgetSensitivity | flood_system/frc_public_evidence.py:2566-2623 | the report fails if and only if there is data and some budget is negative; an empty data set is an error |
| PredictionCache.ReadCompleted | flood_system/frc_conflicts_evaluation.py:391-395 | of the lines with the cache key, the last one of each case and method counts; a torn file is an error |
| PredictionCache.IndexBySignature | flood_system/frc_conflicts_evaluation.py:397-401 | exactly the signatures of rows with a persisted prediction are known, each with an answer of such a row |
| PredictionCache.ReuseOrGroup | flood_system/frc_conflicts_evaluation.py:402-424 | every row is answered or waits in the group of its signature, and no known signature waits; a reused line repeats the persisted line of a row with the same signature, marked as reused, for a row that had none |
| PredictionCache.PredictBatch | flood_system/frc_conflicts_evaluation.py:426-459 | a batch calls the model once for each of its signatures, in order, and answers every row of their groups; as many lines as calls are not marked as reused |
| PredictionCache.Classify | flood_system/frc_conflicts_evaluation.py:390-468 | fails exactly for a torn file; otherwise one prediction per row in row order, each the last line of its key in the file; the file grows batch by batch in the order of the calls, the model is called once for each signature not persisted and for no other; with faithful lines all predictions are the model's own if and only if rows that share a key get one answer |
| PredictionCache.AnswerPending | flood_system/frc_conflicts_evaluation.py:426-468 | each batch is asked, answered and appended before the next; what is then persisted is what is returned, and lines of other rows are not overwritten |
| PredictionCache.ClassifyAgain | flood_system/frc_conflicts_evaluation.py:390-468 | a run over a file that a run has completed finds every signature persisted, calls the model for nothing, changes nothing and returns the same |
| PredictionCache.ResumeAfterInterruptions | flood_system/frc_conflicts_evaluation.py:390-468 | after any history of interrupted runs, of which any number of lines survived, the last run fails only if a line was torn, and otherwise answers every row with the model's own label |
| PredictionCache.SharedKeysNeedOneAnswer | flood_system/frc_conflicts_evaluation.py:468 | a result with one prediction per key can only be right throughout when the model answers rows that share a key alike |
| PredictionCache.IndexReferences | flood_system/frc_conflicts_ablation.py:148-163 | the references are rejected if and only if two rows of one signature carry different predictions; otherwise the index holds the answer of each signature |
| PredictionCache.SeedMember | flood_system/frc_conflicts_ablation.py:165-180 | a row is seeded exactly when its case and ordered evidence have a reference prediction, and with that prediction |
| PredictionCache.SeedsAreFaithful | flood_system/frc_conflicts_ablation.py:138-180 | truthful references give seeds that can be trusted like a checkpoint |
| PredictionCache.SeededRun | scripts/run_conflicts_frc_ablation.py:138-197 | a run that starts from seeds gives the labels of a run that starts from nothing and leaves them as the file, with predictions that were cached before unchanged; it fails exactly for inconsistent references or a torn file, and then touches nothing |
| CaseBuilder.PickTargets | flood_system/frc_housing_ablation.py:234-248 | the targets are, in rank order, the records that clash with nothing used or picked before |
| CaseBuilder.TargetsAreDistinct | flood_system/frc_housing_ablation.py:234-250 | targets have distinct groups and statutes and no group of an earlier case; when they are too few every other record clashes |
| CaseBuilder.PickNegatives | flood_system/frc_housing_ablation.py:257-289 | each target gets the best ranked opposite answer of its group whose statute is unused; the attempt ends if one has none |
| CaseBuilder.PickDistractors | flood_system/frc_housing_ablation.py:312-320 | distractors are taken in rank order while their statute is unused, until there are enough |
| CaseBuilder.DistractorsAreDistinct | flood_system/frc_housing_ablation.py:312-322 | distractors have distinct unused statutes; asked for none, the loop takes every statute |
| CaseBuilder.DistinctEntriesNeverMerge | flood_system/frc_housing_ablation.py:151-161 | with distinct statutes the merge branch is never taken and each entry is a candidate of its own |
| CaseBuilder.CollectUnites | flood_system/frc_housing_ablation.py:151-161 | a candidate keeps the record entered first under its identifier and has the origins of all entries under it |
| CaseBuilder.CaseCounts | flood_system/frc_housing_ablation.py:648-653 | a case has 2F+D candidates of which exactly F+D are applicable |
| CaseBuilder.CaseIsWellBuilt | flood_system/frc_housing_ablation.py:253-346 | distinct groups and statutes, one gold and one hard negative per field, every candidate with one origin |
| CaseBuilder.BuildCase | flood_system/frc_housing_ablation.py:252-346 | an attempt with its `for`/`else` yields the specified case or nothing, and D distractors for D of at least one |
| CaseBuilder.AddCase | flood_system/frc_housing_ablation.py:347 | remembering the groups of each case keeps cases of one state from sharing a group |
| CaseBuilder.BuildRound | flood_system/frc_housing_ablation.py:222-349 | a round adds the cases of its states in order and stops when there are enough |
| CaseBuilder.BuildCases | flood_system/frc_housing_ablation.py:164-357 | success if and only if the settings are valid and the rounds yield enough cases (`BuildsUpToCapacity` says how many they yield); then exactly that many, each well built, no group reused within a state |
| CaseBuilder.EligibleIff | flood_system/frc_housing_ablation.py:193-203 | a record of a state is eligible if and only if some record asks its group in another state and was answered the other way |
| CaseExistence.BuildsUpToCapacity | flood_system/frc_housing_ablation.py:164-357 | with every statute in one record and every group asked once per state, for all orders: the number of cases is the smaller of the number asked for and the sum over states of answerable records divided by F, where a state with fewer than F+D records gives none |
| CaseExistence.EnoughTargetsIff | flood_system/frc_housing_ablation.py:234-250 | F targets are found exactly when the state has F groups left |
| CaseExistence.NegativesFound | flood_system/frc_housing_ablation.py:257-289 | no target ever takes the hard negative of another: each gets one |
| CaseExistence.EnoughDistractorsIff | flood_system/frc_housing_ablation.py:297-322 | D distractors are found exactly when the state has F+D records |
| CaseExistence.FailureHasAReason | flood_system/frc_housing_ablation.py:213-356 | for any records: a valid plan fails only when no state with groups enough can give one more case, or after as many passes as the largest quotient of groups by fields |
| CaseExistence.MaxRoundsIsLargest | flood_system/frc_housing_ablation.py:213-221 | the number of passes is that quotient, attained by some state unless it is zero |
| CaseExistence.TargetsAreBest | flood_system/frc_housing_ablation.py:224-248 | no eligible record that would fit beside the targets ranks before one of them |
| CaseExistence.NegativesAreBest | flood_system/frc_housing_ablation.py:272-289 | each hard negative ranks first among the opposites whose statute is still unused |
| CaseExistence.DistractorsAreBest | flood_system/frc_housing_ablation.py:303-320 | no unused record left out ranks before a distractor that was taken |
| CaseExistence.EligibleStatesAscend | flood_system/frc_housing_ablation.py:204-209 | states come in the order of the seed's keys, equal keys by name |
| CaseExistence.SortIsStable | flood_system/frc_housing_ablation.py:224-233 | records with equal keys keep their order, and none is lost or doubled |
| TemporalCases.GroupRows | flood_system/frc_eurlex_temporal_ablation.py:249-284 | the dictionary holds, for every pair of acts, exactly its usable rows in order |
| TemporalCases.ParseRepealPairs | flood_system/frc_eurlex_temporal_ablation.py:245-321 | exactly one pair for any two acts whose usable rows share one boundary and show thirty days before it |
| TemporalCases.PairIsHull | flood_system/frc_eurlex_temporal_ablation.py:287-294 | the merged intervals cover all usable rows of the pair, are no wider, and meet on adjacent days |
| TemporalCases.PairIff | flood_system/frc_eurlex_temporal_ablation.py:258-294 | a pair comes out exactly when rows that pass the filters exist for its acts, all have its boundary, its ends are the widest of theirs, and thirty days lie before the boundary |
| TemporalCases.ExactlyOneApplies | flood_system/frc_eurlex_temporal_ablation.py:648-652 | from the first day of the old act to the last of the new one exactly one of them applies |
| TemporalCases.BoundaryCases | flood_system/frc_eurlex_temporal_ablation.py:488-512 | on the last valid and on the first effective day the gold act applies and the superseded act does not |
| TemporalCases.SelectApplicable | flood_system/frc_eurlex_temporal_ablation.py:655-682 | the filtered selection ranks the acts that apply and takes what fits |
| TemporalCases.BestApplicableIsFirst | flood_system/frc_eurlex_temporal_ablation.py:655-682 | for every limit the first act selected is a best ranked applicable act that fits, and nothing is selected only if none fits |
| TemporalCases.BestIsHighest | flood_system/frc_eurlex_temporal_ablation.py:669-672 | in scores: no other applicable act that fits scores higher, or equally with an earlier identifier |
| TemporalCases.SupersededIsNotSelected | flood_system/frc_eurlex_temporal_ablation.py:665-666 | for every limit the superseded act's identifier is selected only if an applicable distractor bears it too |
| TemporalCases.SupersededIsSelectedIff | flood_system/frc_eurlex_temporal_ablation.py:655-682 | with room for one it is selected if and only if such a distractor is a best applicable act that fits |
| TemporalCases.ChainParses | flood_system/frc_eurlex_temporal_ablation.py:249-321 | rows of a chain of repeals whose middle act entered into force twice give two pairs with different intervals for that act |
| TemporalCases.ChainSelectsSuperseded | flood_system/frc_eurlex_temporal_ablation.py:492-512 | in the first pair's case, with the second pair as distractor, a better ranked middle act that fits is selected although superseded |
| IdempotentWrites.LookupIsObservation | flood_system/storage/response_repository.py:1855-1869 | the first lookup and the one after a lost reservation answer from the unexpired record of the key, and the rows they delete are rows that nobody can see any more |
| IdempotentWrites.ReservationExcludes | flood_system/storage/response_repository.py:1871-1898 | a reservation succeeds exactly when no unexpired record has the key, and then makes every other request for the key lose its own until it expires |
| IdempotentWrites.SettlingNeedsAnOpenRecord | flood_system/storage/response_repository.py:1900-1943 | settling closes or removes only an open record of the key and content, whoever made it, and a success is reported exactly when there was one |
| IdempotentWrites.Server.LookUp | flood_system/http/idempotency.py:224-226 | the first lookup, run through the ledger, is the step of the protocol |
| IdempotentWrites.Server.Claim | flood_system/http/idempotency.py:228-243 | the reservation, run through the ledger, is the step of the protocol |
| IdempotentWrites.Server.LookAgain | flood_system/http/idempotency.py:244-251 | the lookup after a lost reservation is the step of the protocol |
| IdempotentWrites.Server.SettleRequest | flood_system/http/idempotency.py:253-339 | release after a refusal, otherwise completion that may fail, is the step of the protocol |
| IdempotentWrites.Server.Serve | flood_system/http/idempotency.py:189-339 | the server carries out any schedule exactly as the runs of the theorems do, and stops where a step is not enabled |
| IdempotentWrites.RunsAreTruthful | flood_system/http/idempotency.py:189-339 | in every interleaving of requests, crashes and the clock, each success a client is told of happened, for its own key and content |
| IdempotentWrites.NextKeepsGuarded | flood_system/http/idempotency.py:223-339 | every step keeps the record of each request that was not refused and has not expired |
| IdempotentWrites.SecondEffectFollowsRefusal | flood_system/http/idempotency.py:223-339 | while handlers settle in time, two unexpired requests of one key that may both have acted include one that refused after acting, and completing never fails |
| IdempotentWrites.AtMostOneEffect | flood_system/http/idempotency.py:223-339 | while handlers settle in time and none refuses after acting, at most one unexpired request per key may have acted |
| IdempotentWrites.CleanRefusalIsNeeded | flood_system/http/idempotency.py:255-261 | from every guarded state, a handler that acts and refuses lets its repetition act again with every handler in time |
| IdempotentWrites.RepetitionIsReplayed | flood_system/http/idempotency.py:136-178 | over timely runs, until expiry: a repetition gets the response of the write if it was kept for replay and is refused as not replayable exactly if it was not; after a failed handler it is told the outcome is unknown, and while the handler runs or after a crash that the write is in progress |
| IdempotentWrites.RepetitionIsAnswered | flood_system/http/idempotency.py:159-251 | from every guarded state, for either lookup: the answer to a repetition is determined by its content and by how far the handler of the first request got |
| IdempotentWrites.OutcomesAreKept | flood_system/http/idempotency.py:253-339 | over all runs, what a client was told is what its handler returned, settled or not |
| IdempotentWrites.RefusalFreesTheKey | flood_system/http/idempotency.py:311-317 | a refused write leaves its key free |
| IdempotentWrites.LateSettleClosesAnother | flood_system/storage/response_repository.py:1906-1923 | a request that outlived its reservation closes the open record of its successor |
| IdempotentWrites.TimelinessIsNeeded | flood_system/http/idempotency.py:235-243 | from every guarded state with a running handler that will overrun, some schedule has two effects for one key |
| KeyRing.MakeRing | flood_system/security.py:51-62 | the constructor's loop yields a ring whose active key opens under its own identifier |
| KeyRing.FirstKeyWins | flood_system/security.py:56-61 | of several keys with one identifier the first stays, and no key is invented |
| KeyRing.WithActiveKeyRebuilds | flood_system/security.py:102-104 | rebuilding the ring from the new key and the former keys in any order only puts the new key in front |
| KeyRing.NewActiveKeyStillReads | flood_system/security.py:102-104 | changing the active key keeps every payload readable with the same text, unless its identifier shadows another key |
| KeyRing.OpensIff | flood_system/security.py:120-134 | a row gives a text if and only if it is that plain text, or its token holds the text under the ring's key for its label |
| KeyRing.Repository.MigrateTable | flood_system/repository.py:133-150 | a table migrates if and only if each row is current or opens; current rows stay, the others are sealed afresh with their own text |
| KeyRing.Repository.MigratePayloads | flood_system/repository.py:129-152 | all tables or none; the flag is down afterwards; nothing is written exactly when all rows are current |
| KeyRing.Repository.CheckPending | flood_system/repository.py:154-170 | the newest pending rotation must name the active key and is the only one activated; otherwise nothing changes |
| KeyRing.Repository.Start | flood_system/repository.py:41-54 | the check comes before the migration, so a pending rotation to another key keeps every row |
| KeyRing.Repository.Rotate | flood_system/storage/response_repository.py:1957-2073 | a rotation happens if and only if the key differs, nothing is pending and every row opens; then every row is sealed under the new key with its own text and the log has one more entry |
| KeyRing.Repository.Perform | flood_system/repository.py:41-54 | any sequence of restarts and rotations, failed or not, goes through the states of a run as the theorems below take it |
| KeyRing.Repository.Reseal | flood_system/storage/response_repository.py:2019-2046 | rows and log entry are written in one transaction, and every row is counted |
| KeyRing.RunsKeepTexts | flood_system/repository.py:41-170 | over any run of restarts under any rings and of rotations, failed or not, no row changes the text it stands for and at most one rotation is pending |
| KeyRing.StartReadsEverything | flood_system/repository.py:88-170 | honest rows stop a startup exactly if a label is not in the ring or a rotation to another key is pending; else all rows are current and read as before |
| KeyRing.UnreadableRowStopsStartup | flood_system/repository.py:129-152 | a row that is not JSON, or that is sealed under another label than the active one and does not open, stops a startup, and no row is rewritten |
| KeyRing.StartReseals | flood_system/repository.py:136-150 | after a startup each row with another label, and each plain row, is sealed under the active key with the text it gave; the others are the same |
| KeyRing.SecondStartChangesNothing | flood_system/repository.py:136-150 | a second startup under the same ring succeeds and changes neither rows nor log |
| KeyRing.RotationSurvivesRestart | flood_system/storage/response_repository.py:2047-2059 | before the new key is promoted former rings cannot start and touch nothing; the new key starts with or without the former ones and rewrites no row |
| KeyRing.RotationReseals | flood_system/storage/response_repository.py:2019-2046 | a rotation seals every row under the new key with the text it gave under the former ring |
| KeyRing.RotatesIff | flood_system/storage/response_repository.py:1957-2073 | a rotation happens exactly for another key than the active one, with nothing pending and every row readable, and is pending afterwards exactly when the key is managed by the environment |
| KeyRing.UnreadableRowStopsRotation | flood_system/storage/response_repository.py:2019-2046 | a row that gives no text stops a rotation, and nothing changes |
| KeyRing.StartVouchesForOthers | flood_system/repository.py:138-143 | after a startup every row opens if and only if the rows that already carried the active label did |
| KeyRing.FailedStartHasPromoted | flood_system/repository.py:52-53 | a startup that fails for a row it cannot open changes no row but activates the rotation it was promoted for |
| KeyRing.DamagedRowGoesUnnoticed | flood_system/repository.py:138-143 | a damaged row with the active label passes startup and stops the next rotation |
| PostgisMigration.BuildProjectionRecords | flood_system/postgis_migration.py:192-322 | each row in order is a record or a note: a record exactly if it is complete and its own models' first stated flag is true, or else the last earlier row of its document version says so, or else the last earlier row of its event; event and document rows go by their own flag |
| PostgisMigration.ProjectsIffAdmitted | flood_system/postgis_migration.py:230-265 | the chain of fallbacks through two dictionaries is that rule; a row nobody speaks for is a note |
| PostgisMigration.EveryRowOnce | flood_system/postgis_migration.py:215-318 | each row is in order either one record or one note, and nothing else is; a record is written exactly for a complete simulated row |
| PostgisMigration.EventsAreSettled | flood_system/postgis_migration.py:244-258 | once the events are read, no later row changes what an event says |
| PostgisMigration.LineOrder | flood_system/postgis_migration.py:325-331 | two lines come in the order of their identifiers exactly when the entries do not clash |
| PostgisMigration.AscendingIsUnique | flood_system/postgis_migration.py:325-331 | a set of lines has one ascending listing |
| PostgisMigration.ListingsAgree | flood_system/postgis_migration.py:471-487 | both listings of equal contents agree if and only if no two entries clash |
| PostgisMigration.NextCharacterDecides | flood_system/postgis_migration.py:160-161 | for all digests: an identifier extended by more than a colon never clashes with its prefix, by less it always does |
| PostgisMigration.VersionTenClashes | flood_system/postgis_migration.py:137-142 | versions 1 and 10 of one package never reconcile |
| PostgisMigration.SourceListing | flood_system/postgis_migration.py:325-331 | the source listing holds one line per record of the kind, ascending if they differ |
| PostgisMigration.ShadowStore.UpsertAll | flood_system/postgis_migration.py:430-470 | the loop writes the records one over the other |
| PostgisMigration.ShadowStore.TargetListing | flood_system/postgis_migration.py:471-479 | the target listing holds the rows of kind and batch by ascending identifier, and no others |
| PostgisMigration.UpsertedRow | flood_system/postgis_migration.py:440-451 | a key that was written carries its last record, the other rows stay |
| PostgisMigration.PassesIffFaithful | flood_system/postgis_migration.py:471-487 | in every store that earlier runs can leave, a kind passes if and only if its identifiers are distinct and do not clash |
| PostgisMigration.ShadowStore.Migrate | flood_system/postgis_migration.py:353-519 | a run is completed if and only if nothing was quarantined and every kind is faithful; the store keeps holding what its batches stand for |
| PostgisMigration.LastBatchIsExact | flood_system/postgis_migration.py:430-479 | after any sequence of runs the rows tagged with the last batch are exactly its records, stale rows are not counted, and repeating the run changes nothing |
| PostgisMigration.SameBatchIff | flood_system/postgis_migration.py:359 | for all versions and contents: two mapping versions give one content the same batch exactly when their first 24 characters agree |
| PostgisMigration.MappingVersionIsCutOff | flood_system/postgis_migration.py:359 | default mapping version 5 and version 4 give equal content the same batch |
| Annotation.ValidateSubmission | flood_system/rag_annotation.py:166-193 | the checks accept exactly the submissions of the specification |
| Annotation.AcceptedIff | flood_system/rag_annotation.py:166-193 | accepted is what names annotator and package and has one proper decision for each item: candidates of that item, roles of the schema for exactly those, and a reason if there are none |
| Annotation.AcceptedIsBijection | flood_system/rag_annotation.py:171-179 | equal length, distinct identifiers and known items force decisions and items to match one to one, package items included |
| Annotation.LookupIsTotal | flood_system/rag_annotation.py:217-227 | every lookup of an item finds a decision on it that selects its candidates only |
| Annotation.KappaBounds | flood_system/rag_annotation.py:196-205 | kappa lies in [-1, 1] and is 1 exactly for equal vectors; where chance agreement is certain the agreement is complete, so the arm for 0 is never taken |
| Annotation.KappaSymmetric | flood_system/rag_annotation.py:196-205 | exchanging the annotators does not change kappa |
| Annotation.KappaInCounts | flood_system/rag_annotation.py:196-205 | kappa is how far the matches exceed chance out of how far they could, counted in pairs: (m n - e) / (n n - e) for m equal places of n |
| Annotation.KappaSign | flood_system/rag_annotation.py:196-205 | kappa is positive exactly for more matches than chance gives and zero exactly for as many |
| Annotation.JaccardIs | flood_system/rag_annotation.py:234-235 | the share of the union that is common; one exactly for equal selections, zero exactly for disjoint ones |
| Annotation.TallyCounts | flood_system/rag_annotation.py:226-249 | the tally counts the items with equal answers, the documents both selected, and those of them with equal role sets |
| Annotation.CompareSubmissions | flood_system/rag_annotation.py:208-264 | a comparison exists exactly for two accepted submissions of different annotators; it reports, rounded and each in its place, kappa of the ballots, the mean share of common documents, the shares of equal roles and of equal answers, and lists exactly the items on which the decisions differ |
| Annotation.PerfectStatisticsIff | flood_system/rag_annotation.py:226-260 | all four statistics are exactly 1 if and only if the annotators agree on every item up to the order of roles |
| Annotation.NoDisagreementIsPerfect | flood_system/rag_annotation.py:226-264 | without disagreements the report shows four times exactly 1 |
| Annotation.NoDisagreementIff | flood_system/rag_annotation.py:236-249 | no disagreement is listed if and only if the annotators agree on every item and list equal role sets in the same order |
| Annotation.RoleOrderIsReported | flood_system/rag_annotation.py:236-264 | two accepted submissions that differ in the order of two roles get four times exactly 1 and a disagreement |
| Calibration.CalibrationRows | flood_system/candidate_evaluation.py:28-30 | every candidate becomes one row with its confidence clamped to [0, 1] |
| Calibration.BinsPartition | flood_system/candidate_evaluation.py:32-34 | every clamped confidence is in exactly one bin, the value 1 included |
| Calibration.BinsExhaustRows | flood_system/candidate_evaluation.py:32-39 | over the bins, counts and gaps add up to those of all rows |
| Calibration.ComputeEce | flood_system/candidate_evaluation.py:31-39 | the loop computes the sum of the bins' absolute gaps over the number of rows, which lies between the gap of means and 1 |
| Calibration.GapIs | flood_system/candidate_evaluation.py:32-38 | the gap of a bin is the confidence of the rows that fall into it, minus the number of those that are gold |
| Calibration.PerfectIff | flood_system/candidate_evaluation.py:31-39 | the error is zero exactly when in every bin the confidences add up to the number of gold rows |
| Calibration.Sandwich | flood_system/candidate_evaluation.py:31-39 | the distance of mean confidence and accuracy is at most the error, and the error at most 1 |
| ChunkWindows.ChunkText | scripts/run_frc_chunk_length_sensitivity.py:51-85 | the windows start step by step, none is longer than the chunk, and for a non-negative overlap the loop leaves through its break |
| ChunkWindows.StepIs | scripts/run_frc_chunk_length_sensitivity.py:60-61 | the overlap is the share of a window rounded half to even, and the step what it leaves of a window, at least one token |
| ChunkWindows.NeighboursShare | scripts/run_frc_chunk_length_sensitivity.py:65-85 | the last tokens of a window beyond a step are the first of its successor |
| ChunkWindows.RebuildsText | scripts/run_frc_chunk_length_sensitivity.py:60-85 | the first window and the unshared rest of each later one give the text back |
| ChunkWindows.EveryTokenCovered | scripts/run_frc_chunk_length_sensitivity.py:65-85 | every token is in a window if and only if the step is no longer than a window or one window is enough |

## Left out

- Floating point is replaced by exact reals; Python's rounding of ties to even is modelled.
- Neural scorers, tokenizers and generation are functions of what they are given; the features of documents (slots, roles, overlap, cost, scores) are inputs.
- Encryption is ideal, and so are the digests of listings and the batch identifiers taken from them; stored plain text is taken not to look like an envelope.
- The SQL engines are maps and sequences with commit or rollback; `ORDER BY` on text is code-point order.
- EvidenceSelection.Attach: of the reported score terms only the total score, the slot flags and the cost are modelled, because the others are copies of features.
- PredictionCache.ResumeAfterInterruptions: a line that lost only its line break is not modelled; it still reads, but the next line would be appended to it.
- The housing answerer of `flood_system/frc_housing_ablation.py` has the same shape as the classifier, with a file that is rewritten, and is not modelled again.
- CaseBuilder.BuildCases: the sort keys are parameters, rows are parsed already, and questions, answers and evidence maps of a case are represented by its targets.
- TemporalCases.ParseRepealPairs: rows arrive parsed; addresses, families and the final sort of the pairs by identifier are not modelled, because nothing later depends on them.
- TemporalCases.BoundaryCases: which distractor pairs a case receives is a parameter; the theorems hold for all of them.
- IdempotentWrites.Server.SettleRequest: payload encryption of the records is left to the key-ring model, and an answer too large to replay is stored as not replayable without its size.
- KeyRing.Repository.UpdatePayload: the guard against updates outside a rotation is modelled for every table, although only the append-only tables have it.
- KeyRing.Repository.Rotate: writing the key file is the moment of activation; an interruption before it is the pending case.
- PostgisMigration.ShadowStore.Migrate: the rows of batches, quarantine and reconciliation runs are represented by the returned reports.
- Annotation.CompareSubmissions: answers are compared in their normal form, which is an input, and the adjudicated data set is not assembled.
- ChunkWindows.ChunkText: decoding a window and encoding it again is not modelled, so the claims are about token windows.
- Reciprocal-rank fusion, minimum-maximum scaling, recall and critical-miss rates would add easy members only.
- Routes, middleware other than the idempotent write, user interface, argument parsing and report rendering.
