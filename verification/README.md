# Trading-governance scripts, modelled and proved

This project models the algorithms and protocols behind the operator scripts of a governed trading runtime, and proves
what they are relied on for. One module follows one script (or the part of the runtime the script drives):

| module | what it models |
|---|---|
| `DiagnosticCodeIndex` | resolving a name to the one string constant it certainly denotes, over an import graph that may be cyclic |
| `IndexCertainty` | when that string is the only value the name can hold, over every execution of the modules |
| `BlogVendor` | re-running the slice of a module that depends on its path roots, and cutting line spans out of a file |
| `MultipleTesting` | Benjamini-Hochberg step-up and Holm step-down against definitions that mention no order |
| `ForwardCohort` | the day-clustered member-minus-twin mean, the drawdown and the profit factor |
| `SelectionEvidence` | the two-stage judgement of one timeframe, its swap calibration and its centring |
| `ExecutionStage` | the stage ladder: its hash-chained ledger and anchor, what is planned, written and read back |
| `StageDoor` | any interleaving of confirms, demotions and re-anchorings, with failing writes and dying processes |
| `StrategyPool` | assembling a new pool from candidates: display ids, replaced entries, inherited records |
| `PoolDoors` | the doors that share the pool file: promotion with a digest check, disarm, lifecycle, import |
| `SignedTestnetCycle` | one signed testnet cycle over every combination of venue answers and write failures, and the registry of cycles under runs that overlap |
| `CoreBinding` | binding a Task record to one activated Core release over activations, rollbacks and deactivations |
| `MeasureOiLookahead` | the look-ahead snapshot cache, and the period summary |
| `RescoreImport` | which rows are re-scored, which files of re-scores the store takes, and doors that overlap |
| `BinanceArchive` | a download that resumes |

`Wrappers` holds `Option`. Code that works step by step (loops that fill tables, stores that are updated) is written as
methods and classes and proved against functions; what is promised is proved about those functions as lemmas. Amounts
are reals, and a variance stands for its square root. A hash or digest is the hashed value itself, so it is injective;
where the text that is hashed may not be injective in its fields, that is proved or refuted.

## What the code does that its documentation does not say

- The index promises one certain string a name. It reads top-level `NAME = "LITERAL"` and `from X import NAME` only, and
  does not notice another form that binds the name again: after `CODE = "A"`, a reassignment, a tuple target, a `def`, an
  `import ... as`, an assignment nested under `if` or `try`, a star import, or a function's `global`
  (`IndexCertainty.ReboundIsStillIndexed`, `NestedIsStillIndexed`, `StarredIsStillIndexed`). Over all executions of
  the modules `IndexCertainty.IndexedIsCertain` says exactly which indexed names are certain.
- A demotion to READ_ONLY over a READ_ONLY tip that does not bind (its last two anchor writes were lost, say) extends the
  chain without continuing it, and every later read finds the ledger broken. It fails closed
  (`ExecutionStage.StopOverStopBreaksLedger`, exactly when: `ExecutionStage.AppendKeepsChain`).
- `--sync-anchor` moves no row, but it changes the stage the machine reads when the anchor is more than one row behind a
  tip that otherwise binds (`ExecutionStage.SyncChangesStageExactly`): a climb and a demotion that both lost their anchor
  writes read READ_ONLY, and the demoted stage binds again after it (`SyncBringsStageBack`, at an input in
  `SyncBringsPaperBack`).
- An ask whose reason is cut at 600 characters (or its attestation at 2000) right after a space can never be confirmed:
  the second planning strips that space and reports a changed stage (`ExecutionStage.LongReasonIsNeverConfirmed`;
  `ExecutionStage.AskThenConfirm` is exact).
- Selection of OI re-scores takes the last INVALID row of an id, the import validator its last row, so a re-score may be
  emitted that the validator refuses (`RescoreImport.SelectedMayBeRefused`, exactly when: `RescoreImport.EmittedIsAccepted`).
- Both doors onto the candidate store look at it once and append later. Where another append re-scores one of the sources
  in between, the store ends with two re-scores of it (`RescoreImport.OverlapRescoresTwice`; exactly when:
  `RescoreImport.OnePerSourceExactly`, `RescoreImport.StaysNewExactly`).
- Seeding a cycle's id with the number of cycles on record is meant to keep two runs of one second apart. It does if they
  follow one another; if they overlap, both take one id, and if neither is refused before the venue the second row is
  dropped (`SignedTestnetCycle.OverlapLosesARow`; exactly when: `SignedTestnetCycle.RowIsKeptExactly`).

## Model

| member | source | states |
|---|---|---|
| DiagnosticCodeIndex.ModuleStringConstants | scripts/build_diagnostic_code_index.py:55-85 | a module's own constants: a name is in the table exactly when it has one literal, under it |
| DiagnosticCodeIndex.ImportTargetExactly | scripts/build_diagnostic_code_index.py:109-124 | a relative import is read from its module's path without as many last parts as its level, any other from the root; from there the module file if it is parsed, or else the package; none when neither is |
| DiagnosticCodeIndex.Extract | scripts/build_diagnostic_code_index.py:136-164 | the extraction loop yields exactly the own constants, import bindings (each with the file it reads, as `ImportTargetExactly` says) and unsafe names of the module |
| DiagnosticCodeIndex.Value | scripts/build_diagnostic_code_index.py:166-178 | the recursive walk stops on every import graph, cyclic or not, and returns c exactly when the name denotes c without passing a node of `seen` |
| DiagnosticCodeIndex.Fixpoint | scripts/build_diagnostic_code_index.py:127-135 | the meaning satisfies its rule in both directions: own and not imported, or imported, safe and every binding denotes the same |
| DiagnosticCodeIndex.Least | scripts/build_diagnostic_code_index.py:127-135 | every relation closed under the rule contains the meaning, so it is the least fixpoint |
| DiagnosticCodeIndex.Deterministic | scripts/build_diagnostic_code_index.py:127-135 | a name denotes at most one string |
| DiagnosticCodeIndex.GrowingSeen | scripts/build_diagnostic_code_index.py:166-178 | growing `seen` can only turn an answer into none |
| DiagnosticCodeIndex.CutCycle | scripts/build_diagnostic_code_index.py:166-178 | cutting cycles loses nothing: what a name denotes each of its bindings denotes without coming back through it |
| DiagnosticCodeIndex.ResolveStringConstants | scripts/build_diagnostic_code_index.py:127-189 | each module's table holds exactly the names that denote a string, under that string; `IndexedExactly` says which these are |
| DiagnosticCodeIndex.IndexedExactly | scripts/build_diagnostic_code_index.py:127-135 | read off the statements: a name is indexed under c exactly when it is an own constant c, or only imported and each of its imports gives c |
| DiagnosticCodeIndex.TwoLevelImportIsIndexed | scripts/build_diagnostic_code_index.py:109-124 | a constant imported two levels up is indexed under its literal |
| IndexCertainty.IndexedIsCertain | scripts/build_diagnostic_code_index.py:127-147 | an indexed name can hold nothing but its string, in any execution of the modules, exactly when nothing else binds it to anything else in a form the index does not read, at any module it is read through |
| IndexCertainty.OwnCertainExactly | scripts/build_diagnostic_code_index.py:55-71 | for a module's own constants: exactly when each other binding of the name, at any depth and through imports, leads to the same string |
| IndexCertainty.HoldsExactly | scripts/build_diagnostic_code_index.py:58-71 | a name can hold a value in some execution exactly when its binding statements, followed through imports, say so |
| IndexCertainty.NoStraysAllCertain | scripts/build_diagnostic_code_index.py:127-147 | where no module uses such a form everything indexed is certain |
| IndexCertainty.ReboundIsStillIndexed | scripts/build_diagnostic_code_index.py:72-85 | a constant reassigned, unpacked, defined or imported again stays indexed and may hold anything |
| IndexCertainty.NestedIsStillIndexed | scripts/build_diagnostic_code_index.py:72-85 | a constant assigned another literal under a nested statement stays indexed and may hold it |
| IndexCertainty.StarredIsStillIndexed | scripts/build_diagnostic_code_index.py:142-155 | a constant a star import may rebind stays indexed |
| BlogVendor.PathAssignments | scripts/blog_vendor.py:425-442 | the scan keeps, and names, exactly the statements with plain targets only, none a root or excluded, whose right-hand side names a root or a name kept before, in order |
| BlogVendor.KeptByChain | scripts/blog_vendor.py:425-442 | a statement is kept exactly when a chain of kept statements leads from a root to it |
| BlogVendor.ScanFollows | scripts/blog_vendor.py:425-442 | the names the scan takes for paths are exactly the roots and the plain targets of what it kept |
| BlogVendor.RegularExactly | scripts/blog_vendor.py:425-442 | the condition of `RerunIsRun`, by dependence alone: what loses a name, what goes stale, what is bound twice |
| BlogVendor.RerunIsRun | scripts/blog_vendor.py:425-442 | re-running the slice after changing the roots gives the module state that importing the whole module with the new roots gives |
| BlogVendor.ChainIsKept | scripts/blog_vendor.py:425-442 | of `NAVER` from a root and `AFF` from `NAVER` both are kept |
| BlogVendor.ChainIsRerun | scripts/blog_vendor.py:425-442 | and the re-run gives both their new paths |
| BlogVendor.ReassignedNameIsWrong | scripts/blog_vendor.py:425-442 | without one binding per name the re-run can differ |
| BlogVendor.LostNameIsWrong | scripts/blog_vendor.py:425-442 | a name that depends on an excluded one keeps its old path |
| BlogVendor.Splice | scripts/blog_vendor.py:235-240 | splicing disjoint spans in place from the last one back equals one left-to-right pass |
| BlogVendor.Cut | scripts/blog_vendor.py:222-240 | refused exactly when a function to drop or replace is gone, otherwise one pass over the removals |
| BlogVendor.RemovalsExactly | scripts/blog_vendor.py:222-234 | what is removed: each named function, for its replacement or for nothing, and the main guard |
| BlogVendor.KeepAndCutConserve | scripts/blog_vendor.py:196-240 | keeping and cutting the same spans, with any replacement texts, lose no line and copy none |
| MultipleTesting.StepUpIsRejected | scripts/selection_evidence.py:231-238 | whatever order sorts the p-values, ties included, step-up rejects the p-values at most q k / m for the largest clearing count k; `RejectedExactly` writes that out |
| MultipleTesting.RejectedExactly | scripts/selection_evidence.py:231-238 | a p-value is rejected exactly when for some count k from 1 to m at least k p-values are at most q k / m and m p <= q k |
| MultipleTesting.BenjaminiHochberg | scripts/selection_evidence.py:231-238 | the loop over the sorted indices rejects exactly the p-values for which such a count k exists |
| MultipleTesting.RejectedPermutes | scripts/selection_evidence.py:231-238 | permuting the hypotheses permutes the rejections |
| MultipleTesting.RejectedMonotone | scripts/selection_evidence.py:231-238 | lowering p-values or raising q never removes a rejection |
| MultipleTesting.Holm | scripts/selection_evidence.py:389-399 | the step-down loop with its early stop rejects exactly the p-values all of whose smaller or equal ones p, with b before them, have p (total - b) <= alpha |
| MultipleTesting.HolmMonotone | scripts/selection_evidence.py:389-399 | more hypotheses only make Holm stricter, a higher level only looser |
| MultipleTesting.BonferroniWithinHolm | scripts/selection_evidence.py:389-399 | Bonferroni rejects nothing Holm does not |
| MultipleTesting.HolmWithinBenjaminiHochberg | scripts/selection_evidence.py:231-238 | at one level Holm over any m >= n rejects a subset of Benjamini-Hochberg over the n |
| MultipleTesting.TiesStandTogether | scripts/selection_evidence.py:231-399 | equal p-values are all in or all out, under both procedures |
| MultipleTesting.LevelShare | scripts/selection_evidence.py:389-399 | a step-down level at rank b never exceeds the step-up level at the same rank |
| ForwardCohort.ClusteredPairMean | scripts/forward_cohort.py:280-315 | the accumulation over pairs and days computes the summary, whatever order the days are held in |
| ForwardCohort.VarianceExactly | scripts/forward_cohort.py:296-313 | the variance V over G days has (G - 1) V = G sum of squares of the days' contributions - mean squared, none under two days |
| ForwardCohort.SampleSummary | scripts/forward_cohort.py:280-315 | two pairs over three days, computed by hand: mean 3/2, variance 63/16, both ahead |
| ForwardCohort.MeanIsSumOfDays | scripts/forward_cohort.py:286-293 | the mean over usable pairs is the sum of the days' contributions |
| ForwardCohort.SwapMirrors | scripts/forward_cohort.py:280-315 | swapping member and twin negates the mean and keeps pairs, days and variance |
| ForwardCohort.SwapAhead | scripts/forward_cohort.py:314-315 | each pair is ahead before the swap, ahead after it, or level |
| ForwardCohort.ShiftMean | scripts/forward_cohort.py:296-305 | adding delta to every member trade adds delta to the mean |
| ForwardCohort.Drawdown | scripts/forward_cohort.py:173-182 | the running peak and drawdown give the largest fall of the equity curve that starts at zero |
| ForwardCohort.FallIsZero | scripts/forward_cohort.py:173-182 | the largest fall is zero exactly when no trade loses |
| ForwardCohort.MaxDrawdown | scripts/forward_cohort.py:173-188 | none without trades, otherwise the largest fall, zero exactly when no trade loses |
| ForwardCohort.ProfitFactor | scripts/forward_cohort.py:186-190 | none without a loss, otherwise above 1 exactly when the mean is positive |
| ForwardCohort.WinsExactly | scripts/forward_cohort.py:161-171 | wins are the trades above zero and losses those below it, each as often as it occurs |
| ForwardCohort.DetailColumns | scripts/forward_cohort.py:161-198 | all display columns: win rate, profit factor, drawdown, mean win and loss, mean costs only when every row has them, and the differences to the stored expectancies |
| ForwardCohort.MeanOf | scripts/forward_cohort.py:152-158 | none when any row lacks the field, otherwise the mean over all rows |
| SelectionEvidence.FamilyStage | scripts/selection_evidence.py:260-272 | stage 1 tests the families with a p-value over enough days and shows every family with a summary |
| SelectionEvidence.LineageStage | scripts/selection_evidence.py:463-484 | stage 2 is Holm over every lineage with a summary, tested or not |
| SelectionEvidence.LineagePassIsStepUpPass | scripts/selection_evidence.py:463-484 | a lineage Holm rejects over the family is rejected by step-up over the tested ones |
| SelectionEvidence.RowsJudgeTheTested | scripts/selection_evidence.py:250-272 | one row a group with a summary; judged exactly with a p-value over enough days, and labelled PASS exactly when rejected with a mean above zero, BEHIND when rejected otherwise |
| SelectionEvidence.Stage1Rejects | scripts/selection_evidence.py:231-272 | the judged rows stage 1 rejects are exactly those for which such a count exists among the judged rows' p-values |
| SelectionEvidence.Stage2Rejects | scripts/selection_evidence.py:389-484 | the judged rows stage 2 rejects are exactly those with no smaller or equal p-value missing its share of the level over all rows |
| SelectionEvidence.SwapExchangesStage1 | scripts/selection_evidence.py:221-272 | on swapped data stage 1 shows the mirrored mean, the same p and rejection, and below level 1 PASS and BEHIND are exchanged everywhere |
| SelectionEvidence.SwapExchangesStage2 | scripts/selection_evidence.py:463-484 | the same for the lineages of a family |
| SelectionEvidence.ZeroMeanNotRejected | scripts/selection_evidence.py:221-228 | a zero mean has p-value 1 and is rejected by no stage below level 1 |
| MultipleTesting.RejectedBelowOne | scripts/selection_evidence.py:231-238 | below level 1 step-up rejects no p-value of 1 |
| MultipleTesting.HolmRejectedBelowOne | scripts/selection_evidence.py:389-399 | nor does step-down |
| SelectionEvidence.CenteredMeanIsZero | scripts/selection_evidence.py:275-280 | a centred family has mean difference exactly zero |
| SelectionEvidence.CenteringForgetsEdge | scripts/selection_evidence.py:275-280 | centring forgets a constant edge exactly when a pair carries a difference or there is nothing to shift |
| SelectionEvidence.Calibration | scripts/selection_evidence.py:283-303 | the counters over the draws, for every sequence of coins |
| SelectionEvidence.CalibratedExactly | scripts/selection_evidence.py:283-303 | they are the number of draws that pass a family, and the families passed over all draws |
| SelectionEvidence.CoinsSwap | scripts/selection_evidence.py:283-289 | heads everywhere swaps every pair, tails everywhere none |
| SelectionEvidence.CoinsApart | scripts/selection_evidence.py:283-289 | a pair's coin decides about that pair alone |
| SelectionEvidence.CalibrationIgnoresEdge | scripts/selection_evidence.py:290-294 | a constant edge per family leaves the whole calibration unchanged |
| SelectionEvidence.EdgeCannotWithhold | scripts/selection_evidence.py:513-516 | no constant edge moves whether stage 1 is withheld |
| SelectionEvidence.Judge | scripts/selection_evidence.py:511-524 | the judgement of one timeframe: the pooled summary, stage 1, the calibration, and stage 2 for exactly the families rejected with a mean above zero, in row order; withheld, and then without lineages, exactly when the draws that pass a family are too large a share |
| ExecutionStage.VerifyRows | runtime/mvp_runtime/crypto/execution_stage.py:386-416 | the row loop accepts exactly the chains whose rows continue one another and reuse no approval |
| ExecutionStage.PlanExactly | runtime/mvp_runtime/crypto/execution_stage.py:626-717 | a transition is planned exactly when the anchor names the tip, someone and a reason are named, the policy reads, the target's entry condition holds and the ladder has the move |
| ExecutionStage.PlanWrites | runtime/mvp_runtime/crypto/execution_stage.py:626-717 | the content planned, field by field |
| ExecutionStage.PlanRefusals | runtime/mvp_runtime/crypto/execution_stage.py:650-715 | why an ask is refused, check by check |
| ExecutionStage.RecordExactly | runtime/mvp_runtime/crypto/execution_stage.py:762-813 | an approved content becomes a record exactly when record and policy are still the same, planning again gives it back and its texts fit; the record carries it |
| ExecutionStage.DemoteExactly | runtime/mvp_runtime/crypto/execution_stage.py:816-881 | a demotion is written exactly when someone and a reason are named within the limit and: to READ_ONLY, there is a record that is not a valid READ_ONLY one; to another rung, the stage binds and is above it |
| ExecutionStage.DemoteRefusals | runtime/mvp_runtime/crypto/execution_stage.py:840-861 | why one is refused, in the order of the checks |
| ExecutionStage.DemoteWrites | runtime/mvp_runtime/crypto/execution_stage.py:862-881 | the record of a demotion, field by field |
| ExecutionStage.ApprovedFollowsLadder | runtime/mvp_runtime/crypto/execution_stage.py:626-717 | a confirmed record climbs one rung, rebinds or bootstraps as the ladder allows from the record it was asked over, LIVE_AUTONOMOUS only on a testnet cycle |
| ExecutionStage.DemotionFollowsLadder | runtime/mvp_runtime/crypto/execution_stage.py:816-881 | a demotion only lowers, and carries the witness and policy it descends from |
| ExecutionStage.PlanAgain | runtime/mvp_runtime/crypto/execution_stage.py:783-792 | the second planning gives the asked content back exactly when no text was cut before a stripped character |
| ExecutionStage.AskThenConfirm | runtime/mvp_runtime/crypto/execution_stage.py:762-813 | what was asked can be confirmed against the same record and policy exactly when its texts fit |
| ExecutionStage.LongReasonIsNeverConfirmed | runtime/mvp_runtime/crypto/execution_stage.py:783-792 | a reason of 601 characters whose 600th is a space is planned and can never be confirmed |
| ExecutionStage.AppendKeepsChain | runtime/mvp_runtime/crypto/execution_stage.py:940-986 | an appended record leaves a chain that verifies, except exactly for a stop over a stop |
| ExecutionStage.AppendableExactly | runtime/mvp_runtime/crypto/execution_stage.py:891-925 | a record may be written exactly when a chain an anchor vouches for can be extended, or it is a bootstrap or a stop |
| ExecutionStage.ConfirmReadsBack | runtime/mvp_runtime/crypto/execution_stage.py:570-613 | a confirmed record is the stage read next; without its anchor exactly when the anchor named the row before |
| ExecutionStage.ClimbOutlivesAnchor | runtime/mvp_runtime/crypto/execution_stage.py:647-650 | a climb binds even when its own anchor write is lost, because it waited for the anchor to catch up |
| ExecutionStage.DemotionReadsBack | runtime/mvp_runtime/crypto/execution_stage.py:570-613 | a demotion is the stage read next; to READ_ONLY it always reads READ_ONLY |
| ExecutionStage.StopOverStopBreaksLedger | runtime/mvp_runtime/crypto/execution_stage.py:851-861 | a repeated stop after two lost anchor writes breaks the ledger |
| ExecutionStage.SyncKeepsStage | runtime/mvp_runtime/crypto/execution_stage.py:995-1018 | re-anchoring moves no row and keeps a binding stage |
| ExecutionStage.SyncChangesStageExactly | runtime/mvp_runtime/crypto/execution_stage.py:995-1018 | it changes the stage read exactly when the anchor is more than one row behind a tip that otherwise binds above READ_ONLY |
| ExecutionStage.SyncBringsStageBack | runtime/mvp_runtime/crypto/execution_stage.py:995-1018 | after a climb and a demotion without their anchors the machine reads READ_ONLY and the sync brings the demoted stage back |
| ExecutionStage.SyncBringsPaperBack | runtime/mvp_runtime/crypto/execution_stage.py:995-1018 | such a machine exists |
| ExecutionStage.BindingIsApproved | runtime/mvp_runtime/crypto/execution_stage.py:487-546 | whatever the files hold, a stage binds only on a spent approval at that stage or above for the running policy |
| ExecutionStage.ValidExactly | runtime/mvp_runtime/crypto/execution_stage.py:487-546 | a stage record is valid exactly when ledger and anchor vouch for it, its move is one the ladder has, its time has come, it stands on its approval and, above READ_ONLY, under the running policy |
| ExecutionStage.PolicyMovedExactly | runtime/mvp_runtime/crypto/execution_stage.py:487-546 | it can be rebound exactly when all that holds but the policy |
| ExecutionStage.ReasonExactly | runtime/mvp_runtime/crypto/execution_stage.py:553-613 | nothing binds for exactly the reason of the first check that fails: ledger, anchor, move, time, approval, policy |
| ExecutionStage.RecordedExactly | runtime/mvp_runtime/crypto/execution_stage.py:575-613 | a record is present unless there is neither ledger nor mirror, and is the tip of a ledger that verifies or else the mirror's |
| ExecutionStage.NothingBindsUnproven | runtime/mvp_runtime/crypto/execution_stage.py:292-323 | LIVE_SCALED never binds and LIVE_AUTONOMOUS stands on a named cycle, even over forged files |
| ExecutionStage.PlanIsSound | runtime/mvp_runtime/crypto/execution_stage.py:626-744 | what is planned keeps the approvals such that this goes on |
| StageDoor.RunKeeps | scripts/register_execution_stage.py:149-230 | every step of every interleaving keeps the invariant of locks, spends, appends and history |
| StageDoor.OneRecordPerApproval | scripts/register_execution_stage.py:169-197 | in every run one approval appends at most one record |
| StageDoor.EveryClimbWasSpent | scripts/register_execution_stage.py:189-197 | every record that is no demotion has its own approval, spent earlier on it over the very files it was appended to |
| StageDoor.NothingSpentInVain | scripts/register_execution_stage.py:181-199 | an approval is spent once, only on a record that could land; what did not land failed its row or died in between |
| StageDoor.NoDemotionLost | scripts/register_execution_stage.py:167-222 | each record was planned from, and asked over, the tip it was appended to, which is the record appended before it |
| StageDoor.AfterStop | scripts/register_execution_stage.py:167-222 | after a stop only a demotion or a BOOTSTRAP asked over the stop follows |
| StageDoor.NothingForgedBinds | runtime/mvp_runtime/crypto/execution_stage.py:487-546 | in every run, tampered with or not, nothing above READ_ONLY binds without a spent approval |
| StageDoor.Machine.AppendStageRecord | runtime/mvp_runtime/crypto/execution_stage.py:940-986 | row, anchor, mirror; only a failed row leaves everything as it was |
| StageDoor.Machine.RunConfirm | scripts/register_execution_stage.py:149-199 | the sequential confirm with failing writes, and its first refusal in the order of the checks |
| StageDoor.ConfirmExactly | scripts/register_execution_stage.py:149-199 | a confirm writes a record exactly when execution is allowed, the newest row of the approval is approved and unexpired, its content still becomes a record, and the spend and the row are written |
| StageDoor.AskedAndDecided | scripts/register_execution_stage.py:116-146 | an ask is recorded where it can be planned under a free id, and is decided once |
| StageDoor.ClimbWorks | scripts/register_execution_stage.py:116-199 | step by step: an ask whose texts fit, approved and confirmed in time over a machine that reads as it did, makes it read the stage asked for |
| StageDoor.RefusalSpendsNothing | scripts/register_execution_stage.py:176-199 | a confirm writes a record or says why not, and every refusal but a failed row leaves grant and files as they were |
| StageDoor.Machine.RunDemote | scripts/register_execution_stage.py:213-222 | the sequential demotion with failing writes; a stop that is due and whose row is written leaves the machine reading READ_ONLY |
| StageDoor.StopWorks | scripts/register_execution_stage.py:213-222 | such a stop is recorded and the machine reads READ_ONLY whatever becomes of anchor, mirror, approvals, policy and clock |
| StageDoor.LoweringWorks | scripts/register_execution_stage.py:213-222 | a demotion of a binding stage to a lower rung is recorded and read, where row and anchor are written |
| StageDoor.MirrorChangesNothing | runtime/mvp_runtime/crypto/execution_stage.py:487-546 | once there are rows no decision reads the mirror |
| StageDoor.ConfirmAlone | scripts/register_execution_stage.py:149-199 | the interleaved steps of a confirm with no other process are the sequential one |
| StageDoor.DemoteAlone | scripts/register_execution_stage.py:213-222 | the same for a demotion |
| StrategyPool.Inherit | scripts/promote_strategy_candidates.py:256-271 | the inherited keys and the carried streak of one candidate |
| StrategyPool.ReplacedExactly | runtime/mvp_runtime/crypto/pool_admission.py:486-517 | an entry is replaced exactly when it is retired, shares a rule hash with the candidate, by label or spec, is not its own, and nothing that trades is |
| StrategyPool.PreciseExactly | runtime/mvp_runtime/crypto/candidate_identity.py:105-115 | the keys that name a lineage: candidate, generation with rule, the display name only without either, and what was inherited |
| StrategyPool.InheritsKeys | scripts/promote_strategy_candidates.py:256-261 | a key is inherited exactly when the candidate's own entry (the last with its id) had inherited it or it names the lineage of an entry it replaces |
| StrategyPool.CarriedIsLongest | scripts/promote_strategy_candidates.py:262-271 | the carried streak is the longest among the own entry and those replaced, zero without any |
| StrategyPool.AssemblePool | scripts/promote_strategy_candidates.py:239-348 | the assembly loop, with its refusals |
| StrategyPool.AssemblyShape | scripts/promote_strategy_candidates.py:272-300 | a completed assembly is the incumbents unchanged and one new entry a candidate, every field written out, with ids apart from all before them; distinct ids stay distinct |
| StrategyPool.AssembledExactly | scripts/promote_strategy_candidates.py:239-348 | a pool is the answer of the assembly exactly when it has that shape |
| StrategyPool.RefusedExactly | scripts/promote_strategy_candidates.py:272-300 | it refuses exactly at the first candidate whose id is there, or whose name is and no free one can be made with its generation |
| StrategyPool.KeptExactly | scripts/promote_strategy_candidates.py:239-252 | in add mode the new pool starts with exactly the entries no candidate replaces, in order; in replace mode with none |
| StrategyPool.IncumbentsStay | scripts/promote_strategy_candidates.py:239-252 | in add mode every entry no candidate replaces is kept as it was |
| StrategyPool.KeptOrNew | scripts/promote_strategy_candidates.py:301-320 | each entry of the new pool was in the old one or is armed as the promotion asked |
| StrategyPool.HeirKeepsRecord | scripts/promote_strategy_candidates.py:253-271 | the entry that re-lists or replaces another inherits its keys and at least its streak |
| StrategyPool.RecordFollowsLine | scripts/promote_strategy_candidates.py:253-271 | over any sequence of promotions no inherited key is lost and no streak falls along a line of such entries |
| PoolDoors.PoolFile.Install | runtime/mvp_runtime/crypto/pool_state.py:244-282 | validated, written only if the file is still the one read |
| PoolDoors.IdentityExactly | runtime/mvp_runtime/crypto/pool_state.py:244-282 | a pool is refused exactly when two entries share a strategy id or a candidate id, or one inherits a lineage another holds or inherited |
| PoolDoors.PoolFile.Disarm | runtime/mvp_runtime/crypto/live_tier.py:163-216 | every named LIVE entry becomes OBSERVATION, the rest is as it was, nothing is written when nothing moves |
| PoolDoors.PoolFile.Promote | scripts/promote_strategy_candidates.py:228-409 | with no other writer, the installed pool is the assembly over the pool on disk |
| PoolDoors.PromotionLands | scripts/promote_strategy_candidates.py:177-409 | a promotion with no other door in between writes exactly when it is approved or escapes at OBSERVATION, the pool it reads holds, it assembles, the gates pass and the new pool keeps identity |
| PoolDoors.RunKeeps | scripts/promote_strategy_candidates.py:228-409 | every interleaving of the doors keeps the pool's identity, its armed entries and the history |
| PoolDoors.LiveNamesApproval | scripts/promote_strategy_candidates.py:177-197 | in every run from a good pool each LIVE entry on disk names a verified approval |
| PoolDoors.PromotionIsAtomic | scripts/promote_strategy_candidates.py:228-409 | each promotion that wrote is a function of the pool it replaced, however long it took |
| PoolDoors.WritesOnlyOverItsRead | scripts/promote_strategy_candidates.py:228-409 | over any run of the doors between a promotion's read and its install, it writes only if the file is then the one it read |
| PoolDoors.DisarmedMeanwhileStays | scripts/disarm_live_strategies.py:54-62 | an entry read as LIVE and not LIVE any more when the promotion installs makes it write nothing |
| PoolDoors.DisarmIsNotOverwritten | scripts/disarm_live_strategies.py:54-62 | a disarm that moves an entry right after the read is not overwritten |
| PoolDoors.DisarmExactly | runtime/mvp_runtime/crypto/live_tier.py:163-216 | in a run too, a disarm leaves every named LIVE entry at OBSERVATION without its approval, and everything else as it was |
| PoolDoors.LifecycleExactly | runtime/mvp_runtime/crypto/pool_transitions.py:61-165 | a lifecycle move changes status and streak of the one entry it names, if that is not retired, and nothing else |
| PoolDoors.OnlyPromotionArms | scripts/import_crypto_history.py:186-207 | no import, disarm or lifecycle move arms an entry; only a promotion asked for LIVE under a verified approval does |
| SignedTestnetCycle.PlaceLeg | scripts/run_signed_testnet_cycle.py:261-297 | one leg placed and withdrawn again: its row, or the error that loses it |
| SignedTestnetCycle.StopExactly | scripts/run_signed_testnet_cycle.py:228-330 | a run stops exactly with the code of the first call that raises |
| SignedTestnetCycle.Door.RunCycle | scripts/run_signed_testnet_cycle.py:158-354 | for every combination of answers and writes over any registry: one row if the entry may have left and its id is not on record, none if it was refused before the venue; the id is new wherever no row counts more cycles than stand before it; the counter rises by the submissions whose count was written |
| SignedTestnetCycle.RegistryKeeps | runtime/mvp_runtime/crypto/testnet_evidence.py:243-255 | over any interleaving of runs no row is lost or moved, no id is on record twice, and whoever looks next takes an id that is not on record |
| SignedTestnetCycle.RowIsKeptExactly | scripts/run_signed_testnet_cycle.py:179-184 | a run's row is on record exactly when no row written since it looked carries its id |
| SignedTestnetCycle.ApartIsKept | scripts/run_signed_testnet_cycle.py:179-184 | so it is whenever no overlapping run takes the same symbol, quantity and second |
| SignedTestnetCycle.OverlapLosesARow | scripts/run_signed_testnet_cycle.py:179-184 | two such runs that overlap leave one row |
| SignedTestnetCycle.CountedExactly | scripts/run_signed_testnet_cycle.py:228-240 | that is every submission exactly when each count of one was written |
| SignedTestnetCycle.CompleteExactly | runtime/mvp_runtime/crypto/testnet_evidence.py:117-163 | a cycle is complete exactly when entry, both legs, exit and position all answered as required |
| SignedTestnetCycle.FindsExactly | runtime/mvp_runtime/crypto/testnet_evidence.py:117-163 | a read names exactly what the row leaves open, leg by leg |
| SignedTestnetCycle.StoppedIsNeverComplete | runtime/mvp_runtime/crypto/testnet_evidence.py:117-163 | a row of a run that stopped is never complete |
| CoreBinding.SeedInjective | scripts/create_core_context_binding.py:122-127 | the id decides every field when none holds a separator, and a previous binding called "None" is not no previous binding |
| CoreBinding.SeedReads | scripts/create_core_context_binding.py:122-127 | the hashed text written out, for one rule or two |
| CoreBinding.SameIdExactly | scripts/create_core_context_binding.py:122-127 | with separators: two bindings share an id exactly when their seeds have the same pieces |
| CoreBinding.SameRulesExactly | scripts/create_core_context_binding.py:122-127 | bindings that differ in their rules alone share an id exactly when the rules split at commas into the same list |
| CoreBinding.SchemaRulesDecided | schemas/thomas_core_release_manifest.v0.3.schema.json:171-175 | rule ids of the form the schemas demand are decided by the id |
| CoreBinding.CommaCollides | scripts/create_core_context_binding.py:28-127 | the builder, which does not check that form, binds `A,B` and `A`, `B` to one id |
| CoreBinding.NoSilentRebind | scripts/create_core_context_binding.py:129-130 | over any run of activations, rollbacks and deactivations a Task record keeps its id, and, where no field holds a separator, its release, activation, approval and rules |
| CoreBinding.DeactivatedBindsNothing | scripts/create_core_context_binding.py:78-80 | nothing binds from a deactivation to the next activation |
| CoreBinding.BindAgain | scripts/create_core_context_binding.py:129-130 | binding again over an unchanged Core gives the id back exactly when the lineage is the same, and refuses otherwise, separators or not |
| CoreBinding.BindsTheCurrentCore | scripts/create_core_context_binding.py:67-91 | a binding names the Task record, the current activation with its release and approval, the record's rules each where it first stands, all active, and the lineage the request states |
| CoreBinding.IssuedExactly | scripts/create_core_context_binding.py:42-130 | a binding is issued exactly for a complete record over an active Core holding all its rules, with its lineage stated, RECEIVED and unbound or bound to that very id |
| CoreBinding.RefusedExactly | scripts/create_core_context_binding.py:42-115 | short of a record bound to another id, a refusal is that of the first check that fails |
| CoreBinding.Registry.BindTask | scripts/create_core_context_binding.py:28-174 | the checks one by one issue a binding exactly then; the record carries its id, or stays as it was |
| CoreBinding.DecimalRoundTrip | scripts/create_core_context_binding.py:123 | the revision can be read back from its text |
| CoreBinding.Registry.Activate | scripts/activate_core_release.py:66-148 | an immutable record, then the pointer; an id on record refuses |
| CoreBinding.Registry.Deactivate | scripts/deactivate_core_release.py:53-121 | the pointer fails closed |
| MeasureOiLookahead.RunContexts | scripts/measure_oi_lookahead.py:195-216 | the cache at each step is exactly the keys a context seen so far needs and this one or a later one needs too, each context is replayed over the legs a cacheless run would build, and each snapshot needed is built once |
| MeasureOiLookahead.Evict | scripts/measure_oi_lookahead.py:202-204 | exactly the keys nothing ahead needs leave |
| MeasureOiLookahead.BuildLegs | scripts/rescore_stale_holdout_candidates.py:560-566 | what the cache lacks of a context is built once, or the run is blocked |
| MeasureOiLookahead.PeriodTotals | scripts/measure_oi_lookahead.py:124-135 | the subtotals by period over blocks of different lengths |
| MeasureOiLookahead.PeriodsConserve | scripts/measure_oi_lookahead.py:124-135 | the subtotals, R and trades, sum to what the blocks hold in the periods both their lists reach |
| MeasureOiLookahead.PooledMean | scripts/measure_oi_lookahead.py:126-142 | the pooled mean per trade, weighing blocks by their trades, none without a trade |
| RescoreImport.Select | scripts/rescore_stale_holdout_candidates.py:144-164 | the last INVALID row of each wanted id no row of the store re-scores, and no other |
| RescoreImport.ChosenAreSources | scripts/rescore_stale_holdout_candidates.py:144-164 | listing what was chosen gives distinct sources none of which is re-scored yet |
| RescoreImport.Validate | scripts/rescore_stale_holdout_candidates.py:435-493 | every problem of every line, in order |
| RescoreImport.ProblemsExactly | scripts/rescore_stale_holdout_candidates.py:435-493 | a problem is told exactly of the line and for the reason it holds, the source being the last row of its id and taken if re-scored in the store or named by an earlier line |
| RescoreImport.FileAccepted | scripts/rescore_stale_holdout_candidates.py:435-493 | a file has no problem exactly when each line stands given the ones before it |
| RescoreImport.OnePerSourceExactly | scripts/rescore_stale_holdout_candidates.py:501-600 | over any interleaving of imports, runs and mints each source has at most one OI re-score, exactly when at each append no source of its rows is re-scored yet |
| RescoreImport.StaysNewExactly | scripts/rescore_stale_holdout_candidates.py:501-600 | what a door read stays new exactly as long as nothing appended since re-scores one of its sources |
| RescoreImport.OnePerSourceAlways | scripts/rescore_stale_holdout_candidates.py:501-600 | so it has at most one wherever each append directly follows its own door's read |
| RescoreImport.OverlapRescoresTwice | scripts/rescore_stale_holdout_candidates.py:540-600 | a run overlapped by an import of the same source leaves two |
| RescoreImport.EmittedIsAccepted | scripts/rescore_stale_holdout_candidates.py:229-278 | what one run emits is accepted against the same store exactly when each selected row agrees with the last of its id and the re-scores are stamped and stand as expected |
| RescoreImport.SelectedMayBeRefused | scripts/rescore_stale_holdout_candidates.py:144-164 | the agreement can fail |
| BinanceArchive.Months | scripts/binance_archive.py:169-173 | every month of the range, in order, once |
| BinanceArchive.Archive.FetchOne | scripts/binance_archive.py:138-159 | one file: present, missing, kept exactly when the archive serves it with a checksum that names and matches it and it opens, or else untrusted; with the requests made |
| BinanceArchive.Archive.Fetch | scripts/binance_archive.py:176-204 | a whole fetch; one that aborts records nothing as missing |
| BinanceArchive.FetchExactly | scripts/binance_archive.py:176-204 | it aborts exactly when some file asked for is served but not vouched for; otherwise exactly the files asked for that are served are on disk, the others are found missing, and exactly the requests that takes are made |
| BinanceArchive.JobsTally | scripts/binance_archive.py:184-201 | a symbol's tally: kept is what the disk grew by, missing the jobs not on disk that are known to be missing or not served |
| BinanceArchive.NothingUnverified | scripts/binance_archive.py:129-159 | over any sequence of fetches, aborted or not, against a changing archive: no file is lost or altered, and every file was published for its name with a matching checksum |
| BinanceArchive.TalliesSumToJobs | scripts/binance_archive.py:184-201 | each symbol's tally counts each of its jobs once |
| BinanceArchive.RepeatAsksNothing | scripts/binance_archive.py:176-204 | repeating a completed fetch makes no request, keeps nothing, finds present what was kept or present, and counts the same missing |
| BinanceArchive.WorkIsDistinct | scripts/binance_archive.py:186-192 | the jobs are the days of the range and the months of each symbol, each once for distinct symbols |
| BinanceArchive.RepeatOverRange | scripts/binance_archive.py:176-204 | the repetition over distinct symbols, a range of days and its months |

## Left out

- Parsing of Python, YAML, JSON, zip and XML, HTTP, git and file locks as mechanisms: their effect is modelled (tables,
  append-only logs, atomic writes, mutual exclusion).
- `erfc` is a function known to be 1 at zero, to fall from there and never to be negative, square roots are kept as
  variances, and rounding and floating point are not modelled; nothing is claimed about error rates.
- DiagnosticCodeIndex: names set from outside their module (attribute assignment, `exec`, `globals()`); `del` binds nothing;
  every statement of a block counts as one that may run.
- BlogVendor: expressions are pure and assignments top-level; the text edits of `generate` and `generate_replay`, and
  `_keep`'s refusal of a missing name, are not modelled.
- SelectionEvidence: grouping pairs into families and lineages and sorting rows for display; rows come in name order.
- SelectionEvidence: choosing the boundary cohort, the refusal while the walk is behind, and `s1_condition`.
- ExecutionStage: fingerprints are not modelled apart from the approved content they are hashes of; an approval in the
  store is taken as decided by the verified approver; venue is the one supported venue.
- StageDoor: the door's reads of the files at the ask are one step; a restore of the files is a `Tamper` step that does
  not happen while the lock is held; the control-ledger event after the write is a warning only and is not modelled.
- StrategyPool: the quality gates of `run_promotion_gates` are one verdict; the rule-not-routed check and the artifact
  equality are part of it. Candidate resolution by selector is not modelled.
- PoolDoors: verification of an approval's content hash is one answer; the stale-decision rule of a lifecycle move is not
  modelled.
- SignedTestnetCycle: the guard, the pre-order gate and the snapshot before the entry are one answer; quantities and
  prices of the legs are not in the row and not modelled; errors that are no `Exception` are a run that leaves without a row;
  the submission counter is modelled for one run at a time.
- CoreBinding: verification of the activation chain is the lookup of an immutable record; concurrent binders and the
  exclusive write of the binding file are not modelled.
- MeasureOiLookahead: replaying and judging candidates; `read` is a direct case split.
- RescoreImport: the replay that makes the evidence; the append's own check of lineage, which takes a whole batch or
  refuses it. A difference in any of the five lineage fields is one problem, where the script names each field.
- BinanceArchive: the bucket listing, monthly fetch, hourly alignment and coverage; pauses between downloads.
- `hypothesis_trial.py`, `retire_strategies.py`, `emergency_close.py`, the gate matrix, the registry checks and the
  preview builders: one-branch facts or doors onto code modelled here.
