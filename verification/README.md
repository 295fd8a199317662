# A verified model of the factor-combination cleanup, the Factor 4 searches and the Factor 4 audits

The repository is a test framework: it prepares and removes data in a relational database, looks for samples in large
tables within fixed budgets, and audits published calculation results. This project models the parts whose results
depend on several functions or on whole runs, and proves what they promise. SQL tables are finite maps or sequences of
rows, a query is its row-level meaning, `Decimal` is an exact real, and every error path is a value.
`dafny verify dfyconfig.toml` verifies the whole project.

| area | modules |
|---|---|
| transactional cleanup of a resource graph | `Schema`, `Sql`, `CleanupScope`, `CleanupQuery`, `CleanupStages`, `CleanupResult`, `CleanupRun`, `CleanupRerun`, `CleanupOfPrepared`, `CleanupCounterexample`, `CleanupOrphans` |
| bounded, paged searches | `Queries`, `RunPages`, `ConsumerScope`, `CandidateRounds`, `AuxiliarySample`, `SliceScan` |
| parent factors for a test | `ParentChoices` |
| audit decision procedures | `FrozenCalendar`, `CalendarCheck`, `CalendarFailure`, `Dependencies`, `StableSort`, `TieBreak`, `Catalog` |
| portfolio and score arithmetic | `RealOrder`, `Drawdown`, `Positions`, `Turnover`, `EnvironmentScore` |
| server-sent events | `EventStream`, `EventStreamStandard` |

## What was found

- The cleanup's sharing checks have three blind spots: a pool member without a form, a component without a version, and a
  pool that belongs to an owned form but that neither the form nor a version points at. `IntegrityAtEveryStatement`
  shows that these are all of them: on an admitted scope every statement keeps referential integrity if and only if none
  of the three is present, and then no RESTRICT constraint can fire. `OrphanAdmittedButRefused` and `AdmittedButRefused`
  are databases with each of them.
- Removing a temporary parent factor fails in one more case: one of its relations has no sub-factor
  (`DropKeepsIntegrity`, with the example `LooseRelationBreaksIntegrity`).
- `clean_test_graph` is all or nothing except when an exception comes after the commit has taken effect: closing the
  connection fails, or the acknowledgement of the commit is lost (`db/client.py:378-388`). It then raises although the
  database has changed and the ownership maps have not. `CleanTestGraph` states exactly when, in terms of the state, the
  graph and the faults; `CloseFailureLeavesMapsBehind` is an input; the next run completes such a run
  (`LostAcknowledgementIsRecovered`).
- A day's verdict in the frozen calendar survives every way of resolving undecidable timestamps if and only if the
  visible revisions already clash or no two possible revisions do. The skip rule looks only at revisions that could be the
  latest, not at a lower revision that occurs twice (`VerdictStableExactlyWhen`,
  `UndecidableLowerRevisionChangesVerdict`). A failure of the whole check does not depend on undecidable timestamps
  (`FailureIsDefinite`).
- `compact_time_summary_sample` gives up on exactly 256 completed runs although it has inspected all of them
  (`FullBatchesGiveUp`); `initial_scope`, which reads one row ahead, does not (`FewRunsAreEnough`).
- `_parse_sse` dispatches the data of the same messages at the same lines as section 9.2.6 of the WHATWG HTML Living
  Standard does if and only if every data line belongs to an event that a blank line completes, no completed event has a
  line `data` without a colon, and a leading byte order mark hides no such line (`AgreesExactlyWhen`, with an example of
  each difference). The lines matter: two differences can cancel out (`SameMessagesAtOtherLines`).

## Model

| member | source | states |
|---|---|---|
| Sql.UnionAllPreservesMeaning | db/factor_combo_cleanup.py:954-960 | the UNION ALL of all statements on the flattened parameters has a row iff some statement has one on its own parameters |
| Sql.FlattenFillsHoles | db/factor_combo_cleanup.py:954-960 | the flattened parameter tuple has exactly one value per placeholder of the assembled query |
| Sql.PairPredicateMeaning | db/factor_combo_cleanup.py:574-601 | the relation predicate with its flattened pairs is true exactly on rows that differ from every pair, under three-valued logic |
| Sql.DiffersIsNonMembership | db/factor_combo_cleanup.py:574-601 | on rows with both columns set, the relation predicate is set non-membership |
| CleanupQuery.HasExternalReferences | db/factor_combo_cleanup.py:603-960 | the assembled query finds a row iff one of the stated sharing conditions holds for the scope, whatever the enumeration order of the ids |
| CleanupQuery.PoolStatements | db/factor_combo_cleanup.py:632-706 | the pool statements hit iff a pool of the scope is used outside it |
| CleanupQuery.SubFactorStatements | db/factor_combo_cleanup.py:708-792 | the sub-factor statements hit iff a generated sub-factor is used outside the scope |
| CleanupQuery.ExperimentStatements | db/factor_combo_cleanup.py:794-866 | the experiment statements hit iff an experiment of the scope is used by a version or form outside it |
| CleanupQuery.VersionStatements | db/factor_combo_cleanup.py:868-925 | the version statements hit iff a version or experiment of the scope is used by a form or feedback outside it |
| CleanupQuery.MetricStatements | db/factor_combo_cleanup.py:927-953 | the metric statements hit iff a metric of the scope is used by an experiment outside it |
| CleanupQuery.FeedbackVersionMeaning | db/factor_combo_cleanup.py:885-911 | the feedback statement hits iff feedback of another form names a version of the scope |
| CleanupStages.StatementOrderRespectsReferences | db/factor_combo_cleanup.py:260-320 | for every foreign key the referencing rows are deleted, or their pointer cleared, before the referenced rows |
| CleanupStages.StageStep | db/factor_combo_cleanup.py:260-320 | executing statement k on the state before it gives the described state after it, for all tables at once |
| CleanupStages.ChecksCloseScope | db/factor_combo_cleanup.py:242-255 | when the sharing checks pass and there is no blind spot, no row outside the scope points into it |
| CleanupStages.BlindSpotOpensScope | db/factor_combo_cleanup.py:687-792 | each blind spot does leave a row outside that points into the scope |
| CleanupStages.IntegrityAtEveryStatement | db/factor_combo_cleanup.py:79-332 | on an admitted scope of a consistent database, every one of the main statements keeps referential integrity iff there is no blind spot |
| CleanupCounterexample.AdmittedButRefused | db/factor_combo_cleanup.py:91-100 | a concrete consistent database that passes all checks and on which some statement leaves a dangling reference |
| CleanupCounterexample.CloseFailureLeavesMapsBehind | db/client.py:378-388 | an input on which the run raises, the session is gone and the ownership maps still name its parent |
| CleanupOrphans.OrphanAdmittedButRefused | db/factor_combo_cleanup.py:762-792 | a pool member without a form, and a component without a version, on which all checks pass and some statement leaves a dangling reference |
| CleanupOrphans.LooseRelationBreaksIntegrity | db/factor_combo_cleanup.py:396-446 | a removable temporary parent whose relation without a sub-factor is left dangling |
| CleanupResult.RunRemovesExactlyItsOwn | db/factor_combo_cleanup.py:260-332 | the frame of a run, table by table: a row is present afterwards iff it was present and is not among the owned rows, and a row that stays is unchanged |
| CleanupResult.OwnedFormsGo | db/factor_combo_cleanup.py:320 | no owned form survives |
| CleanupResult.SessionsGoLast | db/factor_combo_cleanup.py:488-510 | a session is removed only if no form that still exists belongs to it |
| CleanupResult.TypedRowsOfParentsKept | db/factor_combo_cleanup.py:261-289 | rows of the typed result tables with `is_sub_factor_id = 0` are kept although their numeric id is shared |
| CleanupResult.DropKeepsIntegrity | db/factor_combo_cleanup.py:351-447 | removing unused temporary parents with their own relations keeps integrity iff no such relation lacks a sub-factor |
| CleanupResult.DropSessionsKeepsIntegrity | db/factor_combo_cleanup.py:331-332 | deleting messages and then sessions without forms keeps integrity |
| CleanupRun.Transaction.Execute | db/client.py:186-235 | a statement takes effect as a whole or fails and leaves the work unchanged, failing without a fault only on a dangling reference |
| CleanupRun.Transaction.DeleteIn | db/factor_combo_cleanup.py:1213-1247 | the deletion by column takes effect as a whole; an empty value list sends nothing and changes nothing |
| CleanupRun.DeleteScope | db/factor_combo_cleanup.py:260-320 | the sequence of statements ends in the composition of all of them and can fail, without a fault, only if one of them breaks integrity |
| CleanupRun.CleanTestParents | db/factor_combo_cleanup.py:351-447 | the loop over temporary parents removes exactly the unused ones, judged on the state before the loop, in any order |
| CleanupRun.RunBody | db/factor_combo_cleanup.py:51-332 | unless a call fails, the body deletes, keeps everything or raises exactly as the guards, checks and blind spots of the state decide; when it deletes, it reaches the final database, and when it keeps, the database is unchanged |
| CleanupRun.ComboRepository.CleanTestGraph | db/factor_combo_cleanup.py:22-349 | outside the test environment nothing is touched; otherwise the ending and the state left behind are definite functions of state, graph and faults, except that any failing call may roll everything back; without a failing call it raises with a changed database iff the commit took effect, an exception followed, the run goes through and has something to change |
| CleanupRun.ComboRepository.ForgetCleaned | db/factor_combo_cleanup.py:334-349 | the ownership maps lose exactly the cleaned parents of the owners of the graph |
| CleanupRerun.RunIsIdempotent | db/factor_combo_cleanup.py:22-349 | a second run with the same graph changes nothing |
| CleanupRerun.LostAcknowledgementIsRecovered | db/client.py:378-388 | a run after a commit that was followed by an exception ends in the state of the undisturbed run |
| CleanupOfPrepared.PreparedParentsAreRemoved | db/factor_combo_repository.py:266-323 | what the preparation creates, a later run for its owner removes: every new parent, all its relations, and its entry in the ownership map |
| CleanupOfPrepared.NewParentRemovable | db/factor_combo_cleanup.py:396-427 | nothing but its own relations refers to a new parent, so the reference query lets it go |
| CleanupOfPrepared.PreparationRecords | db/factor_combo_repository.py:316-319 | the ownership maps that the preparation leaves name exactly the new parents and pairs on top of the earlier ones |
| RunPages.PageResumes | db/factor4_auxiliary_repository.py:142-155 | a continuation predicate resumes right behind its cursor, inside tie groups and across the NULLs at the end |
| ConsumerScope.Latest | db/factor4_consumer_repository.py:68-71 | the candidate query of a run returns the fitting row with the greatest id, or nothing iff there is none |
| ConsumerScope.CheckPage | db/factor4_consumer_repository.py:61-73 | the loop over a page keeps the best candidate of the newest completion time and stops only when it is decided |
| ConsumerScope.DiscoverBatch | db/factor4_consumer_repository.py:51-82 | a batch with its look-ahead row ends the search only when the answer is decided, tie groups across pages included |
| ConsumerScope.InitialScope | db/factor4_consumer_repository.py:25-89 | a seed carries the scope of the globally newest candidate; absence means no candidate; incomplete iff the budget ends before the newest group is known; the logged runs are a prefix of the view, so each is inspected at most once |
| ConsumerScope.FewRunsAreEnough | db/factor4_consumer_repository.py:32-35 | with at most 256 visible runs the search is never incomplete |
| CandidateRounds.ScheduleIsFairAndComplete | db/factor4_read_repository.py:173-192 | the schedule contains every candidate of every profile once, in its profile's order, the k-th of all before the k+1-st of any |
| CandidateRounds.PrefixIsFair | db/factor4_read_repository.py:176-192 | any prefix of the schedule is fair: nobody is served a second time while somebody waits for the first |
| CandidateRounds.ScheduleLength | db/factor4_read_repository.py:176-192 | the schedule is as long as the profiles have candidates together |
| CandidateRounds.Visit | db/factor4_read_repository.py:177-192 | one turn of a profile yields exactly its next candidate across page boundaries and requeues it iff it has another |
| CandidateRounds.Drain | db/factor4_read_repository.py:173-192 | the queue yields the prefix of the schedule that the budget allows and is left non-empty iff candidates are left |
| CandidateRounds.SummaryCandidates | db/factor4_read_repository.py:150-195 | the generator yields the first 256 of the schedule and raises iff there are more than 256 profiles or more than 256 candidates |
| AuxiliarySample.SampleOf | db/factor4_auxiliary_repository.py:183-191 | the sample query returns a fitting row that no other fitting row is ahead of, or nothing iff none fits |
| AuxiliarySample.CheckRun | db/factor4_auxiliary_repository.py:160-194 | the fetched candidates of a run are all looked at, in their order, unless the first compact factor or the factor budget ends the search; the extra row detects truncation |
| AuxiliarySample.CompactTimeSummarySample | db/factor4_auxiliary_repository.py:121-207 | a sample is returned iff the budgets reach a compact factor, and is the newest fitting row of the first one they reach; absence is reported iff no factor is compact and every budget was large enough; otherwise it gives up after all reachable runs, or after the run in which the factor budget ends |
| AuxiliarySample.FullBatchesGiveUp | db/factor4_auxiliary_repository.py:136-205 | on 256 completed runs without a summary all 256 are inspected and the search is reported as incomplete |
| SliceScan.ScanPage | db/factor4_read_repository.py:917-932 | the first qualifying candidate of a page is returned with its complete slices; the memo of completed runs stays correct |
| SliceScan.ScanBelow | db/factor4_read_repository.py:907-935 | a round finds the greatest qualifying id below the bound, above the final position of the scan, or moves to the next bound past nothing that qualifies |
| SliceScan.SliceSample | db/factor4_read_repository.py:885-939 | the answer is the greatest qualifying id with all its slices; absence means none qualifies; it gives up iff its 32 pages end above some id and nothing above that id qualifies |
| SliceScan.SmallTablesAreEnough | db/factor4_read_repository.py:903-939 | giving up needs 32 whole windows of ids or full pages of eligible rows |
| ParentChoices.InOrder | db/factor_combo_repository.py:173-191 | the query result lists each row once in ascending order |
| ParentChoices.GroupByParent | db/factor_combo_repository.py:192-204 | each parent appears once, by ascending id, with all its sub-factors |
| ParentChoices.ChoiceIsCombination | db/factor_combo_repository.py:214-222 | every set of k eligible parents with a small union is met by the enumeration of combinations |
| ParentChoices.FindParentChoices | db/factor_combo_repository.py:152-222 | returns a good choice with complete parents by ascending id, or None iff no set of k eligible parents has a small enough union |
| ParentChoices.Repository.FindSubFactorChoices | db/factor_combo_repository.py:224-264 | succeeds iff there are at least `minimum` usable sub-factors of usable parents, and then lists all of them once in ascending order |
| ParentChoices.Repository.CreateParents | db/factor_combo_repository.py:293-314 | the inserts add exactly the new parents and their relations to the chosen sub-factors |
| ParentChoices.Repository.Prepare | db/factor_combo_repository.py:286-320 | after the inserts the database has a good choice, whatever it had before |
| ParentChoices.NewParentsAreChoice | db/factor_combo_repository.py:266-323 | the temporary parents by themselves are a good choice once they can be read |
| ParentChoices.Repository.EnsureParentChoices | db/factor_combo_repository.py:266-323 | succeeds iff nothing refuses, with the exact condition of each error; "cannot be read back" is unreachable; nothing is written on an error or when a choice existed; otherwise exactly the new parents and pairs are added and recorded for the owner, other owners unchanged |
| FrozenCalendar.Latest | service/factor4_environment_closure_service.py:134 | the latest row has the greatest revision |
| FrozenCalendar.ResolutionKeepsVerdict | service/factor4_environment_closure_service.py:118-122 | for one resolution of the undecidable rows an issued verdict stays unless the resolution brings in a clash |
| FrozenCalendar.VerdictStableExactlyWhen | service/factor4_environment_closure_service.py:103-151 | an issued verdict holds under every resolution iff the visible rows clash already or no two possible rows do |
| FrozenCalendar.UndecidableLowerRevisionChangesVerdict | service/factor4_environment_closure_service.py:118-136 | three rows on which an issued verdict changes when an undecidable row counts as visible |
| CalendarCheck.CheckResult.Status | service/factor4_environment_closure_service.py:522-526 | each of the four outcomes has its exact condition: a failure outranks missing data, which outranks undefined documentation; passed means no issue and something checked |
| CalendarCheck.ReadDeclaration | service/factor4_environment_closure_service.py:52-78 | reading the frozen lists gives the dated members, the missing days, the completeness flags and one issue per unreadable item |
| CalendarCheck.GroupByDay | service/factor4_environment_closure_service.py:95-100 | rows outside the batch partition are reported, all others grouped by day in their order |
| CalendarCheck.Classify | service/factor4_environment_closure_service.py:104-117 | visible and undecidable revisions of a day and the issues about their stamps |
| CalendarCheck.CompareMeans | service/factor4_environment_closure_service.py:123-151 | the comparison is silent iff a missing day has nothing visible or a member carries the identity of the latest ready revision |
| CalendarCheck.DayClean | service/factor4_environment_closure_service.py:103-151 | a day yields no issue iff declaration and history agree on it |
| CalendarCheck.PassedExactlyWhenCorrect | service/factor4_environment_closure_service.py:37-153 | the check passes iff the declaration is a disjoint duplicate-free partition of the non-empty batch and says what the comparable history says |
| CalendarCheck.CheckFrozenMissingDates | service/factor4_environment_closure_service.py:37-153 | the loops of the check report exactly the findings that the theorem above is about |
| CalendarFailure.SameLatest | service/factor4_environment_closure_service.py:118-134 | where the skip rule issues a verdict, the latest visible row is still the latest after any resolution of the undecidable stamps, unless there is an ambiguity |
| CalendarFailure.FailureIsDefinite | service/factor4_environment_closure_service.py:37-153 | if the check fails, no way of resolving the undecidable stamps makes the snapshot correct |
| Dependencies.DependencySearch.Visit | service/factor4_formula_closure_service.py:58-94 | a visit keeps the invariant of the search on every path, settles the name, and only adds findings and finished names |
| Dependencies.CycleWasReported | service/factor4_formula_closure_service.py:58-63 | a cycle reachable through expandable derived rows is always reported, despite memoisation |
| Dependencies.SearchIsExact | service/factor4_formula_closure_service.py:58-94 | the findings are exactly the defects of reachable fields, and a cycle iff one is reachable |
| Dependencies.OrderEvaluates | service/factor4_formula_closure_service.py:92-94 | without findings the finishing order lists every reachable field after all its dependencies |
| Dependencies.Dependencies | service/factor4_formula_closure_service.py:43-103 | each list contains a finding iff the problem is present; without findings an evaluation order exists; no derived field is expanded twice; it terminates on every schema |
| TieBreak.CompareTrichotomy | service/factor4_lifecycle_closure_service.py:287-291 | the mixed-direction comparison is antisymmetric and zero only on equal keys |
| TieBreak.CompareTransitive | service/factor4_lifecycle_closure_service.py:287-291 | the mixed-direction comparison is transitive |
| TieBreak.OrderIssueExactlyWhen | service/factor4_lifecycle_closure_service.py:298-301 | for distinct keys and ranks an order issue is reported iff some pair is ranked against the declaration |
| TieBreak.RowOrderDoesNotMatter | service/factor4_lifecycle_closure_service.py:298-301 | the verdict does not depend on the order of the rows |
| TieBreak.CheckBatch | service/factor4_lifecycle_closure_service.py:272-301 | the partitions of a batch are all checkable and silent iff all are ranked as declared |
| TieBreak.CheckDeclaredTieBreaker | service/factor4_lifecycle_closure_service.py:244-307 | each outcome has its exact condition: confirmed iff there are tied partitions and all are ranked as declared; contradicted iff some checkable partition is not; undocumented iff else some rules are missing or leave a tie; blocked data iff else there is nothing tied or a value is missing |
| StableSort.SortSorted | service/factor4_lifecycle_closure_service.py:298-299 | sorting by a weak order puts no row before a smaller one |
| StableSort.SortPermutes | service/factor4_calculation_oracles.py:506 | sorting is a permutation |
| Catalog.FullMembershipIsEarned | service/factor4_catalog_extension_service.py:190-242 | against any server, full membership is claimed iff traversal ended naturally with a duplicate-free enumeration of the database, after at most max(2, n+1) pages |
| Catalog.CountsMeanEnumeration | service/factor4_catalog_extension_service.py:230-240 | the counting test is equivalent to a duplicate-free enumeration of exactly the database ids |
| Catalog.HonestServerIsVerified | service/factor4_catalog_extension_service.py:190-242 | a server that pages the database with fresh cursors and non-empty pages before the last never meets the page cap and is fully verified without an issue |
| Catalog.CheckTraversal | service/factor4_catalog_extension_service.py:184-242 | the loop computes the traversal that the lemmas above are about |
| Drawdown.CostsAreConserved | service/factor4_calculation_oracles.py:334-362 | what the gross returns lose together is the cost of the whole turnover, wherever it was traded |
| Drawdown.NetPaysForTurnover | service/factor4_calculation_oracles.py:334-362 | net returns are nowhere above the gross returns, lose the cost of the turnover, and are nowhere below those of any higher cost |
| Drawdown.EquityCurve | service/factor4_calculation_oracles.py:528-538 | each equity point is the growth from the start to its period, ruin clipped at zero |
| Drawdown.MaxDrawdown | service/factor4_calculation_oracles.py:541-552 | the one-pass result is the largest relative fall over all pairs of an earlier and a later point, initial capital included |
| Drawdown.RuinIsFullDrawdown | service/factor4_calculation_oracles.py:528-552 | the drawdown of an equity curve lies in [0, 1] and is 1 iff some net return is at most -1 |
| Drawdown.WorseReturnsNeverHelp | service/factor4_calculation_oracles.py:528-552 | returns that are nowhere better give equity that is nowhere higher and a drawdown that is not smaller |
| Drawdown.CostsNeverHelp | service/factor4_calculation_oracles.py:334-552 | raising fee or slippage never raises an equity point and never lowers the drawdown |
| Positions.WeightsBalance | service/factor4_calculation_oracles.py:505-513 | position weights sum to zero and their absolute values to exactly two, for every number of assets and either direction |
| Positions.WeightReverses | service/factor4_calculation_oracles.py:505-513 | reversing the direction negates every weight |
| Positions.TailIsTop | service/factor4_calculation_oracles.py:506-512 | no asset in the upper tail has a lower factor than one outside it |
| Positions.CrossSectionalPositions | service/factor4_calculation_oracles.py:492-513 | positions exist iff the input is valid and the factors are not all equal, and give each ranked asset the weight of its rank |
| Turnover.PositionsBalance | service/factor4_calculation_oracles.py:505-513 | a book of positions has no net exposure and a gross exposure of exactly two |
| Turnover.TurnoverSeries | service/factor4_calculation_oracles.py:516-525 | each value is the distance between consecutive books over the union of their assets, the first from an empty book |
| Turnover.TurnoverBounds | service/factor4_calculation_oracles.py:516-525 | over such books turnover starts at 2 and stays in [0, 4] |
| Turnover.TotalCoversLastBook | service/factor4_calculation_oracles.py:516-525 | over any books the total turnover is at least the gross exposure of the last one |
| EnvironmentScore.ScoreBounds | service/factor4_calculation_oracles.py:622-677 | the score lies in [0, 100), confidence in [0, 1), strength, stability and economics in [0, 100] |
| EnvironmentScore.ScoreMonotone | service/factor4_calculation_oracles.py:622-677 | improving any input, or lowering the size of the drawdown or the turnover, never lowers score or confidence |
| EnvironmentScore.AuditorAgrees | service/factor4_economics_closure_service.py:252-257 | the economics, penalty and out-of-sample parts each equal the auditor's separate closed form whenever the fields of that part are present |
| EventStream.SplitJoin | api/factor_data_mcp_api.py:632-649 | joining lines with any one line ending, normalising and splitting gives the lines back |
| EventStream.ParseSse | api/factor_data_mcp_api.py:629-662 | the loop with its pending lines computes the parse that the lemmas are about, for every decoder |
| EventStream.PrintedStreamParses | api/factor_data_mcp_api.py:629-662 | a printed stream with comments, other fields, extra blank lines and any line ending is parsed to its meaning, errors included |
| EventStream.RoundTrip | api/factor_data_mcp_api.py:629-662 | the events whose data decode to objects come back as exactly these objects, in order, with comments, other fields and blank lines before, between and after them |
| EventStreamStandard.ParserDecodesTrace | api/factor_data_mcp_api.py:636-659 | the parser decodes exactly the messages of its trace, in order, up to the first that is not an object |
| EventStreamStandard.AgreesExactlyWhen | api/factor_data_mcp_api.py:629-662 | code and section 9.2.6 of the WHATWG HTML Living Standard dispatch the same data at the same lines iff every data line belongs to a completed event, no completed event has a bare `data` line, and a byte order mark hides nothing |
| EventStreamStandard.AgreementDecodes | api/factor_data_mcp_api.py:629-662 | where they agree, the result is the decoded messages of the standard |
| EventStreamStandard.BareDataDiffers | api/factor_data_mcp_api.py:655-657 | a bare `data` line is an empty message to the standard and nothing to the code |
| EventStreamStandard.IncompleteEventDiffers | api/factor_data_mcp_api.py:659 | a data line at the end of the input is a message to the code and nothing to the standard |
| EventStreamStandard.SameMessagesAtOtherLines | api/factor_data_mcp_api.py:629-662 | a text on which code and standard dispatch the same message at different lines |
| EventStreamStandard.MarkDiffers | api/factor_data_mcp_api.py:632 | behind a byte order mark the code misses the first data line |

## Left out

- SQL text, drivers, connection settings, retries and logging: queries have their row-level meaning; a view in the order of a query is given as an ordered sequence, and a group of key columns may stand as one string.
- Concurrency of other transactions: a run sees one snapshot and its own changes.
- Cleanup, normalisation: trimming and lower-casing of hashes, statuses and pipeline ids, and failures of `int()`, are taken as done before the model starts.
- Cleanup, unreachable branches: the row-count guard after deleting a parent that was just read, and the fallbacks of `_expected_lineage_relations` that the registration guard excludes.
- Cleanup, references that the code does not check: a form's own pool pointer, `source_experiment_info_id` of feedback, `factor_id` of registrations, and `combo_id` of foreign experiments are not part of the foreign keys in `References`.
- Cleanup, guards with early return over row lists are stated as quantified conditions, not as loops.
- CleanupRun.RunBody: leaves the transaction's work unspecified when the body raises, because it is rolled back and nobody reads it.
- CleanupRun.ComboRepository.CleanTestGraph: after an exception behind the commit the ownership maps are stale, which the contract states as its one exception, because the code behaves so; which failing call number a run reaches is not counted, so a failing call may or may not occur.
- CalendarCheck.CheckFrozenMissingDates: the counts of ready and unavailable days that are attached as evidence are not modelled.
- `check_frozen_calendar`, `_check_weights` and the admission checks of the environment service: they would add members of the same kind as the modelled check.
- Dates are day numbers and timestamps are instants with or without a zone; their parsing is not modelled.
- Dependencies.Dependencies: a decoded JSON value is given; `json.loads` is not part of the model.
- TieBreak.CheckDeclaredTieBreaker: grouping of routes into partitions of equal scores and parsing of the declared rules are given; a text field holding a Decimal is not modelled.
- Catalog.CheckTraversal: the field comparison of single items, the statistics call and page reads that raise are not modelled.
- AuxiliarySample.CompactTimeSummarySample: the parsing of the JSON payload is one flag per row.
- ParentChoices.Repository.EnsureParentChoices: failing inserts are not modelled; the cleanup's transaction shows how such faults roll back. The class holds only the columns that the preparation reads; `CleanupOfPrepared` states its inserts in the tables of the cleanup.
- `metric_scope_snapshot`, `linear` fold aggregation, Sharpe ratio, win rates, partition ranks and contiguous segments: they add only easy members.
- Drawdown.MaxDrawdown: rounding of Decimal is not modelled; arithmetic is exact.
- Positions.CrossSectionalPositions: `ceil(n * 0.2)` in floating point equals the exact ceiling of a fifth for every feasible number of assets, and the model uses the latter.
- EnvironmentScore.ScoreBounds: the square root is any non-negative real whose square is the ratio, and a minimum t-statistic that is not finite is not modelled.
- EventStreamStandard.AgreesExactlyWhen: only the data of messages is compared; event types, ids and retry times are no result of the code.
- EventStream.ParseSse: session headers, envelopes and HTTP status handling of the client are not part of this model.
