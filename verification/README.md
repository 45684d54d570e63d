# Commission ledger: verified models

This project models the parts of the commission ledger whose correctness cannot be read off one
function body, and proves what they keep. Each module stands for one source file or one group of
files that share state.

- `TaskQueue`: the leased task queue. Workers race for rows with `FOR UPDATE SKIP LOCKED`, leases run out, stale claims wait or die.
- `WorkerTokens`: single-use worker tokens and the revocation list, with every statement of a call as its own step.
- `Ledger` (with `Records` and `ApprovedRuns`): the life of a commission record across calculation, collection gate, phase gate and journal, guarantee expiry, clawback and commission runs.
- `Reconciliation`: the outer join of ledger invoices and ingested receivables, and the table of findings it rewrites.
- `Analytics`: the loops and keyed maps behind the executive dashboard.
- `Regex`, `GlobCompiler`, `GlobLaws`, `GlobLines`, `GlobSegments` and `PathArguments`: the glob-to-regular-expression compiler, the fragment of ECMA-262 patterns it emits, and how its reading of `**/` differs from whole path segments.
- `SqlSplitter`: the dollar-quote-aware statement splitter.
- `ShellQuote`: shell quoting against a reader of the POSIX shell grammar.
- `JsonCanonical` and `RecordedRequests`: key sorting and redaction of recorded JSON, its text, and the comparison of recorded requests by that text.
- `Dollars`: currency text.
- `Tiers`, `Engine` and `RisingGross`: tier validation, the engine's scan, the sorted walk, the pipeline, the loop over contributors, and which plans never pay less for more.
- `Plans`: plans, versions and activation.
- `DekCache`: the data-key cache and the slicing of sealed values.

A table is a class with a `seq` or `map` field that its methods reassign. Beside it stands the same
operation as a step of a transition system on values (`Apply`), to which each method's contract is
tied; statements about all runs are lemmas over sequences of steps. Times, the new initialisation
vector, row locks and the order in which a set of rows is visited are parameters. Money is `real`.

Three statements of the source are not what its code does, and the model follows the code:

- The comment at packages/db/src/clawback.ts:164-171 says that approved records are clawed back too; the guard at line 185 leaves `Approved` out. `Ledger.FinalForever` proves that approved records are never changed.
- The comment at packages/db/src/reconciliation.ts:153-158 says that the insert ignores conflicts, so that acknowledged findings stay acknowledged over a re-run; the insert at lines 163-176 has no such clause. `Reconciliation.AcknowledgedComesBack` shows what happens instead, and `Reconciliation.GateOpensIff` that after a re-run the gate counts nothing if and only if the two sides agree on every number, amount and date.
- packages/db/src/plans.ts:267-306 supersedes the active version before it looks at the version named. A failed activation leaves the plan without an active version: `Plans.ActiveAfterIff` gives the exact condition, `Plans.ReactivationLosesActive` the shortest run.

Also false of the code, with a failing input and the exact condition proved:

- A dead task stays dead: `TaskQueue.LateResultRevives`, `TaskQueue.DeadUntilSubmitted`.
- A revoked token stays revoked until it expires, whatever expiry it was listed with: `WorkerTokens.ShortListingIsCleaned`, `WorkerTokens.StaysRevokedIff`.
- A plan has one active version at most, whichever organisations ask: `Plans.TwoOrganisationsTwoActive`, `Plans.OneActivePerPlanIff`. It holds in every run in which a new version is asked for by the organisation that has the plan, which the handler checks at apps/server/src/api/plans.ts:267-271 (`Plans.OneActivePerPlan`).
- No record of an approved run still waits for approval, whichever records the run was created with: `ApprovedRuns.ForeignRecordWaits`, `ApprovedRuns.ApprovedRunsAreDoneIff`. It holds in every run of calls in which commission runs are created with records of their own organisation, as the handler lists them at apps/server/src/api/commission-runs.ts:134-141 (`ApprovedRuns.ApprovedRunsAreDone`).
- The key cache is invisible whatever wrapped keys are passed: `DekCache.WrappedKeyShowsIff`, `DekCache.RunIsInvisibleIff`.
- A date gap does not depend on which side is later: `Reconciliation.GapIsLopsided`, `Reconciliation.GapIsSymmetricIff`.
- The pattern of a glob matches every path that the glob matches: `GlobLines.LineTerminatorIsMissed`, `GlobLines.ExactOnEveryPathIff`, and path by path `GlobCompiler.CompilerMeansExactly`.
- `**/` stands for whole path segments: `GlobSegments.InelasticAcceptsMore`, and `GlobSegments.WholeSegmentsIff`, whose condition is exact for the class of globs that its row names; its necessity, `GlobSegments.AgreementNeedsStar`, holds whatever follows the first `**/`.
- A larger base never earns less: `Engine.FallingRateEarnsLess`, `RisingGross.NeverPaysLessIff`.

## Model

| member | source | states |
|---|---|---|
| TaskQueue.AttemptsBounded | packages/db/task-queue.ts:147-265 | in every run a task has one attempt at most or no more than its maximum, a pending task has an attempt left, and pending and dead tasks hold no lease or token |
| TaskQueue.OneWinnerPerAttempt | packages/db/task-queue.ts:147-172 | in every interleaving of lock, commit and abort, each attempt of each task goes to exactly one claim |
| TaskQueue.ClaimsBounded | packages/db/task-queue.ts:147-265 | in every run the number of claims is the sum of attempts and at most the sum of the caps |
| TaskQueue.BackoffBetweenClaims | packages/db/task-queue.ts:243-265 | the k-th claim of a task comes no earlier than the first plus the leases between plus 2^k - 2 seconds, with no assumption on the clock |
| TaskQueue.ClaimsFollowLeases | packages/db/task-queue.ts:243-265 | in every run each claim of a task is later than the end of the lease before it, by more than the retry delay |
| TaskQueue.LeasesNeverOverlap | packages/db/task-queue.ts:147-265 | in every run with leases that are not negative, no two leases of one task are live together |
| TaskQueue.RecoveredTaskIsClaimed | packages/db/task-queue.ts:147-265 | in every run a task recovered at t with an attempt left, then neither locked nor submitted, can be claimed at any time from t plus 2^attempt seconds on unless another row of its type could be |
| TaskQueue.SpacedAdds | packages/db/task-queue.ts:255-261 | consecutive claims that are a lease and a delay apart add up to that bound |
| TaskQueue.DeadUntilSubmitted | packages/db/task-queue.ts:209-265 | in every run a task that has died is dead at the end if and only if no result was submitted for it since, and is completed otherwise |
| TaskQueue.LateResultRevives | packages/db/task-queue.ts:209-222 | a run in which a dead task is completed by a late result |
| TaskQueue.CompletedForever | packages/db/task-queue.ts:147-265 | in every run a completed task stays completed and is never claimed again |
| TaskQueue.NextExists | packages/db/task-queue.ts:152-166 | if some row is due and unlocked, one of them is first by priority and age |
| TaskQueue.RunKeeps | packages/db/task-queue.ts:106-265 | the invariant that ties rows, row locks and the log of claims holds after every run |
| TaskQueue.TaskTable.EnqueueTask | packages/db/task-queue.ts:106-130 | a second enqueue under one key returns the first row and changes nothing; a new key adds a fresh pending row |
| TaskQueue.TaskTable.ClaimNextTask | packages/db/task-queue.ts:147-172 | leases, of the rows of the type that are pending, due and not locked, one of least priority number and then of greatest age, or nothing exactly when there is none; refines lock then commit |
| TaskQueue.TaskTable.SubmitTaskResult | packages/db/task-queue.ts:209-222 | completes the row from any status; reports a missing one |
| TaskQueue.TaskTable.RecoverStaleClaims | packages/db/task-queue.ts:243-265 | exactly the claimed rows whose lease ended before now go to dead, or to pending with a delay of 2^attempt seconds, and lose worker, lease and token |
| WorkerTokens.AcceptedAtMostOnce | packages/db/worker-tokens.ts:99-162 | in every interleaving a token is accepted at most once, before it expires, and never both consumed and invalidated |
| WorkerTokens.UsedForever | packages/db/worker-tokens.ts:77-126 | a used token stays as it is and is never accepted again, whatever runs later, cleanup and a second persist included |
| WorkerTokens.RevokedUntilExpiry | packages/db/revocation.ts:18-55 | once a consume or invalidation has finished, the token is on the list for as long as it has not expired, if every call gives the token's own expiry |
| WorkerTokens.StampedNeedsMirror | packages/db/worker-tokens.ts:112-159 | a token becomes finished only by the insert that mirrors it |
| WorkerTokens.StaysRevokedIff | packages/db/revocation.ts:18-55 | without that assumption: a listed token stays listed until it expires, in every continuation, if and only if its row on the list lasts that long |
| WorkerTokens.ShortListingIsCleaned | packages/db/revocation.ts:18-55 | a run in which a consumed token, listed earlier with a shorter expiry, is off the list before it expires |
| WorkerTokens.InvalidationRefines | packages/db/worker-tokens.ts:136-162 | a stamp and single inserts in any order stamp and list exactly the unused tokens of the pod and leave every other row alone |
| WorkerTokens.ConsumptionRefines | packages/db/worker-tokens.ts:99-126 | update then insert stamp and list an unused, unexpired token; for any other token nothing changes |
| WorkerTokens.TokenTables.PersistWorkerToken | packages/db/worker-tokens.ts:77-87 | stores a fresh unused row, or nothing for a known token |
| WorkerTokens.TokenTables.ConsumeWorkerToken | packages/db/worker-tokens.ts:99-126 | accepts exactly a stored token without either stamp that expires later than now, stamps it and lists it; otherwise changes nothing |
| WorkerTokens.TokenTables.InvalidateWorkerTokensForPod | packages/db/worker-tokens.ts:136-162 | stamps exactly the unused tokens of the pod, counts them, lists each and keeps rows already listed |
| WorkerTokens.TokenTables.RevokeToken | packages/db/revocation.ts:18-29 | lists a token, keeping an earlier row |
| WorkerTokens.TokenTables.IsRevoked | packages/db/revocation.ts:38-44 | whether the token is on the list |
| WorkerTokens.TokenTables.CleanupExpiredRevocations | packages/db/revocation.ts:52-55 | removes exactly the rows whose expiry is past |
| Ledger.ReasonsFit | packages/db/src/commission-records.ts:135-181 | in every run a record is held exactly with one of the three gate reasons, clawed back exactly with the clawback reason, and has no reason otherwise |
| Ledger.ApprovalFits | packages/db/src/commission-runs.ts:205-293 | in every run an approved record is in an approved run of its own organisation, and no record of such a run is accrued or pending |
| ApprovedRuns.ApprovedRunsAreDone | packages/db/src/commission-runs.ts:63-293 | in every run of calls that create commission runs with records of their own organisation, no record that any approved run links is accrued or pending |
| ApprovedRuns.ForeignRecordWaits | packages/db/src/commission-runs.ts:84-286 | without that a run is approved while it links an accrued record of another organisation |
| ApprovedRuns.ApprovedRunsAreDoneIff | packages/db/src/commission-runs.ts:255-293 | from reachable books it holds in every such continuation if and only if no run that is not cancelled links a waiting record of another organisation |
| Ledger.FinalForever | packages/db/src/clawback.ts:173-192 | no later call of the modelled modules changes the status, reason, phase or placement of an approved or clawed-back record; its net amount, which `adjustNetPayable` rewrites by id, is not part of the model |
| Ledger.ResolvedForever | packages/db/src/guarantee-periods.ts:156-176 | a guarantee period that expired or was triggered stays so |
| Ledger.AtMostTwoChanges | packages/db/src/commission-runs.ts:205-293 | over all modules together a record changes its status at most twice |
| Ledger.JournalMatchesReleases | packages/db/src/billing-phases.ts:440-498 | over any calls the journal gains one row for a record each time the phase gate frees it, which is once at most |
| Ledger.OneJournalRowPerRelease | packages/db/src/billing-phases.ts:472-495 | in every run, from its creation, a record has as many journal rows as it has left its phase gate |
| Ledger.CountsMatchJournal | packages/db/src/billing-phases.ts:440-498 | the counts returned for a phase sum to the journal rows written for it |
| Ledger.SecondReleaseIsEmpty | packages/db/src/billing-phases.ts:446-460 | a second release of a phase finds nothing, whatever ran between, unless a record was added to the phase |
| Ledger.GatesAreSeparate | packages/db/src/invoices.ts:381-400 | each gate reason is released only by its own call, for the right organisation, placement, phase or period |
| Ledger.OthersLeaveAlone | packages/db/src/clawback.ts:173-192 | calls for other organisations, placements and phases leave a record unchanged in any number and order: no expiry or clawback of another placement reaches it |
| Ledger.CalculationFillsLedger | apps/server/src/api/calculate.ts:345-440 | the rows a calculation stores are records added one by one, each in its calculated state, with every earlier record left alone |
| Ledger.RunKeeps | packages/db/src/commission-runs.ts:63-293 | the invariant over records, runs, links, periods and journal holds after any calls |
| Ledger.LedgerTables.CreateCommissionRecord | packages/db/src/commission-records.ts:135-181 | adds one row in the state its gates give it |
| Ledger.LedgerTables.CreateGuaranteePeriod | packages/db/src/guarantee-periods.ts:57-77 | adds an active period of the placement |
| Ledger.LedgerTables.CreateCommissionRun | packages/db/src/commission-runs.ts:63-98 | opens a run linked to exactly the given records, each once and none approved yet; an unknown id stops the loop with exactly the earlier links kept |
| Ledger.LedgerTables.ApproveRunRecord | packages/db/src/commission-runs.ts:205-243 | marks exactly the links of the named record and moves it on, if linked, of the organisation and still accrued |
| Ledger.LedgerTables.ApproveCommissionRun | packages/db/src/commission-runs.ts:255-293 | closes an open run and approves exactly its records that still wait |
| Ledger.LedgerTables.IsCommissionRecordInApprovedRun | packages/db/src/commission-runs.ts:303-322 | whether an approved run of the organisation links the record; true of every approved record |
| Ledger.LedgerTables.ReleaseCollectionGate | packages/db/src/invoices.ts:381-400 | frees exactly the placement's records held at the collection gate, and counts them |
| Ledger.LedgerTables.ReleasePhaseCollectionGate | packages/db/src/billing-phases.ts:440-498 | frees exactly the records waiting for the phase, with one journal row each, and counts them |
| Ledger.LedgerTables.ExpireGuaranteePeriod | apps/server/src/api/guarantee-expiry-worker.ts:125-145 | expires an active period and frees exactly the guarantee holds of its organisation and placement, or rolls back |
| Ledger.LedgerTables.TriggerClawback | apps/server/src/api/clawback.ts:227-252 | triggers an active period and claws back exactly the unapproved records of its organisation and placement, or rolls back |
| Reconciliation.ReportIsTheJoin | packages/db/src/reconciliation.ts:391-490 | with one receivable a number, a finding is reported if and only if the outer join gives it, with amounts further apart than the tolerance or dates further apart than the threshold to the nearest day, and the data of both sides |
| Reconciliation.LedgerNumberIsClassified | packages/db/src/reconciliation.ts:405-469 | a ledger number with receivables is reported once if 100 times the difference of the amounts, in either direction, exceeds the tolerance, once if the dates are half a day past the threshold apart, and in no other way; the last of several receivables counts |
| Reconciliation.UnmatchedIsLedgerOnly | packages/db/src/reconciliation.ts:405-424 | a ledger number without a receivable is reported once as ledger-only, and in no other way |
| Reconciliation.AmountThreshold | packages/db/src/reconciliation.ts:427-431 | amounts differ exactly when they are further apart than the tolerance, whichever is larger |
| Reconciliation.UnknownNumberIsSystemOnly | packages/db/src/reconciliation.ts:471-488 | a number the ledger lacks is reported once per receivable as system-only, and in no other way |
| Reconciliation.EmptyReportIff | packages/db/src/reconciliation.ts:391-490 | with one receivable a number, nothing is reported if and only if both sides have the same numbers and every pair is within the tolerance and the threshold |
| Reconciliation.GapThreshold | packages/db/src/reconciliation.ts:447-452 | the exact half-day bounds, in milliseconds, beyond which a date gap is reported |
| Reconciliation.GapIsLopsided | packages/db/src/reconciliation.ts:450-452 | for every threshold, an issue half a day past it is reported after the billed date and not before it |
| Reconciliation.GapIsSymmetricIff | packages/db/src/reconciliation.ts:450-452 | the verdict is the same whichever side is later if and only if the gap is not exactly half a day past the threshold |
| Reconciliation.ReportReplaces | packages/db/src/reconciliation.ts:316-335 | after a report the period's unacknowledged findings are the report; every other row, of this period or another, stays as it is with id and acknowledger |
| Reconciliation.RerunGivesTheSame | packages/db/src/reconciliation.ts:391-490 | a re-run on the same inputs gives the same unacknowledged findings, whatever ran between; none exactly when the report is empty |
| Reconciliation.GateOpensIff | packages/db/src/reconciliation.ts:289-335 | after a re-run the gate counts nothing if and only if the two sides agree, whatever was acknowledged before |
| Reconciliation.AcknowledgedForever | packages/db/src/reconciliation.ts:257-283 | an acknowledged row stays through every later run with its finding |
| Reconciliation.AcknowledgedComesBack | packages/db/src/reconciliation.ts:159-197 | acknowledging a finding and running the report again stores the finding once more, acknowledged and not |
| Reconciliation.RunKeeps | packages/db/src/reconciliation.ts:159-335 | row ids stay distinct |
| Reconciliation.DiscrepancyTable.ClearUnacknowledged | packages/db/src/reconciliation.ts:316-335 | deletes exactly the period's unacknowledged rows and counts them |
| Reconciliation.DiscrepancyTable.CreateDiscrepancy | packages/db/src/reconciliation.ts:159-197 | adds a row whatever is there already |
| Reconciliation.DiscrepancyTable.AcknowledgeDiscrepancy | packages/db/src/reconciliation.ts:257-283 | marks the row of that id and organisation, or changes nothing |
| Reconciliation.DiscrepancyTable.CountUnacknowledged | packages/db/src/reconciliation.ts:289-310 | counts the period's unacknowledged findings |
| Reconciliation.DiscrepancyTable.GenerateReconciliationReport | packages/db/src/reconciliation.ts:378-490 | clears, compares and stores, with 5 days and no tolerance by default: the table is what was kept and then the report, which is returned |
| Analytics.GroupingConserves | packages/db/src/analytics-executive.ts:190-191 | filling a map by adding to what a key holds keeps the total over any set of keys |
| Analytics.GroupedAmount | packages/db/src/analytics-executive.ts:253-264 | each entry of such a map holds the total of its own postings |
| Analytics.OneMorePlacement | packages/db/src/analytics-executive.ts:171-192 | a placement adds its fee to the gross fees, to its own client, and to the exposure if its window is open |
| Analytics.OneMoreRow | packages/db/src/analytics-executive.ts:230-264 | a row adds its net to its status and its placement, and its two amounts to its contributor |
| Analytics.RowsAreOfPlacements | packages/db/src/analytics-executive.ts:195-213 | the rows summed are those of the placements, each as often as it is stored |
| Analytics.LastProducerCounts | packages/db/src/analytics-executive.ts:369-385 | a contributor resolves to the producer of the last row with its id, and to none without a row |
| Analytics.FeesConserve | packages/db/src/analytics-executive.ts:171-192 | a client's fees are those of its placements, and all clients' fees sum to the gross fees |
| Analytics.IncomeDecomposes | packages/db/src/analytics-executive.ts:244-254 | net fee income is accrued, payable and held plus the other counted statuses; with the excluded ones it is every net |
| Analytics.ProducersConserve | packages/db/src/analytics-executive.ts:369-398 | through both groupings any set of producers has the total of the rows of its contributors |
| Analytics.ProducersAddUp | packages/db/src/analytics-executive.ts:369-398 | when every contributor resolves, nets by producer sum to the income plus the excluded statuses, and gross amounts to those of all rows |
| Analytics.UnresolvedIsMissing | packages/db/src/analytics-executive.ts:390-392 | otherwise the shortfall is exactly the nets of the rows whose contributor does not resolve |
| Analytics.BurdenIsOfTheClient | packages/db/src/analytics-executive.ts:406-412 | the burden found through placements is the nets of the client's own rows |
| Analytics.ClientLine | packages/db/src/analytics-executive.ts:400-420 | each client line has the fees and the nets of that client's placements |
| Analytics.ClientBurdensAddUp | packages/db/src/analytics-executive.ts:400-420 | burdens by client sum to the income plus the excluded statuses |
| Analytics.GetExecutiveAnalytics | packages/db/src/analytics-executive.ts:150-463 | the dashboard's figures, with all the conservation laws above |
| GlobCompiler.ReadsAsMeant | scripts/check-vitest-coverage.ts:77-98 | the emitted text, read by the pattern grammar of section 22.2 of ECMA-262, is the intended sequence of terms |
| GlobCompiler.MeantIsMeaning | scripts/check-vitest-coverage.ts:77-98 | those terms match exactly what the glob matches with a `**` that stops at line terminators |
| GlobCompiler.CompilerMeansExactly | scripts/check-vitest-coverage.ts:77-98 | for every glob and every path the compiled pattern tests true exactly on that meaning |
| GlobCompiler.CompilerPreservesMeaning | scripts/check-vitest-coverage.ts:77-98 | the compiled pattern tests true exactly on the paths the glob matches, without line terminators or without `**` |
| GlobLaws.EmptyAccepts | scripts/check-vitest-coverage.ts:77-98 | the pattern of the empty glob tests true on the empty path only |
| GlobLaws.CharacterAccepts | scripts/check-vitest-coverage.ts:91-95 | a character that is no star and no question mark, special in patterns or not, takes itself |
| GlobLaws.QuestionMarkAccepts | scripts/check-vitest-coverage.ts:89-90 | a question mark takes one character that is not a slash |
| GlobLaws.StarAccepts | scripts/check-vitest-coverage.ts:86-88 | a single star takes any characters that are not slashes |
| GlobLaws.DoubleStarAccepts | scripts/check-vitest-coverage.ts:81-85 | a double star takes any characters that are not line terminators |
| GlobLaws.DoubleStarSlashAccepts | scripts/check-vitest-coverage.ts:81-85 | a double star and a slash take the same |
| GlobLines.ExactOnEveryPathIff | scripts/check-vitest-coverage.ts:77-98 | the pattern and the glob match the same paths, among all there are, if and only if the glob has no `**` |
| GlobLines.LineTerminatorIsMissed | scripts/check-vitest-coverage.ts:83 | with `**` a line terminator is missed |
| GlobSegments.PatternCoversSegments | scripts/check-vitest-coverage.ts:77-98 | the pattern accepts at least the paths that a matcher of whole segments accepts |
| GlobSegments.ElasticIsExact | scripts/check-vitest-coverage.ts:81-86 | it accepts no more if every `**/` is followed, behind any question marks, by a star |
| GlobSegments.InelasticAcceptsMore | scripts/check-vitest-coverage.ts:81-86 | for every other rest of a glob, a path on which `**/` stops inside a name |
| GlobSegments.AgreementNeedsStar | scripts/check-vitest-coverage.ts:81-86 | behind literal text and whatever follows, both readings agree on every path only if a star follows the first `**/`, behind any question marks |
| GlobSegments.WholeSegmentsIff | scripts/check-vitest-coverage.ts:81-86 | for a glob with literal text before its first `**/` and such stars behind later ones, both readings agree on every path if and only if a star follows the first |
| GlobCompiler.LiteralGlob | scripts/check-vitest-coverage.ts:101-105 | a text without glob characters matches itself, and followed by `**` what it begins |
| PathArguments.PathArgCovers | scripts/check-vitest-coverage.ts:101-105 | on every path, a plain file argument tests true on itself only and a plain directory argument exactly on the paths under it that go on without a line terminator |
| GlobCompiler.GlobToRegExp | scripts/check-vitest-coverage.ts:77-98 | the loop builds an anchored pattern with that meaning |
| PathArguments.PathArgToRegExp | scripts/check-vitest-coverage.ts:101-105 | one trailing slash is dropped, and the pattern is that of the text itself if it names a test file and else of everything under it |
| SqlSplitter.SplitJoinSplit | packages/db/index.ts:459-493 | splitting, joining with semicolons and splitting again gives the same statements, for every text |
| SqlSplitter.SplitCutsWell | packages/db/index.ts:459-493 | no statement holds a top-level semicolon or is blank at an end, and every closed dollar quote survives whole and in order |
| SqlSplitter.SplitLosesOnlyBlanks | packages/db/index.ts:459-493 | the text is the statements in order with gaps around them, every gap consists of semicolons and blanks, and no statement is empty or has a blank end |
| SqlSplitter.SplitKeepsInk | packages/db/index.ts:459-493 | without blanks and semicolons the joined statements are the text |
| SqlSplitter.SplitsAtSemicolon | packages/db/index.ts:473-481 | behind a text without two dollar signs in a row a semicolon cuts, whatever follows |
| SqlSplitter.QuotedIsOnePiece | packages/db/index.ts:466-471 | a dollar quote is one statement, whatever semicolons it holds |
| SqlSplitter.SplitJoined | packages/db/index.ts:459-493 | every well-cut list of statements is read back from its joined text |
| SqlSplitter.TrimDropsBlankEnds | packages/db/index.ts:472-489 | trimming takes all blanks off both ends and nothing else |
| SqlSplitter.SplitSqlStatements | packages/db/index.ts:459-493 | the loop computes that splitting and loses nothing but blanks and semicolons |
| ShellQuote.QuoteRoundTrip | scripts/gcp/common.ts:576-578 | a POSIX shell reader reads every quoted string as one word, itself |
| ShellQuote.QuotedWordStaysApart | scripts/gcp/common.ts:576-578 | in front of more words it stays one word and leaves them alone |
| ShellQuote.SplitJoinEscapes | scripts/gcp/common.ts:577 | split and join replace each single quote and nothing else |
| ShellQuote.QuoteByCharacter | scripts/gcp/common.ts:576-578 | the quoted text is the text in single quotes with each single quote closed, put in double quotes and opened again |
| JsonCanonical.SortDecidesSame | scripts/gcp/common.ts:1045-1057 | sorted values are equal exactly for values equal up to key order at every depth |
| JsonCanonical.CodeOrderIsTotal | scripts/gcp/common.ts:1052 | the order by character codes is one of the total orders that the results on sorting are about |
| JsonCanonical.SortIsIdempotent | scripts/gcp/common.ts:1045-1057 | sorting twice is sorting once |
| JsonCanonical.SortReorders | scripts/gcp/common.ts:1045-1057 | sorting only reorders |
| JsonCanonical.KeysAscend | scripts/gcp/common.ts:1045-1057 | the keys of a sorted object ascend by the order, numerals aside |
| JsonCanonical.SanitizeIsIdempotent | scripts/gcp/common.ts:1059-1106 | sanitizing twice is sanitizing once |
| JsonCanonical.SanitizeCommutesWithSort | scripts/gcp/common.ts:1059-1074 | sanitizing commutes with sorting |
| JsonCanonical.SanitizeChangesSecretsOnly | scripts/gcp/common.ts:1059-1106 | a text under a secret key becomes the placeholder of that key; every other scalar stays, items keep the key of their array and fields have their own |
| JsonCanonical.SanitizeFields | scripts/gcp/common.ts:1063-1068 | assigning the sanitized fields one by one to an empty object gives the sanitized object, in enumeration order |
| RecordedRequests.StringifyIsInjective | scripts/gcp/common.ts:1117 | well-formed values have one JSON text if and only if they are one value |
| RecordedRequests.StringifyDecodes | scripts/gcp/common.ts:1117 | also in front of any text that cannot go on with a number, a JSON text tells its value and where it ends |
| RecordedRequests.RequestsEqualIgnoreKeyOrder | scripts/gcp/common.ts:1108-1118 | recorded requests are equal exactly when verb and url are equal and the bodies differ in key order at most, a missing body being null |
| JsonCanonical.SameIsEquivalence | scripts/gcp/common.ts:1045-1057 | being equal up to key order is an equivalence |
| Dollars.CommasGroup | packages/core/explanation-engine.ts:83 | on digits the regular expression puts the commas of grouping by threes from the right |
| Dollars.CommaPlaces | packages/core/explanation-engine.ts:83 | the expression matches exactly inside the text at a multiple of three from the end |
| Dollars.SignKeepsCommas | packages/core/explanation-engine.ts:83 | a minus sign changes no comma |
| Dollars.FormatShape | packages/core/explanation-engine.ts:79-85 | the characters of the text: sign, digits with a comma at every fourth place in front of the point, no leading zero, point and two digits |
| Dollars.FormatReadsBack | packages/core/explanation-engine.ts:79-85 | the text is sign, groups, point and two digits, and its digits are the nearest cents |
| Dollars.FormatRoundTrip | packages/core/explanation-engine.ts:79-85 | reading the text back gives the whole cents nearest to the amount, of two that are as near the one further from zero |
| Tiers.ValidateTiers | packages/db/src/plans.ts:142-154 | accepts exactly strictly ascending lists, though it compares neighbours only |
| Tiers.SelectTier | packages/core/calculation-engine.ts:332-348 | the loop finds what the scan specification says |
| Tiers.ScanEarns | packages/core/calculation-engine.ts:332-348 | on any list in any order the scan earns the rate of a highest tier reached, or the base rate |
| Tiers.EarnsIsUnique | packages/db/src/plans.ts:142-154 | with distinct thresholds the rate earned is unique and does not depend on order |
| Tiers.ComputeTierProgress | packages/core/tier-progress.ts:73-103 | the walk earns the rate of a highest tier reached and names the least threshold above production |
| Tiers.ScanAgreesWithWalk | packages/core/calculation-engine.ts:332-348 | a validated list earns the same rate from scan and walk under every reordering |
| Tiers.RemainingReachesNext | packages/core/tier-progress.ts:91-102 | producing what remains earns exactly the next tier's rate |
| Engine.ApplyTiers | packages/core/calculation-engine.ts:323-356 | the stage applies the rate of the highest tier reached, and its gross lies between nothing and the credited base for rates up to one |
| Engine.DrawConserves | packages/core/calculation-engine.ts:367-416 | net plus draw is gross unless held, a held record pays nothing, and the draw is the balance or the gross, whichever is less |
| Engine.GrossRisesWithBase | packages/core/calculation-engine.ts:302-356 | on a progressive plan gross never falls as the base grows, across tier jumps and desk cost |
| Engine.GrossRisesIff | packages/core/calculation-engine.ts:323-356 | with distinct thresholds gross rises with the base, over all real bases and produced amounts, if and only if the plan is progressive |
| RisingGross.NeverPaysLessIff | packages/core/calculation-engine.ts:323-356 | on bases and produced amounts that are not negative, a plan with distinct thresholds never pays less for more if and only if, from the desk cost on, its rates are not negative and do not fall |
| Engine.FallingRateEarnsLess | packages/core/calculation-engine.ts:323-356 | a plan on which a larger base earns less |
| Engine.GrossWithinFee | apps/server/src/api/calculate.ts:345-440 | the gross amounts stored for a placement, also by a loop that stopped early, total at most its fee times the splits they are for, so at most the fee |
| Engine.ShareOfFee | packages/core/calculation-engine.ts:302-356 | one contributor's gross is within its share of the fee |
| Engine.CalculateCommission | apps/server/src/api/calculate.ts:345-440 | stores one row a contributor; the first failure stops the loop with earlier rows kept; what is stored keeps within the fee |
| Plans.VersionsInOrder | packages/db/src/plans.ts:165-306 | in every run version numbers are 1 to n, each once, an organisation has one active version of a plan at most, and every snapshot ascends |
| Plans.OneActivePerPlan | packages/db/src/plans.ts:165-306 | a plan has one active version at most in every run in which new versions are asked for by the plan's organisation |
| Plans.TwoOrganisationsTwoActive | packages/db/src/plans.ts:227-306 | without that a run ends with two active versions of one plan |
| Plans.OneActivePerPlanIff | packages/db/src/plans.ts:267-306 | from a reachable table, activations keep one active version to a plan if and only if no two organisations have unsuperseded versions of it |
| Plans.StatesMoveForward | packages/db/src/plans.ts:267-306 | a version keeps number and snapshot and moves only from draft to active to superseded |
| Plans.ActiveAfterIff | packages/db/src/plans.ts:267-306 | after an activation there is an active version if and only if the one named was a draft of the plan |
| Plans.ReactivationLosesActive | packages/db/src/plans.ts:267-306 | activating the active version again leaves none |
| Plans.PlanTables.CreatePlan | packages/db/src/plans.ts:165-217 | stores a first draft exactly for ascending tiers |
| Plans.PlanTables.CreatePlanVersion | packages/db/src/plans.ts:227-255 | stores the next number exactly for ascending tiers of a known plan |
| Plans.PlanTables.ActivatePlanVersion | packages/db/src/plans.ts:267-306 | supersedes exactly the active versions of that organisation and plan and activates exactly the draft named; every other version stays |
| DekCache.CacheIsInvisible | packages/db/src/encryption.ts:95-119 | in every run every key returned is the one that an encryptor without a cache would use |
| DekCache.RunIsInvisibleIff | packages/db/src/encryption.ts:95-119 | a run is answered as without a cache if and only if every fetch in it is of the derived key |
| DekCache.WrappedKeyShowsIff | packages/db/src/encryption.ts:105-118 | a wrapped key given on a miss is what every call gets until the entry expires or is removed, whatever runs between: the derived key if and only if it unwraps to it |
| DekCache.FetchesAreApart | packages/db/src/encryption.ts:95-119 | two fetches of a key with no removal between are at least the lifetime of an entry apart |
| DekCache.OpenedSealed | packages/db/src/encryption.ts:136-174 | slicing undoes joining for a plaintext of any length |
| DekCache.KeysTellFieldsApart | packages/db/src/encryption.ts:96 | fields of entity types without a colon have entries of their own; with one two fields can share an entry |
| DekCache.DecryptUndoesEncrypt | packages/db/src/encryption.ts:136-174 | a value encrypted after any calls is decrypted after any further calls to the same plaintext |
| DekCache.FieldEncryptor.GetDek | packages/db/src/encryption.ts:95-119 | returns the entry under entity type, colon and field name until 300000 ms have passed, and asks the key service exactly when there is none |
| DekCache.FieldEncryptor.Encrypt | packages/db/src/encryption.ts:136-143 | seals under the key without a cache, and what it returns opens to the plaintext |
| DekCache.FieldEncryptor.Decrypt | packages/db/src/encryption.ts:154-174 | refuses a short buffer without touching the cache, else opens it under the key without a cache |
| DekCache.FieldEncryptor.EvictCache | packages/db/src/encryption.ts:181-183 | removes exactly the entry |
| DekCache.FieldEncryptor.ClearCache | packages/db/src/encryption.ts:188-190 | empties the cache |
| DekCache.FieldEncryptor.ExpireCacheEntry | packages/db/src/encryption.ts:196-202 | the entry is not live at any time |

## Left out

- Postgres, connection pools, HTTP handlers and the key service: a SQL statement is one guarded update of a table, and a handler that uses a transaction is one step.
- Races inside check-then-act code outside the task queue and the tokens: in `Ledger`, `Plans` and `Reconciliation` each call is one step, so the select and the update of the phase release are not separated.
- `updateTaskStatus`, payload validation, timers and administrative listings of the queue: unguarded or trivial.
- Floating point: money and rates are exact reals, so binary rounding, and the rounding to four decimals when a record is stored, are not modelled. `Dollars` models the rounding of `toFixed(2)` on the exact amount, for amounts below 10^21 where it gives digits.
- `adjustNetPayable` and stored net amounts in `Ledger`: a record there has status, reason, phase and placement. A held record is stored with net 0 (`Engine.RowOnFields`), and no release recomputes it.
- The check in the approval handler that all records of a run are approved one by one: `ApproveCommissionRun` takes them all, as the database function does.
- Ties of `localeCompare`, which calls canonically equivalent strings equal: the order is any total order in which only equal keys tie. Trimming and lower-casing of keys is any function. Numbers are finite: an infinite number, which only a literal beyond the range gives, would be written as null.
- Characters that take two UTF-16 units, and unpaired surrogates: strings are sequences of characters, and plaintexts sequences of bytes.
- Patterns outside the fragment that the compiler emits, and shell text with expansions or operators: both readers give no result on them.
- The exception, dispute and clawback figures of the dashboard, its rounding to two decimals and the order of its lists.
- `resolveYtdGross` and `resolveDrawBalance`: their results are inputs of `Engine`.
- WholeSegmentsIff: does not decide globs with a glob character before their first `**/`, or with a star behind that one and a later `**/` that no star follows, because other stars can then make up for it; `PatternCoversSegments` and `ElasticIsExact` hold for every such glob too where they apply.
- A fractional day threshold in `Reconciliation`: thresholds are whole days.
- Schedules, events and adjustments that a clawback also writes, and the placement's own status.
