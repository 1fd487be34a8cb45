# A verified model of the ledger engine

This project models the double-entry ledger: the posting engine with its locks, balance and limit
checks, the reversal and refund protocol, the hash chain and its verifier, exchange-rate windows and
the nightly revaluation, the journals built by the transaction handlers, the reports, the
reconciliation and the idempotent request pipeline. Every statement below is for all inputs, all runs
or all reachable states of the model.

## How to read it

| files | what they model |
|---|---|
| `Sums`, `Money`, `Calendar` | sums over rows, decimal rounding, UTC windows |
| `LockKeys` | uuid sorting and advisory lock keys |
| `Ledger`, `Reversals` | rows, queries, checks, and what a reversal or refund plans to post |
| `Engine` | the concurrent state machine: N requests as programs of database statements |
| `Outcomes` | what the engine does with each single request: exactly which are committed, and what is stored |
| `OriginalAmounts` | the amount a transaction has as rows are posted under its id |
| `Overdraft`, `SpendCaps`, `RefundCap`, `FullReversals`, `ProportionalFee`, `Conservation`, `Deadlock`, `WriteOrder` | theorems over every interleaving of `Engine` |
| `HashChain`, `Posting` | the chain, its verifier, and the serial service that builds it and keeps the snapshot cache |
| `Undo` | a full reversal undoes its transaction |
| `FxRates`, `ForeignPositions`, `Revaluation` | rate ingestion and lookup, the positions revalued, the nightly job over any number of nights |
| `Handlers`, `Movements`, `BalancingLegs` | journals of the P2P, QR, NIP, EMI, FX and partial-refund handlers; what they do to each account; their balancing legs and what reconciliation reads of them |
| `Payments` | the handlers' journals and checks meet the hypotheses of the engine's theorems; when a payment is posted |
| `Reports`, `Reconciliation` | trial balance, balance sheet, income statement, statement matching |
| `Idempotency`, `KeyIsolation` | reservation, replay, failure and retry of keyed requests; keys of different users do not touch |

A stored amount is an `int` count of ticks of 0.0001; an amount that has not been rounded yet is a
`real` in ticks; a rate is an `int` count of 1e-8. `RoundHalfUp` is decimal.js ROUND_HALF_UP. Ids are
strings. SHA-256, dates as text, UUID generation and the clock are parameters: the hash is collision-free
and never the genesis value, ids of version 7 ascend (section 5.7 of RFC 9562), the clock does not run
backwards.

In `Engine` one step is one database statement of one request, with two exceptions: the reads before a
reversal's transaction (the duplicate lookup and the original's rows) are one step, and so are the two
reads of a partial refund's full-reversal guard (the original's rows, then the reversals, which the lock
on the original keeps as they are in between). A statement sees every commit made
before it and nothing uncommitted (ReadCommitted). A conflict may roll back any attempt at any
point, up to three attempts per request; a request may also abort. Time may pass at any step.

## What the code does that its documentation does not say

- `assertBalanced` compares amounts before they are rounded, so amounts with more than four decimals can be stored unbalanced (`Ledger.FineAmountsAreStoredUnbalanced`, exactly when in `StoredBalancedIff`), can leave a journal that cannot be reversed (`Undo.FineJournalsCannotBeMirrored`, exactly when in `AcceptedCanBeMirroredIff`) and can give back more than the fee (`ProportionalFee.FineRefundsGiveBackMore`).
- The balance check looks at the first line of an account only. It protects the account exactly if the journal takes at most that line's amount, rounded up (`Overdraft.CheckSufficesIff`, with an instance in `Overdraft.TwoLinesDefeatTheCheck`).
- String order is key order because lists of several ids come from uuid columns, in canonical lower case; with an upper-case id it would not be (`LockKeys.UpperCaseBreaksTheOrder`). An id typed by a user is locked alone.
- `createdBy` is free text in the hash input; if it holds the separator, two different rows can share a hash input (`HashChain.SeparatorInCreatedBy`; exactly which pairs in `HashChain.SharedInputIff`).
- Two snapshots of one account in the same millisecond are ambiguous (`Posting.SameMillisecondIsAmbiguous`), unless the tied ones hold one balance (`Posting.LatestSnapshotAgreesIff`).
- A key's `expiresAt` is written but never read, so a completed key replays forever (`Idempotency.SuccessIsReplayed` has no time bound).
- A snapshot refresh or key update that fails after the commit turns a committed journal into a failed call, and the same request posts it again (`Idempotency.LostCommitIsPostedTwice`).
- A validated EMI payload with zero interest is refused by the positivity check (`Handlers.EmiIsPostedIff`).
- The reconciliation query takes the largest amount of a reference without leaving the balancing leg out, although its comment promises the customer-facing total. It reads the leg instead for P2P, QR and NIP exactly when the amount is below the charges (`BalancingLegs.P2pLeg`, `QrLeg`, `NipLeg`), and for EMI always: twice the payment (`BalancingLegs.EmiLeg`).
- A partial refund with a fee is refused when the original has no row to take the fee from (`Reversals.RefundIsPostedIff`).
- Contra-assets are added to assets with their credit balance, and expense rows are reported by absolute value (`Reports.ReportsDifferBy`).
- A repeated line of an external statement changes nothing but the line count (`Reconciliation.RepeatedLineGoesUnnoticed`); comparing that count with the counters shows it (`Reconciliation.RepeatsShowInTheCounters`).
- A chain verified from a lower date on is reported broken at its first row whenever that date drops an earlier row (`Posting.EveryCutVerifies`).
- Nothing keeps a second journal from being posted directly under an id (`src/ledger/dto/create-journal-entry.dto.ts:51`). After a full reversal a refund then passes exactly if, together with the reversal, it fits under what the rows amount to by then (`FullReversals.RefundAfterFullReversalIff`): only rows that raise that amount reopen the transaction (`FullReversals.ReusedIdReopensRefunds`). The amount itself drops exactly if the rows so far are all on platform cash and the new ones off it are smaller (`OriginalAmounts.AmountDropsIff`), and then stored reversals can exceed it (`RefundCap.SmallerJournalLeavesTheCapBehind`); when it grows, proportional refunds can give back more than the fee (`ProportionalFee.GrowingAmountGivesBackMore`).
- The handlers draw transaction ids of version 7 (`src/transactions/handlers/base-transaction.handler.ts:143`), while the reversal endpoints ask for version 4 (`src/reversals/dto/reversal.dto.ts:13`, `24`): the ids those endpoints let through are those of directly posted journals.
- The revaluation skips posting whenever gains equal losses, not only when both are zero; and a position without a basis and without a current rate aborts the whole run, although a missing closing rate alone is meant to be skipped (`Revaluation.RunRevaluation`).
- An ingestion closes the open windows before it inserts. A rate of zero, one whose rounded value or inverse does not fit DECIMAL(18,8), or a source that does not fit VARCHAR(50) then fails to insert (`FxRates.FxRateRepository.Create`, `FxRates.ExtremeRatesAreNotStored`, `FxRates.LongSourceIsNotStored`), and from its start on nothing covers the pair (`FxRates.RefusedFeedLeavesAGap`).

## Model

| member | source | states |
|---|---|---|
| Money.RoundHalfUp | src/common/types/money.type.ts:7-12 | the result is the nearest whole tick, a tie away from zero |
| Money.RoundStaysBelow | src/reversals/reversals.service.ts:444-472 | an amount that fits under a stored cap still fits after rounding to four decimals |
| Calendar.MonthOf | src/ledger/transaction-limit.service.ts:107-110 | the month found is the one that contains the instant |
| Calendar.WindowsMoveForward | src/ledger/transaction-limit.service.ts:102-110 | as the clock goes forward the start of the day and month window never goes back |
| Calendar.MonthsAreCivil | src/ledger/transaction-limit.service.ts:107-110 | the months counted one by one start when the civil calendar says (section 21.4.1 of ECMA-262) |
| Calendar.WindowStartsIff | src/ledger/transaction-limit.service.ts:102-110 | the window of an instant starts at the UTC midnight that begins its day, or its month, and at no other time |
| LockKeys.StringOrderIsKeyOrder | src/database/database.service.ts:223-245 | canonical uuids in string order have lock keys in numeric order |
| LockKeys.KeysAscend | src/database/database.service.ts:223-236 | the keys one transaction asks for are non-decreasing; a single id may have any form |
| LockKeys.EveryIdIsLocked | src/database/database.service.ts:227-235 | every id handed in is locked |
| LockKeys.Sort | src/database/database.service.ts:225-225 | the sorted list is ascending and a rearrangement of the ids |
| LockKeys.UpperCaseBreaksTheOrder | src/database/database.service.ts:223-245 | why the canonical form is needed: with an upper-case id string order and key order would disagree |
| LockKeys.KeysCollideIff | src/database/database.service.ts:242-245 | two canonical uuids share a key exactly if their first fifteen digits agree; a key fits a bigint |
| Ledger.AssertBalanced | src/common/types/money.type.ts:41-61 | accepts exactly the journals whose debits equal their credits |
| Ledger.DerivedIsBalance | src/ledger/balance.service.ts:29-65 | on a single-currency account the first currency group is the whole balance |
| Ledger.StoredBalanced | src/ledger/ledger.service.ts:86-99 | a balanced single-currency journal of four-decimal amounts is stored balanced in each currency |
| Ledger.StoredBalancedIff | src/ledger/ledger.service.ts:99-161 | a balanced single-currency journal is stored balanced exactly if the rounding errors of debits and credits cancel |
| Ledger.FineAmountsAreStoredUnbalanced | src/ledger/ledger.service.ts:99-161 | finer amounts can be accepted and stored unbalanced |
| Ledger.FirstOn | src/ledger/ledger.service.ts:129-130 | the first line on the account, with none before it, or that there is none |
| Ledger.StoredKeepsNet | src/ledger/ledger.service.ts:158-207 | the stored rows of a journal net, from its effective date on, to what its lines net to as stored, and to nothing before |
| Engine.NextIsSound | src/ledger/ledger.service.ts:118-216 | every step keeps locks and rows exclusive and what is written in step with the plan |
| Engine.RunIsSound | src/database/database.service.ts:165-204 | so does every run, with conflicts, retries and aborts |
| Engine.HeldAfterAdvance | src/database/database.service.ts:227-235 | a step takes at most one more key, the one waited for |
| Engine.LockedTogether | src/database/database.service.ts:223-236 | two transactions past their locks never share a locked id |
| Engine.CommitAddsOriginals | src/reversals/reversals.service.ts:116-120 | a commit adds its rows to the originals of its own reference and to no others |
| Engine.OriginalsSettle | src/reversals/reversals.service.ts:116-120 | the rows of a transaction posted once, before or during the run, do not change once they are there |
| Overdraft.CommitKeepsReversals | src/reversals/reversals.service.ts:134-171 | a commit keeps every reversal safe for the account, also when it posts the transaction to be reversed |
| Overdraft.NextKeepsSolvent | src/ledger/ledger.service.ts:105-141 | every step keeps a guarded account solvent and every passed balance check true until its commit |
| Overdraft.NeverOverdrawn | src/ledger/ledger.service.ts:105-141 | over every interleaving, with transactions posted and reversed in the same run, an account that starts non-negative and is only credited by checked postings is never negative, and that is the balance deriveBalance reports |
| Overdraft.CheckSufficesIff | src/ledger/ledger.service.ts:128-141 | the check protects the account on every single-currency ledger exactly if the stored journal takes at most the first line's amount rounded up |
| Overdraft.TwoLinesDefeatTheCheck | src/ledger/ledger.service.ts:128-141 | an accepted journal with two lines on the account for which the check passes and the account is overdrawn |
| SpendCaps.CheckedIsPartOfPosted | src/ledger/transaction-limit.service.ts:83-99 | unchecked entries only make the total that is compared larger |
| SpendCaps.TimeOnlyFreesRoom | src/ledger/transaction-limit.service.ts:102-110 | when a day or month rolls over the total in the open window only shrinks |
| SpendCaps.CommitStaysWithin | src/ledger/ledger.service.ts:105-152 | a commit fits under the cap and takes no room that another request was promised |
| SpendCaps.CapIsKept | src/ledger/transaction-limit.service.ts:40-110 | at every moment of every run the limit-checked amounts in the open day or month window total at most the cap |
| SpendCaps.CapHoldsOnTheCalendar | src/ledger/transaction-limit.service.ts:60-110 | in every state of every run the limit-checked amounts dated from the midnight that starts the day, or the month, total at most the cap |
| OriginalAmounts.AmountDropsIff | src/reversals/reversals.service.ts:64-74 | further rows lower the derived amount exactly if all rows so far are on platform cash and the new ones off it are all smaller |
| OriginalAmounts.AmountGrowsOffCash | src/reversals/reversals.service.ts:64-74 | over a run whose journals under the id each have a line off platform cash the amount never drops |
| OriginalAmounts.AmountGrowsPostedOnce | src/reversals/reversals.service.ts:64-74 | the amount of a transaction posted once never changes after it appears |
| RefundCap.RecordFits | src/reversals/reversals.service.ts:393-406 | the recorded amount is positive and fits under the planned amount after rounding |
| RefundCap.RefundsStayUnderThePeak | src/reversals/reversals.service.ts:362-409 | over every interleaving, whatever else is posted under the id, the stored reversal amounts total at most the largest amount the transaction has had |
| RefundCap.RefundsStayCapped | src/reversals/reversals.service.ts:444-472 | and at most its present amount, if it is posted once or every journal under the id has a line off platform cash |
| RefundCap.SmallerJournalLeavesTheCapBehind | src/reversals/reversals.service.ts:64-74 | without either condition two accepted journals leave the reversal above what the transaction amounts to |
| FullReversals.FullReversalStandsAlone | src/reversals/reversals.service.ts:151-196 | the row of a committed full reversal is the first of its transaction, no second full reversal commits, and unless the transaction has amounted to more than was reversed nothing else on it commits |
| FullReversals.FullReversalIsFinal | src/reversals/reversals.service.ts:151-196 | of a transaction posted once it reverses the whole amount and stands alone for good |
| FullReversals.GuardsAfterFullIff | src/reversals/reversals.service.ts:444-519 | with nothing but a full reversal stored, a refund passes both guards exactly if the reversal differs from the present amount and together they fit under the planned one |
| FullReversals.RefundAfterFullReversalIff | src/reversals/reversals.service.ts:362-376 | in every state of every run, a refund planned after a full reversal goes on to post exactly if it fits with it under the present amount |
| FullReversals.ReusedIdReopensRefunds | src/reversals/reversals.service.ts:493-519 | two accepted journals under one id, the first fully reversed in between: refunds pass again exactly up to the difference |
| ProportionalFee.RoundedShare | src/reversals/reversals.service.ts:283-290 | one stored fee refund is within the slack of its share and at most the stored fee |
| ProportionalFee.FeesNearShare | src/reversals/reversals.service.ts:283-290 | fee refunds near their shares total near the share of the total |
| ProportionalFee.FeesStayBounded | src/reversals/reversals.service.ts:274-295 | over every run in which the amount, once there, lies between two bounds, n proportional refunds total within n slacks between the shares of the upper and the lower bound; half a tick for four-decimal refunds |
| ProportionalFee.FeesOfOneJournal | src/reversals/reversals.service.ts:274-295 | of a transaction posted once they total at most the fee plus n slacks |
| ProportionalFee.GrowingAmountGivesBackMore | src/reversals/reversals.service.ts:274-295 | if the amount doubles between two accepted refunds they give back half the fee more than there was |
| ProportionalFee.FineRefundsGiveBackMore | src/reversals/reversals.service.ts:393-406 | finer refunds that are within the cap and accepted break the half-tick bound |
| Conservation.MirrorNegates | src/reversals/reversals.service.ts:134-141 | the mirror nets to the opposite of the rows it mirrors in each currency |
| Conservation.RefundIsOneCurrency | src/reversals/reversals.service.ts:297-352 | a balanced refund journal is conserved in each currency |
| Conservation.CommitKeepsRows | src/reversals/reversals.service.ts:116-141 | the rows to be reversed stay conserved, also when they are posted during the run |
| Conservation.RunConserves | src/ledger/ledger.service.ts:86-99 | every committed state of every run nets to zero in each currency as of every date |
| Deadlock.WaitsUpwards | src/database/database.service.ts:223-236 | whoever holds a key and waits for another waits for one at least as large |
| Deadlock.FindRunnable | src/ledger/ledger.repository.ts:64-76 | following the blockers of an unfinished request leads to one that can step |
| Deadlock.NoDeadlock | src/ledger/ledger.service.ts:109-125 | in every reachable state with unfinished work some transaction can take its next step |
| Deadlock.StepsAreFinite | src/database/database.service.ts:172-204 | every step but the clock strictly decreases a well-founded measure, so no run retries forever |
| Deadlock.EveryoneCanFinish | src/database/database.service.ts:165-204 | from every sound state there is a path on which all requests finish |
| WriteOrder.OneInsertsAfterAHead | src/ledger/ledger.repository.ts:64-76 | on a ledger that has rows two requests that insert at the same time hold different head rows |
| WriteOrder.KeysAreRecordedOnce | prisma/schema.prisma:424-442 | over every run a transaction has at most one reversal under each idempotency key |
| Outcomes.PostingFailsIff | src/ledger/ledger.service.ts:85-152 | each statement of a posting fails it exactly if what it checks does not hold: acceptance, the first line on the account, the day and the month |
| Outcomes.ReversalFailsIff | src/reversals/reversals.service.ts:96-171 | the same for the statements of reversals and refunds |
| Outcomes.AloneOutcome | src/ledger/ledger.service.ts:85-230 | with fewer than three conflicts and no other request moving: a replay changes nothing, a request that is due is committed and stores exactly its rows and its record, one that is not fails and changes nothing |
| Outcomes.ThreeConflictsFail | src/database/database.service.ts:172-204 | after a third conflict the request has failed and changed nothing |
| Outcomes.FinishAlone | src/database/database.service.ts:165-204 | once the others are finished nothing blocks a request from finishing |
| Outcomes.DueIsCommitted | src/reversals/reversals.service.ts:96-435 | from every sound state with the others finished there is a run on which the request is committed if and only if it is due and no replay |
| Reversals.OriginalsConcat | src/reversals/reversals.service.ts:117-120 | the original's rows of a longer ledger are those of its two parts |
| Reversals.AllOrNone | src/reversals/reversals.service.ts:117-120 | rows of one reference are all or none of an original's rows |
| Reversals.LargestAmount | src/reversals/reversals.service.ts:70-73 | the reduce yields the largest amount, or zero |
| Reversals.PlanPartialRefund | src/reversals/reversals.service.ts:250-352 | the imperative build with its splice is the planned journal, with the same refusals; what that journal says is `RefundPlanIs` |
| Reversals.RefundPlanIs | src/reversals/reversals.service.ts:250-352 | each refusal under its own condition; else the fee the policy gives back, the refund debited to the account of the second largest row, refund and fee credited to that of the largest, the fee debited to the first credit row off it |
| Reversals.PolicyDecidesTheWalletLine | src/reversals/reversals.service.ts:278-295 | under FULL the wallet line is refund plus fee, under NONE it equals the merchant line |
| Reversals.RefundIsPostedIff | src/reversals/reversals.service.ts:297-352 | for any number of decimals: posted exactly if the refund reaches a tick and its fee has a row to come from, reaches a tick and agrees with it below a tick, or is lost in rounding |
| Reversals.WholeRefundIsPostedIff | src/reversals/reversals.service.ts:297-352 | with four decimals: posted exactly if it gives back no fee or finds a row to take it from |
| Undo.ReversalUndoes | src/reversals/reversals.service.ts:116-171 | with the mirror appended every balance is what it would be had the transaction never been posted |
| Undo.MirrorAcceptedIff | src/reversals/reversals.service.ts:134-171 | the mirror passes both checks exactly if the stored rows are positive and balanced |
| Undo.AcceptedCanBeMirroredIff | src/reversals/reversals.service.ts:134-171 | an accepted journal can be reversed exactly if its rounding errors cancel and every amount is at least half a tick |
| Undo.AcceptedJournalsCanBeMirrored | src/ledger/ledger.service.ts:86-99 | every accepted four-decimal journal can be mirrored |
| Undo.FineJournalsCannotBeMirrored | src/ledger/ledger.service.ts:91-99 | an accepted finer journal may not be |
| HashChain.Fixed4Injective | src/ledger/hash-chain.service.ts:116-117 | the four-decimal text determines the amount |
| HashChain.Fixed4Reads | src/ledger/hash-chain.service.ts:116-117 | the text is sign, whole part, point and four decimals, and reads back as the amount |
| HashChain.InputReads | src/ledger/hash-chain.service.ts:71-88 | the hash input is the eleven fields and the previous hash in their order |
| HashChain.HashDeterminesRow | src/ledger/hash-chain.service.ts:71-90 | equal hashes mean equal hashed fields and equal previous hash, when only the narrative may hold the separator |
| HashChain.SharedInputIff | src/ledger/hash-chain.service.ts:72-85 | rows that differ in creator and narrative alone share a hash input exactly if the longer creator repeats the shorter one with type and reference behind it |
| HashChain.SeparatorInCreatedBy | src/ledger/hash-chain.service.ts:72-85 | with the separator in createdBy the encoding is not injective |
| HashChain.VerifyChain | src/ledger/hash-chain.service.ts:105-185 | accepts exactly the valid chains, else reports the first row that breaks it, with a valid prefix before |
| HashChain.TamperEvidence | src/ledger/hash-chain.service.ts:105-185 | two chains that verify and end in the same hash have equal length and agree on every hashed field |
| Posting.EveryCutVerifies | src/audit/audit.service.ts:44-78 | what the service has built, read in (postedAt, id) order, verifies for every upper date, and for a lower date exactly if it drops no row before those read; otherwise the break is at the first row |
| Posting.ReadIsExact | src/audit/audit.service.ts:50-56 | of any rows, those posted between the two dates are read, each as often as it is there, oldest first |
| Posting.NewestIsLast | src/ledger/ledger.repository.ts:64-76 | the head query finds the last appended row |
| Posting.LedgerService.AssertWithinLimits | src/ledger/transaction-limit.service.ts:40-81 | passing means within the per-transaction, day and month limits at clock readings during the call; failing means one was exceeded then |
| Posting.LedgerService.RunChecks | src/ledger/ledger.service.ts:118-152 | no rejection means every named balance suffices and every limit check passes; a rejection names which failed first |
| Posting.LedgerService.HeadHash | src/ledger/ledger.service.ts:154-156 | the hash the next row builds on is the last one of the chain, or genesis |
| Posting.LedgerService.InsertLines | src/ledger/ledger.service.ts:158-212 | one attempt builds rows that extend the chain by exactly the journal's lines, or nothing |
| Posting.LedgerService.PostJournalEntry | src/ledger/ledger.service.ts:85-230 | the rows committed, when each refusal happens, that a refusal changes nothing over all retries, and that only a failed refresh throws after the commit |
| Posting.LedgerService.ReverseTransaction | src/reversals/reversals.service.ts:96-221 | replay, each refusal and the posting of the mirror occur exactly under their own conditions; the record and rows written |
| Posting.LedgerService.PartialRefund | src/reversals/reversals.service.ts:231-435 | replay, each refusal and the posting occur exactly under their own conditions; the journal has the accounts and amounts the rows and the policy call for, the record the rounded amount and fee |
| Posting.LedgerService.PostReversal | src/reversals/reversals.service.ts:151-205 | refused exactly if the journal is, beaten exactly by three conflicts, else rows, record and snapshots change together |
| Posting.LedgerService.UpdateSnapshot | src/ledger/balance.service.ts:72-85 | appends one line holding the derived balance |
| Posting.LedgerService.RefreshSnapshots | src/ledger/ledger.service.ts:223-230 | after the refresh every touched account has a snapshot equal to its derived balance |
| Posting.LedgerService.Verify | src/audit/audit.service.ts:44-78 | the verifier's verdict on any date range of any serial run, exactly |
| Posting.UntouchedBalance | src/ledger/balance.service.ts:29-65 | posting to other accounts leaves a derived balance alone |
| Posting.LatestSnapshotAgreesIff | src/ledger/balance.service.ts:72-102 | every snapshot that may be returned is the derived balance exactly if the latest ones hold one balance |
| Posting.LatestSnapshotAgrees | src/ledger/balance.service.ts:72-102 | if the account's own timestamps are distinct, its latest snapshot is the derived balance |
| Posting.SameMillisecondIsAmbiguous | src/ledger/balance.service.ts:87-92 | with equal timestamps an older snapshot may be returned |
| FxRates.FxRateRepository.Create | src/fx/fx-rate.repository.ts:14-45 | closes the pair's open windows, inserts the new rate exactly if rate, inverse and source fit their columns, and every update is one the trigger admits |
| FxRates.ExtremeRatesAreNotStored | src/fx/fx-rate.repository.ts:34-44 | a very small and a very large rate fail after the close; the largest that fits and 0.00000001 are stored |
| FxRates.LongSourceIsNotStored | prisma/migrations/20260626104753_init_schema/migration.sql:83-96 | so does a source of more than fifty characters |
| FxRates.RefusedFeedLeavesAGap | src/fx/fx-rate.repository.ts:34-44 | after a feed that fails to insert nothing covers the pair from its start on |
| FxRates.FindAtTime | src/fx/fx-rate.repository.ts:72-86 | the row returned covers the instant and starts latest; none is returned only if none covers |
| FxRates.HistoryIsStable | src/fx/fx-rate.repository.ts:14-86 | ingesting a rate valid after t never changes the lookup at t |
| FxRates.AnsweredRateIsStable | src/fx/fx-rate.repository.ts:14-86 | the same for every row that a tie in validFrom may return |
| FxRates.IngestChangesAnswersIff | src/fx/fx-rate.repository.ts:34-86 | exactly which ingestions change which rows a lookup may return |
| FxRates.PairsDoNotMix | src/fx/fx-rate.repository.ts:34-44 | the rows of a pair are what its own feeds would have built alone |
| FxRates.WindowsAreAdjacent | src/fx/fx-rate.repository.ts:34-44 | in a history of any pairs, with ascending stored feeds of a pair each of its windows ends where its next begins |
| FxRates.ExactlyOneCovers | src/fx/fx-rate.repository.ts:72-86 | in a history of any pairs, with ascending stored feeds of a pair, exactly one snapshot covers each instant of the pair from its first feed on, it is that of the last feed started, and the lookup returns it |
| FxRates.RatesAreTheLastFeeds | src/fx/fx-rate.service.ts:59-73 | the lookups answer the rate of the last feed started; the current one is refused as stale exactly if it was captured longer ago than allowed |
| FxRates.NoRateBeforeTheFirstFeed | src/fx/fx-rate.service.ts:59-117 | before the first feed neither lookup finds a rate |
| ForeignPositions.PositionsAreExact | src/fx/fx-revaluation.service.ts:88-107 | at most one position per account and currency, each with the debits less the credits up to the date and not zero; every such balance has one |
| Revaluation.RunRevaluation | src/fx/fx-revaluation.service.ts:79-286 | the loop totals gains and losses per position and yields the consolidated journal, or the first missing basis |
| Revaluation.RunTotals | src/fx/fx-revaluation.service.ts:127-212 | a run stops exactly if a position has no basis, totals what the positions with a closing rate are worth more and less, and posts nothing exactly if the two are equal |
| Revaluation.JournalIsSound | src/fx/fx-revaluation.service.ts:212-249 | the journal is accepted, conserved, and moves gains from the gain account to suspense and losses from suspense to the loss account |
| Revaluation.BasisIsLastClosing | src/fx/fx-revaluation.service.ts:130-153 | without backdated ingestion a run's basis rate is the closing rate of the run before |
| Revaluation.RevaluationTelescopes | src/fx/fx-revaluation.service.ts:127-269 | over any number of nights, with any home-currency postings in between, suspense moves by the last closing value minus the first basis value plus what those postings put on it |
| Revaluation.ValueIsNear | src/fx/fx-revaluation.service.ts:163-175 | a position is valued within half a tick of balance times rate |
| Revaluation.SuspenseFollowsTheRates | src/fx/fx-revaluation.service.ts:79-286 | over any number of nights suspense moves, apart from the traffic on it, by the sum of balance times change of rate, to within a tick per position |
| Revaluation.OneBalanceFollowsItsRate | src/fx/fx-revaluation.service.ts:79-286 | with one foreign balance it moves by that balance times the change of its rate, to within a tick |
| Revaluation.ForeignBalancesUntouched | src/fx/fx-revaluation.service.ts:204-249 | with home-currency postings in between, no night changes a balance in a foreign currency |
| Handlers.ComputeBalancingLeg | src/transactions/handlers/balancing-leg.util.ts:48-75 | no leg exactly for balanced lines; otherwise adding the leg balances four-decimal lines |
| Handlers.PlugBalances | src/transactions/handlers/balancing-leg.util.ts:54-74 | lines with their leg balance, and are all positive exactly if the real lines are |
| Handlers.PlugConserves | src/transactions/handlers/balancing-leg.util.ts:48-75 | single-currency lines with their leg are conserved in each currency |
| Handlers.P2pConserves | src/transactions/handlers/p2p-transfer.handler.ts:92-147 | every P2P journal is conserved in each currency |
| Handlers.QrConserves | src/transactions/handlers/merchant-payment-qr.handler.ts:99-158 | every QR journal is |
| Handlers.NipConserves | src/transactions/handlers/nip-transfer.handler.ts:100-210 | every NIP journal, with any of its optional lines, is |
| Handlers.EmiConserves | src/transactions/handlers/loan-emi-payment.handler.ts:163-231 | every EMI journal is |
| Handlers.ConversionConserves | src/transactions/handlers/fx-conversion.handler.ts:95-155 | the two-currency journal is conserved in both, though its leg is computed across them |
| Handlers.BuildPartialRefund | src/transactions/handlers/refund-partial.handler.ts:64-153 | the pushed lines with their leg are the journal, conserved in each currency |
| Handlers.RefundConserves | src/transactions/handlers/refund-partial.handler.ts:99-145 | every partial-refund journal is conserved, whatever the fee policy |
| Handlers.ComputeEmiAmounts | src/transactions/handlers/loan-emi-payment.handler.ts:67-104 | the waterfall parts add up to the payment and none exceeds what is due |
| Handlers.WaterfallPaysInFull | src/transactions/handlers/loan-emi-payment.handler.ts:84-140 | a valid payment covers penalty and interest in full and at least the scheduled principal |
| Handlers.DerivedAmountIsWalletAmount | src/reversals/reversals.service.ts:64-74 | the amount derived from the stored rows is the wallet leg, whatever the balancing leg |
| Handlers.P2pOneAmount | src/transactions/handlers/p2p-transfer.handler.ts:76-147 | wallet leg, limit-checked amount, component sum and derived original amount coincide |
| Handlers.QrOneAmount | src/transactions/handlers/merchant-payment-qr.handler.ts:82-158 | the same for QR payments |
| Handlers.NipOneAmount | src/transactions/handlers/nip-transfer.handler.ts:79-202 | the same for NIP transfers with fee, duty, VAT and levy |
| Handlers.EmiOneAmountIff | src/transactions/handlers/loan-emi-payment.handler.ts:152-231 | for EMI payments they coincide exactly if interest and principal agree below a tick |
| Handlers.WholeEmiAgrees | src/transactions/handlers/loan-emi-payment.handler.ts:84-104 | four-decimal interest always agrees |
| Handlers.EmiIsPostedIff | src/transactions/handlers/loan-emi-payment.handler.ts:106-213 | a validated EMI is posted exactly if interest and principal both reach a tick |
| Movements.P2pMoves | src/transactions/handlers/p2p-transfer.handler.ts:92-147 | what a P2P journal does to each account, in terms of the payload |
| Movements.QrMoves | src/transactions/handlers/merchant-payment-qr.handler.ts:99-158 | the same for QR payments, with half a percent and at least 1 as fee |
| Movements.NipMoves | src/transactions/handlers/nip-transfer.handler.ts:100-210 | the same for NIP transfers, with fee, duty, VAT and levy to their own accounts |
| Movements.EmiMoves | src/transactions/handlers/loan-emi-payment.handler.ts:67-231 | the same for EMI payments: penalty, scheduled interest and the rest as principal |
| Movements.PenaltyByTheDay | src/transactions/handlers/loan-emi-payment.handler.ts:69-78 | each day overdue adds a thousandth of the scheduled total to the penalty |
| Movements.ConversionMoves | src/transactions/handlers/fx-conversion.handler.ts:95-155 | the same in both currencies for conversions at the payload's rate less half a percent |
| Movements.RefundMoves | src/transactions/handlers/refund-partial.handler.ts:64-153 | the same for partial refunds, with the fee each policy gives back |
| Movements.ShareIsInProportion | src/transactions/handlers/refund-partial.handler.ts:84-97 | the proportional share is to the fee as the refund is to the original amount |
| BalancingLegs.QueryReadsTheLargest | src/reporting/reconciliation.service.ts:90-106 | the query reads the largest stored amount of a reference, the balancing leg included |
| BalancingLegs.P2pLeg | src/transactions/handlers/p2p-transfer.handler.ts:106-141 | the leg is twice the fee for every posted transfer, the largest line and what reconciliation reads exactly if the amount is below the fee |
| BalancingLegs.QrLeg | src/transactions/handlers/merchant-payment-qr.handler.ts:115-150 | the same for QR payments |
| BalancingLegs.NipLeg | src/transactions/handlers/nip-transfer.handler.ts:115-205 | the same for NIP transfers with fee, duty, VAT and levy |
| BalancingLegs.EmiLeg | src/transactions/handlers/loan-emi-payment.handler.ts:180-231 | the leg always exceeds every real line and is what reconciliation reads: twice the payment exactly if its parts agree below a tick |
| Payments.PaymentIsGuarded | src/transactions/handlers/base-transaction.handler.ts:139-173 | every handler journal is guarded for an account that pays with one leg or only receives |
| Payments.PaymentIsChecked | src/transactions/handlers/base-transaction.handler.ts:139-173 | the limit check of every handler covers all its journal stores on the wallet |
| Payments.WalletsStaySolvent | src/transactions/handlers/base-transaction.handler.ts:160-170 | over every interleaving of the handlers' payments a wallet that starts non-negative stays so |
| Payments.PaymentsKeepTheCap | src/transactions/handlers/base-transaction.handler.ts:160-170 | over every interleaving of payments a wallet keeps to its cap |
| Payments.PaymentsConserve | src/transactions/handlers/base-transaction.handler.ts:160-170 | over every interleaving of payments the books net to zero in each currency |
| Payments.FundedPaymentIsPosted | src/transactions/handlers/base-transaction.handler.ts:160-170 | a payment that comes when the others are finished is posted exactly if its lines are accepted, the wallet covers amount and charges and its limits leave room; else nothing changes |
| Payments.SinglePaymentIsPosted | src/ledger/ledger.service.ts:85-230 | a system with one such payment has a run from its first state on that ends with the payment posted |
| Payments.ChecksItsOwnType | src/transactions/handlers/base-transaction.handler.ts:162-165 | each handler's limit check is of its own transaction type |
| Reports.RowsAddUp | src/reporting/trial-balance.service.ts:68-98 | the rows over the chart of accounts add up to the sum over the ledger |
| Reports.TrialBalance | src/reporting/trial-balance.service.ts:65-123 | each row's debits, credits and balance on the account's normal side; grand totals equal to those of the whole ledger; balanced exactly if the ledger is |
| Reports.TrialBalanceNetsPerCurrency | src/reporting/trial-balance.service.ts:65-123 | the rows of a currency net to what the ledger nets to in it |
| Reports.ConservedLedgerIsBalanced | src/reporting/trial-balance.service.ts:122-123 | a ledger conserved in each currency is balanced as a whole |
| Reports.TrialBalanceHoldsAfterAnyRun | src/reporting/trial-balance.service.ts:59-65 | after any concurrent run and as of every date the trial balance is balanced, also within each currency |
| Reports.BalanceSheet | src/reporting/balance-sheet.service.ts:41-114 | lines and totals by type, discrepancy, and the one-tick tolerance |
| Reports.IncomeStatement | src/reporting/income-statement.service.ts:37-96 | signed revenue, absolute expenses, net income |
| Reports.PeriodsAddUp | src/reporting/income-statement.service.ts:37-55 | what an account nets to in a period is the sum over the parts of it, and the rows up to its end less those before |
| Reports.ReportsDifferBy | src/reporting/balance-sheet.service.ts:64-100 | on a balanced ledger the two reports differ by exactly twice the contra-asset and credit-net expense balances |
| Reports.ReportsAgreeIff | src/reporting/income-statement.service.ts:59-95 | without contra-assets discrepancy equals net income exactly if every expense and contra-revenue account is debit-net |
| Reconciliation.GroupsAreExact | src/reporting/reconciliation.service.ts:90-101 | the grouping has one row per reference and currency, with the largest amount of its rows |
| Reconciliation.LedgerAmountIsLargest | src/reporting/reconciliation.service.ts:90-106 | for a single-currency reference the compared ledger amount is its largest stored amount |
| Reconciliation.IndexRows | src/reporting/reconciliation.service.ts:103-111 | the map keeps the last row per reference and the keys in first-set order |
| Reconciliation.WalkLedger | src/reporting/reconciliation.service.ts:120-169 | every ledger reference is classified and its external line consumed |
| Reconciliation.WalkStatement | src/reporting/reconciliation.service.ts:171-187 | exactly the unconsumed external references are reported missing in the ledger |
| Reconciliation.Reconcile | src/reporting/reconciliation.service.ts:84-226 | the hash-join with deletion yields the report that classifies each reference on its own |
| Reconciliation.SortedKeepsTheLines | src/reporting/reconciliation.service.ts:216-224 | sorting keeps every line and puts the most urgent statuses first |
| Reconciliation.ExactlyOneLine | src/reporting/reconciliation.service.ts:120-187 | every reference is on exactly one line; its status, amounts, currency and discrepancy are what the last ledger row and the last statement line of it call for |
| Reconciliation.CountersPartitionTheKeys | src/reporting/reconciliation.service.ts:207-213 | the counters sum to the sizes of the two key sets |
| Reconciliation.FullyReconciledIff | src/reporting/reconciliation.service.ts:189-190 | fully reconciled exactly if the key sets match and every pair is within the tolerance |
| Reconciliation.GrandTotalsDifferByAtMost | src/reporting/reconciliation.service.ts:113-187 | the grand totals differ by at most the reported discrepancy plus the tolerance per match |
| Reconciliation.DiscrepancyAddsUp | src/reporting/reconciliation.service.ts:113-214 | the reported discrepancy is the sum of what the references are apart, rounded once |
| Reconciliation.ReconciledTotalsAgree | src/reporting/reconciliation.service.ts:189-214 | a full reconciliation of n references leaves the totals within n hundredths |
| Reconciliation.RawTotalsDifferByAtMost | src/reporting/reconciliation.service.ts:103-187 | if no reference repeats, the totals of all rows and all lines differ by at most the discrepancy plus the tolerance per match |
| Reconciliation.RepeatsShowInTheCounters | src/reporting/reconciliation.service.ts:207-213 | the statement-side counters reach the line count exactly if no reference repeats |
| Reconciliation.RepeatedLineGoesUnnoticed | src/reporting/reconciliation.service.ts:108-111 | for every statement, repeating an indexed line changes the report's line count and nothing else |
| Idempotency.TransactionsService.CheckAndReserve | src/transactions/idempotency.service.ts:55-128 | the reservation over all attempts, and that a failed one leaves the keys alone |
| Idempotency.SettledIff | src/transactions/idempotency.service.ts:60-128 | the reservation commits exactly if one of three attempts does and those before it hit conflicts |
| Idempotency.RecordTellsTheOutcome | src/transactions/transactions.service.ts:97-151 | status and body that an admitted call leaves in the record of its key |
| Idempotency.TransactionsService.CleanupStaleKeys | src/transactions/idempotency.service.ts:169-185 | exactly the stale processing keys become failed, and are counted |
| Idempotency.TransactionsService.Process | src/transactions/transactions.service.ts:82-158 | the whole new state and outcome of one call |
| Idempotency.EveryCommitIsAccountedFor | src/transactions/transactions.service.ts:97-151 | over any run the journals under a key are one per completion plus those lost after their commit |
| Idempotency.AtMostOneJournal | src/transactions/transactions.service.ts:97-151 | if no call under the key fails after its commit, the key commits at most one journal, and one exactly if it is completed |
| Idempotency.SuccessIsReplayed | src/transactions/transactions.service.ts:106-111 | after a success every repeat returns the stored response and changes nothing, whatever happened in between |
| Idempotency.DifferentBodyIsRejected | src/transactions/idempotency.service.ts:75-81 | a used key with a different body is always rejected and changes nothing |
| Idempotency.ExecuteOnLedger | src/transactions/handlers/base-transaction.handler.ts:139-173 | the handler's outcome as the ledger produces it: each outcome has its cause, a refusal has left the rows alone, and only a failed refresh throws after a commit |
| Idempotency.TransactionsService.ProcessOnLedger | src/transactions/transactions.service.ts:82-158 | with the real ledger behind it a failed call leaves the ledger's rows as they were, unless refresh or key update failed after the commit |
| Idempotency.FailedCallPostsNothing | src/transactions/transactions.service.ts:136-143 | a failed call has posted nothing exactly unless the failure came after the commit |
| Idempotency.LosesIff | src/transactions/transactions.service.ts:121-151 | exactly which calls commit a journal without completing their key |
| Idempotency.FailureCanBeRetried | src/transactions/idempotency.service.ts:150-162 | a failed request can be retried with the same key, whatever happened in between |
| Idempotency.LostCommitIsPostedTwice | src/transactions/transactions.service.ts:121-151 | a commit followed by a failed refresh or key update is posted again |
| Idempotency.NoKeyNoProtection | src/transactions/transactions.service.ts:97-114 | over any mixed run the keyless journals are exactly as many as the keyless calls whose handler posts |
| KeyIsolation.OtherCallsDoNotMatter | src/transactions/transactions.service.ts:97-104 | a call with another key or for another user, named or the actor, leaves record and journals of a key alone |
| KeyIsolation.KeysAreIsolated | src/transactions/idempotency.service.ts:55-128 | over any run the record, the journals and the answers of a key of a user are those of its own calls and the clean-ups alone |
| KeyIsolation.TwoUsersPostTwice | src/transactions/transactions.service.ts:97-104 | one key and body sent by one actor for two users posts for both |

## Left out

- NestJS controllers, guards, DTO decorators, logging, health, configuration, seeds, scripts and partition DDL.
- Prisma and SQL execution: queries are sums and filters over the sequence of posted rows; ORDER BY of report rows is not modelled.
- SHA-256, UUID generation and the clock: parameters with the assumptions above.
- decimal.js precision: arithmetic is exact, so results beyond 28 significant digits are not modelled.
- Linearity of the hash chain under concurrent postings: the chain is built serially in `Posting`, and `Engine` models the head-row lock but no hashes, because `FOR UPDATE` with `LIMIT 1` does not re-pick the newest row after a wait.
- Concurrent requests with the same idempotency key: `Idempotency` runs calls one after another, because a key that is still PROCESSING does not stop a second call.
- Idempotency.TransactionsService.Process: account resolution is a flag of the call, because its lookups change nothing; the handler's outcome is a parameter here and comes from the ledger in `ProcessOnLedger`.
- Posting.LedgerService.ReverseTransaction: a snapshot refresh that fails after a reversal has committed; its replay is protected by the reversal row.
- Overdraft.NeverOverdrawn: reversals and partial refunds post without a balance check, so those of the run must not credit the account; a reversal that is itself reversed in the same run must stay off it.
- ProportionalFee.FeesStayBounded: the FULL policy gives the whole fee back on every refund and has no bound, so only PROPORTIONAL is covered.
- Outcomes.AloneOutcome: requests that move at the same time; what holds of those is in the theorems over every interleaving.
- SpendCaps.CapIsKept: the limits table does not change during a run.
- RefundCap.RefundsStayCapped: without one of its two conditions the bound is the peak (`RefundsStayUnderThePeak`), because the amount can drop.
- FullReversals.FullReversalStandsAlone: a transaction that has amounted to more than was reversed; for it see `RefundAfterFullReversalIff`.
- Revaluation.RevaluationTelescopes: foreign-currency postings between the nights, because positions would change.
- Reconciliation.Reconcile: the query's order of groups and the narratives; of a reference in several currencies the last row wins, as in the code.
- Updating the `transactions` table's status on a reversal: nothing modelled reads it.
- Floating-point fee code and the remaining handlers (deposits, withdrawal, bill, fee, cashback, promotion, reward, chargeback, closure, interest, disbursement, USSD, full refund): near copies of the modelled ones.
- Account statements, audit trail and anomaly heuristics.
