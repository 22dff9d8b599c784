# Loyalty ledger, search index, ordering, carts and dispatch: a verified model

This project models the stateful cores of the shop backend and proves what they keep over whole runs.
`dafny verify dfyconfig.toml` checks everything.

| Files | Part of the system |
|---|---|
| `LoyaltyData`, `LoyaltySteps`, `LoyaltyService` | the append-only points ledger, one locked section at a time: as functions of the tables, and as a class whose methods change the tables in place |
| `LoyaltyReversal`, `LoyaltyExpiry`, `LoyaltyPoints`, `LoyaltyTiers` | what one reversal, one expiry pass, one rounding and one tier recalculation does |
| `LoyaltyRuns`, `LoyaltyBonus`, `LoyaltyLedger`, `LoyaltyTierRuns`, `LoyaltyExpiryRuns`, `LoyaltyLateAwards` | every interleaving of the five writers, with redelivered tasks |
| `LoyaltyAnswers` | what each loyalty operation answers, said with the fields of rows, settings and order alone |
| `LoyaltyScenarios` | concrete runs that end where a promise fails |
| `SearchSync`, `SearchReindex` | database, task bag and search index; the batched full reindex |
| `SortableOrder` | dense numbering under create, move up, move down, delete |
| `CartMerge`, `CartService` | merging a guest cart into a user's cart at login |
| `PrefixClearing` | clearing cache keys by prefix in two scans a prefix |
| `EventDispatch` | the conversion-event log with retries and the purchase id |
| `FilterPrinter`, `MessageSanitizer` | filter quoting and operator choice; the three-pass message normaliser |
| `Folds`, `Wrappers` | sums over sequences and sets; `Option` and `Result` |

## How the source is modelled

- **Loyalty.** A step of a run is one locked section: award, bonus, reverse, redeem, or one user's expiry batch. A run
  is any sequence of such steps; `process_order_points` is two of them, can be delivered any number of times, and can be
  lost between them. Two things are read before the lock and are therefore free arguments of a step: the user snapshot
  of an award (its tier) and the list of an expiry batch. A transaction's primary key is its position in the ledger,
  and the text match on the EXPIRE description is the field `marks`. Each class method is proved to compute the step
  function, and the results are proved about the step functions and their runs.
- **Search.** A step is a save, a delete, or the execution of one waiting task, which may stay in the bag for another
  delivery. A task re-reads its row when it runs. A delete has two inputs of its own, because the signal handler asks the
  instance in memory whether it is searchable (`meili/apps.py:127-130`) and reads its key only when the transaction commits
  (`meili/apps.py:143-150`): whether that instance qualifies, and whether it still has its key. The framework clears the key
  of a deleted instance, so the key is lost whenever the delete runs inside a larger transaction.
- **Ordering, carts, cache, dispatch.** Classes whose methods change the tables, proved against functions of the old
  tables. What a database query or a scan returns in an unspecified order is an argument constrained only by what the
  query promises; the cart merge picks its lines in an arbitrary order.

## What the code does not keep

Where a promise fails the code is modelled as it is, and the exact condition is proved.

- An award decides from its pre-lock snapshot whether to save the tier. It leaves the wrong tier exactly when the
  snapshot already has the due tier and the stored row does not (`AwardAgreesIff`; `StaleSnapshotLosesTier` is a run from
  empty tables that ends there). Over any run a user's tier is right at the end exactly when the last award or reversal that
  touched them left it right (`TierRightAtEndIff`).
- Two expiry passes whose lists were both read before either lock expire one transaction twice
  (`OverlappingPassesExpireTwice`); over any run no transaction is expired twice exactly when every list is unmarked and
  without repeats at its own lock (`RunKeepsSingleMarkersIff`). The comment in `loyalty/managers/transaction.py:28-33`
  promises that duplicates are prevented.
- A reversal that runs before the order's award does nothing (`EarlyReversalDoesNothing`), and one that only gives spent points
  back blocks every later one: the late award then pays a cancelled order for good (`CancelledOrderKeepsPoints`). A reversal
  after the award takes back what it can exactly when no ADJUST row of the order precedes the award
  (`LaterReversalTakesBackIff`).
- The new-customer check alone is not idempotent (`BonusCheckAloneRepeats`); the gate in the task makes it safe. It can also
  miss the new customer: two first orders awarded before either bonus section, or an execution lost before its bonus
  section, leave a customer without a bonus for good (`ConcurrentFirstOrdersGetNone`, `LostExecutionBlocks`;
  `BonusStillPossibleIff` is the exact condition).
- With a non-positive XP-per-level setting the level is constantly 1, but the summary still reports a distance to the next
  tier; no amount of XP closes it (`NextTierReachable`, `ZeroPerLevelPromisesInVain`).
- A document stays searchable for ever when its row is deleted through an instance that is hidden in memory, because the row
  itself is hidden and the removal of its document still waits (`DirtyDeleteStaysSearchable`) or because the instance is
  outdated (`StaleInstanceStaysSearchable`), and when the deleted instance has lost its key by the commit, so that the task
  names no document (`LostKeyStaysSearchable`). A removal that the engine refuses is never retried
  (`RefusedRemovalStaysSearchable`). Over all runs of the modelled steps a drained index is wrong exactly in these cases
  (`DrainedIndexIsExact`).
- `move_up` does not always undo `move_down`, because the successor is the first row of the default ordering with a greater
  number (`DownThenUpRestoresIff`, `DownThenUpScrambles`). With rows listed by their numbers it does, except for the last of
  several rows, which cannot move down but still moves up (`SortedDownThenUpRestoresIff`).
- A login can shrink a line the user already had, exactly when it was above the stock (`MergeShrinksIff`,
  `LoginShrinksLine`). Adding an item before the login or after it differs exactly when a cap can apply
  (`AddBeforeOrAfterMergeIff`, `AddingAfterLoginExceedsStock`). Get-or-create for an anonymous caller who names no existing
  guest cart leaves one more cart behind at every call (`ObtainedAgainIff`).
- `clear_by_prefixes` is documented to remove only keys that start with a prefix (`core/caches.py:138-141`). The code also
  removes keys with a prefix after any colon, at any depth, and no others (`RemovedBeyondDescriptionIff`,
  `ForeignKeyRemoved`). A prefix that is listed twice reports zero, and the reported counts add up exactly when no prefix
  that removes a key is listed again (`RepeatedPrefixReportsZero`, `CountsAddUpIff`).
- A worker lost between a successful send and the save that records it makes a second successful send possible: an event goes
  out more than once exactly when another send of it succeeds after such a loss with no recorded send in between
  (`AcceptedAtMostOnceIff`, `LostWorkerSendsTwice`). Without losses a purchase goes out more than once exactly when two
  recorded sends read different ids, that is, when the stored id changed in between (`PurchaseTakenOnceIff`,
  `ChangedIdSendsTwice`).
- A lookup with an unknown operator is dropped without an error, so the search runs unfiltered (`DroppedIff`,
  `NegatedLookupDropped`).

## Model

| member | source | states |
|---|---|---|
| `LoyaltyBonus.BonusAtMostOnce` | loyalty/tasks.py:18-45 | over every interleaving, redelivery and loss of order tasks and of the other writers, from empty tables, no user ever has two BONUS rows |
| `LoyaltyBonus.StepKeepsBonusInv` | loyalty/services.py:511-552 | the invariant behind it: an execution waiting for its bonus section is alone for its order, that order is earned and has no bonus yet |
| `LoyaltyBonus.NoEarlierBonus` | loyalty/services.py:530-539 | when the check for EARN rows elsewhere passes for a waiting execution, the user has no bonus from any order |
| `LoyaltyBonus.BonusCheckAloneRepeats` | loyalty/services.py:513-552 | called twice in a row for one order, the check pays twice exactly when it pays once |
| `LoyaltyBonus.BonusPaidIff` | loyalty/tasks.py:29-38 | a run ends with a bonus of a user exactly when there was one or one of its bonus sections found the setting on and no EARN row of another order |
| `LoyaltyBonus.BonusStillPossibleIff` | loyalty/tasks.py:29-38 | for a user who has earned but has no bonus, some continuation pays one if and only if an execution waits for its bonus section and no other order was earned |
| `LoyaltyBonus.ConcurrentFirstOrdersBlock` | loyalty/services.py:530-539 | two first orders awarded before either bonus section rule each other's bonus out |
| `LoyaltyBonus.LostExecutionBlocks` | loyalty/tasks.py:29-38 | so does the loss of the only execution of a user who has earned |
| `LoyaltyScenarios.ConcurrentFirstOrdersGetNone` | loyalty/tasks.py:29-38 | a concrete run after which no continuation ever pays the new customer a bonus |
| `LoyaltyLedger.EveryRunKeepsTheBooks` | loyalty/services.py:89-380 | in every run no balance is negative, XP equals EARN points minus the negative ADJUSTs and is non-negative, an order's reversals never exceed its EARN points, and an order is redeemed at most once, as its receipt says |
| `LoyaltyLedger.StepKeepsLedgerInv` | loyalty/services.py:89-552 | each locked section keeps these books, also an expiry batch with a stale list |
| `LoyaltyLedger.XpCoversOrder` | loyalty/services.py:271-274 | a user's XP is never less than what any single order of theirs still contributes to it |
| `LoyaltyLedger.ReversalXpClampIdle` | loyalty/services.py:271-274 | the clamp of XP at zero never changes a value: a reversal takes at most what the order contributed |
| `LoyaltyLedger.ReversalChangesOnce` | loyalty/services.py:213-222 | once a reversal of an order has changed anything, no later reversal of it does, whatever ran in between |
| `LoyaltyLedger.RedeemKeepsRedeemedOnce` | loyalty/services.py:330-378 | a redemption adds the order's only REDEEM row, and the receipt on the order agrees with it |
| `LoyaltyReversal.ReversalRemoves` | loyalty/services.py:224-279 | a reversal removes exactly the smaller of the order's EARN total and the balance after restoring redeemed points, for every order in which the EARN rows are returned |
| `LoyaltyReversal.ReversalRowsTotal` | loyalty/services.py:245-269 | the clamping loop takes the minimum of the listed total and the balance it starts from |
| `LoyaltyReversal.UnclampedReversalCancels` | loyalty/services.py:232-269 | afterwards the order's EARN, REDEEM and ADJUST rows sum to zero exactly when the restored balance covers the earned total, and to more otherwise |
| `LoyaltyReversal.ReversalHappensOnce` | loyalty/services.py:213-274 | a call that changes the ledger or XP leaves an ADJUST row of the order, and a call that reports points changes them |
| `LoyaltyReversal.ReversedStaysReversed` | loyalty/services.py:213-222 | with an ADJUST row of the order anywhere in the ledger a reversal changes nothing and reports zero |
| `LoyaltyLateAwards.LaterReversalTakesBackIff` | loyalty/services.py:210-269 | an order is awarded, anything else runs, then it is reversed: the reversal takes back the smaller of its points and the restored balance if no ADJUST row of the order precedes the award, and nothing otherwise |
| `LoyaltyLateAwards.SettledForGood` | loyalty/services.py:121-127 | once an order has both an EARN and an ADJUST row, no continuation changes what it contributes to XP |
| `LoyaltyLateAwards.EarlyReversalDoesNothing` | loyalty/services.py:210-211 | a reversal before anything refers to the order changes nothing and leaves no trace |
| `LoyaltyScenarios.CancelledThenAwarded` | loyalty/services.py:213-243 | a concrete run: an order paid with points is reversed before its award, which then runs |
| `LoyaltyScenarios.CancelledOrderKeepsPoints` | loyalty/services.py:213-222 | after it no continuation takes the cancelled order's points back |
| `LoyaltyReversal.RedeemTakes` | loyalty/services.py:301-380 | a successful redemption takes exactly the requested positive points from that user alone, for a discount that is worth them at the ratio and within the maximum; a refused one changes nothing |
| `LoyaltyReversal.RedeemThenReverse` | loyalty/services.py:224-269 | redeeming on an order and then reversing the order leaves the balance the reversal alone would have left |
| `LoyaltyData.ListingSum` | loyalty/managers/transaction.py:21-25 | the EARN rows of an order add up to the same total however the query lists them |
| `LoyaltyExpiry.ExpireRowsTotal` | loyalty/services.py:470-490 | a batch removes the smaller of the listed total and the non-negative part of the balance |
| `LoyaltyExpiry.ExpireRowsKeepBalance` | loyalty/services.py:471-489 | with any list, even a stale one, a non-negative balance stays non-negative |
| `LoyaltyExpiry.PassMarksListed` | loyalty/services.py:464-490 | a whole pass, grouped by user, writes exactly one EXPIRE row for each listed transaction and none for any other |
| `LoyaltyExpiry.PassTakes` | loyalty/services.py:468-490 | a pass removes from each user the smaller of their listed total and their balance |
| `LoyaltyExpiry.SecondPassIsEmpty` | loyalty/managers/transaction.py:27-48 | right after an uninterrupted pass no transaction is expirable for the same cutoff |
| `LoyaltyExpiryRuns.InterleavedPass` | loyalty/services.py:453-490 | a pass whose batches are interleaved with any other writers marks each listed transaction exactly once and no other, and none of them is expirable again in any continuation, for any cutoff |
| `LoyaltyExpiryRuns.SecondPassFindsOnlyNew` | loyalty/managers/transaction.py:27-48 | after such a pass the same cutoff finds exactly the unmarked old positive EARN rows that were not in the ledger when the pass read its list |
| `LoyaltyExpiryRuns.RunKeepsSingleMarkersIff` | loyalty/services.py:453-490 | over any run with every other writer interleaved no transaction is expired twice if and only if each expiry list was unmarked and without repeats at its own lock |
| `LoyaltyExpiryRuns.RunMarkers` | loyalty/services.py:473-490 | over any run a transaction gains exactly one EXPIRE row for each time an expiry list names it |
| `LoyaltyExpiry.PassLedgerMarks` | loyalty/services.py:464-490 | one pass with arbitrary rows of other writers before each lock adds exactly one marker to each listed transaction of its users |
| `LoyaltyExpiry.PassLedgerTakes` | loyalty/services.py:470-489 | in such a pass each batch takes the smaller of the user's listed total and their balance under that lock |
| `LoyaltyExpiry.BatchKeepsSingleMarkers` | loyalty/services.py:453-490 | a batch leaves every transaction with at most one marker if and only if its list repeats nothing and names nothing already marked |
| `LoyaltyExpiry.OverlappingPassesExpireTwice` | loyalty/services.py:453-455 | two batches from lists read before either lock mark one transaction twice and take its points twice when the balance allows |
| `LoyaltyTierRuns.SerializedRunsKeepTiersRight` | loyalty/services.py:430-437 | in serialized runs every user with a ledger row has exactly the highest tier their XP qualifies for, and the next award announces only "up", the next reversal only "down" |
| `LoyaltyTierRuns.StepKeepsTierInv` | loyalty/signals.py:167-233 | each step keeps this and announces nothing but such a change |
| `LoyaltyTierRuns.TierRightAtEndIff` | loyalty/services.py:103-168 | over any run, however stale the snapshots, a user's tier is right at the end if and only if the last award or reversal that touched them left it right, or none did and it was right before |
| `LoyaltyTiers.AwardAgreesIff` | loyalty/services.py:129-168 | an award leaves the right tier if and only if its snapshot differs from the tier due after it, worked out from the order and the stored XP before the call, or the stored tier is already that one |
| `LoyaltyScenarios.StaleSnapshotLosesTier` | loyalty/services.py:103-168 | a run from empty tables (award, load the second order, reverse the first, award the second) after which a customer who qualifies for a tier has none |
| `LoyaltyTiers.RecalculateAgreesIff` | loyalty/services.py:431-437 | the same condition for the recalculation alone |
| `LoyaltyTiers.RecalculateAnnounces` | loyalty/signals.py:141-215 | a change is announced exactly when the stored tier changes, with the direction between the old and new stored tiers |
| `LoyaltyTiers.AwardMovesUp` | loyalty/services.py:156-168 | an award with a fresh snapshot leaves the right tier and announces at most one change, upwards |
| `LoyaltyTiers.ReversalMovesDown` | loyalty/services.py:271-277 | a reversal leaves the right tier and announces at most one change, downwards |
| `LoyaltyTiers.ReversalSettlesTier` | loyalty/services.py:200-277 | a reversal leaves the right tier whatever the stored tier was before |
| `LoyaltyTiers.LevelReached` | loyalty/services.py:388-396 | level L is reached exactly from (L - 1) times XP-per-level on |
| `LoyaltyTiers.TierMonotone` | loyalty/services.py:399-402 | more XP never means a lower tier |
| `LoyaltyTiers.PointsToNextTierExact` | loyalty/services.py:405-428 | the reported distance is positive, leads to exactly the next tier, and is the least that reaches its level |
| `LoyaltyTiers.NextTierReachable` | loyalty/services.py:413-421 | some amount of XP reaches the next tier's level if and only if XP-per-level is positive, and then the reported distance does |
| `LoyaltyTiers.ZeroPerLevelPromisesInVain` | loyalty/services.py:393-421 | a concrete setting that reports 1000 points to a tier no XP ever reaches |
| `LoyaltyData.TierForLevel` | loyalty/managers/tier.py:15-20 | the highest tier whose required level does not exceed the level, none exactly when there is no such tier |
| `LoyaltyData.NextTier` | loyalty/managers/tier.py:23-33 | the lowest tier strictly above the given one |
| `LoyaltyPoints.SplittingCosts` | loyalty/services.py:57-87 | k order lines of one product are awarded at most what one line with the whole quantity would be, and at least that less k - 1 |
| `LoyaltyPoints.MergeTwoLines` | loyalty/services.py:74-87 | two lines merged are worth the same or one point more |
| `LoyaltyPoints.BasesOrdered` | loyalty/services.py:34-55 | under the four price bases, counting a discount never raises an item's points, counting VAT never lowers them, and the final price lies between |
| `LoyaltyPoints.TierNeverCosts` | loyalty/services.py:81-87 | a tier multiplier never lowers an item's points, and makes no difference up to one or when the setting is off |
| `LoyaltyPoints.NonNegativeCatalogue` | loyalty/services.py:34-87 | non-negative price basis, factor and coefficient give non-negative points |
| `LoyaltyAnswers.AwardPays` | loyalty/services.py:33-170 | an award writes one EARN row for each item: the item's own points and the greatest integer not above price (by the configured basis) times factor, coefficient, quantity and the snapshot tier's multiplier where it applies; the user's XP grows by the sum, which is the answer |
| `LoyaltyAnswers.PaysOnce` | loyalty/services.py:58-87 | this determines the points of an item |
| `LoyaltyAnswers.AwardRefused` | loyalty/services.py:97-127 | a disabled system, an unknown or guest order and an order already earned change nothing and answer zero |
| `LoyaltyAnswers.RedeemGrantedIff` | loyalty/services.py:301-361 | a redemption is granted if and only if the system is on, the amount is positive and within the balance, the currency is EUR or USD, the order has no redemption, the currency's ratio is not zero and the discount is within the maximum |
| `LoyaltyAnswers.RedeemGranted` | loyalty/services.py:345-380 | the discount times that currency's ratio is the amount; one REDEEM row is written, and the receipt on the order if there is one |
| `LoyaltyAnswers.RedeemRefused` | loyalty/services.py:301-361 | which error each refusal answers, in the order of the checks, with nothing changed |
| `LoyaltyAnswers.BonusPaidExactly` | loyalty/services.py:520-552 | the bonus row is written exactly when the setting is on and the user has no EARN row for anything but this order |
| `LoyaltyAnswers.BalanceAddsUp` | loyalty/managers/transaction.py:16-19 | the balance starts at zero and each row of the user, of whatever kind, moves it by its points |
| `LoyaltyAnswers.TierDue` | loyalty/services.py:387-402 | the tier due is the highest whose XP threshold is reached, none exactly when none is; with a non-positive XP-per-level only tiers of the first level are open |
| `LoyaltyAnswers.NoDistanceIff` | loyalty/services.py:409-421 | the summary reports no distance exactly when every tier is open |
| `LoyaltyAnswers.PassExpiresExactly` | loyalty/managers/transaction.py:44-48 | a pass marks exactly the positive EARN rows older than the configured days that no EXPIRE row names yet, each once, whatever other writers append in between |
| `LoyaltyService.LoyaltyStore.AwardOrderPoints` | loyalty/services.py:91-170 | the tables and the total after an award, with the idempotency check and the pre-lock snapshot |
| `LoyaltyService.LoyaltyStore.BuildEarnRows` | loyalty/services.py:134-151 | one EARN row for each item, with the total |
| `LoyaltyService.LoyaltyStore.ReverseOrderPoints` | loyalty/services.py:174-279 | the tables and the total after a reversal |
| `LoyaltyService.LoyaltyStore.UndoOrder` | loyalty/services.py:232-274 | restore, clamped removal and XP of a reversal |
| `LoyaltyService.LoyaltyStore.ReverseEarned` | loyalty/services.py:245-269 | the rows the clamping loop appends and the total it counts |
| `LoyaltyService.LoyaltyStore.RedeemPoints` | loyalty/services.py:283-380 | the tables and the discount, or the first failing check with the tables unchanged |
| `LoyaltyService.LoyaltyStore.RecalculateTier` | loyalty/services.py:431-437 | the stored tier and the announcement after a recalculation |
| `LoyaltyService.LoyaltyStore.CheckNewCustomerBonus` | loyalty/services.py:513-552 | the tables and the points of the bonus section |
| `LoyaltyService.LoyaltyStore.GetBalance` | loyalty/managers/transaction.py:16-19 | the sum of the user's rows |
| `LoyaltyService.LoyaltyStore.ExpireUser` | loyalty/services.py:470-490 | one user's batch under the lock, and its row count |
| `LoyaltyService.LoyaltyStore.GroupByUser` | loyalty/services.py:464-466 | every listed id in its user's group, in list order, each user once |
| `LoyaltyService.LoyaltyStore.ProcessExpiration` | loyalty/services.py:440-492 | with other writers committing before each user's lock, the pass takes every listed user once, writes exactly their batches and returns the number of rows written, the length of the list; uninterrupted it is the pass of the lemmas above; nothing when expiration is off |
| `SearchSync.DrainedIndexIsExact` | meili/apps.py:125-151 | for every run from empty, with instances in memory outdated or losing their key and removals refused at will: once the bag has drained the index is exactly the qualifying rows if and only if no indexed row was deleted through an instance that is hidden in memory or without its key at the commit, and no row's last removal was refused without a later save or delete |
| `SearchSync.EveryKeyAgreesOrWaits` | meili/tasks.py:73-146 | at every moment of a run without such a delete each key whose removal was not refused for good agrees or has a waiting task that will repair it |
| `SearchSync.RepairWorks` | meili/tasks.py:73-198 | running that task, an index or a delete task, makes the key agree and changes no other key |
| `SearchSync.StepKeepsInvIff` | meili/tasks.py:91-108 | one step breaks the per-key invariant exactly by such a delete or by the last removal task of an indexed hidden row being refused |
| `SearchSync.StepOnKey` | meili/apps.py:31-177 | each step keeps every key in order or lost; a document is lost for ever exactly by such a delete, and stuck exactly from its last refused removal until its row is saved or deleted |
| `SearchSync.DirtyDeleteStaysSearchable` | meili/apps.py:125-130 | a concrete run that drains the bag and leaves a deleted row searchable: it was hidden and its removal still waited |
| `SearchSync.StaleInstanceStaysSearchable` | meili/apps.py:127-130 | the same for a published row deleted through an instance that was loaded while it was hidden |
| `SearchSync.LostKeyStaysSearchable` | meili/apps.py:143-150 | the same for a searchable row deleted in a larger transaction: the task names no document |
| `SearchSync.RefusedRemovalStaysSearchable` | meili/tasks.py:98-108 | a concrete run that drains the bag and leaves a hidden row searchable after a refused removal |
| `SearchSync.TasksCommuteIff` | meili/tasks.py:73-198 | two tasks commute on every index if and only if neither deletes the document the other writes |
| `SearchSync.TaskIdempotent` | meili/tasks.py:73-198 | a task delivered twice in a row does what it does once |
| `SearchSync.DrainOrderIrrelevant` | meili/tasks.py:73-198 | in a sound state every order of working off the bag ends with the same index, the qualifying rows |
| `SearchSync.SearchSystem.SaveRow` | meili/apps.py:50-63 | a save stores the row and enqueues one index task |
| `SearchSync.SearchSystem.DeleteRow` | meili/apps.py:125-151 | a delete enqueues the task for its document exactly when the instance in memory qualifies and still has its key at the commit; a lost key leaves a task that names no document |
| `SearchSync.SearchSystem.IndexDocument` | meili/tasks.py:54-150 | the index and the status after an index task: skipped, removed or indexed |
| `SearchSync.SearchSystem.Deliver` | meili/tasks.py:54-204 | one delivery of a waiting task, which may remain for another |
| `SearchReindex.SearchEngine.ReindexModel` | meili/tasks.py:236-353 | only a negative batch size is refused, and a missing or zero one means 1000; when the engine takes everything, the index holds the qualifying documents over the old (or cleared) one; the counts cover every row once, no upload exceeds a batch; otherwise the number of refused uploads is reported and each key has its old or its new document |
| `SearchReindex.SearchEngine.StreamRows` | meili/tasks.py:302-324 | the batching loop keeps index and counts equal to what a single upload of the rows so far would give |
| `SearchReindex.SearchEngine.SendBatch` | meili/tasks.py:266-295 | one batch extends that by its rows |
| `SearchReindex.SearchEngine.BuildDocuments` | meili/tasks.py:268-290 | the documents of the qualifying rows in order, and the number of the others |
| `SearchReindex.UploadDocuments` | meili/tasks.py:292-295 | uploading the documents of an enumerated table overrides exactly the qualifying keys |
| `SearchReindex.ReindexExactIff` | meili/tasks.py:244-250 | a successful reindex is exact if and only if no stale key was in the index when it started, so always after clearing |
| `SortableOrder.EveryRunIsDense` | core/models.py:51-149 | in every run of create, move up, move down and delete the non-null sort orders are exactly 0 to k - 1, each once |
| `SortableOrder.StepKeepsDense` | core/models.py:51-149 | each operation keeps this, whatever the default ordering is |
| `SortableOrder.NumbersIsDense` | core/models.py:51-66 | a column that stands for a list has no repeats and no gaps |
| `SortableOrder.RunsFromEmptyNumberRows` | core/models.py:51-149 | every run from an empty scope ends with no number twice and exactly the numbers below some k |
| `SortableOrder.DownThenUpRestoresIff` | core/models.py:95-131 | moving down and then up, each with its own query result, restores the scope if and only if the row has no number, the row that moving down picks is its neighbour, or it is the only numbered row |
| `SortableOrder.SortedDownThenUpRestoresIff` | core/models.py:95-131 | when rows are listed by sort order this holds for every row except the last of several |
| `SortableOrder.DownThenUpScrambles` | core/models.py:121-130 | three concrete rows in another default ordering that end in a different order |
| `SortableOrder.SortedListingFindsNeighbour` | core/models.py:121-124 | when rows are ordered by sort order the successor is the neighbour |
| `SortableOrder.MaxOrderFound` | core/models.py:82-93 | the maximum is one of the non-null numbers and bounds them all, none exactly when there are none |
| `SortableOrder.DeleteNumbers` | core/models.py:134-149 | closing the gap leaves the list without the row, in the same relative order |
| `SortableOrder.SwapNumbers` | core/models.py:105-130 | swapping two numbers exchanges two places of the list and nothing else |
| `SortableOrder.SortableScope.Create` | core/models.py:51-68 | a new row goes to the end |
| `SortableOrder.SortableScope.MoveUp` | core/models.py:95-113 | the row changes places with its predecessor, if it has one |
| `SortableOrder.SortableScope.MoveDown` | core/models.py:115-131 | the row changes places with a later one, if there is one |
| `SortableOrder.SortableScope.DeleteRow` | core/models.py:133-149 | the row leaves the list |
| `CartMerge.MergedQuantities` | cart/services.py:152-183 | product by product: a source-only line moves, a target-only line stays, two lines become their sum capped at positive stock; no other cart changes |
| `CartMerge.MergeLosesOnlyExcess` | cart/services.py:163-183 | the total quantity after the merge is the two totals less exactly what the caps take away |
| `CartMerge.MergedKeepsOneLine` | cart/models/item.py:47-51 | the merge keeps one line per product and leaves no line in the source |
| `CartMerge.MergeShrinksIff` | cart/services.py:171-176 | a merge lowers a line the user already had if and only if that line was above a positive stock |
| `CartMerge.LoginShrinksLine` | cart/services.py:171-176 | a concrete login that takes a line from five pieces to three |
| `CartMerge.AddedQuantities` | cart/services.py:245-263 | adding raises one product's quantity in one cart, changes no other and keeps one line per product |
| `CartMerge.AddBeforeOrAfterMergeIff` | cart/services.py:138-263 | adding an item before the login or after it comes to the same quantity if and only if no cap can apply: the merge caps, adding does not |
| `CartMerge.AddingAfterLoginExceedsStock` | cart/services.py:171-254 | a concrete cart with three pieces when the item is added before the login and four when after |
| `CartMerge.CombinedExtendsPart` | cart/services.py:163-179 | one combining round extends the merged part by its line, whatever was processed before |
| `CartMerge.MovedExtendsPart` | cart/services.py:180-183 | so does one moving round |
| `CartService.CartService.MergeCarts` | cart/services.py:138-201 | the tables after a merge; moved plus combined is the number of source lines, combined counts those that met a line, capped those that the cap cut |
| `CartService.CartService.MergeLines` | cart/services.py:152-183 | the loop ends with the merged lines for every order of processing, with those counts |
| `CartService.CartService.MergeLine` | cart/services.py:157-183 | one round, and whether it combined or was capped |
| `CartService.CartService.CombineLine` | cart/services.py:171-179 | two lines become one with their sum, cut exactly when it exceeds a positive stock |
| `CartService.CartService.GetExistingCart` | cart/services.py:89-110 | the user's own cart with the named guest cart merged in, or the guest cart itself for an anonymous caller |
| `CartService.CartService.GetOrCreateCart` | cart/services.py:112-135 | for every caller: a user's cart, created if needed, with the guest cart they name merged in when it exists; for an anonymous caller the named guest cart or a new one |
| `CartService.CartService.FindOrCreateUserCart` | cart/services.py:116 | the user's cart, created exactly when there is none |
| `CartService.ObtainedForUser` | cart/services.py:112-126 | get-or-create returns the cart the user owns, else the new one, and takes over the guest cart they name |
| `CartService.ObtainedForGuest` | cart/services.py:127-135 | an anonymous caller gets the guest cart they name with nothing changed, else a new guest cart |
| `CartService.CountsMean` | cart/services.py:148-183 | the logged counts: source lines whose product the target has, and those whose sum exceeds a positive stock |
| `CartService.ObtainedIsOwn` | cart/services.py:112-135 | the cart returned is the caller's own, or a guest cart for an anonymous caller |
| `CartService.ObtainedAgainIff` | cart/services.py:112-135 | asking again returns the same cart and changes nothing if and only if the caller is a user or names an existing guest cart |
| `CartService.CartService.Initialize` | cart/services.py:73-83 | an anonymous caller has the guest cart whose uuid they name, or none, and nothing changes; a user has the cart they own, and without one a new cart exactly when they name an existing guest cart; a guest cart that a user names is taken over, product by product, and gone; no other cart changes |
| `CartService.CartService.CreateCartItem` | cart/services.py:245-263 | the lines after an item was added to the current cart, or an error and no change when there is none |
| `CartService.SetUpGivesOwnCart` | cart/services.py:73-110 | a user always gets a cart of their own, an anonymous caller a guest cart or none and unchanged tables |
| `CartService.SetUpIdempotent` | cart/services.py:73-201 | a repeated request changes nothing more: guest lines are never added twice |
| `CartService.MergedTablesSound` | cart/models/cart.py:38-40 | the merge keeps the uniqueness constraints and leaves no line without a cart |
| `PrefixClearing.CacheClient.ClearByPrefixes` | core/caches.py:160-187 | for every batch size and all scans that cover the keys there when they start, even ones that repeat keys: a key remains exactly when it neither starts with a prefix nor has one behind a colon, and the counts are those of the prefixes in turn |
| `PrefixClearing.CacheClient.ClearPrefix` | core/caches.py:169-184 | both layouts of one prefix, each key counted once although both patterns may match it |
| `PrefixClearing.CacheClient.ClearPattern` | core/caches.py:171-182 | one scan in batches removes exactly the matching keys and counts them |
| `PrefixClearing.MatchesIff` | core/caches.py:171 | a prefix matches the keys that start with it and those where it follows a colon |
| `PrefixClearing.CountsAddUp` | core/caches.py:163-187 | with distinct prefixes, overlapping or not, the reported counts sum to the number of removed keys |
| `PrefixClearing.CountOf` | core/caches.py:163-184 | the count of a prefix is the number of keys it matches that no prefix before its last occurrence does |
| `PrefixClearing.RepeatedPrefixReportsZero` | core/caches.py:184 | a prefix listed twice reports zero |
| `PrefixClearing.CountsAddUpIff` | core/caches.py:163-187 | for any prefixes the reported counts sum to the number of removed keys if and only if no prefix that removes a key is listed again |
| `PrefixClearing.RemovedAccounts` | core/caches.py:163-187 | the removed keys are the reported counts plus the overwritten ones |
| `PrefixClearing.RemovedBeyondDescriptionIff` | core/caches.py:135-171 | a key that starts with no prefix is removed if and only if a prefix follows one of its colons |
| `PrefixClearing.ForeignKeyRemoved` | core/caches.py:164-171 | a concrete key of another service that is removed |
| `EventDispatch.RunAccounts` | meta_capi/tasks.py:81-144 | over any attempts, failures, retries and losses: the successful sends of an event are its SENT row plus those that were never recorded |
| `EventDispatch.SuccessfulExactly` | meta_capi/tasks.py:81-144 | exactly the calls whose own send succeeds, with no recorded send of the event before them, go out |
| `EventDispatch.RecordRightIff` | meta_capi/tasks.py:132-144 | the log says exactly how often an event went out if and only if no worker was lost after sending it |
| `EventDispatch.AcceptedAtMostOnceIff` | meta_capi/tasks.py:95-144 | an event goes out at most once if and only if no send of it succeeds after an unrecorded successful send with no recorded one in between |
| `EventDispatch.LostWorkerSendsTwice` | meta_capi/tasks.py:116-144 | a worker lost after its send, and the retry: two successful sends of one event |
| `EventDispatch.SentIsAbsorbing` | meta_capi/tasks.py:95-103 | once SENT, no later attempt changes the row or sends again |
| `EventDispatch.OtherEventsApart` | meta_capi/tasks.py:105-114 | attempts on other events do not touch this one |
| `EventDispatch.Dispatcher.Dispatch` | meta_capi/tasks.py:81-144 | the row after one attempt: SENT with trace and count, FAILED with the message cut to 1000 characters, or PENDING when the worker is lost; other rows and a SENT row are left alone; only a transient failure is raised for a retry |
| `EventDispatch.PurchaseTakenAtMostOnce` | meta_capi/tasks.py:157-193 | however often and by whichever signal the purchase of one order is scheduled and retried, it is accepted at most once while its stored id stays the same |
| `EventDispatch.PurchaseTakenOnceIff` | meta_capi/services.py:336-357 | over every schedule without losses at most one purchase goes out if and only if all recorded sends read the same purchase id |
| `EventDispatch.PurchaseTakenOnceWithLosses` | meta_capi/tasks.py:157-193 | with losses, if and only if no two of the calls that the schedule makes succeed |
| `EventDispatch.ConsentIff` | meta_capi/services.py:104-113 | consent is granted exactly when metadata["meta"]["consent"]["ads"] counts as true |
| `EventDispatch.NothingWithoutConsent` | meta_capi/tasks.py:165-184 | purchase tasks without the switch, the order or the consent leave the log alone and send nothing |
| `EventDispatch.ConsentedIsAttempted` | meta_capi/tasks.py:186-193 | with all three a task makes one attempt for that order's purchase |
| `EventDispatch.PurchaseIdIs` | meta_capi/services.py:87-101 | the purchase id is the stored one when it counts as true, and else follows the order's uuid |
| `EventDispatch.DifferentIdsNeedChange` | meta_capi/services.py:87-101 | two readings of one order differ in the id only if its stored id changed |
| `EventDispatch.ChangedIdSendsTwice` | meta_capi/services.py:344-349 | a concrete order whose purchase goes out twice because an id was stored in between |
| `EventDispatch.FallbackIdsDistinct` | meta_capi/services.py:344-349 | fallback ids of two orders are equal exactly when their uuids are |
| `FilterPrinter.EscapeIsOnePass` | meili/querysets.py:261 | the two chained replacements are one pass of escaping |
| `FilterPrinter.SwappedReplacementsDiffer` | meili/querysets.py:314 | in the other order they would end the literal early |
| `FilterPrinter.ExactFilterReadsBack` | meili/querysets.py:260-262 | a reader of the quoted literal gets back exactly the value and the text after the filter |
| `FilterPrinter.ContainsFilterReadsBack` | meili/querysets.py:307-315 | the same for CONTAINS |
| `FilterPrinter.ExactFilterInjective` | meili/querysets.py:250-264 | different texts print different filters, the empty text included |
| `FilterPrinter.DispatchBySuffix` | meili/querysets.py:226-248 | every lookup on a field selects that field and the first operator whose marker occurs behind it, chained lookups and underscores included |
| `FilterPrinter.LookupSplits` | meili/querysets.py:227 | every lookup with a double underscore is a plain field, the underscores and a suffix |
| `FilterPrinter.MarkedByPrefix` | meili/querysets.py:229-248 | behind a field, without a further double underscore, an operator is found exactly when its name starts the suffix |
| `FilterPrinter.EveryOperatorReached` | meili/querysets.py:217-224 | each documented lookup reaches its own branch |
| `FilterPrinter.DroppedIff` | meili/querysets.py:226-248 | a lookup adds no filter and raises no error if and only if no operator marker occurs behind its field |
| `FilterPrinter.NegatedLookupDropped` | meili/querysets.py:226-248 | `category__not_in`, for example, filters nothing |
| `FilterPrinter.OperatorFilter` | meili/querysets.py:226-248 | the documented lookup of an operator prints that operator's filter on the field |
| `FilterPrinter.BareLookup` | meili/querysets.py:229-230 | a lookup without a double underscore compares for equality |
| `FilterPrinter.FirstInOrder` | meili/querysets.py:229-248 | of several operators found, the first in the order of the branches is taken |
| `FilterPrinter.EqualityPrints` | meili/querysets.py:250-264 | what equality prints for every kind of value: IS EMPTY, IS NULL, quoted text, or the value itself |
| `FilterPrinter.ComparisonsPrint` | meili/querysets.py:266-272 | the four comparisons print their own sign, and take numbers and booleans only |
| `FilterPrinter.TestsPrint` | meili/querysets.py:293-305 | EXISTS and IS NULL print NOT exactly for false, and take booleans only |
| `FilterPrinter.MembershipPrints` | meili/querysets.py:274-291 | IN takes lists; a range takes ranges and lists, of which it needs two values |
| `FilterPrinter.SubstringPrints` | meili/querysets.py:307-315 | CONTAINS prints the escaped text in double quotes, and takes text only |
| `FilterPrinter.QueryState.ApplyFieldFilters` | meili/querysets.py:213-248 | filters are appended in order up to the first error, and what was appended stays |
| `MessageSanitizer.SanitizeNormal` | contact/utils.py:53-60 | every result has no non-empty tag, no six equal characters in a row, only single blanks as whitespace, is trimmed and no longer than the input |
| `MessageSanitizer.SanitizeFixesExactlyNormal` | contact/utils.py:53-60 | the texts left unchanged are exactly those in that form |
| `MessageSanitizer.SanitizeIdempotent` | contact/utils.py:53-60 | sanitizing twice is sanitizing once |
| `MessageSanitizer.RemoveTagsEquation` | contact/utils.py:54 | a tag disappears with its body and the text before it stays |
| `MessageSanitizer.EmptyTagStays` | contact/utils.py:54 | brackets without a body stay |
| `MessageSanitizer.UnclosedTagStays` | contact/utils.py:54 | an opening bracket that is never closed stays |
| `MessageSanitizer.RemoveTagsSafe` | contact/utils.py:54 | the first rewrite leaves no tag, not even one put together from the rest |
| `MessageSanitizer.CollapseRunsEquation` | contact/utils.py:56 | a maximal run below six stays, a longer one becomes three, newlines always stay |
| `MessageSanitizer.CollapseRunsKeepsSafe` | contact/utils.py:56 | the second rewrite brings back no tag |
| `MessageSanitizer.CollapseSpacesEquation` | contact/utils.py:58 | a stretch of whitespace becomes one blank, any other character stays |
| `MessageSanitizer.TrailingSpacesEquation` | contact/utils.py:58 | whitespace at the end becomes one blank |
| `MessageSanitizer.AsciiWhitespace` | contact/utils.py:58 | which ASCII characters count as whitespace |
| `MessageSanitizer.CollapseSpacesShort` | contact/utils.py:58 | the third rewrite brings back no long run, and ends the newline runs that the second left |
| `MessageSanitizer.CollapseSpacesKeepsSafe` | contact/utils.py:58 | nor does it bring back a tag |
| `MessageSanitizer.StripCuts` | contact/utils.py:60 | the trim cuts whitespace off both ends and nothing else |

## Left out

- EveryRunKeepsTheBooks: assumes that item points and the bonus are not negative; the settings and the catalogue do not enforce it.
- SerializedRunsKeepTiersRight: assumes fixed tiers with distinct required levels, fixed settings for award and reversal, and fresh award snapshots; without the last it is false, by AwardAgreesIff.
- ProcessExpiration: other writers appear in the method as the ledger rows they append before each lock; in LoyaltyRuns they are the full steps.
- PurchaseTakenAtMostOnce: assumes that no worker is lost between a successful send and its save; PurchaseTakenOnceWithLosses covers losses. A send that timed out counts as failed, although the remote side may have taken it.
- Loyalty transactions inside one locked section are atomic; users and orders are not deleted; an order keeps its user and items; guest orders have no user. Prices, ratios and coefficients are exact reals. A tier is compared as a row, not by its id.
- Manual point adjustments in the admin (`user/admin.py`), potential points of a product, the tier-level cache and notifications.
- Search: the synchronous, DEBUG and OFFLINE paths; a task that fails raises and is retried, so only its successful execution is a step; one task reads its row and writes the index in one step; keys are not reused. A committed callback always enqueues its task. Writes that bypass the save and delete signals (queryset updates, bulk inserts, raw SQL) and changes of other rows that a document or a filter depends on are not steps. Between a signal and its commit an instance keeps its key, unless it is deleted; one that is given a new key in between is not described.
- Reindexing: progress reporting, geo data and concurrent writers. The documents are a text and a key.
- Ordering: models with explicit keys, such as countries, and instances with an outdated number in memory.
- Carts: the view of the current items and the activity timestamp; changing and removing single lines. A line always has a product.
- Cache: prefixes contain no glob metacharacters, and no other client changes keys during the scans; the default list of prefixes is an argument.
- Dispatch: overlapping attempts on one event, Refund and InitiateCheckout events (whose ids may be fresh on every attempt), and the contents of the payload.
- Filters: tuples and other Python values, and the meaning the engine gives to IN and TO.
- Messages: spam scoring and contact validation.
