# Verified model of the shop-floor planning system's repairs, orderings and migrations

This project models the parts of the planning system that are hardest to get right by reading: the
repair of the "completed operations" axis of the stock ledger, multi-key sorting and the paging built
on it, three data migrations written as state transformers, the repair of stored routes, two graph
walks, the names of export worksheets, the metre/millimetre domain module, and the catalogue sync.
`dafny verify dfyconfig.toml` checks all of it.

Tables are sequences or maps of rows. A SQL statement or a Python or JavaScript loop is a method whose
contract ties the new state to the old one; what the repository promises about it is proved about the
specification functions those contracts name. Quantities and lengths are exact numbers.

| file | models |
|---|---|
| `RouteAxes.dfy` | which stage of a route a stored set of operations meant |
| `AxisRepair.dfy` | the three resolution passes over the ledger, the guard and the write-back |
| `SortParsing.dfy`, `Sorting.dfy`, `StableSorting.dfy` | the `sort` parameter; stable passes as one lexicographic order |
| `Backups.dfy` | the backup list: filter, sort, page |
| `Worksheets.dfy` | fresh worksheet titles |
| `HangerKeys.dfy`, `HangerMigration.dfy` | migration 067: re-keying norm dictionaries, report, downgrade |
| `BalanceCollapse.dfy` | migration 074: the three downgrade statements and the backfill |
| `HangerCapacity.dfy`, `HangerModeBackfill.dfy` | migration 048: the capacity formula and the four statements |
| `RouteStages.dfy`, `RouteRepair.dfy` | grouping steps into stages; rewriting a stored route in place |
| `DevPorts.dfy` | descendants of a dead process and the rows they add |
| `MigrationHeads.dfy` | the single-head check of the migration graph |
| `Metres.dfy`, `CutLayout.dfy` | printing and parsing lengths; the cut layout |
| `CatalogueSync.dfy` | drift between the catalogue and the profiles, and applying it |
| `Text.dfy`, `Finite.dfy`, `Values.dfy` | string operations, counting arguments and wrapped values used by several of them |

## What the proofs found

- The axis repair is documented as safe to run again. That holds exactly when every compensating receipt
  without an original send that an earlier row compensates already stores what the chain of sources behind
  it leads to (`AxisRepair.IdempotentIff`, a condition on the loaded ledger);
  `ForwardReversalNeedsTwoRuns` is a ledger that needs two runs. When reversals point back one run is
  enough, and the write path sees to that: it refuses a reversal whose source does not exist yet
  (`backend/app/stock/services.py:894-898`), so a forward ledger does not come from it.
- The preferred stage of `match` decides what is written in one case only: a row that stores the empty set
  and prefers a sequence before the first stage of its route, on a route whose first stage had no
  operations under the old reading and has some now, and on which all stages with an empty old set stand
  for one set (`RouteAxes.PreferenceMattersIff`, `PreferenceMatters`). A preferred stage of the route
  itself never matters (`OwnStageIsIrrelevant`).
- A worksheet title exceeds 31 characters exactly when the bare title and all of its numbered candidates
  with counters below 10^30 are taken (`Worksheets.TitleFitsIff`). That takes 10^30 titles: it bounds the
  loop, and is not something an export can meet.
- The capacity formula of 048 is the exact optimum for positive length keys only; the key pattern also
  admits negative keys, for which the result is negative, and zero, for which the division aborts the
  migration (`HangerCapacity.OptimumIffPositiveLength`, `HangerModeBackfill.Products.Upgrade`).
- The route repair is documented to find nothing on a repaired route. It does so exactly when the rebuilt
  signature is not empty (`RouteRepair.SecondRepair`); a route without stages whose sections have no
  operations is repaired on every run (`EmptyRouteIsRepairedAgain`).
- A single head covers every revision exactly when every cycle can be left, that is, leads to a revision
  that does not lead back: a detached cycle is accepted unnoticed (`MigrationHeads.HeadCoversAllIff`,
  `DetachedCyclePasses`).
- Swapping the last two statements of the 074 downgrade keeps the totals exactly when every row with the
  least id of its group already holds the group's total (`BalanceCollapse.DedupBeforeSumKeepsIff`).
- A norm of zero in the catalogue is written again by every sync, because it is read back as unknown; and
  lengths within a millimetre of each other may need a second sync (`CatalogueSync.NormRemainsIff`,
  `ZeroNormNeverSettles`, `CloseLengthsNeedTwoRuns`, `TwoRunsSettle`).

## Assumptions

- Stage sequences are positive and loaded in ascending order; ledger rows are ordered by id.
- `CompensationMirrorsSource` speaks of a compensation whose source stands earlier in the ledger.
- Key values in a sort are totally ordered; file names are unique within the backup list.
- The key written for a normal length reads back as that length (067), and product ids are distinct.
- The signature of no stages is the empty string, and a rebuild without a name does not reach the route
  repair, since its caller passes it over (`backend/scripts/repair_route_operations.py:289`).
- Profile ids of the synchronised table are unique.

## Model

| member | source | states |
|---|---|---|
| RouteAxes.RouteAxis.ComputeCumulative | backend/scripts/repair_completed_operations_axis.py:73-79 | the loop that stops at the first stage beyond the limit computes the cumulative set |
| RouteAxes.RouteAxis.Match | backend/scripts/repair_completed_operations_axis.py:85-101 | the hits are exactly the non-zero stages, preferred or of the route, whose old or new cumulative set is the stored one |
| RouteAxes.CumulativeIsUnion | backend/scripts/repair_completed_operations_axis.py:73-79 | the cumulative set is the union of the operations of every stage up to the limit, although the loop breaks early |
| RouteAxes.CumulativeGrows | backend/scripts/repair_completed_operations_axis.py:73-79 | the cumulative set is monotone in the stage |
| RouteAxes.PreviousIsNearest | backend/scripts/repair_completed_operations_axis.py:81-83 | the previous stage is the greatest of the earlier ones |
| RouteAxes.PreferenceIsIrrelevant | backend/scripts/repair_completed_operations_axis.py:85-104 | with a preferred stage the written value is the one without it, except that a row storing the empty set and preferring a sequence before the first stage keeps the empty set |
| RouteAxes.PreferenceMattersIff | backend/scripts/repair_completed_operations_axis.py:85-104 | the preferred stage changes the written value exactly for a row storing the empty set that prefers a sequence before the first stage, on a route whose first stage had no operations and has some now, and whose stages with an empty old set all stand for one set |
| RouteAxes.OwnStageIsIrrelevant | backend/scripts/repair_completed_operations_axis.py:85-104 | a preferred stage of the route itself never changes the written value |
| RouteAxes.PreferenceMatters | backend/scripts/repair_completed_operations_axis.py:94-104 | a route and a row for which the preference does change the value |
| RouteAxes.RewrittenOnlyWhenUnanimous | backend/scripts/repair_completed_operations_axis.py:258-269 | a row changes only if a stage fits, and then every stage that fits stands for the one set written; unanimous stages do decide |
| RouteAxes.CumulativeIsUpTo | backend/scripts/repair_completed_operations_axis.py:73-79 | the cumulative set is the set of operations loaded for the stages up to the limit |
| RouteAxes.ExactIsFitting | backend/scripts/repair_completed_operations_axis.py:258-269 | in terms of the loaded stages: what is written is the one set that all fitting stages stand for, and what is stored if none fits or two disagree; a caller's stage before the route keeps a stored empty set |
| RouteAxes.UnclearIff | backend/scripts/repair_completed_operations_axis.py:262-268 | when a row counts as ambiguous, in terms of the loaded stages |
| RouteAxes.ExactIsIdempotent | backend/scripts/repair_completed_operations_axis.py:85-101 | resolving a resolved value gives the same value, whether it is found again or has become ambiguous |
| AxisRepair.PlainPass | backend/scripts/repair_completed_operations_axis.py:273-284 | the first pass resolves exactly the rows that are neither receipts nor compensations, and lists the ambiguous ones |
| AxisRepair.SendsPass | backend/scripts/repair_completed_operations_axis.py:286-299 | the dictionary of sends holds original sends only, by transfer |
| AxisRepair.ReceiptPass | backend/scripts/repair_completed_operations_axis.py:300-307 | receipts take the send of their transfer or keep what they store |
| AxisRepair.CompensationPass | backend/scripts/repair_completed_operations_axis.py:309-316 | compensations take what their source holds at that moment, in ledger order |
| AxisRepair.FinalValue | backend/scripts/repair_completed_operations_axis.py:271-316 | the value every kind of row ends with, through all three passes |
| AxisRepair.PlanRowIsFitted | backend/scripts/repair_completed_operations_axis.py:247-284 | a row of the plan ends with the one set that the fitting stages of its route stand for, and with what it stores if none fits or two disagree |
| AxisRepair.OtherRowsStay | backend/scripts/repair_completed_operations_axis.py:208-216 | rows of the four manual kinds and imported rows keep what they store |
| AxisRepair.WithoutRouteStays | backend/scripts/repair_completed_operations_axis.py:249-257 | so do rows without an owner or without a loaded route |
| AxisRepair.SourceValue | backend/scripts/repair_completed_operations_axis.py:309-316 | a compensation reads the final value of an earlier source, the value before the pass of a later one, and nothing if there is no such row |
| AxisRepair.ReceiptMirrorsSend | backend/scripts/repair_completed_operations_axis.py:286-307 | a receipt that is no compensation ends with the operations of the last original send of its transfer, or unchanged without one |
| AxisRepair.CompensationMirrorsSource | backend/scripts/repair_completed_operations_axis.py:309-316 | a compensation whose source precedes it ends with its source's operations, through chains of any length |
| AxisRepair.CompensationsDoNotLeak | backend/scripts/repair_completed_operations_axis.py:286-299 | what compensations store, those of cancelled transfers included, reaches no row that is not itself a compensation |
| AxisRepair.ResolvedIsChained | backend/scripts/repair_completed_operations_axis.py:271-316 | the three passes give every row the value found by following its chain of sources in the loaded ledger |
| AxisRepair.IdempotentIff | backend/scripts/repair_completed_operations_axis.py:14-38 | the exact condition on the loaded ledger under which the repair finds nothing to change on its own output |
| AxisRepair.IdempotentWhenReversalsPointBack | backend/scripts/repair_completed_operations_axis.py:14-38 | with reversals that point back one run reaches a fixpoint, for every ledger and every set of routes |
| AxisRepair.ForwardReversalNeedsTwoRuns | backend/scripts/repair_completed_operations_axis.py:309-316 | a ledger with a forward reversal on which a second run still changes a row |
| AxisRepair.AmbiguousAt | backend/scripts/repair_completed_operations_axis.py:262-268 | the ambiguous rows listed are exactly those whose matching stages disagree |
| AxisRepair.ReportedIff | backend/scripts/repair_completed_operations_axis.py:262-268 | the rows reported are those of the plan with two fitting stages that stand for different sets |
| AxisRepair.AmbiguousRowsStay | backend/scripts/repair_completed_operations_axis.py:262-268 | an ambiguous row is never rewritten |
| AxisRepair.CollectChanges | backend/scripts/repair_completed_operations_axis.py:318-365 | the changes are the rows whose set differs, none exactly when nothing is to change, and the guard fires exactly when a changed row gets an unknown code |
| AxisRepair.ChangesAre | backend/scripts/repair_completed_operations_axis.py:318-331 | a change is listed exactly for each row whose set differs, with the set before and the set after |
| AxisRepair.WriteBack | backend/scripts/repair_completed_operations_axis.py:381-385 | every row is assigned its resolved value |
| AxisRepair.RunRepair | backend/scripts/repair_completed_operations_axis.py:190-392 | exit code, changes, and rows: all written or none, none when the guard fires or without `--apply` |
| AxisRepair.WrittenIsRepaired | backend/scripts/repair_completed_operations_axis.py:381-385 | the rows written are the repaired ledger, and nothing else is |
| AxisRepair.NextRunListsNothingIff | backend/scripts/repair_completed_operations_axis.py:318-331 | loaded again, the written rows give an empty list of changes exactly under the condition of `IdempotentIff` |
| SortParsing.ParseSort | backend/app/core/sorting.py:48-75 | the clauses requested, each field once at its highest priority, the default for an empty parameter, or the first error |
| SortParsing.ParseParts | backend/app/core/sorting.py:59-75 | the loop over parts with `seen` and `clauses` gives distinct fields in the order they are named |
| SortParsing.PartWithoutOrder | backend/app/core/sorting.py:62-65 | a part without a colon sorts ascending |
| SortParsing.PartWithOrder | backend/app/core/sorting.py:62-73 | `field:order` is split at the last colon, with white space around both and the order in any case; any other order is refused |
| SortParsing.PartWithEmptyOrder | backend/app/core/sorting.py:65 | nothing behind the colon sorts ascending |
| SortParsing.PartWithoutField | backend/app/core/sorting.py:66-67 | nothing before the only colon, or nothing at all, is an empty field |
| SortParsing.AllClausesAre | backend/app/core/sorting.py:61-73 | all parts in order, or the error of the first bad one |
| SortParsing.RequestedIs | backend/app/core/sorting.py:56-57 | no parameter or a blank one asks for the default, any other is read part by part |
| SortParsing.KeptAreFirst | backend/app/core/sorting.py:70-73 | of clauses with one field exactly the first is kept |
| SortParsing.RequestedRoundTrip | backend/app/core/sorting.py:48-75 | clauses written as `field:order,field:order` and parsed come back |
| Sorting.SortItems | backend/app/core/sorting.py:112-149 | stable passes from the last clause to the first equal one stable sort by one lexicographic comparison, with the errors of an unknown field and of comparing a missing key |
| Sorting.SortItemsContract | backend/app/core/sorting.py:13-22 | the result is a permutation, ordered by that comparison, stable on ties |
| Sorting.NullsLastIsOnePass | backend/app/core/sorting.py:141-145 | sorting the present keys and appending the rest is one stable pass of an order with missing keys last in both directions |
| Sorting.FirstDifferenceDecides | backend/app/core/sorting.py:96-109 | the first clause on which two rows differ decides, in its own direction; the tiebreaker decides when none does |
| Sorting.RowsStandAsAsked | backend/app/core/sorting.py:112-149 | two rows of the result stand, at the first clause on which their keys differ, as its direction asks, a missing key last in both directions; without one, as the tiebreaker asks |
| Sorting.EqualRowsKeepOrder | backend/app/core/sorting.py:122-126 | rows equal in every key and in the tiebreaker keep the order they came in |
| Sorting.SortFailsIff | backend/app/core/sorting.py:128-147 | the first unknown field is the error; otherwise sorting fails exactly on two or more items of which one misses a key of a field that is not nulls-last |
| Sorting.RepeatedFieldsChangeNothing | backend/app/core/sorting.py:53-54 | keeping a repeated field, even in the opposite direction, gives the same list and the same errors |
| StableSorting.TwoPassesAreLex | backend/app/core/sorting.py:132-135 | a stable pass over a list sorted by a lesser order sorts by the lexicographic order of the two |
| StableSorting.StableSortUnique | backend/app/core/sorting.py:122-126 | a list has only one stable sorting |
| StableSorting.SortIgnoresOrder | backend/app/core/sorting.py:20-22 | without ties the sorted list depends only on the items, not on their order |
| Backups.ListBackups | backend/app/api/backups.py:413-460 | the page and the total are cut from the filtered, sorted list; a bad sort parameter is reported first |
| Backups.PageIs | backend/app/api/backups.py:459 | a page starts at its offset and holds `limit` items, or as many as are left |
| Backups.FilterPermutation | backend/app/api/backups.py:432-445 | filtering respects the items and ignores their order |
| Backups.DirectoryOrderIsIrrelevant | backend/app/api/backups.py:447-456 | with unique file names the sorted list does not depend on the order of the directory |
| Backups.PagesCoverEachOnce | backend/app/api/backups.py:458-460 | the pages at offsets 0, L, 2L, ... contain each matching backup exactly once, even if each request sees another directory order |
| Worksheets.CandidatesDiffer | backend/app/api/backups.py:550-553 | candidates for different counters differ |
| Worksheets.CandidateFitsIff | backend/app/api/backups.py:551-552 | a numbered title has at most 31 characters exactly when its counter is below 10^30 |
| Worksheets.TitleIs | backend/app/api/backups.py:545-547 | the title is the name without white space around it, letter by letter, the seven forbidden characters replaced, cut to 31 |
| Worksheets.BlankTitleIs | backend/app/api/backups.py:546 | a blank name becomes `table` |
| Worksheets.CandidateIs | backend/app/api/backups.py:551-552 | a numbered title is as much of the title as leaves room, an underscore and the digits |
| Worksheets.FewAreTaken | backend/app/api/backups.py:550-553 | at most as many candidates fail as there are titles: the loop ends |
| Worksheets.Titles.WorksheetTitle | backend/app/api/backups.py:544-555 | a fresh title is returned and added: the bare one if free, else the candidate with the least free counter; it has at most 31 characters exactly when the bare one or a candidate below 10^30 is free |
| Worksheets.Titles.ExportTitles | backend/app/api/backups.py:601-611 | the export gives distinct sheets of at most 31 characters to all tables |
| Worksheets.TitleFitsIff | backend/app/api/backups.py:544-555 | the title returned has at most 31 characters exactly when the bare title or some candidate with a counter below 10^30 is free |
| Worksheets.ExhaustedTitlesOverflow | backend/app/api/backups.py:547-553 | with all counters below 10^30 taken the next title is too long |
| HangerKeys.LoadRegistry | backend/alembic/versions/067_hanger_norm_key_normalization.py:124-138 | the registry holds exactly the normal lengths, and for each raw length exactly the normal lengths that have it |
| HangerKeys.LoadedRegistryIsLawful | backend/alembic/versions/067_hanger_norm_key_normalization.py:124-138 | every raw length of a loaded registry leads to normal lengths |
| HangerKeys.PlanNorms | backend/alembic/versions/067_hanger_norm_key_normalization.py:141-171 | the loop over the original keys computes the planned dictionary and the report |
| HangerKeys.PlanRenames | backend/alembic/versions/067_hanger_norm_key_normalization.py:11-21 | no value is lost or overwritten, every rewritten key lands on a free key of a normal length, and keys of normal lengths stay |
| HangerKeys.EveryKeyIsOne | backend/alembic/versions/067_hanger_norm_key_normalization.py:145-158 | every key is one of: as it is, unknown, raw length of several, raw length of one |
| HangerKeys.ReportIs | backend/alembic/versions/067_hanger_norm_key_normalization.py:145-170 | for each of these, in terms of the registry, whether the report names the key and what it says; a raw length of one is rewritten exactly if its target was neither there nor asked for before |
| HangerKeys.ValueIs | backend/alembic/versions/067_hanger_norm_key_normalization.py:164-170 | a rewritten value stands under its new key, every other one where it was, and a taken target is there |
| HangerKeys.TargetStaysTaken | backend/alembic/versions/067_hanger_norm_key_normalization.py:160-166 | every key that asks to move is reported, and the key it asks for is taken from then on |
| HangerKeys.SecondPlanUpTo | backend/alembic/versions/067_hanger_norm_key_normalization.py:33-35 | planning the planned dictionary again, in any key order, moves nothing and reports no new key |
| HangerKeys.UndoMoves | backend/alembic/versions/067_hanger_norm_key_normalization.py:244-248 | the loop takes reported changes back, and skips those that no longer apply |
| HangerKeys.MoveKey | backend/alembic/versions/067_hanger_norm_key_normalization.py:168-169 | moving a value to a free key keeps every other value under its key |
| HangerKeys.UndoLosesNothing | backend/alembic/versions/067_hanger_norm_key_normalization.py:244-248 | whatever became of the dictionary since the migration and whatever the report says, the undo loop renames keys one to one: no value is lost or overwritten |
| HangerKeys.UndoRestores | backend/alembic/versions/067_hanger_norm_key_normalization.py:37-38 | undoing every reported change, in any order, gives the original dictionary |
| HangerMigration.Migration.Upgrade | backend/alembic/versions/067_hanger_norm_key_normalization.py:202-217 | every linear product gets its planned dictionary, and report rows are inserted unless already there |
| HangerMigration.Migration.Downgrade | backend/alembic/versions/067_hanger_norm_key_normalization.py:220-251 | every reported product is undone and the report dropped; nothing without a report |
| HangerMigration.ProductIsPlanned | backend/alembic/versions/067_hanger_norm_key_normalization.py:210-217 | only linear products are planned, their report rows added, and rows that were there stay |
| HangerMigration.ProductIsUndone | backend/alembic/versions/067_hanger_norm_key_normalization.py:220-251 | what the downgrade does to each product, for any report |
| HangerMigration.DowngradeUndoesUpgrade | backend/alembic/versions/067_hanger_norm_key_normalization.py:37-38 | with a fresh report the downgrade gives back exactly the database the upgrade started from |
| HangerMigration.UpgradeIsIdempotent | backend/alembic/versions/067_hanger_norm_key_normalization.py:33-35 | a second upgrade changes neither dictionaries nor report, whatever the report held before |
| BalanceCollapse.StockBalances.DropZeroStatement | backend/alembic/versions/074_stock_balance_completed_operations.py:119-131 | groups that sum to zero are deleted, other rows stay in order |
| BalanceCollapse.StockBalances.SumStatement | backend/alembic/versions/074_stock_balance_completed_operations.py:93-103 | the row with the least id takes the total of its group; the CHECK fails the statement exactly when it would store a zero |
| BalanceCollapse.StockBalances.DedupStatement | backend/alembic/versions/074_stock_balance_completed_operations.py:105-113 | only the row with the least id of a group stays |
| BalanceCollapse.StockBalances.Downgrade | backend/alembic/versions/074_stock_balance_completed_operations.py:176-190 | the three statements never trip the CHECK, keep every group's total, and leave one row per group that does not cancel out |
| BalanceCollapse.SummedRow | backend/alembic/versions/074_stock_balance_completed_operations.py:93-103 | the total goes to the row with the least id of its group and to no other, and nothing else changes |
| BalanceCollapse.RowStays | backend/alembic/versions/074_stock_balance_completed_operations.py:105-131 | which rows the two deletions leave |
| BalanceCollapse.CollapseIsCorrect | backend/alembic/versions/074_stock_balance_completed_operations.py:81-131 | non-zero rows between the statements, totals kept, zero-sum groups gone, one row per group |
| BalanceCollapse.DedupFirstTotal | backend/alembic/versions/074_stock_balance_completed_operations.py:86-89 | deleting before summing keeps of every group only the quantity of its row with the least id |
| BalanceCollapse.DedupBeforeSumKeepsIff | backend/alembic/versions/074_stock_balance_completed_operations.py:86-89 | with the two steps swapped, totals are kept exactly when each such row already holds the total of its group |
| BalanceCollapse.DedupBeforeSumLoses | backend/alembic/versions/074_stock_balance_completed_operations.py:86-89 | two rows of one group for which the second quantity is lost |
| BalanceCollapse.SumAloneFailsIff | backend/alembic/versions/074_stock_balance_completed_operations.py:115-118 | without the first statement the sum trips the CHECK exactly when some group cancels out |
| BalanceCollapse.Backfill | backend/alembic/versions/074_stock_balance_completed_operations.py:40-79 | a balance takes the operations of its ledger sides exactly when they all agree |
| BalanceCollapse.DowngradeUndoesBackfill | backend/alembic/versions/074_stock_balance_completed_operations.py:173-192 | a table that came from four axes goes back to them unchanged |
| HangerCapacity.CapacityIsLargest | backend/alembic/versions/048_product_hanger_mode_backfill.py:10-15 | n pieces fit the area and the two rows if and only if n is at most the formula's result |
| HangerCapacity.CapacityNeverGrows | backend/alembic/versions/048_product_hanger_mode_backfill.py:10-15 | the result never grows when perimeter, length or width grows |
| HangerCapacity.OptimumIffPositiveLength | backend/alembic/versions/048_product_hanger_mode_backfill.py:70-78 | for a non-zero key the formula is the optimum exactly when the key is positive |
| HangerModeBackfill.Products.Update | backend/alembic/versions/048_product_hanger_mode_backfill.py:60-64 | one UPDATE rewrites every row by its expression |
| HangerModeBackfill.AbortsIff | backend/alembic/versions/048_product_hanger_mode_backfill.py:69-80 | the migration aborts exactly on a product with both fields filled that fits on a hanger and has a key of zero |
| HangerModeBackfill.Products.Upgrade | backend/alembic/versions/048_product_hanger_mode_backfill.py:56-157 | all four statements are applied to every product, or none when a key divides by zero |
| HangerModeBackfill.Products.Downgrade | backend/alembic/versions/048_product_hanger_mode_backfill.py:160-168 | the mode of one-dimensional products is removed and nothing else |
| HangerModeBackfill.ModeIsDecided | backend/alembic/versions/048_product_hanger_mode_backfill.py:3-8 | every one-dimensional product ends with a mode: auto with both fields filled, manual otherwise, an existing one kept |
| HangerModeBackfill.DictionaryIsRecomputed | backend/alembic/versions/048_product_hanger_mode_backfill.py:57-89 | keys, bare entries and manual norms stay; the automatic norm of a positive key is empty when the width with 20 mm exceeds 1450 mm, and otherwise the largest number that fits |
| HangerModeBackfill.FreshAt | backend/alembic/versions/048_product_hanger_mode_backfill.py:101-130 | the built dictionary has the entry of each length |
| HangerModeBackfill.FreshKeys | backend/alembic/versions/048_product_hanger_mode_backfill.py:101-130 | the keys of the built dictionary are those of the lengths |
| HangerModeBackfill.DictionaryIsBuilt | backend/alembic/versions/048_product_hanger_mode_backfill.py:91-138 | a product without a dictionary gets one entry per length and no other, each with its automatic norm by the same rule, and a legacy number survives as the manual norm of the least length only |
| HangerModeBackfill.UpgradeIsIdempotent | backend/alembic/versions/048_product_hanger_mode_backfill.py:27 | a second run changes nothing |
| RouteStages.GroupSteps | backend/scripts/repair_route_operations.py:82-91 | the loop that extends the last stage or opens a new one gives maximal runs of one key, or nothing for an unknown section |
| RouteStages.SetFlags | backend/scripts/repair_route_operations.py:92-95 | every stage gets the flags of its steps |
| RouteStages.DesiredStages | backend/scripts/repair_route_operations.py:75-96 | the stages read back as the steps in sequence order, neighbours differ in key, a flag is set when a step of the stage has it |
| RouteStages.KeysFollowSteps | backend/scripts/repair_route_operations.py:86 | a production step belongs to a stage of its section, a transit step to one of its storage |
| RouteStages.StepsInSequence | backend/scripts/repair_route_operations.py:83 | the steps are taken by sequence, equal ones in the order they come |
| RouteStages.SegmentationIsUnique | backend/scripts/repair_route_operations.py:75-96 | the steps determine the stages completely |
| RouteRepair.Route.CompareStages | backend/scripts/repair_route_operations.py:139-147 | the loop notes every difference of operations and flags, stage by stage |
| RouteRepair.StoredKeyMatches | backend/scripts/repair_route_operations.py:102 | a stored stage matches exactly the runs of production steps of its section, or, without a section, the transit runs of its storage |
| RouteRepair.StagesInSequence | backend/scripts/repair_route_operations.py:101 | stored stages are compared by sequence |
| RouteRepair.OperationsInSequence | backend/scripts/repair_route_operations.py:106-109 | the operations of a stored stage are those of its rows, by sequence |
| RouteRepair.NotesAre | backend/scripts/repair_route_operations.py:139-147 | a note is made exactly for each difference of operations or of one of the flags |
| RouteRepair.VerdictIs | backend/scripts/repair_route_operations.py:129-216 | the outcome for every input: other keys, nothing different, dry run, code held by another route, rolled back, repaired |
| RouteRepair.WrittenIs | backend/scripts/repair_route_operations.py:173-188 | operations are replaced where they differ, numbered from one, flags are set, and no other field changes |
| RouteRepair.RepairedFields | backend/scripts/repair_route_operations.py:191-194 | name, code and signature after a repair; any other outcome leaves the route as it was |
| RouteRepair.Route.WriteStages | backend/scripts/repair_route_operations.py:173-188 | every stored stage gets the desired operations and flags, and nothing else of it changes |
| RouteRepair.Route.Repair | backend/scripts/repair_route_operations.py:119-217 | the route after the call and the report, for every outcome: other keys, nothing to do, dry run, code taken, rolled back, repaired |
| RouteRepair.RepairedStagesAreDesired | backend/scripts/repair_route_operations.py:173-189 | read back in order, the stored stages have the desired keys, operations and flags |
| RouteRepair.SecondNotes | backend/scripts/repair_route_operations.py:30 | for any rebuild, a second repair finds no operation or flag change, notes at most an empty signature, and finds nothing exactly under the stated condition on signature and name |
| RouteRepair.SecondRepair | backend/scripts/repair_route_operations.py:30 | for a rebuild with a name, a second repair finds nothing exactly when the rebuilt signature is not empty |
| RouteRepair.EmptyRouteIsRepairedAgain | backend/scripts/repair_route_operations.py:150-154 | a route without stages and with an empty rebuilt signature is repaired again on every run, to the same state |
| DevPorts.NextGeneration | scripts/ensure-dev-ports-core.js:45-54 | one round adds every child of the frontier that is not yet listed |
| DevPorts.OrphanHeirs | scripts/ensure-dev-ports-core.js:42-56 | it ends on any table, cyclic parent links included, and lists exactly the descendants, each once |
| DevPorts.ExpandOne | scripts/ensure-dev-ports-core.js:104-118 | a dead owner's non-shell descendants are all listed on its port, none twice |
| DevPorts.ExpandOwners | scripts/ensure-dev-ports-core.js:94-121 | for any way of telling names apart: owners stay as a prefix and gain only descendants, added rows are such descendants and repeat no pair, every dead owner is covered, and the loop ends while appending to its own list |
| DevPorts.ExpandDeadOwners | scripts/ensure-dev-ports-core.js:64-121 | the same, with the shell hosts and Docker processes the script knows |
| DevPorts.AddedRowIs | scripts/ensure-dev-ports-core.js:104-117 | every added row is a process of the table that descends from a dead owner and is no shell host, with its own name and command, alive, without heirs |
| DevPorts.ShellHostIff | scripts/ensure-dev-ports-core.js:64-68 | the seven host names, in any case |
| DevPorts.DockerIff | scripts/ensure-dev-ports-core.js:71-83 | the parts of a name or a command line that make a Docker process, in any case |
| DevPorts.DistinctOwnersStayDistinct | scripts/ensure-dev-ports-core.js:97-99 | with distinct owners no (port, pid) pair occurs twice in the result |
| MigrationHeads.RepoAlembicHeads | scripts/e2e-db.py:271-302 | success exactly for a readable, unbroken graph with one revision that is nobody's parent, which is returned; otherwise the first failing check decides the error |
| MigrationHeads.ReadableIff | scripts/e2e-db.py:279-284 | which files can be read, and the error of one that cannot |
| MigrationHeads.RevisionIff | scripts/e2e-db.py:283 | the revisions are the assigned ones |
| MigrationHeads.ParentIff | scripts/e2e-db.py:284-288 | the parents are all those an assignment names, alone, in a tuple or list, or as the text of anything else |
| MigrationHeads.Climb | scripts/e2e-db.py:295-301 | climbing from any revision ends at the head or on a cycle |
| MigrationHeads.HeadCoversAllIff | scripts/e2e-db.py:295-301 | every revision is an ancestor of the head exactly when from every cycle one can climb to a revision that does not lead back |
| MigrationHeads.HeadCoversAcyclic | scripts/e2e-db.py:271-302 | without cycles every revision of the directory is an ancestor of the returned head, through merges too |
| MigrationHeads.DetachedCyclePasses | scripts/e2e-db.py:295-302 | a cycle apart from the head is accepted, and the head does not cover it |
| Metres.NormalizeKeepsValue | backend/app/domain/dimensions.py:289-292 | stripping trailing zeros keeps the value |
| Metres.RoundsToNearest | backend/app/domain/dimensions.py:133 | rounding gives the nearest whole number of millimetres, halves to the even one |
| Metres.AcceptedIff | backend/app/domain/dimensions.py:124-138 | a finite number of metres is accepted exactly when it is more than half a millimetre |
| Metres.MillimetresAre | backend/app/domain/dimensions.py:124-138 | the value in whole millimetres of a finite number of metres, or which error it is |
| Metres.SignDecides | backend/app/domain/dimensions.py:117-131 | a minus sign refuses a number, a plus sign changes nothing |
| Metres.NumberWithExponent | backend/app/domain/dimensions.py:120 | an exponent shifts the point |
| Metres.StrangeCharacter | backend/app/domain/dimensions.py:120-123 | no number holds a character other than digits, point, sign and exponent mark |
| Metres.SpacesAreIgnored | backend/app/domain/dimensions.py:116 | white space anywhere in the text changes nothing |
| Metres.CommaIsPoint | backend/app/domain/dimensions.py:116 | a comma is as good as a point |
| Metres.BlankIsEmpty | backend/app/domain/dimensions.py:117-118 | a blank text is an empty one |
| Metres.UnreadableIs | backend/app/domain/dimensions.py:107-126 | the errors for what is no number, no text, or not finite |
| Metres.NonFiniteIff | backend/app/domain/dimensions.py:124-127 | the three words for numbers that are not finite, in any case |
| Metres.NamesAreInfinite | backend/app/domain/dimensions.py:117-127 | the texts that `float` reads as infinite or not a number are reported as not finite |
| Metres.ParsingUndoesPrinting | backend/app/domain/dimensions.py:100-138 | parsing the printed form of any positive whole number of millimetres returns it |
| Metres.PrintedForm | backend/app/domain/dimensions.py:289-292 | the printed form digit by digit: whole metres, and after a comma the millimetres without zeros at the end |
| Metres.PrintingIsInjective | backend/app/domain/dimensions.py:289-292 | different lengths print differently |
| CutLayout.CanonicalIsIdempotent | backend/app/domain/dimensions.py:69-97 | the canonical form is a fixpoint, and None is its only form of "no dimensions" |
| CutLayout.CanonicalIs | backend/app/domain/dimensions.py:69-97 | no dimensions for None and the empty object; a blank key, an unusable value or a number that is not positive is refused; anything else stays |
| CutLayout.Merge | backend/app/domain/dimensions.py:237-251 | the loop adds quantities up by length, collects the other dimensions in order, and stops exactly at a length that is not a number |
| CutLayout.FormatCutLayout | backend/app/domain/dimensions.py:188-264 | which of the outcomes it is, for every input, and in the last one a part per length, strictly ascending, each with the total of its length |
| CutLayout.PartsAreHeld | backend/app/domain/dimensions.py:236-256 | in terms of the outputs: a part for exactly the lengths some output has, as a number or a label that reads as one, with the sum of their quantities |
| CutLayout.OthersAreSized | backend/app/domain/dimensions.py:239-247 | the second column: the outputs with dimensions but no length, in order, with their quantities |
| CutLayout.PiecesAreUnsized | backend/app/domain/dimensions.py:257-260 | the third column: the outputs without dimensions, in order, with their quantities |
| CutLayout.ReadableIff | backend/app/domain/dimensions.py:310-315 | the layout can be made exactly if no length is a label that does not read as a number |
| CutLayout.InputIs | backend/app/domain/dimensions.py:225-233 | when nothing is cut, and when the label of the input cannot be printed |
| CutLayout.QuantitiesAreConserved | backend/app/domain/dimensions.py:236-264 | the parts sum to the sum of all outputs |
| CutLayout.LengthPartsIgnoreOrder | backend/app/domain/dimensions.py:236-256 | outputs in another order give the same parts by length |
| CatalogueSync.MatchLengthIff | scripts/sync-ekranchik.py:137-147 | the first normal length within a millimetre, else the first raw one, and none exactly when there is none |
| CatalogueSync.EffectiveNIs | scripts/sync-ekranchik.py:116-122 | the norm of the product's mode, or else of the other mode |
| CatalogueSync.NearIff | scripts/sync-ekranchik.py:142-145 | near means within a millimetre |
| CatalogueSync.EffRawIs | scripts/sync-ekranchik.py:103 | a length without a raw length stands for its own |
| CatalogueSync.MainLengthIs | scripts/sync-ekranchik.py:125-134 | the one primary length, otherwise the first of the smallest |
| CatalogueSync.MainLengthByPosition | scripts/sync-ekranchik.py:125-134 | the only primary length, and the first of the smallest if there is none or several |
| CatalogueSync.BuildIndex | scripts/sync-ekranchik.py:150-156 | of products with one code the last counts, of products with one alias the first |
| CatalogueSync.FindIs | scripts/sync-ekranchik.py:151-180 | a name stands for the last product with that code, and otherwise for the first with that alias |
| CatalogueSync.AddAliases | scripts/sync-ekranchik.py:153-155 | aliases already indexed keep their product |
| CatalogueSync.ComputeDrift | scripts/sync-ekranchik.py:170-207 | the drift and the skipped profiles are those of each profile in order |
| CatalogueSync.LengthsAre | scripts/sync-ekranchik.py:191-199 | the length compared against and the length to be written |
| CatalogueSync.NormIsWritten | scripts/sync-ekranchik.py:199-203 | when a norm is written, field by field |
| CatalogueSync.DriftIs | scripts/sync-ekranchik.py:178-206 | which entries and which skips a profile gets |
| CatalogueSync.SettledIs | scripts/sync-ekranchik.py:226-234 | which fields of a profile an applied drift changes |
| CatalogueSync.OwnDriftSettles | scripts/sync-ekranchik.py:192-204 | applying a profile's own drift gives exactly its target length and norm |
| CatalogueSync.OnlyOwnDrift | scripts/sync-ekranchik.py:226-234 | with unique ids the whole drift changes a profile as its own drift does |
| CatalogueSync.Ekranchik.ApplyDrift | scripts/sync-ekranchik.py:210-238 | the updates are applied one by one, and products missing from the catalogue change nothing |
| CatalogueSync.Ekranchik.Sync | scripts/sync-ekranchik.py:271-285 | every profile becomes its target, and the drift is recomputed on the result |
| CatalogueSync.NoDriftNoChange | scripts/sync-ekranchik.py:210-238 | a profile without drift is untouched |
| CatalogueSync.LengthsSettle | scripts/sync-ekranchik.py:191-197 | after one run no length drift remains, whatever the lengths |
| CatalogueSync.NormRemainsIff | scripts/sync-ekranchik.py:199-203 | exactly when a norm drift remains after one run, for any product |
| CatalogueSync.NormSettlesIffNotZero | scripts/sync-ekranchik.py:199-203 | with lengths more than a millimetre apart a norm drift remains exactly for the norm zero |
| CatalogueSync.TwoRunsSettle | scripts/sync-ekranchik.py:191-203 | after two runs what remains is a norm of zero, for lengths of any spread |
| CatalogueSync.GatePassesIff | scripts/sync-ekranchik.py:271-285 | after `--apply` no drift remains exactly when every profile is in the catalogue and none meets the condition of `NormRemainsIff`, for lengths of any spread |
| CatalogueSync.GatePassesWhenSpread | scripts/sync-ekranchik.py:271-285 | if the lengths of every product are more than a millimetre apart, that is when every profile is in the catalogue and no norm is zero |
| CatalogueSync.ZeroNormNeverSettles | scripts/sync-ekranchik.py:200 | a norm of zero drifts again after it was written |
| CatalogueSync.CloseLengthsNeedTwoRuns | scripts/sync-ekranchik.py:141-143 | with two lengths within a millimetre one run can leave a norm drift |

## Left out

- Databases, Docker, subprocesses, HTTP, files, archives and printing: loaded rows are inputs and writes are assignments.
- Floating-point rounding and the 28 digits of Decimal: all numbers are exact, so `NaN` labels of a dimension and quantities beyond a column's range are not modelled.
- The order inside `completed_operations`: the repair compares sets, so the model keeps sets.
- AxisRepair.RunRepair: does not return the printed lists of skipped and unmatched rows, which only explain why a row kept its value, and stops before the balances are rebuilt.
- Sorting.SortItems: stands for `apply_sort` too, but SQL places missing keys by the database's default for fields that are not nulls-last.
- Backups.ListBackups: takes the filter as a predicate; the search fields and their matching are not modelled.
- Worksheets.Titles.WorksheetTitle: titles that differ only in letter case are different titles.
- HangerMigration.Migration.Upgrade: takes the parsing and writing of keys as functions with one law, iterates keys in any fixed order, and leaves out column widths of the report table.
- HangerMigration.Migration.Downgrade: iterates products and looks their report up; a product that was deleted in between has no row to restore.
- HangerModeBackfill.Products.Upgrade: attributes that are not numbers, and stop the statement with a cast error, are not modelled.
- RouteRepair.Route.Repair: the signature and code services are functions, the rebuilt stages and name are inputs, stages are values, so two stages never share one object, and replacing the operations of a stage is taken to succeed, although `(route_stage_id, sequence)` is unique and not deferrable.
- CutLayout.FormatCutLayout: returns quantities and lengths where the source returns their printed text.
- Metres.ParsingUndoesPrinting: numbers with underscores or non-ASCII digits, which Python's `float` also reads, are not modelled.
- CatalogueSync.ComputeDrift: does not return the list of catalogue codes without a profile, and takes the canonical form of a name as a function.
- MigrationHeads.RepoAlembicHeads: takes the two assignments of each file as already extracted.
- The migrations 068, 069 and 071, which repeat the undo shape of 067 with less branching, and schema-only migrations.
- Stock ledger services, authentication, the user interface and the documentation checks.
