# Reconciliation model

A Dafny model of the reconciliation of bank rows with fund rows, and of the services around it, with proofs
of what they keep over every input and every run.

For one goal, fund rows are grouped into goal transactions by code and type. Five ordered passes then match
bank rows with goal transactions over two growing sets of claimed ids: stored manual matches, the same
transaction id, an amount within 30 days, several bank rows for one goal transaction, and several goal
transactions for one bank row. The matches are stored as encoded text at the bank rows, and the next run
reads them back.

| module | what it holds |
|---|---|
| `Money`, `Text`, `Combination` | tolerances; the string operations of the stored codes; the search for items that sum to a target |
| `Transactions`, `MatchCode` | rows, goal transactions and their grouping; the stored codes and their two readers |
| `Matching`, `DrillDown`, `GoalDrillDown` | the passes as functions; the class that runs them over its two sets; the whole call |
| `Ledger`, `Conservation`, `Completeness`, `FundToBank` | what every run keeps, what it cannot miss, and what it misses |
| `PassRules` | the rules of the passes in numbers: what every match is, and what no run leaves open |
| `Rerun`, `StoredCodes`, `CreatedCodes` | what a second run does, what the stored codes say after a run, and which codes a table can hold |
| `VarianceList`, `TwoEngines` | the second copy of the engine, behind the variance list; when both agree |
| `ManualMatches`, `ManualRules`, `Removal`, `Reload` | creating and removing manual matches, and what a later run makes of them |
| `Reversals` | pairs of bank rows that cancel each other, kept in the text of their notes |
| `VarianceResolution`, `ResolutionRules`, `ResolutionRuns`, `UploadedFunds` | the detection of resolved variances, once and in numbers, over runs, and on the fund rows that uploads can store |
| `BankMatcher`, `ApprovalRules` | tolerance, severity, score and approval without review |
| `PriceSheets`, `PriceStore`, `PriceRules`, `PriceCache` | the merge of three price sheets, uploads, and the cached latest prices |
| `UnitRegistry`, `RegistryRules`, `RegistryTotals` | the fast and the simple unit registry, fund by fund and in total |

How it is modelled:

- Money is a whole number of cents; a tolerance is kept a hundredfold, so that `|d| <= max(1% of t, 1000)` is an
  inequality on integers. Prices and units are exact reals.
- Times are milliseconds, or calendar days where the columns are dates. A day is a UTC day.
- A table is a map or a sequence of rows, and an SQL query a function of it. The order of the loaded rows is part
  of the input.
- Each loop of the source that changes state is a method with its loop, proved equal to a function of the old
  state. The theorems are about these functions, so they hold for the methods.
- The items of the combination search carry their row where the source carries its id.

Some results are about where the code does not do what one would expect of it. Each comes with a concrete
case or an exact condition:

- A manual code that lists a goal code twice counts its fund rows twice (`Conservation.DoubleListingCountsTwice`,
  `Conservation.FundsConservedUpToRepeats`). Creation refuses such lists, so no table that it and the drill-down have
  written holds one (`CreatedCodes.EveryDrillDownConserves`).
- The search of pass 3b stops when a single goal transaction is within the tolerance of the bank row, which can be
  wider than its own, and then misses a split that sums exactly (`FundToBank.SplitFundStepIff`,
  `FundToBank.MissedSplit`).
- Pass 1 of the drill-down tries only the first goal transaction of an id, the variance list all of them
  (`TwoEngines.ExactClaimsIff`, `TwoEngines.DrillDownLooksAtFirstOnly`).
- README.md:123-125 gives the form of goal codes as date-account-goal. The generator appends the transaction id and
  the source when it has them (src/services/fund-upload/calculators/GoalTransactionCodeGenerator.ts:28-51), so an
  older code can be the beginning of a newer one, and removal by the older clears matches of the newer
  (`Removal.RemovalIsMembership`, `Removal.SameShapeRemoval`, `Removal.OlderCodeClearsNewer`).
- Removal by goal code does not reach the grouped code of an algorithmic match of several goal transactions, although
  that code names them (`Removal.RemovalExactly`, `Removal.GroupedMatchStays`).
- Linking a reversal does not refuse rows that are linked already (`Reversals.LinkKeepsPairing`).
- Resolved variances are marked by goal code. That also resolves rows that came after the review and were never
  reviewed (`UploadedFunds.LateRowIsResolved`), and rows of the other type of the code that no bank row explains
  (`UploadedFunds.OtherTypeIsResolved`).
- Of several fund rows of one fund only the last is compared with the bank row (`BankMatcher.RecordedIsSum`,
  `BankMatcher.OnlyTheLastRowCounts`).
- A write of prices between a reader's query and the storing of its answer leaves old prices in the cache, if it
  changes the latest prices (`PriceCache.CoherentIff`, `PriceCache.HarmfulWriteIsSeen`).
- Withdrawals are negative, and for them the greedy phase of the search never finds a split
  (`Combination.NegativeAmountsNeedSubsets`).
- The simple registry leaves out accounts whose units add up to zero across funds, whatever they are worth
  (`RegistryTotals.ZeroBalancesLeaveOut`, `RegistryTotals.WorthButLeftOut`).

`dafny verify dfyconfig.toml` verifies the project.

## Model

| member | source | states |
|---|---|---|
| `Combination.FindSound` | src/services/reconciliation/SmartMatcher.ts:1173-1217 | a result is a part of the items, each used at most once, and when it is not empty it sums within tolerance of the target; a result that does not come from the greedy phase is not a single item |
| `Combination.TenLargestComplete` | src/services/reconciliation/SmartMatcher.ts:1196-1216 | for any number of items: an empty result means that no two or more items that are all among the ten largest sum within tolerance |
| `Combination.SortIsDescending` | src/services/reconciliation/SmartMatcher.ts:1178-1179 | the items are searched from the largest down |
| `Combination.SortIsStable` | src/services/reconciliation/SmartMatcher.ts:1178-1179 | and those of equal amount in the order they came in |
| `Combination.GreedySkipsTooLarge` | src/services/reconciliation/SmartMatcher.ts:1181-1194 | an item that the greedy phase leaves out before it succeeds would have gone above target and tolerance together with those taken before it |
| `Combination.SubsetPhaseUsesTen` | src/services/reconciliation/SmartMatcher.ts:1196-1197 | where the greedy phase fails, the result has at most ten items, and fewer than ten items are larger than any of them |
| `Combination.FirstSubsetIsFirst` | src/services/reconciliation/SmartMatcher.ts:1200-1214 | the result of the subset phase is the choice of the lowest mask that is good |
| `Combination.FindComplete` | src/services/reconciliation/SmartMatcher.ts:1196-1216 | so for at most ten items the search finds nothing only if no choice of two or more distinct items sums within tolerance |
| `Combination.MaskFor` | src/services/reconciliation/SmartMatcher.ts:1200-1209 | every choice of items is that of some mask between 0 and 2^n - 1 |
| `Combination.GreedyComplete` | src/services/reconciliation/SmartMatcher.ts:1178-1194 | for any number of items that are not negative: if all together sum within tolerance, the search succeeds |
| `Combination.NegativeAmountsNeedSubsets` | src/services/reconciliation/SmartMatcher.ts:1178-1214 | where no amount is positive, as for withdrawals, the greedy phase finds one item at most, so every split comes from the subset phase over ten items |
| `Combination.SumOfPermutation` | src/services/reconciliation/SmartMatcher.ts:1178-1194 | the sum of a choice does not depend on the order that sorting gives it |
| `Combination.FindGreedy` | src/services/reconciliation/SmartMatcher.ts:1178-1194 | the greedy loop with its early stop computes Greedy over the sorted items |
| `Combination.SelectByMask` | src/services/reconciliation/SmartMatcher.ts:1200-1209 | the inner loop over the bits of a mask collects exactly the chosen items and their sum |
| `Combination.FindCombinationSum` | src/services/reconciliation/SmartMatcher.ts:1173-1217 | the two phases with their loops compute Find: greedy first, then the first good mask over the ten largest |
| `Transactions.KeyTextInjective` | src/services/reconciliation/SmartMatcher.ts:824-828 | the textual key code/type tells apart exactly the pairs of code and type, whatever the code contains |
| `Transactions.GroupPartitions` | src/services/reconciliation/SmartMatcher.ts:824-862 | there is one group for each code and type that occurs, and each group is the summary of exactly the rows with its key: first date and id, all ids in order, the sum of the amounts |
| `Transactions.GroupIs` | src/services/reconciliation/SmartMatcher.ts:824-862 | the group of a row has its code and type, date and id of the first row with these, the sum of the amounts and exactly the ids of all such rows |
| `Transactions.NewKeyGoesLast` | src/services/reconciliation/SmartMatcher.ts:824-862 | groups stand in the order of their first rows |
| `Transactions.GroupFromTotal` | src/services/reconciliation/SmartMatcher.ts:848-850 | grouping keeps the total of all amounts |
| `Transactions.GroupWellGrouped` | src/services/reconciliation/SmartMatcher.ts:805-862 | from rows with distinct ids the groups have distinct keys, share no row id and none is empty |
| `Transactions.GroupFundRows` | src/services/reconciliation/SmartMatcher.ts:824-862 | the loop that opens and extends entries of an ordered map computes Group of the rows |
| `MatchCode.RoundTrip` | src/services/reconciliation/SmartMatcher.ts:1138-1143 | for each of the three stored forms the SQL reader returns the goal codes that were written, the matcher's reader does so for the manual form, and only the manual form looks manual |
| `MatchCode.AlgorithmicTexts` | src/services/reconciliation/SmartMatcher.ts:1138-1143 | the stored texts written out: the goal code alone, or SPLIT_FUND_TO_BANK, a colon and the codes with a comma between |
| `MatchCode.ManualTexts` | src/services/reconciliation/SmartMatcher.ts:2022-2025 | and MANUAL, the time and the codes, with colons between |
| `MatchCode.EncodeInjective` | src/services/reconciliation/SmartMatcher.ts:1138-1143 | equal stored codes come from equal forms, kinds, time stamps and goal codes |
| `MatchCode.ReadersAgree` | src/services/reconciliation/SmartMatcher.ts:221-229 | the matcher's reader and the SQL split_part reader agree on a manual code if and only if it has no second colon, or what follows it is not empty and has no colon |
| `MatchCode.ManualParts` | src/services/reconciliation/SmartMatcher.ts:887-893 | the text after the second colon, split at commas, is what the matcher reads from a manual code |
| `Text.SplitJoin` | src/services/reconciliation/SmartMatcher.ts:893 | splitting a joined non-empty list of separator-free parts returns the list |
| `Text.JoinSplit` | src/services/reconciliation/SmartMatcher.ts:893 | joining the parts of any string returns the string |
| `Text.DecimalReadsBack` | src/services/reconciliation/SmartMatcher.ts:2022-2025 | the digits written for a time are its own |
| `DrillDown.Engine.RunPasses` | src/services/reconciliation/SmartMatcher.ts:864-1095 | the passes over the two mutable sets produce exactly the matches and claimed ids of Run, from whatever state the input is in |
| `DrillDown.Engine.TryManualCode` | src/services/reconciliation/SmartMatcher.ts:882-924 | one stored manual code: all free groups of its goal codes with all its free rows, or nothing |
| `DrillDown.Engine.MatchManual` | src/services/reconciliation/SmartMatcher.ts:869-924 | grouping the rows by stored code first gives the same matches as trying every row's code in turn |
| `DrillDown.Engine.MatchExact` | src/services/reconciliation/SmartMatcher.ts:926-955 | pass 1 pairs each free row with the first free group of its id and type, if the amounts agree |
| `DrillDown.Engine.MatchAmount` | src/services/reconciliation/SmartMatcher.ts:957-995 | pass 2 pairs each free row with the first free group of its type, window and amount, with the confidence of its distance in days |
| `DrillDown.Engine.SplitBanks` | src/services/reconciliation/SmartMatcher.ts:997-1042 | pass 3 gives each free group the combination found among the free rows of its day and type, if it has more than one row |
| `DrillDown.Engine.SplitFunds` | src/services/reconciliation/SmartMatcher.ts:1044-1093 | pass 3b gives each free row the combination found among the free groups of its day and type, if it has more than one group |
| `DrillDown.CollectNamed` | src/services/reconciliation/SmartMatcher.ts:896-905 | the nested loops collect the ids and the total of all free groups of the listed goal codes |
| `DrillDown.OncePerCode` | src/services/reconciliation/SmartMatcher.ts:869-885 | trying a code once for its first row, or again for each of its rows, ends in the same state |
| `DrillDown.AttemptSettles` | src/services/reconciliation/SmartMatcher.ts:882-924 | after a code has been tried a second try changes nothing |
| `DrillDown.SettledStays` | src/services/reconciliation/SmartMatcher.ts:882-924 | and that remains so however many ids are claimed later |
| `Matching.FirstFound` | src/services/reconciliation/SmartMatcher.ts:957-990 | a found group is free and fits; if none is found, every fitting group is taken |
| `Matching.FirstIsFirst` | src/services/reconciliation/SmartMatcher.ts:957-990 | and nothing before it is free and fits |
| `PassRules.ManualMatchIff` | src/services/reconciliation/SmartMatcher.ts:882-924 | a manual code is matched if and only if a row that carries it is unmatched and a code listed after its second colon names an unmatched goal transaction; the match has all of these and no other |
| `PassRules.ExactStepTakes` | src/services/reconciliation/SmartMatcher.ts:928-953 | pass 1 looks at the first unmatched goal transaction with the id and type of the row, and takes it if the amounts are at most 1% of its total or 1,000 UGX apart |
| `PassRules.AmountStepTakes` | src/services/reconciliation/SmartMatcher.ts:957-995 | pass 2 takes the first unmatched goal transaction of the type at most 30 days and 1% or 1,000 UGX away, with 0.8 less 0.01 a day |
| `PassRules.BankPassesEnd` | src/services/reconciliation/SmartMatcher.ts:926-995 | passes 1, 2 and 3b visit the rows from the first to the last: the last meets the state that the others left |
| `Ledger.RunSound` | src/services/reconciliation/SmartMatcher.ts:864-1095 | after every pass the claimed ids are exactly those of the matches, no bank row is in two matches, everything matched was loaded, and every algorithmic match is justified: same type; EXACT same id and amounts agree; AMOUNT within 30 days, amounts agree, confidence between 0.5 and 0.8; splits same day, at least two parts, sum within tolerance of the single side, confidence 0.7. No group is matched twice unless a manual code lists a goal code twice |
| `PassRules.EveryMatchFollowsRule` | src/services/reconciliation/SmartMatcher.ts:864-1095 | in both engines, in numbers: EXACT has one id and type and is at most 1% or 1,000 UGX apart; AMOUNT has one type, at most 2,592,000,000 ms between the times and the same tolerance; the splits have one type and day, at least two parts and a sum within the tolerance of the single side |
| `Ledger.RecordKeepsSound` | src/services/reconciliation/SmartMatcher.ts:906-923 | adding a match of free rows and groups keeps these facts |
| `Ledger.ConfidenceRange` | src/services/reconciliation/SmartMatcher.ts:975-990 | the confidence of an amount match within the window lies between 0.5 and 0.8 |
| `Ledger.CloserIsSurer` | src/services/reconciliation/SmartMatcher.ts:975-990 | and is the higher the closer the two times are |
| `Ledger.ConfidenceIs` | src/services/reconciliation/SmartMatcher.ts:985 | namely 0.8 less the gap in ms over 8,640,000,000 |
| `Ledger.AllNamedDistinct` | src/services/reconciliation/SmartMatcher.ts:893-905 | a manual code collects a group twice if and only if it lists a goal code twice that names a free group |
| `Conservation.LedgerConserved` | src/services/reconciliation/SmartMatcher.ts:864-1122 | bank totals of the matches plus unmatched bank amounts equal all bank amounts; likewise for the fund side when no manual code lists a goal code twice |
| `Conservation.FundsConservedUpToRepeats` | src/services/reconciliation/SmartMatcher.ts:864-1122 | for every input: the matched and unmatched fund totals exceed all that was loaded by exactly the total of the groups that a manual match holds again |
| `CreatedCodes.CreatedNeverListTwice` | src/services/reconciliation/SmartMatcher.ts:2006-2025 | a table whose manual codes were all written by creations holds none that lists a goal code twice |
| `CreatedCodes.EveryDrillDownConserves` | src/services/reconciliation/SmartMatcher.ts:864-1156 | after every sequence of creations, removals and drill-downs a drill-down conserves the bank total and the fund total and matches no goal transaction twice |
| `Conservation.WhollyOrNotAtAll` | src/services/reconciliation/SmartMatcher.ts:864-1122 | all rows of a goal transaction are claimed or none is, and they are claimed if and only if a match contains it |
| `Conservation.MatchesShareNoBank` | src/services/reconciliation/SmartMatcher.ts:864-1095 | two matches of a run share no bank id |
| `Conservation.MatchesShareNoFund` | src/services/reconciliation/SmartMatcher.ts:864-1095 | nor a fund id |
| `Conservation.DoubleListingCountsTwice` | src/services/reconciliation/SmartMatcher.ts:893-920 | with a goal code listed twice the matched fund total is twice what was loaded |
| `Completeness.RunExtends` | src/services/reconciliation/SmartMatcher.ts:864-1095 | from pass to pass claims and matches only grow |
| `PassRules.NearPairIsClaimed` | src/services/reconciliation/SmartMatcher.ts:957-995 | a bank row and a goal transaction of its type, at most 30 days and 1% or 1,000 UGX apart, are not both unmatched after pass 2, nor at the end, in either engine |
| `PassRules.ExactPairIsClaimed` | src/services/reconciliation/SmartMatcher.ts:926-955 | nor after pass 1 when they share the id: in the second copy always, in the drill-down when no other goal transaction has that id and type |
| `Completeness.SaturatedAfterAmount` | src/services/reconciliation/SmartMatcher.ts:957-995 | after pass 2 no free row and free group are left that pass 2 could pair |
| `Completeness.NeverASingleton` | src/services/reconciliation/SmartMatcher.ts:1024-1030 | hence the search of pass 3 never returns a single row |
| `Completeness.BankToFundComplete` | src/services/reconciliation/SmartMatcher.ts:957-1042 | for days of any size: a goal transaction unmatched at the end of the run and unmatched bank rows of its day and type do not sum within its tolerance, when each of these rows is among the ten largest that pass 2 left of that day and type |
| `PassRules.NoBankSplitLeft` | src/services/reconciliation/SmartMatcher.ts:957-1042 | the same with tolerance and day written in numbers |
| `Completeness.SmallBucketComplete` | src/services/reconciliation/SmartMatcher.ts:957-1042 | so with at most ten rows left no set of them does |
| `Completeness.WholeBucketIsMatched` | src/services/reconciliation/SmartMatcher.ts:997-1042 | for buckets of any size: free rows that are not negative and all together fit are matched when pass 3 reaches the group |
| `FundToBank.SplitFundStepIff` | src/services/reconciliation/SmartMatcher.ts:1044-1093 | a free bank row with at most ten candidates is matched in pass 3b if and only if some choice of two or more of them sums within its tolerance and the greedy phase does not return exactly one |
| `FundToBank.FundToBankComplete` | src/services/reconciliation/SmartMatcher.ts:1044-1093 | for days of any size: if a bank row is unmatched at the end and none of the goal transactions of its day and type left after pass 3 is within its tolerance alone, then no two or more unmatched ones that are among the ten largest of these sum within its tolerance |
| `PassRules.NoFundSplitLeft` | src/services/reconciliation/SmartMatcher.ts:1044-1093 | the same with tolerance and day written in numbers |
| `FundToBank.SingleGroupStopsSplit` | src/services/reconciliation/SmartMatcher.ts:1070-1077 | two goal transactions that sum to a bank row stay unmatched with it when the larger is within the tolerance of the bank row alone and the bank row not within its own |
| `FundToBank.MissedSplit` | src/services/reconciliation/SmartMatcher.ts:1070-1077 | for instance 10,100,500 UGX in the bank with goal transactions of 10,000,000 and 100,500 UGX |
| `GoalDrillDown.Service.PersistMatches` | src/services/reconciliation/SmartMatcher.ts:1124-1156 | the loop over the matches stores for each algorithmic match its encoded code at its rows and leaves all other codes |
| `GoalDrillDown.Service.GetGoalTransactions` | src/services/reconciliation/SmartMatcher.ts:747-1167 | the whole call: groups, matches, updated codes, and as unmatched exactly the rows and goal transactions that no match claims |
| `GoalDrillDown.UnmatchedByKey` | src/services/reconciliation/SmartMatcher.ts:1111-1122 | finding unmatched goal transactions by their keys gives the same list as finding them by claimed ids |
| `Rerun.PersistIdempotent` | src/services/reconciliation/SmartMatcher.ts:1124-1156 | storing the codes of the same disjoint matches twice is storing them once |
| `Rerun.PersistStores` | src/services/reconciliation/SmartMatcher.ts:1124-1156 | after all matches are stored every algorithmic match has its code at all its rows, none overwritten by a later one |
| `StoredCodes.StoredCodeNamesItsGroups` | src/services/reconciliation/SmartMatcher.ts:1124-1156 | after a run the SQL reader reads from each row of an algorithmic match exactly the goal codes that were matched, when goal codes contain neither colon nor comma |
| `StoredCodes.MatchedCodesInOrder` | src/services/reconciliation/SmartMatcher.ts:1131-1137 | in the order of the goal transactions |
| `StoredCodes.OtherCodesStay` | src/services/reconciliation/SmartMatcher.ts:1124-1156 | and the code of every other row is as it was |
| `StoredCodes.ManualCodeReplacedIff` | src/services/reconciliation/SmartMatcher.ts:1124-1156 | a run replaces a manual code if and only if an algorithmic match of the run holds its row |
| `Rerun.PersistAddsNoManual` | src/services/reconciliation/SmartMatcher.ts:1138-1143 | no stored code becomes a manual one |
| `Rerun.ManualPassRepeats` | src/services/reconciliation/SmartMatcher.ts:869-924 | pass 0 makes the same claims and matches after the codes were stored, also where manual codes were overwritten |
| `Rerun.RerunIsIdempotent` | src/services/reconciliation/SmartMatcher.ts:864-1156 | a second run on the same ordered lists, after the first has stored its codes, makes the same matches and stores the same codes |
| `VarianceList.VarianceEngine.RunPasses` | src/services/reconciliation/SmartMatcher.ts:1698-1873 | the passes of the variance list produce exactly VarianceRun, and report as unmatched what it leaves free |
| `TwoEngines.ExactStepsAgree` | src/services/reconciliation/SmartMatcher.ts:1741-1758 | one step of pass 1 is the same in both engines if and only if the first free group with the row's id agrees in amount, or no free group with the id does |
| `TwoEngines.ExactPassesAgree` | src/services/reconciliation/SmartMatcher.ts:1741-1758 | if every step of pass 1 agrees, in the states the drill-down goes through, the whole pass is the same |
| `TwoEngines.ExactClaimsIff` | src/services/reconciliation/SmartMatcher.ts:1741-1758 | after pass 1 both engines have claimed the same bank and fund rows if and only if every step agrees |
| `TwoEngines.EnginesAgreeIff` | src/services/reconciliation/SmartMatcher.ts:1698-1873 | after pass 3 their matches, with the kinds that the copy does not report, are the same if and only if every step agrees; for the claimed rows this is sufficient only |
| `TwoEngines.SameClaimsAnyway` | src/services/reconciliation/SmartMatcher.ts:957-995 | since pass 2 of the drill-down can match within the window what its pass 1 left: then the steps do not agree and the claimed rows at the end are the same |
| `TwoEngines.EnginesAgree` | src/services/reconciliation/SmartMatcher.ts:1698-1873 | with at most one goal transaction for each id and type they do |
| `TwoEngines.DrillDownRefinesVarianceList` | src/services/reconciliation/SmartMatcher.ts:1044-1093 | then the drill-down leaves unmatched what the variance list leaves unmatched, less exactly the rows of its pass 3b matches |
| `TwoEngines.DrillDownLooksAtFirstOnly` | src/services/reconciliation/SmartMatcher.ts:937-941 | otherwise they can differ: the drill-down tries only the first group of an id and type, the copy tries all |
| `ManualMatches.BankTable.CreateManualMatch` | src/services/reconciliation/SmartMatcher.ts:1973-2052 | exactly when each error is returned, what totals are compared, which codes and statuses are set, and that nothing changes on an error |
| `ManualRules.ManualToleranceIs` | src/services/reconciliation/SmartMatcher.ts:2011-2019 | a creation is refused when the totals are more than 1% of the bank total and more than 1 UGX apart |
| `ManualRules.BankTotalIs` | src/services/reconciliation/SmartMatcher.ts:2010-2012 | the bank total is the sum over the given ids |
| `ManualRules.GoalTotalIs` | src/services/reconciliation/SmartMatcher.ts:1994-2004 | the goal total is the sum of the fund rows whose code is listed and not empty |
| `ManualMatches.FetchCount` | src/services/reconciliation/SmartMatcher.ts:1983-1990 | the number of fetched rows equals the number of ids if and only if the ids exist and none repeats |
| `ManualMatches.CountOfDistinct` | src/services/reconciliation/SmartMatcher.ts:2006-2008 | the number of summed codes equals the number of goal codes if and only if the codes exist and none repeats |
| `ManualMatches.SumByCode` | src/services/reconciliation/SmartMatcher.ts:1998-2004 | the loop sums the named fund rows by code: its total is their total |
| `ManualMatches.BankTable.RemoveManualMatch` | src/services/reconciliation/SmartMatcher.ts:2061-2124 | exactly the rows named by id, by plain code or by text inside a manual code are cleared and set to pending, and each is counted once |
| `ManualRules.ClearedIff` | src/services/reconciliation/SmartMatcher.ts:2061-2124 | a row is cleared if and only if its id is given, its code is one of the goal codes, or its code begins with MANUAL: and has one of the goal codes anywhere inside |
| `ManualMatches.BankTable.ClearMentions` | src/services/reconciliation/SmartMatcher.ts:2100-2116 | one update for each goal code reaches exactly the manual codes that contain any of them, none twice |
| `Removal.MentionIsPartOfListed` | src/services/reconciliation/SmartMatcher.ts:2100-2105 | a goal code with a dash occurs in a manual code if and only if it occurs inside a listed goal code |
| `ManualMatches.ByGoalParts` | src/services/reconciliation/SmartMatcher.ts:2083-2117 | the plain codes and the manual codes that removal clears are apart and together all it clears by goal code |
| `Removal.RemovalExactly` | src/services/reconciliation/SmartMatcher.ts:2083-2117 | of a table of stored codes, removal by a list of goal codes clears exactly the rows whose code names one of them, less those with a grouped algorithmic code, and with them the rows of manual lists that only have one inside a longer code |
| `Removal.RemovalIsMembership` | src/services/reconciliation/SmartMatcher.ts:2083-2117 | so it clears exactly the rows whose code names one, as plain code, in a grouped code or in a manual list, if and only if no such longer code is listed and no grouped code names one |
| `Removal.GroupedMatchStays` | src/services/reconciliation/SmartMatcher.ts:2083-2117 | for instance a match of two goal transactions stored with its kind: it names both, and removal by either does not reach it |
| `CreatedCodes.EveryRemoval` | src/services/reconciliation/SmartMatcher.ts:2061-2124 | after every sequence of creations, removals and drill-downs with plain goal codes removal by goal codes clears exactly that, and is membership if and only if that |
| `Removal.ContainsIsPrefix` | src/services/fund-upload/calculators/GoalTransactionCodeGenerator.ts:28-51 | of two codes that begin with a year and have equally many dashes one contains the other if and only if it begins with it |
| `Removal.SameShapeRemoval` | src/services/reconciliation/SmartMatcher.ts:2083-2117 | where goal codes and listed codes have that form with equally many dashes, removal is membership if and only if no match that names none of the goal codes lists a code that continues one, and no grouped code names one |
| `Removal.LetteredRemovalIsMembership` | README.md:123-125 | so with codes of the documented form with equally many dashes, whose goal number ends in its only letter, removal is membership if and only if no grouped code names one of the goal codes |
| `Removal.OlderCodeClearsNewer` | src/services/fund-upload/calculators/GoalTransactionCodeGenerator.ts:28-51 | a code of that form clears a match that lists only a longer code it begins |
| `Reload.ManualCodeIsFound` | src/services/reconciliation/SmartMatcher.ts:869-924 | a loaded manual code whose goal codes no other loaded manual code names is matched by every run with all its rows and all groups of its goal codes |
| `Reload.NamedGroupsTotal` | src/services/reconciliation/SmartMatcher.ts:896-905 | the groups that goal codes name sum to the fund rows of those codes |
| `Reload.CreatedCodeReadsBack` | src/services/reconciliation/SmartMatcher.ts:2022-2025 | what creation writes is a manual code that reads back as the goal codes |
| `Reload.ManualMatchSurvivesReload` | src/services/reconciliation/SmartMatcher.ts:1973-2037 | after creation, a drill-down that loads its rows has one manual match of exactly those bank rows and exactly those goal codes' fund rows, with the totals checked at creation |
| `Reload.NoOtherMatchTouches` | src/services/reconciliation/SmartMatcher.ts:864-1095 | no other match of the run shares a bank id or a fund id with it |
| `Reversals.Desk.LinkReversal` | src/services/reconciliation/SmartMatcher.ts:2250-2340 | which check fails first, and the two rows written when none does |
| `Reversals.Desk.UnlinkReversal` | src/services/reconciliation/SmartMatcher.ts:2345-2415 | which rows are cleared and how many are counted |
| `Reversals.NoteReadsBack` | src/services/reconciliation/SmartMatcher.ts:2366-2367 | the partner written into the notes is the partner read from them |
| `Reversals.PartnerInNote` | src/services/reconciliation/SmartMatcher.ts:2366-2367 | in any note the partner is the whole run of a to f, digits and dashes after the first place with the words |
| `Reversals.LinkKeepsPairing` | src/services/reconciliation/SmartMatcher.ts:2250-2340 | linking does not ask whether rows are linked already: it keeps the partner relation a symmetric involution without fixed points, within a goal and across types, if and only if both rows are unlinked or already linked with each other |
| `Reversals.UnlinkClearsPair` | src/services/reconciliation/SmartMatcher.ts:2345-2415 | unlinking either side clears exactly the two rows of the pair and counts two |
| `Reversals.UnlinkKeepsPairing` | src/services/reconciliation/SmartMatcher.ts:2345-2415 | unlinking keeps the relation |
| `Reversals.LinkThenUnlink` | src/services/reconciliation/SmartMatcher.ts:2250-2415 | linking two untagged rows and unlinking either restores the table |
| `Reversals.RunsKeepPairing` | src/services/reconciliation/SmartMatcher.ts:2250-2415 | a run of links and unlinks keeps the relation intact throughout if and only if each link that succeeds joins two unlinked rows or two already linked with each other |
| `Reversals.NettedAmountsCancel` | src/services/reconciliation/SmartMatcher.ts:2282-2286 | the netted amounts of a goal sum to at most one cent for each pair |
| `Reversals.CandidatesCanBeLinked` | src/services/reconciliation/SmartMatcher.ts:2136-2209 | every candidate can be linked, the two amounts cancel, linking it to an unlinked row keeps the relation, and it is a candidate no longer |
| `Reversals.OfferedExactly` | src/services/reconciliation/SmartMatcher.ts:2136-2209 | the candidates are exactly the other rows of the goal with the negated amount and the opposite type inside the dates that are unmatched, not netted and of no excluded kind |
| `Reversals.CandidatesAreMutual` | src/services/reconciliation/SmartMatcher.ts:2136-2209 | between two rows that can be offered each is a candidate of the other or neither is |
| `VarianceResolution.Detector.DetectResolved` | src/services/reconciliation/VarianceResolutionService.ts:47-86 | the results are those of Detected in order, the tables are marked by them, and each tag is counted |
| `VarianceResolution.Detector.CheckBanks` | src/services/reconciliation/VarianceResolutionService.ts:91-146 | the loop over pending bank rows keeps exactly those that are explained |
| `VarianceResolution.Detector.CheckGoals` | src/services/reconciliation/VarianceResolutionService.ts:151-207 | the same for pending fund groups by code, goal, id and type |
| `VarianceResolution.Detector.MarkAsResolved` | src/services/reconciliation/VarianceResolutionService.ts:497-531 | the two loops of updates set exactly the flags of the listed ids and codes |
| `VarianceResolution.CountByTag` | src/services/reconciliation/VarianceResolutionService.ts:70-74 | a tag is present if and only if it occurs, with the number of its results |
| `VarianceResolution.PendingGroupsMembers` | src/services/reconciliation/VarianceResolutionService.ts:164-180 | a group is pending if and only if it sums the pending rows that share the key of some pending row |
| `ResolutionRuns.ExactlyTheDetected` | src/services/reconciliation/VarianceResolutionService.ts:47-531 | after a run a bank row is resolved if and only if it was before or was detected; a fund row if and only if it was before or shares its code with a row whose group was detected; nothing else changes |
| `ResolutionRules.BankRowResolvedIff` | src/services/reconciliation/VarianceResolutionService.ts:91-146 | in sums and days: an open MISSING_IN_GOAL row is resolved if and only if the fund rows of some code with its goal and type, all those with its id or all those within 30 days, sum to within 1% or 1,000 UGX of it; a TIMING_DIFFERENCE row if and only if those with its id within 3 days do |
| `ResolutionRules.FundRowResolvedIff` | src/services/reconciliation/VarianceResolutionService.ts:151-207 | a fund row is resolved if and only if its code has an open row whose group total some bank row of its goal and type explains: MISSING_IN_BANK with its id or within 30 days of its first day, TIMING_DIFFERENCE with its id within 3 days |
| `ResolutionRules.ResultIff` | src/services/reconciliation/VarianceResolutionService.ts:47-308 | the results are exactly those of such bank rows and groups, each with its goal, transaction id and amount |
| `ResolutionRules.GroupsOnce` | src/services/reconciliation/VarianceResolutionService.ts:164-180 | each group is looked for once |
| `ResolutionRuns.SecondRunFindsNothing` | src/services/reconciliation/VarianceResolutionService.ts:47-308 | a second run over the same days finds nothing and changes nothing |
| `ResolutionRuns.NarrowerRunFindsNoBank` | src/services/reconciliation/VarianceResolutionService.ts:91-146 | a second run over fewer days finds no bank row |
| `ResolutionRuns.FlagsNeverRevert` | src/services/reconciliation/VarianceResolutionService.ts:497-531 | over every run of uploads, reviews and detections no row is lost or altered and no flag reverts |
| `ResolutionRuns.InTimeImpliesFound` | src/services/reconciliation/VarianceResolutionService.ts:369-491 | a bank row found within three days is found by the wide search, by id and by date |
| `UploadedFunds.GeneratedOneDay` | src/services/fund-upload/calculators/GoalTransactionCodeGenerator.ts:28-51 | rows whose codes were generated from their own dates share their day within a code |
| `UploadedFunds.RunKeepsStorable` | src/services/fund-upload/database/FundTransactionRepository.ts:74-96 | over every run of uploads, reviews and detections rows of one code share their day, and the tags within a code are equal or missing |
| `UploadedFunds.NarrowerRunFindsNothing` | src/services/reconciliation/VarianceResolutionService.ts:47-308 | where rows of a code share their day, a second run over the same or fewer days finds nothing and changes nothing |
| `UploadedFunds.FundsInTimeIff` | src/services/reconciliation/VarianceResolutionService.ts:313-455 | where rows of a code share their day, the narrow search finds a fund group if and only if the search by id does with a group of a day within the window; and then the wide search finds |
| `UploadedFunds.EveryRun` | src/services/reconciliation/VarianceResolutionService.ts:47-531 | so after every run from empty tables both hold |
| `UploadedFunds.LateRowIsResolved` | src/services/reconciliation/VarianceResolutionService.ts:518-531 | a row uploaded after the review of its code, never reviewed and not part of the sum compared, is resolved with its code |
| `UploadedFunds.OtherTypeIsResolved` | src/services/reconciliation/VarianceResolutionService.ts:518-531 | where a code has rows of two types, the rows of one are resolved when the other is explained, although no bank row explains them |
| `BankMatcher.MatchTransaction` | src/services/reconciliation/BankReconciliationMatcher.ts:94-213 | the rows of the goal and id are compared as Compare says: no row, totals apart, or variances with status and score |
| `BankMatcher.DetectVariances` | src/services/reconciliation/BankReconciliationMatcher.ts:218-299 | the date variance and then those of the four funds, in order |
| `BankMatcher.FundAmounts` | src/services/reconciliation/BankReconciliationMatcher.ts:257-263 | for each fund the amount of its last row, or nothing |
| `BankMatcher.MatchScore` | src/services/reconciliation/BankReconciliationMatcher.ts:373-396 | 100 less 5, 15, 30 or 50 for each variance, and never below zero |
| `BankMatcher.ApprovedIff` | src/services/reconciliation/BankReconciliationMatcher.ts:184-368 | a bank row is approved without review if and only if it has fund rows, the totals agree, the floored day difference is at most 4 and each fund has no recorded amount, is within 1%, or is within 2% and 1,000 UGX |
| `ApprovalRules.ApprovedExactly` | src/services/reconciliation/BankReconciliationMatcher.ts:94-368 | the same fund by fund, XUMMF, XUBF, XUDEF and XUREF against the field of the bank row of the same name, in numbers |
| `ApprovalRules.VariancesExactly` | src/services/reconciliation/BankReconciliationMatcher.ts:218-299 | the variances are one for the date and one for each fund that is more than 1% from a recorded amount, each with that fund's two amounts, its severity and whether it can be approved |
| `ApprovalRules.StatusAndScore` | src/services/reconciliation/BankReconciliationMatcher.ts:184-396 | score, status and approval from the number of variances of each severity |
| `ApprovalRules.EqualIsMatched` | src/services/reconciliation/BankReconciliationMatcher.ts:94-213 | a bank row equal to its rows in total, day and all four funds is MATCHED with the score 100 and approved |
| `ApprovalRules.NotMatched` | src/services/reconciliation/BankReconciliationMatcher.ts:94-183 | no fund row gives the score 0, totals apart 50, each with its one variance and no approval |
| `BankMatcher.ApprovalBound` | src/services/reconciliation/BankReconciliationMatcher.ts:184-396 | approval means a score of at least 75, a total within max(1%, 1,000 UGX) of the fund total, a time between 4 days before and less than 5 days after, and every fund with a recorded amount within 2% of it |
| `ApprovalRules.ApprovedBound` | src/services/reconciliation/BankReconciliationMatcher.ts:184-396 | and so fund by fund, with the fields of the bank row named |
| `BankMatcher.FullScoreIff` | src/services/reconciliation/BankReconciliationMatcher.ts:373-396 | a score of 100, the status MATCHED and an empty list of variances are the same thing |
| `BankMatcher.ScoreDoesNotDecide` | src/services/reconciliation/BankReconciliationMatcher.ts:333-396 | a result with the score 95 can still need review |
| `BankMatcher.RecordedIsSum` | src/services/reconciliation/BankReconciliationMatcher.ts:257-263 | the compared amount is all that a fund received if and only if its rows before the last sum to nothing |
| `BankMatcher.FullAmountFits` | src/services/reconciliation/BankReconciliationMatcher.ts:266-292 | a bank row that gives a fund all it received passes the test for that fund if and only if the fund's rows before the last are small enough against the last |
| `BankMatcher.OnlyTheLastRowCounts` | src/services/reconciliation/BankReconciliationMatcher.ts:257-263 | for instance with two rows of a fund: a row that gives the fund half of what it received is an exact match |
| `PriceSheets.ParseThreeTabs` | src/services/fund-price/FundPriceParser.ts:104-188 | the loops over the three sheets and the final filter compute Parsed |
| `PriceSheets.LookupPutAll` | src/services/fund-price/FundPriceParser.ts:104-165 | of a whole sheet only the last value of a key counts; mids and offers open no entry |
| `PriceSheets.LastIsFromLastRow` | src/services/fund-price/FundPriceParser.ts:104-165 | the last value of a key is that of the last row with its date and a price for its fund |
| `PriceSheets.MergeIsLastWinsJoin` | src/services/fund-price/FundPriceParser.ts:104-188 | one price for a key, if and only if the last bid, mid and offer of the key exist, are positive and in order; the file is refused if and only if there is none |
| `PriceRules.FilePriceIff` | src/services/fund-price/FundPriceParser.ts:104-188 | a price comes out if and only if its bid, mid and offer stand in the last rows of their sheets with its date and a price for its fund, one of the four, and 0 < bid <= mid <= offer |
| `PriceStore.UploadDoes` | src/services/fund-price/FundPriceService.ts:51-124 | an upload inserts exactly the new keys, counts every other accepted entry as updated, and reports each refused entry with its row |
| `PriceRules.RefusedEntries` | src/services/fund-price/FundPriceService.ts:55-77 | refused, and reported with row and reason, are exactly the entries of unknown funds and those with bid above mid or mid above offer |
| `PriceRules.LastIsStored` | src/services/fund-price/FundPriceService.ts:79-114 | the last acceptable entry of a key is the one stored |
| `PriceRules.NavStored` | src/services/fund-price/FundPriceService.ts:79-114 | the stored net asset value is the last one given by an acceptable entry of the key, and without one the earlier one |
| `PriceCache.PriceService.UploadPrices` | src/services/fund-price/FundPriceService.ts:34-140 | the new table, the counts, the problems, and the cache cleared if and only if an entry was accepted |
| `PriceCache.PriceService.DeletePrice` | src/services/fund-price/FundPriceService.ts:269-277 | the row is removed and the cache cleared; a missing row is an error without effect |
| `PriceCache.SavedIsLast` | src/services/fund-price/FundPriceService.ts:79-114 | after an upload a row carries the prices of the last accepted entry of its key and is otherwise as it was |
| `PriceCache.ThreeTabUpload` | src/services/fund-price/FundPriceService.ts:51-124 | where the four funds are known, a file of three sheets is accepted as a whole; inserted are its keys new to the table and updated its keys already there |
| `PriceCache.ThreeTabKeys` | src/services/fund-price/FundPriceParser.ts:104-188 | and its keys are those with a complete last-wins price |
| `PriceStore.LatestIsUnique` | src/services/unit-registry/UnitRegistryService.ts:541-580 | latest prices are determined: the mid price at the newest date of each fund that has one, and the newest of these dates |
| `PriceStore.AnyOrderIsLatest` | src/services/unit-registry/UnitRegistryService.ts:602-640 | looking the funds up in any order gives them |
| `PriceRules.LatestMid` | src/services/unit-registry/UnitRegistryService.ts:541-580 | a latest price is the mid price of the newest quote of one of the four funds, and nothing else |
| `PriceRules.AsOfMid` | src/services/unit-registry/UnitRegistryService.ts:541-580 | and as of a date that of the newest quote up to the date |
| `PriceRules.LatestDate` | src/services/unit-registry/UnitRegistryService.ts:541-580 | with the newest date of the four funds, and none if they have no quote |
| `PriceCache.PriceService.GetLatestPrices` | src/services/unit-registry/UnitRegistryService.ts:583-636 | from the cache if it is filled, else from the table, and then stored; with a coherent cache these are the latest prices |
| `PriceCache.PriceService.GetPricesAsOf` | src/services/unit-registry/UnitRegistryService.ts:541-580 | the latest prices among the rows up to the date |
| `PriceCache.PriceService.GetLatestPricesSlowly` | src/services/unit-registry/UnitRegistryService.slow.ts:180-222 | one lookup for each fund gives the same prices |
| `PriceCache.StepKeepsCoherent` | src/services/fund-price/FundPriceService.ts:128-132 | a step keeps the cache coherent if and only if it is no write, or no reader is between query and store, or the latest prices stay the same |
| `PriceCache.CoherentIff` | src/services/unit-registry/UnitRegistryService.ts:583-636 | a run of uploads, deletions, reads and expiries stays coherent throughout if and only if all its writes are harmless in that sense |
| `PriceCache.RunAnswersLatest` | src/services/unit-registry/UnitRegistryService.ts:583-636 | and then every reader gets the latest prices |
| `PriceCache.HarmfulWriteIsSeen` | src/services/unit-registry/UnitRegistryService.ts:583-636 | after any other write the first reader under way gets old prices and leaves them in the cache for the next |
| `PriceCache.OlderPricesAreHarmless` | src/services/fund-price/FundPriceService.ts:79-114 | an upload whose accepted entries are all older than the newest of their funds is harmless at any time |
| `PriceCache.WriteDuringReadLeavesStale` | src/services/unit-registry/UnitRegistryService.ts:591-636 | for instance the first price of a fund, uploaded while a reader is between query and store |
| `UnitRegistry.SlowRegistry` | src/services/unit-registry/UnitRegistryService.slow.ts:97-161 | the nested loops over accounts and transactions give the entries, without zero balances unless wanted, and the summary |
| `RegistryRules.SlowEntryIs` | src/services/unit-registry/UnitRegistryService.slow.ts:97-150 | an entry holds in each of XUMMF, XUBF, XUDEF and XUREF the sum of the account's units in that fund, and is worth each sum at the price of the same fund |
| `RegistryRules.SlowEntriesAre` | src/services/unit-registry/UnitRegistryService.slow.ts:118-150 | and an account is listed unless zero balances are unwanted and its four sums add up to zero |
| `RegistryRules.AccountRowIs` | src/services/unit-registry/UnitRegistryService.ts:373-398 | in the fast registry: the sums of the transactions up to the day that are for a goal of the account |
| `RegistryRules.AccountRowsAre` | src/services/unit-registry/UnitRegistryService.ts:373-398 | with a row for exactly the accounts that such a transaction exists for |
| `RegistryRules.BalanceIs` | src/services/unit-registry/UnitRegistryService.ts:649-725 | in the goal breakdown: the sums of the goal's transactions up to the day |
| `RegistryRules.BreakdownIs` | src/services/unit-registry/UnitRegistryService.ts:655-725 | which has a balance for exactly the goals of the account that such a transaction exists for |
| `RegistryRules.LastBookedIs` | src/services/unit-registry/UnitRegistryService.slow.ts:107-117 | the last date is the latest day of the account's transactions in the four funds |
| `RegistryRules.LastJoinedIs` | src/services/unit-registry/UnitRegistryService.ts:382 | and in the fast registry the latest day of its joined transactions |
| `RegistryTotals.PricingSumsIsSummingPrices` | src/services/unit-registry/UnitRegistryService.ts:489-510 | pricing the summed units equals summing the priced entries |
| `RegistryTotals.SameUnits` | src/services/unit-registry/UnitRegistryService.ts:374-398 | the joined and grouped units of an account are those booked on it, when every transaction is booked on the account of its goal |
| `RegistryTotals.FastRefinesSlow` | src/services/unit-registry/UnitRegistryService.ts:373-510 | the fast summary without a threshold has the units and the value of the simple summary with zero balances, whatever the sorting and the page |
| `RegistryTotals.FundedTotals` | src/services/unit-registry/UnitRegistryService.ts:403-420 | with a threshold the summary leaves out exactly the worth of the accounts below it |
| `RegistryTotals.ZeroBalancesLeaveOut` | src/services/unit-registry/UnitRegistryService.slow.ts:121-127 | what the simple total lacks when zero balances are left out |
| `RegistryTotals.WorthButLeftOut` | src/services/unit-registry/UnitRegistryService.slow.ts:121-127 | an account can be left out and be worth something: one unit sold for each bought in a dearer fund |
| `RegistryTotals.GoalsAddUpToAccount` | src/services/unit-registry/UnitRegistryService.ts:649-725 | the goals of an account together hold and are worth what the account's row for the same day holds and is worth |
| `RegistryTotals.SortedIsSorted` | src/services/unit-registry/UnitRegistryService.ts:424-451 | sorting keeps the entries and puts them in order, ascending or descending |
| `RegistryTotals.PagesAreAPrefix` | src/services/unit-registry/UnitRegistryService.ts:453-454 | consecutive pages run through the list without gap or repetition |
| `RegistryTotals.PagesAreTheRegistry` | src/services/unit-registry/UnitRegistryService.ts:424-454 | all pages together are the funded accounts, each once and in order |
| `RegistryRules.RegistryLists` | src/services/unit-registry/UnitRegistryService.ts:403-454 | the entries of the registry's pages together list each row worth at least the threshold once and in order |
| `RegistryRules.SortIsStable` | src/services/unit-registry/UnitRegistryService.ts:424-451 | rows sorted by the same value stay in the order they came in |
| `RegistryRules.RegistryCounts` | src/services/unit-registry/UnitRegistryService.ts:403-510 | total and clients are the number of these rows, and a page is at most limit long |

## Left out

- Rerun.RerunIsIdempotent: assumes that no goal code begins with `MANUAL:`, which holds when none contains a colon.
- TwoEngines.DrillDownRefinesVarianceList: both engines get identically ordered inputs; the source sorts the two lists in opposite directions, and the SQL of the variance list also drops rows without a source.
- Removal.SameShapeRemoval: for goal codes and listed codes with equally many dashes; other shapes are under `Removal.RemovalIsMembership`.
- UploadedFunds.RunKeepsStorable: the text of a date is any text of ten characters that differs from that of every other date; the calendar is not modelled.
- CreatedCodes.EveryDrillDownConserves: goal codes contain no comma, and none begins with `MANUAL:`.
- CreatedCodes.EveryRemoval: goal codes contain neither colon nor comma, and a creation has at least one.
- Reload.ManualMatchSurvivesReload: goal codes contain no comma, and no other loaded manual code names them; a name is free text in the source.
- PriceCache.RunAnswersLatest: the cache store never fails; a failed deletion, which the source only logs, leaves old prices until they expire.
- UnitRegistry.SlowRegistry: takes the accounts already searched and sorted, and the prices as given.
- RegistryTotals.SortedIsSorted: compares names by character codes, not by the collation of a locale.
- PassRules.NoFundSplitLeft: only where no goal transaction of the day is close to the bank row alone; elsewhere the code misses splits, see `FundToBank.SplitFundStepIff`.
- PassRules.NoBankSplitLeft: only for rows among the ten largest of the day, since the subset phase looks at ten.
- The order, date and source filters of the SQL queries that load bank and fund rows, and the return for a goal that does not exist.
- The order in which reversal candidates are listed.
- The choice that `LIMIT 1` makes among several hits of a search for resolved variances, and with it the text of the reason.
- Per-fund amounts and review fields of a goal transaction, `matchedAt`, `matchScore`, users, clocks and audit fields.
- Codes of rows whose fund rows disappear later: a stored code stays until it is replaced or removed.
- Review tagging of bank rows inside the reversal model: it may overwrite a linked row.
- The parsing of price cells and dates, the legacy row format of price files, and file handling.
- Reads during an upload of prices: an upload is one step here, while the source writes its rows one by one and clears the cache at the end, so a read during it counts as before it or between its rows.
- The rollback of an upload batch, which deletes fund rows (src/services/fund-upload/database/BatchRollbackService.ts:70), and the plain codes that the reconciliation of bank uploads writes (src/services/bank-upload/database/BankTransactionRepository.ts:582-635).
- Database errors during an upload; a price row is named by its fund and date in place of its id, and a date read back from the cache stays a date.
- `goal_transactions_view` and `account_unit_balances`, and with them the registry without a date.
- Floating-point rounding, time zones and the parsing of JavaScript dates.
- `getGoalSummary`, `getFundSummary`, `getAccountFundSummary`, `getResolutionStats` and reports: sums and counts.
- Upload pipelines, routes, queues, exports and the frontend.
