# nest-allocate-payments: a verified model of the payout core

This project models the part of the payment-allocation service that does the
actual work:

- **The payout selectors** in `MaximizePayoutService`.
  - The greedy selector sorts its input array in place: by amount descending, then by id ascending. It then takes every payment that still fits under the capacity.
  - The exact selector solves the 0/1 knapsack in which each payment's value is its amount. It fills a table and backtracks.
- **The payment ledger** in `PaymentService`.
  - It stores payments and issues their ids from a counter.
  - It moves payments through the statuses new → processed → unlocked → paid_out.
  - It computes each payment's entitlement after fees, rounding each fee to cents separately.
  - A payout offers a shop's eligible payments to the greedy selector and settles the ones selected.
- **The shop store** in `ShopService`: a dictionary of shops and the counter that issues their ids.

Files:

| file | module | contents |
|---|---|---|
| `ids.dfy` | `Ids` | ids as the decimal string of a counter; distinct counters give distinct ids |
| `results.dfy` | `Results` | `Option` and `Result` |
| `seqs.dfy` | `Seqs` | subsequence and reversal |
| `payout_order.dfy` | `PayoutOrder` | payout items, their sum, the sort order, a functional insertion sort and its uniqueness |
| `maximize_payout.dfy` | `MaximizePayout` | the greedy selector (in-place insertion sort over an `array`, then a scan) and the exact selector (an `array2` table and a backtrack); the specification functions `Greedy` and `Best` |
| `payout_examples.dfy` | `PayoutExamples` | the scenarios of the selector tests, stated about the model |
| `decimal.dfy` | `Decimal` | Big.js `round(2)` as rounding to cents, half away from zero |
| `shop_service.dfy` | `Shops` | `class ShopService` |
| `ledger.dfy` | `Ledger` | payments, fees, the status update of one id and of a batch, payout selection and settlement, all as functions with lemmas |
| `payment_service.dfy` | `Payments` | `class PaymentService`, whose methods update the stored payments in place and are proved against the `Ledger` functions |

Amounts are modelled with two units:

- The selectors work in integer cents.
- The ledger works in exact decimals (`real`).
- The ledger hands the selectors `Cents(x)`, that is 100 × `round(x, 2)`.

## Model

| member | source | states |
|---|---|---|
| Ids.NatToString | src/shop.service.ts:12 | `idCounter.toString()` is a non-empty string of decimal digits, one digit exactly for counters below 10 |
| Ids.NatToStringInjective | src/shop.service.ts:9-14 | two counter values with the same id string are equal |
| Ids.DistinctCountersDistinctIds | src/shop.service.ts:12-14 | different counter values give different ids |
| PayoutOrder.StrLess | src/maximize-payout.service.ts:15 | `a.localeCompare(b) < 0` as lexicographic order on characters; `StrLessIrreflexive`, `StrLessTotal`, `StrLessAsymmetric` and `StrLessTransitive` below state that it is a strict total order |
| PayoutOrder.StrLessIrreflexive | src/maximize-payout.service.ts:15 | no id sorts before itself |
| PayoutOrder.StrLessTotal | src/maximize-payout.service.ts:15 | of two different ids, one sorts before the other |
| PayoutOrder.StrLessAsymmetric | src/maximize-payout.service.ts:15 | two ids never sort before each other |
| PayoutOrder.StrLessTransitive | src/maximize-payout.service.ts:15 | the id order is transitive |
| PayoutOrder.Before | src/maximize-payout.service.ts:11-16 | the comparator returns a negative number: the larger amount goes first, equal amounts by ascending id; `BeforeAsymmetric`, `InOrderTransitive`, `InOrderAntisymmetric` and `InOrderTotal` below state that it is a consistent total order |
| PayoutOrder.BeforeAsymmetric | src/maximize-payout.service.ts:11-16 | if the comparator puts x strictly first, y does not come before x |
| PayoutOrder.InOrderTransitive | src/maximize-payout.service.ts:11-16 | the comparator's order (amount descending, id ascending) is transitive |
| PayoutOrder.InOrderAntisymmetric | src/maximize-payout.service.ts:11-16 | two items in order both ways are the same item |
| PayoutOrder.InOrderTotal | src/maximize-payout.service.ts:11-16 | any two items are comparable |
| PayoutOrder.SortItems | src/maximize-payout.service.ts:11-16 | the reference sort of the comparator (amount descending, then id ascending), by insertion; `SortItemsCorrect` proves it returns a sorted permutation and `SortedUnique` that it is the only one |
| PayoutOrder.InsertMultiset | src/maximize-payout.service.ts:11-16 | inserting into a sorted list adds exactly that item |
| PayoutOrder.InsertSorted | src/maximize-payout.service.ts:11-16 | inserting into a sorted list keeps it sorted |
| PayoutOrder.SortItemsCorrect | src/maximize-payout.service.ts:11-16 | the reference sort returns a sorted permutation of its input |
| PayoutOrder.SortedUnique | src/maximize-payout.service.ts:11-16 | two sorted permutations of the same items are equal, so the sort result does not depend on the sorting algorithm |
| PayoutOrder.SumConcat | src/maximize-payout.service.ts:25 | the total of a concatenation is the sum of the totals |
| MaximizePayout.Greedy | src/maximize-payout.service.ts:19-28 | the greedy scan: walk the sorted list and take each payment whose amount still fits in what is left of the capacity; its properties are stated by `GreedySum`, `GreedyWithinCapacity`, `GreedySubsequence`, `GreedyTakesAllThatFits` and `GreedyNothingFits` below |
| MaximizePayout.GreedySum | src/maximize-payout.service.ts:19-29 | the greedy `totalPayout` is the sum of the selected amounts |
| MaximizePayout.GreedyWithinCapacity | src/maximize-payout.service.ts:22-27 | for a non-negative capacity, the greedy total never exceeds it |
| MaximizePayout.GreedySubsequence | src/maximize-payout.service.ts:22-27 | the greedy selection is a subsequence of the scanned list, in scan order |
| MaximizePayout.GreedyTakesAllThatFits | src/maximize-payout.service.ts:22-27 | when non-negative amounts sum to at most the capacity, everything is taken in order |
| MaximizePayout.GreedyNothingFits | src/maximize-payout.service.ts:22-27 | when every amount exceeds a non-negative capacity (e.g. capacity 0, positive amounts) or the list is empty, the result is `{0, []}` |
| MaximizePayout.SwapAdjacent | src/maximize-payout.service.ts:11 | swapping two neighbours changes exactly those two cells and keeps the multiset |
| MaximizePayout.InsertInto | src/maximize-payout.service.ts:11-16 | one insertion step of the in-place sort: the prefix one longer is sorted and holds the same payments as before, the rest of the array is unchanged, and the whole array is a permutation of the old one |
| MaximizePayout.SinkLeft | src/maximize-payout.service.ts:11-16 | the swapping loop moves the new payment left to a position `j` where it no longer goes before its left neighbour and goes before everything to its right; the array stays a permutation and the part after the prefix is unchanged |
| MaximizePayout.SunkIsSorted | src/maximize-payout.service.ts:11-16 | once the sunk payment stops before its left neighbour, the prefix up to `i` is sorted |
| MaximizePayout.SortPayments | src/maximize-payout.service.ts:11-16 | the in-place sort leaves the array sorted, a permutation of its old contents, equal to the reference sort of them |
| MaximizePayout.ScanPayments | src/maximize-payout.service.ts:19-29 | the scan over the sorted array returns exactly the greedy selection `Greedy` of its contents |
| MaximizePayout.MaximizePayout | src/maximize-payout.service.ts:6-30 | `maximizePayout`: the array is left sorted and permuted; the result is the greedy scan of it; its total is its sum, fits a non-negative capacity, and the selection is a subsequence of the sorted array |
| MaximizePayout.Best | src/maximize-payout.service.ts:37-51 | `dp[i][j]` never exceeds the capacity `j` |
| MaximizePayout.SumPositive | src/maximize-payout.service.ts:53-61 | positive amounts add up to zero only when there are none |
| MaximizePayout.BestOptimal | src/maximize-payout.service.ts:39-51 | every collection drawn from the first `i` payments that fits in `j` sums to at most `dp[i][j]` |
| MaximizePayout.BestOptimalTaking | src/maximize-payout.service.ts:43-46 | the same, for a collection that uses payment `i` |
| MaximizePayout.BestTaking | src/maximize-payout.service.ts:43-46 | when payment `i` fits in `j`, `dp[i-1][j - amount] + amount` is at most `dp[i][j]` |
| MaximizePayout.BestTaken | src/maximize-payout.service.ts:57-59 | where `dp[i][j] != dp[i-1][j]`, payment `i` fits and `dp[i][j] = dp[i-1][j - amount] + amount` |
| MaximizePayout.FillRow | src/maximize-payout.service.ts:40-50 | filling row `i` makes every entry up to row `i` equal to the optimum `Best`, and leaves every later row as it was |
| MaximizePayout.Backtrack | src/maximize-payout.service.ts:53-61 | the backtrack picks payments whose amounts sum to `dp[n][capacity]`, in reverse input order |
| MaximizePayout.MaximizePayoutDP | src/maximize-payout.service.ts:32-67 | `maximizePayoutDP`: the total is the optimum, within the capacity, equal to the sum of the selection; the selection is drawn from the input in reverse order; no fitting collection does better; with positive amounts, nothing is selected exactly when the total is 0 |
| MaximizePayout.ExactOptimal | src/maximize-payout.service.ts:37-51 | no collection that fits the capacity beats `dp[n][capacity]` |
| MaximizePayout.ExactBeatsGreedy | src/maximize-payout.service.ts:19-51 | on the same non-negative input, the exact total is at least the greedy total |
| PayoutExamples.GreedyExampleSkipsMisfit | src/maximize-payout.service.spec.ts:55-69 | capacity 70 over {30, 20, 50}: sorted [50, 30, 20], selection [50, 20], total 70 |
| PayoutExamples.GreedyExampleTieBreak | src/maximize-payout.service.spec.ts:71-84 | equal amounts sort by ascending id; capacity 100 takes both |
| PayoutExamples.ExactExample79 | src/maximize-payout.service.spec.ts:150-170 | capacity 79 over ids 1–7: the exact optimum is 79 |
| PayoutExamples.AlreadySorted | src/maximize-payout.service.ts:11-16 | {6, 5, 5} with ids 1, 2, 3 is already in sort order |
| PayoutExamples.GreedyTakesSix | src/maximize-payout.service.ts:22-27 | over {6, 5, 5} with capacity 10 the greedy scan takes only 6 |
| PayoutExamples.ExactReachesTen | src/maximize-payout.service.ts:37-51 | over {6, 5, 5} with capacity 10 the exact optimum is 10 |
| PayoutExamples.GreedyMissesOptimum | src/maximize-payout.service.ts:5-30 | the greedy selector is not optimal: 6 against 10 on {6, 5, 5} |
| Decimal.Cents | src/payment.service.ts:160-173 | `round(currencyPrecision)` counted in cents: the result is a nearest whole number of cents (at most half a cent away); `Round2HalfAwayFromZero` states the ROUND_HALF_UP tie rule and `Round2Symmetric` that rounding commutes with negation |
| Decimal.Round2 | src/payment.service.ts:160-173 | `round(currencyPrecision)` as a decimal value, `Cents(x) / 100`; `Round2Error`, `Round2IsWholeCents`, `Round2Idempotent`, `Round2Monotone` and `Round2Symmetric` below state its properties |
| Decimal.Round2Error | src/payment.service.ts:160-173 | `round(2)` moves a value by at most half a cent |
| Decimal.Round2WholeCents | src/payment.service.ts:160-173 | a value with at most two fractional digits is unchanged by rounding |
| Decimal.Round2IsWholeCents | src/payment.service.ts:160-173 | a rounded value has at most two fractional digits |
| Decimal.Round2Idempotent | src/payment.service.ts:160-173 | rounding twice is rounding once |
| Decimal.Round2Monotone | src/payment.service.ts:160-173 | rounding keeps the order of two values |
| Decimal.Round2Symmetric | src/payment.service.ts:160-173 | rounding commutes with negation |
| Decimal.Round2HalfAwayFromZero | src/payment.service.ts:160-173 | a value exactly half-way between two whole cents rounds away from zero: 0.005 to 0.01 and −0.005 to −0.01, and so on for every cent |
| Decimal.WholeCentsClosed | src/payment.service.ts:169-177 | sums and differences of whole-cent values are whole-cent values |
| Shops.ShopService.constructor | src/shop.service.ts:6-9 | an empty store whose counter starts at 1 |
| Shops.ShopService.AddShop | src/shop.service.ts:11-16 | the new shop gets the current counter as its id and the given name and commission; its id was not yet used; it is stored under that id and nothing else changes; the counter advances by one |
| Shops.ShopService.GetShop | src/shop.service.ts:18-20 | a shop is returned exactly when one is stored under the id; it is the stored shop; an id the counter has not issued finds nothing |
| Ledger.CounterIdsUnique | src/payment.service.ts:48-57 | payments whose ids come from the counter have pairwise distinct ids |
| Ledger.FindIssuedId | src/payment.service.ts:148-150 | with counter-issued ids, an id is found exactly when the counter has already issued it |
| Ledger.FindIndex | src/payment.service.ts:65 | `find` by id returns the first payment with that id, or reports that none has it |
| Ledger.FindIndexOfMember | src/payment.service.ts:65 | with distinct ids, `find` returns the payment at its own position |
| Ledger.FindIndexSameIds | src/payment.service.ts:135 | `find` by id only depends on the ids |
| Ledger.PaymentsOfShop | src/payment.service.ts:144-146 | the payments of a shop are exactly the stored payments with that shop id, in store order |
| Ledger.CalculatePayment | src/payment.service.ts:152-183 | `calculatePayment`: the entitlement of a payment keeps its id; `toPayOutAmount` is the amount less the fixed fee, the percentage fee and the commission, each rounded to cents, and `availablePayOutAmount` also withholds the rounded block percentage unless the payment is unlocked; stated by `EntitlementIgnoresProgress`, `DeductionsAreWholeCents`, `EntitlementRoundingError`, `DefaultFeesPayInFull`, `HoldbackLiftedOnlyWhenUnlocked` and `AvailableAtMostEntitlement` below |
| Ledger.EntitlementOf | src/payment.service.ts:157-158 | `calculatePayment` with the commission of the payment's own shop looked up; the entitlement keeps the payment's id; `SettledAmountMatchesEntitlement` and `CandidatesFromEligible` state what the payout does with it |
| Ledger.EntitlementIgnoresProgress | src/payment.service.ts:157-171 | the entitlement does not depend on the status or on what was already paid out |
| Ledger.DeductionsAreWholeCents | src/payment.service.ts:160-176 | the amount less the entitlement, and the entitlement less the available part, are whole cents |
| Ledger.EntitlementRoundingError | src/payment.service.ts:160-171 | the entitlement is within 1.5 cents of the amount less the unrounded fees |
| Ledger.DefaultFeesPayInFull | src/payment.service.ts:152-182 | with the all-zero default fees and no commission, the whole amount is owed and available |
| Ledger.HoldbackLiftedOnlyWhenUnlocked | src/payment.service.ts:172-177 | the available part equals the entitlement exactly when the payment is unlocked or the holdback rounds to 0; otherwise it is the entitlement less the rounded holdback (paid_out included) |
| Ledger.AvailableAtMostEntitlement | src/payment.service.ts:172-177 | with a non-negative block percentage and amount, the available part never exceeds the entitlement |
| Ledger.RequestedTransition | src/payment.service.ts:73-87 | a requested transition is granted only to the requested status, only when it differs from the current one, and only from new or processed; new to processed is always granted (`UpdateOneOutcome` states the exact condition) |
| Ledger.UpdateOne | src/payment.service.ts:64-98 | updating one id changes at most statuses, and keeps the number of payments |
| Ledger.StatusChangeKeeps | src/payment.service.ts:73-97 | a change of statuses only keeps counter ids, known shops and positive amounts |
| Ledger.UpdateOneOutcome | src/payment.service.ts:66-87 | an update succeeds exactly when the id is known and the request is new→processed or processed→unlocked; otherwise the error names the missing id or the disallowed transition |
| Ledger.UpdateOneEffect | src/payment.service.ts:73-97 | a successful update changes only the found payment, moves its status forward, and, when unlocking, moves on to paid_out exactly when what was paid out equals the entitlement |
| Ledger.UpdateBatch | src/payment.service.ts:60-99 | a batch keeps the number of payments and changes at most statuses |
| Ledger.UpdateBatchStopsAtError | src/payment.service.ts:64-99 | once an id fails, the ids after it change nothing: the updates made before the failure stay |
| Ledger.UpdateBatchFailsAt | src/payment.service.ts:64-99 | a batch that fails at position `i` ends in the state and with the error it had at `i` |
| Ledger.UpdateBatchFrame | src/payment.service.ts:64-98 | a payment whose id the batch does not name leaves the batch exactly as it was, whether the batch succeeds or stops at an error |
| Ledger.BatchFrame | src/payment.service.ts:64-98 | the same frame for all payments of the store at once |
| Ledger.UpdateBatchMovesForward | src/payment.service.ts:73-97 | a batch never moves a status backwards |
| Ledger.OpenPayments | src/payment.service.ts:102-105 | the status filter keeps exactly the processed and unlocked payments, in store order (a subsequence of the shop's payments) |
| Ledger.Candidates | src/payment.service.ts:113-123 | the `forEach` over the shop's open payments yields at most one entitlement per payment; `CandidatesFromEligible` states that they are exactly the entitlements of the payments with more available than paid out |
| Ledger.SumAvailable | src/payment.service.ts:111-118 | `sumToPayOutAmount`: the available amounts of the candidates added up in order; `Payments.WrapPayments` proves the loop computes it |
| Ledger.ItemOf | src/payment.service.ts:126-131 | the item handed to the selector keeps the entitlement's id and carries its full `toPayOutAmount` rounded to cents, counted in cents |
| Ledger.PayoutCapacity | src/payment.service.ts:125 | the capacity is the sum of the candidates' available amounts rounded to cents, counted in cents; `PayoutSelectionWithinCapacity` states that the selection stays within it |
| Ledger.PayoutCandidates | src/payment.service.ts:101-123 | the shop's processed and unlocked payments, in store order, wrapped with their entitlements and kept only when more is available than was paid out; `CandidatesFromEligible` and `PayoutItemsAreEligible` state that they are exactly the eligible payments |
| Ledger.PayoutSelection | src/payment.service.ts:124-132 | the greedy selection over the candidates' rounded entitlements, sorted, within the rounded capacity; `PayoutSelectionWithinCapacity` states that it is drawn from the candidates and fits the capacity, `SelectedItemsMatch` that each selected item names an eligible payment, and `PayoutEffect` what settling it does to the store |
| Ledger.ToItems | src/payment.service.ts:126-131 | each wrapped payment becomes an item with its id and its entitlement rounded to cents, in order |
| Ledger.CandidatesFromEligible | src/payment.service.ts:113-123 | the wrapped payments are exactly the entitlements of the payments with more available than paid out |
| Ledger.PayoutItemsAreEligible | src/payment.service.ts:102-131 | every offered item is the rounded entitlement of an eligible payment of the shop, and every eligible payment is offered |
| Ledger.PayoutSelectionWithinCapacity | src/payment.service.ts:124-132 | the selected items are drawn from the offered ones, sum to the reported total, and fit a non-negative capacity |
| Ledger.Settle | src/payment.service.ts:136-139 | settling keeps the id, shop and amount, records the paid-out cents as `amountPaidOut`, and makes the status paid out exactly when it was unlocked or already paid out; any other status is unchanged |
| Ledger.SettleIdempotent | src/payment.service.ts:134-140 | settling a payment twice with the same amount is settling it once |
| Ledger.ApplyPayout | src/payment.service.ts:134-141 | settling keeps every payment's id, shop and amount |
| Ledger.SettlementKeeps | src/payment.service.ts:134-141 | a settlement keeps counter ids, known shops and positive amounts |
| Ledger.SettleStep | src/payment.service.ts:134-140 | one more selected item settles its own payment and leaves all others as they were |
| Ledger.ApplyPayoutSettles | src/payment.service.ts:134-141 | after settling, a payment whose id was selected is settled with its own amount and every other payment is unchanged |
| Ledger.CandidateItemMatches | src/payment.service.ts:113-131 | an offered item's id finds an eligible payment whose rounded entitlement is the item's amount |
| Ledger.SelectedItemsMatch | src/payment.service.ts:124-135 | every selected item names an eligible payment and carries its rounded entitlement |
| Ledger.PayoutEffect | src/payment.service.ts:101-142 | a payout settles exactly the selected payments, each eligible and each with its own entitlement rounded to cents; it overwrites `amountPaidOut`, moves unlocked to paid_out, keeps processed; all other payments are unchanged |
| Ledger.SettledAmountMatchesEntitlement | src/payment.service.ts:126-136 | the recorded `amountPaidOut` is within half a cent of the entitlement, and equal to it when the amount has at most two fractional digits |
| Ledger.UnlockAfterSettlementPaysOut | src/payment.service.ts:88-97 | a processed payment with a whole-cent amount that a payout has settled goes straight to paid_out when unlocked |
| Payments.PaymentService.constructor | src/payment.service.ts:28-35 | an empty store over the given shop store; the counter starts at 1 |
| Payments.PaymentService.CreatePayment | src/payment.service.ts:37-58 | an unknown shop is refused first, then a non-positive amount, and a refusal changes nothing; otherwise one payment with the next id, status new and nothing paid out is appended, its id differs from every stored id, and the counter advances |
| Payments.PaymentService.UpdatePaymentStatus | src/payment.service.ts:60-99 | the new store and the error are those of the batch `UpdateBatch`; every payment whose id is not in the batch is unchanged; the invariant (counter ids, known shops, positive amounts) is kept |
| Payments.PaymentService.UpdateOnePayment | src/payment.service.ts:64-98 | one id of the batch: the store becomes what `UpdateOne` gives, or is left unchanged with its error; the invariant is kept |
| Payments.PaymentService.PayoutPayments | src/payment.service.ts:101-142 | the new store is the old one with the greedy selection settled, position by position as `PayoutEffect` states; the result lists the settled payments in selection order |
| Payments.PaymentService.SelectForPayout | src/payment.service.ts:102-132 | the selection is the greedy selection over the shop's eligible payments against the rounded available sum |
| Payments.PaymentService.SettleSelection | src/payment.service.ts:134-141 | the loop over the selection leaves the store as `ApplyPayout` describes |
| Payments.PaymentService.GetPayments | src/payment.service.ts:144-146 | exactly the stored payments of the shop, in store order |
| Payments.PaymentService.GetPayment | src/payment.service.ts:148-150 | a stored payment with that id, or none when no payment has it; with counter ids, found exactly when the counter has issued the id |
| Payments.WrapPayments | src/payment.service.ts:113-123 | the loop collects exactly the entitlements with more available than paid out, and their available sum |

## Left out

- Floating point. Greedy totals are added as JS numbers, and `.toNumber()` converts the rounded decimals at src/payment.service.ts:125-130. The model uses exact integer cents.
- Big.js `div` works to 20 decimal places. The model's division is exact. `round(2)` is assumed to use Big.js's default mode, half away from zero.
- `localeCompare` is modelled as plain lexicographic order on characters. Locale collation is not modelled.
- Payments.PaymentService.CreatePayment: the amount is a decimal number, not a string. The `+amount <= 0` coercion is not modelled: a non-numeric string gives NaN and is accepted by the source.
- Shops.ShopService.AddShop: the commission is a decimal number, not a string. The source stores the string it is given (src/shop.service.ts:7, src/add-shop.dto.ts:9-10), and `Big(commissionC)` parses it inside `calculatePayment` (src/payment.service.ts:165). A string that Big.js rejects, such as "+5", which the DTO's number-string check accepts, makes `calculatePayment` throw "Invalid number". The model has no such failure.
- Ledger.CalculatePayment: the fee settings `fixedA`, `percentB` and `percentBlockD` are decimal numbers, not the strings of src/system-fees.dto.ts:5-14. The source parses them with `Big(...)` at src/payment.service.ts:159-171, and a string Big.js rejects makes it throw. The model has no such failure.
- Shops.ShopService.AddShop: the id counter is an unbounded natural number. In the source it is a JavaScript number (src/shop.service.ts:9, 14), and `idCounter++` stops changing at 2^53, after which every new shop gets the same id and overwrites the shop stored under it; the fresh-id contract and `Ids.DistinctCountersDistinctIds` hold only below that bound.
- Payments.PaymentService.CreatePayment: the id counter is an unbounded natural number. In the source it is a JavaScript number (src/payment.service.ts:29, 56) that stops changing at 2^53, after which payment ids repeat; the fresh-id contract and `Ledger.CounterIdsUnique` hold only below that bound.
- Payments.PaymentService.UpdatePaymentStatus: the fee configuration is passed in as a value rather than read from the admin configuration service.
- Payments.PaymentService.PayoutPayments: the fee configuration is passed in as a value rather than read from the admin configuration service.
- The unused `maxToPayOutAmount` (src/payment.service.ts:112, 119-121) is not modelled.
- Aliasing of the returned payment objects is not modelled as references. `PayoutPayments` returns the settled payments as values read back from the store once the whole selection is settled; the returned objects in the source show the same final state. `GetPayments`, `GetPayment` and `CreatePayment` return values, so later changes to the store do not show in them.
- The shop store is a Dafny `map`. Keys inherited from a JavaScript object's prototype, such as `getShop("constructor")`, are not modelled.
- MaximizePayout.MaximizePayoutDP: requires a natural-number capacity and non-negative integer amounts, and does not bound the capacity: `Array(capacity + 1)` at src/maximize-payout.service.ts:37 also throws a RangeError for any capacity of 2^32 − 1 or more, which the model admits. The source fails in three more ways outside the required range. A fractional capacity, or one below −1, makes `Array(capacity + 1)` at src/maximize-payout.service.ts:37 throw a RangeError before anything is read. A capacity of −1 builds empty rows and reports an undefined total. A negative or fractional amount makes the recurrence read an entry the table does not have, so `Math.max` yields NaN.
- MaximizePayout.MaximizePayoutDP: the concrete selections of the tests, such as [7, 5, 3, 2] for capacity 79, are not proved. Only their total, their order relative to the input and their optimality are proved.
- The HTTP controllers, DTO validation, the Nest module wiring and the admin configuration service are not part of this model.
- The timing tests in src/maximize-payout.service.spec.ts are not part of this model.

## Notes on the source's behaviour

- The selection is settled directly at src/payment.service.ts:134-141; nothing reconciles the rounded amounts with the exact decimal sums (a to-do at :133 notes this).
- The exact selector does not sort its input. Its selection comes out in reverse input order.
- The holdback is lifted only for status `unlocked`. A `paid_out` payment is held back like a new or processed one.
- A payout sets `amountPaidOut` to the rounded entitlement; it does not add to it. When the amount has more than two fractional digits, the recorded amount can differ from the entitlement by up to half a cent. Such a payment is then never moved to paid_out by unlocking. `Ledger.SettledAmountMatchesEntitlement` bounds this difference.
