# Verified model of the money, session, menu and rate-limit cores

This project models three components of the repository in Dafny and proves what they promise.
They share no state.

**Money (transaction-service).** Decimal strings are parsed and printed (`Money`; exactly which strings are
accepted is `DecimalGrammar`). An amount is split by fixed values or by ratio with the largest-remainder method
(`Allocation`, whose rule is stated and studied in `LargestRemainder`). Payments are validated and balances
accumulated per member (`Balances`). Two-pointer matching suggests the transfers that settle a group
(`Suggestions`; exactly when they do is `Clearing`, when they are positive `TransferSigns`). The service writes transactions and settlements and reads a
group's balances back (`Ledger`, `LedgerService`); that the order of rows does not matter is `LedgerOrder`, what
paying the suggestions does is `LedgerSettling`, what displayed nets sum to over runs is `LedgerNets`, and which rows
can be read back is `LedgerReading` and, over runs, `LedgerLocks`. What a ledger lists and what each operation does to
the nets is `LedgerEffects`, how text fields are read `LedgerInputs`, what refusals mean `LedgerRefusals`, and what
printing prints `Printing`.
Go's `int64` is a bounded type, and every addition of the source that can overflow is written with `Wrap`
(`Int64`). `Entries`, `Sums`, `Arithmetic`, `Sorting` and `Strings` hold shared definitions and laws.

**Sessions (auth-service).** `Sessions` is a step system: the clock, the user rows, the two kinds of Redis
keys and any number of calls in flight, each moved on by one access to the shared state at a time.
`SessionRuns` proves what holds in every interleaving, `SessionSlots` that a session is in one place at a time,
`SessionRevocation` what can still be consumed after a revocation, `SessionFinality` exactly when a revocation is
final, `SessionLifetimes` how long tokens are accepted, `SessionLogout` which session a logout ends, and
`SessionWitnesses` gives runs that show where a law needs its hypothesis. `AuthService` takes each call as one unit - which is one of the interleavings (`SettleIsARun`) - and proves the laws of token families over whole
runs, and exactly when a rotation succeeds. `AuthStore` is the service as an object whose methods change rows and
keys in place, each proved equal to the call it implements.
What a caller presents is nothing, a string that no key signed, or a token that was minted; time is in milliseconds.

**Menus and rate limiting (auth-service).** `Menus` is the menu table with Create, Update and Delete and the
forest they keep (`MenuCodes` says which codes it takes and what its refusals mean); `MenuTree` builds the nested
response from the flat list, and `MenuMoves` says where a created or moved menu is shown. `RateLimiter` is the Redis script
with its counter per identity, and the bounds it gives over every run.

Methods carry the source's loops and in-place updates and are proved against specification functions and
predicates; the lemmas are about those. What a method receives from elsewhere is a parameter:
`Surroundings` in `Ledger` and `DeletionAnswers` in `LedgerService` hold what the group service, the user directory
and the database answer, `matches` in `Sessions` what the password comparison answers, `stores` in `Menus` whether the
database takes a row, `id`/`newId` a fresh UUID, `now` the time.

## Results that differ from what one might expect

- `docs/TRANSACTION_SERVICE_VI.md` lines 36 and 40 require payments to equal the amount and the nets of a group to
  sum to 0. The code adds in `int64` without an overflow check, so both hold modulo 2^64 only: payments are accepted
  exactly when they differ from the amount by a multiple of 2^64 (`Balances.ValidatePayments`), and in every run, as
  long as each net fits `int64`, the displayed nets sum to 2^64 times the overflows of the expenses' payments less
  those of the income's, so to 0 exactly when these are as many (`LedgerNets.DisplayedNetsCancelIff`).
  `LedgerNets.NetsNeedNotCancel` is a run, with amounts the database columns hold and a row that
  reads back, in which they sum to 2^64.
- Suggested settlements clear a group exactly when no displayed net is -2^63, whose negation overflows, and the
  displayed nets sum to 0 mathematically; the service only checks the wrapped sum (`Clearing.ClearsExactly`,
  `LedgerSettling.PayingSuggestionsClearsIff`). `Clearing.WrappedNetIsNotCleared` is a sheet without -2^63 that passes
  the check and is not cleared, `Clearing.MinimumSheetIsNotCleared` one whose nets sum to 0 and that -2^63 alone keeps
  from being cleared.
- Suggested transfers are not always positive: they are exactly if no net is -2^63 or the other debts cover all credits
  (`TransferSigns.SuggestionsArePositiveIff`), so for nets that sum to 0 exactly if none is -2^63
  (`TransferSigns.BalancedSuggestionsArePositiveIff`). With nets of -2^63, 2^63 - 1 and 1 the first transfer is of -2^63
  (`TransferSigns.MinimumSheetSendsANegative`). Who sends and receives, and how many transfers there are, needs no such
  condition (`Suggestions.SuggestionsAreEconomical`).
- Fixed splits (`docs/TRANSACTION_SERVICE_VI.md` line 33) are accepted and stored but can never be read: the column
  has six places after the point and the value is read as money, which has two (`LedgerReading.ValueReadsBackIff`).
  Creating such a transaction answers an error with the row committed, and from then on, in every run, the row cannot
  be deleted and the balances of its group and currency cannot be read (`LedgerLocks.FixedSplitLocksTheLedger`). A ledger
  can be read exactly if no live transaction has a fixed split (`LedgerLocks.LedgerReadsIff`).
- The smallest amount, -2^63, is printed with three minus signs, since its negation overflows (`Printing.PrintsMinimum`);
  every other amount below zero is printed as a minus and the amount without its sign (`Printing.MoneyAndRatiosBelowZero`).
- The parser never returns a negative number, even for the strings with a sign inside the fraction that
  it does accept (`Money.NeverNegative`). Which strings it accepts, and what it reads in them, is
  `DecimalGrammar.AcceptedExactly`: a plus leading the fraction is read like a zero, except where
  it takes the only place there is (`DecimalGrammar.PlusInsideFraction`).
- One pair per refresh token needs the marker to be written before the token expires. The code measures the
  remaining lifetime and writes the marker in two accesses. An attempt to consume a token succeeds exactly when
  every earlier marker of it has lapsed, which is never before its expiry (`SessionRuns.ConsumesIff`), so a second
  pair needs a marker written that late (`SessionRuns.OnePairPerToken`); with the two accesses taken at one time
  there is none (`SessionRuns.AtMostOnePairPerToken`), and `SessionWitnesses.DelayedRotationIssuesASecondPair` is a
  run with one, for every configuration.
- Revoking a session is final when calls are taken as units (`AuthService.RevokedNeverRotates`). In an interleaving
  it is final - no continuation mints or consumes a token of the session - exactly if at that moment no call in
  flight is minting for the session, about to consume a token of it, about to measure the remaining lifetime of an
  unexpired one, or about to read a user row that is still at the version of an unexpired one
  (`SessionFinality.RevocationIsFinalIff`).
  `SessionWitnesses.RevokedSessionRotatesAgain` is a run, for every configuration, in which a pair minted late
  outlives the marker and is rotated again; `SessionFinality.QuietRevocationIsFinal` is the simplest case in which
  the revocation is final, and `SessionWitnesses.UnquietRevocationCanBeFinal` a run outside it that is final too.
  `SessionRevocation.ConsumedAfterRevocation` says which tokens can still be consumed, and by which calls.
- A sliding window admits at most 2*maximum - 1 requests, one fewer than two full counters
  (`RateLimiter.SlidingBound`), and this is reached for every maximum and every window of two milliseconds or more
  (`RateLimiter.SlidingBoundIsReached`); with a window of one millisecond the bound is maximum (`RateLimiter.InstantBound`).
- The code or route of a deleted menu can never be used again: validation looks at live menus only, the
  table's unique constraints at all rows (`Menus.ConflictIsWithADeletedMenu`, `Menus.DeletedKeysAreGone`).

## Model

| member | source | states |
|---|---|---|
| LargestRemainder.SharesSumToAmount | transaction-service/internal/domain/calculation.go:64-82 | the shares of a ratio split add up to the amount, exactly |
| LargestRemainder.QuotaRule | transaction-service/internal/domain/calculation.go:66-82 | a share is within one unit of amount*value/total, equals it when that is whole, and lies between 0 and the amount |
| LargestRemainder.LeftoverBound | transaction-service/internal/domain/calculation.go:80-82 | the units left over are fewer than the members with a nonzero remainder, so the modulo never wraps round |
| LargestRemainder.WholeSharesGetNothing | transaction-service/internal/domain/calculation.go:77-82 | no left-over unit goes to a member whose remainder is zero |
| LargestRemainder.Optimal | transaction-service/internal/domain/calculation.go:60-83 | no integer vector of the same length and sum has a smaller sum of distances \|share*total - amount*value\| |
| LargestRemainder.Unique | transaction-service/internal/domain/calculation.go:77-82 | the rule determines the shares, ties included |
| LargestRemainder.Fair | transaction-service/internal/domain/calculation.go:66-82 | a larger weight never gets less; equal weights differ by at most one unit, in favour of the earlier input |
| LargestRemainder.ScaleInvariant | transaction-service/internal/domain/calculation.go:66-82 | multiplying all weights by one positive factor leaves exactly the same shares possible |
| Allocation.AllocateShares | transaction-service/internal/domain/calculation.go:25-84 | for every input the answer is the first error in order, the fixed values, or the largest-remainder shares |
| Allocation.AllocateByRatio | transaction-service/internal/domain/calculation.go:60-83 | quotas, stable sort and handing out produce the largest-remainder shares and touch nothing else of the entries |
| Allocation.TakeQuotas | transaction-service/internal/domain/calculation.go:64-76 | the first loop leaves every quota and remainder and their running total, inside int64 throughout |
| Allocation.HandOut | transaction-service/internal/domain/calculation.go:80-82 | the second loop gives the left-over units to the chosen members, one each |
| Allocation.FirstInOrderAreChosen | transaction-service/internal/domain/calculation.go:77-82 | the first places of the stably sorted remainders are the members the rule chooses |
| Allocation.QuotasFit | transaction-service/internal/domain/calculation.go:69-74 | every quota and every running total lies between 0 and the amount: the IsInt64 rejection is unreachable and the total cannot overflow |
| Allocation.AllocationIsExact | transaction-service/internal/domain/calculation.go:46-84 | a successful split of either type sums to the amount, with shares between 0 and the amount and distinct users |
| Allocation.AllocationSucceedsIff | transaction-service/internal/domain/calculation.go:26-58 | splitting succeeds exactly on a positive amount and a clean list of one known type that, if fixed, adds up |
| Allocation.AllocationErrorsAreReal | transaction-service/internal/domain/calculation.go:25-63 | each refusal of a split names a fault that is there |
| Allocation.AllocationIsDetermined | transaction-service/internal/domain/calculation.go:25-84 | two answers to one call are equal, error or shares |
| Sorting.SliceStable | transaction-service/internal/domain/calculation.go:77-79 | the documented contract of the stable sort: smaller elements first, ties in input order, nothing lost |
| Sorting.StableOrderUnique | transaction-service/internal/domain/calculation.go:77-79 | that contract determines the result |
| Sorting.Slice | transaction-service/internal/domain/calculation.go:181-182 | the documented contract of the unstable sort: a sorted permutation, nothing said about ties |
| Money.ParseScaledDecimal | transaction-service/internal/domain/money.go:38-81 | the stepwise parser, with its padding and multiplier loops and its wrapping guard, computes the parsing function |
| Money.ParsesExactly | transaction-service/internal/domain/money.go:38-81 | a well-formed decimal parses to value*10^scale, and fails exactly when that exceeds the int64 maximum |
| Money.NeverNegative | transaction-service/internal/domain/money.go:43-80 | no accepted string, well-formed or not, gives a negative number |
| DecimalGrammar.AcceptedExactly | transaction-service/internal/domain/money.go:38-81 | a string is read as a value exactly if it is up to two pluses, digits, and possibly a point, a sign and digits that read as that value; a minus only over zeros |
| DecimalGrammar.SpellingIsRead | transaction-service/internal/domain/money.go:62-80 | what each accepted shape is read as, and when it is refused |
| DecimalGrammar.PlusInsideFraction | transaction-service/internal/domain/money.go:66-80 | a plus leading the fraction is read like a zero in its place, for all digits around it, unless it takes the only place there is and the zero would be accepted |
| Money.RoundTrips | transaction-service/internal/domain/money.go:12-36 | ParseMoney undoes FormatMoney and ParseRatio undoes FormatRatio exactly on the numbers from 0 up; printed negatives are refused |
| Money.PrintThenParse | transaction-service/internal/domain/money.go:20-81 | the same for every scale from 1 to 18 |
| Money.PrintedFormIsCanonical | transaction-service/internal/domain/money.go:12-36 | for every scale, money and ratios among them, two accepted strings print alike exactly when they parse alike |
| Printing.PrintsNumeral | transaction-service/internal/domain/money.go:20-36 | from zero up, the whole part without needless zeros, a point, and exactly as many digits as the scale |
| Printing.MoneyAndRatiosBelowZero | transaction-service/internal/domain/money.go:20-36 | below zero, a minus and what the amount without its sign prints as |
| Printing.PrintsMinimum | transaction-service/internal/domain/money.go:20-36 | the exact strings for -2^63, whose negation overflows |
| Printing.PrintsApart | transaction-service/internal/domain/money.go:20-36 | different amounts print differently, on all of int64 and for every scale |
| Strings.TrimSpaceIsStripped | transaction-service/internal/service/transaction_service.go:148-150 | trimming gives what is left without the white space around it, and nothing else would do |
| LedgerInputs.CurrencyIs | transaction-service/internal/service/transaction_service.go:538-549 | a currency is read exactly as three capital letters: those given, in either case and with blanks around, or the default ones |
| LedgerInputs.PaymentsAreReadIff | transaction-service/internal/service/transaction_service.go:419-445 | payments are read exactly if each amount is a positive amount of money |
| LedgerInputs.SplitsAreReadIff | transaction-service/internal/service/transaction_service.go:454-473 | splits are read exactly if each value is positive, money for a fixed one and a ratio for a ratio, and of no other type |
| LedgerInputs.StoredAsAsked | transaction-service/internal/service/transaction_service.go:203-246 | an accepted transaction is stored as asked: fields without white space around them, amounts as parsed, fixed shares as given, ratios so that they read back |
| LedgerInputs.SettledAsAsked | transaction-service/internal/service/transaction_service.go:340-356 | and so is a settlement |
| Balances.ValidatePayments | transaction-service/internal/domain/calculation.go:86-106 | accepted exactly: positive amount, named distinct users, positive payments, and a sum that differs from the amount by a multiple of 2^64 |
| Balances.PaymentsExactIff | transaction-service/internal/domain/calculation.go:90-104 | accepted payments add up to the amount exactly when their sum fits int64 |
| Balances.PaymentsCanWrapAround | transaction-service/internal/domain/calculation.go:100-104 | three payments that are accepted for one unit although they add up to 2^64 + 1 |
| Balances.CalculateBalances | transaction-service/internal/domain/calculation.go:108-164 | the result is the sheet of the per-user sums, each mentioned user once in strictly increasing id order, and fails exactly when payments and shares differ in int64 |
| Balances.HoldsAfterSettlement | transaction-service/internal/domain/calculation.go:144-151 | the four updates of a settlement book it correctly also when sender and receiver are the same map entry |
| Balances.GatherRows | transaction-service/internal/domain/calculation.go:153-158 | the total of the nets does not depend on the order in which the map is read |
| Balances.NetsSum | transaction-service/internal/domain/calculation.go:126-158 | over all users the nets add up to the signed difference of payments and shares: settlements cancel |
| Balances.UnbalancedExactly | transaction-service/internal/domain/calculation.go:153-161 | when the totals fit int64, the balance check is exactly equality of payments and shares |
| Balances.BalancedIsCongruent | transaction-service/internal/domain/calculation.go:153-161 | the balance check accepts exactly payments and shares whose totals differ by a multiple of 2^64 |
| Balances.SheetDetermined | transaction-service/internal/domain/calculation.go:153-163 | the book determines the sheet |
| Suggestions.SuggestSettlements | transaction-service/internal/domain/calculation.go:166-203 | the transfers are the greedy matching of some order of debtors and creditors that the unstable sorts may pick |
| Suggestions.MatchInOrder | transaction-service/internal/domain/calculation.go:184-202 | the two-pointer loop over amounts reduced in place ends, and computes the recursive matching |
| Suggestions.GreedySettles | transaction-service/internal/domain/calculation.go:184-201 | on positive lists of equal totals each debtor sends, and each creditor gets, exactly their amount |
| Suggestions.GreedyIsEconomical | transaction-service/internal/domain/calculation.go:184-201 | transfers from debtors to creditors only, at most debtors + creditors - 1 of them, for any two lists of amounts |
| Suggestions.GreedyIsPositive | transaction-service/internal/domain/calculation.go:184-201 | positive debts and credits are matched by positive transfers |
| Suggestions.GreedyBounded | transaction-service/internal/domain/calculation.go:184-201 | nobody sends more than their debt or receives more than their credit, whatever the totals |
| Suggestions.SuggestionsSettle | transaction-service/internal/domain/calculation.go:166-203 | if the nets sum to zero and none is -2^63, everybody's net is zero after the transfers, and the money moved is the sum of the positive nets |
| Suggestions.SuggestionsAreEconomical | transaction-service/internal/domain/calculation.go:173-202 | for every sheet and whatever order the sorts pick, only debtors send, only creditors receive, and there are at most debtors + creditors - 1 transfers |
| TransferSigns.SuggestionsArePositiveIff | transaction-service/internal/domain/calculation.go:166-202 | for every sheet, all transfers are positive exactly if no net is -2^63 or the other debts cover all credits |
| TransferSigns.BalancedSuggestionsArePositiveIff | transaction-service/internal/domain/calculation.go:166-202 | if the nets sum to zero, all transfers are positive exactly if no net is -2^63 |
| TransferSigns.MinimumSheetSendsANegative | transaction-service/internal/domain/calculation.go:166-202 | a sheet that sums to zero for which the first suggestion is a transfer of -2^63 |
| TransferSigns.LargestAreMatchedFirst | transaction-service/internal/domain/calculation.go:174-189 | without -2^63, the first transfer is from a member who owes most to one who is due most, up to the smaller of the two |
| Suggestions.NothingMovesLess | transaction-service/internal/domain/calculation.go:184-202 | no set of non-negative transfers after which int64 arithmetic shows zero for everybody moves less money, if the nets sum to zero |
| Clearing.ClearsExactly | transaction-service/internal/domain/calculation.go:174-201 | for every sheet with one row per user: the suggestions clear it if and only if no net is -2^63 and the nets sum to zero mathematically |
| Clearing.MinimumIsNotSettled | transaction-service/internal/domain/calculation.go:176-201 | with a net of -2^63 somebody is left unsettled, whatever the order of the sorts and the sum of the nets |
| Clearing.WrappedNetIsNotCleared | transaction-service/internal/domain/calculation.go:153-201 | a sheet without -2^63 whose wrapped nets pass the balance check, for which nothing is suggested and nobody is cleared |
| Clearing.MinimumSheetIsNotCleared | transaction-service/internal/domain/calculation.go:153-201 | a sheet that sums to zero and that a net of -2^63 alone keeps from being cleared |
| Clearing.BookedSuggestionsClearIff | transaction-service/internal/domain/calculation.go:144-151 | CalculateBalances with the suggestions appended as settlements gives every member net zero if and only if no net was -2^63 and the nets summed to zero |
| Ledger.BuildPayments | transaction-service/internal/service/transaction_service.go:419-445 | payments are built exactly when every amount is a positive decimal, one row per input, ids trimmed |
| Ledger.BuildSplits | transaction-service/internal/service/transaction_service.go:447-498 | splits are built exactly when values parse and the split is possible, and then are the shares AllocateShares answers |
| Ledger.MergeBalances | transaction-service/internal/service/transaction_service.go:610-624 | every user's entry becomes the field-wise int64 sum of the two sheets |
| Ledger.GroupBalances | transaction-service/internal/service/transaction_service.go:391-416 | merging sheet by sheet gives the sheet of the whole ledger summed directly, and fails exactly when a transaction does not balance |
| Ledger.GroupNetsSum | transaction-service/internal/service/transaction_service.go:404-412 | the nets of a group add up to the imbalance of its transactions |
| Ledger.ImbalanceCountsOverflows | transaction-service/internal/service/transaction_service.go:404-412 | the imbalance of stored transactions is 2^64 times the overflows of expense payments less those of income payments |
| Ledger.MergedTransaction | transaction-service/internal/service/transaction_service.go:392-398 | merging one more transaction's sheet keeps the map equal to the directly summed ledger |
| LedgerOrder.SheetPermutation | transaction-service/internal/service/transaction_service.go:387-415 | the order in which transactions and settlements are listed does not change the sheet |
| LedgerService.PrepareTransaction | transaction-service/internal/service/transaction_service.go:146-244 | the checks in their order: the first reason for refusal, or the row that is stored |
| LedgerService.TransactionService.CreateGroupTransaction | transaction-service/internal/repository/postgres_repository.go:175-246 | appends exactly the accepted row or changes nothing, and keeps every stored transaction balanced; succeeds exactly if the row can also be read back, and otherwise answers an error with the row stored |
| LedgerService.TransactionService.DeleteGroupTransaction | transaction-service/internal/service/transaction_service.go:277-290 | marks exactly the live transaction deleted, for its creator or a group owner and if it can be read, or answers the first reason and changes nothing |
| LedgerService.TransactionService.CreateSettlement | transaction-service/internal/service/transaction_service.go:292-356 | appends exactly the accepted settlement or changes nothing |
| LedgerService.TransactionService.GetGroupBalances | transaction-service/internal/service/transaction_service.go:373-417 | never fails for want of balance; returns the sheet of the live ledger and suggestions for it, unless a row of it cannot be read |
| LedgerRefusals.RefusalsAreReal | transaction-service/internal/service/transaction_service.go:146-213 | every refusal of a transaction is a failure of what was asked or names a fault of the input that is there |
| LedgerRefusals.AcceptedIsFaultless | transaction-service/internal/service/transaction_service.go:146-213 | what is accepted names its fields, members of an active group, an active category, and amounts that are read |
| LedgerRefusals.MembershipComesFirst | transaction-service/internal/service/transaction_service.go:157-160 | a request that names its fields is refused for want of membership before anything else about the group is looked at |
| LedgerRefusals.SettlementRefusalsAreReal | transaction-service/internal/service/transaction_service.go:292-339 | the same for settlements, which only the sender or an owner may record |
| LedgerRefusals.AcceptedSettlementIsFaultless | transaction-service/internal/service/transaction_service.go:292-339 | an accepted settlement is between two different members and recorded by the sender or an owner |
| LedgerRefusals.DeletionAnswersAre | transaction-service/internal/service/transaction_service.go:277-290 | deleting succeeds exactly for a readable live row, on behalf of its creator or a group owner, and else names what is wrong |
| LedgerEffects.ListedTransactions | transaction-service/internal/repository/postgres_repository.go:359-364 | the ledger of a group and currency lists a transaction as often as it is stored if it is of them and not deleted, and otherwise never |
| LedgerEffects.ListedSettlements | transaction-service/internal/repository/postgres_repository.go:390-396 | it lists a transfer once for every settlement of the group and currency with that transfer |
| LedgerEffects.CreatingAdds | transaction-service/internal/service/transaction_service.go:228-246 | a created transaction adds paid less share, or for income share less received, to the nets of its own group and currency and to no other |
| LedgerEffects.CreatingShows | transaction-service/internal/service/transaction_service.go:387-416 | in the rows shown, paid and share rise by what the member paid and shares, sent and received stay |
| LedgerEffects.DeletingTakesBack | transaction-service/internal/service/transaction_service.go:277-290 | deleting a transaction takes exactly that back, and changes nothing else of the rows than the mark |
| LedgerEffects.SettlingMoves | transaction-service/internal/service/transaction_service.go:340-356 | a settlement raises the sender's net and lowers the receiver's in its own group and currency, and changes nothing else |
| LedgerEffects.SettlingShows | transaction-service/internal/service/transaction_service.go:399-412 | in the rows shown, sent rises for the sender and received for the receiver, paid and share stay |
| LedgerEffects.CreatingAndDeleting | transaction-service/internal/service/transaction_service.go:146-290 | creating and then deleting a transaction leaves every net as it was |
| LedgerService.StoredRowsAreBalanced | transaction-service/internal/service/transaction_service.go:203-213 | a stored transaction has shares that sum to its amount, payments a multiple of 2^64 too high at most, and balances in int64 |
| LedgerService.StoredRowIsExactIff | transaction-service/internal/service/transaction_service.go:207-209 | it balances mathematically exactly when its payments do not overflow int64 |
| LedgerService.NextKeepsValid | transaction-service/internal/service/transaction_service.go:146-356 | every operation keeps all stored transactions balanced and their ids distinct |
| LedgerService.EveryRunStaysBalanced | transaction-service/internal/service/transaction_service.go:387-412 | in every state of every run, for every group and currency, both balance checks of GetGroupBalances pass |
| LedgerReading.ValueReadsBackIff | transaction-service/internal/repository/postgres_repository.go:585-608 | a stored split value is read back, as what it was, exactly if it is a ratio; a fixed one is refused |
| LedgerReading.RowReadsBackIff | transaction-service/internal/repository/postgres_repository.go:416-458 | a stored transaction can be read back exactly if none of its splits is fixed |
| LedgerLocks.LedgerReadsIff | transaction-service/internal/repository/postgres_repository.go:359-389 | in every state of every run, the ledger of a group and currency can be read exactly if no live transaction has a fixed split |
| LedgerLocks.FixedSplitLocksTheLedger | transaction-service/internal/repository/postgres_repository.go:238-250 | in every run, a stored transaction with a fixed split is never deleted, and the balances of its group and currency can never be read again |
| LedgerLocks.FixedInputIsAccepted | transaction-service/internal/service/transaction_service.go:454-468 | an input with a fixed split is accepted, in a group of one member and if nothing that is asked fails |
| LedgerSettling.PayingSuggestionsClearsIff | transaction-service/internal/service/transaction_service.go:391-416 | booking the suggestions makes GetGroupBalances show zero for everybody if and only if no displayed net is -2^63 and the displayed nets sum to zero |
| LedgerSettling.DisplayedNetsSum | transaction-service/internal/service/transaction_service.go:404-412 | the displayed nets sum to the imbalance of the transactions less what int64 loses of each net |
| LedgerSettling.DisplayedNetsShowImbalance | transaction-service/internal/service/transaction_service.go:404-412 | when every net fits int64, the displayed nets sum to exactly the imbalance |
| LedgerSettling.DisplayedNetsCancel | transaction-service/internal/service/transaction_service.go:404-412 | when totals and nets fit int64, the displayed nets sum to zero mathematically |
| LedgerNets.DisplayedNetsCancelIff | transaction-service/internal/service/transaction_service.go:387-412 | in every state of every run in which nets fit int64, the displayed nets sum to zero exactly when expense and income payments overflowed as often |
| LedgerNets.NetsNeedNotCancel | transaction-service/internal/service/transaction_service.go:146-246 | a run with storable amounts and a row that reads back, after which the displayed nets sum to 2^64 and paying the suggestions does not clear the group |
| Sessions.FreshTokensParse | auth-service/internal/service/jwt_service.go:83-143 | a minted token parses as its own type exactly until 30 seconds past its expiry, which lies within a second of now plus its lifetime |
| Sessions.ParsingDemands | auth-service/internal/service/jwt_service.go:83-143 | what parsing as an access or as a refresh token demands of any claims, with the lifetime of that kind |
| SessionLifetimes.AccessTokenLifetime | auth-service/internal/service/jwt_service.go:152-164 | in every interleaving, an access token is accepted for a live active row at its version until the access lifetime and 30 seconds after its minting, up to the full second, and never from then on |
| SessionLifetimes.RefreshTokenLifetime | auth-service/internal/service/jwt_service.go:166-180 | a refresh token is no access token, parses and is consumed within the refresh lifetime after its minting, up to the full second, and not past it |
| SessionLifetimes.RowsChangeAsAsked | auth-service/internal/repository/postgres_user_repository.go:108-123 | a row starts active at version 1, only a password update raises its version, by one and if it is not deleted, and nothing undoes a deletion |
| SessionRuns.RunKeeps | auth-service/internal/service/auth_service.go:239-286 | in every interleaving: token ids are unique, every used-marker lasts until its token's expiry, a second consumption comes only once the first marker has lapsed |
| SessionRuns.RunGrows | auth-service/internal/service/auth_service.go:239-286 | time, tokens, consumptions and user versions only grow, and a session never changes its user or version |
| SessionRuns.OnePairPerToken | auth-service/internal/service/auth_service.go:265-285 | two pairs from one refresh token mean that the later marker was written once the earlier had lapsed, at or after the token's expiry |
| SessionRuns.AtMostOnePairPerToken | auth-service/internal/service/auth_service.go:265-285 | with measuring and marking at one time, every interleaving issues at most one pair per refresh token |
| SessionRuns.ConsumesIff | auth-service/internal/service/auth_service.go:269-283 | in every interleaving, trying to consume a token succeeds exactly when every earlier consumption of it has lapsed, never before its expiry; otherwise the session ends |
| SessionWitnesses.DelayedRotationIssuesASecondPair | auth-service/internal/service/auth_service.go:265-285 | for every configuration, a run in which a rotation delayed between measuring and marking issues a second pair |
| SessionSlots.OnePlacePerSession | auth-service/internal/service/auth_service.go:265-285 | with measuring and marking at one time, in every interleaving the unconsumed refresh tokens of a session and the calls minting for it number at most one |
| SessionRevocation.RunMarkers | auth-service/internal/service/auth_service.go:558-566 | in every interleaving, revoking again never shortens a revocation |
| SessionRevocation.ConsumedAfterRevocation | auth-service/internal/service/auth_service.go:244-283 | after a revocation, a token of the session is consumed only by a call that had checked the session before, or a token minted after it by a call that checked once the marker had lapsed |
| SessionFinality.RevocationIsFinalIff | auth-service/internal/service/auth_service.go:239-286 | when a session is revoked in any interleaving, no continuation mints or consumes a token of it exactly if no call is minting for it, about to consume, about to measure an unexpired token of it, or about to read a row still at the version of one |
| SessionFinality.QuietRevocationIsFinal | auth-service/internal/service/auth_service.go:244-285 | in particular, a revocation at which no rotation of the session is past its check or minting is final |
| SessionWitnesses.UnquietRevocationCanBeFinal | auth-service/internal/service/auth_service.go:248-264 | for every configuration, a final revocation that overtakes a rotation past its check, which a password update has outdated |
| SessionWitnesses.RevokedSessionRotatesAgain | auth-service/internal/service/auth_service.go:244-285 | for every configuration, a run in which a pair minted late by an overtaken rotation outlives the marker and rotates |
| SessionRuns.SessionVersionsAgree | auth-service/internal/service/auth_service.go:505-528 | all tokens of one session carry the user and the version read by the login that opened it |
| SessionRuns.OldVersionsAreRefused | auth-service/internal/service/auth_service.go:258-263 | once a row has reached a version, no later read of it lets a token of an earlier version pass, however late it was minted |
| SessionRuns.PasswordUpdateRefusesOldTokens | auth-service/internal/repository/postgres_user_repository.go:108-123 | from a committed password update on, no token of the version before it is accepted, for access or rotation |
| AuthService.SettleIsARun | auth-service/internal/service/auth_service.go:239-286 | a call taken as one unit is one of the interleavings |
| AuthService.ServedKeeps | auth-service/internal/service/auth_service.go:239-323 | over every run of whole requests: at most one unconsumed refresh token per session, and markers outlive every token of their session |
| AuthService.OneLiveTokenPerSession | auth-service/internal/service/auth_service.go:269-285 | a family never has two unconsumed refresh tokens |
| AuthService.ServedMarkers | auth-service/internal/service/auth_service.go:558-566 | revoking again never shortens a revocation |
| AuthService.RevokedNeverRotates | auth-service/internal/service/auth_service.go:244-268 | no token of a revoked session, whenever minted, ever rotates again |
| AuthService.ReplayRevokesIff | auth-service/internal/service/auth_service.go:248-283 | presenting a consumed unexpired token never yields a pair, and leaves the family revoked exactly when it was already or the user row is there |
| AuthService.RotatesIff | auth-service/internal/service/auth_service.go:239-286 | a presented token is exchanged for a pair exactly if it is an unexpired, unconsumed refresh token of a session not revoked and an active user at its version |
| AuthService.RotationAnswers | auth-service/internal/service/auth_service.go:239-286 | the answer and the changed store for a token that parses, for every state |
| AuthService.LoginAnswers | auth-service/internal/service/auth_service.go:185-202 | the answer and the changed store for every login, password comparison included: the same answer for an unknown user and a wrong password |
| AuthStore.Service.EnsureSessionActive | auth-service/internal/service/auth_service.go:547-556 | a session is active exactly while its revocation key is absent or lapsed |
| AuthStore.Service.RevokeSession | auth-service/internal/service/auth_service.go:558-566 | the revocation key is set, or set again, for one refresh lifetime |
| AuthStore.Service.RotateSession | auth-service/internal/service/auth_service.go:239-286 | succeeds exactly for a rotatable token, then consumes it and mints one access and one refresh token of its user, session and version, each for its own lifetime, and nothing else |
| AuthStore.Service.IssueTokenPair | auth-service/internal/service/auth_service.go:505-528 | mints an access and a refresh token, and nothing else, for the user, session and version given, each with new id and its own configured lifetime |
| AuthStore.Service.Login | auth-service/internal/service/auth_service.go:163-202 | a login with the right password of an active user opens a fresh session at the row's version, any other is refused |
| AuthStore.Service.OpenSession | auth-service/internal/service/auth_service.go:492-528 | a fresh session for the row given, with its first pair, without any check of the row |
| AuthStore.Service.SignUp | auth-service/internal/service/auth_service.go:139-160 | inserts an active row at version 1 and opens a session from it |
| AuthStore.Service.RevokeSessionFromTokens | auth-service/internal/service/auth_service.go:288-323 | ends the session of a refresh token that parses and that no parsing access token contradicts, or of an access token alone; otherwise changes nothing |
| SessionLogout.LogoutAnswers | auth-service/internal/service/auth_service.go:288-323 | the same for every state: which session a logout ends, and what it answers |
| SessionLogout.LogoutIsFinal | auth-service/internal/service/auth_service.go:235-268 | in every run of whole requests, after a logout no token of the session is rotated again |
| AuthStore.Service.UpdatePassword | auth-service/internal/repository/postgres_user_repository.go:108-123 | raises the version of a row that is not deleted by exactly one, and changes nothing else |
| AuthStore.Service.ValidateAccessToken | auth-service/internal/service/auth_service.go:453-470 | access is allowed exactly to a parsing token of an active user at the same version |
| Menus.ParentAcceptedIffForest | auth-service/internal/service/menu_service.go:247-258 | the parent check accepts exactly the moves and new menus that keep the live menus a forest |
| Menus.RefusalsAreExact | auth-service/internal/service/menu_service.go:275-296 | in a forest, an invalid parent is one that is not live, and a cycle is reported exactly for the menu itself and its descendants |
| Menus.DeleteKeepsForestIff | auth-service/internal/service/menu_service.go:133-140 | deleting keeps the forest exactly when no live menu is a child |
| Menus.EveryRunKeepsAForest | auth-service/internal/service/menu_service.go:33-141 | from any valid table, the empty one included, every sequence of Create, Update and Delete keeps a forest of live menus with unique codes and unique non-empty routes |
| Menus.ConflictIsWithADeletedMenu | auth-service/internal/service/menu_service.go:39-45 | a duplicate key after successful validation is always held by a deleted menu |
| Menus.DeletedKeysAreGone | auth-service/internal/service/menu_service.go:39-45 | in every run a deleted row stays as it is, and no later operation writes its code or route |
| MenuCodes.SlugIffJoinedRuns | auth-service/internal/utils/validation.go:10-50 | a code is accepted exactly if it is runs of small letters and digits, joined by single hyphens or underscores |
| MenuCodes.ProblemsAreReal | auth-service/internal/service/menu_service.go:225-273 | each refusal of a menu names a fault that is there |
| MenuCodes.AcceptedMenuIs | auth-service/internal/service/menu_service.go:225-273 | a menu that is written has none of these faults |
| MenuCodes.DeletionAnswers | auth-service/internal/service/menu_service.go:123-141 | when deleting a menu succeeds, and which fault each refusal stands for |
| MenuCodes.UpdateAnswers | auth-service/internal/service/menu_service.go:70-121 | an update answers that the menu is missing exactly if there is no live one with the id |
| Menus.MenuService.ValidateParentChain | auth-service/internal/service/menu_service.go:275-296 | the walk ends, and answers by whether the chain reaches a root, a missing menu, or neither, without passing the menu itself |
| Menus.MenuService.ValidateMenu | auth-service/internal/service/menu_service.go:225-273 | the first problem of a menu in the order of the checks |
| Menus.MenuService.EnsureUnique | auth-service/internal/service/menu_service.go:298-318 | refused exactly when another live menu holds the code or the non-empty route |
| Menus.MenuService.MapConflict | auth-service/internal/service/menu_service.go:320-334 | a duplicate key is named by the live menu that holds it, if one does |
| Menus.MenuService.Create | auth-service/internal/service/menu_service.go:33-47 | adds one row with each field as given, without white space around it and active unless the request says otherwise, or nothing, and keeps the invariant |
| Menus.MenuService.Update | auth-service/internal/service/menu_service.go:70-121 | replaces one live row by it with each given field as given and the others as they were, or nothing, and keeps the invariant |
| Menus.MenuService.Delete | auth-service/internal/service/menu_service.go:123-141 | marks exactly a childless live menu deleted or changes nothing, and keeps the invariant |
| MenuTree.Tree | auth-service/internal/service/menu_service.go:143-190 | the response is a tree of the list: roots and children are exactly the listed ones, stably sorted by sort order |
| MenuTree.BuildTreeResponse | auth-service/internal/service/menu_service.go:352-367 | sorts children in place and nests each under its parent; ends for any parents, cyclic ones included |
| MenuTree.ShownOnceIffRooted | auth-service/internal/service/menu_service.go:159-189 | each listed menu whose chain of listed parents reaches a root is shown exactly once, every other id never |
| MenuTree.ShownIffChainActive | auth-service/internal/repository/postgres_menu_repository.go:64-72 | in a valid store: shown exactly once if live and active with all ancestors active, otherwise not at all |
| MenuTree.SiblingsInListOrder | auth-service/internal/repository/postgres_menu_repository.go:64-72 | for a list sorted by sort order, siblings stand in exactly the list's order |
| MenuMoves.ShownUnderItsParent | auth-service/internal/service/menu_service.go:143-190 | a live menu whose chain is active is shown once: below its parent, or at the top if it has none, and nowhere else |
| MenuMoves.MovedMenuIsShown | auth-service/internal/service/menu_service.go:93-121 | a menu moved to an active chain is shown under the parent that the request names, or at the top for a blank one, and nowhere else |
| MenuMoves.SiblingsBySortOrder | auth-service/internal/service/menu_service.go:352-366 | siblings stand by ascending sort order, those with the same one as the list has them |
| MenuMoves.EveryRunIsTidy | auth-service/internal/service/menu_service.go:237-252 | in every run routes and parents are stored without white space around them |
| MenuMoves.UngivenStays | auth-service/internal/service/menu_service.go:76-106 | an update of such a row changes the fields that are given and no other |
| MenuTree.TreeIsDetermined | auth-service/internal/service/menu_service.go:352-367 | the description of a tree leaves no choice |
| RateLimiter.Limiter.Request | auth-service/internal/transport/http/security_middleware.go:101-133 | one request changes only its identity's counter and is decided by the script's answer |
| RateLimiter.Limiter.RunScript | auth-service/internal/transport/http/security_middleware.go:28-34 | INCR, PEXPIRE on the first count, PTTL, as one step |
| RateLimiter.LifetimeBound | auth-service/internal/transport/http/security_middleware.go:28-34 | during the life of one counter at most maximum requests are admitted |
| RateLimiter.SlidingBound | auth-service/internal/transport/http/security_middleware.go:101-133 | in any half-open interval of the window's length at most 2*maximum - 1 are admitted |
| RateLimiter.SlidingBoundIsReached | auth-service/internal/transport/http/security_middleware.go:101-133 | for every maximum and every window of at least two milliseconds, a run that reaches that bound |
| RateLimiter.InstantBound | auth-service/internal/transport/http/security_middleware.go:101-133 | with a window of one millisecond at most maximum requests are admitted in it |
| RateLimiter.RetryAfterIsExact | auth-service/internal/transport/http/security_middleware.go:126-130 | Retry-After is the least whole number of seconds, at least one, after which the counter has expired; a request then is admitted |
| RateLimiter.RetryAfterRoundsUp | auth-service/internal/transport/http/security_middleware.go:118-130 | a request is refused exactly above the maximum, with the time to live in whole seconds, rounded up and at least one |
| RateLimiter.NoWindowKeepsNothing | auth-service/internal/transport/http/security_middleware.go:28-34 | with a window that is not positive no counter is kept, and every request is admitted if one is |
| RateLimiter.IdentitiesAreIndependent | auth-service/internal/transport/http/security_middleware.go:104-111 | an identity's counter depends on its own requests only |

## Left out

- PostgreSQL, pgx and SQL text: tables are sequences or maps of values, an insert happens whole or not at all. Rows are read back as they were written, in the order of the inputs, except that a `numeric(18,6)` column gives back six places after the point.
- Length, type and CHECK constraints of the database: a parameter says whether it takes the row. The database check that shares are positive is among them; the domain code can give a share of zero.
- Names, e-mails, titles, notes, category snapshots, icons, timestamps and the wording of errors: only ids, amounts and the fields the rules depend on are carried.
- The user directory is assumed to return each user under the id asked for.
- Personal transactions, categories, listings and their paging: they would add only easy members.
- Pointers as map values in CalculateBalances and mergeBalances are entries of a map of values that is updated in place of the pointers; the one aliasing case, a settlement from a user to themselves, is proved in `Balances.HoldsAfterSettlement`.
- Menu nodes keep their children as menus, and the node of a child is the one the node map holds under its id, instead of a pointer.
- Identifiers are compared as strings; spellings of one UUID that PostgreSQL treats as equal are not modelled.
- Reads of the menu store always answer, and menu operations are atomic; concurrent moves are not modelled.
- Cryptography, JWT encoding, key loading, JWKS, audiences, bcrypt and UUID generation: tokens are records that must have been minted, ids are fresh.
- One clock for the service and Redis, in whole milliseconds; network ambiguity of SETNX (applied but reported as failed) and the int64 limit of a Redis counter are not modelled.
- The two reads of `is_active` and of the role's activity are one flag of the user row.
- OTP, registration payloads, e-mail, message queues, gateway, HTTP and gRPC handlers, cookies, CSRF and configuration loading.
- Money.ParseScaledDecimal: stated for scales up to 18, where the multiplier fits int64; the source calls it with 2 and 6 only.
- AuthService.RevokedNeverRotates: holds for whole requests one after the other; for interleavings see `SessionFinality`.
- AuthService.ReplayRevokesIff: taken with each call as one unit and both stores answering.
- The regular expression for menu codes is stated as its language: lower-case letters and digits, with single separators inside.
- The five menus that the migration inserts: runs start from any table that satisfies the invariant.
- AuthStore.Service.Login: the user is looked up by id instead of e-mail, and what the comparison with the password hash answers is a parameter.
- AuthStore.Service.SignUp: begins where the one-time password has been verified, with a fresh user id; the deletion of its Redis entry is left out.
- MenuTree.BuildTreeResponse: called for menus whose parents reach a root, as Tree does; on a menu inside a cycle the source's recursion would not end.
