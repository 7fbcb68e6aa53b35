# A verified model of the branch general ledger

This project models the double-entry ledger of the Suuq backend (`src/accounting`), the arithmetic that feeds it, and
three scripts that maintain other tables, and proves what they promise for every input, every run and every
interleaving. `dafny verify dfyconfig.toml` checks all of it.

How the model reads the source:

- **Money** is counted in cents. A supplied amount is a `real` number of cents and may be fractional; a stored amount
  (`numeric(14,2)`) is an `int`. The source's `0.005` and `0.01` are `0.5` and `1.0` here. `round2` rounds to the nearest
  cent, a tie going up.
- **Account codes** are the constructors of `GlAccountCode`; `Unknown(text)` stands for every other string. The seed table
  is the function `GetGlAccountMeta`, listed in order by `GL_ACCOUNT_SEED`.
- **The ledger** is a value `Books` (entries, lines, next id) on which `Post`, `Reverse` and `Balance` are functions
  (`Ledger.dfy`); the class `GeneralLedgerService` updates its own tables in place, and each method is proved to do to them
  what the function does. Dates are integers. The date of a reversal is a parameter, whether given or taken from the clock.
- **Concurrency** is a state machine in which every `post` and `reverse` transaction takes its steps one at a time, under
  read-committed isolation, the unique (branch, key) index and row locks.
- **Scripts** are methods with the script's own loops; where loops nest, an inner one may be a method of its own.

| file | what it holds |
|---|---|
| `Money.dfy`, `Arithmetic.dfy`, `Outcomes.dfy` | rounding; laws of products and quotients; `Option` and `Result` |
| `ChartOfAccounts.dfy` | the chart and its sign discipline |
| `Journal.dfy`, `Ledger.dfy`, `LedgerInvariant.dfy` | the tables, the operations, the invariant of every run |
| `GeneralLedgerService.dfy` | the posting engine as a class |
| `Posting.dfy` | what per-line rounding does to an accepted entry |
| `AccountingEquation.dfy`, `ReadPaths.dfy` | the equation over every run; the two read paths |
| `Reversal.dfy`, `Retry.dfy` | reversal, idempotency |
| `Concurrency.dfy`, `Progress.dfy`, `Serializability.dfy` | interleaved posts and reversals: the invariant of every schedule, that none is lost and all can finish, and what they come to |
| `Statements.dfy`, `StatementLaws.dfy`, `StatementEffects.dfy` | the ledger-backed statements, how they tie together, and what a post does to them |
| `TenderSplit.dfy`, `Legs.dfy` | the tender split; the legs a caller pushes, and their mirror |
| `SplitPosting.dfy`, `PropertySettlement.dfy`, `PosCheckout.dfy`, `ReceivableSettlement.dfy` | three entries built from tenders: the settlement of a property booking, and as its callers submit it; a point-of-sale checkout; a receivable paid down |
| `CheckoutRuns.dfy` | whole runs of checkouts and voids, and the keys they are booked under |
| `Reconciliation.dfy`, `OpeningBalance.dfy`, `ReconciliationLaws.dfy` | opening entry and comparison |
| `CategoryClosure.dfy`, `AttributeCleanup.dfy`, `PerceptualHash.dfy` | the three scripts |

## Where the code and its comments part

The model follows the code. Each of these is a lemma with an input the code takes, and a lemma saying exactly when the
comment holds.

- "An entry's debits must equal its credits": the guard looks at raw amounts, the rows are rounded one by one. A receivable
  of one cent paid with half a cent in cash and half by card is accepted and stored as 2 against 1
  (`HalfCentTendersStoreTwoAgainstOne`, `ReceivableStoredBalancedIff`). For any entry, `StoredBalancedIff`: stored rows balance
  exactly when the rounding remainders add up to less than half a cent, or to half a cent that the guard's own tolerance lets
  through.
- "Exactly one of debit/credit is non-zero" on a stored line: a positive leg under half a cent is stored as a zero row. A
  receivable of 100 with a card tender of 0.3 is accepted and has one (`FaintTenderStoresAZeroRow`,
  `ReceivableOneSidedIff`, and for any entry `OneSidedIff`).
- The entry of a checkout "balances by construction": with more kept in cash than the bill, or more tax, it does not. A bill of
  100 paid with 120 and no change recorded is refused (`OverpaidBillIsRefused`, `CheckoutBalancesIff`; tenders below a cent
  included, `CheckoutPostedIff`).
- The "deterministic key for a checkout" need not be its own: it is the client's key or else the checkout's number, under one
  prefix. Once checkout 5 without a client key is booked, another checkout with the client key 5 never is (`KeyMeetsNumber`;
  `SameLedgerKeyIff` says exactly when two keys meet).
- `reverse` is "a no-op if already reversed": only if the key is already used in the branch (`SaleReversedTwice`,
  `SecondReversalIsNoopIff`). `ReversedAtMostOnce` and `RacingReversalsCommitOnce` are what a caller gets by keying reversals
  by entry, as the callers do.
- The opening builder is said to plug owner equity so that the entry balances, and to drop zero legs: it takes equity as given
  and drops negative legs too. A balanced sheet of inventory 100, suppliers owed 300 and equity minus 200 is refused
  (`InsolventSheetIsRefused`); `OpeningAcceptedIff` says exactly when the ledger takes the result.
- `splitTenders` "sum exactly to `total`": not always below a cent (`HalfCentsSumToTwo`, `SumsToTotalIff`).
- With `--limit L`, a cleanup that stops at the limit reports L + 1 rows scanned: two of two live rows with a limit of one
  (`LimitOfOneScansTwo`); `ScannedCount`, in the contract of `AttributeCleanup.Run`, is the count for every table and limit.

## Model

| member | source | states |
|---|---|---|
| Money.Round2 | src/accounting/general-ledger.service.ts:38-40 | The result is the cent nearest to the amount, an exact half going up. |
| ChartOfAccounts.SeedIsDisciplined | src/accounting/gl-accounts.constant.ts:76-301 | The seed lists 28 distinct accounts; an account is credit-normal exactly when (liability, equity or revenue) xor contra, and only assets are contra. |
| ChartOfAccounts.LookupIsExact | src/accounting/gl-accounts.constant.ts:303-315 | A code is known exactly when some seed row carries it, and the lookup returns that row. |
| ChartOfAccounts.SignDiscipline | src/accounting/gl-accounts.constant.ts:317-326 | The sign multiplier of a seeded account is -1 exactly for (liability, equity or revenue) xor contra. |
| Ledger.AcceptedIff | src/accounting/general-ledger.service.ts:76-118 | An entry passes the guard exactly when it has a key, at least two lines, every line known, non-negative and one-sided, totals within half a cent, and a non-zero total. |
| Ledger.ErrorOfRequest | src/accounting/general-ledger.service.ts:76-85 | A request without a key gets the key error, and one with a key but fewer than two lines the line error, whatever its lines are. |
| Ledger.ErrorOfFirstBadLine | src/accounting/general-ledger.service.ts:86-106 | With a key and two lines, the first line out of order decides: an unknown account before a negative amount before two sides. |
| Ledger.ErrorOfTotals | src/accounting/general-ledger.service.ts:107-117 | With every line in order, the totals decide: apart by more than half a cent either way, or both nothing. |
| GeneralLedgerService.GeneralLedgerService.AssertBalanced | src/accounting/general-ledger.service.ts:76-118 | The accumulating loop returns the error of the first offending line, then the total errors, in the source's order of precedence. |
| GeneralLedgerService.GeneralLedgerService.Post | src/accounting/general-ledger.service.ts:66-74 | In-place posting has exactly the result and state of the ledger function, errors included, and keeps the invariant. |
| GeneralLedgerService.GeneralLedgerService.PostWithin | src/accounting/general-ledger.service.ts:120-172 | A used (branch, key) returns the existing entry unchanged; a fresh one appends one entry and its non-zero rounded lines. |
| GeneralLedgerService.GeneralLedgerService.FindEntryByIdempotencyKey | src/accounting/general-ledger.service.ts:174-182 | Finds the entry of the (branch, key), if there is one. |
| GeneralLedgerService.GeneralLedgerService.Reverse | src/accounting/general-ledger.service.ts:189-254 | In-place reversal: null for a missing entry, the existing entry for a used key, else the mirror entry with both links set; keeps the invariant. |
| GeneralLedgerService.GeneralLedgerService.Balance | src/accounting/general-ledger.service.ts:262-283 | Reads the balance of the account over the branch and window, signed by its normal balance. |
| GeneralLedgerService.GeneralLedgerService.AccountTotals | src/accounting/general-ledger.service.ts:289-319 | Filling the map row by row, in any order, gives the per-account debit and credit sums of the window. |
| LedgerInvariant.RunKeepsValid | src/accounting/general-ledger.service.ts:120-254 | Every run keeps: increasing ids, unique (branch, key), each line owned by an entry of its branch, date and currency, sound links both ways, every reversal the mirror of its original. |
| Posting.RoundingBound | src/accounting/general-ledger.service.ts:87-168 | For any accepted amounts, the stored debits and credits differ by at most half a cent times (stored lines + 1). |
| Posting.WholeCentsBalance | src/accounting/general-ledger.service.ts:87-168 | Accepted whole-cent amounts are stored with debits equal to credits. |
| Posting.StoredBalancedIff | src/accounting/general-ledger.service.ts:83-171 | For an accepted entry the stored rows balance exactly when its rounding remainders sum to under half a cent in absolute value, or to exactly half a cent and equal the raw difference of debits and credits. |
| Posting.OneSidedIff | src/accounting/entities/gl-journal-line.entity.ts:17-21 | Every stored row has exactly one positive side, exactly when no requested leg is positive but under half a cent. |
| Posting.WholeCentsStoreBothSides | src/accounting/general-ledger.service.ts:153-168 | For whole cents, every stored row is one-sided, and at least one debit row and one credit row survive the zero filter. |
| Posting.PostMovesBalance | src/accounting/general-ledger.service.ts:137-171 | A fresh accepted post moves each account's balance by the net its own lines request, in its branch and windows only. |
| Posting.PostMovesPeriods | src/accounting/general-ledger.service.ts:273-278 | A fresh accepted post dated d moves the balance from f to t exactly when f <= d <= t, the balance as of t exactly when d <= t, the balance since f exactly when f <= d, and the unbounded one always. |
| Posting.PostWritesTheRequest | src/accounting/general-ledger.service.ts:137-171 | A fresh accepted post appends one entry with the next id, the request's branch, date and key and no links, its currency or ETB when none is given, and only lines of that entry, branch, date and currency. |
| AccountingEquation.AccountingEquationHolds | src/accounting/general-ledger.service.ts:120-283 | After any whole-cent run of posts and reversals, for every branch and window, assets less contra assets plus expenses equal liabilities plus equity plus revenue. |
| AccountingEquation.AccountingEquationBound | src/accounting/general-ledger.service.ts:120-283 | After any run at all, the equation is off by at most half a cent for each line and each entry in the window. |
| AccountingEquation.GapIsWindowNet | src/accounting/gl-accounts.constant.ts:317-326 | In any valid ledger the equation's gap is the net of the window's lines. |
| ReadPaths.ReadPathsAgree | src/accounting/general-ledger.service.ts:262-319 | The balance is the signed difference of the account's totals, and zero when the account is absent. |
| ReadPaths.TotalsListWindowAccounts | src/accounting/general-ledger.service.ts:293-318 | The totals list exactly the accounts that have a line in the window. |
| ReadPaths.WindowsAddUp | src/accounting/general-ledger.service.ts:273-278 | The balance as of t2 is the balance as of t1 plus that of the window strictly after t1 up to t2. |
| ReadPaths.PostMovesTotals | src/accounting/general-ledger.service.ts:289-318 | A fresh accepted post raises an account's debit total by the rounded debits of its own lines, and its credit total by their rounded credits. |
| Reversal.ReverseMovesBalance | src/accounting/general-ledger.service.ts:218-247 | A fresh reversal takes the entry's effect off each balance of its branch in windows holding the reversal's date, and moves no other. |
| Reversal.ReversingAPostUndoesIt | src/accounting/general-ledger.service.ts:218-247 | A fresh post dated d and reversed with date r: a balance between bounds keeps the post's net when it holds d and not r, loses it when it holds r and not d, and is as before otherwise; so for the balances as of a day, since a day, and unbounded. |
| Reversal.ReversalWritesTheRequest | src/accounting/general-ledger.service.ts:218-250 | A fresh reversal appends one entry with the original's branch and currency, its own date and key and a link back; it marks the original alone, and adds only lines of that entry. |
| Reversal.ReverseIsExactInverse | src/accounting/general-ledger.service.ts:189-254 | In windows holding both dates, the balance after reversal is that of a ledger without the entry. |
| Reversal.ReversedPairCancels | src/accounting/general-ledger.service.ts:189-254 | At any later time, a reversal and its original can be removed together without changing a balance over a window holding both dates or neither. |
| Reversal.ReverseTwiceRestores | src/accounting/general-ledger.service.ts:189-254 | Reversing the reversal gives back every balance in windows that hold both reversals or neither. |
| Reversal.ReversalLinks | src/accounting/general-ledger.service.ts:231-250 | In every reachable ledger, reversedByEntryId names a later entry of the same branch, with a larger id, that reverses this one. |
| Reversal.ReversedAtMostOnce | src/accounting/general-ledger.service.ts:208-216 | If every reversal takes the key of its entry, whatever keys the posts take, no run reverses an entry twice. |
| Reversal.ReverseReturnsOwnReversal | src/accounting/general-ledger.service.ts:208-216 | When, within its branch, no posted entry has the reversal key of an entry and no other entry shares it, reversing the entry returns that entry's own reversal. |
| Reversal.SecondReversalIsNoopIff | src/accounting/general-ledger.service.ts:184-216 | For an entry already reversed, reversing again changes nothing exactly when the key is taken in its branch. |
| Reversal.SaleReversedTwice | src/accounting/general-ledger.service.ts:184-254 | A sale of 100 reversed under two keys leaves cash at minus 100. |
| Retry.PostingRefinesOnePass | src/accounting/general-ledger.service.ts:66-135 | Posting a log of requests writes its first accepted request of each (branch, key), in order, and nothing else. |
| Retry.RetriesDoNotMatter | src/accounting/general-ledger.service.ts:66-135 | Dropping rejected requests and later duplicates from a log leaves the resulting ledger the same. |
| Retry.ReplayingALogIsNoop | src/accounting/general-ledger.service.ts:127-135 | Posting a whole log a second time changes nothing. |
| Retry.RetryIsNoop | src/accounting/general-ledger.service.ts:127-216 | A post or reversal that returned an entry returns the same entry, and changes nothing, when repeated after any further operations; a repeated post may carry other lines. |
| Concurrency.InterleavingsAreSafe | src/accounting/general-ledger.service.ts:120-254 | Whatever the interleaving of posts and reversals, at most one committed entry a (branch, key), each with the full line set of one accepted post or the exact mirror of an entry committed before it, and no line without its entry. |
| Progress.PostIsNeverLost | src/accounting/general-ledger.service.ts:120-171 | Whatever the schedule, an accepted post that is begun and not aborted leaves its (branch, key) committed once it ends. |
| Progress.ReversalIsNeverLost | src/accounting/general-ledger.service.ts:189-254 | Whatever the schedule, a reversal of a committed entry that is begun and not aborted leaves its own key committed in that entry's branch once it ends. |
| Progress.LonePostIsSequential | src/accounting/general-ledger.service.ts:120-171 | From any state in which every other call has finished, the steps of a post leave exactly the tables and the answer of the sequential post. |
| Progress.LoneReversalIsSequential | src/accounting/general-ledger.service.ts:189-254 | So do the steps of a reversal, for every original and key. |
| Progress.RowLocksAreExclusive | src/accounting/general-ledger.service.ts:247-250 | In every reachable state no two open reversals hold the row of one entry. |
| Progress.NoNeedlessWaiting | db/legacy-migrations/20260702000000-CreateGeneralLedger.ts:66-68 | An insert waits only for another open transaction that claims its own key, an update of an original only for one that holds its own row. |
| Progress.SomeStepIsPossible | db/legacy-migrations/20260702000000-CreateGeneralLedger.ts:66-68 | In every reachable state waiting on the unique index or on an original's row cannot deadlock: while a transaction is unfinished, some step other than an abort is possible. |
| Progress.EveryCallCanFinish | src/accounting/general-ledger.service.ts:120-254 | From every reachable state some continuation without an abort finishes every call, and none that is open is given up: each open post ends with its key committed, each open reversal of a committed entry with its own key. |
| Progress.StepsAreBounded | src/accounting/general-ledger.service.ts:120-254 | However it is scheduled, a set of calls takes at most seven steps a call. |
| Progress.StuckMeansFinished | db/legacy-migrations/20260702000000-CreateGeneralLedger.ts:66-68 | Where no step but a new call or an abort is possible, every call has finished. |
| Serializability.InterleavingsAreSerializable | src/accounting/general-ledger.service.ts:66-254 | The committed tables, ids renumbered by commit position, are exactly the ledger of one sequential run of the committed posts and reversals in commit order, and every balance is that run's. |
| Serializability.InterleavingsBalance | src/accounting/general-ledger.service.ts:66-254 | Whatever the interleaving, reversals included, with whole-cent posts the committed debits equal the credits for every branch and window. |
| Serializability.CommittedReversalsMirror | src/accounting/general-ledger.service.ts:208-250 | Whatever the interleaving, a committed reversal is the mirror of an earlier committed entry of its branch, and that entry is marked as reversed. |
| Serializability.RacingReversalsCommitOnce | src/accounting/general-ledger.service.ts:208-216 | However many reversals keyed by entry race for an entry, at most one is ever committed. |
| Statements.LedgerStatementsService.GetTrialBalance | src/accounting/ledger-statements.service.ts:138-161 | The loop lists each account with a non-zero net in its natural column, with the column totals. |
| Statements.LedgerStatementsService.GetBalanceSheet | src/accounting/ledger-statements.service.ts:163-242 | The balance sheet is computed from the account balances as of the date; its totals, added up line by line, are the sums over the asset and liability accounts, and equity includes retained earnings. |
| Statements.LedgerStatementsService.GetProfitAndLoss | src/accounting/ledger-statements.service.ts:85-132 | The profit and loss figures are the sums of the account balances of the period, with the expense accounts that have an amount under their labels. |
| StatementLaws.ExpenseBreakdownIsExact | src/accounting/ledger-statements.service.ts:111-119 | The breakdown lists exactly the expense accounts with a non-zero amount, each amount under its account's own label and no other label. |
| StatementLaws.TrialBalanceBalances | src/accounting/ledger-statements.service.ts:134-161 | After any whole-cent run the trial balance's columns are equal. |
| StatementLaws.BalanceSheetBalances | src/accounting/ledger-statements.service.ts:163-242 | After any whole-cent run, at any date, total assets equal total liabilities plus equity. |
| StatementLaws.SheetGap | src/accounting/ledger-statements.service.ts:163-242 | In any valid ledger the sheet is off by exactly the net of the branch's lines up to its date. |
| StatementLaws.EquityMovesByNetProfit | src/accounting/ledger-statements.service.ts:85-242 | Between two balance sheets equity moves by the net profit of the period between them plus the owner's own movements. |
| StatementEffects.ListsFollowTheTypes | src/accounting/gl-accounts.constant.ts:76-301 | The sheet's and the report's account lists are exactly the accounts of the chart by type: assets and the contra asset, liabilities, equity, revenue, and costs with expenses. |
| StatementEffects.PostMovesProfitAndLoss | src/accounting/ledger-statements.service.ts:85-132 | A fresh post dated in the period moves revenue, tax, costs, gross profit, expenses and net profit each by what its own lines put on the accounts of that figure. |
| StatementEffects.PostMovesAssets | src/accounting/ledger-statements.service.ts:163-200 | A fresh post dated by the day of the sheet moves each asset figure by its lines on that account, accumulated depreciation against its sign, and the net and the total accordingly. |
| StatementEffects.PostMovesLiabilities | src/accounting/ledger-statements.service.ts:163-230 | It moves each liability figure, and their total, by its lines on that account, in credit. |
| StatementEffects.PostMovesEquity | src/accounting/ledger-statements.service.ts:163-242 | It moves equity by its owner capital, revenue, cost and expense lines. |
| StatementEffects.LaterPostsDoNotMatter | src/accounting/ledger-statements.service.ts:163-167 | A post dated after the day of the sheet leaves every balance of that day as it is. |
| StatementEffects.TrialBalanceShowsBalances | src/accounting/ledger-statements.service.ts:138-161 | The trial balance lists an account exactly when its balance is not zero: a positive balance on the account's natural side, a negative one on the other. |
| TenderSplit.SplitTenders | src/accounting/tender-split.util.ts:21-47 | The loop and rescaling compute the split of the cash and clearing sums against the total, missing rows included. |
| TenderSplit.IsCashIff | src/accounting/tender-split.util.ts:28-35 | A row is cash exactly when its tender, upper-cased, is CASH. |
| TenderSplit.CashSpellings | src/accounting/tender-split.util.ts:30 | That is either case of each of the four letters, or the long s in the third place; no other text. |
| TenderSplit.OtherTendersAreClearing | src/accounting/tender-split.util.ts:28-46 | Whole-cent rows none of which is named cash, with a positive sum, go to clearing entirely. |
| TenderSplit.CashTendersAreCash | src/accounting/tender-split.util.ts:28-46 | Whole-cent rows all named cash, or with nothing tendered, are cash entirely. |
| TenderSplit.RowRaisesItsPart | src/accounting/tender-split.util.ts:28-46 | Where the rows sum to the total, one more row raises the part its tender names by its own amount, and the other part not at all. |
| TenderSplit.SumsToTotalIff | src/accounting/tender-split.util.ts:1-6 | The parts sum to the settled total exactly when there is no tender detail, a rescaling happens, or the rounding remainders add up to within half a cent. |
| TenderSplit.ConservesTotal | src/accounting/tender-split.util.ts:21-47 | For whole-cent rows of any sign and number, cash plus clearing is the settled total. |
| TenderSplit.OffByAtMostACent | src/accounting/tender-split.util.ts:36-46 | For any rows the sum is off by at most a cent, and only where the row sum already equals the total. |
| TenderSplit.HalfCentsSumToTwo | src/accounting/tender-split.util.ts:36-46 | Half a cent in cash and half a cent in clearing against one cent split into one and one. |
| TenderSplit.SplitIsShare | src/accounting/tender-split.util.ts:36-46 | On whole cents with a positive sum, all branches give the integer nearest to the proportional share, a tie going up. |
| TenderSplit.CashIsProportional | src/accounting/tender-split.util.ts:40-44 | For whole-cent rows with a positive sum, the cash part is within half a cent of its exact share. |
| TenderSplit.SplitIsBounded | src/accounting/tender-split.util.ts:36-46 | For non-negative rows both parts lie between zero and the settled total; without cash the cash part is zero, and likewise clearing. |
| TenderSplit.SplitIgnoresOrder | src/accounting/tender-split.util.ts:28-35 | Permuting the rows changes nothing. |
| TenderSplit.RetaggingAsCashIsMonotone | src/accounting/tender-split.util.ts:28-46 | Re-tagging any row as cash never lowers the cash part. |
| TenderSplit.SplittingAgainIsStable | src/accounting/tender-split.util.ts:21-47 | Splitting a split again against the same total returns it. |
| SplitPosting.SettlementAcceptedIff | src/property-rental/property-rental-booking.service.ts:136-165 | For whole-cent rows of any sign, any payment and any deferred rent, with something to recognise, the ledger accepts the settlement entry exactly when the deferred rent is not negative and neither tender's exact share of the payment rounds below zero, decided on the integer row sums. |
| SplitPosting.NegativeCardRowIsRefused | src/property-rental/property-rental-booking.service.ts:136-165 | The entry builder alone, given 200 in cash and a card row of minus 100 against 100, builds an entry that is refused; no caller has negative rows. |
| SplitPosting.SettlementIsAccepted | src/property-rental/property-rental-booking.service.ts:136-165 | For non-negative rows, a payment that is not negative and something to recognise, the settlement entry is always accepted. |
| SplitPosting.SettlementMovesBalances | src/property-rental/property-rental-booking.service.ts:136-165 | Posting it raises cash by the cash part, cash and clearing together by exactly the settled payment, rental revenue by the payment plus the deferred rent, lowers deferred revenue by the deferred rent, and moves no other account. |
| PropertySettlement.SettlementAsCalledIsAccepted | src/property-rental/property-rental-booking.service.ts:489-524 | Whatever rows or flat amount are submitted, the settlement built from the normalised rows, their total and the clamped deferred rent is accepted whenever there is something to recognise. |
| PropertySettlement.RecordsSplitAsTheyAre | src/property-rental/property-rental-booking.service.ts:645-690 | As called, the split rescales nothing: its two parts are exactly the sums of the normalised cash and other rows. |
| PropertySettlement.SettlementAsCalledBooksTheRecords | src/property-rental/property-rental-booking.service.ts:645-690 | As called, a settlement raises cash and clearing by exactly their own normalised rows, takes the deferred rent off deferred revenue, and raises rental revenue by the payment and the deferred rent. |
| PropertySettlement.RecordIsCashIff | src/property-rental/property-rental-booking.service.ts:489-524 | The record of a submitted row is cash exactly when the row names no tender or an empty one, or names cash in any case with any spaces about it. |
| PropertySettlement.SettlementBooksWhatIsSubmitted | src/property-rental/property-rental-booking.service.ts:591-690 | A settlement raises cash by what the submitted rows, or the flat amount, pay in cash and clearing by what they pay otherwise; deferred revenue falls by the rent paid before and not recognised, rental revenue rises by all of it, nothing else moves. |
| PosCheckout.BuildEntry | src/pos-sync/pos-checkout.service.ts:1231-1320 | Pushing the legs one by one, mirrored for a return, gives the lines of the checkout's figures, or no entry for an unclassified, accrual or zero checkout. |
| PosCheckout.CheckoutPostedIff | src/pos-sync/pos-checkout.service.ts:1227-1301 | For any checkout, tenders with fractions of a cent included, an entry is posted exactly when it is cash-basis, the bill is positive, and the larger of bill and cash kept, plus the surplus of the tenders, is the larger of bill and tax. |
| PosCheckout.CheckoutBalancesIff | src/pos-sync/pos-checkout.service.ts:1227-1301 | With whole-cent tenders, a positive cash-basis bill is posted exactly when neither what was paid less the change nor the tax exceeds it, or the two are equal. |
| PosCheckout.OverpaidIsRefused | src/pos-sync/pos-checkout.service.ts:1252-1257 | Every bill with more cash kept than its total has an entry whose debits and credits differ, and which is refused. |
| PosCheckout.OverpaidBillIsRefused | src/pos-sync/pos-checkout.service.ts:1252-1257 | A bill of 100 paid with 120 and no change recorded is refused. |
| PosCheckout.CheckoutBooksTheBill | src/pos-sync/pos-checkout.service.ts:1231-1320 | A sale whose bill covers the tax and what was paid less the change raises cash and clearing by the latter, the receivable by the rest, tax by the tax, rental or service revenue, as classified, by the bill less the tax, and no other account. |
| PosCheckout.ReturnUndoesSale | src/pos-sync/pos-checkout.service.ts:1229-1298 | If a sale is posted, so is its return, and posting both leaves every balance as it was in windows that hold both. |
| CheckoutRuns.VoidInLedger | src/pos-sync/pos-checkout.service.ts:2077-2099 | Voiding reverses, in place, the entry found under the checkout's ledger key, under the void key, and does nothing when there is none. |
| CheckoutRuns.RunIsItsSales | src/pos-sync/pos-checkout.service.ts:1203-1320 | After any run of checkouts and voids, repeated and in any order, every balance is what it was before plus what the book of the sales is worth: each ledger key counted once, at its sale, and taken off once, at its void. |
| CheckoutRuns.BookIsExact | src/pos-sync/pos-checkout.service.ts:2077-2099 | A key is in that book exactly when a checkout under it was posted in the run, and struck exactly when a void of it came after. |
| CheckoutRuns.StepMattersIff | src/pos-sync/pos-checkout.service.ts:2077-2099 | A call changes the ledger exactly when it posts a checkout whose key was not posted before, or voids one that was posted and not voided. |
| CheckoutRuns.SellThenVoid | src/pos-sync/pos-checkout.service.ts:2077-2099 | A checkout sold and then voided moves a balance by its own net where the window holds its date, and back where it holds the date of the void. |
| CheckoutRuns.SameLedgerKeyIff | src/pos-sync/pos-checkout.service.ts:1204-1209 | Two checkouts share a ledger key exactly when both have the same client key, or neither has one and their numbers are equal, or the client key of one is the number of the other. |
| CheckoutRuns.KeyMeetsNumber | src/pos-sync/pos-checkout.service.ts:1204-1209 | Once checkout 5 without a client key is booked, a checkout 6 with the client key 5 is never booked. |
| ReceivableSettlement.BuildEntry | src/pos-sync/pos-checkout.service.ts:1385-1438 | The loop, the fallback to cash and the scaling give the lines of the request's two tender legs, or an error when nothing is settled. |
| ReceivableSettlement.PaymentClosesTheReceivable | src/pos-sync/pos-checkout.service.ts:1385-1438 | A whole-cent payment under a fresh key lowers the receivable by exactly the settled amount, raises cash and clearing together by the same, cash by its nearest proportional share, and leaves every other account as it was. |
| ReceivableSettlement.ReceivableAcceptedIff | src/pos-sync/pos-checkout.service.ts:1385-1438 | For tenders of any non-negative amounts, the entry is refused only without a key, or when scaling takes half a cent or more above the settled amount in cash. |
| ReceivableSettlement.WholeTendersAreAccepted | src/pos-sync/pos-checkout.service.ts:1385-1438 | With whole-cent tenders and a key, every payment is accepted. |
| ReceivableSettlement.ReceivableStoredBalancedIff | src/pos-sync/pos-checkout.service.ts:1395-1414 | An accepted payment is stored balanced exactly when there is no tender detail, the tenders are scaled, or their rounding remainders add up to within half a cent. |
| ReceivableSettlement.ReceivableOneSidedIff | src/pos-sync/pos-checkout.service.ts:1395-1421 | Its stored rows all have one positive side exactly when it is scaled or no pushed tender sum lies below half a cent. |
| ReceivableSettlement.HalfCentTendersStoreTwoAgainstOne | src/pos-sync/pos-checkout.service.ts:1395-1414 | Half a cent in cash and half by card against one cent is accepted and stored as 2 in debit and 1 in credit. |
| ReceivableSettlement.FaintTenderStoresAZeroRow | src/pos-sync/pos-checkout.service.ts:1395-1421 | A card tender of 0.3 against 100 is accepted and stored with a row that has no positive side. |
| ReceivableSettlement.FaintExcessIsRefused | src/pos-sync/pos-checkout.service.ts:1410-1414 | 1.4 in cash against a settled 10 scales to 14 and is refused. |
| OpeningBalance.OpeningAcceptedIff | src/accounting/reconciliation.util.ts:53-94 | For any sheet the opening entry is accepted exactly when a leg is positive and the sides, with the dropped negative legs added back, are equal. |
| OpeningBalance.BalancedSheetAcceptedIff | src/accounting/reconciliation.util.ts:53-94 | For a sheet that balances, accepted exactly when a leg is positive and the dropped debit legs equal the dropped credit legs. |
| OpeningBalance.OneSidedNegativeIsRefused | src/accounting/reconciliation.util.ts:90-93 | A balanced sheet with negative legs on one side only, such as a single one, is always refused. |
| OpeningBalance.InsolventSheetIsRefused | src/accounting/reconciliation.util.ts:90-93 | A balanced sheet of inventory 100, suppliers owed 300 and equity minus 200 loses its equity leg and is refused. |
| OpeningBalance.OpeningReproducesTheBooks | src/accounting/reconciliation.util.ts:44-94 | Posted to an empty branch, a balanced non-negative sheet gives every account its legacy figure, and zero to the accounts it does not mention. |
| ReconciliationLaws.MatchedIff | src/accounting/reconciliation.util.ts:185-201 | The statements match exactly when each compared line is exempt or differs by no more than the tolerance. |
| ReconciliationLaws.MatchedLineByLine | src/accounting/reconciliation.util.ts:135-201 | A match is, figure by figure, the agreement of nine lines of the balance sheet, the current portion counted in long-term debt, and five of the profit and loss. |
| ReconciliationLaws.DefaultsAreCashAndEquityAtACent | src/accounting/reconciliation.util.ts:122-132 | Left out, the tolerance is one cent and the exempt lines are cash and equity. |
| ReconciliationLaws.DiscrepanciesAreExact | src/accounting/reconciliation.util.ts:185-201 | The discrepancies are exactly the reported lines that are not exempt and differ by more than the tolerance, either way. |
| ReconciliationLaws.EveryFigureIsReported | src/accounting/reconciliation.util.ts:135-191 | Each of the fourteen figures is reported under its own name: both sides, and the legacy figure less the ledger's, to the nearest cent. |
| ReconciliationLaws.MatchIsMonotone | src/accounting/reconciliation.util.ts:131-132 | A match survives a larger tolerance and a larger exempt set. |
| ReconciliationLaws.ExemptionIsSound | src/accounting/reconciliation.util.ts:116-121 | Against the ledger of any whole-cent run, a match with the default exemptions leaves at most seven tolerances of the equity difference unexplained by cash and the ledger-only accounts (four cents more below a cent). |
| ReconciliationLaws.OpeningReconciles | src/accounting/reconciliation.util.ts:122-191 | After the opening entry of a whole-cent sheet, every balance-sheet line, exempt ones included, reconciles with difference zero. |
| CategoryClosure.RebuildClosure | scripts/rebuild-closure.ts:38-51 | On acyclic parents the nested loops terminate and emit exactly the (ancestor, descendant) pairs, each once. |
| CategoryClosure.WalksEndIffAcyclic | scripts/rebuild-closure.ts:42-50 | The walks up the parent pointers all end exactly when no category is its own ancestor. |
| CategoryClosure.ParentsAreEmitted | scripts/rebuild-closure.ts:42-50 | Every category is emitted with itself, and with the category its row names as parent. |
| CategoryClosure.ClosureIsLeast | scripts/rebuild-closure.ts:38-51 | The emitted pairs are the least reflexive and transitive relation that holds each category with the one its parent field names: they are such a relation and lie within any other. |
| CategoryClosure.AncestorsAreComparable | scripts/rebuild-closure.ts:42-50 | Of two ancestors of a category one is an ancestor of the other. |
| AttributeCleanup.RemoveVehicleKeys | scripts/cleanup-nonvehicle-attributes.ts:71-86 | The loop removes exactly the listed keys and returns those that were there. |
| AttributeCleanup.FoundIsExact | scripts/cleanup-nonvehicle-attributes.ts:78-83 | The removed keys are exactly the listed keys present, each once. |
| AttributeCleanup.Run | scripts/cleanup-nonvehicle-attributes.ts:94-186 | For any table, batch size and limit the scan terminates; the table, the counts and the per-key counts are those of one pass over the rows within the limit, the scanned count is one more than the limit when it stops the scan, and a dry run changes nothing and counts the same. |
| AttributeCleanup.CleanupNonVehicleAttributes | scripts/cleanup-nonvehicle-attributes.ts:10-22 | The same for the script's own list of keys, the scanned count included. |
| AttributeCleanup.LimitOfOneScansTwo | scripts/cleanup-nonvehicle-attributes.ts:134-139 | With two live products and a limit of one the script reports two rows scanned. |
| AttributeCleanup.CleanIsExact | scripts/cleanup-nonvehicle-attributes.ts:141-178 | An execute run takes a key off a product exactly when the key is listed, the product is live, and none of its category's slug and name and its parent category's looks like a vehicle; it changes nothing else of it. |
| AttributeCleanup.KeyCountsAreTrueRemovals | scripts/cleanup-nonvehicle-attributes.ts:169-171 | The count reported for a key is the number of products that lose it. |
| AttributeCleanup.CandidatesAreChanges | scripts/cleanup-nonvehicle-attributes.ts:165-178 | The count of candidates is the number of products that an execute run changes. |
| AttributeCleanup.SecondRunFindsNothing | scripts/cleanup-nonvehicle-attributes.ts:88-186 | A second run with the same options finds no candidate and changes nothing. |
| AttributeCleanup.LimitBoundsChanges | scripts/cleanup-nonvehicle-attributes.ts:119-139 | With a limit, the products that change are exactly those to clean among that many first live ones; without, all of them. |
| PerceptualHash.ComparisonBits | scripts/backfill-phash.ts:30-37 | The two loops produce the left-right comparisons in row-major order, for any width and height. |
| PerceptualHash.BitIsComparison | scripts/backfill-phash.ts:30-37 | The bit of row y and column x, counted row by row, is set exactly when that pixel is brighter than the next one of its row. |
| PerceptualHash.PackHex | scripts/backfill-phash.ts:38-46 | The packed digits are hexadecimal, one for every four bits, and read back as exactly the bits. |
| PerceptualHash.HashIsTheNumber | scripts/backfill-phash.ts:38-46 | Read as a number in base 16, the hash is the number its bits write in base 2. |
| PerceptualHash.DigitsInOrder | scripts/backfill-phash.ts:38-46 | The digits are 0 to 9 and a to f in their usual order, and are read back as such. |
| PerceptualHash.ComputeDhash64 | scripts/backfill-phash.ts:27-47 | The hash has 16 hexadecimal digits that read back as the 64 comparisons. |
| PerceptualHash.HashesEqualIff | scripts/backfill-phash.ts:27-47 | Two hashes are equal exactly when all left-right comparisons agree. |
| PerceptualHash.BrightnessDoesNotMatter | scripts/backfill-phash.ts:31-36 | Two images that rank every two pixels alike, such as one and its dimming or change of contrast, have the same comparison bits, for any width and height. |
| PerceptualHash.BrightnessKeepsHash | scripts/backfill-phash.ts:27-47 | Their hashes are then equal. |
| PerceptualHash.DimmingKeepsBitsIff | scripts/backfill-phash.ts:31-36 | A dimming that rounds, and so may merge brightness levels, keeps the bits exactly when it merges no left pixel with a darker right neighbour. |

## Left out

- Binary floating point, `Number.EPSILON`, `NaN` and infinities: arithmetic is exact.
- `numeric(14,2)` overflow and the 32-bit id sequence: stored cents and ids are unbounded.
- Memo, metadata, source, user and posting-time fields of an entry, and the `lines` property of a returned one: they are carried, never read.
- `post` inside a caller's own transaction: the interleavings are of stand-alone posts and reversals.
- Digits and display names of the account codes.
- The rest of a checkout: its cost-of-goods entry, its receipts and stock, the status a void sets and asks for, and the catch that logs a refused entry.
- The rest of a property settlement: the deposit entry, the booking record, and how the deferred rent is found (a difference of two stored amounts, so whole cents).
- The legacy reports that feed the opening entry and the comparison: their figures are inputs.
- AttributeCleanup.Run: does not model a batch size of zero, because what the query builder then returns is not in the repository.
- The category pattern and the command line of the cleanup script: the test is a parameter, the options are given.
- The hooks that normalise a product's attributes when it is loaded: the model starts from the attributes as loaded.
- Other writers of the product table during a cleanup run.
- Truncating and refilling the closure table: the model ends with the rows to insert.
- The image download and resizing around the hash, and the batching of its backfill.
- The remaining modules of the backend: controllers, storage, payments, mail and the other scripts.
