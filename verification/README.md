# A verified model of Cashcove's money and schedules

Cashcove keeps a household's accounts, imports its statements, follows its bills and budgets, and
converts what it spends abroad. This project models the parts of its backend that do arithmetic on
money and dates or keep state from which money is computed, and proves what they promise: for every
input, and for whole runs of operations.

Amounts are whole cents. Code that changes things step by step is a class or a method with loops,
proved against a function of the old state; the properties are lemmas about that function. Code
that only computes is functions.

| file | models | main results |
|---|---|---|
| `Gregorian.dfy` | dates, month shifting | dates and their ordinals are in the same order; counting months comes to the closed form of day numbers |
| `Periods.dfy` | budget periods | for any anchor, the 29th to the 31st included, periods partition all days |
| `Schedules.dfy` | subscriptions and bills | the skip-ahead loop lists exactly the schedule; payments commute, and batches go by their latest, exactly when no due date is clamped |
| `Budgets.dfy` | budget history and amounts | bisection sums each flow in its own period, and nothing is lost; when a new amount leaves the past alone |
| `BudgetLinks.dfy` | what counts toward a budget | a transaction counts once; linking and taking off, and exactly when one undoes the other |
| `Sums.dfy` | sums over tables | shared by the ledger |
| `Ledger.dfy`, `LedgerRuns.dfy` | accounts, transactions, imports, undo | where every balance comes from, over every run; exactly when undoing an import erases it, whatever happened since |
| `Automations.dfy` | sorting with automations | SQL and Python find the same transactions; what sorting leaves, from the rules' own fields; exactly when the batch agrees with the oldest-rule walk and with sorting on arrival |
| `Matching.dfy`, `Reimport.dfy` | recognising rows an account has | matches are injective, what each answer says of its row, IDs stay unique; a file read again has nothing new |
| `ClosingBalance.dfy` | the closing balance of an unlabelled file | in all four layouts, exactly which files are read right |
| `Ofx.dfy` | the OFX tag parser, as values and as linked nodes | nothing opened is lost on any tags at all; SGML round trip, and exactly which XML documents read back |
| `Amounts.dfy` | reading amounts | parsing undoes formatting for every amount and currency; every other way of writing one, and texts that aren't; rounding to the nearest cent |
| `ExchangeRates.dfy` | the rate cache and the dashboard's converter | the cache is exactly the server on the recorded days, works on them without it, and asks for none again |
| `Throttle.dfy` | login throttling | at most F + 8 failures in less than an hour, and that bound is reached |

`dafny verify dfyconfig.toml` checks everything.

Where the code and what is written about it differ, the model follows the code:

- A new budget amount is said to leave the periods before it as they were. It does so unless it
  becomes the earliest amount and differs from the earliest one before: the periods from before the
  budget go by the earliest amount (`Budgets.PastAmountsKept`).
- The model class of budget links says a transaction counts as the first of transaction, account,
  category, subscription and automation. The query tries transaction, automation, subscription,
  category, account, and so does `BudgetLinks.CountsInOrder`. The two agree if and only if the
  transaction has a link of its own or everything that links it is of one sort
  (`BudgetLinks.CountsAsDocumentedExactly`); money out linked by its account as spending and by its
  category as income counts as income (`BudgetLinks.DocumentedOrderDiffers`).
- Reactivating a bill without a date promises the first day of its schedule that isn't before today.
  When the stored date is more than thirteen months ahead there is none in the listed range, and the
  request fails with an index error (`Schedules.Subscription.Reactivate`).
- An undo is said to leave the balance as if the import never happened, with everything that changed
  since still counted. It does if and only if nothing the undo would take off had been overwritten by
  setting the balance outright (`LedgerRuns.UndoErasesExactly`). When it was set by hand since, the
  undo takes off once more what the import had in effect when it was set: its change, and whatever was
  done to its rows until then (`LedgerRuns.BalanceSetBetween`).
- The balance read from a file's balance column is said to be the one after its latest transaction. Of
  the files whose balances are consistent, `ClosingBalance.FileIsReadExactly` says which are read right. Two
  kinds aren't, unless their balances happen to make up for it. Listed newest first, all on one day and
  with amounts of one size, a file is taken to be oldest first and its last balance is read: two
  transactions of 5 that leave 10 are read as 5 (`ClosingBalance.NewestFirstIsMisread`). Given as
  what's owed and with one amount throughout, the sign stays as it is. With one day and one amount
  every file that fits a layout also fits the other direction with the other sign
  (`ClosingBalance.SameAmountsAreAmbiguous`), so one reading of it has to be wrong; a file of several
  days fits one layout only (`ClosingBalance.SeveralDaysFitOnce`), and is misread all the same
  (`ClosingBalance.SeveralDaysAreRead`).
- Closing tags of values are said to be ignored. One whose name is also that of an open group closes
  the group (`Ofx.DoubledIsMisread`).
- Reading an amount is said to give none when a text isn't one. A number of 10^26 or more is an error
  instead: rounded to the cent it has more digits than decimals keep (`Amounts.WholeNumbersAreRead`,
  `Amounts.LongestNumber`).

## Model

| member | source | states |
|---|---|---|
| Gregorian.OrderIsOrdinal | backend/app/finance/periods.py:34-47 | Dates compare as their day numbers do, and as (year and month, day) do: what every comparison and subtraction of dates rests on. |
| Gregorian.OrdinalRoundTrip | backend/app/finance/periods.py:38-47 | Counting days from a date and back gives the date back, over all years. |
| Gregorian.DaysAreNumbered | backend/app/finance/periods.py:34-47 | Any two days are as far apart as their numbers in the closed form: whole years, leap days, whole months and days. |
| Gregorian.MonthsSpan | backend/app/finance/subscriptions.py:137-146 | Any k months in a row have between 28k and 31k days. |
| Gregorian.ShiftIncreases | backend/app/finance/periods.py:25-31 | Shifting a date by more months always gives a later date, clamped to month ends or not. |
| Gregorian.ShiftIsShort | backend/app/finance/subscriptions.py:123-126 | Shifting by k months moves a date by 31k days at most. |
| Periods.NthIsExactly | backend/app/finance/periods.py:25-55 | The k-th period starts 7k or 14k days, or k or 12k months, from the anchor, on its day of the month or the last of a month too short to have it. |
| Periods.NthIncreases | backend/app/finance/periods.py:25-55 | The k-th period's start increases strictly with k, for every kind of period and anchor. |
| Periods.PeriodsPartitionDays | backend/app/finance/periods.py:38-65 | Every day lies between the start and end of its period, and a period of the sequence contains a day if and only if it starts at that day's start. |
| Periods.Neighbours | backend/app/finance/periods.py:38-60 | A start is its own period's start, and the next and previous starts are the neighbours in the sequence. |
| Periods.NextAndPreviousUndo | backend/app/finance/periods.py:50-60 | On starts, going on and going back undo each other, and both lead to starts. |
| Periods.StartsBack | backend/app/finance/periods.py:68-77 | The loop gives consecutive starts ending with the one asked about: as many as asked for, at least one and at most the limit. |
| Schedules.DueIncreases | backend/app/finance/subscriptions.py:129-134 | Due dates increase strictly with the cycle, for every frequency and due date. |
| Schedules.DueIsExactly | backend/app/finance/subscriptions.py:123-134 | Every frequency's due dates: 7 or 14 days a cycle, or 1, 2, 3, 6 or 12 months to the same day of the month, or the last of a month too short to have it. |
| Schedules.SkipPassesNothing | backend/app/finance/subscriptions.py:137-146 | Every due date the skip-ahead passes is before the first day asked about. |
| Schedules.Subscription.DueDates | backend/app/finance/subscriptions.py:137-153 | The two loops end, and list in increasing order exactly the schedule's dates from the first day to the last that are before the day it ends. |
| Schedules.UpcomingIsFirstOfDue | backend/app/finance/subscriptions.py:156-167 | The upcoming dates are the first six of what the due dates of the next twelve months list. |
| Schedules.UpcomingAreOfTheNextSix | backend/app/finance/subscriptions.py:156-167 | Of the next six dates of the schedule, exactly those within twelve months of the stored one and before the day it ends are upcoming. |
| Schedules.AdvancedIsLeast | backend/app/finance/subscriptions.py:186-196 | Advancing gives the least date of the schedule that is after the payment and its early window. |
| Schedules.AdvanceIsIdempotent | backend/app/finance/subscriptions.py:186-196 | Advancing never goes back, changes nothing exactly when the due date is out of the payment's reach, and the same payment again changes nothing. |
| Schedules.OnePaymentOneCycle | backend/app/finance/subscriptions.py:186-196 | A payment advances exactly one cycle if and only if it reaches the due date and not the next; every payment on time does. |
| Schedules.EarlyIsHalfACycle | backend/app/finance/subscriptions.py:43-53 | The early window is half of the days between two payments, to within two days, for every frequency and due date, February's included. |
| Schedules.EarlyIsHalfTheAverage | backend/app/finance/subscriptions.py:43-53 | It is half of the average time between two payments, in whole days, for every frequency. |
| Schedules.DueComposes | backend/app/finance/subscriptions.py:129-134 | Counting on from a later due date gives the same schedule when no month clamps it. |
| Schedules.PaymentsCommute | backend/app/finance/subscriptions.py:186-196 | Two payments can come in either order, for all pairs of days, if and only if the due day fits every month the schedule visits. |
| Schedules.OrderMatters | backend/app/finance/subscriptions.py:186-196 | For every schedule that is clamped somewhere, two payments whose order matters. |
| Schedules.BatchIsOneByOneExactly | backend/app/finance/subscriptions.py:231-246 | Linking payments one by one advances the due date as the latest of them alone does, for every list of payments in every order, if and only if the due day fits every month the schedule visits. |
| Schedules.Subscription.AdvanceDueDate | backend/app/finance/subscriptions.py:186-196 | The loop leaves the due date at the least date of the schedule past the payment and its window. |
| Schedules.FirstWithinThirteenMonths | backend/app/finance/subscriptions.py:480-487 | The dates listed for thirteen months are none if and only if the stored date is later than that; otherwise they start with the least date of the whole schedule that isn't before today. |
| Schedules.Subscription.Reactivate | backend/app/finance/subscriptions.py:458-491 | Each way it ends, if and only if: not stopped, closed account, no date in range (an index error, rolled back), or picked up again on the date given or the schedule's first from today on. |
| Budgets.BisectionFindsThePeriod | backend/app/finance/budget.py:675-709 | Bisecting consecutive starts by a day within them finds the start of that day's period. |
| Budgets.Bucketed | backend/app/finance/budget.py:675-709 | The loop's totals are, for every period and kind, the sum of that period's own flows. |
| Budgets.TotalsBack | backend/app/finance/budget.py:684-693 | Of all flows there are, in the range fetched or not, every period going back has the income and spending of exactly its own days. |
| Budgets.History | backend/app/finance/budget.py:675-709 | Every period shown is one of the sequence, with its own last day, the amount it goes by, the income and spending of exactly its days, and whether today is in it; the last is that of the day asked about. |
| Budgets.HistoryConserves | backend/app/finance/budget.py:675-709 | All periods together have the total of all flows between the first start and the last end. |
| Budgets.AmountAt | backend/app/finance/budget.py:144-151 | The loop gives the amount of the latest row to start by a period's start, or of the earliest for a period before all of them. |
| Budgets.PastAmountsKept | backend/app/finance/budget.py:427-433 | A new amount leaves every period before its start with the amount it had if and only if an amount started before, or the new one equals the earliest; amounts stay in order. |
| Budgets.NewAmountApplies | backend/app/finance/budget.py:427-433 | From its day on, a new amount is what periods go by up to the next row there was after it, and from then on they go by what they did. |
| BudgetLinks.CountsByTheFirst | backend/app/finance/budget.py:157-238 | A transaction counts by a link if and only if that link hits it and comes before every other that does, so once at most; it counts by none only when none hits it. |
| BudgetLinks.CountsInOrder | backend/app/finance/budget.py:91-93 | A transaction counts by its own link before an automation, then a subscription, a category and an account, and of several of one sort by the first made. |
| BudgetLinks.CountsWhatIsLinked | backend/app/finance/budget.py:180-231 | A link counts a transaction nothing else comes first for if and only if it is its own; an active automation finds it, and didn't come after it if it is for the future only; it is money out of the subscription; of the category; or of the account and no transfer, money out as spending and money in as income. |
| BudgetLinks.CountsAsDocumentedExactly | backend/app/models/budget.py:99-109 | What a transaction counts by comes first in the documented order too if and only if it has a link of its own or all that link it are of one sort. |
| BudgetLinks.DocumentedOrderDiffers | backend/app/models/budget.py:99-109 | A payment its account's link makes spending and its category's link income: documented to count as spending, it counts as income. |
| BudgetLinks.LinkingCounts | backend/app/finance/budget.py:768-805 | Whatever else links them and even if taken off, every transaction linked then counts as the kind asked for; every other counts by the same link as before; links stay valid. |
| BudgetLinks.LinkedLinks | backend/app/finance/budget.py:768-805 | Linking keeps every link there was, and adds links only to transactions asked for that had none of their own. |
| BudgetLinks.UnlinkingTakesOff | backend/app/finance/budget.py:808-826 | A transaction taken off has no link and doesn't count; every other counts as before; it is remembered as taken off if and only if it was already or something else would count it. |
| BudgetLinks.LinkingBackUndoes | backend/app/finance/budget.py:768-826 | Taking a transaction off and linking it back as a kind leaves the budget exactly as it was if and only if it had no link of its own and counted as that kind. |
| BudgetLinks.TakingOffUndoes | backend/app/finance/budget.py:768-826 | Linking a transaction and taking it off leaves the budget as it was if and only if it had no link of its own and was taken off just if something else would count it. |
| BudgetLinks.Budget.LinkTransactions | backend/app/finance/budget.py:768-805 | The loop reaches the state the lemmas are about, for any order of the set; an unknown transaction refuses the request and changes nothing. |
| BudgetLinks.Budget.UnlinkTransaction | backend/app/finance/budget.py:808-826 | The same for taking one off. |
| Ledger.ApplyKeepsValid | backend/app/imports/service.py:381-480 | Every operation keeps the tables consistent: each transaction is of an account there is and of an import that wasn't undone, if any, and each import is of an account there is. |
| Ledger.Books.MoveBalance | backend/app/finance/accounts.py:66-75 | Only a manual account's balance moves, and only that account. |
| Ledger.Books.CreateTransaction | backend/app/api/transactions.py:118-141 | The balance moves by the amount and the transaction is there, or the request is refused and nothing changes. |
| Ledger.Books.UpdateTransaction | backend/app/api/transactions.py:158-212 | Moving a transaction takes it out of one balance and puts it in another, changing its amount moves one by the difference; a bank's transaction in a linked account, and an account that isn't writable, are refused. |
| Ledger.Books.RemoveTransactions | backend/app/api/transactions.py:215-226 | Every account's balance goes down by the sum of what it lost, in one pass over the transactions. |
| Ledger.Books.ImportRows | backend/app/imports/service.py:381-447 | Adds the rows and moves the balance as chosen, or is refused and changes nothing. |
| Ledger.Books.UndoImport | backend/app/imports/service.py:450-480 | Takes the import's rows out of whatever accounts they are in now, and puts back on its own account what its balance change was beyond its rows. |
| Ledger.Books.PatchBalance | backend/app/api/accounts.py:59-84 | Sets a manual account's balance and nothing else; a linked account's is refused unless it is the same. |
| Ledger.Books.PatchClosed | backend/app/api/accounts.py:70-84 | Closes or reopens an account and changes nothing else. |
| Ledger.TakenOut | backend/app/api/transactions.py:215-226 | The loop's changes per account are minus the sums of the transactions taken out of each, in whatever order. |
| Ledger.UndoChanges | backend/app/imports/service.py:462-475 | The loops' changes per account are what is put back, less the rows each account has now. |
| Ledger.MovesOfUpdate | backend/app/api/transactions.py:186-196 | The two moves the code makes, or the one, are replacing one transaction by the other in every account at once. |
| LedgerRuns.CreateIsExactly | backend/app/api/transactions.py:118-141 | Creating is refused, with its reason, if and only if the account isn't there, is linked or is closed; otherwise the transaction is there as given and each manual balance moves as the sum of its transactions does. |
| LedgerRuns.UpdateIsExactly | backend/app/api/transactions.py:158-212 | Updating is refused if and only if there is no such transaction, a bank keeps it up to date in an account still linked and its account, day or amount would change, or the account it would go to can't be written to; otherwise just the fields given change and each manual balance moves as its sum does. |
| LedgerRuns.RemoveIsExactly | backend/app/api/transactions.py:215-226 | Removing takes just those transactions out, and their sums off the manual balances. |
| LedgerRuns.ImportIsRefusedExactly | backend/app/imports/service.py:359-398 | An import is refused, with its reason, if and only if the account isn't there or is closed, there are no rows, its balance is the bank's and would change, or the file's balance is asked for and it has none. |
| LedgerRuns.ImportAddsItsRows | backend/app/imports/service.py:424-442 | Every row is in the account's transactions as the import's, and no other transaction is added or changed. |
| LedgerRuns.ImportMovesTheBalance | backend/app/imports/service.py:359-447 | Kept, the balance is as it was; taken from the file, it is on a manual account and is the file's; moved, it is on a manual account and grows by what the sum of its transactions grew by. No other account changes, and the record has that sum and that change. |
| LedgerRuns.UndoIsExactly | backend/app/imports/service.py:450-480 | An undo takes out exactly the transactions made by the import, wherever they are; manual balances move as their sums do, and the import's own account also gets back what its balance change was short of the total. |
| LedgerRuns.SettingIsExactly | backend/app/api/accounts.py:59-84 | A balance is set, or an account closed or opened, if and only if the account is there and its balance isn't the bank's or stays the same; nothing else changes. |
| LedgerRuns.StepKeepsBase | backend/app/api/transactions.py:118-225 | One operation changes a manual account's base only by an explicit edit of its balance, and never moves a linked account's balance. |
| LedgerRuns.BalanceOverRuns | backend/app/imports/service.py:359-480 | After any run, a manual account's balance is its base, plus the edits made of it, plus the sum of its transactions, plus what its imports that weren't undone changed beyond their rows; a linked account's balance is what it was. |
| LedgerRuns.TwinRuns | backend/app/imports/service.py:450-480 | Over any run, the ledger with an import and the one without it have the same other transactions, imports and accounts, and every operation both runs take is accepted in both, or refused in both for the same reason. |
| LedgerRuns.UndoLeavesTheRest | backend/app/imports/service.py:450-480 | After an import, any run at all and the undo, the transactions, accounts and imports are those of the run in which the import and every operation on its rows never happened; a manual account's balance is lower by exactly what outright sets had overwritten of the import, read off the actual run; and how far its other imports' changes differ. |
| LedgerRuns.UndoErasesExactly | backend/app/imports/service.py:450-480 | An undo leaves an account as if the import had never happened if and only if it is linked or nothing of what the undo takes off had been overwritten. |
| LedgerRuns.UndoErasesImport | backend/app/imports/service.py:450-480 | So it does for every account whose balance no operation in between sets outright; its own imports are then the same to the last field, and all others have the same account and total. |
| LedgerRuns.BalanceSetBetween | backend/app/imports/service.py:450-480 | When a balance is set by hand between an import and its undo, after any operations but files' balances and before any but outright sets, the undo takes off once more what it would have taken off just then; so the balance is as if the import had never happened if and only if that was nothing. |
| Automations.ReplacementsEscape | backend/app/finance/automations.py:95-128 | The three replacements, one after another, put a backslash in front of every special character once: none escapes another's escape. |
| Automations.LikeFindsTheText | backend/app/finance/automations.py:95-128 | SQL's LIKE with the pattern made of a text, whatever wildcards it has in it, finds exactly the texts that start with it or contain it. |
| Automations.UnescapedFindsOthers | backend/app/finance/automations.py:95-128 | A text that, taken as a pattern without the replacements, finds what it isn't in. |
| Automations.MatchingIsCovers | backend/app/finance/automations.py:95-176 | The SQL conditions of an automation and the check of a transaction in Python are the same predicate. |
| Automations.RuleBook.Pick | backend/app/finance/automations.py:235-249 | The loop gives what the oldest-first walk does: a category, and a subscription or its payee's own. |
| Automations.CategoryIsTheOldest | backend/app/finance/automations.py:235-249 | The category picked is that of an automation covering the transaction, and no older one that covers it has a category. |
| Automations.SubscriptionIsTheOldest | backend/app/finance/automations.py:235-249 | The same for the subscription, which only money out is linked to. |
| Automations.Household.Sort | backend/app/finance/automations.py:251-270 | Leaves the transaction as the walk sorts it, touches no other, and reports a change if and only if there is one. |
| Automations.Household.ApplyToExisting | backend/app/finance/automations.py:364-383 | Every transaction is given what applying the automation gives it, nothing else is touched, and the count is of the transactions that changed, each once. |
| Automations.SortedLinksExactly | backend/app/finance/automations.py:235-270 | On arrival a payment is linked to the subscription of the first rule that covers it with one that is there and active; to its payee's own if there is none; or stays as it was. |
| Automations.SortedGivesExactly | backend/app/finance/automations.py:235-270 | A transaction nobody chose a category for gets that of the first rule that covers it with one, or of the subscription found for it, or keeps its own. |
| Automations.AppliedIsExactly | backend/app/finance/automations.py:300-361 | Applied to everything, an automation links just the payments it covers with an active subscription and no older such rule covers, and gives its category, or its subscription's to payments, where nobody chose one and no older rule that covers it gives one. |
| Automations.InactiveOnesDontMatter | backend/app/finance/automations.py:145-147 | Without the subscriptions that aren't active, both ways of sorting leave the same. |
| Automations.GiveCategory | backend/app/finance/automations.py:300-323 | The update gives its category to just the unchosen transactions it covers that no older automation with a category covers. |
| Automations.LinkPayments | backend/app/finance/automations.py:326-361 | The update links just the payments it covers that no older automation with a subscription takes. |
| Automations.RunLeavesLastOffer | backend/app/finance/automations.py:364-383 | After any automations in any order, repeats included, a transaction has the last offer made to it and the last link. |
| Automations.LinkIsThePick | backend/app/finance/automations.py:326-361 | Whatever an automation links a payment to in the batch is what the oldest-first walk picks. |
| Automations.BatchIsStreaming | backend/app/finance/automations.py:364-383 | Running every automation in any order and any number of times leaves a transaction with the category and subscription the oldest-first walk gives, whenever its category was chosen or what is offered to it agrees. |
| Automations.RequestsAreOneByOne | backend/app/finance/automations.py:364-383 | After any run of requests, each applying one automation to everything, the table is every transaction on its own through the same run. |
| Automations.RequestsAreStreaming | backend/app/finance/automations.py:364-383 | So any run that applies every automation leaves the whole table as the oldest-first walk sorts it, where each transaction's category was chosen or its offers agree. |
| Automations.BatchIsStreamingExactly | backend/app/finance/automations.py:326-383 | The batch agrees with the walk, in every order and whatever the transaction had, if and only if its category was chosen or every offer made to it is the walk's. |
| Automations.NoOwnCategoriesAgree | backend/app/finance/automations.py:345-361 | Offers agree whenever no subscription has a category of its own. |
| Automations.BatchIsSortingExactly | backend/app/finance/automations.py:227-270 | The batch agrees with sorting on arrival, in every order and whatever the transaction had, if and only if besides it doesn't fall back to its payee's own subscription, which only sorting on arrival looks at. |
| Matching.SameIds | backend/app/imports/matching.py:271-286 | In one pass with the IDs seen so far: a row repeats the first readable row with its ID and loses its ID to a different one, exactly as the definitions say. |
| Matching.Existing.SameId | backend/app/imports/matching.py:158-169 | Takes the unused transaction with the row's ID if it is the same payment, and otherwise the row loses its ID. |
| Matching.UnusedIsFirst | backend/app/imports/matching.py:171-173 | What is found has the content and isn't used, every one before it with that content is used, and nothing is found only when all are used. |
| Matching.Existing.Same | backend/app/imports/matching.py:171-173 | Going through the account's list for the row's content takes the first of all transactions around that has it and isn't used, marks it used, and takes none only when all that have it are used. |
| Matching.ByContent | backend/app/imports/matching.py:137-140 | The index built has, for every content, exactly the transactions a row may be matched to by it, each once and in order. |
| Matching.Existing.Near | backend/app/imports/matching.py:175-201 | Takes the nearest unused one: same payee first, then days apart, then not from a file, then the earliest. |
| Matching.NearestIsNearest | backend/app/imports/matching.py:187-201 | Of all that can be it, none comes before the one taken by same payee, days apart and not from a file; and it is the earliest of those just as near. It is none only when nothing can be it. |
| Matching.TakeById | backend/app/imports/matching.py:289-308 | Going through the rows with a set of what's used is the phase the lemmas are about. |
| Matching.ReviewRows | backend/app/imports/matching.py:311-331 | The three phases and the final loop give every row the answer the lemmas are about. |
| Matching.RepeatsTheFirst | backend/app/imports/matching.py:271-331 | A row is answered as a duplicate of none of the account's if and only if the first readable row with its ID comes before it, with its day, amount and description. |
| Matching.KnownByIdExactly | backend/app/imports/matching.py:158-169 | A row is a duplicate of a transaction if and only if it is the first readable row with that transaction's ID, which isn't empty, and has its amount within three days. |
| Matching.NewIsNowhereElse | backend/app/imports/matching.py:289-331 | A row is new only if every transaction with its amount within three days, on the day itself if it is from a file under another payee, is the match of some row of the file. |
| Matching.PossibleDuplicateIsClose | backend/app/imports/matching.py:171-201 | A possible duplicate's match is one of the account's transactions, with the row's amount and within three days, on the day itself if it is from a file under another payee. |
| Matching.NoneLeftIsBetter | backend/app/imports/matching.py:171-201 | No transaction that is left unmatched suits a possible duplicate better: it has the row's content only if the match has, and if the match hasn't, it isn't nearer by payee, days apart and being entered by hand. |
| Matching.KeepsItsIdExactly | backend/app/imports/matching.py:158-169 | A row that can be imported keeps its ID if and only if no readable row before it and no transaction has it. |
| Matching.MatchesAreInjective | backend/app/imports/matching.py:152-201 | No transaction is the match of two rows of a file. |
| Matching.ByIdTakesWhatItFinds | backend/app/imports/matching.py:158-169 | In an account with each ID once, looking by ID never finds what an earlier row took. |
| Matching.ImportableIdsAreNew | backend/app/imports/matching.py:289-331 | A row that can be imported comes with an ID only if no transaction of the account has it and it is the file's first row with it. |
| Matching.IdsStayUnique | backend/app/imports/service.py:391-442 | Importing any choice of importable rows into an account that has each ID once leaves it with each ID once. |
| Matching.ImportsExactly | backend/app/imports/service.py:381-442 | What importing adds is exactly the transactions of the rows chosen that are new or only possibly in the account, each with its row's day, amount and description and the ID it was answered with. |
| Reimport.FirstTimeAllNew | backend/app/imports/matching.py:311-331 | In an account that has seen none of a file, every row that can be read and isn't a repeat is new. |
| Reimport.TableIsCounted | backend/app/imports/service.py:391-442 | After importing them under their descriptions, the account has as many transactions with each content around the file's days as the file has such rows. |
| Reimport.UsedById | backend/app/imports/matching.py:158-169 | Looking by ID uses up no more transactions of a content than the file has rows of it with IDs. |
| Reimport.TakenByContent | backend/app/imports/matching.py:171-173 | Every row then still looked for finds one of its content left, for all rows in order. |
| Reimport.NothingIsNewAgain | backend/app/imports/matching.py:311-331 | Reading the file again, no row is new: a row with an ID of its own matches what it was imported as and can't be imported again, and every other is a possible duplicate of a transaction. |
| ClosingBalance.CountVotes | backend/app/imports/csvfile.py:670-699 | The loop's counters are the tally of what every pair of neighbouring rows speaks for. |
| ClosingBalance.CompleteRowsArePoints | backend/app/imports/csvfile.py:677-681 | Rows with a date, an amount and a balance are points one for one, in order, with those three. |
| ClosingBalance.IncompleteAddsNone | backend/app/imports/csvfile.py:677-681 | A row without one of them makes no difference, wherever it stands. |
| ClosingBalance.ClosesOnTheLatestDay | backend/app/imports/csvfile.py:693-699 | Of any file, consistent or not, the balance given is that of the first or the last row of its latest day, as the tally says, or what's owed of it. |
| ClosingBalance.ClosingBalanceOf | backend/app/imports/csvfile.py:670-699 | None without a balance in the file; otherwise the balance the tally chooses, and the latest day. Of every file whose rows fit a layout, it is the true balance exactly when the rows say it is read right. |
| ClosingBalance.OldestFirstVotes | backend/app/imports/csvfile.py:670-699 | The exact tally of a consistent file that is oldest first, as it is or as what's owed. |
| ClosingBalance.NewestFirstVotes | backend/app/imports/csvfile.py:670-699 | The exact tally of a consistent file that is newest first. |
| ClosingBalance.OldestFirstIsRead | backend/app/imports/csvfile.py:670-699 | Oldest first, the last balance is found always; given as what's owed, its negation is found if and only if the amounts aren't all equal or it is nothing. |
| ClosingBalance.NewestFirstIsRead | backend/app/imports/csvfile.py:670-699 | Newest first, exactly what is found: the first balance when dates or sizes of amounts differ, the last one otherwise; negated for what's owed when amounts differ. |
| ClosingBalance.SameAmountsAreAmbiguous | backend/app/imports/csvfile.py:670-699 | A file of one day and one amount is oldest first with balances either way if and only if it is newest first with them the other way; the two readings close alike only when its balances cancel. |
| ClosingBalance.SeveralDaysFitOnce | backend/app/imports/csvfile.py:670-699 | A consistent file of several days fits exactly one of the four layouts. |
| ClosingBalance.SeveralDaysAreRead | backend/app/imports/csvfile.py:670-699 | It is read right if and only if its balances aren't what's owed, or its amounts aren't all the same, or it ends on nothing. |
| ClosingBalance.IsReadExactly | backend/app/imports/csvfile.py:670-699 | For every consistent file of every layout, whether its closing balance is read right: if and only if it is neither turned around nor its sign lost, or its first and last balances make up for that. |
| ClosingBalance.FileIsReadExactly | backend/app/imports/csvfile.py:670-699 | The same of files by their rows alone: read right if and only if it isn't newest first, of one day and one size of amount, nor what's owed with one amount, or its first and last balances make up for that. |
| ClosingBalance.NewestFirstIsMisread | backend/app/imports/csvfile.py:670-699 | Two equal transactions of one day, newest first: the balance before the latest is given. |
| Ofx.ParseKeepsEveryElement | backend/app/imports/ofx.py:57-78 | On any tags at all, however malformed, the tree's elements in preorder are exactly the opening tags in the file's order. |
| Ofx.AllFindsEveryOne | backend/app/imports/ofx.py:42-47 | From the root, asking for some tags lists every element opened with one of them, once, in the file's order. |
| Ofx.SgmlRoundTrip | backend/app/imports/ofx.py:57-78 | For every tree of groups and values, reading it written without closing tags on values gives it back (section 2.3 of OFX 1.6). |
| Ofx.XmlRoundTrip | backend/app/imports/ofx.py:57-78 | Written with all closing tags it reads back when no value's tag is that of a group around it. |
| Ofx.DoubledIsMisread | backend/app/imports/ofx.py:57-78 | A value with its group's tag, and another after it, is misread, for every tag: the closing tag of the value closes the group. |
| Ofx.XmlRoundTripExactly | backend/app/imports/ofx.py:57-78 | Every document whose values and groups are of given tags reads back if and only if no tag is both. |
| Ofx.ParseIsItsOutline | backend/app/imports/ofx.py:57-78 | On any tags at all, every element is in the tree as deep as there were groups open when it was read. |
| Ofx.OutlineTells | backend/app/imports/ofx.py:37-47 | A tree is determined by its elements in order and how deep each is, so that is all there is to say of what is read. |
| Ofx.ReadsBackExactly | backend/app/imports/ofx.py:57-78 | A single document with closing tags reads back if and only if what comes before each element in its group leaves exactly the groups around it open. |
| Ofx.FollowedClosesNothing | backend/app/imports/ofx.py:64-73 | In a document that reads back, an element with another after it in its group closes nothing around it; if it is a value, no group it is in has its tag. |
| Ofx.FindDepth | backend/app/imports/ofx.py:67-72 | Finds the innermost open group with a tag, never the root. |
| Ofx.TakeTag | backend/app/imports/ofx.py:57-78 | Pushing and popping linked nodes keeps the stack a picture of the parser's frames, and the root at its bottom. |
| Ofx.BuildTree | backend/app/imports/ofx.py:57-78 | The nodes the loop links together show exactly the tree the lemmas are about. |
| Amounts.ParsingUndoesFormatting | backend/app/imports/values.py:167-189 | For every amount up to the limit and every three-capital currency, those ending in CR or DR included, reading what alerts write gives the amount, and so does reading it with comma and point swapped and a decimal comma. |
| Amounts.SignsAreRead | backend/app/imports/values.py:157-189 | Brackets, a minus or plus on either side, CR, DR and a currency's symbol are read with the right sign, for every amount and both decimal marks. |
| Amounts.MinusSignIsRead | backend/app/imports/values.py:173-173 | A true minus sign is read as a hyphen is. |
| Amounts.SuffixesAreRead | backend/app/imports/values.py:157-164 | CR and DR in capitals or not, after a space or not, with a point or not, are read with their sign, for every amount. |
| Amounts.OtherLettersAreNotRead | backend/app/imports/values.py:157-164 | Any other two letters after an amount make it none. |
| Amounts.CodeInFrontIsRead | backend/app/imports/values.py:19-19 | A currency's code in front, with a space, goes. |
| Amounts.AttachedCodeIsNotRead | backend/app/imports/values.py:19-19 | Right next to the digits, on either side, it makes the text no amount. |
| Amounts.SmallLettersAreNotRead | backend/app/imports/values.py:19-19 | Three letters after an amount that aren't all capitals make it none. |
| Amounts.LongWordIsNotRead | backend/app/imports/values.py:19-19 | Nor is a word of more than three capitals a code, two codes together included. |
| Amounts.SpacedIsRead | backend/app/imports/values.py:18-18 | Thousands apart by any of six spaces and apostrophes are read, for every amount and both decimal marks. |
| Amounts.LoneBracketIsNotRead | backend/app/imports/values.py:176-177 | A bracket on one side only makes it no amount. |
| Amounts.SpaceAroundIsIgnored | backend/app/imports/values.py:173-173 | White space around any text makes no difference to what is read. |
| Amounts.CodeGoes | backend/app/imports/values.py:157-164 | A currency's code after an amount is never taken for a credit or debit, and is all that goes. |
| Amounts.UngroupedIsPlain | backend/app/imports/values.py:182-183 | Without its grouping marks, and whatever else goes with them, a grouped number has the digits of the plain one. |
| Amounts.NumbersAreDigits | backend/app/imports/values.py:16-16 | Exactly digits, or digits, a point and digits, are a number. |
| Amounts.ReadsNearestCent | backend/app/imports/values.py:184-186 | A number with any number of decimals is read as the nearest cent, half a cent going up. |
| Amounts.WholeNumbersAreRead | backend/app/imports/values.py:182-189 | Every text of digits is read as that many units, is none from 10^12 on, and an error from 10^26 on. |
| Amounts.LongestNumber | backend/app/imports/values.py:186-188 | The least number that is an error, and that the one before it is none. |
| ExchangeRates.Client.GetAll | backend/app/finance/exchange_rates.py:196-205 | The requests tile the range without gap or overlap, none longer than a chunk, and together they give exactly the server's rates of it. |
| ExchangeRates.RateBook.Fetch | backend/app/finance/exchange_rates.py:191-226 | Stores all of a range or, when a request fails, none of it; the stored days stay exactly the recorded span's, with the server's rates. Without a server, or once it couldn't be reached, nothing is asked. |
| ExchangeRates.RateBook.FetchMissing | backend/app/finance/exchange_rates.py:168-176 | Recorded days only grow, no recorded day is asked for again, and on success the span asked for is recorded. With all of it recorded it succeeds and asks for nothing, server or none. |
| ExchangeRates.RateBook.Load | backend/app/finance/exchange_rates.py:168-189 | What is loaded is the server's rates for the span, in order of days; a recorded span always loads, with nothing asked. |
| ExchangeRates.RateBook.PrepareOne | backend/app/finance/exchange_rates.py:145-157 | A currency is ready for its days up to yesterday or unavailable; one whose days are recorded isn't marked and one ready or unavailable already is left alone, with nothing asked; and it goes offline exactly at a request that can't reach the server, the last one made. |
| ExchangeRates.RateBook.Prepare | backend/app/finance/exchange_rates.py:145-157 | Every currency is ready for its days up to yesterday or marked unavailable. None is marked, or asked for, whose days are recorded; none is marked when the server answers; no recorded day is asked for again; and nothing is asked after a request that can't reach the server. |
| ExchangeRates.RateBook.Convert | backend/app/finance/exchange_rates.py:159-166 | Converts at the latest loaded rate by the day or yesterday, rounded half away from zero, or marks the currency unavailable. |
| ExchangeRates.RoundedHalfUp | backend/app/finance/exchange_rates.py:166-166 | The cent nearest to an amount at a rate, and of two just as near the one further from zero. |
| ExchangeRates.Widened | backend/app/finance/dashboard.py:49-55 | The loop widens each currency's days to hold all of those asked for, and drops none. |
| ExchangeRates.Converter.Prepare | backend/app/finance/dashboard.py:49-55 | After any calls, every currency is ready for all days ever asked for, or unavailable; none becomes so, or is asked for, whose days are recorded. |
| ExchangeRates.Converter.Convert | backend/app/finance/dashboard.py:57-61 | Every prepared day of an available currency converts at the server's rate of that day, or of yesterday if that is earlier; the household's own currency is left as it is. |
| ExchangeRates.AtTheServersRate | backend/app/finance/exchange_rates.py:159-166 | What the latest stored rate gives is what the server's own rate for the day gives, where it has one. |
| Throttle.Throttle.SecondsLocked | backend/app/auth/throttle.py:37-44 | Nothing to wait exactly when no key's lock is ahead; waiting that long is past all of them, and one second less isn't. |
| Throttle.Throttle.RecordFailure | backend/app/auth/throttle.py:47-69 | The method's steps leave the table the lemmas are about. |
| Throttle.RecordedExactly | backend/app/auth/throttle.py:47-69 | A key's failures count on from its last within the hour or start over at one, and lock it once they are over the free ones; of other keys exactly those untouched for an hour and not locked go, and the rest stay as they were. |
| Throttle.LocksDouble | backend/app/auth/throttle.py:27-60 | Locks of 30, 60, 120, 240 and 480 seconds, and of 900 from the sixth on. |
| Throttle.RunIsSlowed | backend/app/auth/throttle.py:27-69 | Over any run within an hour without a success, a key's n-th failure comes no earlier than all its locks so far allow, whatever other keys do. |
| Throttle.AtMostEightOver | backend/app/auth/throttle.py:27-69 | In any span shorter than an hour without a success, a key with F free attempts has at most F + 8 failures. |
| Throttle.EightOverIsReached | backend/app/auth/throttle.py:27-69 | Attempting as soon as each lock ends makes F + 8 failures in 2730 seconds, so the bound can't be lower. |

## Left out

- Databases, HTTP and requests at the same time: tables are maps and sequences and each request is one step. Two first fetches of different ranges at once would record a span with a hole, so nothing is claimed of them.
- Accounts being made, deleted or disconnected, and what Plaid syncs: accounts and their sources are given.
- Ledger.Books.ImportRows: the rows are those chosen; which rows a file offers is modelled apart, in `Matching`. Rows carry no payee, category or bank's ID in the ledger, and are in the order given.
- Ledger.Books.CreateTransaction: the payee, category and notes of a transaction and sorting it, with the refusals of a category that is gone; no balance depends on them.
- Ledger.Books.UpdateTransaction: the payee, category and notes of a transaction, which no balance depends on.
- Automations.Household.Sort: advancing the due date of a subscription just linked, which is in `Schedules`.
- Automations.Household.ApplyToExisting: advancing due dates likewise, and limiting the request to some payees' keys; a future-only automation never runs on what exists.
- Automations.LinkPayments: advancing due dates likewise.
- Automations.LikeFindsTheText: the search of Python's regular expressions for an escaped text is read as finding that text.
- Automations.BatchIsStreaming: a subscription's own category is an offer the walk may not make, so the offers are required to agree; `Automations.BatchIsStreamingExactly` says that is needed, and `Automations.BatchIsSortingExactly` what else sorting on arrival does.
- Matching.ReviewRows: what a row is named, by place, and its category: they come from names the household gave before, which are given.
- Reimport.NothingIsNewAgain: an account with other transactions in the window, or rows renamed on import, for which it is false: the nearest match is a greedy choice.
- Ofx.BuildTree: the tokens of the file, tags in capitals and values cleaned and unescaped, are given.
- Amounts.ParsingUndoesFormatting: letters and digits outside ASCII are taken to be neither letters nor digits.
- Schedules.Subscription.Reactivate: catching up on payments that came while it was paused.
- Budgets.PastAmountsKept: changing how often a budget repeats, which starts its amounts over, and the day periods start on.
- BudgetLinks.Budget.LinkTransactions: what an automation matches is given as a set; it is modelled in `Automations`. Only budgets' links to single transactions change.
- Years before 1 and after 9999, which dates can't have, are dates like any other here.
- The precision of decimals: products of an amount and a rate longer than 28 digits.
- Reading dates, guessing columns and decimal marks, names and categories of rows: guesses with no law to keep.
- Sessions, passkeys and tokens, assistants, alerts' delivery, Plaid and everything on the screen.
