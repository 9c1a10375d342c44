# finmanager core, modelled in Dafny

finmanager is a small personal-finance application. It tracks accounts, a category tree, signed
transactions and budgets: income is positive and an expense is negative. Its core is a set of
mostly pure helpers over immutable records:

- state updates that keep the cached account balances in step with the transaction history;
- an event bus that threads the application state through its subscribers;
- filters and budget checks;
- recursive category traversal;
- a streaming "top categories" report;
- the report services;
- the `Maybe`/`Either` containers and function composition.

The model has one Dafny module per core file, plus `Domain` for the shared records:

| module | file |
|---|---|
| `Domain` | `domain.dfy` |
| `Ftypes` | `ftypes.dfy` |
| `Compose` | `compose.dfy` |
| `Transforms` | `transforms.dfy` |
| `StateUtils` | `state_utils.dfy` |
| `Frp` | `frp.dfy` |
| `Recursion` | `recursion.dfy` |
| `Lazy` | `lazy.dfy` |
| `Service` | `service.dfy` |

How the source's constructs become Dafny:

- The application state, a dictionary with five keys, is the `State` datatype.
- Tuples of records are sequences.
- Python dictionaries built by the services are Dafny `map`s.
- The two event buses update their subscriber dictionary in place. They are classes with a `map` field.
- Functions that loop to a result are methods, proved equal to a recursive specification function:
  - `publish`;
  - `check_budget_handler`;
  - `lazy_top_categories`;
  - `monthly_report`;
  - `balance_forecast`.
- Python's `sorted(..., key=..., reverse=True)` is a stable insertion sort (`Lazy.SortDesc`). Its order, permutation and stability are proved.

Three invariants carry the proofs:

- **Balances follow the history:** every account's balance equals an opening value plus the sum of that
  account's transactions (`StateUtils.BalancesFollow`).
- **Unique transaction ids:** no two transactions share an id (`StateUtils.UniqueIds`).
- **Acyclic category tree:** the parent links admit a ranking in which every child ranks strictly
  below its parent (`Recursion.RankedBy`).

## Model

| member | source | states |
|---|---|---|
| Ftypes.PresentIffNotNothing | finmanager/core/ftypes.py:20-21 | `is_present` holds exactly for the values other than `nothing()`. |
| Ftypes.JustRoundTrip | finmanager/core/ftypes.py:12-34 | `just(v)` is present and `get_or_else` gives `v` back, whatever the default. |
| Ftypes.NothingAbsorbs | finmanager/core/ftypes.py:16-34 | `nothing()` stays `nothing()` under `map` and `bind`, and `get_or_else` gives the default. |
| Ftypes.MaybeRebuild | finmanager/core/ftypes.py:12-34 | A present `Maybe` is `just` of what `get_or_else` extracts; an absent one is `nothing()` and yields the default. |
| Ftypes.MaybeLeftIdentity | finmanager/core/ftypes.py:28-31 | Monad left identity: `just(v).bind(f)` is `f(v)`. |
| Ftypes.MaybeRightIdentity | finmanager/core/ftypes.py:28-31 | Monad right identity: binding `just` gives the same `Maybe` back. |
| Ftypes.MaybeBindAssociative | finmanager/core/ftypes.py:28-31 | `bind` is associative. |
| Ftypes.MaybeMapIsBind | finmanager/core/ftypes.py:23-31 | `map(f)` equals `bind` of `just` after `f`. |
| Ftypes.MaybeMapLaws | finmanager/core/ftypes.py:23-26 | Mapping the wrapping of the identity changes nothing; a mapped `Maybe` is present only if the original is. |
| Ftypes.JustNoneIsNothing | finmanager/core/ftypes.py:12-18 | `just(None)` and `nothing()` are the same value. |
| Ftypes.Maybe.Map | finmanager/core/ftypes.py:23-26 | Mapping an empty `Maybe` gives an empty one; mapping a present one holds `f` of its value. |
| Ftypes.Maybe.Bind | finmanager/core/ftypes.py:28-31 | Binding an empty `Maybe` gives an empty one; binding a present one is `f` of its value. |
| Ftypes.Maybe.GetOrElse | finmanager/core/ftypes.py:33-34 | Gives the stored value when present, else the default. |
| Ftypes.Either.IsLeft | finmanager/core/ftypes.py:59-60 | An `Either` is a Left exactly when it is not a Right. |
| Ftypes.Either.Map | finmanager/core/ftypes.py:62-65 | A Left passes through unchanged; a Right holds `f` of its value. |
| Ftypes.Either.Bind | finmanager/core/ftypes.py:67-70 | A Left passes through unchanged; a Right becomes `f` of its value. |
| Ftypes.Either.GetOrElse | finmanager/core/ftypes.py:72-73 | Gives the Right value, else the default. |
| Ftypes.EitherSides | finmanager/core/ftypes.py:56-65 | Every `Either` is on exactly one side; `map` keeps the side and a left's error. |
| Ftypes.EitherLeftIdentity | finmanager/core/ftypes.py:67-70 | Monad left identity: `right(v).bind(f)` is `f(v)`; a left passes through `bind` unchanged. |
| Ftypes.EitherRightIdentity | finmanager/core/ftypes.py:48-70 | Monad right identity: binding `right` gives the same `Either` back. |
| Ftypes.EitherBindAssociative | finmanager/core/ftypes.py:67-70 | `bind` is associative. |
| Ftypes.EitherMapIsBind | finmanager/core/ftypes.py:62-70 | `map(f)` equals `bind` of `right` after `f`. |
| Ftypes.EitherMapLaws | finmanager/core/ftypes.py:62-65 | Functor laws: mapping the identity changes nothing; two maps equal one map of the composed function. |
| Ftypes.EitherMapGetOrElse | finmanager/core/ftypes.py:62-73 | `e.map(f).get_or_else(f(d))` equals `f(e.get_or_else(d))`. |
| Ftypes.UnwrapAgrees | finmanager/core/ftypes.py:72-76 | On a right, `unwrap` equals `get_or_else` with any default. On a left it gives the error, even after a map. |
| Ftypes.EitherEqualsIsEquality | finmanager/core/ftypes.py:81-86 | The source's `__eq__` (same side and same payload) coincides with structural equality. |
| Ftypes.MaybeEqualsIsEquality | finmanager/core/ftypes.py:39-40 | Comparing stored values coincides with structural equality. |
| Compose.Reverse | finmanager/core/compose.py:4-9 | Reversing keeps the length and puts element `i` at position `n - 1 - i`. |
| Compose.Pipe | finmanager/core/compose.py:12-17 | The left fold applies the last function of the list last, to the pipe of the ones before it. |
| Compose.PipeAppend | finmanager/core/compose.py:12-17 | Piping through `fs + gs` is piping through `fs`, then through `gs`. |
| Compose.PipeLeftToRight | finmanager/core/compose.py:12-17 | `pipe(x)` is `x`; `pipe(x, f, g)` is `g(f(x))`: functions apply left to right. |
| Compose.PipeSnoc | finmanager/core/compose.py:12-17 | Adding a function at the end of a pipe applies it last. |
| Compose.ReverseInvolutive | finmanager/core/compose.py:4-9 | Reversing twice gives back the original list. |
| Compose.ComposeEmpty | finmanager/core/compose.py:4-9 | The composition of no functions is the identity. |
| Compose.ComposeRightToLeft | finmanager/core/compose.py:4-9 | `compose(f)` is `f`; `compose(f, g)(x)` is `f(g(x))`: functions apply right to left. |
| Compose.ComposeAppend | finmanager/core/compose.py:4-9 | Composing `fs + gs` applies the `gs` first, then the `fs`. |
| Compose.ComposeIsReversedPipe | finmanager/core/compose.py:4-17 | `compose(fs)(x)` equals piping `x` through `fs` reversed. |
| Transforms.AddTransaction | finmanager/core/transforms.py:28-31 | The result is the old tuple with `t` appended at the end. |
| Transforms.UpdateBudget | finmanager/core/transforms.py:34-42 | Budgets with the id get the new limit and keep id, category and period; the others are unchanged; order and length are kept. |
| Transforms.UpdateBudgetLastWins | finmanager/core/transforms.py:34-42 | Updating the same budget twice equals updating it once with the second limit. |
| Transforms.UpdateBudgetUnknownId | finmanager/core/transforms.py:34-42 | Updating an id no budget has changes nothing. |
| Transforms.AccountTransactionsMembers | finmanager/core/transforms.py:45-50 | The filter inside `account_balance` keeps exactly the transactions of the account. |
| Transforms.AccountBalanceAppend | finmanager/core/transforms.py:45-50 | Appending a transaction moves an account's balance by its amount exactly when it belongs to that account. |
| Transforms.AccountBalanceConcat | finmanager/core/transforms.py:45-50 | The balance over two histories joined is the sum of the two balances. |
| Transforms.AccountBalanceNone | finmanager/core/transforms.py:45-50 | An account with no transactions has balance 0. |
| Transforms.CategorySpentAppend | finmanager/core/transforms.py:105 | Appending an expense of the category adds its absolute value to the spent sum; anything else leaves the sum unchanged. |
| Transforms.CategorySpentNone | finmanager/core/transforms.py:105 | With no expense in the category, nothing is spent. |
| Transforms.CategorySpentCovers | finmanager/core/transforms.py:105 | The spent sum is at least the absolute value of each single expense of the category. |
| Lazy.ByCategoryExpenses | finmanager/core/transforms.py:53-57 | Streaming with `by_category(c)` joined with `amount < 0` and summing the signed amounts gives minus the category's spending. |
| Transforms.ByDateRange | finmanager/core/transforms.py:60-64 | The predicate holds exactly when `start <= ts <= end` in string order. |
| Transforms.LexLeTransitive | finmanager/core/transforms.py:60-64 | String order is transitive. |
| Transforms.LexLeTotal | finmanager/core/transforms.py:60-64 | Any two strings are comparable. |
| Transforms.LexLeAntisymmetric | finmanager/core/transforms.py:60-64 | Two strings each at most the other are equal. |
| Transforms.LexLeReflexive | finmanager/core/transforms.py:60-64 | Every string is at most itself. |
| Transforms.DateRangeReversedIsEmpty | finmanager/core/transforms.py:60-64 | A range whose start is after its end accepts no transaction. |
| Transforms.DateRangeSingleDay | finmanager/core/transforms.py:60-64 | The range `[d, d]` accepts exactly the transactions stamped `d`. |
| Transforms.ByAmountRange | finmanager/core/transforms.py:67-71 | The predicate holds exactly when `min <= abs(amount) <= max`, so flipping the sign of an amount never changes the answer. |
| Transforms.FindCategory | finmanager/core/transforms.py:78 | None exactly when no category has the id; otherwise the first category with the id. |
| Transforms.SafeCategory | finmanager/core/transforms.py:77-79 | Present exactly when some category has the id; the found category has that id. |
| Transforms.ValidateTransaction | finmanager/core/transforms.py:82-93 | A missing account gives an account error; else a missing category gives a category error; else the transaction is returned. |
| Transforms.CheckBudget | finmanager/core/transforms.py:96-116 | Left exactly when the category's expenses exceed the limit, carrying the budget id, the limit and the spent sum; otherwise Right of the budget. |
| Transforms.CheckBudgetStaysOver | finmanager/core/transforms.py:96-116 | Once a budget is over, adding transactions keeps it over. |
| StateUtils.AdjustBalance | finmanager/core/state_utils.py:26-30 | Accounts with the id move by `delta`; all other fields and all other accounts are unchanged. |
| StateUtils.FindTransaction | finmanager/core/state_utils.py:38 | None exactly when no transaction has the id; otherwise the first transaction with the id. |
| StateUtils.UpdateAccountBalance | finmanager/core/state_utils.py:6-13 | Only the accounts change: those with the id get the new balance and keep their other fields; the rest are unchanged. |
| StateUtils.CreateTransaction | finmanager/core/state_utils.py:15-32 | `t` is appended; the accounts with its account id move by its amount; nothing else changes. |
| StateUtils.UpdateTransaction | finmanager/core/state_utils.py:34-70 | An unknown id leaves the state unchanged. Otherwise the transactions with the id take the patched fields and the new amount, and the others are unchanged. The original transaction's account moves by the amount difference. |
| StateUtils.DeleteTransaction | finmanager/core/state_utils.py:72-90 | An unknown id leaves the state unchanged. Otherwise every transaction with the id is removed, and the account of the first one moves back by its amount. |
| StateUtils.WithoutIdMembers | finmanager/core/state_utils.py:80 | After the removal filter, exactly the transactions with other ids remain. |
| StateUtils.WithoutIdAbsent | finmanager/core/state_utils.py:80 | Filtering out an id nobody has changes nothing. |
| StateUtils.CreateDeleteInverse | finmanager/core/state_utils.py:15-90 | Deleting a freshly created transaction with a new id restores the state exactly. |
| StateUtils.CreateKeepsBalances | finmanager/core/state_utils.py:15-32 | Creating a transaction keeps every balance equal to opening plus history. |
| StateUtils.CreateKeepsIdsUnique | finmanager/core/state_utils.py:15-32 | Creating a transaction with a new id keeps ids unique. |
| StateUtils.DeleteKeepsBalances | finmanager/core/state_utils.py:72-90 | With unique ids, deleting keeps every balance equal to opening plus history. |
| StateUtils.DeleteKeepsIdsUnique | finmanager/core/state_utils.py:72-90 | Deleting keeps ids unique. |
| StateUtils.UpdateKeepsBalances | finmanager/core/state_utils.py:34-70 | With unique ids and a patch that does not reassign the account, updating keeps every balance equal to opening plus history. |
| StateUtils.UpdateKeepsIdsUnique | finmanager/core/state_utils.py:34-70 | Updating keeps ids unique. |
| StateUtils.UpdateReassignmentDesynchronises | finmanager/core/state_utils.py:58-68 | Example: a patch that moves a transaction to another account leaves the accounts unchanged, so the balances stop following the history. This is the limitation the source's comment admits. |
| StateUtils.DeleteDuplicateSubtractsOnce | finmanager/core/state_utils.py:76-88 | Example: with two transactions sharing an id, deletion removes both but reverts only the first one's amount. |
| Frp.RunHandlersAppend | finmanager/core/frp.py:34-38 | Threading the state through one more handler applies that handler last. |
| Frp.RunTwoHandlers | finmanager/core/frp.py:34-38 | Two handlers run in subscription order, each seeing the state the previous one returned. |
| Frp.StateEventBus.constructor | finmanager/core/frp.py:22-23 | A new bus has no subscribers. |
| Frp.StateEventBus.Subscribe | finmanager/core/frp.py:25-28 | The handler is appended to the name's list, creating the list if needed; other names are untouched. |
| Frp.StateEventBus.Publish | finmanager/core/frp.py:30-38 | The result is the state threaded through the event name's handlers in order; with no handler, the state comes back unchanged. |
| Frp.EventBus.constructor | finmanager/core/frp.py:7-8 | A new bus has no subscribers. |
| Frp.EventBus.Subscribe | finmanager/core/frp.py:10-13 | The handler is appended to the name's list; other names are untouched. |
| Frp.EventBus.Publish | finmanager/core/frp.py:15-18 | Every handler of the event name is called once, in subscription order; the effects come back in that order. |
| Frp.OnTransactionAdded | finmanager/core/frp.py:42-65 | With a transaction payload, the result equals `create_transaction` of that transaction; without one, the state is returned unchanged. |
| Frp.AlertFor | finmanager/core/frp.py:87-93 | A budget yields an alert exactly when `check_budget` reports it over; the alert carries the budget id, the limit and the spent sum. |
| Frp.BudgetCheck | finmanager/core/frp.py:68-95 | Only the alerts change, and the old alerts stay as a prefix. |
| Frp.CheckBudgetHandler | finmanager/core/frp.py:68-95 | The loop over the relevant budgets computes exactly `BudgetCheck`. |
| Frp.BudgetAlertsAreOverruns | finmanager/core/frp.py:82-93 | An alert is produced exactly for the budgets of the transaction's category that `check_budget` reports over, and there are never more alerts than budgets. |
| Frp.BudgetAlertsCount | finmanager/core/frp.py:82-93 | There are exactly as many alerts as positions of the category's budgets that are over. |
| Frp.BudgetAlertsInOrder | finmanager/core/frp.py:82-93 | The over budget at position `i` raises the alert whose index is the number of over budgets before `i`: one alert each, in budget order. |
| Frp.BudgetAlertsNone | finmanager/core/frp.py:82-93 | When no budget of the category is over, no alert is added. |
| Frp.WiredPipeline | finmanager/app/main.py:94-96 | Publishing a transaction through the two handlers in their wired order: the transaction is recorded; the account moves by its amount; the budget check sees the new transaction. |
| Frp.WiredPipelineKeepsBalances | finmanager/app/main.py:94-96 | The wired pipeline keeps every balance equal to opening plus history. |
| Frp.WireBus | finmanager/app/main.py:94-96 | The bus holds the two handlers for the transaction event, in that order. |
| Frp.PublishScenario | finmanager/app/main.py:94-96 | Example: an expense of 100 against a budget of 50 lowers the balance from 1000 to 900 and raises one alert. With the handlers in the reverse order, no alert is raised. |
| Recursion.ChildrenMembers | finmanager/core/recursion.py:30 | The children are exactly the categories of the list whose parent is the given id. |
| Recursion.ChildrenDistinct | finmanager/core/recursion.py:30 | With unique category ids, the children have distinct ids. |
| Recursion.InSubtreeRank | finmanager/core/recursion.py:30-37 | A descendant never ranks above its ancestor. |
| Recursion.InSubtreeParent | finmanager/core/recursion.py:30-37 | Every proper descendant is a category whose parent is also in the subtree. |
| Recursion.SiblingSubtreesDisjoint | finmanager/core/recursion.py:30-37 | With unique ids, two sibling categories share no descendant. |
| Recursion.ParentOfSiblingOutside | finmanager/core/recursion.py:30-37 | With unique ids, no category lies in the subtree of its sibling. |
| Recursion.FlattenDistinct | finmanager/core/recursion.py:24-37 | With unique ids, the flattening lists every category at most once. |
| Recursion.TopLevel | finmanager/core/recursion.py:18 | Every root found is a category of the list without a parent. |
| Recursion.TopLevelMembers | finmanager/core/recursion.py:18 | The roots are exactly the categories without a parent. |
| Recursion.Flatten | finmanager/core/recursion.py:24-37 | Empty exactly when no category has the root id; otherwise it starts with the first such category; it only holds categories of the list. |
| Recursion.FlattenCategories | finmanager/core/recursion.py:6-37 | Only categories of the list are returned; with a root id, the result is empty exactly when no category has that id. |
| Recursion.FlattenIsSubtree | finmanager/core/recursion.py:24-37 | With unique ids, a category is in the flattening exactly when it descends from the root through parent links (the root included). |
| Recursion.FlattenAllFromTopLevel | finmanager/core/recursion.py:16-22 | With unique ids, flattening from no root includes every top-level category and lists exactly the descendants of the top-level categories (each root included). |
| Recursion.SumIsOverFlattening | finmanager/core/recursion.py:40-57 | The recursive sum equals the direct sum of the root plus the direct sums of every category in the flattening of its children. |
| Recursion.SumOfExistingRoot | finmanager/core/recursion.py:40-57 | For an existing root, the recursive sum is the sum of direct sums over the root's flattening. |
| Recursion.SumRecursiveEmpty | finmanager/core/recursion.py:40-57 | Without transactions the recursive sum is 0. |
| Recursion.SumRecursiveStep | finmanager/core/recursion.py:40-57 | With unique ids, one more transaction adds its amount once if its category is in the root's subtree, and nothing otherwise. |
| Recursion.SumIsSubtreeTotal | finmanager/core/recursion.py:40-57 | With unique ids, the recursive sum is the sum of the signed amounts of exactly the transactions whose category is in the root's subtree. |
| Recursion.SumOutsideSubtreeIsZero | finmanager/core/recursion.py:40-57 | With no transaction in the subtree, the recursive sum is 0. |
| Recursion.SumDirectConcat | finmanager/core/recursion.py:47 | Direct sums over two lists of categories add up. |
| Lazy.IterTransactionsMembers | finmanager/core/lazy.py:7-15 | The generator yields exactly the transactions that satisfy the predicate (all of them without one). |
| Lazy.IterTransactionsAll | finmanager/core/lazy.py:7-15 | Without a predicate it yields the whole tuple in order. |
| Lazy.IterTransactionsConcat | finmanager/core/lazy.py:7-15 | Iterating over two tuples joined yields the two filtered outputs joined, in order. |
| Lazy.ExpenseOrderKeys | finmanager/core/lazy.py:29-34 | The accumulated category ids are distinct and are exactly the categories with some expense, i.e. with a positive spent sum. |
| Lazy.Items | finmanager/core/lazy.py:29-34 | One total per accumulated category, in first-seen order, each holding that category's whole spending. |
| Lazy.InsertKeepsDescending | finmanager/core/lazy.py:40 | Inserting into a list sorted by decreasing amount keeps it sorted. |
| Lazy.InsertPermutes | finmanager/core/lazy.py:40 | Inserting adds exactly the new element. |
| Lazy.InsertIsStable | finmanager/core/lazy.py:40 | Into a sorted list, inserting keeps the relative order of equal amounts and puts the new element after them. |
| Lazy.SortDescSortsAndPermutes | finmanager/core/lazy.py:40 | The sort yields a list by decreasing amount that is a permutation of its input. |
| Lazy.SortDescIsStable | finmanager/core/lazy.py:40 | The sort keeps the input order among equal amounts, as Python's `sorted` does. |
| Lazy.PyPrefix | finmanager/core/lazy.py:42 | Python's `[:k]`: a negative `k` drops the last `abs(k)` items; otherwise at most `k` items; always a prefix. |
| Lazy.CategoryName | finmanager/core/lazy.py:38-43 | The name of the last category with the id, or the id itself when none has it. |
| Lazy.Label | finmanager/core/lazy.py:42-43 | Each total becomes a (name, amount) pair, in order. |
| Lazy.Accumulate | finmanager/core/lazy.py:29-34 | The consuming loop leaves one dictionary key per category with an expense, in first-seen order, each holding that category's whole spending. |
| Lazy.LazyTopCategories | finmanager/core/lazy.py:18-43 | The streaming loop yields exactly the specification's top categories. |
| Lazy.TopTotalsAreRanked | finmanager/core/lazy.py:40-42 | The reported totals come in decreasing order. |
| Lazy.TopTotalsAreTheLargest | finmanager/core/lazy.py:40-42 | A category left out of the top `k` spent no more than any category reported. |
| Lazy.TopTotalsGrow | finmanager/core/lazy.py:42 | A larger `k` extends the report. |
| Lazy.TopTotalsAll | finmanager/core/lazy.py:40-42 | When `k` covers every category, the report is a permutation of all the totals. |
| Service.LineFor | finmanager/core/service.py:21-27 | The line carries the limit and the category's spent sum; its status is OVER exactly when `check_budget` fails. |
| Service.MonthlyReport | finmanager/core/service.py:13-28 | The loop computes exactly the report specification. |
| Service.ReportEntries | finmanager/core/service.py:20-28 | The report has an entry exactly for each budget id; with repeated ids the last budget wins. |
| Service.ExpensesOfMembers | finmanager/core/service.py:41 | The filter keeps exactly the expenses of the category. |
| Service.ExpensesOfCount | finmanager/core/service.py:41 | The filter keeps one entry per position of an expense of the category. |
| Service.CategoryReport | finmanager/core/service.py:34-45 | The report names the category, and its count is the number of positions of the category's expenses. |
| Service.CategoryReportTotals | finmanager/core/service.py:34-45 | The total equals the budget checker's spent sum; the count is at most the total; the total is 0 exactly when there is no expense. |
| Service.ExpensesByMonth | finmanager/core/service.py:47-62 | The result has exactly one key per listed month (duplicates collapse, as with `dict(zip(...))`), and each key holds that month's spending. |
| Service.MonthSpentNone | finmanager/core/service.py:51-57 | A prefix that no expense's timestamp starts with reports 0. |
| Service.MonthSpentNarrows | finmanager/core/service.py:55-57 | A longer prefix never selects more spending; the empty prefix selects all of it. |
| Service.MonthsAddUp | finmanager/core/service.py:55-57 | Two months where neither prefixes the other together spend no more than the total. |
| Service.BalanceForecast | finmanager/core/service.py:64-78 | The loop computes exactly the forecast fold over the transactions. |
| Service.ForecastIsOpeningPlusHistory | finmanager/core/service.py:64-78 | The forecast has the same account ids as the accounts. Each is the opening balance plus the account's transaction sum; transactions of unknown accounts are ignored. |
| Service.OpeningsLastWins | finmanager/core/service.py:71 | The starting balances have an entry exactly for each account id, the last account with an id winning. |

## Left out

- `load_seed` reads JSON from a file. It is I/O and is not modelled.
- `memo.py`, `auth.py` and the Streamlit UI in `app/main.py` are not part of this model. Of `app/main.py`, only the bus wiring at lines 94-96 is modelled.
- The `asyncio.sleep` calls and the concurrent `gather` in `expenses_by_month` and `balance_forecast` are not modelled. They do not affect the results, so each service is a plain function or method.
- The constructor arguments of `BudgetService` and `ReportService` are not modelled. Neither service method uses them.
- Frp.OnTransactionAdded: an event without a transaction payload raises `KeyError` in the source. The model returns the state unchanged instead.
- Frp.CheckBudgetHandler: the same `KeyError` case returns the state unchanged.
- Transforms.ValidateTransaction: the errors are the structured values `AccountNotFound(id)` and `CategoryNotFound(id)`, not the source's `{"error": "Account ... not found"}` and `{"error": "Category ... not found"}` dictionaries with message text.
- Transforms.CheckBudget: the overrun is the structured value `OverBudget(budget id, limit, spent)`, not the source's dictionary with its `"Over Budget"` message text.
- Frp.AlertFor: an alert is a structured `BudgetExceeded(budget id, limit, spent)` value, not the formatted message string.
- Frp.EventBus.Publish: handlers return an effect value instead of performing side effects, and the effects come back in call order.
- StateUtils.UpdateTransaction: the patch is a record of optional fields, not a dictionary. The amount is already an integer, so the `int()` conversion of the source is not modelled, and keys outside the five transaction fields cannot occur.
- The state is the five-field `State` record. A dictionary missing a key, for which the source falls back to `()`, or one carrying extra keys is not modelled.
- Compose.Pipe: `compose` and `pipe` are modelled over functions of one type `T -> T`. Python's dynamically typed chains of differently typed functions are not.
- Ftypes.Unwrap: it is modelled over an `Either` whose two sides share one type.
- Lazy.IterTransactions: the generator is an eager sequence, so laziness and partial consumption are not modelled.
- Lazy.LazyTopCategories: the result is an eager sequence.
- Recursion.Flatten: the model requires the whole parent relation to be acyclic, through a ghost ranking under which every child ranks below its parent (`RankedBy`). The source needs less: only a cycle reachable from the queried root (or, with no root, from a top-level category) makes CPython recurse until its recursion limit and raise `RecursionError`. A cycle elsewhere is harmless in the source but is outside the model.
- Recursion.SumExpensesRecursive: it also needs the acyclic ranking.
- Integer amounts are unbounded, as Python's `int` is.
