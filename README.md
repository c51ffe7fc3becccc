# Budget service: a Dafny model of record insertion and year statistics

This project models `BudgetService` of the budget record-keeping application.
The service has two operations:

- `addRecord` inserts one budget record (year, month, amount, type and an
  optional author reference) into the budget table.
- `getYearStats` answers a year-scoped query. It filters the budget table,
  which is LEFT-joined with the author table, by year and optionally by
  author name (ignoring case). It orders the matching rows by month ascending,
  then by amount descending. It returns `total`, the count of matching rows;
  `items`, one page (`limit` rows from `offset`) of them with the author's
  full name; and `totalByType`, the amounts summed per type name.

Files:

- `budget_types.dfy` (module `BudgetTypes`): budget rows, records, query
  parameters, response shapes and the storage error.
- `text.dfy` (module `Text`): lower-casing of names, ASCII letters only.
- `budget_query.dfy` (module `BudgetQuery`): the query as a pipeline of
  functions over sequences. It covers the left join, the filter predicate,
  the two-key sort (an insertion sort proved sorted and a permutation), the
  page, the projection, the group-by and the per-type sums.
- `budget_stats.dfy` (module `BudgetStats`): the response of `getYearStats`
  and the lemmas about it. It also holds the worked scenario behind the
  finding below.
- `budget_service.dfy` (module `BudgetService`): two classes. `Query` is the
  built query object; its `Limit` sets the window on the object itself and
  returns that same object. `BudgetStore` holds the budget table, the author
  table and the next identity, and has the two operations as methods.

The model follows the code as written. Per-type sums evidently ought to
cover every matching record, independent of the page, next to a grand total
that does. In the code, `query.limit(...)` at line 42 sets the limit on `query` itself,
so the `groupBy` at line 53 iterates only the page. `total`, counted at
line 39 before the limit, covers all matching rows. The choice is explicit in
`BudgetStats.SumScope`: `YearStats` (the code) sums over `CurrentPage`, and
`IntendedYearStats` (every matching row) sums over `WholeSelection`.
`BudgetStore.GetYearStats` is proved equal to `YearStats`.

## Model

| member | source | states |
|---|---|---|
| `Text.LowerChar` | src/main/java/mobi/sevenwinds/app/budget/BudgetService.kt:30 | the result is never an upper-case letter; only upper-case letters change, each to its lower-case partner |
| `Text.Lower` | src/main/java/mobi/sevenwinds/app/budget/BudgetService.kt:30 | lower-casing keeps the length, maps every character, and leaves no upper-case letter |
| `BudgetQuery.LeftJoin` | src/main/java/mobi/sevenwinds/app/budget/BudgetService.kt:33-35 | the LEFT join keeps every budget row once, in place; the author name is present exactly when the row's author reference resolves, and then it is that author's full name |
| `BudgetQuery.Matches` | src/main/java/mobi/sevenwinds/app/budget/BudgetService.kt:27-31 | the WHERE predicate: a row passes only if its year matches; with the author absent or empty the year alone decides; with a non-empty author a row without an author never passes |
| `BudgetQuery.FilterRows` | src/main/java/mobi/sevenwinds/app/budget/BudgetService.kt:27-36 | the selection holds each joined row that passes the WHERE predicate as often as it occurs, and no other row |
| `BudgetQuery.Insert` | src/main/java/mobi/sevenwinds/app/budget/BudgetService.kt:37 | inserting one row into the ordering adds exactly that row to the multiset of rows |
| `BudgetQuery.InsertKeepsSorted` | src/main/java/mobi/sevenwinds/app/budget/BudgetService.kt:37 | inserting into a sequence ordered by (month ascending, amount descending) keeps it ordered |
| `BudgetQuery.SortRows` | src/main/java/mobi/sevenwinds/app/budget/BudgetService.kt:37 | ORDER BY month ASC, amount DESC yields a sorted permutation of its input |
| `BudgetQuery.Page` | src/main/java/mobi/sevenwinds/app/budget/BudgetService.kt:42 | LIMIT/OFFSET gives at most `limit` elements, none when `offset` is at or past the end, otherwise min(limit, length - offset) elements, and element `i` is input element `offset + i` |
| `BudgetQuery.Project` | src/main/java/mobi/sevenwinds/app/budget/BudgetService.kt:43-51 | one item per row, in order, copying year, month, amount and type and taking the joined author name (absent when there is no author) |
| `BudgetQuery.GroupByTypeName` | src/main/java/mobi/sevenwinds/app/budget/BudgetService.kt:53 | `groupBy` on the type name: every group is non-empty and holds only rows of its own type name |
| `BudgetQuery.GroupsAreOfType` | src/main/java/mobi/sevenwinds/app/budget/BudgetService.kt:53 | `groupBy` on the type name has one key per type name present; each group is non-empty and holds exactly that type's rows, in order |
| `BudgetQuery.SumByType` | src/main/java/mobi/sevenwinds/app/budget/BudgetService.kt:53-54 | the keys are exactly the type names of the grouped rows; each value is the sum of that type's amounts |
| `BudgetQuery.TypeNameOrder` | src/main/java/mobi/sevenwinds/app/budget/BudgetService.kt:53 | the type names listed once each, covering exactly the names present (in order of first occurrence by its definition; the contract does not state the order) |
| `BudgetQuery.TotalByTypeAddsUp` | src/main/java/mobi/sevenwinds/app/budget/BudgetService.kt:53-54 | the per-type sums add up to the sum of all amounts they were computed from |
| `BudgetStats.YearStats` | src/main/java/mobi/sevenwinds/app/budget/BudgetService.kt:25-62 | getYearStats as written (per-type sums over the page, stated by `TotalByTypeSumsThePage`): `total` is the number of table rows passing the filter, and `items` has at most `limit` elements |
| `BudgetStats.IntendedYearStats` | src/main/java/mobi/sevenwinds/app/budget/BudgetService.kt:25-62 | getYearStats with the per-type sums over every matching row: same `total` (the number of matching table rows) and at most `limit` items |
| `BudgetStats.TotalCountsMatchingRows` | src/main/java/mobi/sevenwinds/app/budget/BudgetService.kt:39-42 | `total` is the number of table rows passing the year/author filter; changing `limit` or `offset` does not change it |
| `BudgetStats.TotalAfterInsert` | src/main/java/mobi/sevenwinds/app/budget/BudgetService.kt:27-39 | an added row raises `total` by one exactly when it passes the filter, and otherwise leaves it unchanged |
| `BudgetStats.AddedRowIsCounted` | src/main/java/mobi/sevenwinds/app/budget/BudgetService.kt:27-39 | with no author filter, a row added for the queried year is selected and raises `total` by one |
| `BudgetStats.SelectedAreMatchingRows` | src/main/java/mobi/sevenwinds/app/budget/BudgetService.kt:27-37 | a table row's joined form is selected if and only if it passes the filter; every selected row is the join of a table row and passes the filter |
| `BudgetStats.NoAuthorFilterSelectsTheYear` | src/main/java/mobi/sevenwinds/app/budget/BudgetService.kt:27-35 | with the author absent or empty, a row is selected if and only if its year matches, whether or not it has an author |
| `BudgetStats.AuthorFilterSelectsByName` | src/main/java/mobi/sevenwinds/app/budget/BudgetService.kt:29-35 | with a non-empty author, a row is selected if and only if its year matches and its author's full name equals the parameter ignoring case; rows without an author are never selected |
| `BudgetStats.FilterRowsRespectsMatches` | src/main/java/mobi/sevenwinds/app/budget/BudgetService.kt:27-36 | two filters that accept the same rows select the same sequence |
| `BudgetStats.AuthorFilterIgnoresCase` | src/main/java/mobi/sevenwinds/app/budget/BudgetService.kt:29-30 | two queries whose author parameters differ only in letter case give the same response |
| `BudgetStats.ItemsAreThePage` | src/main/java/mobi/sevenwinds/app/budget/BudgetService.kt:41-51 | `items` has at most `limit` elements; it is empty when `offset >= total`; otherwise it has min(limit, total - offset) elements, and item `i` is the response of the selected row at `offset + i` |
| `BudgetStats.ItemsAreOrdered` | src/main/java/mobi/sevenwinds/app/budget/BudgetService.kt:37-51 | `items` is ordered by month ascending and, within a month, by amount descending |
| `BudgetStats.TotalByTypeSumsThePage` | src/main/java/mobi/sevenwinds/app/budget/BudgetService.kt:41-54 | as written, `totalByType` has one key per type name on the page; each value is that type's sum there; the values add up to the page's amounts |
| `BudgetStats.IntendedSumsCoverSelection` | src/main/java/mobi/sevenwinds/app/budget/BudgetService.kt:53-54 | summed over the whole selection, the keys are the selected type names and the values add up to all selected amounts |
| `BudgetStats.IntendedSumsIgnorePaging` | src/main/java/mobi/sevenwinds/app/budget/BudgetService.kt:53-54 | summed over the whole selection, `totalByType` does not depend on `limit` or `offset` |
| `BudgetStats.SumsAgreeOnASinglePage` | src/main/java/mobi/sevenwinds/app/budget/BudgetService.kt:41-54 | when `offset` is 0 and `limit` covers the selection, the response as written equals the intended one |
| `BudgetStats.NoMatchingRows` | src/main/java/mobi/sevenwinds/app/budget/BudgetService.kt:27-60 | when no row passes the filter (no row of the year, or an author filter that matches nobody), `total` is 0, `totalByType` is empty and there are no items, whichever rows the sums cover |
| `BudgetStats.SecondPageSumsMissOtherRows` | src/main/java/mobi/sevenwinds/app/budget/BudgetService.kt:39-54 | three rows of 2020 queried with limit 1, offset 1: `total` is 3 and `items` is the (month 1, amount 50) row, but `totalByType` is {TypeB: 50} as written, against {TypeA: 300, TypeB: 50} as intended |
| `BudgetService.Query.constructor` | src/main/java/mobi/sevenwinds/app/budget/BudgetService.kt:33-37 | a new query holds the rows its statement selects (the caller passes the filtered, ordered selection) and has no LIMIT/OFFSET window yet |
| `BudgetService.Query.Rows` | src/main/java/mobi/sevenwinds/app/budget/BudgetService.kt:43-53 | iterating the query yields the whole selection while no window is set; once one is, it yields exactly the LIMIT/OFFSET page of the selection (`Page`: at most `limit` rows, the row at `i` being the selected row at `offset + i`, none past the end) |
| `BudgetService.Query.Count` | src/main/java/mobi/sevenwinds/app/budget/BudgetService.kt:39 | `count()` is the number of rows iterating the query yields: the size of the selection while no window is set, and at most `limit` once one is |
| `BudgetService.Query.Limit` | src/main/java/mobi/sevenwinds/app/budget/BudgetService.kt:42 | `limit` sets the window on the query itself and returns that same object |
| `BudgetService.BudgetStore.AddRecord` | src/main/java/mobi/sevenwinds/app/budget/BudgetService.kt:11-23 | on success, exactly one row is appended; its fields equal the input and its identity is new; earlier rows are unchanged and the input comes back; a reference to a missing author fails and leaves the table unchanged; the table invariant is kept |
| `BudgetService.BudgetStore.GetYearStats` | src/main/java/mobi/sevenwinds/app/budget/BudgetService.kt:25-62 | `total` counts the matching rows before the window is set; `items` and `totalByType` are read from the same query object after `limit`, so both cover the page; the response equals `YearStats` |

## Left out

- Coroutine dispatch (`withContext(Dispatchers.IO)`) and the `transaction { }` blocks are not modelled. Each operation is one atomic step on the store's state.
- SQL generation, the database connection, the schema and storage failures are not modelled, apart from a reference to a missing author. Connectivity and constraint errors other than that one are left out.
- The query runs lazily each time it is iterated: the `map` at line 43 and the `groupBy` at line 53 each execute the same limited statement. The model evaluates the selection once, when the query is built, and reads both from that one result.
- BudgetStats.TotalByTypeSumsThePage: the model gives `items` and `totalByType` the same page. In the source they come from two separate executions, and SQL does not fix the order of rows tied on (month, amount). When such ties straddle the page boundary, the two executions may return different rows, so `totalByType` may cover other rows than `items` lists.
- `BudgetEntity`, `toResponse`, `BudgetTable`, `AuthorTable`, `BudgetRecord`, `BudgetYearParam` and the budget type enum are not part of this model. Each is modelled only by the fields used here. The author of a record is modelled by its identity, and the author table as a map from identity to full name. `toResponse` is taken to return the stored fields as a `BudgetRecord`.
- `Text.Lower`: maps ASCII letters only. Unicode case mapping in the database's `LOWER` and in Kotlin's `toLowerCase()` (including locale rules and any difference between the two) is not modelled.
- `BudgetQuery.SortRows`: promises only a sorted permutation. Rows with equal month and amount are left in table order. The database leaves their order unspecified, so `items` may differ between runs for such rows.
- `BudgetQuery.SumByType`: the Kotlin map keeps the first-occurrence order of its keys; the model's `map` has no order (`TypeNameOrder` lists the keys, in that order by its definition).
- `BudgetQuery.SumByType`: sums are unbounded integers. If `amount` is a 32-bit `Int`, Kotlin's `sumOf` wraps around on overflow. The column's width is not part of this model.
- `BudgetStats.TotalCountsMatchingRows`: `total` is an unbounded count, where the source's `count()` returns a 64-bit value.
- Request validation (month range, non-negative `limit` and `offset`) is not part of this service. `limit` and `offset` are assumed validated before the call; the model rules out negative values by typing them `nat` in `BudgetYearParam`. Month is not checked.
- HTTP routing and author management are outside this service and are not modelled.

## Findings

| source | as written | input that shows it | evidently intended | confidence | as-written member | corrected member |
|---|---|---|---|---|---|---|
| src/main/java/mobi/sevenwinds/app/budget/BudgetService.kt:41-54 | `limit` at line 42 sets the window on `query` itself, so the `groupBy` at line 53 sums only the rows of the current page | rows (2020, 1, 100, TypeA), (2020, 1, 50, TypeB), (2020, 5, 200, TypeA); year 2020, limit 1, offset 1: `totalByType` is {TypeB: 50} | per-type sums over every matching row, independent of the page: {TypeA: 300, TypeB: 50} | medium (depends on the query library version's `limit` mutating the query), not executed | `BudgetStats.SecondPageSumsMissOtherRows` | `BudgetStats.IntendedSumsCoverSelection` |

`BudgetService.BudgetStore.GetYearStats` keeps the behaviour as written,
because that is what the code does. `BudgetStats.IntendedYearStats` is the
corrected definition. `BudgetStats.IntendedSumsIgnorePaging` proves that its
sums do not depend on the page. `BudgetStats.SumsAgreeOnASinglePage` proves
that the two agree whenever the first page holds the whole selection.
