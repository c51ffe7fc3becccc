/**
 The values the budget service reads and writes: a row of the budget table,
 the record addRecord receives, the query parameters of getYearStats and the
 response shapes it builds.
 */
module BudgetTypes {

  datatype Option<+T> = None | Some(value: T)

  /** The budget category. Grouping uses the name of the enum constant. */
  datatype BudgetType = BudgetType(name: string)

  /** A row of the budget table: the stored fields plus the identity the storage assigns. */
  datatype BudgetRow = BudgetRow(
    id: nat,
    year: int,
    month: int,
    amount: int,
    budgetType: BudgetType,
    authorId: Option<nat>)

  /** The candidate record addRecord takes, and the form it returns. */
  datatype BudgetRecord = BudgetRecord(
    year: int,
    month: int,
    amount: int,
    budgetType: BudgetType,
    author: Option<nat>)

  /**
   The parameters of the year-statistics query. `limit` and `offset` are
   assumed to be validated as non-negative before the service is called; the
   model rules out negative values by typing them `nat`.
   */
  datatype BudgetYearParam = BudgetYearParam(
    year: int,
    author: Option<string>,
    limit: nat,
    offset: nat)

  /** One listed item: the row's fields and the author's full name, if any. */
  datatype BudgetResponse = BudgetResponse(
    year: int,
    month: int,
    amount: int,
    budgetType: BudgetType,
    author: Option<string>)

  datatype BudgetYearStatsResponse = BudgetYearStatsResponse(
    total: nat,
    totalByType: map<string, int>,
    items: seq<BudgetResponse>)

  /** The storage failure the core can provoke itself: a reference to an author that does not exist. */
  datatype StorageError = UnknownAuthor(authorId: nat)

  datatype Result<+T> = Ok(value: T) | Err(error: StorageError)
}
