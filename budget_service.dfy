/**
 The budget service: the budget table it inserts into, the author table it
 joins with, and its two operations. The query object of getYearStats is a
 class because its `limit` changes the object itself and returns it, and the
 grouping afterwards reads that same object.
 */
module BudgetService {
  import opened BudgetTypes
  import opened BudgetQuery
  import opened BudgetStats

  datatype Window = Window(limit: nat, offset: nat)

  /** A built query (lines 33-37): the rows its statement selects and the LIMIT/OFFSET window set on it. */
  class Query {
    const selected: seq<JoinedRow>
    var window: Option<Window>

    constructor (selected: seq<JoinedRow>)
      ensures this.selected == selected && window == None
    {
      this.selected := selected;
      window := None;
    }

    /** The rows that iterating the query yields: the whole selection, or its window once `limit` was called. */
    function Rows(): (r: seq<JoinedRow>)
      reads this
      ensures window.None? ==> r == selected
      ensures window.Some? ==> |r| <= window.value.limit
      ensures window.Some? ==> r == Page(selected, window.value.limit, window.value.offset)
      ensures forall i :: 0 <= i < |r| ==> r[i] in selected
    {
      match window
      case None => selected
      case Some(w) => Page(selected, w.limit, w.offset)
    }

    /** `count()`: the number of rows the query yields. */
    function Count(): (c: nat)
      reads this
      ensures window.None? ==> c == |selected|
      ensures window.Some? ==> c <= window.value.limit && c <= |selected|
      ensures c == |Rows()|
    {
      |Rows()|
    }

    /** `limit(n, offset)`: sets the window on this query and returns this same query, not a copy. */
    method Limit(n: nat, offset: nat) returns (q: Query)
      modifies this
      ensures q == this
      ensures window == Some(Window(n, offset))
    {
      window := Some(Window(n, offset));
      q := this;
    }
  }

  predicate References(row: BudgetRow, authors: map<nat, string>)
  {
    row.authorId.Some? ==> row.authorId.value in authors
  }

  function ToRecord(row: BudgetRow): BudgetRecord
  {
    BudgetRecord(row.year, row.month, row.amount, row.budgetType, row.authorId)
  }

  class BudgetStore {
    /** The budget table, in insertion order. */
    var rows: seq<BudgetRow>
    /** The author table: identity to full name. It is managed elsewhere and only read here. */
    var authors: map<nat, string>
    /** The identity the storage assigns to the next inserted row. */
    var nextId: nat

    /** Identities are assigned increasingly and stay below `nextId`; every author reference resolves. */
    ghost predicate Valid()
      reads this
    {
      && (forall i :: 0 <= i < |rows| ==> rows[i].id < nextId)
      && (forall i, j :: 0 <= i < j < |rows| ==> rows[i].id < rows[j].id)
      && (forall i :: 0 <= i < |rows| ==> References(rows[i], authors))
    }

    constructor (authors: map<nat, string>)
      ensures Valid()
      ensures rows == [] && this.authors == authors
    {
      rows := [];
      this.authors := authors;
      nextId := 0;
    }

    /**
     addRecord (lines 11-23): one new row whose fields are copied from `body`,
     returned in record form. A reference to an author that does not exist is
     refused by the storage and nothing is inserted.
     */
    method AddRecord(body: BudgetRecord) returns (r: Result<BudgetRecord>)
      requires Valid()
      modifies this
      ensures Valid()
      ensures authors == old(authors)
      ensures body.author.Some? && body.author.value !in authors ==>
        r == Err(UnknownAuthor(body.author.value)) && rows == old(rows)
      ensures !(body.author.Some? && body.author.value !in authors) ==>
        && r == Ok(body)
        && |rows| == |old(rows)| + 1
        && rows[..|old(rows)|] == old(rows)
        && ToRecord(rows[|old(rows)|]) == body
        && forall i :: 0 <= i < |old(rows)| ==> old(rows)[i].id != rows[|old(rows)|].id
    {
      if body.author.Some? && body.author.value !in authors {
        return Err(UnknownAuthor(body.author.value));
      }
      var entity := BudgetRow(nextId, body.year, body.month, body.amount, body.budgetType, body.author);
      rows := rows + [entity];
      nextId := nextId + 1;
      r := Ok(ToRecord(entity));
    }

    /**
     getYearStats (lines 25-62): the total is counted before the window is set;
     the items and the per-type sums are read from the query after `limit`, so
     both cover the page.
     */
    method GetYearStats(param: BudgetYearParam) returns (resp: BudgetYearStatsResponse)
      ensures resp.total == CountMatching(rows, authors, param)
      ensures resp.items == Project(Page(Selected(rows, authors, param), param.limit, param.offset))
      ensures resp.totalByType == SumByType(Page(Selected(rows, authors, param), param.limit, param.offset))
      ensures resp == YearStats(rows, authors, param)
    {
      var query := new Query(Selected(rows, authors, param));
      var total := query.Count();
      var limited := query.Limit(param.limit, param.offset);
      var data := Project(limited.Rows());
      var sumByType := SumByType(query.Rows());
      resp := BudgetYearStatsResponse(total, sumByType, data);
      TotalCountsMatchingRows(rows, authors, param, param.limit, param.offset);
    }
  }
}
