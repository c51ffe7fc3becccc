/**
 The response of getYearStats and what it promises: `total` counts every
 selected row, `items` is the requested page of the ordered selection, and
 `totalByType` sums amounts per type over the rows the query yields once its
 limit is set, which is the page.
 */
module BudgetStats {
  import opened BudgetTypes
  import opened BudgetQuery
  import Text

  /** The rows `totalByType` is summed over. */
  datatype SumScope = CurrentPage | WholeSelection

  function Stats(rows: seq<BudgetRow>, authors: map<nat, string>, p: BudgetYearParam, scope: SumScope): BudgetYearStatsResponse
  {
    var selected := Selected(rows, authors, p);
    var page := Page(selected, p.limit, p.offset);
    var summed := match scope case CurrentPage => page case WholeSelection => selected;
    BudgetYearStatsResponse(|selected|, SumByType(summed), Project(page))
  }

  /**
   getYearStats as written: `limit` sets the window of the query object itself
   and returns that same object, so the grouping at line 53 iterates the page.
   */
  function YearStats(rows: seq<BudgetRow>, authors: map<nat, string>, p: BudgetYearParam): (r: BudgetYearStatsResponse)
    ensures r.total == CountMatching(rows, authors, p)
    ensures |r.items| <= p.limit
  {
    FilteredCount(rows, authors, p);
    Stats(rows, authors, p, CurrentPage)
  }

  /** getYearStats with the per-type sums taken over every matching row, independent of the page. */
  function IntendedYearStats(rows: seq<BudgetRow>, authors: map<nat, string>, p: BudgetYearParam): (r: BudgetYearStatsResponse)
    ensures r.total == CountMatching(rows, authors, p)
    ensures |r.items| <= p.limit
  {
    FilteredCount(rows, authors, p);
    Stats(rows, authors, p, WholeSelection)
  }

  /** The number of budget rows whose joined form passes the filter. */
  function CountMatching(rows: seq<BudgetRow>, authors: map<nat, string>, p: BudgetYearParam): nat
  {
    if rows == [] then 0
    else CountMatching(rows[..|rows| - 1], authors, p) + if Matches(JoinRow(rows[|rows| - 1], authors), p) then 1 else 0
  }

  lemma LeftJoinSnoc(rows: seq<BudgetRow>, row: BudgetRow, authors: map<nat, string>)
    ensures LeftJoin(rows + [row], authors) == LeftJoin(rows, authors) + [JoinRow(row, authors)]
  {
    var a, b := LeftJoin(rows + [row], authors), LeftJoin(rows, authors) + [JoinRow(row, authors)];
    forall i | 0 <= i < |a| ensures a[i] == b[i] {
      assert (rows + [row])[i] == if i < |rows| then rows[i] else row;
    }
  }

  lemma {:induction false} FilteredCount(rows: seq<BudgetRow>, authors: map<nat, string>, p: BudgetYearParam)
    ensures |FilterRows(LeftJoin(rows, authors), p)| == CountMatching(rows, authors, p)
  {
    if rows != [] {
      var init, last := rows[..|rows| - 1], rows[|rows| - 1];
      assert rows == init + [last];
      FilteredCount(init, authors, p);
      LeftJoinSnoc(init, last, authors);
      var joined := LeftJoin(init, authors) + [JoinRow(last, authors)];
      assert joined[..|joined| - 1] == LeftJoin(init, authors);
    }
  }

  lemma {:induction false} FilterRowsRespectsMatches(s: seq<JoinedRow>, p: BudgetYearParam, q: BudgetYearParam)
    requires forall j :: Matches(j, p) == Matches(j, q)
    ensures FilterRows(s, p) == FilterRows(s, q)
  {
    if s != [] {
      FilterRowsRespectsMatches(s[..|s| - 1], p, q);
    }
  }

  /** `total` counts the rows passing the filter; the page parameters do not change it (line 39 counts before line 42 limits). */
  lemma TotalCountsMatchingRows(rows: seq<BudgetRow>, authors: map<nat, string>, p: BudgetYearParam, limit: nat, offset: nat)
    ensures YearStats(rows, authors, p).total == CountMatching(rows, authors, p)
    ensures YearStats(rows, authors, p.(limit := limit, offset := offset)).total == YearStats(rows, authors, p).total
  {
    FilteredCount(rows, authors, p);
    FilterRowsRespectsMatches(LeftJoin(rows, authors), p, p.(limit := limit, offset := offset));
  }

  /** A row added to the table raises `total` by one exactly when it passes the filter. */
  lemma TotalAfterInsert(rows: seq<BudgetRow>, row: BudgetRow, authors: map<nat, string>, p: BudgetYearParam)
    ensures YearStats(rows + [row], authors, p).total
         == YearStats(rows, authors, p).total + if Matches(JoinRow(row, authors), p) then 1 else 0
  {
    TotalCountsMatchingRows(rows, authors, p, p.limit, p.offset);
    TotalCountsMatchingRows(rows + [row], authors, p, p.limit, p.offset);
    assert (rows + [row])[..|rows|] == rows;
  }

  /** The joined rows the query selects: those of the table that pass the filter, and nothing else. */
  lemma SelectedAreMatchingRows(rows: seq<BudgetRow>, authors: map<nat, string>, p: BudgetYearParam)
    ensures forall i :: 0 <= i < |rows| ==>
      (JoinRow(rows[i], authors) in Selected(rows, authors, p) <==> Matches(JoinRow(rows[i], authors), p))
    ensures forall j :: j in Selected(rows, authors, p) ==>
      Matches(j, p) && j.row in rows && j == JoinRow(j.row, authors)
  {
    var joined := LeftJoin(rows, authors);
    var filtered := FilterRows(joined, p);
    var s := Selected(rows, authors, p);
    assert multiset(s) == multiset(filtered);
    forall i | 0 <= i < |rows|
      ensures JoinRow(rows[i], authors) in s <==> Matches(JoinRow(rows[i], authors), p)
    {
      var x := JoinRow(rows[i], authors);
      assert joined[i] == x;
      assert x in multiset(joined);
      assert multiset(filtered)[x] == if Matches(x, p) then multiset(joined)[x] else 0;
      assert x in s <==> x in multiset(filtered);
    }
    forall j | j in s ensures Matches(j, p) && j.row in rows && j == JoinRow(j.row, authors) {
      assert j in multiset(filtered);
      assert j in multiset(joined);
      var i :| 0 <= i < |joined| && joined[i] == j;
      assert rows[i] == j.row;
    }
  }

  /** With no author or an empty one, the year alone decides: rows without an author are kept. */
  lemma NoAuthorFilterSelectsTheYear(rows: seq<BudgetRow>, authors: map<nat, string>, p: BudgetYearParam)
    requires p.author == None || p.author == Some("")
    ensures forall i :: 0 <= i < |rows| ==>
      (JoinRow(rows[i], authors) in Selected(rows, authors, p) <==> rows[i].year == p.year)
  {
    SelectedAreMatchingRows(rows, authors, p);
  }

  /**
   With a non-empty author, a row is selected exactly when its year matches and
   its author's full name equals the parameter ignoring case; rows without an
   author are never selected.
   */
  lemma AuthorFilterSelectsByName(rows: seq<BudgetRow>, authors: map<nat, string>, p: BudgetYearParam)
    requires FiltersByAuthor(p)
    ensures forall i :: 0 <= i < |rows| ==>
      (JoinRow(rows[i], authors) in Selected(rows, authors, p) <==>
        rows[i].year == p.year && AuthorName(rows[i].authorId, authors).Some?
        && Text.Lower(AuthorName(rows[i].authorId, authors).value) == Text.Lower(p.author.value))
    ensures forall j :: j in Selected(rows, authors, p) ==> j.fullName.Some? && j.row.authorId.Some?
  {
    SelectedAreMatchingRows(rows, authors, p);
  }

  /** Two queries whose author parameters differ only in case return the same response. */
  lemma AuthorFilterIgnoresCase(rows: seq<BudgetRow>, authors: map<nat, string>, p: BudgetYearParam, other: string, scope: SumScope)
    requires p.author.Some? && Text.Lower(p.author.value) == Text.Lower(other)
    ensures Stats(rows, authors, p, scope) == Stats(rows, authors, p.(author := Some(other)), scope)
  {
    var q := p.(author := Some(other));
    assert p.author.value == "" <==> other == "" by {
      assert |p.author.value| == |Text.Lower(p.author.value)| == |Text.Lower(other)| == |other|;
    }
    FilterRowsRespectsMatches(LeftJoin(rows, authors), p, q);
  }

  /** `items` is the page: at most `limit` items, none when `offset` is at or past `total`, and the item at `i` is the selected row at `offset + i`. */
  lemma ItemsAreThePage(rows: seq<BudgetRow>, authors: map<nat, string>, p: BudgetYearParam)
    ensures var st, s := YearStats(rows, authors, p), Selected(rows, authors, p);
      && |st.items| <= p.limit
      && (p.offset >= st.total ==> st.items == [])
      && (p.offset < st.total ==> |st.items| == Min(p.limit, st.total - p.offset))
      && forall i :: 0 <= i < |st.items| ==> p.offset + i < |s| && st.items[i] == ToResponse(s[p.offset + i])
  {
  }

  /** `items` is ordered by month ascending and, within a month, by amount descending. */
  lemma ItemsAreOrdered(rows: seq<BudgetRow>, authors: map<nat, string>, p: BudgetYearParam)
    ensures var items := YearStats(rows, authors, p).items;
      forall i, j :: 0 <= i < j < |items| ==>
        items[i].month < items[j].month || (items[i].month == items[j].month && items[i].amount >= items[j].amount)
  {
    var s := Selected(rows, authors, p);
    var page := Page(s, p.limit, p.offset);
    forall i, j | 0 <= i < j < |page| ensures Precedes(page[i], page[j]) {
      assert page[i] == s[p.offset + i] && page[j] == s[p.offset + j];
    }
  }

  /**
   `totalByType` has one key per type name on the page, the value being the sum
   of that type's amounts there; its values add up to the page's amounts.
   */
  lemma TotalByTypeSumsThePage(rows: seq<BudgetRow>, authors: map<nat, string>, p: BudgetYearParam)
    ensures var m, page := YearStats(rows, authors, p).totalByType, Page(Selected(rows, authors, p), p.limit, p.offset);
      && m.Keys == TypeNames(page)
      && (forall k :: k in m ==> m[k] == SumAmounts(OfType(page, k)))
      && SumOver(TypeNameOrder(page), m) == SumAmounts(page)
  {
    TotalByTypeAddsUp(Page(Selected(rows, authors, p), p.limit, p.offset));
  }

  /** The intended per-type sums cover the whole selection: one key per type name selected, values adding up to all selected amounts. */
  lemma IntendedSumsCoverSelection(rows: seq<BudgetRow>, authors: map<nat, string>, p: BudgetYearParam)
    ensures var m, s := IntendedYearStats(rows, authors, p).totalByType, Selected(rows, authors, p);
      && m.Keys == TypeNames(s)
      && (forall k :: k in m ==> m[k] == SumAmounts(OfType(s, k)))
      && SumOver(TypeNameOrder(s), m) == SumAmounts(s)
  {
    TotalByTypeAddsUp(Selected(rows, authors, p));
  }

  /** The intended per-type sums do not depend on the page parameters. */
  lemma IntendedSumsIgnorePaging(rows: seq<BudgetRow>, authors: map<nat, string>, p: BudgetYearParam, limit: nat, offset: nat)
    ensures IntendedYearStats(rows, authors, p.(limit := limit, offset := offset)).totalByType
         == IntendedYearStats(rows, authors, p).totalByType
  {
    FilterRowsRespectsMatches(LeftJoin(rows, authors), p, p.(limit := limit, offset := offset));
  }

  /** When the first page holds the whole selection, the code as written and the intended behaviour agree. */
  lemma SumsAgreeOnASinglePage(rows: seq<BudgetRow>, authors: map<nat, string>, p: BudgetYearParam)
    requires p.offset == 0 && p.limit >= |Selected(rows, authors, p)|
    ensures YearStats(rows, authors, p) == IntendedYearStats(rows, authors, p)
  {
    var s := Selected(rows, authors, p);
    assert Page(s, p.limit, p.offset) == s;
  }

  /** A year with no rows yields a zero total, no sums and no items. */
  /** No matching rows (no row of the year, or an author filter that matches nobody) yields a zero total, no sums and no items. */
  lemma NoMatchingRows(rows: seq<BudgetRow>, authors: map<nat, string>, p: BudgetYearParam, scope: SumScope)
    requires CountMatching(rows, authors, p) == 0
    ensures Stats(rows, authors, p, scope) == BudgetYearStatsResponse(0, map[], [])
  {
    FilteredCount(rows, authors, p);
    assert Selected(rows, authors, p) == [];
    assert TypeNames([]) == {};
  }

  /** A row added for the queried year is selected and counted, when no author filter is given. */
  lemma AddedRowIsCounted(rows: seq<BudgetRow>, row: BudgetRow, authors: map<nat, string>, p: BudgetYearParam)
    requires row.year == p.year && !FiltersByAuthor(p)
    ensures JoinRow(row, authors) in Selected(rows + [row], authors, p)
    ensures YearStats(rows + [row], authors, p).total == YearStats(rows, authors, p).total + 1
  {
    TotalAfterInsert(rows, row, authors, p);
    NoAuthorFilterSelectsTheYear(rows + [row], authors, p);
    assert (rows + [row])[|rows|] == row;
  }

  const ScenarioA := BudgetRow(1, 2020, 1, 100, BudgetType("TypeA"), Some(7))
  const ScenarioB := BudgetRow(2, 2020, 1, 50, BudgetType("TypeB"), Some(7))
  const ScenarioC := BudgetRow(3, 2020, 5, 200, BudgetType("TypeA"), None)
  const ScenarioAuthors := map[7 := "AuthorX"]

  lemma ScenarioJoin()
    ensures LeftJoin([ScenarioA, ScenarioB, ScenarioC], ScenarioAuthors)
         == [JoinedRow(ScenarioA, Some("AuthorX")), JoinedRow(ScenarioB, Some("AuthorX")), JoinedRow(ScenarioC, None)]
  {
    var rows := [ScenarioA, ScenarioB, ScenarioC];
    assert rows[1..] == [ScenarioB, ScenarioC] && rows[1..][1..] == [ScenarioC] && [ScenarioC][1..] == [];
  }

  lemma ScenarioFilter(p: BudgetYearParam)
    requires p.year == 2020 && p.author == None
    ensures var js := [JoinedRow(ScenarioA, Some("AuthorX")), JoinedRow(ScenarioB, Some("AuthorX")), JoinedRow(ScenarioC, None)];
      FilterRows(js, p) == js
  {
    var j1, j2, j3 := JoinedRow(ScenarioA, Some("AuthorX")), JoinedRow(ScenarioB, Some("AuthorX")), JoinedRow(ScenarioC, None);
    assert [j1, j2, j3][..2] == [j1, j2] && [j1, j2][..1] == [j1] && [j1][..0] == [];
    assert FilterRows([j1], p) == [j1];
    assert FilterRows([j1, j2], p) == [j1, j2];
  }

  lemma ScenarioSort()
    ensures var js := [JoinedRow(ScenarioA, Some("AuthorX")), JoinedRow(ScenarioB, Some("AuthorX")), JoinedRow(ScenarioC, None)];
      SortRows(js) == js
  {
    var j1, j2, j3 := JoinedRow(ScenarioA, Some("AuthorX")), JoinedRow(ScenarioB, Some("AuthorX")), JoinedRow(ScenarioC, None);
    assert [j1, j2, j3][1..] == [j2, j3] && [j2, j3][1..] == [j3] && [j3][1..] == [];
    assert Insert(j3, []) == [j3];
    assert Insert(j2, [j3]) == [j2, j3];
    assert Insert(j1, [j2, j3]) == [j1, j2, j3];
  }

  lemma ScenarioSelection(p: BudgetYearParam)
    requires p.year == 2020 && p.author == None
    ensures Selected([ScenarioA, ScenarioB, ScenarioC], ScenarioAuthors, p)
         == [JoinedRow(ScenarioA, Some("AuthorX")), JoinedRow(ScenarioB, Some("AuthorX")), JoinedRow(ScenarioC, None)]
  {
    ScenarioJoin();
    ScenarioFilter(p);
    ScenarioSort();
  }

  lemma ScenarioPageSums()
    ensures SumByType([JoinedRow(ScenarioB, Some("AuthorX"))]) == map["TypeB" := 50]
  {
    var j2 := JoinedRow(ScenarioB, Some("AuthorX"));
    TypeNamesSnoc([], j2);
    assert [] + [j2] == [j2];
    assert OfType([j2], "TypeB") == [j2];
    assert SumAmounts([j2]) == 50;
  }

  lemma ScenarioTypeNames()
    ensures TypeNames([JoinedRow(ScenarioA, Some("AuthorX")), JoinedRow(ScenarioB, Some("AuthorX")), JoinedRow(ScenarioC, None)])
         == {"TypeA", "TypeB"}
  {
    var j1, j2, j3 := JoinedRow(ScenarioA, Some("AuthorX")), JoinedRow(ScenarioB, Some("AuthorX")), JoinedRow(ScenarioC, None);
    assert [] + [j1] == [j1] && [j1] + [j2] == [j1, j2] && [j1, j2] + [j3] == [j1, j2, j3];
    TypeNamesSnoc([], j1);
    TypeNamesSnoc([j1], j2);
    TypeNamesSnoc([j1, j2], j3);
  }

  lemma ScenarioGroupA()
    ensures var j1, j2, j3 := JoinedRow(ScenarioA, Some("AuthorX")), JoinedRow(ScenarioB, Some("AuthorX")), JoinedRow(ScenarioC, None);
      OfType([j1, j2, j3], "TypeA") == [j1, j3]
  {
    var j1, j2, j3 := JoinedRow(ScenarioA, Some("AuthorX")), JoinedRow(ScenarioB, Some("AuthorX")), JoinedRow(ScenarioC, None);
    assert [] + [j1] == [j1] && [j1] + [j2] == [j1, j2] && [j1, j2] + [j3] == [j1, j2, j3];
    OfTypeSnoc([], j1, "TypeA");
    OfTypeSnoc([j1], j2, "TypeA");
    OfTypeSnoc([j1, j2], j3, "TypeA");
  }

  lemma ScenarioGroupB()
    ensures var j1, j2, j3 := JoinedRow(ScenarioA, Some("AuthorX")), JoinedRow(ScenarioB, Some("AuthorX")), JoinedRow(ScenarioC, None);
      OfType([j1, j2, j3], "TypeB") == [j2]
  {
    var j1, j2, j3 := JoinedRow(ScenarioA, Some("AuthorX")), JoinedRow(ScenarioB, Some("AuthorX")), JoinedRow(ScenarioC, None);
    assert [] + [j1] == [j1] && [j1] + [j2] == [j1, j2] && [j1, j2] + [j3] == [j1, j2, j3];
    OfTypeSnoc([], j1, "TypeB");
    OfTypeSnoc([j1], j2, "TypeB");
    OfTypeSnoc([j1, j2], j3, "TypeB");
  }

  lemma ScenarioGroups()
    ensures var j1, j2, j3 := JoinedRow(ScenarioA, Some("AuthorX")), JoinedRow(ScenarioB, Some("AuthorX")), JoinedRow(ScenarioC, None);
      && SumAmounts(OfType([j1, j2, j3], "TypeA")) == 300
      && SumAmounts(OfType([j1, j2, j3], "TypeB")) == 50
  {
    var j1, j2, j3 := JoinedRow(ScenarioA, Some("AuthorX")), JoinedRow(ScenarioB, Some("AuthorX")), JoinedRow(ScenarioC, None);
    ScenarioGroupA();
    ScenarioGroupB();
    assert [] + [j1] == [j1] && [j1] + [j3] == [j1, j3] && [] + [j2] == [j2];
    SumAmountsSnoc([], j1);
    SumAmountsSnoc([j1], j3);
    SumAmountsSnoc([], j2);
  }

  lemma TwoEntryMap(m: map<string, int>, a: string, b: string, va: int, vb: int)
    requires m.Keys == {a, b} && a in m && b in m && m[a] == va && m[b] == vb
    ensures m == map[a := va, b := vb]
  {
  }

  lemma ScenarioSelectionSums()
    ensures SumByType([JoinedRow(ScenarioA, Some("AuthorX")), JoinedRow(ScenarioB, Some("AuthorX")), JoinedRow(ScenarioC, None)])
         == map["TypeA" := 300, "TypeB" := 50]
  {
    var js := [JoinedRow(ScenarioA, Some("AuthorX")), JoinedRow(ScenarioB, Some("AuthorX")), JoinedRow(ScenarioC, None)];
    ScenarioTypeNames();
    ScenarioGroups();
    var m := SumByType(js);
    assert m.Keys == {"TypeA", "TypeB"};
    assert m["TypeA"] == 300;
    assert m["TypeB"] == 50;
    TwoEntryMap(m, "TypeA", "TypeB", 300, 50);
  }

  /**
   Three rows of 2020, the second page of size one: the total counts all three,
   but the per-type sums as written only see the one row on the page.
   */
  lemma SecondPageSumsMissOtherRows()
    ensures var rows, p := [ScenarioA, ScenarioB, ScenarioC], BudgetYearParam(2020, None, 1, 1);
      && YearStats(rows, ScenarioAuthors, p).total == 3
      && YearStats(rows, ScenarioAuthors, p).items == [BudgetResponse(2020, 1, 50, BudgetType("TypeB"), Some("AuthorX"))]
      && YearStats(rows, ScenarioAuthors, p).totalByType == map["TypeB" := 50]
      && IntendedYearStats(rows, ScenarioAuthors, p).totalByType == map["TypeA" := 300, "TypeB" := 50]
  {
    var p := BudgetYearParam(2020, None, 1, 1);
    ScenarioSelection(p);
    ScenarioPageSums();
    ScenarioSelectionSums();
    var j1, j2, j3 := JoinedRow(ScenarioA, Some("AuthorX")), JoinedRow(ScenarioB, Some("AuthorX")), JoinedRow(ScenarioC, None);
    assert Page([j1, j2, j3], 1, 1) == [j2];
    assert Project([j2]) == [BudgetResponse(2020, 1, 50, BudgetType("TypeB"), Some("AuthorX"))];
  }
}
