/**
 The year-statistics query of the budget service, as a pipeline of functions
 over the rows of the budget table: a LEFT join with the author table, the
 year/author filter, the two-key ordering, the count, the page, the projection
 to the response shape and the per-type sums.
 */
module BudgetQuery {
  import opened BudgetTypes
  import Text

  /** A row of the LEFT join of the budget table with the author table: the author's full name is absent when no author row is found. */
  datatype JoinedRow = JoinedRow(row: BudgetRow, fullName: Option<string>)

  function AuthorName(authorId: Option<nat>, authors: map<nat, string>): Option<string>
  {
    if authorId.Some? && authorId.value in authors then Some(authors[authorId.value]) else None
  }

  function JoinRow(row: BudgetRow, authors: map<nat, string>): JoinedRow
  {
    JoinedRow(row, AuthorName(row.authorId, authors))
  }

  /** The LEFT join keeps every budget row, once and in place, and attaches the name of the author its reference points to. */
  function LeftJoin(rows: seq<BudgetRow>, authors: map<nat, string>): (r: seq<JoinedRow>)
    ensures |r| == |rows|
    ensures forall i :: 0 <= i < |rows| ==> r[i].row == rows[i]
    ensures forall i :: 0 <= i < |rows| ==>
      (r[i].fullName.Some? <==> rows[i].authorId.Some? && rows[i].authorId.value in authors)
    ensures forall i :: 0 <= i < |rows| ==>
      r[i].fullName.Some? ==> rows[i].authorId.Some? && rows[i].authorId.value in authors
                              && r[i].fullName.value == authors[rows[i].authorId.value]
  {
    if rows == [] then [] else [JoinRow(rows[0], authors)] + LeftJoin(rows[1..], authors)
  }

  /** Whether the query filters by author: only when the parameter is present and non-empty. */
  predicate FiltersByAuthor(p: BudgetYearParam)
  {
    p.author.Some? && p.author.value != ""
  }

  /**
   The WHERE clause: the year must match and, when an author is given, the
   joined author name must match it ignoring case. A row without an author has
   a NULL name, and NULL never compares equal.
   */
  predicate Matches(j: JoinedRow, p: BudgetYearParam)
    ensures Matches(j, p) ==> j.row.year == p.year
    ensures !FiltersByAuthor(p) ==> (Matches(j, p) <==> j.row.year == p.year)
    ensures FiltersByAuthor(p) && j.fullName.None? ==> !Matches(j, p)
  {
    match p.author
    case None => j.row.year == p.year
    case Some(a) =>
      if a == "" then j.row.year == p.year
      else j.row.year == p.year && j.fullName.Some? && Text.Lower(j.fullName.value) == Text.Lower(a)
  }

  /** The selected rows: each joined row that matches, as often as it occurs, and no other. */
  function FilterRows(s: seq<JoinedRow>, p: BudgetYearParam): (r: seq<JoinedRow>)
    ensures |r| <= |s|
    ensures forall x {:trigger multiset(r)[x]} :: multiset(r)[x] == if Matches(x, p) then multiset(s)[x] else 0
  {
    if s == [] then []
    else
      var init, last := s[..|s| - 1], s[|s| - 1];
      assert s == init + [last];
      var r := FilterRows(init, p);
      if Matches(last, p) then r + [last] else r
  }

  /** The ordering of line 37: month ascending, then amount descending. */
  predicate Precedes(a: JoinedRow, b: JoinedRow)
  {
    a.row.month < b.row.month || (a.row.month == b.row.month && a.row.amount >= b.row.amount)
  }

  predicate Sorted(s: seq<JoinedRow>)
  {
    forall i, j :: 0 <= i < j < |s| ==> Precedes(s[i], s[j])
  }

  /** Places `x` before the first element it precedes. */
  function Insert(x: JoinedRow, s: seq<JoinedRow>): (r: seq<JoinedRow>)
    ensures |r| == |s| + 1
    ensures multiset(r) == multiset(s) + multiset{x}
  {
    if s == [] || Precedes(x, s[0]) then [x] + s
    else
      assert s == [s[0]] + s[1..];
      [s[0]] + Insert(x, s[1..])
  }

  lemma {:induction false} InsertKeepsSorted(x: JoinedRow, s: seq<JoinedRow>)
    requires Sorted(s)
    ensures Sorted(Insert(x, s))
  {
    if s == [] || Precedes(x, s[0]) {
      var r := Insert(x, s);
      forall i, j | 0 <= i < j < |r| ensures Precedes(r[i], r[j]) {
        if i > 0 {
          assert r[i] == s[i - 1] && r[j] == s[j - 1];
        } else {
          assert Precedes(s[0], s[j - 1]) || j == 1;
        }
      }
    } else {
      var t := Insert(x, s[1..]);
      InsertKeepsSorted(x, s[1..]);
      var r := [s[0]] + t;
      assert Insert(x, s) == r;
      forall k | 0 <= k < |t| ensures Precedes(s[0], t[k]) {
        assert t[k] in multiset(t);
        if t[k] != x {
          assert t[k] in multiset(s[1..]);
          assert t[k] in s[1..];
          var m :| 0 <= m < |s[1..]| && s[1..][m] == t[k];
          assert s[m + 1] == t[k];
        }
      }
      forall i, j | 0 <= i < j < |r| ensures Precedes(r[i], r[j]) {
        if i > 0 {
          assert r[i] == t[i - 1] && r[j] == t[j - 1];
        } else {
          assert r[j] == t[j - 1];
        }
      }
    }
  }

  /** The ORDER BY of line 37: a sorted permutation of its input. */
  function SortRows(s: seq<JoinedRow>): (r: seq<JoinedRow>)
    ensures Sorted(r)
    ensures multiset(r) == multiset(s)
    ensures |r| == |s|
  {
    if s == [] then []
    else
      assert s == [s[0]] + s[1..];
      var t := SortRows(s[1..]);
      InsertKeepsSorted(s[0], t);
      Insert(s[0], t)
  }

  /** The filtered, ordered result set the query of lines 27-37 selects, before any paging. */
  function Selected(rows: seq<BudgetRow>, authors: map<nat, string>, p: BudgetYearParam): seq<JoinedRow>
  {
    SortRows(FilterRows(LeftJoin(rows, authors), p))
  }

  function Min(a: int, b: int): int
  {
    if a <= b then a else b
  }

  /** LIMIT `limit` OFFSET `offset`: at most `limit` consecutive elements starting at `offset`; none when `offset` is past the end. */
  function Page<T>(s: seq<T>, limit: nat, offset: nat): (r: seq<T>)
    ensures |r| <= limit
    ensures offset >= |s| ==> r == []
    ensures offset < |s| ==> |r| == Min(limit, |s| - offset)
    ensures forall i :: 0 <= i < |r| ==> offset + i < |s| && r[i] == s[offset + i]
  {
    if offset >= |s| then [] else s[offset..Min(|s|, offset + limit)]
  }

  function ToResponse(j: JoinedRow): BudgetResponse
  {
    BudgetResponse(j.row.year, j.row.month, j.row.amount, j.row.budgetType, j.fullName)
  }

  /** The projection of lines 43-51: one item per row, in order, carrying the row's fields and the joined author name. */
  function Project(s: seq<JoinedRow>): (r: seq<BudgetResponse>)
    ensures |r| == |s|
    ensures forall i :: 0 <= i < |s| ==>
      && r[i].year == s[i].row.year
      && r[i].month == s[i].row.month
      && r[i].amount == s[i].row.amount
      && r[i].budgetType == s[i].row.budgetType
      && r[i].author == s[i].fullName
  {
    if s == [] then [] else [ToResponse(s[0])] + Project(s[1..])
  }

  /** The grouping key of line 53. */
  function TypeName(j: JoinedRow): string
  {
    j.row.budgetType.name
  }

  function TypeNames(s: seq<JoinedRow>): set<string>
  {
    set x | x in s :: TypeName(x)
  }

  /** The rows of type `k`, in order: each of them as often as it occurs, and no other row. */
  function OfType(s: seq<JoinedRow>, k: string): (r: seq<JoinedRow>)
    ensures forall x {:trigger multiset(r)[x]} :: multiset(r)[x] == if TypeName(x) == k then multiset(s)[x] else 0
  {
    if s == [] then []
    else
      var init, last := s[..|s| - 1], s[|s| - 1];
      assert s == init + [last];
      OfType(init, k) + if TypeName(last) == k then [last] else []
  }

  lemma OfTypeSnoc(s: seq<JoinedRow>, x: JoinedRow, k: string)
    ensures OfType(s + [x], k) == OfType(s, k) + if TypeName(x) == k then [x] else []
  {
    assert (s + [x])[..|s|] == s;
  }

  lemma TypeNamesSnoc(s: seq<JoinedRow>, x: JoinedRow)
    ensures TypeNames(s + [x]) == TypeNames(s) + {TypeName(x)}
  {
    forall k | k in TypeNames(s + [x]) ensures k in TypeNames(s) + {TypeName(x)} {
      var y :| y in s + [x] && TypeName(y) == k;
    }
  }

  lemma OfTypeOfAbsentName(s: seq<JoinedRow>, k: string)
    ensures k !in TypeNames(s) ==> OfType(s, k) == []
  {
    var r := OfType(s, k);
    if r != [] {
      assert r[0] in multiset(r);
      assert r[0] in s;
    }
  }

  /** `groupBy` on the type name (line 53): each row appended to the group of its type name, in order. */
  function GroupByTypeName(s: seq<JoinedRow>): (g: map<string, seq<JoinedRow>>)
    ensures forall k :: k in g ==> g[k] != []
    ensures forall k, x :: k in g && x in g[k] ==> TypeName(x) == k
  {
    if s == [] then map[]
    else
      var g := GroupByTypeName(s[..|s| - 1]);
      var last := s[|s| - 1];
      var k := TypeName(last);
      g[k := (if k in g then g[k] else []) + [last]]
  }

  /** One non-empty group per type name present, holding exactly that type's rows in order. */
  lemma {:induction false} GroupsAreOfType(s: seq<JoinedRow>)
    ensures GroupByTypeName(s).Keys == TypeNames(s)
    ensures forall k :: k in GroupByTypeName(s) ==> GroupByTypeName(s)[k] == OfType(s, k) != []
  {
    if s != [] {
      var init, last := s[..|s| - 1], s[|s| - 1];
      assert s == init + [last];
      GroupsAreOfType(init);
      var g, k := GroupByTypeName(init), TypeName(last);
      TypeNamesSnoc(init, last);
      OfTypeOfAbsentName(init, k);
      forall k' | k' in GroupByTypeName(s)
        ensures GroupByTypeName(s)[k'] == OfType(s, k') != []
      {
        OfTypeSnoc(init, last, k');
      }
    }
  }

  function SumAmounts(s: seq<JoinedRow>): int
  {
    if s == [] then 0 else SumAmounts(s[..|s| - 1]) + s[|s| - 1].row.amount
  }

  lemma SumAmountsSnoc(s: seq<JoinedRow>, x: JoinedRow)
    ensures SumAmounts(s + [x]) == SumAmounts(s) + x.row.amount
  {
    assert (s + [x])[..|s|] == s;
  }

  /** Lines 53-54: the amounts summed per type name, for exactly the type names that occur. */
  function SumByType(s: seq<JoinedRow>): (m: map<string, int>)
    ensures m.Keys == TypeNames(s)
    ensures forall k :: k in m ==> m[k] == SumAmounts(OfType(s, k))
  {
    GroupsAreOfType(s);
    var g := GroupByTypeName(s);
    map k | k in g :: SumAmounts(g[k])
  }

  predicate Distinct(ks: seq<string>)
  {
    forall i, j :: 0 <= i < j < |ks| ==> ks[i] != ks[j]
  }

  /** The type names, each once; by its definition, in order of first occurrence. */
  function TypeNameOrder(s: seq<JoinedRow>): (ks: seq<string>)
    ensures Distinct(ks)
    ensures forall k :: k in ks <==> k in TypeNames(s)
  {
    if s == [] then []
    else
      var init, last := s[..|s| - 1], s[|s| - 1];
      assert s == init + [last];
      TypeNamesSnoc(init, last);
      var ks := TypeNameOrder(init);
      if TypeName(last) in ks then ks else ks + [TypeName(last)]
  }

  /** The sum of the values of `m` at the keys `ks`. */
  function SumOver(ks: seq<string>, m: map<string, int>): int
    requires forall k :: k in ks ==> k in m
  {
    if ks == [] then 0 else m[ks[0]] + SumOver(ks[1..], m)
  }

  function SumOfGroups(s: seq<JoinedRow>, ks: seq<string>): int
  {
    if ks == [] then 0 else SumAmounts(OfType(s, ks[0])) + SumOfGroups(s, ks[1..])
  }

  lemma {:induction false} SumOverIsSumOfGroups(s: seq<JoinedRow>, ks: seq<string>)
    requires forall k :: k in ks ==> k in TypeNames(s)
    ensures SumOver(ks, SumByType(s)) == SumOfGroups(s, ks)
  {
    if ks != [] {
      SumOverIsSumOfGroups(s, ks[1..]);
    }
  }

  lemma {:induction false} SumOfGroupsOfEmpty(ks: seq<string>)
    ensures SumOfGroups([], ks) == 0
  {
    if ks != [] {
      SumOfGroupsOfEmpty(ks[1..]);
    }
  }

  lemma {:induction false} SumOfGroupsSnoc(s: seq<JoinedRow>, x: JoinedRow, ks: seq<string>)
    requires Distinct(ks)
    ensures SumOfGroups(s + [x], ks) == SumOfGroups(s, ks) + if TypeName(x) in ks then x.row.amount else 0
  {
    if ks != [] {
      var k, rest := ks[0], ks[1..];
      assert ks == [k] + rest;
      assert Distinct(rest);
      SumOfGroupsSnoc(s, x, rest);
      OfTypeSnoc(s, x, k);
      if TypeName(x) == k {
        SumAmountsSnoc(OfType(s, k), x);
      } else {
        assert OfType(s + [x], k) == OfType(s, k) + [] == OfType(s, k);
      }
      if TypeName(x) == k {
        assert TypeName(x) !in rest by {
          forall i | 0 <= i < |rest| ensures rest[i] != k {
            assert rest[i] == ks[i + 1];
          }
        }
      }
      assert TypeName(x) in ks <==> TypeName(x) == k || TypeName(x) in rest;
    }
  }

  lemma {:induction false} GroupsCoverAllRows(s: seq<JoinedRow>, ks: seq<string>)
    requires Distinct(ks)
    requires forall k :: k in TypeNames(s) ==> k in ks
    ensures SumOfGroups(s, ks) == SumAmounts(s)
  {
    if s == [] {
      SumOfGroupsOfEmpty(ks);
    } else {
      var init, last := s[..|s| - 1], s[|s| - 1];
      assert s == init + [last];
      TypeNamesSnoc(init, last);
      GroupsCoverAllRows(init, ks);
      SumOfGroupsSnoc(init, last, ks);
      SumAmountsSnoc(init, last);
    }
  }

  /** The per-type sums add up to the sum of all the amounts they were computed from. */
  lemma TotalByTypeAddsUp(s: seq<JoinedRow>)
    ensures SumOver(TypeNameOrder(s), SumByType(s)) == SumAmounts(s)
  {
    SumOverIsSumOfGroups(s, TypeNameOrder(s));
    GroupsCoverAllRows(s, TypeNameOrder(s));
  }
}
