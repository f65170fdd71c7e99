/** The list-view rules shared, expression for expression, by the apartments page and
    the tenants page: the case-insensitive name filter, the page slice, the page count,
    the Prev/Next steps, the "Showing a–b of n" caption and the five-button page window. */
module Listing {
  import opened Wrappers
  import opened Seqs
  import opened Text

  /** The choices offered by the "Show … entries per page" select. */
  const PageSizes: set<nat> := {5, 10, 20, 50, 100}
  const DefaultPageSize: nat := 10

  /** Every size the select offers is positive. */
  lemma PageSizesPositive(perPage: nat)
    requires perPage in PageSizes
    ensures perPage > 0
  {
  }

  /** `name.toLowerCase().includes(term.toLowerCase())` */
  predicate NameMatches(name: string, term: string) {
    Includes(Lower(name), Lower(term))
  }

  /** The filter callback of a list page, for rows whose name is `nameOf(row)`. */
  function MatchesTerm<T>(nameOf: T -> string, term: string): T -> bool {
    row => NameMatches(nameOf(row), term)
  }

  /** `rows.filter(row => nameOf(row).toLowerCase().includes(term.toLowerCase()))` */
  function FilterByName<T(!new)>(rows: seq<T>, nameOf: T -> string, term: string): (r: seq<T>)
    ensures IsSubsequence(r, rows)
    ensures forall x :: x in r <==> x in rows && NameMatches(nameOf(x), term)
    ensures forall x :: multiset(r)[x] == if NameMatches(nameOf(x), term) then multiset(rows)[x] else 0
  {
    KeepCounts(rows, MatchesTerm(nameOf, term));
    Keep(rows, MatchesTerm(nameOf, term))
  }

  /** An empty search box shows every row, in the original order. */
  lemma EmptyTermKeepsAll<T(!new)>(rows: seq<T>, nameOf: T -> string)
    ensures FilterByName(rows, nameOf, "") == rows
  {
    assert Lower("") == "";
    forall i | 0 <= i < |rows|
      ensures MatchesTerm(nameOf, "")(rows[i])
    {
      IncludesEmpty(Lower(nameOf(rows[i])));
    }
    KeepAll(rows, MatchesTerm(nameOf, ""));
  }

  /** `rows.slice((currentPage - 1) * perPage, currentPage * perPage)`: the rows at
      indices (currentPage-1)*perPage up to, not including, currentPage*perPage. */
  function PageSlice<T>(rows: seq<T>, currentPage: int, perPage: nat): (r: seq<T>)
    requires perPage > 0 && currentPage >= 0
    ensures |r| <= perPage
    ensures currentPage == 0 ==> r == []
    ensures currentPage >= 1 ==>
      |r| == Max(0, Min(currentPage * perPage, |rows|) - (currentPage - 1) * perPage)
    ensures currentPage >= 1 ==>
      forall k :: 0 <= k < |r| ==> r[k] == rows[(currentPage - 1) * perPage + k]
  {
    assert currentPage * perPage - (currentPage - 1) * perPage == perPage;
    assert currentPage >= 1 ==> (currentPage - 1) * perPage >= 0;
    Slice(rows, (currentPage - 1) * perPage, currentPage * perPage)
  }

  /** `Math.ceil(n / perPage)`: the fewest pages of `perPage` rows that hold `n` rows. */
  function PageCount(n: nat, perPage: nat): (r: nat)
    requires perPage > 0
    ensures r * perPage >= n
    ensures n > 0 ==> (r - 1) * perPage < n
    ensures n == 0 ==> r == 0
  {
    var q := (n + perPage - 1) / perPage;
    assert q * perPage + (n + perPage - 1) % perPage == n + perPage - 1;
    assert (q - 1) * perPage == q * perPage - perPage;
    q
  }

  /** Row `i` of the filtered list is shown on page `i / perPage + 1`, which is a page
      the pager can reach, at position `i % perPage`: paging loses no row. */
  lemma RowOnItsPage<T>(rows: seq<T>, perPage: nat, i: nat)
    requires perPage > 0 && i < |rows|
    ensures var page := i / perPage + 1;
      && 1 <= page <= PageCount(|rows|, perPage)
      && i % perPage < |PageSlice(rows, page, perPage)|
      && PageSlice(rows, page, perPage)[i % perPage] == rows[i]
  {
    var q, m := i / perPage, i % perPage;
    DivModFacts(i, perPage);
    PageOfRowExists(|rows|, perPage, i);
    MulSucc(q, perPage);
    var slice := PageSlice(rows, q + 1, perPage);
    assert |slice| == Min((q + 1) * perPage, |rows|) - q * perPage;
    assert slice[m] == rows[q * perPage + m];
  }

  lemma DivModFacts(i: nat, d: nat)
    requires d > 0
    ensures i == (i / d) * d + i % d && 0 <= i % d < d
  {
  }

  /** The page a row falls on is never past the last page. */
  lemma PageOfRowExists(n: nat, perPage: nat, i: nat)
    requires perPage > 0 && i < n
    ensures i / perPage + 1 <= PageCount(n, perPage)
  {
    var q, pages := i / perPage, PageCount(n, perPage);
    DivModFacts(i, perPage);
    if q >= pages {
      MulMonotone(pages, q, perPage);
      assert false;
    }
  }

  lemma MulMonotone(a: nat, b: nat, c: nat)
    requires a <= b
    ensures a * c <= b * c
  {
    assert b * c == a * c + (b - a) * c;
  }

  lemma MulSucc(a: int, c: int)
    ensures (a + 1) * c == a * c + c
  {
  }

  /** The Prev button's update `Math.max(prev - 1, 1)`. */
  function PrevPage(currentPage: int): (r: int)
    ensures r >= 1
    ensures currentPage > 1 ==> r == currentPage - 1
    ensures currentPage <= 1 ==> r == 1
  {
    Max(currentPage - 1, 1)
  }

  /** `disabled={currentPage === 1}`: Prev is disabled exactly when pressing it would
      leave the page as it is. */
  predicate PrevDisabled(currentPage: int)
    ensures PrevDisabled(currentPage) <==> PrevPage(currentPage) == currentPage
  {
    currentPage == 1
  }

  /** The Next button's update `Math.min(prev + 1, pageCount)`. */
  function NextPage(currentPage: int, pageCount: nat): (r: int)
    ensures r <= pageCount
    ensures currentPage < pageCount ==> r == currentPage + 1
    ensures currentPage >= pageCount ==> r == pageCount
  {
    Min(currentPage + 1, pageCount)
  }

  /** `disabled={currentPage === pageCount}`: Next is disabled exactly when pressing it
      would leave the page as it is. */
  predicate NextDisabled(currentPage: int, pageCount: nat)
    ensures NextDisabled(currentPage, pageCount) <==> NextPage(currentPage, pageCount) == currentPage
  {
    currentPage == pageCount
  }

  /** From any page in 1..pageCount, Prev and Next land on a page in 1..pageCount. */
  lemma StepsStayInRange(currentPage: int, pageCount: nat)
    requires 1 <= currentPage <= pageCount
    ensures 1 <= PrevPage(currentPage) <= pageCount
    ensures 1 <= NextPage(currentPage, pageCount) <= pageCount
  {
  }

  /** With no rows there are no pages; page 1 is then not equal to the page count, so
      Next stays enabled, and pressing it moves to page 0. */
  lemma NextOnEmptyList(perPage: nat)
    requires perPage > 0
    ensures PageCount(0, perPage) == 0
    ensures !NextDisabled(1, PageCount(0, perPage))
    ensures NextPage(1, PageCount(0, perPage)) == 0
  {
  }

  /** The first row number of the "Showing a–b of n" caption, `(currentPage - 1) *
      perPage + 1`. */
  function ShowingFirst(currentPage: int, perPage: nat): (a: int)
    ensures currentPage >= 1 ==> a >= 1
  {
    (currentPage - 1) * perPage + 1
  }

  /** The last row number of the caption, `Math.min(currentPage * perPage, n)`. */
  function ShowingLast(currentPage: int, perPage: nat, n: nat): (b: int)
    ensures b <= n
    ensures currentPage >= 0 ==> b >= 0
  {
    Min(currentPage * perPage, n)
  }

  /** On a page that exists, the caption's two numbers are the 1-based positions, in the
      filtered list, of the first and the last row the table shows. */
  lemma ShowingNamesPageEnds<T>(rows: seq<T>, currentPage: int, perPage: nat)
    requires perPage > 0
    requires 1 <= currentPage <= PageCount(|rows|, perPage)
    ensures var page, a, b := PageSlice(rows, currentPage, perPage),
                              ShowingFirst(currentPage, perPage), ShowingLast(currentPage, perPage, |rows|);
      && page != [] && 1 <= a <= b <= |rows|
      && rows[a - 1] == page[0] && rows[b - 1] == page[|page| - 1]
  {
    var pages := PageCount(|rows|, perPage);
    MulMonotone(currentPage - 1, pages - 1, perPage);
    MulSucc(currentPage - 1, perPage);
    ShowingCountsPageRows(rows, currentPage, perPage);
  }

  /** On a page that exists, the caption counts exactly the rows shown. */
  lemma ShowingCountsPageRows<T>(rows: seq<T>, currentPage: int, perPage: nat)
    requires perPage > 0
    requires 1 <= currentPage <= PageCount(|rows|, perPage)
    ensures ShowingLast(currentPage, perPage, |rows|) - ShowingFirst(currentPage, perPage) + 1
            == |PageSlice(rows, currentPage, perPage)|
  {
    var pages := PageCount(|rows|, perPage);
    MulMonotone(currentPage - 1, pages - 1, perPage);
    MulSucc(currentPage - 1, perPage);
  }

  /** The page-number buttons: `Array.from({length: pageCount})` sliced to
      `[Math.max(0, currentPage - 3), Math.min(pageCount, currentPage + 2))`, the i-th
      one labelled `Math.max(1, currentPage - 2) + i`. */
  function WindowLabels(currentPage: int, pageCount: nat): (r: seq<int>)
    requires currentPage >= 0
    ensures |r| <= 5
    ensures |r| == Max(0, Min(pageCount, currentPage + 2) - Max(0, currentPage - 3))
    ensures forall k :: 0 <= k < |r| ==> 1 <= r[k] <= pageCount
    ensures forall k :: 0 <= k < |r| ==> r[k] == Max(1, currentPage - 2) + k
    ensures r != [] ==> r[|r| - 1] == Min(pageCount, currentPage + 2)
    ensures 1 <= currentPage <= pageCount ==> currentPage in r
  {
    var pages := seq(pageCount, _ => ());
    var count := |Slice(pages, Max(0, currentPage - 3), Min(pageCount, currentPage + 2))|;
    var r := seq(count, i => Max(1, currentPage - 2) + i);
    assert 1 <= currentPage <= pageCount ==> r[currentPage - Max(1, currentPage - 2)] == currentPage;
    r
  }
}
