/**
 * The pagination footer of `components/DataTable.tsx`: the window of page
 * buttons and the "showing X to Y of N" numbers. The page count and page
 * index come from the table library and are parameters here.
 */
module Pagination {

  /** A page button, or the `'...'` placeholder between non-adjacent pages. */
  datatype PageItem = Page(n: int) | Gap

  /** The page numbers in a window increase strictly from left to right. */
  predicate Increasing(items: seq<PageItem>) {
    forall i, j | 0 <= i < j < |items| && items[i].Page? && items[j].Page? :: items[i].n < items[j].n
  }

  /** Every page number in the window is a real page. */
  predicate WithinPages(items: seq<PageItem>, pageCount: int) {
    forall i | 0 <= i < |items| && items[i].Page? :: 1 <= items[i].n <= pageCount
  }

  /**
   * `getVisiblePages`: every page when there are at most seven; otherwise
   * seven entries, the first and last page always shown and the current
   * page either in the leading five, in the trailing five, or between its
   * two neighbours with a gap on each side. `currentPage` is the page index
   * plus one.
   */
  method VisiblePages(pageCount: nat, currentPage: int) returns (pages: seq<PageItem>)
    ensures pageCount <= 7 ==> |pages| == pageCount && forall i | 0 <= i < pageCount :: pages[i] == Page(i + 1)
    ensures pageCount > 7 ==> |pages| == 7 && pages[0] == Page(1) && pages[6] == Page(pageCount)
    ensures pageCount > 7 && currentPage <= 4 ==>
      pages == [Page(1), Page(2), Page(3), Page(4), Page(5), Gap, Page(pageCount)]
    ensures pageCount > 7 && currentPage > 4 && currentPage >= pageCount - 3 ==>
      pages == [Page(1), Gap, Page(pageCount - 4), Page(pageCount - 3), Page(pageCount - 2), Page(pageCount - 1), Page(pageCount)]
    ensures pageCount > 7 && 4 < currentPage < pageCount - 3 ==>
      pages == [Page(1), Gap, Page(currentPage - 1), Page(currentPage), Page(currentPage + 1), Gap, Page(pageCount)]
    ensures Increasing(pages) && WithinPages(pages, pageCount)
    ensures 1 <= currentPage <= pageCount ==> Page(currentPage) in pages
  {
    pages := [];
    if pageCount <= 7 {
      var i := 1;
      while i <= pageCount
        invariant 1 <= i <= pageCount + 1
        invariant |pages| == i - 1 && forall k | 0 <= k < i - 1 :: pages[k] == Page(k + 1)
      {
        pages := pages + [Page(i)];
        i := i + 1;
      }
      if 1 <= currentPage <= pageCount {
        assert pages[currentPage - 1] == Page(currentPage);
      }
    } else if currentPage <= 4 {
      pages := pages + [Page(1), Page(2), Page(3), Page(4), Page(5), Gap, Page(pageCount)];
      LeadingWindowOrdered(pageCount);
      if 1 <= currentPage {
        assert pages[currentPage - 1] == Page(currentPage);
      }
    } else if currentPage >= pageCount - 3 {
      pages := pages + [Page(1), Gap, Page(pageCount - 4), Page(pageCount - 3), Page(pageCount - 2), Page(pageCount - 1), Page(pageCount)];
      TrailingWindowOrdered(pageCount);
      if currentPage <= pageCount {
        assert pages[currentPage - pageCount + 6] == Page(currentPage);
      }
    } else {
      pages := pages + [Page(1), Gap, Page(currentPage - 1), Page(currentPage), Page(currentPage + 1), Gap, Page(pageCount)];
      MiddleWindowOrdered(pageCount, currentPage);
      assert pages[3] == Page(currentPage);
    }
  }

  /** The window for a current page among the first four. */
  lemma LeadingWindowOrdered(pageCount: int)
    requires pageCount > 7
    ensures var w := [Page(1), Page(2), Page(3), Page(4), Page(5), Gap, Page(pageCount)];
      Increasing(w) && WithinPages(w, pageCount)
  {
  }

  /** The window for a current page among the last four. */
  lemma TrailingWindowOrdered(pageCount: int)
    requires pageCount > 7
    ensures var w := [Page(1), Gap, Page(pageCount - 4), Page(pageCount - 3), Page(pageCount - 2), Page(pageCount - 1), Page(pageCount)];
      Increasing(w) && WithinPages(w, pageCount)
  {
  }

  /** The window centred on the current page. */
  lemma MiddleWindowOrdered(pageCount: int, currentPage: int)
    requires pageCount > 7 && 4 < currentPage < pageCount - 3
    ensures var w := [Page(1), Gap, Page(currentPage - 1), Page(currentPage), Page(currentPage + 1), Gap, Page(pageCount)];
      Increasing(w) && WithinPages(w, pageCount)
  {
  }

  /** The first row shown, counting from one: none when the table is empty. */
  function RangeStart(rowCount: nat, pageIndex: nat, pageSize: nat): nat {
    if rowCount == 0 then 0 else pageIndex * pageSize + 1
  }

  /** The last row shown, capped at the number of rows. */
  function RangeEnd(rowCount: nat, pageIndex: nat, pageSize: nat): nat {
    var end := (pageIndex + 1) * pageSize;
    if end < rowCount then end else rowCount
  }

  /** The number of pages the table library reports: rows divided by page size, rounded up. */
  function PageCount(rowCount: nat, pageSize: nat): (r: nat)
    requires pageSize > 0
    ensures r * pageSize >= rowCount && (r == 0 || (r - 1) * pageSize < rowCount)
  {
    (rowCount + pageSize - 1) / pageSize
  }

  /**
   * On an existing page of a non-empty table the range is a non-empty run of
   * real rows, exactly the rows of that page: a full page except possibly
   * the last.
   */
  lemma RangeOfPage(rowCount: nat, pageIndex: nat, pageSize: nat)
    requires pageSize > 0 && pageIndex < PageCount(rowCount, pageSize)
    ensures 1 <= RangeStart(rowCount, pageIndex, pageSize) <= RangeEnd(rowCount, pageIndex, pageSize) <= rowCount
    ensures RangeEnd(rowCount, pageIndex, pageSize) - RangeStart(rowCount, pageIndex, pageSize) + 1 ==
      if rowCount - pageIndex * pageSize < pageSize then rowCount - pageIndex * pageSize else pageSize
    ensures pageIndex + 1 == PageCount(rowCount, pageSize) <==> RangeEnd(rowCount, pageIndex, pageSize) == rowCount
  {
    var n := PageCount(rowCount, pageSize);
    assert pageIndex * pageSize <= (n - 1) * pageSize by {
      MulMonotone(pageIndex, n - 1, pageSize);
    }
    if pageIndex + 1 < n {
      MulMonotone(pageIndex + 2, n, pageSize);
    }
  }

  /** Consecutive pages show adjacent ranges: no row is skipped or shown twice. */
  lemma RangesAdjacent(rowCount: nat, pageIndex: nat, pageSize: nat)
    requires pageSize > 0 && pageIndex + 1 < PageCount(rowCount, pageSize)
    ensures RangeEnd(rowCount, pageIndex, pageSize) + 1 == RangeStart(rowCount, pageIndex + 1, pageSize)
  {
    RangeOfPage(rowCount, pageIndex, pageSize);
  }

  /** An empty table shows the range 0 to 0. */
  lemma RangeOfEmptyTable(pageIndex: nat, pageSize: nat)
    ensures RangeStart(0, pageIndex, pageSize) == 0 && RangeEnd(0, pageIndex, pageSize) == 0
  {
  }

  lemma MulMonotone(a: nat, b: nat, c: nat)
    requires a <= b
    ensures a * c <= b * c
  {
  }
}
