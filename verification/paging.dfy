/**
 * The pagination record both list pages keep: the table's page index and size,
 * and the total row count the backend last reported.
 */
module Paging {

  datatype PaginationState = PaginationState(pageIndex: int, pageSize: int, totalCount: int)

  /** The query the list hooks send: `pageNo` counts from 1. */
  datatype PageQuery = PageQuery(pageNo: int, pageSize: int)

  const Initial: PaginationState := PaginationState(0, 10, 0)

  /** `{ ...prev, totalCount }`: a data refresh. */
  function WithTotalCount(p: PaginationState, totalCount: int): (r: PaginationState)
    ensures r.pageIndex == p.pageIndex && r.pageSize == p.pageSize
    ensures r.totalCount == totalCount
  {
    p.(totalCount := totalCount)
  }

  /** `{ ...prev, pageIndex, pageSize }`: a pagination change. */
  function WithPage(p: PaginationState, pageIndex: int, pageSize: int): (r: PaginationState)
    ensures r.totalCount == p.totalCount
    ensures r.pageIndex == pageIndex && r.pageSize == pageSize
  {
    p.(pageIndex := pageIndex, pageSize := pageSize)
  }

  /** `{ pageNo: pageIndex + 1, pageSize }`. */
  function Query(p: PaginationState): (r: PageQuery)
    ensures r.pageNo - 1 == p.pageIndex && r.pageSize == p.pageSize
  {
    PageQuery(p.pageIndex + 1, p.pageSize)
  }

  /** A refresh and a pagination change touch disjoint parts of the state, so
      their order does not matter. */
  lemma RefreshAndPageCommute(p: PaginationState, totalCount: int, pageIndex: int, pageSize: int)
    ensures WithPage(WithTotalCount(p, totalCount), pageIndex, pageSize)
         == WithTotalCount(WithPage(p, pageIndex, pageSize), totalCount)
  {
  }

  /** The query depends only on the page: a refresh never changes it, and the first
      query asks for page 1 of 10. */
  lemma QueryIgnoresTotal(p: PaginationState, totalCount: int)
    ensures Query(WithTotalCount(p, totalCount)) == Query(p)
    ensures Query(Initial) == PageQuery(1, 10)
  {
  }
}
