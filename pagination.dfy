/** The limit/offset rule that OrdersService.getAll and CategoriesService.getAll both compute from
    the query string before calling findAll. Query values are taken as already-parsed integers. */
module Pagination {

  import opened Outcomes

  /** `query.page` and `query.rowsPerPage`; an absent rowsPerPage is None. */
  datatype PageQuery = PageQuery(page: int, rowsPerPage: Option<int>)

  /** The `limit` and `offset` handed to findAll. */
  datatype FindOptions = FindOptions(limit: int, offset: int)

  /** Page size used when the query gives none. */
  const DefaultLimit: int := 10

  /** JavaScript truthiness of `query.rowsPerPage`: absent and 0 are falsy. */
  predicate HasPageSize(q: PageQuery) {
    q.rowsPerPage.Some? && q.rowsPerPage.value != 0
  }

  /** The options object of getAll. Page 0 is passed through as offset `page` (that is, 0);
      any other page p starts at (p - 1) * rowsPerPage. */
  function PageOptions(q: PageQuery): (o: FindOptions)
    ensures !HasPageSize(q) ==> o.limit == DefaultLimit && o.offset == 0
    ensures HasPageSize(q) ==> o.limit == q.rowsPerPage.value
  {
    if HasPageSize(q) then
      var size := q.rowsPerPage.value;
      FindOptions(size, if q.page == 0 then q.page else (q.page - 1) * size)
    else
      FindOptions(DefaultLimit, 0)
  }

  /** Independent reading of "page p, size n" (p >= 1): the rows on the p - 1 pages before it. */
  function RowsBefore(page: nat, size: int): int
  {
    if page <= 1 then 0 else RowsBefore(page - 1, size) + size
  }

  /** For every page from 1 on, the offset skips exactly the rows of the earlier pages, and the next
      page starts where this one ends. */
  lemma {:induction false} OffsetSkipsEarlierPages(page: nat, size: int)
    requires page >= 1 && size != 0
    ensures PageOptions(PageQuery(page, Some(size))).offset == RowsBefore(page, size)
    ensures PageOptions(PageQuery(page + 1, Some(size))).offset
         == PageOptions(PageQuery(page, Some(size))).offset + size
    decreases page
  {
    if page > 1 {
      OffsetSkipsEarlierPages(page - 1, size);
    }
  }

  /** Page 0 is not a page of its own: it gives the same options as page 1. */
  lemma PageZeroIsPageOne(size: Option<int>)
    ensures PageOptions(PageQuery(0, size)) == PageOptions(PageQuery(1, size))
    ensures PageOptions(PageQuery(0, size)).offset == 0
  {
  }

  /** Without a page size the page number is ignored: every page is the first 10 rows. */
  lemma NoPageSizeIgnoresPage(q: PageQuery, page: int)
    requires !HasPageSize(q)
    ensures PageOptions(PageQuery(page, q.rowsPerPage)) == PageOptions(q) == FindOptions(DefaultLimit, 0)
  {
  }

  /** With a positive page size, a negative page number yields a negative offset. */
  lemma NegativePageNegativeOffset(q: PageQuery)
    requires HasPageSize(q) && q.rowsPerPage.value > 0 && q.page < 0
    ensures PageOptions(q).offset < 0
  {
  }
}
