/**
 * `createPaginatedResponse` (`src/dto/paginated-response.dto.ts`): the page
 * count is the ceiling of `total / limit`, computed here in integer
 * arithmetic.
 */
module Pagination {

  datatype PaginationMetadata = PaginationMetadata(
    currentPage: int,
    perPage: int,
    total: nat,
    totalPages: int,
    hasNextPage: bool,
    hasPreviousPage: bool)

  datatype PaginatedResponse<T> = PaginatedResponse(data: seq<T>, pagination: PaginationMetadata)

  /** `Math.ceil(total / limit)` for a positive `limit`. */
  function CeilDiv(total: nat, limit: int): (q: nat)
    requires limit >= 1
    ensures (q - 1) * limit < total <= q * limit || (total == 0 && q == 0)
  {
    (total + limit - 1) / limit
  }

  /**
   * `createPaginatedResponse(data, total, page, limit)`; `limit` is at
   * least 1, as the query schema guarantees.
   */
  function CreatePaginatedResponse<T>(data: seq<T>, total: nat, page: int, limit: int): PaginatedResponse<T>
    requires limit >= 1
  {
    var totalPages := CeilDiv(total, limit);
    PaginatedResponse(
      data,
      PaginationMetadata(page, limit, total, totalPages, page < totalPages, page > 1))
  }

  lemma MulMonotone(a: int, b: int, c: int)
    requires a <= b && c >= 0
    ensures a * c <= b * c
  {
  }

  lemma MulCancel(a: int, b: int, c: int)
    requires a * c < b * c && c >= 1
    ensures a < b
  {
    if a >= b {
      MulMonotone(b, a, c);
    }
  }

  /**
   * The page count is the least number of `limit`-sized pages that hold
   * `total` items.
   */
  lemma TotalPagesIsCeiling(total: nat, limit: int, pages: nat)
    requires limit >= 1
    ensures total <= CeilDiv(total, limit) * limit
    ensures pages * limit >= total ==> CeilDiv(total, limit) <= pages
  {
    var q := CeilDiv(total, limit);
    if pages * limit >= total && total > 0 {
      MulCancel(q - 1, pages, limit);
    }
  }

  /**
   * The response echoes its inputs; there is a next page exactly when
   * `page` is below the page count and a previous one exactly when `page`
   * is above 1.
   */
  lemma ResponseFields<T>(data: seq<T>, total: nat, page: int, limit: int)
    requires limit >= 1
    ensures var r := CreatePaginatedResponse(data, total, page, limit);
            && r.data == data
            && r.pagination.currentPage == page && r.pagination.perPage == limit && r.pagination.total == total
            && r.pagination.totalPages == CeilDiv(total, limit)
            && (r.pagination.hasNextPage <==> page < CeilDiv(total, limit))
            && (r.pagination.hasPreviousPage <==> page > 1)
  {
  }

  /** No items: no pages and no next page. */
  lemma EmptyTotal<T>(data: seq<T>, page: int, limit: int)
    requires limit >= 1
    ensures CreatePaginatedResponse(data, 0, page, limit).pagination.totalPages == 0
    ensures page >= 0 ==> !CreatePaginatedResponse(data, 0, page, limit).pagination.hasNextPage
  {
  }

  /** From page 1 on, a next page exists exactly when the items up to this page do not reach `total`. */
  lemma NextPageMeansMoreItems<T>(data: seq<T>, total: nat, page: int, limit: int)
    requires limit >= 1 && page >= 1
    ensures CreatePaginatedResponse(data, total, page, limit).pagination.hasNextPage <==> page * limit < total
  {
    var q := CeilDiv(total, limit);
    if page < q {
      MulMonotone(page, q - 1, limit);
    }
    if page * limit < total {
      MulCancel(page, q, limit);
    }
  }
}
