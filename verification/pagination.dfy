/** getPagination: the page summary attached to list responses. */
module Pagination {
  datatype PageInfo = PageInfo(
    totalItems: nat, totalPages: nat, page: int, limit: int, hasNext: bool, hasPrev: bool)

  /** Math.ceil(a / b) on non-negative integers with a positive divisor. */
  function CeilDiv(a: nat, b: nat): (q: nat)
    requires b > 0
    ensures q * b >= a
    ensures q > 0 ==> (q - 1) * b < a
  {
    CeilDivBounds(a, b);
    (a + b - 1) / b
  }

  lemma {:induction false} CeilDivBounds(a: nat, b: nat)
    requires b > 0
    ensures ((a + b - 1) / b) * b >= a
    ensures (a + b - 1) / b > 0 ==> ((a + b - 1) / b - 1) * b < a
  {
    var q := (a + b - 1) / b;
    var r := (a + b - 1) % b;
    assert a + b - 1 == q * b + r && 0 <= r < b;
    assert (q - 1) * b == q * b - b;
  }

  /**
   * getPagination: the inputs are echoed back; totalPages is the least page count
   * whose pages hold every item; hasNext and hasPrev compare the page with the
   * last and the first page.
   */
  function GetPagination(totalItems: nat, page: int, limit: int): (r: PageInfo)
    requires limit > 0
    ensures r.totalItems == totalItems && r.page == page && r.limit == limit
    ensures r.totalPages * limit >= totalItems
    ensures r.totalPages > 0 ==> (r.totalPages - 1) * limit < totalItems
    ensures r.hasNext <==> page < r.totalPages
    ensures r.hasPrev <==> page > 1
  {
    var totalPages := CeilDiv(totalItems, limit);
    PageInfo(totalItems, totalPages, page, limit, page < totalPages, page > 1)
  }

  /** An empty table has no pages, so only a negative page number has a next one. */
  lemma {:induction false} NoItemsNoPages(page: int, limit: int)
    requires limit > 0
    ensures GetPagination(0, page, limit).totalPages == 0
    ensures GetPagination(0, page, limit).hasNext <==> page < 0
  {
    var n := GetPagination(0, page, limit).totalPages;
    if n > 0 {
      MulMonotone(0, n - 1, limit);
    }
  }

  lemma {:induction false} MulMonotone(x: int, y: int, k: int)
    requires k > 0
    ensures x <= y <==> x * k <= y * k
  {
    assert y * k - x * k == (y - x) * k;
    if x <= y {
      assert (y - x) * k >= 0;
    } else {
      assert (x - y) * k > 0;
    }
  }

  /** totalPages is exactly the number of pages that start inside the table. */
  lemma {:induction false} PagesStartInsideTable(totalItems: nat, page: int, limit: int)
    requires limit > 0 && page >= 1
    ensures page <= GetPagination(totalItems, page, limit).totalPages <==> (page - 1) * limit < totalItems
  {
    var n := GetPagination(totalItems, page, limit).totalPages;
    if page <= n {
      MulMonotone(page - 1, n - 1, limit);
    } else {
      MulMonotone(n, page - 1, limit);
    }
  }

  /** When hasNext holds for a page from 1 on, the next page starts inside the table. */
  lemma {:induction false} NextPageStartsInside(totalItems: nat, page: int, limit: int)
    requires limit > 0 && page >= 1
    requires GetPagination(totalItems, page, limit).hasNext
    ensures page * limit < totalItems
  {
    PagesStartInsideTable(totalItems, page + 1, limit);
  }
}
