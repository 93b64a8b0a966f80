/** Page counting shared by the two credential lists: `Math.ceil(total / pageSize)`
    on whole numbers. */
module Pagination {
  /** The number of pages of `pageSize` items that hold `total` items. */
  function CeilDiv(total: nat, pageSize: nat): (pages: nat)
    requires pageSize > 0
    ensures pages * pageSize >= total
    ensures total > 0 ==> (pages - 1) * pageSize < total
    ensures pages == 0 <==> total == 0
  {
    var q := (total + pageSize - 1) / pageSize;
    var rem := (total + pageSize - 1) % pageSize;
    assert total + pageSize - 1 == q * pageSize + rem && 0 <= rem < pageSize;
    assert (q - 1) * pageSize == q * pageSize - pageSize;
    q
  }

  /** The count is the least page number whose pages hold every item. */
  lemma CeilDivIsLeast(total: nat, pageSize: nat, pages: nat)
    requires pageSize > 0 && pages * pageSize >= total
    ensures CeilDiv(total, pageSize) <= pages
  {
  }

  /** Concrete counts at a page size of 10. */
  lemma TenPerPage()
    ensures CeilDiv(0, 10) == 0 && CeilDiv(1, 10) == 1 && CeilDiv(10, 10) == 1
    ensures CeilDiv(11, 10) == 2 && CeilDiv(300, 10) == 30
  {
  }
}
