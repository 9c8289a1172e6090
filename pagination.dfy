/** The paging request and response shared by the listing endpoints. */
module Pagination {
  import opened Common

  /** `orgId` is the owner the listing filters on; a `total` of `None`
      or 0 asks the server to count. */
  datatype PaginationRequest = PaginationRequest(orgId: int, rows: nat, page: nat, total: Option<int>)

  datatype Paged<T> = Paged(items: seq<T>, total: int)

  /** The total a listing reports: the caller's, unless it is absent or 0. */
  function ReportedTotal(supplied: Option<int>, count: nat): (t: int)
    ensures supplied.None? || supplied.value == 0 ==> t == count
    ensures supplied.Some? && supplied.value != 0 ==> t == supplied.value
  {
    if supplied.None? || supplied.value == 0 then count else supplied.value
  }
}
