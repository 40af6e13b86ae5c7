/**
 * The scan's entry point once its inputs are fetched: run the paginated scan
 * for the active user names, then filter the roster by them.
 */
module Scanner {
  import opened Wrappers
  import opened PageAnalyzer
  import opened Pagination
  import opened Roster

  /**
   * The active (or, with `inverse`, inactive) roster entries: the roster
   * filtered by the set the scan returns; the scan's error passes through.
   */
  method Fetch(roster: seq<User>, inverse: bool, pagesize: int, concurrency: int, limit: int, w: Window, feed: Request -> seq<Job>)
    returns (result: Result<seq<User>, ScanError>)
    requires concurrency >= 1
    ensures result.Err? <==> pagesize == 0
    ensures result.Ok? ==>
      result.value == FilterRoster(roster, ActiveUsers(Requests(pagesize, limit).value, concurrency, pagesize, w, feed), inverse)
  {
    var activeUsers := FetchActiveUsers(pagesize, concurrency, limit, w, feed);
    if activeUsers.Err? {
      return Err(activeUsers.error);
    }
    return Ok(FilterRoster(roster, activeUsers.value, inverse));
  }
}
