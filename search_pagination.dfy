/**
 * The post-processing at the end of `search_theses`: once the result count
 * and the parsed theses are known, fix the totals, cut out the requested
 * page and assemble the error message.
 */
module SearchPagination {
  import opened Common
  import opened Text
  import opened ErrorMessage

  /** `YokTezSearchResult` without the echoed query parameters. */
  datatype SearchResult<T> = SearchResult(theses: seq<T>, totalResultsFound: int, currentPage: int,
                                          totalPages: int, errorMessage: Option<string>)

  /** `math.ceil(a / b)` for a count `a` and a positive page size `b`. */
  function CeilDiv(a: nat, b: nat): nat
    requires b > 0
  {
    (a + b - 1) / b
  }

  /** The ceiling is the least number of pages of size `b` that hold `a` items. */
  lemma CeilDivBounds(a: nat, b: nat)
    requires b > 0
    ensures var r := CeilDiv(a, b); (r - 1) * b < a <= r * b || (a == 0 && r == 0)
    ensures a == 0 ==> CeilDiv(a, b) == 0
  {
    var r := CeilDiv(a, b);
    var q := a + b - 1;
    assert q == r * b + q % b;
  }

  /** The page count the client reports for `n` items: none when there are none. */
  function PageCount(n: nat, limit: nat): nat
    requires limit > 0
  {
    if n > 0 then CeilDiv(n, limit) else 0
  }

  /** `items[(page - 1) * limit : page * limit]`, with Python's clamping of slice bounds. */
  function PageSlice<T>(items: seq<T>, page: int, limit: int): (r: seq<T>)
    requires page >= 1 && limit >= 1
    ensures |r| == Max(0, Min(limit, |items| - (page - 1) * limit))
    ensures forall k :: 0 <= k < |r| ==> (page - 1) * limit + k < |items| && r[k] == items[(page - 1) * limit + k]
  {
    var start := (page - 1) * limit;
    items[Min(start, |items|)..Min(start + limit, |items|)]
  }

  const NoThesesFound: string := "No theses found for criteria."
  const ExtractionFailed: string := "Thesis data extraction failed despite YÖK indicating results."

  function ExceedsPages(page: int, pages: int): string
  {
    "Page " + IntToString(page) + " exceeds pages (" + IntToString(pages) + ") in current batch."
  }

  function BeyondData(page: int): string
  {
    "Page " + IntToString(page) + " is beyond data in current batch."
  }

  /** Line 396: the reported total, or the number of parsed theses when the banner gave none. */
  function Total<T>(theses: seq<T>, reportedTotal: Option<nat>): nat
  {
    if reportedTotal.Some? then reportedTotal.value else |theses|
  }

  /** Line 397: how many theses the batch holds for paging. */
  function Available<T>(theses: seq<T>, displayed: Option<nat>): nat
  {
    if displayed.Some? then displayed.value else |theses|
  }

  /** The condition of line 403: a page past the batch's page count. */
  predicate PastBatch(page: int, batchPages: nat)
  {
    page > batchPages && batchPages > 0
  }

  /** Lines 402-410: the page of theses returned. */
  function Shown<T>(theses: seq<T>, batchPages: nat, page: int, limit: int): seq<T>
    requires page >= 1 && limit >= 1
  {
    if theses != [] && !PastBatch(page, batchPages) then PageSlice(theses, page, limit) else []
  }

  /** Lines 400-401: with no results and no message yet, the message says so. */
  function Earlier(error: Option<string>, total: nat): Option<string>
  {
    if total == 0 && !HasError(error) then Some(NoThesesFound) else error
  }

  /** Lines 400-412: the message before the final strip. */
  function Message(error: Option<string>, hasTheses: bool, total: nat, available: nat, batchPages: nat,
                   shownEmpty: bool, page: int): Option<string>
  {
    var e := Earlier(error, total);
    if PastBatch(page, batchPages) then Some(AppendError(e, ExceedsPages(page, batchPages)))
    else if !hasTheses && !HasError(e) && total > 0 then Some(AppendError(e, ExtractionFailed))
    else if hasTheses && shownEmpty && page > 1 && available > 0 then Some(AppendError(e, BeyondData(page)))
    else e
  }

  /**
   * Lines 396-421 of `search_theses`. `theses` is what was parsed from the
   * page script, `reportedTotal` and `displayed` are the counts read from the
   * result banner (absent when not found), and `error` is the message the
   * earlier steps left.
   */
  function Paginate<T>(theses: seq<T>, reportedTotal: Option<nat>, displayed: Option<nat>,
                       error: Option<string>, page: int, limit: int): SearchResult<T>
    requires page >= 1 && 1 <= limit <= 20
  {
    var total := Total(theses, reportedTotal);
    var available := Available(theses, displayed);
    var batchPages := PageCount(available, limit);
    var shown := Shown(theses, batchPages, page, limit);
    var message := Message(error, theses != [], total, available, batchPages, shown == [], page);
    SearchResult(shown, total, page, PageCount(total, limit), FinalError(message))
  }

  /**
   * The reported total falls back to the number of parsed theses, the page
   * count is the ceiling of the total over the page size (0 for no results),
   * and the page asked for is echoed.
   */
  lemma PaginateTotals<T>(theses: seq<T>, reportedTotal: Option<nat>, displayed: Option<nat>,
                          error: Option<string>, page: int, limit: int)
    requires page >= 1 && 1 <= limit <= 20
    ensures var r := Paginate(theses, reportedTotal, displayed, error, page, limit);
      var total := if reportedTotal.Some? then reportedTotal.value else |theses|;
      && r.totalResultsFound == total
      && r.currentPage == page
      && (total == 0 ==> r.totalPages == 0)
      && (total > 0 ==> (r.totalPages - 1) * limit < total <= r.totalPages * limit)
  {
    CeilDivBounds(if reportedTotal.Some? then reportedTotal.value else |theses|, limit);
  }

  /**
   * The theses returned are exactly the requested page of the parsed list,
   * at most `limit` of them, and none when the page is past the batch.
   */
  lemma PaginateSlices<T>(theses: seq<T>, reportedTotal: Option<nat>, displayed: Option<nat>,
                          error: Option<string>, page: int, limit: int)
    requires page >= 1 && 1 <= limit <= 20
    ensures var r := Paginate(theses, reportedTotal, displayed, error, page, limit);
      var batchPages := PageCount(Available(theses, displayed), limit);
      && |r.theses| <= limit
      && r.theses == (if theses != [] && !PastBatch(page, batchPages) then PageSlice(theses, page, limit) else [])
  {
  }

  /** Past the batch, the page is empty and the message is the out-of-range fragment appended to the earlier one. */
  lemma PaginatePastBatch<T>(theses: seq<T>, reportedTotal: Option<nat>, displayed: Option<nat>,
                             error: Option<string>, page: int, limit: int)
    requires page >= 1 && 1 <= limit <= 20
    requires PastBatch(page, PageCount(Available(theses, displayed), limit))
    ensures var r := Paginate(theses, reportedTotal, displayed, error, page, limit);
      var f := ExceedsPages(page, PageCount(Available(theses, displayed), limit));
      && r.theses == []
      && r.errorMessage == FinalError(Some(AppendError(Earlier(error, Total(theses, reportedTotal)), f)))
  {
  }

  /**
   * A page past the batch returns nothing and the message ends with the
   * out-of-range fragment naming the page and the batch's page count.
   */
  lemma PaginateOutOfRange<T>(theses: seq<T>, reportedTotal: Option<nat>, displayed: Option<nat>,
                              error: Option<string>, page: int, limit: int)
    requires page >= 1 && 1 <= limit <= 20
    requires PastBatch(page, PageCount(Available(theses, displayed), limit))
    ensures var r := Paginate(theses, reportedTotal, displayed, error, page, limit);
      r.theses == [] && r.errorMessage.Some?
      && EndsWith(r.errorMessage.value, ExceedsPages(page, PageCount(Available(theses, displayed), limit)))
  {
    var f := ExceedsPages(page, PageCount(Available(theses, displayed), limit));
    var e := Earlier(error, Total(theses, reportedTotal));
    PaginatePastBatch(theses, reportedTotal, displayed, error, page, limit);
    OutOfRangeMessage(e, page, PageCount(Available(theses, displayed), limit));
  }

  /** The final message after an out-of-range fragment still ends with that fragment. */
  lemma OutOfRangeMessage(e: Option<string>, page: int, pages: int)
    ensures var m := FinalError(Some(AppendError(e, ExceedsPages(page, pages))));
      m.Some? && EndsWith(m.value, ExceedsPages(page, pages))
  {
    ExceedsPagesEnds(page, pages);
    FinalErrorEndsWith(e, ExceedsPages(page, pages));
  }

  lemma ExceedsPagesEnds(page: int, pages: int)
    ensures var f := ExceedsPages(page, pages); f != [] && f[0] == 'P' && f[|f| - 1] == '.'
  {
    var mid := IntToString(page) + " exceeds pages (" + IntToString(pages);
    ConcatEnds("Page ", mid, ") in current batch.");
  }

  /**
   * No error message is returned exactly when the earlier steps left none,
   * there are results, a batch page count exists or the page is within it,
   * the parsed list is not empty and the page is not past its end.
   */
  lemma PaginateReportsErrors<T>(theses: seq<T>, reportedTotal: Option<nat>, displayed: Option<nat>,
                                 error: Option<string>, page: int, limit: int)
    requires page >= 1 && 1 <= limit <= 20
    ensures var r := Paginate(theses, reportedTotal, displayed, error, page, limit);
      var total := if reportedTotal.Some? then reportedTotal.value else |theses|;
      var available := if displayed.Some? then displayed.value else |theses|;
      var batchPages := PageCount(available, limit);
      r.errorMessage.None? <==>
        && !HasError(error) && total > 0
        && !(page > batchPages && batchPages > 0)
        && theses != []
        && !(r.theses == [] && page > 1 && available > 0)
  {
  }
}
