/**
 * The page check of `get_thesis_pdf_as_markdown`: a requested page number
 * either names a page of the downloaded PDF, which is then converted, or
 * adds an out-of-range fragment to the error message.
 */
module PdfPage {
  import opened Common
  import opened Text
  import opened ErrorMessage

  /** The outcome of the check: the zero-based page to extract, or the error message after it. */
  datatype PageCheck = PageIndex(index: nat) | OutOfRange(message: string)

  function OutOfRangeText(pageNumber: int, totalPages: int): string
  {
    "Page " + IntToString(pageNumber) + " out of range (1-" + IntToString(totalPages) + ")."
  }

  /**
   * Lines 470-473. `pageNumber` has passed the request model's bound
   * (at least 1); `totalPages` is the page count of the PDF and `error` the
   * message the earlier steps left.
   */
  function CheckPage(pageNumber: int, totalPages: nat, error: Option<string>): PageCheck
    requires pageNumber >= 1
  {
    if 0 < pageNumber <= totalPages then PageIndex(pageNumber - 1)
    else OutOfRange(AppendError(error, OutOfRangeText(pageNumber, totalPages)))
  }

  /** A page is extracted exactly when it lies in 1..totalPages, and then it is a valid index into the PDF's pages. */
  lemma CheckPageAccepts(pageNumber: int, totalPages: nat, error: Option<string>)
    requires pageNumber >= 1
    ensures var r := CheckPage(pageNumber, totalPages, error);
      && (r.PageIndex? <==> pageNumber <= totalPages)
      && (r.PageIndex? ==> r.index < totalPages && r.index + 1 == pageNumber)
  {
  }

  lemma OutOfRangeTextEnds(pageNumber: int, totalPages: int)
    ensures var f := OutOfRangeText(pageNumber, totalPages); f != [] && f[0] == 'P' && f[|f| - 1] == '.'
  {
    var mid := IntToString(pageNumber) + " out of range (1-" + IntToString(totalPages);
    ConcatEnds("Page ", mid, ").");
  }

  /**
   * A page past the end yields no page, keeps the earlier message in front,
   * and the message finally returned ends with the out-of-range fragment.
   */
  lemma CheckPageRejects(pageNumber: int, totalPages: nat, error: Option<string>)
    requires pageNumber > totalPages && pageNumber >= 1
    ensures var r := CheckPage(pageNumber, totalPages, error); var f := OutOfRangeText(pageNumber, totalPages);
      && r.OutOfRange?
      && (HasError(error) ==> StartsWith(r.message, error.value + "; "))
      && FinalError(Some(r.message)).Some?
      && EndsWith(FinalError(Some(r.message)).value, f)
  {
    var f := OutOfRangeText(pageNumber, totalPages);
    OutOfRangeTextEnds(pageNumber, totalPages);
    FinalErrorEndsWith(error, f);
    if HasError(error) {
      var m := AppendError(error, f);
      assert m == (error.value + "; ") + f;
      assert m[..|error.value + "; "|] == error.value + "; ";
    }
  }
}
