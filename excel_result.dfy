/** The summary an Excel import answers with: how many data rows were read,
    how many were converted and how many failed, and one error per failure. */
module ExcelResult {
  import opened Common

  /** The failure of one row, numbered 1-based as the sheet shows it
      (the header row included). */
  datatype ExcelRowError = ExcelRowError(rowIndex: int, message: string)

  /** A snapshot of the summary's fields; `errors` is `None` when the list
      is `null`. */
  datatype ImportSummary = ImportSummary(totalRows: int, successCount: int, failedCount: int,
                                         errors: Option<seq<ExcelRowError>>)

  class ExcelImportResult {
    var totalRows: int
    var successCount: int
    var failedCount: int
    var errors: Option<seq<ExcelRowError>>

    function Summary(): (r: ImportSummary)
      reads this
      ensures r.totalRows == totalRows && r.successCount == successCount && r.failedCount == failedCount
      ensures r.errors == errors
    {
      ImportSummary(totalRows, successCount, failedCount, errors)
    }

    /** The errors recorded so far; a `null` list holds none. */
    function ErrorList(): (r: seq<ExcelRowError>)
      reads this
      ensures errors.None? ==> r == []
      ensures errors.Some? ==> r == errors.value
    {
      if errors.None? then [] else errors.value
    }

    /** The no-argument constructor: every counter is zero and the error
        list is empty (the builder default). */
    constructor ()
      ensures Summary() == ImportSummary(0, 0, 0, Some([]))
    {
      totalRows := 0;
      successCount := 0;
      failedCount := 0;
      errors := Some([]);
    }

    /** The all-arguments constructor, which may leave the list `null`. */
    constructor WithFields(totalRows: int, successCount: int, failedCount: int, errors: Option<seq<ExcelRowError>>)
      ensures Summary() == ImportSummary(totalRows, successCount, failedCount, errors)
    {
      this.totalRows := totalRows;
      this.successCount := successCount;
      this.failedCount := failedCount;
      this.errors := errors;
    }

    method IncrementSuccess()
      modifies this
      ensures Summary() == old(Summary()).(successCount := old(successCount) + 1)
    {
      successCount := successCount + 1;
    }

    method IncrementFailed()
      modifies this
      ensures Summary() == old(Summary()).(failedCount := old(failedCount) + 1)
    {
      failedCount := failedCount + 1;
    }

    method IncrementTotalRows()
      modifies this
      ensures Summary() == old(Summary()).(totalRows := old(totalRows) + 1)
    {
      totalRows := totalRows + 1;
    }

    /** Appends one error at the end, keeping the earlier ones; a `null`
        list is first replaced by an empty one. */
    method AddError(rowIndex: int, message: string)
      modifies this
      ensures Summary() == old(Summary()).(errors := Some(old(ErrorList()) + [ExcelRowError(rowIndex, message)]))
    {
      if errors.None? {
        errors := Some([]);
      }
      errors := Some(errors.value + [ExcelRowError(rowIndex, message)]);
    }
  }
}
