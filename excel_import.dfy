/** The generic Excel import: the first sheet of an uploaded workbook is read
    row by row after an optional header check; each data row goes through a
    row mapper, non-null results are gathered in a buffer that a batch saver
    receives every `batchSize` rows and once more at the end, and every row
    is accounted for in an `ExcelImportResult`.

    The workbook, its rows and cells, the mapper and the saver are
    parameters: a sheet is the sequence of its rows (a missing row is
    `None`), the mapper answers a value, `null` (`None`) or the exception it
    throws, and the saver answers whether it threw for a given batch. */
module ExcelImport {
  import opened Common
  import opened JavaText
  import opened ExcelResult

  const DefaultHeaderRowIndex: int := 0
  const DefaultBatchSize: int := 500
  const Int32Max: int := 0x7fff_ffff
  const Int32Min: int := -0x8000_0000

  const EmptyFileError := ApiException(BadRequest, "File Excel tidak boleh kosong")
  const NoSheetError := ApiException(BadRequest, "Sheet pertama pada file Excel tidak ditemukan")
  const MissingHeaderError := ApiException(BadRequest, "Header Excel tidak ditemukan pada baris yang ditentukan")
  const NullMappingMessage: string := "Row mapper menghasilkan null"
  const ReadFailurePrefix: string := "Gagal membaca file Excel: "
  const ImportFailurePrefix: string := "Terjadi kesalahan saat import Excel: "

  // ---------------------------------------------------------------------
  // Workbook values

  /** A cell by its type. What a NUMERIC cell renders to, and what a
      FORMULA cell renders to (its string value, else its numeric value,
      else `null`), are given rather than computed from a `double`. */
  datatype Cell =
    | StringCell(text: string)
    | NumericCell(rendered: string)
    | BooleanCell(flag: bool)
    | FormulaCell(result: Option<string>)
    | BlankCell
    | NoneCell
    | ErrorCell

  /** The cells of a row by column index; a missing cell is `None`. */
  datatype Row = Row(cells: seq<Option<Cell>>)

  /** The rows of a sheet by row index (0-based); a missing row is `None`. */
  datatype Sheet = Sheet(rows: seq<Option<Row>>)

  /** An uploaded file: whether it is empty, and what opening it as a
      workbook and taking its first sheet gives: the sheet, `null`, or the
      exception that was thrown. */
  datatype Upload = Upload(isEmpty: bool, firstSheet: Result<Option<Sheet>>)

  /** `row.getCell(i)` */
  function CellAt(row: Row, i: int): Option<Cell> {
    if 0 <= i < |row.cells| then row.cells[i] else None
  }

  /** `sheet.getRow(i)` */
  function RowAt(sheet: Sheet, i: int): Option<Row> {
    if 0 <= i < |sheet.rows| then sheet.rows[i] else None
  }

  /** `sheet.getLastRowNum()` */
  function LastRowNum(sheet: Sheet): int {
    |sheet.rows| - 1
  }

  /** `getStringCellValue`: a cell's text, or `null` for a missing, BLANK,
      `_NONE` or ERROR cell and for a formula with no value. */
  function CellText(cell: Option<Cell>): (r: Option<string>)
    ensures r.None? <==>
              cell.None? || cell.value.BlankCell? || cell.value.NoneCell? || cell.value.ErrorCell? ||
              (cell.value.FormulaCell? && cell.value.result.None?)
    ensures cell.Some? && cell.value.StringCell? ==> r == Some(cell.value.text)
  {
    if cell.None? then None
    else
      match cell.value
      case StringCell(text) => Some(text)
      case NumericCell(rendered) => Some(rendered)
      case BooleanCell(flag) => Some(if flag then "true" else "false")
      case FormulaCell(result) => result
      case _ => None
  }

  // ---------------------------------------------------------------------
  // isRowEmpty

  /** Every character of `s` is one `trim` removes, so `s.trim()` is empty. */
  predicate AllTrimmable(s: string) {
    forall i :: 0 <= i < |s| ==> IsTrimmable(s[i])
  }

  /** A cell that does not make its row hold data: missing, BLANK, or with
      no text or a text that trims to nothing. */
  predicate CellBlank(cell: Option<Cell>) {
    cell.None? || cell.value.BlankCell? || CellText(cell).None? || AllTrimmable(CellText(cell).value)
  }

  /** A row the import skips: missing, or holding no cell with data. */
  predicate RowBlank(row: Option<Row>) {
    row.None? || forall i :: 0 <= i < |row.value.cells| ==> CellBlank(row.value.cells[i])
  }

  method IsRowEmpty(row: Option<Row>) returns (r: bool)
    ensures r <==> RowBlank(row)
  {
    if row.None? {
      return true;
    }
    var cells := row.value.cells;
    var i := 0;
    while i < |cells|
      invariant 0 <= i <= |cells|
      invariant forall j :: 0 <= j < i ==> CellBlank(cells[j])
    {
      var cell := cells[i];
      if cell.Some? && !cell.value.BlankCell? {
        var value := CellText(cell);
        if value.Some? && Trim(value.value) != [] {
          return false;
        }
      }
      i := i + 1;
    }
    return true;
  }

  /** A present row counts as data exactly when one of its cells renders to
      a text with a character above U+0020; so a BOOLEAN cell always makes
      its row count. */
  lemma RowCountsIffSomeText(row: Row)
    ensures !RowBlank(Some(row)) <==>
            exists i, k :: 0 <= i < |row.cells| && CellText(row.cells[i]).Some? &&
                           0 <= k < |CellText(row.cells[i]).value| && !IsTrimmable(CellText(row.cells[i]).value[k])
    ensures forall i :: 0 <= i < |row.cells| && row.cells[i].Some? && row.cells[i].value.BooleanCell? ==>
                        !RowBlank(Some(row))
  {
    forall i | 0 <= i < |row.cells| && row.cells[i].Some? && row.cells[i].value.BooleanCell?
      ensures !RowBlank(Some(row))
    {
      var text := CellText(row.cells[i]).value;
      assert !IsTrimmable(text[0]);
      assert !CellBlank(row.cells[i]);
    }
  }

  // ---------------------------------------------------------------------
  // validateHeaderRow

  /** The error for the first header cell that does not match, naming the
      1-based column, the expected name and the text found (`null` when the
      cell has none). */
  function HeaderMismatchError(column: nat, expected: string, actual: Option<string>): Exception {
    ApiException(BadRequest, "Header kolom ke-" + DecimalString(column) + " tidak sesuai. Diharapkan: '" + expected +
                             "', ditemukan: '" + (if actual.Some? then actual.value else "null") + "'")
  }

  /** Header cell `i`, trimmed, equals expected name `i` ignoring case. */
  predicate HeaderCellMatches(row: Row, expected: seq<string>, i: nat)
    requires i < |expected|
  {
    var actual := CellText(CellAt(row, i));
    actual.Some? && EqualsIgnoreCase(expected[i], Trim(actual.value))
  }

  /** The error `validateHeaderRow` raises for column `k` (0-based). */
  function ColumnMismatch(row: Row, expected: seq<string>, k: nat): Exception
    requires k < |expected|
  {
    HeaderMismatchError(k + 1, expected[k], CellText(CellAt(row, k)))
  }

  /** `validateHeaderRow` from column `i` on: the first column that does not
      match fails with its error, and reaching the end passes. */
  function HeaderCheckFrom(row: Row, expected: seq<string>, i: nat): (r: Outcome)
    requires i <= |expected|
    ensures r.Fail? ==> r.error.ApiException? && r.error.status == BadRequest
    decreases |expected| - i
  {
    if i == |expected| then Pass
    else if !HeaderCellMatches(row, expected, i) then Fail(ColumnMismatch(row, expected, i))
    else HeaderCheckFrom(row, expected, i + 1)
  }

  /** `validateHeaderRow`: a missing header row fails; otherwise the header
      is checked column by column from the first. */
  function HeaderCheck(headerRow: Option<Row>, expected: seq<string>): (r: Outcome)
    ensures r.Fail? ==> r.error.ApiException? && r.error.status == BadRequest
  {
    if headerRow.None? then Fail(MissingHeaderError) else HeaderCheckFrom(headerRow.value, expected, 0)
  }

  /** From column `i` on, the header check passes exactly when every column from
      `i` matches. */
  lemma {:induction false} HeaderCheckFromPasses(row: Row, expected: seq<string>, i: nat)
    requires i <= |expected|
    ensures HeaderCheckFrom(row, expected, i).Pass? <==>
            forall j :: i <= j < |expected| ==> HeaderCellMatches(row, expected, j)
    decreases |expected| - i
  {
    if i < |expected| && HeaderCellMatches(row, expected, i) {
      HeaderCheckFromPasses(row, expected, i + 1);
    }
  }

  /** From column `i` on, a failure is the error of the first column from
      `i` that does not match. */
  lemma {:induction false} HeaderCheckFromFails(row: Row, expected: seq<string>, i: nat)
    requires i <= |expected|
    ensures HeaderCheckFrom(row, expected, i).Fail? ==>
              exists k :: i <= k < |expected| && !HeaderCellMatches(row, expected, k) &&
                          (forall j :: i <= j < k ==> HeaderCellMatches(row, expected, j)) &&
                          HeaderCheckFrom(row, expected, i).error == ColumnMismatch(row, expected, k)
    decreases |expected| - i
  {
    if i < |expected| {
      if !HeaderCellMatches(row, expected, i) {
        assert HeaderCheckFrom(row, expected, i).error == ColumnMismatch(row, expected, i);
      } else if HeaderCheckFrom(row, expected, i + 1).Fail? {
        HeaderCheckFromFails(row, expected, i + 1);
        var k :| i + 1 <= k < |expected| && !HeaderCellMatches(row, expected, k) &&
                 (forall j :: i + 1 <= j < k ==> HeaderCellMatches(row, expected, j)) &&
                 HeaderCheckFrom(row, expected, i + 1).error == ColumnMismatch(row, expected, k);
        assert forall j :: i <= j < k ==> HeaderCellMatches(row, expected, j);
      }
    }
  }

  /** The header passes exactly when the row is present and every expected
      name matches its cell; otherwise a missing row fails with its own
      message, and a present row with the first column that does not match. */
  lemma HeaderCheckMeaning(headerRow: Option<Row>, expected: seq<string>)
    ensures HeaderCheck(headerRow, expected).Pass? <==>
            headerRow.Some? && forall j :: 0 <= j < |expected| ==> HeaderCellMatches(headerRow.value, expected, j)
    ensures headerRow.None? ==> HeaderCheck(headerRow, expected) == Fail(MissingHeaderError)
    ensures headerRow.Some? && HeaderCheck(headerRow, expected).Fail? ==>
              exists k :: 0 <= k < |expected| && !HeaderCellMatches(headerRow.value, expected, k) &&
                          (forall j :: 0 <= j < k ==> HeaderCellMatches(headerRow.value, expected, j)) &&
                          HeaderCheck(headerRow, expected).error ==
                            HeaderMismatchError(k + 1, expected[k], CellText(CellAt(headerRow.value, k)))
  {
    if headerRow.Some? {
      HeaderCheckFromPasses(headerRow.value, expected, 0);
      HeaderCheckFromFails(headerRow.value, expected, 0);
    }
  }

  /** When the columns before `i` match and column `i`, if there is one,
      does not, the header check stops at column `i`. */
  lemma HeaderCheckAt(row: Row, expected: seq<string>, i: nat)
    requires i <= |expected|
    requires forall j :: 0 <= j < i ==> HeaderCellMatches(row, expected, j)
    requires i < |expected| ==> !HeaderCellMatches(row, expected, i)
    ensures HeaderCheck(Some(row), expected) == if i == |expected| then Pass else Fail(ColumnMismatch(row, expected, i))
  {
    HeaderCheckFromAt(row, expected, 0, i);
  }

  /** `HeaderCheckAt`, starting from column `k`. */
  lemma {:induction false} HeaderCheckFromAt(row: Row, expected: seq<string>, k: nat, i: nat)
    requires k <= i <= |expected|
    requires forall j :: k <= j < i ==> HeaderCellMatches(row, expected, j)
    requires i < |expected| ==> !HeaderCellMatches(row, expected, i)
    ensures HeaderCheckFrom(row, expected, k) == if i == |expected| then Pass else Fail(ColumnMismatch(row, expected, i))
    decreases i - k
  {
    if k < i {
      HeaderCheckFromAt(row, expected, k + 1, i);
    }
  }

  method ValidateHeaderRow(headerRow: Option<Row>, expected: seq<string>) returns (r: Outcome)
    ensures r == HeaderCheck(headerRow, expected)
  {
    if headerRow.None? {
      return Fail(MissingHeaderError);
    }
    var row := headerRow.value;
    var i := 0;
    while i < |expected|
      invariant 0 <= i <= |expected|
      invariant HeaderCheckFrom(row, expected, i) == HeaderCheck(headerRow, expected)
    {
      var actual := CellText(CellAt(row, i));
      if actual.None? || !EqualsIgnoreCase(expected[i], Trim(actual.value)) {
        return Fail(HeaderMismatchError(i + 1, expected[i], actual));
      }
      i := i + 1;
    }
    r := Pass;
  }

  // ---------------------------------------------------------------------
  // The row loop, as a fold over the row indices

  /** The summary fields together with the buffer and every batch handed to
      the saver so far. */
  datatype Progress<T> = Progress(totalRows: int, successCount: int, failedCount: int,
                                  errors: seq<ExcelRowError>, buffer: seq<T>, calls: seq<seq<T>>)

  function Summarize<T>(p: Progress<T>): ImportSummary {
    ImportSummary(p.totalRows, p.successCount, p.failedCount, Some(p.errors))
  }

  /** A full buffer goes to the saver: if it returns the buffer is
      cleared; if it throws, the row counts as failed as well and the buffer
      is kept. */
  function Flush<T>(p: Progress<T>, rowIndex: int, saver: seq<T> -> Outcome, batchSize: int): Progress<T> {
    if |p.buffer| < batchSize then p
    else
      var saved := saver(p.buffer);
      var called := p.(calls := p.calls + [p.buffer]);
      if saved.Pass? then called.(buffer := [])
      else called.(failedCount := p.failedCount + 1, errors := p.errors + [ExcelRowError(rowIndex + 1, saved.error.Message())])
  }

  /** One pass of the loop body for the row at `rowIndex`. */
  function StepRow<T>(p: Progress<T>, row: Option<Row>, rowIndex: int, mapper: Row -> Result<Option<T>>,
                      saver: seq<T> -> Outcome, batchSize: int): Progress<T>
  {
    if RowBlank(row) then p
    else
      var counted := p.(totalRows := p.totalRows + 1);
      var mapped := mapper(row.value);
      if mapped.Failure? then
        counted.(failedCount := p.failedCount + 1, errors := p.errors + [ExcelRowError(rowIndex + 1, mapped.error.Message())])
      else if mapped.value.Some? then
        Flush(counted.(buffer := p.buffer + [mapped.value.value], successCount := p.successCount + 1), rowIndex, saver, batchSize)
      else
        Flush(counted.(failedCount := p.failedCount + 1, errors := p.errors + [ExcelRowError(rowIndex + 1, NullMappingMessage)]),
              rowIndex, saver, batchSize)
  }

  /** The loop over the row indices `first` up to, not including, `upto`. */
  function Scan<T>(sheet: Sheet, first: int, upto: int, mapper: Row -> Result<Option<T>>,
                   saver: seq<T> -> Outcome, batchSize: int): Progress<T>
    requires first <= upto
    decreases upto - first
  {
    if upto == first then Progress(0, 0, 0, [], [], [])
    else StepRow(Scan(sheet, first, upto - 1, mapper, saver, batchSize), RowAt(sheet, upto - 1), upto - 1, mapper, saver, batchSize)
  }

  // ---------------------------------------------------------------------
  // Reference definitions for the loop

  /** The rows in `[first, upto)` that hold data. */
  function CountedRows(sheet: Sheet, first: int, upto: int): nat
    requires first <= upto
    decreases upto - first
  {
    if upto == first then 0
    else CountedRows(sheet, first, upto - 1) + (if RowBlank(RowAt(sheet, upto - 1)) then 0 else 1)
  }

  /** The non-null values the mapper gives for the rows in `[first, upto)`
      that hold data, in row order. */
  function MappedValues<T>(sheet: Sheet, first: int, upto: int, mapper: Row -> Result<Option<T>>): seq<T>
    requires first <= upto
    decreases upto - first
  {
    if upto == first then []
    else
      MappedValues(sheet, first, upto - 1, mapper) + Kept(RowAt(sheet, upto - 1), mapper)
  }

  /** The value a row contributes: the mapper's non-null value for a row
      with data, nothing otherwise. */
  function Kept<T>(row: Option<Row>, mapper: Row -> Result<Option<T>>): seq<T> {
    if !RowBlank(row) && mapper(row.value).Success? && mapper(row.value).value.Some? then [mapper(row.value).value.value] else []
  }

  /** The batches, one after another. */
  function Flatten<T>(batches: seq<seq<T>>): seq<T> {
    if batches == [] then [] else Flatten(batches[..|batches| - 1]) + batches[|batches| - 1]
  }

  /** How many of the batches the saver threw for. */
  function Rejected<T>(batches: seq<seq<T>>, saver: seq<T> -> Outcome): nat {
    if batches == [] then 0
    else Rejected(batches[..|batches| - 1], saver) + (if saver(batches[|batches| - 1]).Fail? then 1 else 0)
  }

  ghost predicate SaverNeverThrows<T(!new)>(saver: seq<T> -> Outcome) {
    forall batch :: saver(batch).Pass?
  }

  lemma {:induction false} NoRejections<T(!new)>(batches: seq<seq<T>>, saver: seq<T> -> Outcome)
    requires SaverNeverThrows(saver)
    ensures Rejected(batches, saver) == 0
    decreases |batches|
  {
    if batches != [] {
      NoRejections(batches[..|batches| - 1], saver);
    }
  }

  /** What one row adds to the counters, the errors and the saver calls. */
  lemma StepAccounting<T>(p: Progress<T>, row: Option<Row>, rowIndex: int, mapper: Row -> Result<Option<T>>,
                          saver: seq<T> -> Outcome, batchSize: int)
    ensures var q := StepRow(p, row, rowIndex, mapper, saver, batchSize);
            q.totalRows == p.totalRows + (if RowBlank(row) then 0 else 1) &&
            q.successCount == p.successCount + |Kept(row, mapper)| &&
            q.failedCount - |q.errors| == p.failedCount - |p.errors| &&
            q.successCount + q.failedCount - q.totalRows - Rejected(q.calls, saver) ==
              p.successCount + p.failedCount - p.totalRows - Rejected(p.calls, saver)
  {
    var q := StepRow(p, row, rowIndex, mapper, saver, batchSize);
    if |q.calls| > |p.calls| {
      assert q.calls[..|q.calls| - 1] == p.calls;
    }
  }

  /** Every row with data is counted once, every non-null value is a
      success, every failure has its error, and a row counts as both a
      success and a failure once for each batch the saver threw for. */
  lemma {:induction false} ScanAccounting<T>(sheet: Sheet, first: int, upto: int, mapper: Row -> Result<Option<T>>,
                                             saver: seq<T> -> Outcome, batchSize: int)
    requires first <= upto
    ensures var p := Scan(sheet, first, upto, mapper, saver, batchSize);
            p.totalRows == CountedRows(sheet, first, upto) &&
            p.successCount == |MappedValues(sheet, first, upto, mapper)| &&
            p.failedCount == |p.errors| &&
            p.successCount + p.failedCount == p.totalRows + Rejected(p.calls, saver)
    decreases upto - first
  {
    if upto > first {
      ScanAccounting(sheet, first, upto - 1, mapper, saver, batchSize);
      StepAccounting(Scan(sheet, first, upto - 1, mapper, saver, batchSize), RowAt(sheet, upto - 1), upto - 1,
                     mapper, saver, batchSize);
    }
  }

  /** When the saver never throws, the rows with data split exactly into
      successes and failures. */
  lemma SuccessAndFailedAddUp<T(!new)>(sheet: Sheet, first: int, upto: int, mapper: Row -> Result<Option<T>>,
                                 saver: seq<T> -> Outcome, batchSize: int)
    requires first <= upto && SaverNeverThrows(saver)
    ensures var p := Scan(sheet, first, upto, mapper, saver, batchSize);
            p.successCount + p.failedCount == p.totalRows
  {
    ScanAccounting(sheet, first, upto, mapper, saver, batchSize);
    NoRejections(Scan(sheet, first, upto, mapper, saver, batchSize).calls, saver);
  }

  /** With a saver that never throws, one row keeps the buffer short and
      the saver calls full, and adds its value after the ones before. */
  lemma StepBatches<T(!new)>(p: Progress<T>, row: Option<Row>, rowIndex: int, mapper: Row -> Result<Option<T>>,
                             saver: seq<T> -> Outcome, batchSize: int)
    requires SaverNeverThrows(saver) && batchSize > 0 && |p.buffer| < batchSize
    requires forall i :: 0 <= i < |p.calls| ==> |p.calls[i]| == batchSize
    ensures var q := StepRow(p, row, rowIndex, mapper, saver, batchSize);
            Flatten(q.calls) + q.buffer == Flatten(p.calls) + p.buffer + Kept(row, mapper) &&
            (forall i :: 0 <= i < |q.calls| ==> |q.calls[i]| == batchSize) &&
            |q.buffer| < batchSize
  {
    var q := StepRow(p, row, rowIndex, mapper, saver, batchSize);
    var kept := Kept(row, mapper);
    if kept != [] {
      var grown := p.buffer + kept;
      if |grown| >= batchSize {
        assert saver(grown).Pass?;
        assert q.calls == p.calls + [grown] && q.buffer == [];
        assert q.calls[..|q.calls| - 1] == p.calls;
      }
    }
  }

  /** When the saver never throws, the batches and the buffer hold the
      non-null mapped values in row order, every batch handed over inside
      the loop holds exactly `batchSize` of them, and fewer remain. */
  lemma {:induction false} ScanBatches<T(!new)>(sheet: Sheet, first: int, upto: int, mapper: Row -> Result<Option<T>>,
                                          saver: seq<T> -> Outcome, batchSize: int)
    requires first <= upto && SaverNeverThrows(saver) && batchSize > 0
    ensures var p := Scan(sheet, first, upto, mapper, saver, batchSize);
            Flatten(p.calls) + p.buffer == MappedValues(sheet, first, upto, mapper) &&
            (forall i :: 0 <= i < |p.calls| ==> |p.calls[i]| == batchSize) &&
            |p.buffer| < batchSize
    decreases upto - first
  {
    if upto > first {
      ScanBatches(sheet, first, upto - 1, mapper, saver, batchSize);
      var p := Scan(sheet, first, upto - 1, mapper, saver, batchSize);
      StepBatches(p, RowAt(sheet, upto - 1), upto - 1, mapper, saver, batchSize);
    }
  }

  /** One row adds errors only at the end, at most two, all numbered after
      that row, and only when the row holds data. */
  lemma StepErrors<T>(p: Progress<T>, row: Option<Row>, rowIndex: int, mapper: Row -> Result<Option<T>>,
                      saver: seq<T> -> Outcome, batchSize: int)
    ensures var q := StepRow(p, row, rowIndex, mapper, saver, batchSize);
            |p.errors| <= |q.errors| && q.errors[..|p.errors|] == p.errors &&
            (|q.errors| > |p.errors| ==> !RowBlank(row)) &&
            forall k :: |p.errors| <= k < |q.errors| ==> q.errors[k].rowIndex == rowIndex + 1
  {
  }

  /** Every error names, 1-based, a row with data in `[first, upto)`. */
  ghost predicate ErrorRowsWithin(errors: seq<ExcelRowError>, sheet: Sheet, first: int, upto: int) {
    forall k {:trigger errors[k]} :: 0 <= k < |errors| ==>
      first + 1 <= errors[k].rowIndex <= upto && !RowBlank(RowAt(sheet, errors[k].rowIndex - 1))
  }

  /** Error row numbers never decrease along the list. */
  ghost predicate RowsNonDecreasing(errors: seq<ExcelRowError>) {
    forall k, l {:trigger errors[k], errors[l]} :: 0 <= k < l < |errors| ==> errors[k].rowIndex <= errors[l].rowIndex
  }

  /** Errors appended for the row numbered `row` keep both properties. */
  lemma ErrorsAppended(before: seq<ExcelRowError>, after: seq<ExcelRowError>, sheet: Sheet, first: int, row: int)
    requires first < row && ErrorRowsWithin(before, sheet, first, row - 1) && RowsNonDecreasing(before)
    requires |before| <= |after| && after[..|before|] == before
    requires |after| > |before| ==> !RowBlank(RowAt(sheet, row - 1))
    requires forall k :: |before| <= k < |after| ==> after[k].rowIndex == row
    ensures ErrorRowsWithin(after, sheet, first, row) && RowsNonDecreasing(after)
  {
    forall k | 0 <= k < |before|
      ensures after[k] == before[k]
    {
      assert after[..|before|][k] == after[k];
    }
  }

  /** Error rows are the 1-based numbers of rows with data inside the
      scanned range, in non-decreasing order. */
  lemma {:induction false} ScanErrorRows<T>(sheet: Sheet, first: int, upto: int, mapper: Row -> Result<Option<T>>,
                                            saver: seq<T> -> Outcome, batchSize: int)
    requires first <= upto
    ensures var errors := Scan(sheet, first, upto, mapper, saver, batchSize).errors;
            ErrorRowsWithin(errors, sheet, first, upto) && RowsNonDecreasing(errors)
    decreases upto - first
  {
    if upto > first {
      ScanErrorRows(sheet, first, upto - 1, mapper, saver, batchSize);
      var p := Scan(sheet, first, upto - 1, mapper, saver, batchSize);
      StepErrors(p, RowAt(sheet, upto - 1), upto - 1, mapper, saver, batchSize);
      ErrorsAppended(p.errors, StepRow(p, RowAt(sheet, upto - 1), upto - 1, mapper, saver, batchSize).errors, sheet, first, upto);
    }
  }

  /** A row whose value fills the buffer when the saver throws is counted as
      a success and as a failure, and the buffer is not cleared. */
  lemma SaveFailureCountsRowTwice<T>(p: Progress<T>, row: Row, rowIndex: int, mapper: Row -> Result<Option<T>>,
                                     saver: seq<T> -> Outcome, batchSize: int)
    requires !RowBlank(Some(row)) && mapper(row).Success? && mapper(row).value.Some?
    requires |p.buffer| + 1 >= batchSize && saver(p.buffer + [mapper(row).value.value]).Fail?
    ensures var grown := p.buffer + [mapper(row).value.value];
            var q := StepRow(p, Some(row), rowIndex, mapper, saver, batchSize);
            q.totalRows == p.totalRows + 1 && q.successCount == p.successCount + 1 && q.failedCount == p.failedCount + 1 &&
            q.buffer == grown && q.calls == p.calls + [grown] &&
            q.errors == p.errors + [ExcelRowError(rowIndex + 1, saver(grown).error.Message())]
  {
  }

  // ---------------------------------------------------------------------
  // importExcel

  /** A batch size that is not positive means the default one. */
  function EffectiveBatchSize(batchSize: int): (r: int)
    ensures r > 0
    ensures batchSize > 0 ==> r == batchSize
  {
    if batchSize <= 0 then DefaultBatchSize else batchSize
  }

  /** `headerRowIndex + 1` in 32-bit arithmetic: an `int` congruent to the
      true sum modulo 2^32, which is the sum itself below the maximum. */
  function FirstDataRow(headerRowIndex: Int32): (r: Int32)
    ensures (headerRowIndex + 1 - r) % 0x1_0000_0000 == 0
    ensures headerRowIndex < Int32Max ==> r == headerRowIndex + 1
  {
    if headerRowIndex == Int32Max then Int32Min else headerRowIndex + 1
  }

  /** Where the loop stops: after the last row, or at once. */
  function ScanEnd(sheet: Sheet, first: int): (r: int)
    ensures first <= r
  {
    if first <= LastRowNum(sheet) + 1 then LastRowNum(sheet) + 1 else first
  }

  /** The exception that leaves the import: an `ApiException` unchanged, an
      `IOException` as BAD_REQUEST, any other as INTERNAL_SERVER_ERROR, both
      with the original message after a fixed prefix. */
  function Translate(e: Exception): (r: Exception)
    ensures r.ApiException?
    ensures e.ApiException? ==> r == e
    ensures e.IOException? ==> r == ApiException(BadRequest, ReadFailurePrefix + e.Message())
    ensures !e.ApiException? && !e.IOException? ==> r == ApiException(InternalServerError, ImportFailurePrefix + e.Message())
  {
    match e
    case ApiException(_, _) => e
    case IOException(m) => ApiException(BadRequest, ReadFailurePrefix + m)
    case _ => ApiException(InternalServerError, ImportFailurePrefix + e.Message())
  }

  /** What an import answers, together with every batch handed to the saver. */
  datatype ImportRun<T> = ImportRun(result: Result<ImportSummary>, calls: seq<seq<T>>)

  /** The six-argument `importExcel`: a missing or empty file is refused
      before anything is read; the workbook's exceptions are translated;
      headers are checked only when names are expected; the rows after the
      header row are scanned, and the buffer that is left goes to the saver
      once more, whose exception is translated as well. */
  function ImportOutcome<T>(file: Option<Upload>, headerRowIndex: Int32, expectedHeaders: Option<seq<string>>,
                            mapper: Row -> Result<Option<T>>, saver: seq<T> -> Outcome, batchSize: int): (r: ImportRun<T>)
    ensures r.result.Failure? ==> r.result.error.ApiException?
    ensures file.None? || file.value.isEmpty ==> r == ImportRun(Failure(EmptyFileError), [])
  {
    if file.None? || file.value.isEmpty then ImportRun(Failure(EmptyFileError), [])
    else
      var size := EffectiveBatchSize(batchSize);
      match file.value.firstSheet
      case Failure(e) => ImportRun(Failure(Translate(e)), [])
      case Success(None) => ImportRun(Failure(NoSheetError), [])
      case Success(Some(sheet)) =>
        var header := if expectedHeaders.Some? && expectedHeaders.value != [] then HeaderCheck(RowAt(sheet, headerRowIndex), expectedHeaders.value)
                      else Pass;
        if header.Fail? then ImportRun(Failure(header.error), [])
        else
          var first := FirstDataRow(headerRowIndex);
          var p := Scan(sheet, first, ScanEnd(sheet, first), mapper, saver, size);
          if |p.buffer| == 0 then ImportRun(Success(Summarize(p)), p.calls)
          else
            var saved := saver(p.buffer);
            ImportRun(if saved.Pass? then Success(Summarize(p)) else Failure(Translate(saved.error)), p.calls + [p.buffer])
  }

  /** A batch size that is not positive behaves as 500. */
  lemma NonPositiveBatchSizeIsDefault<T>(file: Option<Upload>, headerRowIndex: Int32, expectedHeaders: Option<seq<string>>,
                                         mapper: Row -> Result<Option<T>>, saver: seq<T> -> Outcome, batchSize: int)
    requires batchSize <= 0
    ensures ImportOutcome(file, headerRowIndex, expectedHeaders, mapper, saver, batchSize) ==
            ImportOutcome(file, headerRowIndex, expectedHeaders, mapper, saver, DefaultBatchSize)
  {
  }

  /** An import of a readable sheet whose header passes, with a saver that
      never throws, succeeds: every row with data after the header row is
      counted as a success or a failure, the saver receives every non-null
      mapped value once and in row order, in batches of exactly the batch
      size except a last smaller one. */
  lemma ImportBatches<T(!new)>(file: Option<Upload>, headerRowIndex: Int32, expectedHeaders: Option<seq<string>>,
                         mapper: Row -> Result<Option<T>>, saver: seq<T> -> Outcome, batchSize: int, sheet: Sheet)
    requires file == Some(Upload(false, Success(Some(sheet)))) && SaverNeverThrows(saver)
    requires expectedHeaders.Some? && expectedHeaders.value != [] ==>
               HeaderCheck(RowAt(sheet, headerRowIndex), expectedHeaders.value).Pass?
    ensures var r := ImportOutcome(file, headerRowIndex, expectedHeaders, mapper, saver, batchSize);
            var first := FirstDataRow(headerRowIndex);
            var size := EffectiveBatchSize(batchSize);
            r.result.Success? &&
            r.result.value.totalRows == CountedRows(sheet, first, ScanEnd(sheet, first)) &&
            r.result.value.successCount + r.result.value.failedCount == r.result.value.totalRows &&
            Flatten(r.calls) == MappedValues(sheet, first, ScanEnd(sheet, first), mapper) &&
            forall i :: 0 <= i < |r.calls| ==> 1 <= |r.calls[i]| <= size && (i < |r.calls| - 1 ==> |r.calls[i]| == size)
  {
    var first := FirstDataRow(headerRowIndex);
    var size := EffectiveBatchSize(batchSize);
    var upto := ScanEnd(sheet, first);
    var p := Scan(sheet, first, upto, mapper, saver, size);
    ScanAccounting(sheet, first, upto, mapper, saver, size);
    SuccessAndFailedAddUp(sheet, first, upto, mapper, saver, size);
    ScanBatches(sheet, first, upto, mapper, saver, size);
    if |p.buffer| > 0 {
      assert saver(p.buffer).Pass?;
      assert (p.calls + [p.buffer])[..|p.calls|] == p.calls;
    }
  }

  /** An import of a readable sheet whose expected header does not match
      fails with the header check's BAD_REQUEST before any row is read or
      any batch saved: a missing header row with its own message, a present
      one naming the first column, 1-based, that does not match. */
  lemma ImportHeaderFails<T>(file: Option<Upload>, headerRowIndex: Int32, expectedHeaders: Option<seq<string>>,
                             mapper: Row -> Result<Option<T>>, saver: seq<T> -> Outcome, batchSize: int, sheet: Sheet)
    requires file == Some(Upload(false, Success(Some(sheet))))
    requires expectedHeaders.Some? && expectedHeaders.value != [] &&
             HeaderCheck(RowAt(sheet, headerRowIndex), expectedHeaders.value).Fail?
    ensures var r := ImportOutcome(file, headerRowIndex, expectedHeaders, mapper, saver, batchSize);
            var expected := expectedHeaders.value;
            var row := RowAt(sheet, headerRowIndex);
            r.calls == [] && r.result.Failure? && r.result.error.ApiException? && r.result.error.status == BadRequest &&
            (row.None? ==> r.result.error == MissingHeaderError) &&
            (row.Some? ==> exists k :: 0 <= k < |expected| && !HeaderCellMatches(row.value, expected, k) &&
                                       (forall j :: 0 <= j < k ==> HeaderCellMatches(row.value, expected, j)) &&
                                       r.result.error == HeaderMismatchError(k + 1, expected[k], CellText(CellAt(row.value, k))))
  {
    HeaderCheckMeaning(RowAt(sheet, headerRowIndex), expectedHeaders.value);
  }

  /** When the saver throws for the buffer left after the loop, the import
      fails with that exception translated, after every batch of the loop
      and then the left-over buffer have been handed to the saver. */
  lemma ImportFinalSaveFails<T>(file: Option<Upload>, headerRowIndex: Int32, expectedHeaders: Option<seq<string>>,
                                mapper: Row -> Result<Option<T>>, saver: seq<T> -> Outcome, batchSize: int, sheet: Sheet)
    requires file == Some(Upload(false, Success(Some(sheet))))
    requires expectedHeaders.Some? && expectedHeaders.value != [] ==>
               HeaderCheck(RowAt(sheet, headerRowIndex), expectedHeaders.value).Pass?
    requires var first := FirstDataRow(headerRowIndex);
             var p := Scan(sheet, first, ScanEnd(sheet, first), mapper, saver, EffectiveBatchSize(batchSize));
             |p.buffer| > 0 && saver(p.buffer).Fail?
    ensures var first := FirstDataRow(headerRowIndex);
            var p := Scan(sheet, first, ScanEnd(sheet, first), mapper, saver, EffectiveBatchSize(batchSize));
            var e := saver(p.buffer).error;
            var r := ImportOutcome(file, headerRowIndex, expectedHeaders, mapper, saver, batchSize);
            r.result == Failure(Translate(e)) && |r.calls| == |p.calls| + 1 &&
            r.calls[..|p.calls|] == p.calls && r.calls[|p.calls|] == p.buffer
  {
    var first := FirstDataRow(headerRowIndex);
    var p := Scan(sheet, first, ScanEnd(sheet, first), mapper, saver, EffectiveBatchSize(batchSize));
    assert (p.calls + [p.buffer])[..|p.calls|] == p.calls;
  }

  /** The loop body for one row, on the result object and the buffer. */
  method ProcessRow<T>(result: ExcelImportResult, buffer: seq<T>, calls: seq<seq<T>>, row: Option<Row>, rowIndex: int,
                       mapper: Row -> Result<Option<T>>, saver: seq<T> -> Outcome, batchSize: int, ghost p: Progress<T>)
    returns (buffer': seq<T>, calls': seq<seq<T>>)
    requires result.Summary() == Summarize(p) && buffer == p.buffer && calls == p.calls
    modifies result
    ensures var q := StepRow(p, row, rowIndex, mapper, saver, batchSize);
            result.Summary() == Summarize(q) && buffer' == q.buffer && calls' == q.calls
  {
    buffer', calls' := buffer, calls;
    var empty := IsRowEmpty(row);
    if empty {
      return;
    }
    result.IncrementTotalRows();
    var mapped := mapper(row.value);
    if mapped.Failure? {
      result.IncrementFailed();
      result.AddError(rowIndex + 1, mapped.error.Message());
      return;
    }
    if mapped.value.Some? {
      buffer' := buffer' + [mapped.value.value];
      result.IncrementSuccess();
    } else {
      result.IncrementFailed();
      result.AddError(rowIndex + 1, NullMappingMessage);
    }
    if |buffer'| >= batchSize {
      var saved := saver(buffer');
      calls' := calls' + [buffer'];
      if saved.Pass? {
        buffer' := [];
      } else {
        result.IncrementFailed();
        result.AddError(rowIndex + 1, saved.error.Message());
      }
    }
  }

  /** The loop over the rows from `first` to the last one, on a fresh
      result object. */
  method ScanRows<T>(result: ExcelImportResult, sheet: Sheet, first: int, mapper: Row -> Result<Option<T>>,
                     saver: seq<T> -> Outcome, batchSize: int)
    returns (buffer: seq<T>, calls: seq<seq<T>>)
    requires result.Summary() == ImportSummary(0, 0, 0, Some([]))
    modifies result
    ensures var p := Scan(sheet, first, ScanEnd(sheet, first), mapper, saver, batchSize);
            result.Summary() == Summarize(p) && buffer == p.buffer && calls == p.calls
  {
    buffer, calls := [], [];
    var last := LastRowNum(sheet);
    var rowIndex := first;
    while rowIndex <= last
      invariant first <= rowIndex <= ScanEnd(sheet, first)
      invariant var p := Scan(sheet, first, rowIndex, mapper, saver, batchSize);
                result.Summary() == Summarize(p) && buffer == p.buffer && calls == p.calls
      decreases last - rowIndex
    {
      buffer, calls := ProcessRow(result, buffer, calls, RowAt(sheet, rowIndex), rowIndex, mapper, saver, batchSize,
                                  Scan(sheet, first, rowIndex, mapper, saver, batchSize));
      rowIndex := rowIndex + 1;
    }
  }

  /** `importExcel` with every argument; `calls` are the batches handed to
      the saver, in order. */
  method ImportExcel<T>(file: Option<Upload>, headerRowIndex: Int32, expectedHeaders: Option<seq<string>>,
                        mapper: Row -> Result<Option<T>>, saver: seq<T> -> Outcome, batchSize: int)
    returns (r: Result<ExcelImportResult>, calls: seq<seq<T>>)
    ensures var o := ImportOutcome(file, headerRowIndex, expectedHeaders, mapper, saver, batchSize);
            calls == o.calls && r.Success? == o.result.Success? &&
            (r.Failure? ==> r.error == o.result.error) &&
            (r.Success? ==> fresh(r.value) && r.value.Summary() == o.result.value)
  {
    calls := [];
    if file.None? || file.value.isEmpty {
      return Failure(EmptyFileError), calls;
    }
    var size := batchSize;
    if size <= 0 {
      size := DefaultBatchSize;
    }
    var workbook := file.value.firstSheet;
    if workbook.Failure? {
      return Failure(Translate(workbook.error)), calls;
    }
    if workbook.value.None? {
      return Failure(NoSheetError), calls;
    }
    var sheet := workbook.value.value;
    var result := new ExcelImportResult();
    var buffer: seq<T>;
    if expectedHeaders.Some? && expectedHeaders.value != [] {
      var header := ValidateHeaderRow(RowAt(sheet, headerRowIndex), expectedHeaders.value);
      if header.Fail? {
        return Failure(header.error), calls;
      }
    }
    var first := if headerRowIndex == Int32Max then Int32Min else headerRowIndex + 1;
    buffer, calls := ScanRows(result, sheet, first, mapper, saver, size);
    if |buffer| > 0 {
      var saved := saver(buffer);
      calls := calls + [buffer];
      if saved.Fail? {
        return Failure(Translate(saved.error)), calls;
      }
    }
    r := Success(result);
  }

  /** `importExcel` without a batch size: batches of 500. */
  method ImportExcelDefaultBatch<T>(file: Option<Upload>, headerRowIndex: Int32, expectedHeaders: Option<seq<string>>,
                                    mapper: Row -> Result<Option<T>>, saver: seq<T> -> Outcome)
    returns (r: Result<ExcelImportResult>, calls: seq<seq<T>>)
    ensures var o := ImportOutcome(file, headerRowIndex, expectedHeaders, mapper, saver, DefaultBatchSize);
            calls == o.calls && r.Success? == o.result.Success? &&
            (r.Failure? ==> r.error == o.result.error) &&
            (r.Success? ==> fresh(r.value) && r.value.Summary() == o.result.value)
  {
    r, calls := ImportExcel(file, headerRowIndex, expectedHeaders, mapper, saver, DefaultBatchSize);
  }

  /** `importExcel` with the header on the first row, no header check and
      batches of 500. */
  method ImportExcelSimple<T>(file: Option<Upload>, mapper: Row -> Result<Option<T>>, saver: seq<T> -> Outcome)
    returns (r: Result<ExcelImportResult>, calls: seq<seq<T>>)
    ensures var o := ImportOutcome(file, DefaultHeaderRowIndex, None, mapper, saver, DefaultBatchSize);
            calls == o.calls && r.Success? == o.result.Success? &&
            (r.Failure? ==> r.error == o.result.error) &&
            (r.Success? ==> fresh(r.value) && r.value.Summary() == o.result.value)
  {
    r, calls := ImportExcel(file, DefaultHeaderRowIndex, None, mapper, saver, DefaultBatchSize);
  }
}
