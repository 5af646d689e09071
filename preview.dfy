/**
 * What the two preview components share: the MIME types they dispatch on,
 * the file descriptors they are given, the workbook that the spreadsheet
 * library hands back, the sheet tables derived from it and the numbered page
 * list of a PDF.
 */
module Preview {
  import opened Wrappers

  const PdfMime: string := "application/pdf"
  const XlsxMime: string := "application/vnd.openxmlformats-officedocument.spreadsheetml.sheet"

  /** Where a descriptor's bytes live: behind a URL, or already in memory. */
  datatype Locator = Url(address: string) | Blob(content: seq<bv8>)

  /** A file the viewer can list and preview, with its declared MIME type. */
  datatype ViewerFile = ViewerFile(name: string, locator: Locator, mimeType: string)

  /** A spreadsheet cell: its text, or `None` when the cell is empty. */
  type Cell = Option<string>

  /** A workbook as a spreadsheet library returns it: sheet names in order and each sheet's rows. */
  datatype WorkbookData = WorkbookData(sheetNames: seq<string>, sheets: map<string, seq<seq<Cell>>>)
  {
    predicate Valid() {
      forall k :: 0 <= k < |sheetNames| ==> sheetNames[k] in sheets
    }
  }

  /** A workbook in which every listed sheet name has a sheet. */
  type Workbook = wb: WorkbookData | wb.Valid() witness WorkbookData([], map[])

  /** One rendered table: the sheet's name and its raw rows, the first row included. */
  datatype Sheet = Sheet(name: string, rows: seq<seq<Cell>>)

  /**
   * `workbook.SheetNames.map(name => ({name, data: sheet_to_json(Sheets[name], {header: 1})}))`:
   * one table per sheet, in the workbook's order, with no row treated as a header.
   */
  function SheetsOf(wb: Workbook): (r: seq<Sheet>)
    ensures |r| == |wb.sheetNames|
    ensures forall k :: 0 <= k < |r| ==> r[k].name == wb.sheetNames[k]
    ensures forall k :: 0 <= k < |r| ==> r[k].rows == wb.sheets[wb.sheetNames[k]]
  {
    seq(|wb.sheetNames|, k requires 0 <= k < |wb.sheetNames| =>
      Sheet(wb.sheetNames[k], wb.sheets[wb.sheetNames[k]]))
  }

  /**
   * `Array.from(new Array(numPages), (el, index) => index + 1)`: the page
   * numbers rendered for a PDF. Before the page count is known it is `null`,
   * and `new Array(null)` is a one-element array, so page 1 alone is listed.
   */
  function PageNumbers(numPages: Option<nat>): (r: seq<nat>)
    ensures |r| == (if numPages.Some? then numPages.value else 1)
    ensures r != [] ==> r[0] == 1 && r[|r| - 1] == |r|
    ensures forall k :: 0 <= k < |r| - 1 ==> r[k + 1] == r[k] + 1
  {
    var n := if numPages.Some? then numPages.value else 1;
    seq(n, k requires 0 <= k < n => k + 1)
  }

  /** JavaScript `files[i]`: the file at `i`, or `undefined` outside the array. */
  function FileAt(files: seq<ViewerFile>, i: int): (r: Option<ViewerFile>)
    ensures r.Some? <==> 0 <= i < |files|
    ensures r.Some? ==> r.value == files[i]
  {
    if 0 <= i < |files| then Some(files[i]) else None
  }

  /** One entry of a viewer's file list: the file's name and whether it is highlighted. */
  datatype FileEntry = FileEntry(name: string, selected: bool)

  /** The file list, with the entry at `selected` (if any) highlighted. */
  function FileList(files: seq<ViewerFile>, selected: Option<int>): (r: seq<FileEntry>)
    ensures |r| == |files|
    ensures forall k :: 0 <= k < |r| ==> r[k].name == files[k].name
    ensures forall k :: 0 <= k < |r| ==> (r[k].selected <==> selected == Some(k))
  {
    seq(|files|, k requires 0 <= k < |files| => FileEntry(files[k].name, selected == Some(k)))
  }
}
