/**
 * The preview drawer of `DocumentModal.jsx`: a selected index, the parsed
 * sheets and the PDF page count, reset whenever the drawer is opened or
 * closed or its initial index changes, and filled in by the dispatch effect
 * and the PDF engine's load callback.
 */
module DocumentModal {
  import opened Wrappers
  import opened Text
  import opened Preview
  import Routes

  /**
   * The drawer treats a file as a spreadsheet when its declared type is the
   * XLSX type or, failing that, when its (non-empty) name ends in `.xlsx`.
   */
  predicate IsSpreadsheet(f: ViewerFile) {
    f.mimeType == XlsxMime || (f.name != "" && EndsWith(f.name, ".xlsx"))
  }

  /**
   * The name test is a plain, case-sensitive suffix test: a browser file with
   * no declared type named `b.xlsx` is a spreadsheet here though its type is
   * not the XLSX type (the only test the standalone viewer makes), while
   * `B.XLSX` with no declared type, a name the backend accepts, is not.
   */
  lemma SpreadsheetByName(content: seq<bv8>)
    ensures var f := ViewerFile("b.xlsx", Blob(content), "");
      IsSpreadsheet(f) && f.mimeType != XlsxMime
    ensures var g := ViewerFile("B.XLSX", Blob(content), "");
      !IsSpreadsheet(g) && Routes.Allowed(g.name)
  {
  }

  /** What the open drawer shows: the file list, the PDF pages (if any) and the sheet tables (if any). */
  datatype ModalView = ModalView(entries: seq<FileEntry>, pdfPages: Option<seq<nat>>, sheets: Option<seq<Sheet>>)

  class DocumentModalComponent {
    // props
    var open: bool
    var files: seq<ViewerFile>
    var initialFileIndex: int
    // state
    var selectedFileIndex: int
    var sheets: Option<seq<Sheet>>
    var numPages: Option<nat>

    /** Mounting: the index starts at `initialFileIndex`, nothing parsed, no page count. */
    constructor (open: bool, files: seq<ViewerFile>, initialFileIndex: int)
      ensures this.open == open && this.files == files && this.initialFileIndex == initialFileIndex
      ensures selectedFileIndex == initialFileIndex && sheets == None && numPages == None
    {
      this.open := open;
      this.files := files;
      this.initialFileIndex := initialFileIndex;
      selectedFileIndex := initialFileIndex;
      sheets := None;
      numPages := None;
    }

    /**
     * The parent renders the drawer with new props. When `open` or
     * `initialFileIndex` changed, the first effect resets the index to
     * `initialFileIndex` and clears the sheets and the page count; a change of
     * `files` alone resets nothing.
     */
    method ReceiveProps(open': bool, files': seq<ViewerFile>, initialFileIndex': int)
      modifies this
      ensures open == open' && files == files' && initialFileIndex == initialFileIndex'
      ensures old(open) != open' || old(initialFileIndex) != initialFileIndex' ==>
        selectedFileIndex == initialFileIndex' && sheets == None && numPages == None
      ensures old(open) == open' && old(initialFileIndex) == initialFileIndex' ==>
        selectedFileIndex == old(selectedFileIndex) && sheets == old(sheets) && numPages == old(numPages)
    {
      var reset := open != open' || initialFileIndex != initialFileIndex';
      open, files, initialFileIndex := open', files', initialFileIndex';
      if reset {
        selectedFileIndex := initialFileIndex;
        sheets := None;
        numPages := None;
      }
    }

    /**
     * The dispatch effect, run after the index, the files or `open` changed.
     * Closed: nothing starts. A spreadsheet at the index: its bytes are read
     * (fetched first when the descriptor is a URL) and parsed; `loaded` is the
     * workbook, or `None` when reading or parsing failed, which leaves the
     * sheets as they were. Anything else, or no file at the index: sheets cleared.
     */
    method LoadPreview(loaded: Option<Workbook>)
      modifies this`sheets
      ensures !open ==> sheets == old(sheets)
      ensures open && FileAt(files, selectedFileIndex).Some? && IsSpreadsheet(files[selectedFileIndex]) ==>
        sheets == (if loaded.Some? then Some(SheetsOf(loaded.value)) else old(sheets))
      ensures open && !(FileAt(files, selectedFileIndex).Some? && IsSpreadsheet(files[selectedFileIndex])) ==>
        sheets == None
    {
      if !open {
        return;
      }
      var file := FileAt(files, selectedFileIndex);
      if file.Some? && IsSpreadsheet(file.value) {
        if loaded.Some? {
          sheets := Some(SheetsOf(loaded.value));
        }
      } else {
        sheets := None;
      }
    }

    /** The PDF engine's load callback: the page count becomes known. */
    method OnDocumentLoadSuccess(n: nat)
      modifies this`numPages
      ensures numPages == Some(n)
    {
      numPages := Some(n);
    }

    /** Clicking list entry `idx`: only the index changes. */
    method SelectFile(idx: int)
      modifies this`selectedFileIndex
      ensures selectedFileIndex == idx
    {
      selectedFileIndex := idx;
    }

    /**
     * What is rendered: nothing while closed; otherwise the file list with
     * the selected entry highlighted, the pages 1..N when the selected file's
     * declared type is exactly `application/pdf`, and the sheet tables when
     * sheets are present.
     */
    function View(): (v: Option<ModalView>)
      reads this
      ensures v.None? <==> !open
      ensures v.Some? ==> v.value.entries == FileList(files, Some(selectedFileIndex))
      ensures v.Some? ==> (v.value.pdfPages.Some? <==>
        (0 <= selectedFileIndex < |files| && files[selectedFileIndex].mimeType == PdfMime))
      ensures v.Some? && v.value.pdfPages.Some? ==> v.value.pdfPages.value == PageNumbers(numPages)
      ensures v.Some? ==> v.value.sheets == sheets
    {
      if !open then None
      else
        var selected := FileAt(files, selectedFileIndex);
        var pages := if selected.Some? && selected.value.mimeType == PdfMime then Some(PageNumbers(numPages)) else None;
        Some(ModalView(FileList(files, Some(selectedFileIndex)), pages, sheets))
    }
  }
}
