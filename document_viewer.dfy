/**
 * The inline viewer of `DocumentViewer.jsx`: nothing is selected at first;
 * selecting a file resets the sheets and page count, then parses the file
 * when its declared type is exactly the XLSX type.
 */
module DocumentViewer {
  import opened Wrappers
  import opened Preview

  /** What the viewer shows: the file list, the PDF pages (if any) and the sheet tables (if any). */
  datatype ViewerView = ViewerView(entries: seq<FileEntry>, pdfPages: Option<seq<nat>>, sheets: Option<seq<Sheet>>)

  class DocumentViewerComponent {
    // prop
    var files: seq<ViewerFile>
    // state
    var selectedFileIndex: Option<int>
    var sheets: Option<seq<Sheet>>
    var numPages: Option<nat>

    /** Mounting: no file selected, nothing parsed, no page count. */
    constructor (files: seq<ViewerFile>)
      ensures this.files == files && selectedFileIndex == None && sheets == None && numPages == None
    {
      this.files := files;
      selectedFileIndex := None;
      sheets := None;
      numPages := None;
    }

    /**
     * `handleSelectFile(index)`, called from the entry at `index`: the index
     * is set and the sheets and page count cleared; then, only when the
     * declared type is exactly the XLSX type (there is no name fallback), the
     * file is read and parsed; `loaded` is the workbook, or `None` when the
     * read or the parse failed.
     */
    method HandleSelectFile(index: int, loaded: Option<Workbook>)
      requires 0 <= index < |files|
      modifies this`selectedFileIndex, this`sheets, this`numPages
      ensures selectedFileIndex == Some(index) && numPages == None
      ensures files[index].mimeType == XlsxMime && loaded.Some? ==> sheets == Some(SheetsOf(loaded.value))
      ensures files[index].mimeType != XlsxMime || loaded.None? ==> sheets == None
    {
      selectedFileIndex := Some(index);
      sheets := None;
      numPages := None;
      var file := files[index];
      if file.mimeType == XlsxMime {
        if loaded.Some? {
          sheets := Some(SheetsOf(loaded.value));
        }
      }
    }

    /** The PDF engine's load callback: the page count becomes known. */
    method OnDocumentLoadSuccess(n: nat)
      modifies this`numPages
      ensures numPages == Some(n)
    {
      numPages := Some(n);
    }

    /** `selectedFileIndex !== null ? files[selectedFileIndex] : null`. */
    function SelectedFile(): (f: Option<ViewerFile>)
      reads this
      ensures f.Some? <==> selectedFileIndex.Some? && 0 <= selectedFileIndex.value < |files|
      ensures f.Some? ==> f.value == files[selectedFileIndex.value]
    {
      if selectedFileIndex.Some? then FileAt(files, selectedFileIndex.value) else None
    }

    /**
     * What is rendered: the list with exactly the selected entry highlighted,
     * the pages 1..N when the selected file's declared type is
     * `application/pdf`, and the sheet tables when sheets are present.
     */
    function View(): (v: ViewerView)
      reads this
      ensures |v.entries| == |files|
      ensures forall k :: 0 <= k < |files| ==> (v.entries[k].selected <==> selectedFileIndex == Some(k))
      ensures v.pdfPages.Some? <==> SelectedFile().Some? && SelectedFile().value.mimeType == PdfMime
      ensures v.pdfPages.Some? ==> v.pdfPages.value == PageNumbers(numPages)
      ensures v.sheets == sheets
    {
      var selected := SelectedFile();
      var pages := if selected.Some? && selected.value.mimeType == PdfMime then Some(PageNumbers(numPages)) else None;
      ViewerView(FileList(files, selectedFileIndex), pages, sheets)
    }
  }

  /** Before any selection the viewer shows no preview at all. */
  lemma InitiallyNoPreview(v: DocumentViewerComponent)
    requires v.selectedFileIndex == None && v.sheets == None
    ensures v.View().pdfPages == None && v.View().sheets == None
    ensures forall k :: 0 <= k < |v.files| ==> !v.View().entries[k].selected
  {
  }
}
