/**
 * The session held by the top-level `App` component (`App.js`): the document
 * list mirrored from the backend, the selected document, the descriptors
 * given to the preview drawer, and the drawer's visibility and initial index.
 * Each handler is one atomic transition; backend responses are its inputs.
 * A handler reads the selection as it was when the handler started (the value
 * its closure captured), including inside the refresh it triggers.
 */
module Session {
  import opened Wrappers
  import opened Text
  import opened Records
  import opened Preview
  import FileUpload

  const BaseUrl: string := "http://localhost:8000"

  /** `http://localhost:8000/file/${filename}`; the name is inserted as it is. */
  function FileUrl(filename: string): (r: string)
    ensures r == BaseUrl + "/file/" + filename
    ensures EndsWith(r, filename)
  {
    var r := BaseUrl + "/file/" + filename;
    assert r[|r| - |filename|..] == filename;
    r
  }

  /** The declared type guessed from a stored filename: `.pdf` means PDF, anything else XLSX. */
  function TypeFor(filename: string): (t: string)
    ensures t == PdfMime <==> EndsWith(filename, ".pdf")
    ensures t != PdfMime <==> t == XlsxMime
  {
    if EndsWith(filename, ".pdf") then PdfMime else XlsxMime
  }

  /** The URL-backed descriptor built for a stored document. */
  function DescriptorFor(doc: DocumentInfo): (v: ViewerFile)
    ensures v.name == doc.filename && v.locator == Url(FileUrl(doc.filename))
    ensures v.mimeType == TypeFor(doc.filename)
  {
    ViewerFile(doc.filename, Url(FileUrl(doc.filename)), TypeFor(doc.filename))
  }

  /** The descriptor built for a just-uploaded file: URL-backed, name and declared type copied. */
  function UploadedDescriptor(f: FileUpload.UploadFile): (v: ViewerFile)
    ensures v.name == f.name && v.locator == Url(FileUrl(f.name)) && v.mimeType == f.mimeType
  {
    ViewerFile(f.name, Url(FileUrl(f.name)), f.mimeType)
  }

  datatype SessionState = SessionState(
    documents: seq<DocumentInfo>,
    selectedDoc: Option<DocumentInfo>,
    uploadedFiles: seq<ViewerFile>,
    showModal: bool,
    modalFileIndex: int)

  const Initial := SessionState([], None, [], false, 0)

  /** The body of the POST to `/save-edited-data`. */
  datatype SaveRequest = SaveRequest(docId: int, editedData: Record)

  /**
   * `fetchDocuments` with the selection `captured` by the calling handler:
   * the list is replaced wholesale; only when the list is non-empty and
   * nothing was selected is the first document selected and shown. An
   * existing selection is not looked up again in the new list.
   */
  function Refreshed(s: SessionState, fetched: seq<DocumentInfo>, captured: Option<DocumentInfo>): (r: SessionState)
    ensures r.documents == fetched
    ensures r.showModal == s.showModal && r.modalFileIndex == s.modalFileIndex
    ensures |fetched| > 0 && captured.None? ==>
      r.selectedDoc == Some(fetched[0]) && r.uploadedFiles == [DescriptorFor(fetched[0])]
    ensures !(|fetched| > 0 && captured.None?) ==>
      r.selectedDoc == s.selectedDoc && r.uploadedFiles == s.uploadedFiles
  {
    var r := s.(documents := fetched);
    if |fetched| > 0 && captured.None? then
      r.(selectedDoc := Some(fetched[0]), uploadedFiles := [DescriptorFor(fetched[0])])
    else r
  }

  /** A refresh on its own (on mount). */
  function RefreshStep(s: SessionState, fetched: seq<DocumentInfo>): SessionState {
    Refreshed(s, fetched, s.selectedDoc)
  }

  /**
   * `handleUploadSuccess`: refresh with `fetched`, then select the last
   * document of a second listing `latest` (none when it is empty), and show
   * one URL descriptor per uploaded file, in the same order.
   */
  function UploadSuccessStep(s: SessionState, files: seq<FileUpload.UploadFile>,
                             fetched: seq<DocumentInfo>, latest: seq<DocumentInfo>): (r: SessionState)
    ensures r.documents == fetched
    ensures r.selectedDoc == (if |latest| > 0 then Some(latest[|latest| - 1]) else None)
    ensures |r.uploadedFiles| == |files|
    ensures forall k :: 0 <= k < |files| ==>
      (r.uploadedFiles[k].name == files[k].name
       && r.uploadedFiles[k].mimeType == files[k].mimeType
       && r.uploadedFiles[k].locator == Url(FileUrl(files[k].name)))
    ensures r.showModal == s.showModal && r.modalFileIndex == s.modalFileIndex
  {
    var refreshed := RefreshStep(s, fetched);
    refreshed.(
      selectedDoc := if |latest| > 0 then Some(latest[|latest| - 1]) else None,
      uploadedFiles := seq(|files|, k requires 0 <= k < |files| => UploadedDescriptor(files[k])))
  }

  /** The request `handleSave` sends: none without a selection, else the selected id and the edits. */
  function SaveRequestOf(s: SessionState, edited: Record): (r: Option<SaveRequest>)
    ensures r.None? <==> s.selectedDoc.None?
    ensures r.Some? ==> r.value.docId == s.selectedDoc.value.id && r.value.editedData == edited
  {
    if s.selectedDoc.None? then None else Some(SaveRequest(s.selectedDoc.value.id, edited))
  }

  /**
   * `handleSave`'s effect on the session, `accepted` telling whether the
   * backend answered the POST with a success status: nothing without a
   * selection, nothing when the POST is rejected (the rejected promise ends
   * the handler), else a refresh.
   */
  function SaveStep(s: SessionState, accepted: bool, fetched: seq<DocumentInfo>): (r: SessionState)
    ensures s.selectedDoc.None? || !accepted ==> r == s
    ensures s.selectedDoc.Some? && accepted ==> r == s.(documents := fetched)
  {
    if s.selectedDoc.None? || !accepted then s else RefreshStep(s, fetched)
  }

  /** `handleSelectDoc(doc)`: select `doc` and show its one URL descriptor. */
  function SelectStep(s: SessionState, doc: DocumentInfo): (r: SessionState)
    ensures r.selectedDoc == Some(doc)
    ensures |r.uploadedFiles| == 1 && r.uploadedFiles[0].name == doc.filename
    ensures r.uploadedFiles[0].locator == Url(BaseUrl + "/file/" + doc.filename)
    ensures r.uploadedFiles[0].mimeType == PdfMime <==> EndsWith(doc.filename, ".pdf")
    ensures r.uploadedFiles[0].mimeType != PdfMime ==> r.uploadedFiles[0].mimeType == XlsxMime
    ensures r.documents == s.documents && r.showModal == s.showModal && r.modalFileIndex == s.modalFileIndex
  {
    s.(selectedDoc := Some(doc), uploadedFiles := [DescriptorFor(doc)])
  }

  /**
   * `handleDeleteDoc(docId)`: nothing when the confirmation is declined or
   * the backend rejects the DELETE (`accepted` false); otherwise a refresh,
   * after which the selection and the descriptors are cleared when the
   * deleted id is the one selected when the handler started.
   */
  function DeleteStep(s: SessionState, docId: int, confirmed: bool, accepted: bool, fetched: seq<DocumentInfo>): (r: SessionState)
    ensures !confirmed || !accepted ==> r == s
    ensures confirmed && accepted ==>
      r.documents == fetched && r.showModal == s.showModal && r.modalFileIndex == s.modalFileIndex
    ensures confirmed && accepted && s.selectedDoc.Some? && s.selectedDoc.value.id == docId ==>
      r.selectedDoc.None? && r.uploadedFiles == []
    ensures confirmed && accepted && s.selectedDoc.Some? && s.selectedDoc.value.id != docId ==>
      r == s.(documents := fetched)
    ensures confirmed && accepted && s.selectedDoc.None? && |fetched| > 0 ==>
      r.selectedDoc == Some(fetched[0]) && r.uploadedFiles == [DescriptorFor(fetched[0])]
    ensures confirmed && accepted && s.selectedDoc.None? && |fetched| == 0 ==>
      r == s.(documents := fetched)
  {
    if !confirmed || !accepted then s
    else
      var refreshed := Refreshed(s, fetched, s.selectedDoc);
      if s.selectedDoc.Some? && s.selectedDoc.value.id == docId then
        refreshed.(selectedDoc := None, uploadedFiles := [])
      else refreshed
  }

  /** The record given to the form: `edited_data` when set, else `extracted_data`; no form without a selection. */
  function FormDataOf(s: SessionState): (r: Option<Record>)
    ensures r.None? <==> s.selectedDoc.None?
    ensures s.selectedDoc.Some? && s.selectedDoc.value.editedData.Some? ==> r == s.selectedDoc.value.editedData
    ensures s.selectedDoc.Some? && s.selectedDoc.value.editedData.None? ==> r == Some(s.selectedDoc.value.extractedData)
  {
    match s.selectedDoc
    case None => None
    case Some(doc) => Some(doc.editedData.GetOr(doc.extractedData))
  }

  /** Selecting the same document twice gives the same session as selecting it once. */
  lemma SelectIdempotent(s: SessionState, doc: DocumentInfo)
    ensures SelectStep(SelectStep(s, doc), doc) == SelectStep(s, doc)
    ensures FormDataOf(SelectStep(SelectStep(s, doc), doc)) == FormDataOf(SelectStep(s, doc))
  {
  }

  /**
   * Deleting the selected document takes the form away, and it stays away
   * until the next refresh, which selects the first listed document and
   * shows that document's data in the form.
   */
  lemma DeleteSelectedThenRefresh(s: SessionState, fetched: seq<DocumentInfo>, later: seq<DocumentInfo>)
    requires s.selectedDoc.Some? && |later| > 0
    ensures var d := DeleteStep(s, s.selectedDoc.value.id, true, true, fetched);
      FormDataOf(d).None? && d.uploadedFiles == [] && d.documents == fetched
      && RefreshStep(d, later).selectedDoc == Some(later[0])
      && FormDataOf(RefreshStep(d, later)) == Some(later[0].editedData.GetOr(later[0].extractedData))
  {
  }

  /**
   * A refresh does not look the selection up again: after it, the selected
   * document may be absent from the list, or be an outdated copy of a
   * listed document.
   */
  lemma RefreshKeepsStaleSelection(s: SessionState, fetched: seq<DocumentInfo>)
    requires s.selectedDoc.Some? && s.selectedDoc.value !in fetched
    ensures RefreshStep(s, fetched).selectedDoc == s.selectedDoc
    ensures RefreshStep(s, fetched).selectedDoc.value !in RefreshStep(s, fetched).documents
  {
  }

  /** The `App` component's state. */
  class App {
    var documents: seq<DocumentInfo>
    var selectedDoc: Option<DocumentInfo>
    var uploadedFiles: seq<ViewerFile>
    var showModal: bool
    var modalFileIndex: int

    function State(): SessionState
      reads this
    {
      SessionState(documents, selectedDoc, uploadedFiles, showModal, modalFileIndex)
    }

    /** Initial state: nothing listed or selected, drawer closed at index 0. */
    constructor ()
      ensures State() == Initial
    {
      documents, selectedDoc, uploadedFiles, showModal, modalFileIndex := [], None, [], false, 0;
    }

    /** `fetchDocuments` (also what the mount effect runs), given the listing returned. */
    method FetchDocuments(fetched: seq<DocumentInfo>)
      modifies this
      ensures State() == RefreshStep(old(State()), fetched)
    {
      var captured := selectedDoc;
      documents := fetched;
      if |fetched| > 0 && captured.None? {
        selectedDoc := Some(fetched[0]);
        uploadedFiles := [DescriptorFor(fetched[0])];
      }
    }

    /** `handleUploadSuccess(extractedData, files)`, given the two listings it fetches. */
    method HandleUploadSuccess(files: seq<FileUpload.UploadFile>, fetched: seq<DocumentInfo>, latest: seq<DocumentInfo>)
      modifies this
      ensures State() == UploadSuccessStep(old(State()), files, fetched, latest)
    {
      FetchDocuments(fetched);
      selectedDoc := if |latest| > 0 then Some(latest[|latest| - 1]) else None;
      uploadedFiles := seq(|files|, k requires 0 <= k < |files| => UploadedDescriptor(files[k]));
    }

    /**
     * `handleSave(editedData)`: without a selection nothing is sent and
     * nothing changes; otherwise the request is sent, and only when the
     * backend accepts it is the list refreshed with `fetched` and "Changes
     * saved!" shown.
     */
    method HandleSave(edited: Record, accepted: bool, fetched: seq<DocumentInfo>)
      returns (request: Option<SaveRequest>, notice: Option<string>)
      modifies this
      ensures request == SaveRequestOf(old(State()), edited)
      ensures notice == (if request.Some? && accepted then Some("Changes saved!") else None)
      ensures State() == SaveStep(old(State()), accepted, fetched)
    {
      if selectedDoc.None? {
        return None, None;
      }
      request := Some(SaveRequest(selectedDoc.value.id, edited));
      if !accepted {
        return request, None;
      }
      FetchDocuments(fetched);
      notice := Some("Changes saved!");
    }

    /** `handleSelectDoc(doc)`. */
    method HandleSelectDoc(doc: DocumentInfo)
      modifies this
      ensures State() == SelectStep(old(State()), doc)
    {
      selectedDoc := Some(doc);
      uploadedFiles := [DescriptorFor(doc)];
    }

    /**
     * `handleDeleteDoc(docId)`: `confirmed` is the answer to the
     * confirmation prompt; the DELETE is sent only when it is yes, and
     * `accepted` tells whether the backend answered it with a success status.
     */
    method HandleDeleteDoc(docId: int, confirmed: bool, accepted: bool, fetched: seq<DocumentInfo>)
      returns (request: Option<int>)
      modifies this
      ensures request == (if confirmed then Some(docId) else None)
      ensures State() == DeleteStep(old(State()), docId, confirmed, accepted, fetched)
    {
      if !confirmed {
        return None;
      }
      request := Some(docId);
      if !accepted {
        return request;
      }
      var captured := selectedDoc;
      documents := fetched;
      if |fetched| > 0 && captured.None? {
        selectedDoc := Some(fetched[0]);
        uploadedFiles := [DescriptorFor(fetched[0])];
      }
      if captured.Some? && captured.value.id == docId {
        selectedDoc := None;
        uploadedFiles := [];
      }
    }

    /** The upload list's `onFileClick(idx)`: open the drawer at `idx`. */
    method FileClick(idx: int)
      modifies this`modalFileIndex, this`showModal
      ensures modalFileIndex == idx && showModal
    {
      modalFileIndex := idx;
      showModal := true;
    }

    /** "View Document": open the drawer at the current index. */
    method ViewDocument()
      modifies this`showModal
      ensures showModal
    {
      showModal := true;
    }

    /** The drawer's `onClose`. */
    method CloseModal()
      modifies this`showModal
      ensures !showModal
    {
      showModal := false;
    }
  }
}
