# Shipment document processor — a Dafny model

This project models a small web application for shipment documents.

**Backend (FastAPI, Python):**
- **Upload:** users upload PDF and Excel (`.xlsx`) files. The server saves each file to its upload directory and extracts the file's text. It sends that text to a language model with a fixed JSON schema, strips Markdown fences from the reply and parses it. Each document is stored as a row of a SQLite `documents` table.
- **Edit and delete:** edited data can be saved back. Documents can be listed, fetched and deleted, and uploaded files are served back.

**Frontend (React):**
- a drop zone that queues files (de-duplicated by name + size) and posts them;
- a form that edits the extracted fields and the line items;
- two viewers that list files and render a PDF's pages or a workbook's sheets;
- the `App` component, which keeps the session: the document list, the selected document, the files shown in the viewer and the modal's state.

**Evaluation:** a script compares extracted fields with expected ones and computes accuracy, precision, recall and F1.

## How the model is built

- Components whose state changes in place become classes. These are `Routes.DocumentStore` (the table and the upload directory), `Session.App`, and the `FileUpload`, `EditableForm`, `DocumentModal` and `DocumentViewer` components.
- Each class method is proved to move the state exactly as a pure step function says: `UploadStep`, `SaveStep`, `DeleteStep`, `RefreshStep`, `SelectStep`, and so on. The properties the application promises are then proved about those functions as lemmas.
- Loops in the source are methods with loops and invariants, each proved against a specification function:
  - the per-file upload loop (`Routes.UploadFiles`);
  - the sheet and row loops of `extract_text_from_xlsx`;
  - the path loop of `process_documents`;
  - the field loop of `evaluate_results`;
  - building the multipart form.
- Things outside the program are inputs:
  - the model's reply (`complete`);
  - the JSON parser (`parse`);
  - the PDF text extractor and workbook loader, applied to a file's bytes (`Readers`);
  - server replies in the frontend;
  - the clock (`now`);
  - `window.confirm`.

| file | models |
|---|---|
| `wrappers.dfy` | `Option` / `Result` |
| `text.dfy` | Python `str.strip`, `lower`, `endswith`, `"sep".join`, decimal formatting |
| `records.dfy` | the extracted shipment record and its line items |
| `preview.dfy` | the viewer file descriptor, sheet tables, page numbering, file list |
| `document_processor.dfy` | `app/services/document_processor.py` |
| `llm_service.dfy` | `app/services/llm_service.py` |
| `routes.dfy` | `app/api/routes.py` (with `app/core/database.py` and `app/core/config.py`) |
| `evaluation.dfy` | `evaluate_results` in `evaluation.py` |
| `file_upload.dfy` | `frontend/src/components/FileUpload.jsx` |
| `editable_form.dfy` | `frontend/src/components/EditableForm.jsx` |
| `document_modal.dfy` | `frontend/src/components/DocumentModal.jsx` |
| `document_viewer.dfy` | `frontend/src/components/DocumentViewer.jsx` |
| `session.dfy` | `frontend/src/App.js` |

### Where the code was followed over its description

- **Stale selection after refresh:** `fetchDocuments` selects the first document only when nothing is selected. It never drops a selection that has disappeared from the fetched list (`Session.RefreshKeepsStaleSelection`).
- **Selection after upload:** `handleUploadSuccess` fetches twice. The selection is the last document of the second fetch, and the viewer files are the uploaded batch, not the selected document.
- **Form reset:** `EditableForm` resets its values and items whenever `data` changes, discarding unsaved edits.
- **Modal selection:** clicking a file in `DocumentModal` changes only the selection. The sheet and page state is reset only when `initialFileIndex` or `open` change, and sheets are reloaded by the effect.
- **Blank rows:** a workbook row is dropped when its tab-joined text is blank after `strip()`, not only when all its cells are empty.
- **Save with `doc_id` 0:** `save_edited_data` refuses a `doc_id` of `0` as missing, because `0` is falsy.
- **Pre-check of file types:** an upload is not checked before work starts. Files are saved and committed one by one, so an invalid file part-way through leaves the earlier files stored while the request fails (`Routes.UploadPartialCommit`).
- **`DocumentViewer` sheet check:** it tests only the MIME type. `DocumentModal` also accepts a name ending in `.xlsx`.

## Model

| member | source | states |
|---|---|---|
| Text.SkipSpaces | app/services/llm_service.py:49 | the index reached skips exactly the leading run of Python whitespace |
| Text.SkipSpacesBack | app/services/llm_service.py:49 | the index reached skips exactly the trailing run of Python whitespace, never passing the lower bound |
| Text.Strip | app/services/llm_service.py:49 | `str.strip()`: the result is empty or starts and ends with a non-space, and the input is that result with only Python whitespace before and after it |
| Text.StripEmptyIffBlank | app/services/document_processor.py:23 | `s.strip()` is empty exactly when every character of `s` is whitespace (the row test) |
| Text.StripUnchanged | app/services/llm_service.py:49 | a string with no surrounding whitespace is left as it is |
| Text.StripIdempotent | app/services/llm_service.py:49 | stripping twice is stripping once |
| Text.AsciiLower | app/api/routes.py:35 | `lower()` keeps the length and lowers each letter independently |
| Text.LowerChar | app/api/routes.py:35 | an upper-case ASCII letter becomes its lower-case letter (code point plus 32); every other character is kept |
| Text.Digit | app/services/document_processor.py:43 | a digit below ten becomes the character with that value |
| Text.NatToString | app/services/document_processor.py:43 | the decimal text of `i` is non-empty, all digits, one digit exactly below ten, and ends in `i % 10` |
| Text.NatToStringInjective | app/services/document_processor.py:43 | different indices give different decimal texts |
| Records.LineItem.With | frontend/src/components/EditableForm.jsx:31 | `{ ...item, [field]: value }` sets that field and keeps every other field |
| Preview.SheetsOf | frontend/src/components/DocumentModal.jsx:34-41 | one sheet table per sheet name, in workbook order, each holding that sheet's rows |
| Preview.PageNumbers | frontend/src/components/DocumentModal.jsx:89-96 | pages are numbered 1..n consecutively; with `numPages` still null one page slot is rendered |
| Preview.FileAt | frontend/src/components/DocumentModal.jsx:66 | `files[i]` is defined exactly for an index in range, and is that file |
| Preview.FileList | frontend/src/components/DocumentModal.jsx:76-84 | one entry per file, with its name, marked selected exactly at the selected index |
| DocumentProcessor.LastIndexOf | app/services/document_processor.py:42 | the found position holds the searched character, or there is none (-1) |
| DocumentProcessor.LastIndexOfIsLast | app/services/document_processor.py:42 | no occurrence of the character lies after the found one |
| DocumentProcessor.Ext | app/services/document_processor.py:42 | `os.path.splitext(path)[1]`: a suffix of the path that is empty or a dot followed by no dot and no slash, with a non-dot before it in the same component; empty only when every dot of the last component has only dots before it in that component |
| DocumentProcessor.ExtExamples | app/services/document_processor.py:42 | `a.pdf` → `.pdf`, case kept before lowering, a leading-dot name or a dot in a directory name gives no extension |
| DocumentProcessor.ExtractTextFromXlsx | app/services/document_processor.py:6-26 | the nested sheet/row loop produces the sheet-by-sheet text of the workbook |
| DocumentProcessor.AppendRows | app/services/document_processor.py:21-24 | the row loop of one sheet appends exactly the kept row lines the sheet specification gives, in row order |
| DocumentProcessor.SheetProgressSpec | app/services/document_processor.py:18-25 | mid-loop, the text is the earlier sheets, this sheet's header and the non-blank rows read so far |
| DocumentProcessor.WorkbookTextBySheet | app/services/document_processor.py:18-25 | the workbook text is the concatenation of each sheet's text in sheet order |
| DocumentProcessor.SheetTextShape | app/services/document_processor.py:20-25 | each sheet's text starts with `Sheet: <name>` and a newline, and ends with a newline |
| DocumentProcessor.EmptyRowOmitted | app/services/document_processor.py:22-24 | a row of empty cells contributes nothing |
| DocumentProcessor.JoinOfBlanks | app/services/document_processor.py:22-23 | tab-joining empty cell texts gives a blank line |
| DocumentProcessor.RowTextExample | app/services/document_processor.py:22 | cells are joined by tabs: `Sample`, `Data` → `Sample\tData` |
| DocumentProcessor.RowText | app/services/document_processor.py:22 | a row's line: cell texts, an empty cell giving the empty text, joined by tabs; `RowTextExample` pins the separator and `EmptyRowOmitted` the empty-cell case |
| DocumentProcessor.RowLine | app/services/document_processor.py:22-24 | what a row adds: its line and a newline, or nothing for a blank line; `EmptyRowOmitted` proves that an all-empty row adds nothing |
| DocumentProcessor.SheetText | app/services/document_processor.py:20-25 | one sheet's text: header, kept row lines in row order, closing newline; `SheetTextShape` proves the header and the final newline |
| DocumentProcessor.WorkbookText | app/services/document_processor.py:16-26 | the text of the first sheets; `WorkbookTextBySheet` proves it is the sheets' texts concatenated in workbook order, and `ExtractTextFromXlsx` that the loop returns it for all sheets |
| DocumentProcessor.ProcessDocuments | app/services/document_processor.py:29-49 | the path loop yields exactly the entries of the specification function, in path order |
| DocumentProcessor.GatherAtMostOnePerPath | app/services/document_processor.py:41-47 | at most one entry per path |
| DocumentProcessor.GatherExactly | app/services/document_processor.py:41-47 | every handled path has its entry, and every entry comes from a handled path |
| DocumentProcessor.GatherDistinct | app/services/document_processor.py:41-47 | distinct per-path values stay distinct in the result |
| DocumentProcessor.GatherMap | app/services/document_processor.py:41-47 | mapping every per-path value maps the gathered result element by element |
| DocumentProcessor.EntriesKeys | app/services/document_processor.py:43-47 | the result's keys, in order, are the keys of the `.pdf`/`.xlsx` paths |
| DocumentProcessor.EntriesTexts | app/services/document_processor.py:44-47 | each entry's text is read from its own path's bytes, by the reader its lowered extension selects |
| DocumentProcessor.EntriesOfOne | app/services/document_processor.py:41-47 | one path yields one entry, keyed `document_0` plus its extension and holding the text of that path's bytes, when the extension is handled, and nothing otherwise |
| DocumentProcessor.KeyListExactly | app/services/document_processor.py:41-47 | a key is present exactly when some handled path at that index produced it; no more keys than paths |
| DocumentProcessor.KeyListDistinct | app/services/document_processor.py:43 | no two paths produce the same key |
| DocumentProcessor.KeyForOf | app/services/document_processor.py:42-43 | the key of a handled path is `document_<i><ext>` with the lowered extension |
| DocumentProcessor.KeyForIndex | app/services/document_processor.py:43 | the index in a key is the position of its path in the input |
| DocumentProcessor.KeyFor | app/services/document_processor.py:42-43 | the key of path `i`, none for an unhandled extension; `KeyForOf` proves it is `document_<i><ext>` with the lowered extension, and `KeyForIndex` that the index reads back |
| DocumentProcessor.Entries | app/services/document_processor.py:39-49 | the returned dictionary as an ordered list; `EntriesKeys`, `EntriesTexts` and `EntriesOfOne` state its keys and texts, and `ProcessDocuments` that the loop returns it |
| DocumentProcessor.KeyScheme | app/services/document_processor.py:41-47 | `["a.pdf", "b.XLSX"]` gives keys `document_0.pdf` and `document_1.xlsx` |
| DocumentProcessor.SkippedPathKeepsPosition | app/services/document_processor.py:41-47 | an unsupported path is skipped but still counts: the next key uses index 1 |
| DocumentProcessor.DigitRun | app/services/document_processor.py:43 | the leading digit run fits in the string |
| DocumentProcessor.DigitsThenNonDigit | app/services/document_processor.py:43 | the leading digit run of digits followed by a non-digit is exactly those digits |
| DocumentProcessor.DigitsValueOfNatToString | app/services/document_processor.py:43 | reading back the decimal text of `i` gives `i` |
| DocumentProcessor.KeyIndexOfEntryKey | app/services/document_processor.py:43 | the key `document_<i><ext>` decodes back to `i` when the extension does not start with a digit |
| LlmService.RequestShape | app/services/llm_service.py:20-43 | the request uses the fixed model, token limit and system prompt, and the user prompt is the schema instruction followed by the document text |
| LlmService.StripFences | app/services/llm_service.py:49 | the stripped reply is the result with the opening fence before it exactly when it starts with one, and the closing fence after it exactly when it ends with one |
| LlmService.FencesApart | app/services/llm_service.py:49 | a stripped reply with both fences is long enough to hold them without overlap |
| LlmService.StripFencesUnwraps | app/services/llm_service.py:49 | a reply that is a `json` fence around a body gives back that body |
| LlmService.StripFencesIgnoresSpace | app/services/llm_service.py:49 | whitespace around the reply does not matter |
| LlmService.UntaggedFenceKept | app/services/llm_service.py:49 | an opening fence without `json` is kept; only the closing fence goes |
| LlmService.BareCloserRemoved | app/services/llm_service.py:49 | a reply that is just a closing fence becomes empty |
| LlmService.ExtractDataFromDocument | app/services/llm_service.py:9-56 | the result is the parse of the cleaned reply to the document's request, or the fixed error record when that does not parse |
| LlmService.ExtractFencedReply | app/services/llm_service.py:49-56 | a reply that is a `json` fence around a body (after trimming) yields the parse of that body, or the error record |
| LlmService.ExtractUnfencedReply | app/services/llm_service.py:49-56 | a reply with neither fence yields the parse of the trimmed reply, or the error record |
| Routes.FilePath | app/api/routes.py:39 | `os.path.join(UPLOAD_DIR, filename)`; its partner `FilePathSpec` proves the properties in the next row |
| Routes.FilePathSpec | app/api/routes.py:39 | the saved path ends with the filename, and equals it exactly when the filename is absolute |
| Routes.MaxId | app/core/database.py:20 | every row id is at most the largest id, which is 0 for an empty table |
| Routes.MaxIdAttained | app/core/database.py:20 | the largest id of a non-empty table is the id of one of its rows |
| Routes.NextId | app/core/database.py:20 | a new row's id is positive and exceeds every existing id |
| Routes.NextIdExact | app/core/database.py:20 | the new id is 1 for an empty table and otherwise one more than an id the table holds |
| Routes.Allowed | app/api/routes.py:35 | a filename is accepted exactly when its lower-cased form ends in `.pdf` or `.xlsx` |
| Routes.EndsWithEither | app/api/routes.py:35 | `endswith` with a tuple of two suffixes holds exactly when one of them ends the text |
| Routes.FindDoc | app/api/routes.py:72-74 | the query finds a row with that id, or reports none exactly when no row has it |
| Routes.Listing | app/api/routes.py:79-92 | one entry per row in table order, without the file path; `UploadListed` states what it shows after an upload |
| Routes.Lookup | app/api/routes.py:94-106 | a fetch is refused with `404 Document not found` exactly when no row has the id, and otherwise returns an entry with that id |
| Routes.LookupFinds | app/api/routes.py:94-106 | in a table in id order, fetching a listed id returns that row's own entry |
| Routes.ServeFile | app/api/routes.py:108-113 | the bytes stored at the joined path, or `404 File not found`; `UploadServed` states what it serves after an upload |
| Routes.AcceptedCount | app/api/routes.py:34-36 | the leading files all have an allowed ending and the next one, if any, does not |
| Routes.Inserted | app/api/routes.py:51-59 | each accepted file adds one row |
| Routes.InsertedSpec | app/api/routes.py:51-60 | existing rows are kept; new rows follow in file order with consecutive ids, their file's name, path, time, the data extracted from that path and its bytes, and no edit |
| Routes.InsertedIncreasing | app/api/routes.py:57-59 | inserting keeps the ids strictly increasing, hence unique |
| Routes.WrittenKeys | app/api/routes.py:39-42 | the directory after saving holds exactly the old files and the saved paths |
| Routes.WrittenLatest | app/api/routes.py:39-42 | a saved path holds the content of the last file saved under it |
| Routes.WrittenUntouched | app/api/routes.py:39-42 | files under other paths keep their content |
| Routes.ExtractedByNameKeys | app/api/routes.py:48 | the reply's `extracted_data` has exactly the uploaded filenames as keys |
| Routes.ExtractedByNameValues | app/api/routes.py:44-48 | each filename maps to the data extracted from its saved path and its own bytes, the last duplicate winning |
| Routes.UploadOneMore | app/api/routes.py:34-60 | one loop iteration adds one row, one saved file and one extracted entry |
| Routes.UploadEnds | app/api/routes.py:34-62 | the request ends at the first disallowed file with `400 Invalid file type`, or after all files with the ids and data |
| Routes.IdsFromAppend | app/api/routes.py:60 | `doc_ids.append(doc.id)` extends the id list by the new row's id |
| Routes.UploadPartialCommit | app/api/routes.py:34-60 | the files before a rejected one stay committed and the ids stay increasing |
| Routes.UploadIds | app/api/routes.py:51-62 | an upload of only allowed files returns one new, consecutive id per file |
| Routes.UploadStep | app/api/routes.py:23-62 | the reply is a success exactly when the request is non-empty and every file is allowed; every refusal is a 400; an empty request changes nothing |
| Routes.InsertedListed | app/api/routes.py:51-60 | listing a table with new rows shows the old entries first, then one entry per file with its consecutive id, its name and no edit |
| Routes.UploadListed | app/api/routes.py:51-92 | after an accepted upload, the listing is the old listing followed by the new documents in file order, under the ids the reply returned |
| Routes.UploadServed | app/api/routes.py:38-42 | after an accepted upload, fetching an uploaded filename serves the bytes of the last file sent under that name |
| Routes.SaveStep | app/api/routes.py:64-77 | a save never touches the directory, never adds, removes or renames a row or changes its extracted data, and a refused save changes nothing |
| Routes.SaveSpec | app/api/routes.py:64-77 | falsy `doc_id` or missing data gives 400; an unknown id gives 404; a valid request for a listed id is answered `Data saved!`, exactly that row's edited data changes and a fetch shows it |
| Routes.DeleteStep | app/api/routes.py:115-126 | a delete is refused with `404 Document not found`, changing nothing, exactly when no row has the id; otherwise one row goes and no file is added |
| Routes.DeleteMissing | app/api/routes.py:118-120 | deleting an unknown id is a 404 that changes nothing |
| Routes.DeleteRemoves | app/api/routes.py:115-126 | deleting removes exactly that row, keeping the others in order, and removes its file from the directory, every other file keeping its bytes |
| Routes.DeleteForgets | app/api/routes.py:94-99 | after a delete the id is gone and fetching it gives 404, while every other row is still there |
| Routes.ExtractFile | app/api/routes.py:45-47 | extraction of a saved file reads the bytes stored at its path and yields the data the extraction function gives for that path and those bytes |
| Routes.UploadFiles | app/api/routes.py:23-62 | the upload loop, which writes each file and then extracts it from the directory, returns the reply, table and directory of the upload specification |
| Routes.DocumentStore.constructor | app/core/database.py:18-25 | the store starts with an empty table and an empty directory |
| Routes.DocumentStore.UploadDocuments | app/api/routes.py:23-62 | the store moves exactly as the upload specification says |
| Routes.DocumentStore.SaveEditedData | app/api/routes.py:64-77 | the store moves exactly as the save specification says |
| Routes.DocumentStore.DeleteDocument | app/api/routes.py:115-126 | the store moves exactly as the delete specification says |
| Evaluation.Get | evaluation.py:16-17 | a lookup fails exactly when no pair has the key, and otherwise returns a stored value |
| Evaluation.GetMember | evaluation.py:16 | with distinct keys, looking up a stored key gives its own value |
| Evaluation.MatchesIffMember | evaluation.py:16 | a field matches exactly when the actual data holds that same key and value |
| Evaluation.Count | evaluation.py:18-19 | the matched count never exceeds the number of fields |
| Evaluation.CountAllIff | evaluation.py:18-19 | every field is counted exactly when every field satisfies the test |
| Evaluation.EvaluateResults | evaluation.py:6-34 | the loop's details, accuracy, precision, recall and F1 are those of the specification functions |
| Evaluation.DetailsSpec | evaluation.py:14-17 | one detail row per expected field, in order, with its expected value, the actual lookup and the match verdict |
| Evaluation.DetailsRows | evaluation.py:14-17 | the i-th detail row is built from the i-th expected field |
| Evaluation.KeySetSize | evaluation.py:24 | a dictionary with distinct keys has as many keys as entries |
| Evaluation.KeysWhereSnoc | evaluation.py:14-19 | adding a field adds its key to the matched keys exactly when it matches |
| Evaluation.KeysWhereSize | evaluation.py:18-19 | the number of matched fields is the number of matched keys |
| Evaluation.MatchedAreKeys | evaluation.py:16 | every matched field is a key of the actual data |
| Evaluation.SubsetSize | evaluation.py:24 | a subset is no larger than its superset |
| Evaluation.CorrectAtMostActual | evaluation.py:24 | correct fields never exceed the actual fields, so precision is at most 1 |
| Evaluation.RatioBounds | evaluation.py:21-25 | each guarded ratio lies in [0,1] and is 1 exactly when all are correct |
| Evaluation.PartOfWhole | evaluation.py:21-25 | a part over its whole lies in [0,1] |
| Evaluation.NonnegativeProduct | evaluation.py:26 | the product of two scores is non-negative |
| Evaluation.ProductAtMostMean | evaluation.py:26 | 2·p·r lies between 0 and p + r for scores in [0,1] |
| Evaluation.F1Bounds | evaluation.py:26 | F1 lies in [0,1] and is 1 when precision and recall are 1 |
| Evaluation.MetricsBounded | evaluation.py:21-26 | precision, recall and F1 all lie in [0,1]; empty expected gives recall 0 and empty actual gives precision 0 |
| Evaluation.PerfectAccuracyIff | evaluation.py:14-21 | accuracy is 1 exactly when every expected field matches |
| Evaluation.IdenticalScoresOne | evaluation.py:14-26 | comparing a non-empty dictionary with itself scores accuracy and F1 of 1 |
| FileUpload.Keys | frontend/src/components/FileUpload.jsx:16 | the dedup key of each file is `name + size`, in order |
| FileUpload.Key | frontend/src/components/FileUpload.jsx:16 | the dedup key `name + size`; `KeyCollision` proves two different files can share it |
| FileUpload.KeysAppend | frontend/src/components/FileUpload.jsx:13 | appending a file appends its key |
| FileUpload.FindKey | frontend/src/components/FileUpload.jsx:16 | the `Map` lookup finds the entry with that key, or the key is absent |
| FileUpload.FirstIndex | frontend/src/components/FileUpload.jsx:16 | the first position holding a key |
| FileUpload.Dedup | frontend/src/components/FileUpload.jsx:15-17 | `Array.from(new Map(...).values())`; the `Dedup…` lemmas below state its meaning |
| FileUpload.Merge | frontend/src/components/FileUpload.jsx:12-19 | the merged queue has no two files with the same key and holds exactly the keys of the old queue and of the drop |
| FileUpload.MapSetFacts | frontend/src/components/FileUpload.jsx:16 | `Map.set` on a present key keeps the key order; on a new key it appends; keys stay distinct |
| FileUpload.MapSetAt | frontend/src/components/FileUpload.jsx:16 | after `Map.set`, the entry under the new key is the new file and the others are unchanged |
| FileUpload.DedupDistinct | frontend/src/components/FileUpload.jsx:15-17 | the de-duplicated list has no two files with the same name + size |
| FileUpload.DedupKeySet | frontend/src/components/FileUpload.jsx:15-17 | no key is lost or invented by de-duplication |
| FileUpload.DedupLastSeen | frontend/src/components/FileUpload.jsx:15-17 | each kept file is the last occurrence of its key |
| FileUpload.LastSeenWitness | frontend/src/components/FileUpload.jsx:15-17 | names the last occurrence that a kept file comes from |
| FileUpload.FirstIndexPrefix | frontend/src/components/FileUpload.jsx:13 | appending does not move a key's first position |
| FileUpload.DedupFirstSeenOrder | frontend/src/components/FileUpload.jsx:15-17 | kept files are ordered by the first appearance of their keys |
| FileUpload.DedupOfDistinct | frontend/src/components/FileUpload.jsx:15-17 | a list with distinct keys is unchanged |
| FileUpload.DedupIdempotent | frontend/src/components/FileUpload.jsx:15-17 | de-duplicating twice equals de-duplicating once |
| FileUpload.RedropKeepsKeys | frontend/src/components/FileUpload.jsx:12-19 | re-dropping files already queued keeps the queue's size and key order |
| FileUpload.KeyCollision | frontend/src/components/FileUpload.jsx:16 | `a1` of size 23 and `a12` of size 3 share the key `a123`, so one of them is dropped |
| FileUpload.ErrorMessage | frontend/src/components/FileUpload.jsx:41-44 | the alert is the prefix plus the server's detail when it is non-empty, else the error's message |
| FileUpload.BuildFormData | frontend/src/components/FileUpload.jsx:25-28 | one `files` part per queued file, in order |
| FileUpload.FileUploadComponent.constructor | frontend/src/components/FileUpload.jsx:6-7 | not uploading, empty queue |
| FileUpload.FileUploadComponent.BeginDrop | frontend/src/components/FileUpload.jsx:9-28 | the queue becomes the de-duplicated old queue plus the drop, and exactly that queue is posted |
| FileUpload.FileUploadComponent.FinishDrop | frontend/src/components/FileUpload.jsx:30-47 | success notifies the parent with the extracted data and the posted files; failure alerts; uploading ends either way |
| EditableForm.ItemsOf | frontend/src/components/EditableForm.jsx:8-10 | the items are the record's list, or empty when it has none |
| EditableForm.ChangeItem | frontend/src/components/EditableForm.jsx:29-33 | only the chosen field of the chosen item changes; an out-of-range index changes nothing |
| EditableForm.AddItem | frontend/src/components/EditableForm.jsx:34-39 | a blank item is appended after the existing ones |
| EditableForm.RemoveItem | frontend/src/components/EditableForm.jsx:40-42 | `filter((_, i) => i !== idx)`; `RemoveItemSpec` proves what it removes |
| EditableForm.RemoveItemSpec | frontend/src/components/EditableForm.jsx:40-42 | exactly the item at the index is removed; an out-of-range index changes nothing |
| EditableForm.EditableFormComponent.constructor | frontend/src/components/EditableForm.jsx:5-10 | the form starts from the record's values and items |
| EditableForm.EditableFormComponent.DataChanged | frontend/src/components/EditableForm.jsx:12-20 | new data resets the values and the items, discarding edits |
| EditableForm.EditableFormComponent.EditField | frontend/src/components/EditableForm.jsx:140-207 | editing a registered field changes that value only |
| EditableForm.EditableFormComponent.HandleItemChange | frontend/src/components/EditableForm.jsx:29-33 | the items change as `ChangeItem` says; the field values are kept |
| EditableForm.EditableFormComponent.HandleAddItem | frontend/src/components/EditableForm.jsx:34-39 | the items gain a blank item; the field values are kept |
| EditableForm.EditableFormComponent.HandleRemoveItem | frontend/src/components/EditableForm.jsx:40-42 | the item at the index is removed; the field values are kept |
| EditableForm.EditableFormComponent.Submit | frontend/src/components/EditableForm.jsx:22-26 | with a save handler, the saved record is the field values with the current items; without one nothing is saved |
| DocumentModal.DocumentModalComponent.constructor | frontend/src/components/DocumentModal.jsx:7-11 | the selection starts at the initial index with no sheets and no page count |
| DocumentModal.IsSpreadsheet | frontend/src/components/DocumentModal.jsx:22-26 | the drawer's spreadsheet test: the XLSX type, or a non-empty name ending in `.xlsx`; `SpreadsheetByName` shows where it differs from the other tests |
| DocumentModal.SpreadsheetByName | frontend/src/components/DocumentModal.jsx:22-26 | `b.xlsx` with no declared type is a spreadsheet here though its type is not the XLSX type; `B.XLSX` with no type is not, though the backend accepts that name |
| DocumentModal.DocumentModalComponent.ReceiveProps | frontend/src/components/DocumentModal.jsx:13-17 | a change of `open` or of the initial index resets selection, sheets and pages; otherwise they are kept |
| DocumentModal.DocumentModalComponent.LoadPreview | frontend/src/components/DocumentModal.jsx:19-58 | when open, a selected spreadsheet (by MIME type or `.xlsx` name) shows its loaded sheets, and anything else clears them |
| DocumentModal.DocumentModalComponent.OnDocumentLoadSuccess | frontend/src/components/DocumentModal.jsx:60-62 | the page count is recorded |
| DocumentModal.DocumentModalComponent.SelectFile | frontend/src/components/DocumentModal.jsx:80 | the clicked index becomes the selection |
| DocumentModal.DocumentModalComponent.View | frontend/src/components/DocumentModal.jsx:64-124 | nothing renders when closed; otherwise the file list marks the selection, PDF pages show exactly for a selected PDF, and the sheets are shown |
| DocumentViewer.DocumentViewerComponent.constructor | frontend/src/components/DocumentViewer.jsx:7-10 | nothing is selected, no sheets, no page count |
| DocumentViewer.DocumentViewerComponent.HandleSelectFile | frontend/src/components/DocumentViewer.jsx:12-38 | selecting resets pages; sheets load only for the exact spreadsheet MIME type |
| DocumentViewer.DocumentViewerComponent.OnDocumentLoadSuccess | frontend/src/components/DocumentViewer.jsx:40-42 | the page count is recorded |
| DocumentViewer.DocumentViewerComponent.SelectedFile | frontend/src/components/DocumentViewer.jsx:44-45 | the selected file exists exactly when an in-range index is selected |
| DocumentViewer.DocumentViewerComponent.View | frontend/src/components/DocumentViewer.jsx:47-99 | one list entry per file, selected exactly at the selection; PDF pages exactly for a selected PDF; the sheets are shown |
| DocumentViewer.InitiallyNoPreview | frontend/src/components/DocumentViewer.jsx:8-9 | before any click no entry is selected and no preview is shown |
| Session.FileUrl | frontend/src/App.js:28 | the file URL is the server's `/file/` route followed by the filename |
| Session.TypeFor | frontend/src/App.js:29-31 | a `.pdf` name gets the PDF type and any other name the spreadsheet type |
| Session.DescriptorFor | frontend/src/App.js:26-32 | a stored document is viewed by its name, file URL and type from its name |
| Session.UploadedDescriptor | frontend/src/App.js:45-49 | an uploaded file is viewed by its name, file URL and its own type |
| Session.Refreshed | frontend/src/App.js:20-35 | the list is replaced; the first document is selected only when nothing was selected |
| Session.RefreshStep | frontend/src/App.js:16-35 | the mount refresh, with the current selection captured; `RefreshKeepsStaleSelection` proves it keeps a selection that is no longer listed |
| Session.UploadSuccessStep | frontend/src/App.js:38-51 | the list is the first fetch, the selection the last document of the second fetch, and the viewer files the uploaded batch in order |
| Session.SaveRequestOf | frontend/src/App.js:54-59 | a save is posted exactly when a document is selected, with its id and the edited data |
| Session.SaveStep | frontend/src/App.js:54-62 | without a selection, or when the backend rejects the save, nothing happens; otherwise only the list is refreshed |
| Session.SelectStep | frontend/src/App.js:65-76 | the clicked document is selected and becomes the only viewer file, typed by its name |
| Session.DeleteStep | frontend/src/App.js:78-87 | a declined confirm or a rejected delete changes nothing; otherwise the list is refreshed and the drawer is untouched; the selection is cleared when the deleted document was selected, kept when another was, and with none selected the first listed document becomes selected |
| Session.FormDataOf | frontend/src/App.js:146-160 | the form shows the edited data when present, else the extracted data, and nothing without a selection |
| Session.SelectIdempotent | frontend/src/App.js:65-76 | selecting the same document twice is selecting it once |
| Session.DeleteSelectedThenRefresh | frontend/src/App.js:78-87 | deleting the selected document removes the form until the next refresh, which selects the first listed document and shows its data in the form |
| Session.RefreshKeepsStaleSelection | frontend/src/App.js:23 | a selection missing from the fetched list survives a refresh |
| Session.App.constructor | frontend/src/App.js:9-13 | empty list, no selection, no viewer files, modal closed at index 0 |
| Session.App.FetchDocuments | frontend/src/App.js:20-35 | the state moves as the refresh step says |
| Session.App.HandleUploadSuccess | frontend/src/App.js:38-51 | the state moves as the upload-success step says |
| Session.App.HandleSave | frontend/src/App.js:54-62 | posts the save request exactly when a document is selected, announces `Changes saved!` only when the backend accepted it, and moves as the save step says |
| Session.App.HandleSelectDoc | frontend/src/App.js:65-76 | the state moves as the select step says |
| Session.App.HandleDeleteDoc | frontend/src/App.js:78-87 | sends the delete exactly when confirmed, and moves as the delete step says for the backend's answer |
| Session.App.FileClick | frontend/src/App.js:106-109 | the modal opens at the clicked file |
| Session.App.ViewDocument | frontend/src/App.js:151 | the modal opens |
| Session.App.CloseModal | frontend/src/App.js:164 | the modal closes |

## Left out

- Network and I/O are inputs. Server replies, the model's reply, `window.confirm`, the clock and file reading are parameters. `alert` and `console.error` become returned values or are dropped.
- Concurrency is not modelled. `async` handlers are taken to run to completion one at a time, so races between overlapping requests or fetches are out of scope.
- The PDF text extractor (`app/utils/pdf_utils.py` is not part of this model) and the `openpyxl`/SheetJS workbook readers are parameters. A workbook is a list of sheet names and rows of optional cell texts; cell-to-text conversion (`str(cell)`) is done by the reader.
- JSON parsing and the language model client are parameters. Extracted data is a record of string fields and optional line items, so JSON number and nested types are not modelled.
- The absolute prefix of `UPLOAD_DIR` is not modelled. It is the relative constant `app/uploads`, and paths are strings.
- The upload directory is a map from path to bytes. `FileResponse`, file modes and file-system errors are not modelled.
- The database is a sequence of rows. SQLAlchemy sessions, transactions and an id of a row deleted at the end being reused are modelled only through `NextId` (the largest id plus one, as SQLite's default rowid picks).
- `Routes.MaxId`: its own contract gives the bound and the empty case. That the largest id belongs to a row is `Routes.MaxIdAttained`; it is kept apart for the same reason as for `NextId` below.
- `Routes.NextId`: its own contract gives only the bounds (positive, above every id). The exact value, 1 for an empty table and otherwise the largest id plus one, is `Routes.NextIdExact`; it is kept apart so that proofs which unfold `NextId` stay small.
- `Routes.DocumentStore.UploadDocuments`: one `now` is used for every row of a request, not one per commit.
- `Routes.UploadFiles`: extraction is total here. In the source, the PDF or workbook reader, the model client or `response.content[0]` can raise after a file is written and before its row is committed; the request then fails with a 500, the earlier files staying committed and the current one written. A failing write is not modelled either.
- `Session.App.FetchDocuments`: a failed `GET /documents` is not modelled. The listing is always an input, so a handler whose refresh fails (which then skips the `Changes saved!` notice or the selection clearing) is outside the model; a rejected save or delete is modelled.
- `Routes.DocumentStore.GetDocuments`, `GetDocument` and `GetFile` are plain reads of the table and directory through `Routes.Listing`, `Routes.Lookup` and `Routes.ServeFile`. `FileResponse` headers and streaming are not modelled.
- `Routes.SaveStep` takes `doc_id` already decoded. A non-integer `doc_id` in the JSON body is outside the model.
- `Text.AsciiLower`: `str.lower()` lowers only ASCII letters here; other Unicode case mappings are not modelled.
- `Evaluation.EvaluateResults`: scores are exact reals, so floating-point rounding of the ratios is not modelled. A missing actual value is `None` rather than the text `Missing`. The `main` routine of `evaluation.py` (HTTP calls, file reading, printing with `tabulate`) is not modelled.
- `FileUpload.FileUploadComponent.BeginDrop`: the dropzone's MIME/extension filter is not modelled. Dropped files are taken as already accepted. The size shown in MB is display only.
- `FileUpload.FileUploadComponent.BeginDrop` assumes the queue read at the drop equals the state the update function sees. The stale-closure case of two overlapping drops is not modelled.
- React rendering (CSS classes, the PDF and table renderers, dates shown with `toLocaleString`) is reduced to the view values returned by the `View` functions.
