/**
 * The REST endpoints of `routes.py` over the `documents` table and the
 * upload directory: upload with per-file commit, saving edited data,
 * listing, fetching and deleting documents, and serving uploaded files.
 */
module Routes {
  import opened Wrappers
  import opened Text
  import opened Records
  import DocumentProcessor
  import LlmService

  /** The upload directory (`UPLOAD_DIR`); its absolute prefix is not modelled. */
  const UploadDir := "app/uploads"

  /** `ALLOWED_DOCUMENT_TYPES`: the accepted filename endings. */
  const AllowedDocumentTypes := [".pdf", ".xlsx"]

  /** An `HTTPException`: status code and detail. */
  datatype HttpError = HttpError(status: nat, detail: string)

  /** One uploaded file: its client-side name and its bytes. */
  datatype Upload = Upload(filename: string, content: seq<bv8>)

  /** One row of the `documents` table. */
  datatype StoredDocument = StoredDocument(
    id: nat,
    filename: string,
    filePath: string,
    uploadTime: string,
    extractedData: Record,
    editedData: Option<Record>)

  /** The body of a successful upload: the new ids and the extracted data by filename. */
  datatype UploadReply = UploadReply(docIds: seq<int>, extractedData: map<string, Record>)

  /** What extraction depends on: the file readers, the model's replies and the JSON parser. */
  datatype Extraction = Extraction(
    readers: DocumentProcessor.Readers,
    complete: LlmService.Request -> string,
    parse: string -> Option<Record>)

  /**
   * Where an uploaded file is saved: `os.path.join(UPLOAD_DIR, filename)`,
   * which keeps an absolute `filename` as it is and otherwise puts it under
   * the directory, whose name does not end in a slash.
   */
  function FilePath(filename: string): string {
    if |filename| > 0 && filename[0] == '/' then filename else UploadDir + "/" + filename
  }

  /** The saved path ends with the uploaded name, and is that name when it is absolute. */
  lemma FilePathSpec(filename: string)
    ensures EndsWith(FilePath(filename), filename)
    ensures StartsWith(filename, "/") <==> FilePath(filename) == filename
  {
    var r := FilePath(filename);
    assert r[|r| - |filename|..] == filename;
    if !StartsWith(filename, "/") {
      assert |r| > |filename|;
    }
  }

  /**
   * `filename.lower().endswith(tuple(ALLOWED_DOCUMENT_TYPES))`: the name,
   * lower-cased, ends in `.pdf` or in `.xlsx`.
   */
  function Allowed(filename: string): (b: bool)
    ensures b <==> EndsWith(AsciiLower(filename), ".pdf") || EndsWith(AsciiLower(filename), ".xlsx")
  {
    EndsWithEither(AsciiLower(filename), ".pdf", ".xlsx");
    EndsWithAny(AsciiLower(filename), AllowedDocumentTypes)
  }

  /** `s.endswith(suffixes)` for a tuple of suffixes: some suffix ends `s`. */
  predicate EndsWithAny(s: string, suffixes: seq<string>) {
    suffixes != [] && (EndsWith(s, suffixes[0]) || EndsWithAny(s, suffixes[1..]))
  }

  /** A two-suffix tuple ends `s` when either suffix does. */
  lemma EndsWithEither(s: string, a: string, b: string)
    ensures EndsWithAny(s, [a, b]) <==> EndsWith(s, a) || EndsWith(s, b)
  {
    assert [a, b][0] == a && [a, b][1..] == [b] && [b][0] == b && [b][1..] == [];
    assert !EndsWithAny(s, []);
    assert EndsWithAny(s, [b]) <==> EndsWith(s, b);
  }

  /** `"\n\n".join(f"Document {key}:\n{value}" for key, value in ...)`. */
  function DocumentText(entries: seq<DocumentProcessor.Entry>): string {
    Join(seq(|entries|, k requires 0 <= k < |entries| => "Document " + entries[k].key + ":\n" + entries[k].text), "\n\n")
  }

  /** The directory as the readers see it: a path's bytes, none for a missing one. */
  function ReadFrom(disk: map<string, seq<bv8>>): string -> seq<bv8> {
    (p: string) => if p in disk then disk[p] else []
  }

  /**
   * The data extracted for the file saved at `path` holding `content`: the
   * text of the file, put to the model, its reply parsed.
   */
  function DataFor(path: string, content: seq<bv8>, ex: Extraction): Record {
    LlmService.ExtractDataFromDocument(
      DocumentText(DocumentProcessor.Entries([path], 1, ReadFrom(map[path := content]), ex.readers)), ex.complete, ex.parse)
  }

  /** Extraction as a function of the saved path and the bytes saved there. */
  function Extractor(ex: Extraction): (string, seq<bv8>) -> Record {
    (path: string, content: seq<bv8>) => DataFor(path, content, ex)
  }

  /** The table's rows are kept in increasing id order, all ids positive. */
  predicate IdsIncreasing(rows: seq<StoredDocument>) {
    (forall i :: 0 <= i < |rows| ==> rows[i].id >= 1)
    && forall i, j :: 0 <= i < j < |rows| ==> rows[i].id < rows[j].id
  }

  /** The largest id in the table, 0 when it is empty. */
  function MaxId(rows: seq<StoredDocument>): (m: nat)
    ensures forall i :: 0 <= i < |rows| ==> rows[i].id <= m
    ensures rows == [] ==> m == 0
  {
    if rows == [] then 0
    else
      var m := MaxId(rows[..|rows| - 1]);
      var last := rows[|rows| - 1].id;
      assert forall i :: 0 <= i < |rows| - 1 ==> rows[i] == rows[..|rows| - 1][i];
      if last >= m then last else m
  }

  /** The id SQLite gives a new row: one more than the largest id in the table, or 1. */
  function NextId(rows: seq<StoredDocument>): (r: nat)
    ensures r >= 1
    ensures forall i :: 0 <= i < |rows| ==> rows[i].id < r
  {
    MaxId(rows) + 1
  }

  /** The largest id is the id of some row. */
  lemma {:induction false} MaxIdAttained(rows: seq<StoredDocument>)
    requires rows != []
    ensures exists i :: 0 <= i < |rows| && rows[i].id == MaxId(rows)
  {
    var init := rows[..|rows| - 1];
    if init != [] && MaxId(init) > rows[|rows| - 1].id {
      MaxIdAttained(init);
      var i :| 0 <= i < |init| && init[i].id == MaxId(init);
      assert rows[i] == init[i];
    } else {
      assert rows[|rows| - 1].id == MaxId(rows);
    }
  }

  /** The new id is 1 for an empty table, and otherwise just above an id the table holds. */
  lemma NextIdExact(rows: seq<StoredDocument>)
    ensures rows == [] ==> NextId(rows) == 1
    ensures rows != [] ==> exists i :: 0 <= i < |rows| && rows[i].id == NextId(rows) - 1
  {
    if rows != [] {
      MaxIdAttained(rows);
      var i :| 0 <= i < |rows| && rows[i].id == MaxId(rows);
      assert rows[i].id == NextId(rows) - 1;
    }
  }

  /** The position of the row with id `id`, if there is one. */
  function FindDoc(rows: seq<StoredDocument>, id: int): (r: Option<nat>)
    ensures r.Some? ==> r.value < |rows| && rows[r.value].id == id
    ensures r.None? <==> forall i :: 0 <= i < |rows| ==> rows[i].id != id
  {
    if rows == [] then None
    else
      match FindDoc(rows[..|rows| - 1], id)
      case Some(p) => assert rows[p] == rows[..|rows| - 1][p]; Some(p)
      case None =>
        assert forall i :: 0 <= i < |rows| - 1 ==> rows[i] == rows[..|rows| - 1][i];
        if rows[|rows| - 1].id == id then Some(|rows| - 1) else None
  }

  /** The listing entry for a row. */
  function Info(d: StoredDocument): DocumentInfo {
    DocumentInfo(d.id, d.filename, d.uploadTime, d.extractedData, d.editedData)
  }

  /** `GET /documents`: every row, in table order. */
  function Listing(rows: seq<StoredDocument>): seq<DocumentInfo> {
    seq(|rows|, i requires 0 <= i < |rows| => Info(rows[i]))
  }

  /** `GET /document/{doc_id}`: the document with that id, or 404 when no row has it. */
  function Lookup(rows: seq<StoredDocument>, id: int): (r: Result<DocumentInfo, HttpError>)
    ensures r.Err? <==> forall i :: 0 <= i < |rows| ==> rows[i].id != id
    ensures r.Err? ==> r.error == HttpError(404, "Document not found")
    ensures r.Ok? ==> r.value.id == id
  {
    match FindDoc(rows, id)
    case Some(p) => Ok(Info(rows[p]))
    case None => Err(HttpError(404, "Document not found"))
  }

  /** In a table in id order, fetching a listed id gives that very row's entry. */
  lemma LookupFinds(rows: seq<StoredDocument>, id: int)
    requires IdsIncreasing(rows)
    ensures forall i :: 0 <= i < |rows| && rows[i].id == id ==> Lookup(rows, id) == Ok(Info(rows[i]))
  {
    forall i | 0 <= i < |rows| && rows[i].id == id ensures Lookup(rows, id) == Ok(Info(rows[i])) {
      var p := FindDoc(rows, id).value;
      assert rows[p].id == rows[i].id;
    }
  }

  /** `GET /file/{filename}`. */
  function ServeFile(disk: map<string, seq<bv8>>, filename: string): Result<seq<bv8>, HttpError> {
    var path := FilePath(filename);
    if path in disk then Ok(disk[path]) else Err(HttpError(404, "File not found"))
  }

  // ---------------------------------------------------------------------
  // Upload

  /** The number of leading files whose type is allowed. */
  function AcceptedCount(files: seq<Upload>): (k: nat)
    ensures k <= |files|
    ensures forall j :: 0 <= j < k ==> Allowed(files[j].filename)
    ensures k < |files| ==> !Allowed(files[k].filename)
  {
    if files == [] || !Allowed(files[0].filename) then 0
    else 1 + AcceptedCount(files[1..])
  }

  /** The row inserted for an accepted file. */
  function NewRow(f: Upload, id: nat, now: string, data: (string, seq<bv8>) -> Record): StoredDocument {
    StoredDocument(id, f.filename, FilePath(f.filename), now, data(FilePath(f.filename), f.content), None)
  }

  /** The table after inserting a row for each file in turn, each committed on its own. */
  function Inserted(rows: seq<StoredDocument>, files: seq<Upload>, now: string, data: (string, seq<bv8>) -> Record): (r: seq<StoredDocument>)
    ensures |r| == |rows| + |files|
  {
    if files == [] then rows
    else
      var prev := Inserted(rows, files[..|files| - 1], now, data);
      prev + [NewRow(files[|files| - 1], NextId(prev), now, data)]
  }

  /** The upload directory after saving each file in turn. */
  function Written(disk: map<string, seq<bv8>>, files: seq<Upload>): map<string, seq<bv8>>
  {
    if files == [] then disk
    else Written(disk, files[..|files| - 1])[FilePath(files[|files| - 1].filename) := files[|files| - 1].content]
  }

  /** The `extracted_data` dictionary: the data of each file under its name. */
  function ExtractedByName(files: seq<Upload>, data: (string, seq<bv8>) -> Record): map<string, Record>
  {
    if files == [] then map[]
    else
      var f := files[|files| - 1];
      ExtractedByName(files[..|files| - 1], data)[f.filename := data(FilePath(f.filename), f.content)]
  }

  /** The ids of the rows after the first `from`. */
  function IdsFrom(rows: seq<StoredDocument>, from: nat): seq<int>
    requires from <= |rows|
  {
    seq(|rows| - from, j requires 0 <= j < |rows| - from => rows[from + j].id)
  }

  /** An endpoint's reply together with the table and the upload directory it leaves. */
  datatype Outcome<T> = Outcome(reply: Result<T, HttpError>, rows: seq<StoredDocument>, disk: map<string, seq<bv8>>)

  /**
   * `POST /upload`: an empty request is refused; otherwise files are taken
   * in order, each saved, extracted and committed before the next is looked
   * at, and the first file of a disallowed type ends the request with an
   * error, the files before it staying saved and committed.
   */
  function UploadStep(rows: seq<StoredDocument>, disk: map<string, seq<bv8>>, files: seq<Upload>,
                      now: string, data: (string, seq<bv8>) -> Record): (o: Outcome<UploadReply>)
    ensures o.reply.Ok? <==> files != [] && AcceptedCount(files) == |files|
    ensures o.reply.Err? ==> o.reply.error.status == 400
    ensures files == [] ==> o.rows == rows && o.disk == disk
  {
    var k := AcceptedCount(files);
    var rows' := Inserted(rows, files[..k], now, data);
    var disk' := Written(disk, files[..k]);
    if files == [] then Outcome(Err(HttpError(400, "No files uploaded")), rows, disk)
    else if k < |files| then Outcome(Err(HttpError(400, "Invalid file type: " + files[k].filename)), rows', disk')
    else Outcome(Ok(UploadReply(IdsFrom(rows', |rows|), ExtractedByName(files, data))), rows', disk')
  }

  /**
   * The rows inserted for `files` follow the existing ones unchanged, in
   * file order, with consecutive ids from `NextId(rows)`, each holding its
   * file's name, saved path, the upload time and the extracted data, with no
   * edited data.
   */
  lemma {:induction false} InsertedSpec(rows: seq<StoredDocument>, files: seq<Upload>, now: string, data: (string, seq<bv8>) -> Record)
    ensures |Inserted(rows, files, now, data)| == |rows| + |files|
    ensures Inserted(rows, files, now, data)[..|rows|] == rows
    ensures forall j :: 0 <= j < |files| ==>
      Inserted(rows, files, now, data)[|rows| + j] == NewRow(files[j], NextId(rows) + j, now, data)
    ensures forall i :: |rows| <= i < |Inserted(rows, files, now, data)| ==>
      Inserted(rows, files, now, data)[i].id == NextId(rows) + (i - |rows|)
    ensures NextId(Inserted(rows, files, now, data)) == NextId(rows) + |files|
  {
    if files != [] {
      var init := files[..|files| - 1];
      InsertedSpec(rows, init, now, data);
      var prev := Inserted(rows, init, now, data);
      var r := Inserted(rows, files, now, data);
      assert r[..|prev|] == prev;
      forall j | 0 <= j < |files| ensures r[|rows| + j] == NewRow(files[j], NextId(rows) + j, now, data) {
        if j < |init| {
          assert files[j] == init[j];
          assert r[|rows| + j] == prev[|rows| + j];
        }
      }
      assert r[..|rows|] == prev[..|rows|];
      forall i | |rows| <= i < |r| ensures r[i].id == NextId(rows) + (i - |rows|) {
        var k := i - |rows|;
        assert r[|rows| + k] == NewRow(files[k], NextId(rows) + k, now, data);
      }
    }
  }

  /** Inserting keeps the table in increasing id order. */
  lemma InsertedIncreasing(rows: seq<StoredDocument>, files: seq<Upload>, now: string, data: (string, seq<bv8>) -> Record)
    requires IdsIncreasing(rows)
    ensures IdsIncreasing(Inserted(rows, files, now, data))
  {
    InsertedSpec(rows, files, now, data);
    var r := Inserted(rows, files, now, data);
    assert forall i :: 0 <= i < |rows| ==> r[i] == rows[i];
  }

  /** The upload directory holds what it held before plus the path of every saved file. */
  lemma {:induction false} WrittenKeys(disk: map<string, seq<bv8>>, files: seq<Upload>)
    ensures forall path :: path in Written(disk, files) <==>
      (path in disk || exists j :: 0 <= j < |files| && FilePath(files[j].filename) == path)
  {
    if files != [] {
      var init := files[..|files| - 1];
      WrittenKeys(disk, init);
      assert forall j :: 0 <= j < |init| ==> init[j] == files[j];
    }
  }

  /** A saved path holds the content of the last file saved to it. */
  lemma {:induction false} WrittenLatest(disk: map<string, seq<bv8>>, files: seq<Upload>)
    ensures forall j :: 0 <= j < |files| && (forall l :: j < l < |files| ==> FilePath(files[l].filename) != FilePath(files[j].filename)) ==>
      FilePath(files[j].filename) in Written(disk, files)
      && Written(disk, files)[FilePath(files[j].filename)] == files[j].content
  {
    if files != [] {
      var init := files[..|files| - 1];
      WrittenLatest(disk, init);
      forall j | 0 <= j < |init| && (forall l :: j < l < |files| ==> FilePath(files[l].filename) != FilePath(files[j].filename))
        ensures FilePath(files[j].filename) in Written(disk, files)
          && Written(disk, files)[FilePath(files[j].filename)] == files[j].content
      {
        assert init[j] == files[j];
        assert forall l :: j < l < |init| ==> init[l] == files[l];
      }
    }
  }

  /** A path no file is saved to keeps its old content. */
  lemma {:induction false} WrittenUntouched(disk: map<string, seq<bv8>>, files: seq<Upload>)
    ensures forall path :: path in disk && (forall j :: 0 <= j < |files| ==> FilePath(files[j].filename) != path) ==>
      path in Written(disk, files) && Written(disk, files)[path] == disk[path]
  {
    if files != [] {
      var init := files[..|files| - 1];
      WrittenUntouched(disk, init);
      assert forall j :: 0 <= j < |init| ==> init[j] == files[j];
    }
  }

  /** The reply's keys are exactly the names of the files. */
  lemma {:induction false} ExtractedByNameKeys(files: seq<Upload>, data: (string, seq<bv8>) -> Record)
    ensures forall name :: name in ExtractedByName(files, data) <==> exists j :: 0 <= j < |files| && files[j].filename == name
  {
    if files != [] {
      var init := files[..|files| - 1];
      ExtractedByNameKeys(init, data);
      assert forall j :: 0 <= j < |init| ==> init[j] == files[j];
    }
  }

  /** Under each name the reply holds the data of the last file of that name. */
  lemma {:induction false} ExtractedByNameValues(files: seq<Upload>, data: (string, seq<bv8>) -> Record)
    ensures forall j :: 0 <= j < |files| && (forall l :: j < l < |files| ==> files[l].filename != files[j].filename) ==>
      files[j].filename in ExtractedByName(files, data)
      && ExtractedByName(files, data)[files[j].filename] == data(FilePath(files[j].filename), files[j].content)
  {
    if files != [] {
      var init := files[..|files| - 1];
      ExtractedByNameValues(init, data);
      forall j | 0 <= j < |files| - 1 && (forall l :: j < l < |files| ==> files[l].filename != files[j].filename)
        ensures files[j].filename in ExtractedByName(files, data)
          && ExtractedByName(files, data)[files[j].filename] == data(FilePath(files[j].filename), files[j].content)
      {
        assert init[j] == files[j];
        assert forall l :: j < l < |init| ==> init[l] == files[l];
      }
    }
  }

  /** Taking one more file extends the table, the directory and the reply by that file alone. */
  lemma UploadOneMore(rows: seq<StoredDocument>, disk: map<string, seq<bv8>>, files: seq<Upload>, i: nat,
                      now: string, data: (string, seq<bv8>) -> Record)
    requires i < |files|
    ensures var prev := Inserted(rows, files[..i], now, data);
      Inserted(rows, files[..i + 1], now, data)
        == prev + [NewRow(files[i], NextId(prev), now, data)]
      && Written(disk, files[..i + 1]) == Written(disk, files[..i])[FilePath(files[i].filename) := files[i].content]
      && ExtractedByName(files[..i + 1], data)
        == ExtractedByName(files[..i], data)[files[i].filename := data(FilePath(files[i].filename), files[i].content)]
  {
    assert files[..i + 1][..i] == files[..i];
  }

  /** How a request whose first `k` files are accepted ends, `k` being where the loop stops. */
  lemma UploadEnds(rows: seq<StoredDocument>, disk: map<string, seq<bv8>>, files: seq<Upload>, k: nat,
                   now: string, data: (string, seq<bv8>) -> Record)
    requires files != [] && k == AcceptedCount(files)
    ensures k < |files| ==>
      UploadStep(rows, disk, files, now, data)
        == Outcome(Err(HttpError(400, "Invalid file type: " + files[k].filename)),
                   Inserted(rows, files[..k], now, data), Written(disk, files[..k]))
    ensures k == |files| ==>
      UploadStep(rows, disk, files, now, data)
        == Outcome(Ok(UploadReply(IdsFrom(Inserted(rows, files[..k], now, data), |rows|), ExtractedByName(files[..k], data))),
                   Inserted(rows, files[..k], now, data), Written(disk, files[..k]))
  {
    assert k == |files| ==> files[..k] == files;
  }

  /** The ids after `from` grow by the id of an appended row. */
  lemma IdsFromAppend(rows: seq<StoredDocument>, from: nat, row: StoredDocument)
    requires from <= |rows|
    ensures IdsFrom(rows + [row], from) == IdsFrom(rows, from) + [row.id]
  {
    var r := rows + [row];
    assert forall k :: from <= k < |rows| ==> r[k] == rows[k];
  }

  /**
   * A rejected file ends the request with a 400 naming it, yet every file
   * before it has been saved and committed, and the table stays in id order.
   */
  lemma UploadPartialCommit(rows: seq<StoredDocument>, disk: map<string, seq<bv8>>, files: seq<Upload>,
                            now: string, data: (string, seq<bv8>) -> Record)
    requires IdsIncreasing(rows)
    ensures var o := UploadStep(rows, disk, files, now, data);
      var k := AcceptedCount(files);
      IdsIncreasing(o.rows) && |o.rows| == |rows| + k && o.rows[..|rows|] == rows
      && (k < |files| ==> o.reply == Err(HttpError(400, "Invalid file type: " + files[k].filename)))
  {
    var k := AcceptedCount(files);
    InsertedSpec(rows, files[..k], now, data);
    InsertedIncreasing(rows, files[..k], now, data);
  }

  /** An accepted request returns the new ids, one per file, consecutive from `NextId(rows)`. */
  lemma UploadIds(rows: seq<StoredDocument>, disk: map<string, seq<bv8>>, files: seq<Upload>,
                  now: string, data: (string, seq<bv8>) -> Record)
    requires files != [] && AcceptedCount(files) == |files|
    ensures var o := UploadStep(rows, disk, files, now, data);
      o.reply.Ok? && |o.reply.value.docIds| == |files|
      && forall j :: 0 <= j < |files| ==> o.reply.value.docIds[j] == NextId(rows) + j
  {
    InsertedSpec(rows, files, now, data);
    assert files[..|files|] == files;
    var ids := IdsFrom(Inserted(rows, files, now, data), |rows|);
    assert UploadStep(rows, disk, files, now, data).reply.value.docIds == ids;
    forall j | 0 <= j < |files| ensures ids[j] == NextId(rows) + j {
      assert ids[j] == Inserted(rows, files, now, data)[|rows| + j].id;
    }
  }



  /**
   * After an accepted upload the listing is the old listing followed by one
   * entry per file, in file order, under the ids the reply returned, each
   * with the file's name and no edited data.
   */
  lemma UploadListed(rows: seq<StoredDocument>, disk: map<string, seq<bv8>>, files: seq<Upload>,
                     now: string, data: (string, seq<bv8>) -> Record)
    requires files != [] && AcceptedCount(files) == |files|
    ensures var o := UploadStep(rows, disk, files, now, data);
      var l := Listing(o.rows);
      o.reply.Ok? && |l| == |rows| + |files| && l[..|rows|] == Listing(rows)
      && forall j :: 0 <= j < |files| ==>
           l[|rows| + j].id == o.reply.value.docIds[j] && l[|rows| + j].filename == files[j].filename
           && l[|rows| + j].editedData == None
  {
    assert files[..|files|] == files;
    assert UploadStep(rows, disk, files, now, data).rows == Inserted(rows, files, now, data);
    UploadIds(rows, disk, files, now, data);
    InsertedListed(rows, files, now, data);
  }

  /** The listing of a table with rows inserted for `files`. */
  lemma InsertedListed(rows: seq<StoredDocument>, files: seq<Upload>, now: string, data: (string, seq<bv8>) -> Record)
    ensures var l := Listing(Inserted(rows, files, now, data));
      |l| == |rows| + |files| && l[..|rows|] == Listing(rows)
      && forall j :: 0 <= j < |files| ==>
           l[|rows| + j].id == NextId(rows) + j && l[|rows| + j].filename == files[j].filename
           && l[|rows| + j].editedData == None
  {
    var r := Inserted(rows, files, now, data);
    InsertedSpec(rows, files, now, data);
    ListingPrefix(rows, r);
    var l := Listing(r);
    forall j | 0 <= j < |files|
      ensures l[|rows| + j].id == NextId(rows) + j && l[|rows| + j].filename == files[j].filename
        && l[|rows| + j].editedData == None
    {
      var d := r[|rows| + j];
      assert d == NewRow(files[j], NextId(rows) + j, now, data);
      assert d.id == NextId(rows) + j && d.filename == files[j].filename && d.editedData == None;
      assert l[|rows| + j] == Info(d);
    }
  }

  /** A table that begins with `rows` lists them first. */
  lemma ListingPrefix(rows: seq<StoredDocument>, r: seq<StoredDocument>)
    requires |rows| <= |r| && r[..|rows|] == rows
    ensures Listing(r)[..|rows|] == Listing(rows)
  {
    assert forall i :: 0 <= i < |rows| ==> r[i] == rows[i];
  }

  /**
   * After an accepted upload, fetching an uploaded name serves the bytes of
   * the last file sent under that name.
   */
  lemma UploadServed(rows: seq<StoredDocument>, disk: map<string, seq<bv8>>, files: seq<Upload>,
                     now: string, data: (string, seq<bv8>) -> Record)
    requires files != [] && AcceptedCount(files) == |files|
    ensures var o := UploadStep(rows, disk, files, now, data);
      forall j :: 0 <= j < |files| && (forall l :: j < l < |files| ==> FilePath(files[l].filename) != FilePath(files[j].filename)) ==>
        ServeFile(o.disk, files[j].filename) == Ok(files[j].content)
  {
    assert files[..|files|] == files;
    WrittenLatest(disk, files);
  }

  // ---------------------------------------------------------------------
  // Saving, deleting

  /** `POST /save-edited-data`; `docId` is `None` when the body has no usable `doc_id`. */
  function SaveStep(rows: seq<StoredDocument>, disk: map<string, seq<bv8>>, docId: Option<int>, edited: Option<Record>): (o: Outcome<string>)
    ensures o.disk == disk && |o.rows| == |rows|
    ensures forall i :: 0 <= i < |rows| ==>
      o.rows[i].id == rows[i].id && o.rows[i].filename == rows[i].filename && o.rows[i].extractedData == rows[i].extractedData
    ensures o.reply.Err? ==> o.rows == rows
  {
    if docId.None? || docId.value == 0 || edited.None? then
      Outcome(Err(HttpError(400, "doc_id and edited_data required")), rows, disk)
    else match FindDoc(rows, docId.value)
      case None => Outcome(Err(HttpError(404, "Document not found")), rows, disk)
      case Some(p) => Outcome(Ok("Data saved!"), rows[p := rows[p].(editedData := edited)], disk)
  }

  /**
   * A save needs a truthy `doc_id` and some edited data, else it is refused
   * with 400; an unknown id is refused with 404; otherwise exactly the
   * edited data of that document changes, and fetching it shows the edit.
   */
  lemma SaveSpec(rows: seq<StoredDocument>, disk: map<string, seq<bv8>>, docId: Option<int>, edited: Option<Record>)
    requires IdsIncreasing(rows)
    ensures var o := SaveStep(rows, disk, docId, edited);
      IdsIncreasing(o.rows) && |o.rows| == |rows| && o.disk == disk
      && ((docId.None? || docId.value == 0 || edited.None?) ==>
            o.reply == Err(HttpError(400, "doc_id and edited_data required")) && o.rows == rows)
      && (docId.Some? && docId.value != 0 && edited.Some? && FindDoc(rows, docId.value).None? ==>
            o.reply == Err(HttpError(404, "Document not found")) && o.rows == rows)
      && (docId.Some? && docId.value != 0 && edited.Some? && FindDoc(rows, docId.value).Some? ==>
            o.reply == Ok("Data saved!")
            && (forall i :: 0 <= i < |rows| ==>
                  o.rows[i] == if rows[i].id == docId.value then rows[i].(editedData := edited) else rows[i])
            && Lookup(o.rows, docId.value).Ok? && Lookup(o.rows, docId.value).value.editedData == edited)
  {
    var o := SaveStep(rows, disk, docId, edited);
    if docId.Some? && docId.value != 0 && edited.Some? && FindDoc(rows, docId.value).Some? {
      var p := FindDoc(rows, docId.value).value;
      forall i | 0 <= i < |rows| && i != p ensures rows[i].id != docId.value {
        assert rows[i].id != rows[p].id;
      }
      assert o.rows[p].id == docId.value;
      var q := FindDoc(o.rows, docId.value).value;
      assert o.rows[q].id == docId.value;
      assert q == p;
    }
  }

  /** `DELETE /document/{doc_id}`: the row goes, and its file if it is still there. */
  function DeleteStep(rows: seq<StoredDocument>, disk: map<string, seq<bv8>>, id: int): (o: Outcome<()>)
    ensures o.reply.Err? <==> forall i :: 0 <= i < |rows| ==> rows[i].id != id
    ensures o.reply.Err? ==> o.reply.error == HttpError(404, "Document not found") && o.rows == rows && o.disk == disk
    ensures o.reply.Ok? ==> |o.rows| == |rows| - 1 && o.disk.Keys <= disk.Keys
  {
    match FindDoc(rows, id)
    case None => Outcome(Err(HttpError(404, "Document not found")), rows, disk)
    case Some(p) => Outcome(Ok(()), rows[..p] + rows[p + 1..], disk - {rows[p].filePath})
  }

  /** Deleting an unknown id is a 404 that changes nothing. */
  lemma DeleteMissing(rows: seq<StoredDocument>, disk: map<string, seq<bv8>>, id: int)
    requires forall i :: 0 <= i < |rows| ==> rows[i].id != id
    ensures DeleteStep(rows, disk, id) == Outcome(Err(HttpError(404, "Document not found")), rows, disk)
  {
  }

  /**
   * Deleting a listed id removes exactly that document's row, keeps the other
   * rows in their order and the table's id order, and removes its file.
   */
  lemma DeleteRemoves(rows: seq<StoredDocument>, disk: map<string, seq<bv8>>, id: int)
    requires IdsIncreasing(rows)
    requires FindDoc(rows, id).Some?
    ensures var o := DeleteStep(rows, disk, id);
      var p := FindDoc(rows, id).value;
      o.reply == Ok(()) && IdsIncreasing(o.rows) && |o.rows| == |rows| - 1
      && (forall i :: 0 <= i < p ==> o.rows[i] == rows[i])
      && (forall i :: p <= i < |o.rows| ==> o.rows[i] == rows[i + 1])
      && o.disk.Keys == disk.Keys - {rows[p].filePath}
      && forall k :: k in o.disk ==> o.disk[k] == disk[k]
  {
    var p := FindDoc(rows, id).value;
    RemovedIncreasing(rows, p);
  }

  /** Removing one row keeps the others in order, and so keeps the table's id order. */
  lemma RemovedIncreasing(rows: seq<StoredDocument>, p: nat)
    requires IdsIncreasing(rows) && p < |rows|
    ensures var r := rows[..p] + rows[p + 1..];
      |r| == |rows| - 1 && IdsIncreasing(r)
      && (forall i :: 0 <= i < p ==> r[i] == rows[i])
      && (forall i :: p <= i < |r| ==> r[i] == rows[i + 1])
  {
    var r := rows[..p] + rows[p + 1..];
    assert forall i :: 0 <= i < |r| ==> r[i] == rows[if i < p then i else i + 1];
  }

  /** After a delete no row has the id, so fetching it is a 404, and every other row is still there. */
  lemma DeleteForgets(rows: seq<StoredDocument>, disk: map<string, seq<bv8>>, id: int)
    requires IdsIncreasing(rows)
    ensures var o := DeleteStep(rows, disk, id);
      (forall i :: 0 <= i < |o.rows| ==> o.rows[i].id != id)
      && Lookup(o.rows, id) == Err(HttpError(404, "Document not found"))
      && (forall i :: 0 <= i < |rows| && rows[i].id != id ==> rows[i] in o.rows)
  {
    var o := DeleteStep(rows, disk, id);
    if FindDoc(rows, id).Some? {
      var p := FindDoc(rows, id).value;
      DeleteRemoves(rows, disk, id);
      forall i | 0 <= i < |o.rows| ensures o.rows[i].id != id {
        if i < p { assert o.rows[i] == rows[i]; } else { assert o.rows[i] == rows[i + 1]; }
      }
      forall i | 0 <= i < |rows| && rows[i].id != id ensures rows[i] in o.rows {
        if i < p { assert o.rows[i] == rows[i]; } else { assert o.rows[i - 1] == rows[i]; }
      }
    }
  }

  /** Saving a file's text through the document processor and the LLM service yields its data. */
  method ExtractFile(path: string, disk: map<string, seq<bv8>>, ex: Extraction) returns (record: Record)
    requires path in disk
    ensures record == Extractor(ex)(path, disk[path])
  {
    var entries := DocumentProcessor.ProcessDocuments([path], ReadFrom(disk), ex.readers);
    DocumentProcessor.EntriesOfOne(path, ReadFrom(disk), ex.readers);
    DocumentProcessor.EntriesOfOne(path, ReadFrom(map[path := disk[path]]), ex.readers);
    var text := DocumentText(entries);
    record := LlmService.ExtractDataFromDocument(text, ex.complete, ex.parse);
  }

  /**
   * The body of `upload_documents` over the table and the directory it
   * starts from: the files are saved, extracted and committed one at a time.
   */
  method UploadFiles(rows: seq<StoredDocument>, disk: map<string, seq<bv8>>, files: seq<Upload>, now: string, ex: Extraction)
    returns (reply: Result<UploadReply, HttpError>, table: seq<StoredDocument>, dir: map<string, seq<bv8>>)
    requires IdsIncreasing(rows)
    ensures Outcome(reply, table, dir) == UploadStep(rows, disk, files, now, Extractor(ex))
  {
    table, dir := rows, disk;
    if |files| == 0 {
      return Err(HttpError(400, "No files uploaded")), table, dir;
    }
    ghost var data := Extractor(ex);
    var docIds: seq<int> := [];
    var extracted: map<string, Record> := map[];
    var i := 0;
    while i < |files|
      invariant 0 <= i <= AcceptedCount(files)
      invariant table == Inserted(rows, files[..i], now, data)
      invariant dir == Written(disk, files[..i])
      invariant extracted == ExtractedByName(files[..i], data)
      invariant docIds == IdsFrom(table, |rows|)
      invariant IdsIncreasing(table)
    {
      var file := files[i];
      if !Allowed(file.filename) {
        UploadEnds(rows, disk, files, i, now, data);
        return Err(HttpError(400, "Invalid file type: " + file.filename)), table, dir;
      }
      var path := FilePath(file.filename);
      dir := dir[path := file.content];
      var record := ExtractFile(path, dir, ex);
      extracted := extracted[file.filename := record];
      var doc := StoredDocument(NextId(table), file.filename, path, now, record, None);
      UploadOneMore(rows, disk, files, i, now, data);
      InsertedIncreasing(rows, files[..i + 1], now, data);
      IdsFromAppend(table, |rows|, doc);
      table := table + [doc];
      docIds := docIds + [doc.id];
      i := i + 1;
    }
    UploadEnds(rows, disk, files, i, now, data);
    reply := Ok(UploadReply(docIds, extracted));
  }

  // ---------------------------------------------------------------------
  // The service's state

  /** The `documents` table and the upload directory. */
  class DocumentStore {
    var rows: seq<StoredDocument>
    var disk: map<string, seq<bv8>>

    ghost predicate Valid()
      reads this
    {
      IdsIncreasing(rows)
    }

    /** `init_db()` on a fresh database, with an empty upload directory. */
    constructor ()
      ensures rows == [] && disk == map[] && Valid()
    {
      rows := [];
      disk := map[];
    }

    /** `upload_documents`; `now` stands for the commit time of the request's rows. */
    method UploadDocuments(files: seq<Upload>, now: string, ex: Extraction) returns (reply: Result<UploadReply, HttpError>)
      requires Valid()
      modifies this
      ensures Valid()
      ensures Outcome(reply, rows, disk) == UploadStep(old(rows), old(disk), files, now, Extractor(ex))
    {
      UploadPartialCommit(rows, disk, files, now, Extractor(ex));
      reply, rows, disk := UploadFiles(rows, disk, files, now, ex);
    }

    /** `save_edited_data`. */
    method SaveEditedData(docId: Option<int>, edited: Option<Record>) returns (reply: Result<string, HttpError>)
      requires Valid()
      modifies this
      ensures Valid()
      ensures Outcome(reply, rows, disk) == SaveStep(old(rows), old(disk), docId, edited)
    {
      SaveSpec(rows, disk, docId, edited);
      if docId.None? || docId.value == 0 || edited.None? {
        return Err(HttpError(400, "doc_id and edited_data required"));
      }
      var found := FindDoc(rows, docId.value);
      if found.None? {
        return Err(HttpError(404, "Document not found"));
      }
      var p := found.value;
      rows := rows[p := rows[p].(editedData := edited)];
      reply := Ok("Data saved!");
    }

    /** `get_documents`. */
    function GetDocuments(): seq<DocumentInfo>
      reads this
    {
      Listing(rows)
    }

    /** `get_document`. */
    function GetDocument(id: int): Result<DocumentInfo, HttpError>
      reads this
    {
      Lookup(rows, id)
    }

    /** `get_file`. */
    function GetFile(filename: string): Result<seq<bv8>, HttpError>
      reads this
    {
      ServeFile(disk, filename)
    }

    /** `delete_document`. */
    method DeleteDocument(id: int) returns (reply: Result<(), HttpError>)
      requires Valid()
      modifies this
      ensures Valid()
      ensures Outcome(reply, rows, disk) == DeleteStep(old(rows), old(disk), id)
    {
      var found := FindDoc(rows, id);
      if found.None? {
        return Err(HttpError(404, "Document not found"));
      }
      var p := found.value;
      DeleteRemoves(rows, disk, id);
      disk := disk - {rows[p].filePath};
      rows := rows[..p] + rows[p + 1..];
      reply := Ok(());
    }
  }
}
