/**
 * The upload queue of `FileUpload.jsx`: dropped files are merged into the
 * queue through a JavaScript `Map` keyed on `name + size`, the merged queue is
 * sent as one multipart batch, and the outcome is reported to the parent or
 * shown in an alert.
 */
module FileUpload {
  import opened Wrappers
  import opened Text
  import opened Records

  /** A browser `File`: name, size in bytes, declared MIME type and content. */
  datatype UploadFile = UploadFile(name: string, size: nat, mimeType: string, content: seq<bv8>)

  /**
   * The dedup key `f.name + f.size`: JavaScript string concatenation, so the
   * size is appended in decimal with no separator.
   */
  function Key(f: UploadFile): string {
    f.name + NatToString(f.size)
  }

  predicate DistinctKeys(q: seq<UploadFile>) {
    forall i, j :: 0 <= i < j < |q| ==> Key(q[i]) != Key(q[j])
  }

  /** The keys of `q`, in order. */
  function Keys(q: seq<UploadFile>): (r: seq<string>)
    ensures |r| == |q| && forall i :: 0 <= i < |q| ==> r[i] == Key(q[i])
  {
    seq(|q|, i requires 0 <= i < |q| => Key(q[i]))
  }

  lemma KeysAppend(q: seq<UploadFile>, f: UploadFile)
    ensures Keys(q + [f]) == Keys(q) + [Key(f)]
  {
  }

  /** The position of the entry with key `k`, if there is one. */
  function FindKey(entries: seq<UploadFile>, k: string): (r: Option<nat>)
    ensures r.Some? ==> r.value < |entries| && Key(entries[r.value]) == k
    ensures r.None? ==> k !in Keys(entries)
  {
    if |entries| == 0 then None
    else if Key(entries[|entries| - 1]) == k then Some(|entries| - 1)
    else
      var r := FindKey(entries[..|entries| - 1], k);
      assert Keys(entries) == Keys(entries[..|entries| - 1]) + [Key(entries[|entries| - 1])];
      r
  }

  /**
   * `Map.prototype.set` on a map listed by its values in insertion order: a
   * key already present keeps its position and takes the new value, a new key
   * is appended.
   */
  function MapSet(entries: seq<UploadFile>, f: UploadFile): seq<UploadFile> {
    match FindKey(entries, Key(f))
    case Some(i) => entries[i := f]
    case None => entries + [f]
  }

  /** `Array.from(new Map(files.map(f => [f.name + f.size, f])).values())`. */
  function Dedup(files: seq<UploadFile>): seq<UploadFile> {
    if |files| == 0 then [] else MapSet(Dedup(files[..|files| - 1]), files[|files| - 1])
  }

  /**
   * The merge that `onDrop` performs: the queue followed by the new files,
   * deduplicated, so that no key repeats and every key of either list is kept.
   */
  function Merge(queue: seq<UploadFile>, accepted: seq<UploadFile>): (r: seq<UploadFile>)
    ensures DistinctKeys(r)
    ensures forall k :: k in Keys(r) <==> k in Keys(queue) || k in Keys(accepted)
  {
    DedupDistinct(queue + accepted);
    DedupKeySet(queue + accepted);
    assert Keys(queue + accepted) == Keys(queue) + Keys(accepted);
    Dedup(queue + accepted)
  }

  /** The first position of key `k` in `files`. */
  function FirstIndex(files: seq<UploadFile>, k: string): (r: nat)
    requires k in Keys(files)
    ensures r < |files| && Key(files[r]) == k
    ensures forall j :: 0 <= j < r ==> Key(files[j]) != k
  {
    if Key(files[0]) == k then 0
    else
      KeyInTail(files, k);
      1 + FirstIndex(files[1..], k)
  }

  /** A key present in `files` but not first is present in the rest. */
  lemma KeyInTail(files: seq<UploadFile>, k: string)
    requires k in Keys(files) && Key(files[0]) != k
    ensures k in Keys(files[1..])
  {
    var i :| 0 <= i < |files| && Keys(files)[i] == k;
    assert Keys(files[1..])[i - 1] == k;
  }

  /** No file after position `j` has the key of `files[j]`. */
  predicate LastOfKey(files: seq<UploadFile>, j: int) {
    0 <= j < |files| && forall j' :: j < j' < |files| ==> Key(files[j']) != Key(files[j])
  }

  lemma MapSetFacts(entries: seq<UploadFile>, f: UploadFile)
    ensures Key(f) in Keys(entries) ==> Keys(MapSet(entries, f)) == Keys(entries)
    ensures Key(f) !in Keys(entries) ==> MapSet(entries, f) == entries + [f]
    ensures Key(f) !in Keys(entries) ==> Keys(MapSet(entries, f)) == Keys(entries) + [Key(f)]
    ensures DistinctKeys(entries) ==> DistinctKeys(MapSet(entries, f))
  {
    match FindKey(entries, Key(f))
    case Some(i) =>
      assert Keys(entries[i := f]) == Keys(entries);
    case None =>
      KeysAppend(entries, f);
  }

  /** No two entries of a merged queue share a key. */
  lemma {:induction false} DedupDistinct(files: seq<UploadFile>)
    ensures DistinctKeys(Dedup(files))
  {
    if |files| > 0 {
      DedupDistinct(files[..|files| - 1]);
      MapSetFacts(Dedup(files[..|files| - 1]), files[|files| - 1]);
    }
  }

  /** A merged queue holds exactly the keys of its input. */
  lemma {:induction false} DedupKeySet(files: seq<UploadFile>)
    ensures forall k :: k in Keys(Dedup(files)) <==> k in Keys(files)
  {
    if |files| > 0 {
      var init, last := files[..|files| - 1], files[|files| - 1];
      DedupKeySet(init);
      MapSetFacts(Dedup(init), last);
      assert files == init + [last];
      KeysAppend(init, last);
    }
  }

  /** Where each entry of `MapSet(d, f)` comes from, when `d` has distinct keys. */
  lemma MapSetAt(d: seq<UploadFile>, f: UploadFile, i: int)
    requires DistinctKeys(d)
    requires 0 <= i < |MapSet(d, f)|
    ensures Key(MapSet(d, f)[i]) == Key(f) ==> MapSet(d, f)[i] == f
    ensures Key(MapSet(d, f)[i]) != Key(f) ==> i < |d| && MapSet(d, f)[i] == d[i]
  {
    match FindKey(d, Key(f))
    case Some(p) =>
      if i != p {
        assert Key(d[i]) != Key(d[p]);
      }
    case None =>
      if i < |d| {
        assert Keys(d)[i] == Key(d[i]);
      }
  }

  /** Each entry of a merged queue is the LAST input file with its key (Map semantics). */
  lemma {:induction false} DedupLastSeen(files: seq<UploadFile>, i: int)
    requires 0 <= i < |Dedup(files)|
    ensures exists j :: LastOfKey(files, j) && files[j] == Dedup(files)[i]
    decreases |files|, 0
  {
    var init, last := files[..|files| - 1], files[|files| - 1];
    var d := Dedup(init);
    var r := Dedup(files);
    assert r == MapSet(d, last);
    DedupDistinct(init);
    MapSetAt(d, last, i);
    if Key(r[i]) == Key(last) {
      assert LastOfKey(files, |files| - 1) && files[|files| - 1] == r[i];
    } else {
      var j := LastSeenWitness(init, i);
      forall j' | j < j' < |files| ensures Key(files[j']) != Key(files[j]) {
        if j' < |init| {
          assert files[j'] == init[j'];
        }
      }
      assert LastOfKey(files, j) && files[j] == r[i];
    }
  }

  lemma LastSeenWitness(files: seq<UploadFile>, i: int) returns (j: int)
    requires 0 <= i < |Dedup(files)|
    ensures LastOfKey(files, j) && files[j] == Dedup(files)[i]
    decreases |files|, 1
  {
    DedupLastSeen(files, i);
    j :| LastOfKey(files, j) && files[j] == Dedup(files)[i];
  }

  lemma FirstIndexPrefix(init: seq<UploadFile>, last: UploadFile, k: string)
    requires k in Keys(init)
    ensures k in Keys(init + [last])
    ensures FirstIndex(init + [last], k) == FirstIndex(init, k)
  {
    KeysAppend(init, last);
    var files := init + [last];
    var p := FirstIndex(init, k);
    assert files[p] == init[p];
    assert forall j :: 0 <= j < p ==> files[j] == init[j];
  }

  /** Merged entries appear in the order in which their keys were FIRST seen. */
  lemma {:induction false} DedupFirstSeenOrder(files: seq<UploadFile>, i: int, i': int)
    requires 0 <= i < i' < |Dedup(files)|
    ensures Key(Dedup(files)[i]) in Keys(files) && Key(Dedup(files)[i']) in Keys(files)
    ensures FirstIndex(files, Key(Dedup(files)[i])) < FirstIndex(files, Key(Dedup(files)[i']))
  {
    var init, last := files[..|files| - 1], files[|files| - 1];
    var d := Dedup(init);
    var r := Dedup(files);
    assert files == init + [last];
    KeysAppend(init, last);
    DedupKeySet(init);
    MapSetFacts(d, last);
    assert Keys(r)[i] == Key(r[i]) && Keys(r)[i'] == Key(r[i']);
    if Key(last) in Keys(d) {
      assert Keys(d)[i] == Key(r[i]) && Keys(d)[i'] == Key(r[i']);
      DedupFirstSeenOrder(init, i, i');
      FirstIndexPrefix(init, last, Key(r[i]));
      FirstIndexPrefix(init, last, Key(r[i']));
    } else {
      assert r == d + [last];
      assert Keys(d)[i] == Key(r[i]);
      FirstIndexPrefix(init, last, Key(r[i]));
      if i' < |d| {
        assert Keys(d)[i'] == Key(r[i']);
        DedupFirstSeenOrder(init, i, i');
        FirstIndexPrefix(init, last, Key(r[i']));
      } else {
        forall j | 0 <= j < |init| ensures Key(files[j]) != Key(last) {
          assert Keys(init)[j] == Key(files[j]);
        }
      }
    }
  }

  /** A queue whose keys are already distinct is its own merge. */
  lemma {:induction false} DedupOfDistinct(q: seq<UploadFile>)
    requires DistinctKeys(q)
    ensures Dedup(q) == q
  {
    if |q| > 0 {
      var init, last := q[..|q| - 1], q[|q| - 1];
      DedupOfDistinct(init);
      forall p | 0 <= p < |init| ensures Keys(init)[p] != Key(last) {
        assert Key(q[p]) != Key(q[|q| - 1]);
      }
      MapSetFacts(init, last);
      assert q == init + [last];
    }
  }

  /** Merging is idempotent: merging a merged queue again changes nothing. */
  lemma DedupIdempotent(files: seq<UploadFile>)
    ensures Dedup(Dedup(files)) == Dedup(files)
  {
    DedupDistinct(files);
    DedupOfDistinct(Dedup(files));
  }

  /**
   * Dropping files that are already queued (same key) leaves the queue's
   * length and key order as they were.
   */
  lemma {:induction false} RedropKeepsKeys(queue: seq<UploadFile>, again: seq<UploadFile>)
    requires DistinctKeys(queue)
    requires forall k :: 0 <= k < |again| ==> Key(again[k]) in Keys(queue)
    ensures |Merge(queue, again)| == |queue|
    ensures Keys(Merge(queue, again)) == Keys(queue)
  {
    if |again| == 0 {
      assert queue + again == queue;
      DedupOfDistinct(queue);
    } else {
      var init, last := again[..|again| - 1], again[|again| - 1];
      RedropKeepsKeys(queue, init);
      assert queue + again == (queue + init) + [last];
      MapSetFacts(Dedup(queue + init), last);
    }
  }

  /** The key is plain concatenation, so ("a1", 23 bytes) and ("a12", 3 bytes) collide. */
  lemma KeyCollision(c1: seq<bv8>, c2: seq<bv8>, t1: string, t2: string)
    ensures Key(UploadFile("a1", 23, t1, c1)) == Key(UploadFile("a12", 3, t2, c2)) == "a123"
    ensures |Merge([UploadFile("a1", 23, t1, c1)], [UploadFile("a12", 3, t2, c2)])| == 1
  {
    assert NatToString(23) == NatToString(2) + [Digit(3)];
    assert NatToString(23) == "23";
    assert NatToString(3) == "3";
    var q := [UploadFile("a1", 23, t1, c1)];
    var again := [UploadFile("a12", 3, t2, c2)];
    assert Key(again[0]) == Keys(q)[0] == "a123";
    assert DistinctKeys(q);
    RedropKeepsKeys(q, again);
  }

  /** One part of the multipart body: a field name and the file sent under it. */
  datatype Part = Part(field: string, file: UploadFile)

  /** What a server response to the batch looks like. */
  datatype UploadOutcome =
    | Accepted(extractedData: map<string, Record>)
    | Rejected(detail: Option<string>, message: string)

  /** What `onDrop` does once the response is in. */
  datatype DropEffect =
    | NotifyParent(extractedData: map<string, Record>, files: seq<UploadFile>)
    | Alert(message: string)

  /**
   * The alert text: the server's `detail` when present and non-empty (the
   * `||` treats `""` as absent), else the transport error's message.
   */
  function ErrorMessage(detail: Option<string>, message: string): (r: string)
    ensures StartsWith(r, "Error uploading files: ")
    ensures detail.Some? && detail.value != "" ==> r == "Error uploading files: " + detail.value
    ensures detail.None? || detail.value == "" ==> r == "Error uploading files: " + message
  {
    var shown := if detail.Some? && detail.value != "" then detail.value else message;
    var r := "Error uploading files: " + shown;
    assert r[..|"Error uploading files: "|] == "Error uploading files: ";
    r
  }

  /**
   * `uniqueFiles.forEach(file => formData.append('files', file))`: the
   * multipart body holds exactly the given files, in order, each under `files`.
   */
  method BuildFormData(files: seq<UploadFile>) returns (parts: seq<Part>)
    ensures |parts| == |files|
    ensures forall k :: 0 <= k < |files| ==> parts[k] == Part("files", files[k])
  {
    parts := [];
    var i := 0;
    while i < |files|
      invariant 0 <= i <= |files|
      invariant |parts| == i
      invariant forall k :: 0 <= k < i ==> parts[k] == Part("files", files[k])
    {
      parts := parts + [Part("files", files[i])];
      i := i + 1;
    }
  }

  /** The `FileUpload` component's state: the busy flag and the queue it lists. */
  class FileUploadComponent {
    var isUploading: bool
    var uploadedFiles: seq<UploadFile>

    ghost predicate Valid()
      reads this
    {
      DistinctKeys(uploadedFiles)
    }

    constructor ()
      ensures Valid() && !isUploading && uploadedFiles == []
    {
      isUploading := false;
      uploadedFiles := [];
    }

    /**
     * The synchronous half of `onDrop`: raise the busy flag, merge the
     * dropped files into the queue and build the batch from the merged queue.
     * Returns the batch and the deduplicated files it holds.
     */
    method BeginDrop(acceptedFiles: seq<UploadFile>) returns (batch: seq<Part>, sent: seq<UploadFile>)
      requires Valid()
      modifies this
      ensures Valid()
      ensures isUploading
      ensures uploadedFiles == Merge(old(uploadedFiles), acceptedFiles) == sent
      ensures |batch| == |sent| && forall k :: 0 <= k < |sent| ==> batch[k] == Part("files", sent[k])
    {
      isUploading := true;
      uploadedFiles := Merge(uploadedFiles, acceptedFiles);
      DedupDistinct(old(uploadedFiles) + acceptedFiles);
      sent := uploadedFiles;
      batch := BuildFormData(sent);
    }

    /**
     * The half of `onDrop` after the response: on success the parent is
     * given the extracted data and the files sent; on failure an alert is
     * shown and the queue is kept for a retry. Either way the busy flag drops.
     */
    method FinishDrop(sent: seq<UploadFile>, outcome: UploadOutcome) returns (effect: DropEffect)
      requires Valid()
      modifies this
      ensures Valid() && !isUploading && uploadedFiles == old(uploadedFiles)
      ensures outcome.Accepted? ==> effect == NotifyParent(outcome.extractedData, sent)
      ensures outcome.Rejected? ==> effect == Alert(ErrorMessage(outcome.detail, outcome.message))
    {
      match outcome {
      case Accepted(data) =>
        effect := NotifyParent(data, sent);
      case Rejected(detail, message) =>
        effect := Alert(ErrorMessage(detail, message));
      }
      isUploading := false;
    }
  }
}
