/**
 * Text extraction of `document_processor.py`: each path is keyed by its
 * position and lower-cased extension, PDFs and XLSX workbooks are turned into
 * text, other paths are skipped; a workbook's text lists each sheet's name
 * and its non-blank rows, cells separated by tabs.
 */
module DocumentProcessor {
  import opened Wrappers
  import opened Text
  import opened Preview

  /** The position of the last `c` among the first `n` characters of `s`, or -1. */
  function LastIndexOf(s: string, c: char, n: nat): (r: int)
    requires n <= |s|
    ensures -1 <= r < n
    ensures r >= 0 ==> s[r] == c
  {
    if n == 0 then -1
    else if s[n - 1] == c then n - 1
    else LastIndexOf(s, c, n - 1)
  }

  /**
   * `os.path.splitext(path)[1]` for POSIX paths: the extension runs from the
   * last dot of the last path component to the end, and exists only when the
   * component has a character other than a dot before that dot (so `.pdf` and
   * `..pdf` have none); when there is none the result is empty.
   */
  function Ext(path: string): (e: string)
    ensures EndsWith(path, e)
    ensures e == [] || (e[0] == '.' && forall k :: 1 <= k < |e| ==> e[k] != '.' && e[k] != '/')
    ensures e != [] ==>
      exists k :: 0 <= k < |path| - |e| && path[k] != '.' && NoSlash(path, k, |path| - |e|)
    ensures e == [] ==>
      forall d :: 0 <= d < |path| && path[d] == '.' && NoSlash(path, d, |path|) ==>
        forall k :: 0 <= k < d && NoSlash(path, k, d) ==> path[k] == '.'
  {
    var sep := LastIndexOf(path, '/', |path|);
    var dot := LastIndexOf(path, '.', |path|);
    ExtRule(path, sep, dot);
    if dot > sep && HasNonDot(path, sep + 1, dot) then path[dot..] else []
  }

  /** No `/` among `s[lo..hi]`: those positions lie in one path component. */
  predicate NoSlash(s: string, lo: nat, hi: nat)
    requires lo <= hi <= |s|
  {
    forall m :: lo <= m < hi ==> s[m] != '/'
  }

  /** The two cases of `Ext`, in terms of the last slash `sep` and the last dot `dot`. */
  lemma ExtRule(path: string, sep: int, dot: int)
    requires sep == LastIndexOf(path, '/', |path|) && dot == LastIndexOf(path, '.', |path|)
    ensures dot > sep && HasNonDot(path, sep + 1, dot) ==>
      var e := path[dot..];
      EndsWith(path, e) && e[0] == '.' && (forall k :: 1 <= k < |e| ==> e[k] != '.' && e[k] != '/')
      && exists k :: 0 <= k < |path| - |e| && path[k] != '.' && NoSlash(path, k, |path| - |e|)
    ensures !(dot > sep && HasNonDot(path, sep + 1, dot)) ==>
      forall d :: 0 <= d < |path| && path[d] == '.' && NoSlash(path, d, |path|) ==>
        forall k :: 0 <= k < d && NoSlash(path, k, d) ==> path[k] == '.'
  {
    if dot > sep && HasNonDot(path, sep + 1, dot) {
      var e := path[dot..];
      assert path[|path| - |e|..] == e;
      forall k | 1 <= k < |e| ensures e[k] != '.' && e[k] != '/' {
        LastIndexOfIsLast(path, '.', |path|, dot + k);
        LastIndexOfIsLast(path, '/', |path|, dot + k);
      }
      var k := HasNonDotWitness(path, sep + 1, dot);
      forall m | k <= m < dot ensures path[m] != '/' {
        LastIndexOfIsLast(path, '/', |path|, m);
      }
      assert NoSlash(path, k, |path| - |e|);
    } else {
      forall d | 0 <= d < |path| && path[d] == '.' && NoSlash(path, d, |path|)
        ensures forall k :: 0 <= k < d && NoSlash(path, k, d) ==> path[k] == '.'
      {
        if d > dot {
          LastIndexOfIsLast(path, '.', |path|, d);
        }
        NoNonDot(path, sep + 1, dot);
      }
    }
  }

  /** A position in `s[lo..hi]` that does not hold a dot, when there is one. */
  lemma {:induction false} HasNonDotWitness(s: string, lo: nat, hi: nat) returns (k: nat)
    requires lo <= hi <= |s| && HasNonDot(s, lo, hi)
    ensures lo <= k < hi && s[k] != '.'
    decreases hi - lo
  {
    if s[lo] != '.' {
      k := lo;
    } else {
      k := HasNonDotWitness(s, lo + 1, hi);
    }
  }

  /** Without a non-dot, `s[lo..hi]` is all dots. */
  lemma {:induction false} NoNonDot(s: string, lo: nat, hi: nat)
    requires lo <= hi <= |s| && !HasNonDot(s, lo, hi)
    ensures forall k :: lo <= k < hi ==> s[k] == '.'
    decreases hi - lo
  {
    if lo < hi {
      NoNonDot(s, lo + 1, hi);
    }
  }

  /** No `c` follows the position `LastIndexOf` reports. */
  lemma {:induction false} LastIndexOfIsLast(s: string, c: char, n: nat, k: nat)
    requires n <= |s| && LastIndexOf(s, c, n) < k < n
    ensures s[k] != c
  {
    if s[n - 1] != c && k < n - 1 {
      LastIndexOfIsLast(s, c, n - 1, k);
    }
  }

  /** Some character of `s[lo..hi]` is not a dot. */
  predicate HasNonDot(s: string, lo: nat, hi: nat)
    requires lo <= hi <= |s|
    decreases hi - lo
  {
    lo < hi && (s[lo] != '.' || HasNonDot(s, lo + 1, hi))
  }

  /** `f"document_{i}{ext}"`. */
  function EntryKey(i: nat, ext: string): string {
    "document_" + NatToString(i) + ext
  }

  /** The text of one row: the cells joined by tabs, an empty cell as "". */
  function RowText(row: seq<Cell>): string {
    Join(seq(|row|, k requires 0 <= k < |row| => row[k].GetOr("")), "\t")
  }

  /**
   * What one row adds to the text: its line, unless the line is blank. The
   * source keeps a line when `strip()` leaves something of it, which is when
   * it is not all whitespace (`Text.StripEmptyIffBlank`).
   */
  function RowLine(row: seq<Cell>): string {
    var t := RowText(row);
    if !IsBlank(t) then t + "\n" else ""
  }

  /** The lines of the first `n` rows. */
  function RowsText(rows: seq<seq<Cell>>, n: nat): string
    requires n <= |rows|
  {
    if n == 0 then "" else RowsText(rows, n - 1) + RowLine(rows[n - 1])
  }

  /** What one sheet adds: a heading naming it, its kept rows, and a blank line. */
  function SheetText(name: string, rows: seq<seq<Cell>>): string {
    "Sheet: " + name + "\n" + RowsText(rows, |rows|) + "\n"
  }

  /** The text of the first `n` sheets, in workbook order. */
  function WorkbookText(wb: Workbook, n: nat): string
    requires n <= |wb.sheetNames|
    decreases n, 0, 0
  {
    if n == 0 then ""
    else SheetProgress(wb, n - 1, |wb.sheets[wb.sheetNames[n - 1]]|) + "\n"
  }

  /**
   * The text once sheet `s` has been opened and its first `r` rows have
   * been read, built in the order the extraction appends its pieces.
   */
  function SheetProgress(wb: Workbook, s: nat, r: nat): string
    requires s < |wb.sheetNames| && r <= |wb.sheets[wb.sheetNames[s]]|
    decreases s, 1, r
  {
    var name := wb.sheetNames[s];
    if r == 0 then WorkbookText(wb, s) + ("Sheet: " + name + "\n")
    else SheetProgress(wb, s, r - 1) + RowLine(wb.sheets[name][r - 1])
  }

  /** `extract_text_from_xlsx`, on the workbook the spreadsheet library loaded. */
  method ExtractTextFromXlsx(wb: Workbook) returns (text: string)
    ensures text == WorkbookText(wb, |wb.sheetNames|)
  {
    text := "";
    var s := 0;
    while s < |wb.sheetNames|
      invariant 0 <= s <= |wb.sheetNames|
      invariant text == WorkbookText(wb, s)
    {
      text := text + ("Sheet: " + wb.sheetNames[s] + "\n");
      text := AppendRows(wb, s, text);
      text := text + "\n";
      s := s + 1;
    }
  }

  /** The row loop of `extract_text_from_xlsx` for sheet `s`: each non-blank row's text and a newline. */
  method AppendRows(wb: Workbook, s: nat, start: string) returns (text: string)
    requires s < |wb.sheetNames|
    requires start == SheetProgress(wb, s, 0)
    ensures text == SheetProgress(wb, s, |wb.sheets[wb.sheetNames[s]]|)
  {
    var rows := wb.sheets[wb.sheetNames[s]];
    text := start;
    var r := 0;
    while r < |rows|
      invariant 0 <= r <= |rows|
      invariant text == SheetProgress(wb, s, r)
    {
      var rowText := RowText(rows[r]);
      if !IsBlank(rowText) {
        text := text + (rowText + "\n");
      }
      r := r + 1;
    }
  }

  /** Reading a sheet's first `r` rows appends their kept lines to its heading. */
  lemma {:induction false} SheetProgressSpec(wb: Workbook, s: nat, r: nat)
    requires s < |wb.sheetNames| && r <= |wb.sheets[wb.sheetNames[s]]|
    ensures SheetProgress(wb, s, r) ==
      WorkbookText(wb, s) + ("Sheet: " + wb.sheetNames[s] + "\n") + RowsText(wb.sheets[wb.sheetNames[s]], r)
  {
    if r > 0 {
      SheetProgressSpec(wb, s, r - 1);
    }
  }

  /** The workbook's text is each sheet's text in turn. */
  lemma WorkbookTextBySheet(wb: Workbook, n: nat)
    requires n < |wb.sheetNames|
    ensures WorkbookText(wb, n + 1) ==
      WorkbookText(wb, n) + SheetText(wb.sheetNames[n], wb.sheets[wb.sheetNames[n]])
  {
    SheetProgressSpec(wb, n, |wb.sheets[wb.sheetNames[n]]|);
  }

  /** A row whose cells are all empty contributes nothing: its text is only tabs. */
  lemma EmptyRowOmitted(row: seq<Cell>)
    requires forall k :: 0 <= k < |row| ==> row[k].None?
    ensures RowLine(row) == ""
  {
    var parts := seq(|row|, k requires 0 <= k < |row| => row[k].GetOr(""));
    JoinOfBlanks(parts);
  }

  lemma {:induction false} JoinOfBlanks(parts: seq<string>)
    requires forall k :: 0 <= k < |parts| ==> parts[k] == ""
    ensures IsBlank(Join(parts, "\t"))
  {
    if |parts| > 1 {
      JoinOfBlanks(parts[1..]);
      assert Join(parts, "\t") == "\t" + Join(parts[1..], "\t");
    }
  }

  /** Each sheet's text opens with its heading and closes with a blank line. */
  lemma SheetTextShape(name: string, rows: seq<seq<Cell>>)
    ensures StartsWith(SheetText(name, rows), "Sheet: " + name + "\n")
    ensures EndsWith(SheetText(name, rows), "\n")
  {
    var t := SheetText(name, rows);
    assert t[..|"Sheet: " + name + "\n"|] == "Sheet: " + name + "\n";
    assert t[|t| - 1..] == "\n";
  }

  /** One key/text pair of the result, in insertion order. */
  datatype Entry = Entry(key: string, text: string)

  /**
   * The readers the extraction uses, on a file's bytes: the PDF text reader,
   * and the workbook loader (`load_workbook` with cached values).
   */
  datatype Readers = Readers(pdfText: seq<bv8> -> string, workbookOf: seq<bv8> -> Workbook)

  /** The extension the extraction dispatches on: `os.path.splitext(path)[1].lower()`. */
  function LowerExt(path: string): string {
    AsciiLower(Ext(path))
  }

  /** The extensions the extraction handles; paths with any other are skipped. */
  predicate Handled(ext: string) {
    ext == ".pdf" || ext == ".xlsx"
  }

  /** The key path `i` is stored under, when its extension is handled. */
  function KeyFor(i: nat, path: string): Option<string> {
    var ext := LowerExt(path);
    if Handled(ext) then Some(EntryKey(i, ext)) else None
  }

  /** The text taken from a handled path holding `content`: a PDF's text, or the workbook's text. */
  function TextFor(path: string, content: seq<bv8>, readers: Readers): string {
    if LowerExt(path) == ".pdf" then readers.pdfText(content)
    else WorkbookText(readers.workbookOf(content), |readers.workbookOf(content).sheetNames|)
  }

  /**
   * The entry path `i` yields when the file system `fs` maps each path to its
   * bytes: its key and its text, when its extension is handled.
   */
  function EntryFor(i: nat, path: string, fs: string -> seq<bv8>, readers: Readers): Option<Entry> {
    match KeyFor(i, path)
    case Some(key) => Some(Entry(key, TextFor(path, fs(path), readers)))
    case None => None
  }

  /** What `f` yields for the first `n` paths, in order, skipping those it yields nothing for. */
  function Gather<T>(paths: seq<string>, n: nat, f: (nat, string) -> Option<T>): seq<T>
    requires n <= |paths|
  {
    if n == 0 then []
    else
      var prev := Gather(paths, n - 1, f);
      match f(n - 1, paths[n - 1])
      case Some(x) => prev + [x]
      case None => prev
  }

  /** The entries for the first `n` paths, in order. */
  function Entries(paths: seq<string>, n: nat, fs: string -> seq<bv8>, readers: Readers): seq<Entry>
    requires n <= |paths|
  {
    Gather(paths, n, (i: nat, path: string) => EntryFor(i, path, fs, readers))
  }

  /** The keys of the entries for the paths, in order. */
  function KeyList(paths: seq<string>): seq<string> {
    Gather(paths, |paths|, KeyFor)
  }

  /**
   * `process_documents(file_paths)`: a dictionary, listed in insertion order,
   * from `document_{i}{ext}` to the text of path `i`.
   */
  method ProcessDocuments(paths: seq<string>, fs: string -> seq<bv8>, readers: Readers) returns (entries: seq<Entry>)
    ensures entries == Entries(paths, |paths|, fs, readers)
  {
    entries := [];
    var i := 0;
    while i < |paths|
      invariant 0 <= i <= |paths|
      invariant entries == Entries(paths, i, fs, readers)
    {
      var path := paths[i];
      var ext := AsciiLower(Ext(path));
      var key := EntryKey(i, ext);
      if ext == ".pdf" {
        entries := entries + [Entry(key, readers.pdfText(fs(path)))];
      } else if ext == ".xlsx" {
        var text := ExtractTextFromXlsx(readers.workbookOf(fs(path)));
        entries := entries + [Entry(key, text)];
      }
      i := i + 1;
    }
  }

  /** Gathering yields at most one item per path. */
  lemma {:induction false} GatherAtMostOnePerPath<T>(paths: seq<string>, n: nat, f: (nat, string) -> Option<T>)
    requires n <= |paths|
    ensures |Gather(paths, n, f)| <= n
  {
    if n > 0 {
      GatherAtMostOnePerPath(paths, n - 1, f);
    }
  }

  /** Gathering keeps exactly what `f` yields for the paths. */
  lemma {:induction false} GatherExactly<T>(paths: seq<string>, n: nat, f: (nat, string) -> Option<T>)
    requires n <= |paths|
    ensures forall i :: 0 <= i < n && f(i, paths[i]).Some? ==> f(i, paths[i]).value in Gather(paths, n, f)
    ensures forall x :: x in Gather(paths, n, f) ==> exists i :: 0 <= i < n && f(i, paths[i]) == Some(x)
  {
    if n > 0 {
      GatherExactly(paths, n - 1, f);
      var prev := Gather(paths, n - 1, f);
      assert forall x :: x in prev ==> x in Gather(paths, n, f);
    }
  }

  /** When `f` yields different items for different positions, gathering repeats nothing. */
  lemma {:induction false} GatherDistinct<T>(paths: seq<string>, n: nat, f: (nat, string) -> Option<T>)
    requires n <= |paths|
    requires forall i, j :: 0 <= i < j < n && f(i, paths[i]).Some? && f(j, paths[j]).Some? ==>
      f(i, paths[i]).value != f(j, paths[j]).value
    ensures forall a, b :: 0 <= a < b < |Gather(paths, n, f)| ==> Gather(paths, n, f)[a] != Gather(paths, n, f)[b]
  {
    if n > 0 {
      GatherDistinct(paths, n - 1, f);
      GatherExactly(paths, n - 1, f);
    }
  }

  /** Gathering commutes with a map that `f` and `g` agree through. */
  lemma {:induction false} GatherMap<T, U>(paths: seq<string>, n: nat, f: (nat, string) -> Option<T>,
                                          g: (nat, string) -> Option<U>, h: T -> U)
    requires n <= |paths|
    requires forall i :: 0 <= i < n ==> g(i, paths[i]) == (match f(i, paths[i]) case Some(x) => Some(h(x)) case None => None)
    ensures |Gather(paths, n, g)| == |Gather(paths, n, f)|
    ensures forall k :: 0 <= k < |Gather(paths, n, f)| ==> Gather(paths, n, g)[k] == h(Gather(paths, n, f)[k])
  {
    if n > 0 {
      GatherMap(paths, n - 1, f, g, h);
    }
  }

  /** The result's keys, in order, are the keys of the handled paths. */
  lemma EntriesKeys(paths: seq<string>, fs: string -> seq<bv8>, readers: Readers)
    ensures |Entries(paths, |paths|, fs, readers)| == |KeyList(paths)|
    ensures forall k :: 0 <= k < |KeyList(paths)| ==> Entries(paths, |paths|, fs, readers)[k].key == KeyList(paths)[k]
  {
    GatherMap(paths, |paths|, (i: nat, path: string) => EntryFor(i, path, fs, readers), KeyFor, (e: Entry) => e.key);
  }

  /** Each entry holds the text of the path its key was made from. */
  lemma EntriesTexts(paths: seq<string>, fs: string -> seq<bv8>, readers: Readers)
    ensures forall e :: e in Entries(paths, |paths|, fs, readers) ==>
      exists i :: 0 <= i < |paths| && KeyFor(i, paths[i]) == Some(e.key) && e.text == TextFor(paths[i], fs(paths[i]), readers)
  {
    GatherExactly(paths, |paths|, (i: nat, path: string) => EntryFor(i, path, fs, readers));
  }

  /**
   * A single path yields one entry, holding the text of its bytes, when its
   * extension is handled, and nothing otherwise; only that path's bytes matter.
   */
  lemma EntriesOfOne(path: string, fs: string -> seq<bv8>, readers: Readers)
    ensures Handled(LowerExt(path)) ==>
      Entries([path], 1, fs, readers) == [Entry(EntryKey(0, LowerExt(path)), TextFor(path, fs(path), readers))]
    ensures !Handled(LowerExt(path)) ==> Entries([path], 1, fs, readers) == []
  {
    assert Gather([path], 0, (i: nat, p: string) => EntryFor(i, p, fs, readers)) == [];
    assert [path][0] == path;
  }

  /**
   * Every path with a `.pdf` or `.xlsx` extension (any case) has its key in
   * the result, `document_{i}{ext}` with `i` its position, skipped paths
   * included; every key in the result is one of these, and there is at most
   * one per path.
   */
  lemma KeyListExactly(paths: seq<string>)
    ensures |KeyList(paths)| <= |paths|
    ensures forall i :: 0 <= i < |paths| && KeyFor(i, paths[i]).Some? ==> KeyFor(i, paths[i]).value in KeyList(paths)
    ensures forall key :: key in KeyList(paths) ==> exists i :: 0 <= i < |paths| && KeyFor(i, paths[i]) == Some(key)
  {
    GatherAtMostOnePerPath(paths, |paths|, KeyFor);
    GatherExactly(paths, |paths|, KeyFor);
  }

  /** No two entries of the result share a key. */
  lemma KeyListDistinct(paths: seq<string>)
    ensures forall a, b :: 0 <= a < b < |KeyList(paths)| ==> KeyList(paths)[a] != KeyList(paths)[b]
  {
    forall i, j | 0 <= i < j < |paths| && KeyFor(i, paths[i]).Some? && KeyFor(j, paths[j]).Some?
      ensures KeyFor(i, paths[i]).value != KeyFor(j, paths[j]).value
    {
      KeyForIndex(i, paths[i]);
      KeyForIndex(j, paths[j]);
    }
    GatherDistinct(paths, |paths|, KeyFor);
  }

  /** A path's key gives back the path's position. */
  lemma KeyForIndex(i: nat, path: string)
    ensures KeyFor(i, path).Some? ==> KeyIndex(KeyFor(i, path).value) == i
  {
    if KeyFor(i, path).Some? {
      KeyIndexOfEntryKey(i, LowerExt(path));
    }
  }

  /** The length of the leading run of digits of `s`. */
  function DigitRun(s: string): (r: nat)
    ensures r <= |s|
  {
    if s == [] || !IsDigit(s[0]) then 0 else 1 + DigitRun(s[1..])
  }

  lemma {:induction false} DigitsThenNonDigit(d: string, e: string)
    requires forall k :: 0 <= k < |d| ==> IsDigit(d[k])
    requires e != [] && !IsDigit(e[0])
    ensures DigitRun(d + e) == |d|
  {
    if d != [] {
      assert (d + e)[1..] == d[1..] + e;
      DigitsThenNonDigit(d[1..], e);
    } else {
      assert d + e == e;
    }
  }

  /** The number a string of decimal digits denotes. */
  function DigitsValue(s: string): nat
  {
    if s == [] then 0 else 10 * DigitsValue(s[..|s| - 1]) + DigitValue(s[|s| - 1])
  }

  function DigitValue(c: char): nat {
    if IsDigit(c) then c as int - '0' as int else 0
  }

  /** Reading a rendered number back gives the number. */
  lemma {:induction false} DigitsValueOfNatToString(n: nat)
    ensures DigitsValue(NatToString(n)) == n
  {
    var r := NatToString(n);
    if n >= 10 {
      DigitsValueOfNatToString(n / 10);
      assert r[..|r| - 1] == NatToString(n / 10);
    }
  }

  /** The index a key of the form `document_{i}{ext}` was made from. */
  function KeyIndex(key: string): nat {
    var rest := if |key| >= |"document_"| then key[|"document_"|..] else [];
    DigitsValue(rest[..DigitRun(rest)])
  }

  /** `KeyIndex` recovers the index from every key whose extension does not start with a digit. */
  lemma KeyIndexOfEntryKey(i: nat, ext: string)
    requires ext != [] && !IsDigit(ext[0])
    ensures KeyIndex(EntryKey(i, ext)) == i
  {
    var d := NatToString(i);
    var key := EntryKey(i, ext);
    assert key[|"document_"|..] == d + ext;
    DigitsThenNonDigit(d, ext);
    assert (d + ext)[..|d|] == d;
    DigitsValueOfNatToString(i);
  }

  /** `os.path.splitext` on a few names: the extension keeps its case and its dot. */
  lemma ExtExamples()
    ensures Ext("a.pdf") == ".pdf"
    ensures Ext("b.XLSX") == ".XLSX"
    ensures Ext("n.txt") == ".txt"
    ensures Ext(".pdf") == []
    ensures Ext("dir.v2/notes") == []
  {
    assert LastIndexOf("a.pdf", '/', 5) == -1;
    assert LastIndexOf("a.pdf", '.', 5) == 1;
    assert LastIndexOf("b.XLSX", '/', 6) == -1;
    assert LastIndexOf("b.XLSX", '.', 6) == 1;
    assert LastIndexOf("n.txt", '/', 5) == -1;
    assert LastIndexOf("n.txt", '.', 5) == 1;
    assert LastIndexOf(".pdf", '.', 4) == 0;
    assert LastIndexOf("dir.v2/notes", '/', 12) == 6;
    assert LastIndexOf("dir.v2/notes", '.', 12) == 3;
  }

  /** The key of a handled path, worked out from its lower-cased extension. */
  lemma KeyForOf(i: nat, path: string, ext: string)
    requires LowerExt(path) == ext && Handled(ext)
    ensures KeyFor(i, path) == Some("document_" + NatToString(i) + ext)
  {
  }

  /** `process_documents` keys a path by its position and its extension in lower case. */
  lemma KeyScheme()
    ensures KeyList(["a.pdf", "b.XLSX"]) == ["document_0.pdf", "document_1.xlsx"]
  {
    var paths := ["a.pdf", "b.XLSX"];
    ExtExamples();
    assert NatToString(0) == "0" && NatToString(1) == "1";
    KeyForOf(0, paths[0], ".pdf");
    KeyForOf(1, paths[1], ".xlsx");
    assert "document_" + NatToString(0) + ".pdf" == "document_0.pdf";
    assert KeyFor(0, paths[0]) == Some("document_0.pdf");
    assert Gather(paths, 0, KeyFor) == [];
    assert Gather(paths, 1, KeyFor) == Gather(paths, 0, KeyFor) + ["document_0.pdf"];
    assert "document_" + NatToString(1) + ".xlsx" == "document_1.xlsx";
    assert KeyFor(1, paths[1]) == Some("document_1.xlsx");
    assert Gather(paths, 2, KeyFor) == Gather(paths, 1, KeyFor) + ["document_1.xlsx"];
    assert KeyList(paths) == Gather(paths, 2, KeyFor);
  }

  /** A skipped path still uses up its position. */
  lemma SkippedPathKeepsPosition()
    ensures KeyList(["n.txt", "a.pdf"]) == ["document_1.pdf"]
  {
    var paths := ["n.txt", "a.pdf"];
    ExtExamples();
    assert NatToString(1) == "1";
    assert LowerExt(paths[0]) == ".txt";
    assert KeyFor(0, paths[0]) == None;
    KeyForOf(1, paths[1], ".pdf");
    assert "document_" + NatToString(1) + ".pdf" == "document_1.pdf";
    assert Gather(paths, 0, KeyFor) == [];
    assert Gather(paths, 1, KeyFor) == [];
    assert Gather(paths, 2, KeyFor) == Gather(paths, 1, KeyFor) + ["document_1.pdf"];
    assert KeyList(paths) == Gather(paths, 2, KeyFor);
  }

  /** The row `["Sample", "Data"]` reads `Sample<TAB>Data`. */
  lemma RowTextExample()
    ensures RowText([Some("Sample"), Some("Data")]) == "Sample\tData"
  {
    var parts := seq(2, k requires 0 <= k < 2 => [Some("Sample"), Some("Data")][k].GetOr(""));
    assert parts == ["Sample", "Data"];
    assert Join(["Sample", "Data"], "\t") == "Sample" + "\t" + Join(["Data"], "\t");
  }
}
