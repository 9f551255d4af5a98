/** The page-count verifier run after an export: for every document of the
    import list, the number of pages expected (the page cells of its line)
    against the number found in the exported PDF or multipage TIFF, and a
    rework list of the import lines whose documents came out wrong. Reading
    a PDF or a TIFF is outside the model: what the file holds is an input. */
module PageCounters {
  import opened Outcomes
  import opened Text
  import opened Paths
  import opened Sequences

  /** The column of the document name and the first page column. */
  const FilenameColumn: nat := 1
  const NumDataColumns: nat := 2

  /** One document's counts. */
  datatype PageCountResult = PageCountResult(title: string, extension: string, filename: string,
                                             expectedCount: int, actualCount: int)
  {
    predicate Failed() {
      expectedCount != actualCount
    }
  }

  /** The row `as_row` gives for the results table. */
  datatype ResultRow = ResultRow(title: string, filename: string, expected: int, actual: int, failed: bool)

  function AsRow(r: PageCountResult): (row: ResultRow)
    ensures row.failed <==> r.expectedCount != r.actualCount
    ensures row.title == r.title && row.filename == r.filename
    ensures row.expected == r.expectedCount && row.actual == r.actualCount
  {
    ResultRow(r.title, r.filename, r.expectedCount, r.actualCount, r.Failed())
  }

  /** A fresh entry has counted no pages, so it fails unless it expects none. */
  lemma FreshEntryFailsUnlessEmpty(title: string, ext: string, name: string, expected: int)
    ensures PageCountResult(title, ext, name, expected, 0).Failed() <==> expected != 0
  {
  }

  // ---------------------------------------------------------------------------
  // Reading the import list
  // ---------------------------------------------------------------------------

  /** What a line of the import list contributes: its stripped document
      name and its number of page cells, from the first page column on with
      empty ones included; nothing for a line with a single cell. */
  datatype LineEntry = LineEntry(document: string, expected: nat)

  function EntryOf(line: string): Option<LineEntry> {
    var parts := CommaFields(line);
    if |parts| > FilenameColumn then Some(LineEntry(Strip(parts[FilenameColumn]), |parts| - NumDataColumns))
    else None
  }

  /** `EntryOf` as a value: the functions below take the parser as a
      parameter so that their properties hold for any parser. */
  function LineEntries(): string -> Option<LineEntry> {
    line => EntryOf(line)
  }

  /** The key of a line's document. */
  function KeyOf(entry: string -> Option<LineEntry>, line: string, ext: string): string
    requires entry(line).Some?
  {
    entry(line).value.document + ext
  }

  /** The index of the last line naming document `key`, or -1. */
  function LastLineOf(entry: string -> Option<LineEntry>, lines: seq<string>, ext: string, key: string): (j: int)
    ensures -1 <= j < |lines|
    ensures j >= 0 ==> entry(lines[j]).Some? && KeyOf(entry, lines[j], ext) == key
    ensures forall i :: j < i < |lines| && entry(lines[i]).Some? ==> KeyOf(entry, lines[i], ext) != key
  {
    if lines == [] then -1
    else
      var last := lines[|lines| - 1];
      if entry(last).Some? && KeyOf(entry, last, ext) == key then |lines| - 1
      else LastLineOf(entry, lines[..|lines| - 1], ext, key)
  }

  /** The document keys in dictionary order: first appearance. */
  function Keys(entry: string -> Option<LineEntry>, lines: seq<string>, ext: string): (keys: seq<string>)
  {
    if lines == [] then []
    else
      var keys := Keys(entry, lines[..|lines| - 1], ext);
      var last := lines[|lines| - 1];
      if entry(last).Some? && KeyOf(entry, last, ext) !in keys then keys + [KeyOf(entry, last, ext)] else keys
  }

  /** The dictionary built by `PageCounter.__init__`: a later line for the
      same document replaces the earlier entry. */
  function Expected(entry: string -> Option<LineEntry>, lines: seq<string>, title: string, ext: string)
    : map<string, PageCountResult>
  {
    if lines == [] then map[]
    else
      var m := Expected(entry, lines[..|lines| - 1], title, ext);
      var last := lines[|lines| - 1];
      if entry(last).Some? then
        var key := KeyOf(entry, last, ext);
        m[key := PageCountResult(title, ext, key, entry(last).value.expected, 0)]
      else m
  }

  predicate Distinct(s: seq<string>) {
    forall i, j :: 0 <= i < j < |s| ==> s[i] != s[j]
  }

  /** The keys are distinct and are exactly the documents in the dictionary. */
  lemma {:induction false} KeysMatchExpected(entry: string -> Option<LineEntry>, lines: seq<string>, title: string, ext: string)
    ensures Distinct(Keys(entry, lines, ext))
    ensures forall k :: k in Keys(entry, lines, ext) <==> k in Expected(entry, lines, title, ext)
  {
    if lines != [] {
      KeysMatchExpected(entry, lines[..|lines| - 1], title, ext);
    }
  }

  /** A document is listed exactly when some line names it; its entry comes
      from the last such line, expects that line's page cells and has
      counted nothing yet. */
  lemma {:induction false} ExpectedLookup(entry: string -> Option<LineEntry>, lines: seq<string>, title: string, ext: string,
                                          key: string)
    ensures key in Expected(entry, lines, title, ext) <==> LastLineOf(entry, lines, ext, key) >= 0
    ensures key in Expected(entry, lines, title, ext) ==>
      Expected(entry, lines, title, ext)[key]
        == PageCountResult(title, ext, key, entry(lines[LastLineOf(entry, lines, ext, key)]).value.expected, 0)
  {
    if lines != [] {
      ExpectedLookup(entry, lines[..|lines| - 1], title, ext, key);
    }
  }

  /** Every entry is filed under its own name. */
  lemma {:induction false} ExpectedFilenames(entry: string -> Option<LineEntry>, lines: seq<string>, title: string, ext: string)
    ensures forall k :: k in Expected(entry, lines, title, ext) ==> Expected(entry, lines, title, ext)[k].filename == k
  {
    if lines != [] {
      ExpectedFilenames(entry, lines[..|lines| - 1], title, ext);
    }
  }

  /** The dictionary invariant: distinct keys in dictionary order, exactly
      the documents of the dictionary, each entry filed under its own name. */
  ghost predicate ValidTable(keys: seq<string>, results: map<string, PageCountResult>) {
    && Distinct(keys)
    && (forall k :: k in keys <==> k in results)
    && (forall k :: k in results ==> results[k].filename == k)
  }

  lemma TableValid(entry: string -> Option<LineEntry>, lines: seq<string>, title: string, ext: string)
    ensures ValidTable(Keys(entry, lines, ext), Expected(entry, lines, title, ext))
  {
    KeysMatchExpected(entry, lines, title, ext);
    ExpectedFilenames(entry, lines, title, ext);
  }

  /** Reading the import file line by line. */
  method ReadExpected(lines: seq<string>, title: string, ext: string)
    returns (keys: seq<string>, results: map<string, PageCountResult>)
    ensures keys == Keys(LineEntries(), lines, ext) && results == Expected(LineEntries(), lines, title, ext)
    ensures ValidTable(keys, results)
  {
    keys, results := [], map[];
    for i := 0 to |lines|
      invariant keys == Keys(LineEntries(), lines[..i], ext) && results == Expected(LineEntries(), lines[..i], title, ext)
    {
      ReadStep(LineEntries(), lines, i, title, ext);
      var entry := EntryOf(lines[i]);
      assert entry == LineEntries()(lines[i]);
      if entry.Some? {
        var tiffName := entry.value.document + ext;
        if tiffName !in keys {
          keys := keys + [tiffName];
        }
        results := results[tiffName := PageCountResult(title, ext, tiffName, entry.value.expected, 0)];
      }
    }
    assert lines[..|lines|] == lines;
    TableValid(LineEntries(), lines, title, ext);
  }

  lemma ReadStep(entry: string -> Option<LineEntry>, lines: seq<string>, i: nat, title: string, ext: string)
    requires i < |lines|
    ensures entry(lines[i]).None? ==>
      Keys(entry, lines[..i + 1], ext) == Keys(entry, lines[..i], ext)
      && Expected(entry, lines[..i + 1], title, ext) == Expected(entry, lines[..i], title, ext)
    ensures entry(lines[i]).Some? ==>
      Keys(entry, lines[..i + 1], ext)
        == (if KeyOf(entry, lines[i], ext) in Keys(entry, lines[..i], ext) then Keys(entry, lines[..i], ext)
            else Keys(entry, lines[..i], ext) + [KeyOf(entry, lines[i], ext)])
    ensures entry(lines[i]).Some? ==>
      Expected(entry, lines[..i + 1], title, ext)
        == Expected(entry, lines[..i], title, ext)[KeyOf(entry, lines[i], ext) :=
             PageCountResult(title, ext, KeyOf(entry, lines[i], ext), entry(lines[i]).value.expected, 0)]
  {
    assert lines[..i + 1][..i] == lines[..i];
  }

  // ---------------------------------------------------------------------------
  // Counting pages
  // ---------------------------------------------------------------------------

  newtype byte = x: int | 0 <= x < 256

  /** The bytes `/Type /Page`. */
  const PageMarker: seq<byte> := [0x2F, 0x54, 0x79, 0x70, 0x65, 0x20, 0x2F, 0x50, 0x61, 0x67, 0x65]

  /** `data.count(pat)`: non-overlapping occurrences, found left to right. */
  function CountOccurrences(data: seq<byte>, pat: seq<byte>): (n: nat)
    requires pat != []
    ensures n * |pat| <= |data|
    decreases |data|
  {
    if |data| < |pat| then 0
    else if data[..|pat|] == pat then 1 + CountOccurrences(data[|pat|..], pat)
    else CountOccurrences(data[1..], pat)
  }

  /** Data without the first byte of the pattern holds no occurrence. */
  lemma {:induction false} CountWithoutFirstByte(data: seq<byte>, pat: seq<byte>)
    requires pat != [] && pat[0] !in data
    ensures CountOccurrences(data, pat) == 0
    decreases |data|
  {
    if |data| >= |pat| {
      assert data[..|pat|][0] == data[0];
      CountWithoutFirstByte(data[1..], pat);
    }
  }

  /** The page-tree node `/Type /Pages` counts as a page: its first eleven
      bytes are the marker. */
  lemma PagesNodeCountsAsPage()
    ensures var pagesNode := PageMarker + [0x73];
      CountOccurrences(pagesNode, PageMarker) == 1
  {
    var pagesNode := PageMarker + [0x73];
    assert pagesNode[..|PageMarker|] == PageMarker;
    assert pagesNode[|PageMarker|..] == [0x73];
  }

  /** A page object followed by other data adds one to the count. */
  lemma CountAfterMarker(rest: seq<byte>)
    ensures CountOccurrences(PageMarker + rest, PageMarker) == 1 + CountOccurrences(rest, PageMarker)
  {
    var data := PageMarker + rest;
    assert data[..|PageMarker|] == PageMarker;
    assert data[|PageMarker|..] == rest;
  }

  datatype CounterKind = PdfKind | TifKind

  /** What the counters find at a document's path: whether it exists; for
      a PDF the bytes read (None when reading raises) and the page count of
      the full parser (None when it raises); for a TIFF the frame count
      (None when opening raises). */
  datatype FileProbe = FileProbe(found: bool, data: Option<seq<byte>>, parsed: Option<nat>, frames: Option<nat>)

  /** `PdfCounter.count_document_pages`. */
  function PdfActualCount(probe: FileProbe): (n: nat)
    ensures !probe.found ==> n == 0
  {
    if !probe.found then 0
    else
      var marked := if probe.data.Some? then CountOccurrences(probe.data.value, PageMarker) else 0;
      if marked > 0 then marked
      else if probe.parsed.Some? then probe.parsed.value
      else 0
  }

  /** `TifCounter.count_document_pages`. */
  function TifActualCount(probe: FileProbe): (n: nat)
    ensures !probe.found ==> n == 0
  {
    if probe.found && probe.frames.Some? then probe.frames.value else 0
  }

  function ActualCount(kind: CounterKind, probe: FileProbe): nat {
    match kind
    case PdfKind => PdfActualCount(probe)
    case TifKind => TifActualCount(probe)
  }

  /** The PDF count is the marker count when that is positive; when the
      marker never occurs or the bytes cannot be read it is the parser's
      count, and 0 when the parser fails too. The TIFF count is the frame
      count of a file that opens, and 0 otherwise. */
  lemma ActualCountCases(probe: FileProbe)
    ensures probe.found && probe.data.Some? && CountOccurrences(probe.data.value, PageMarker) > 0 ==>
      ActualCount(PdfKind, probe) == CountOccurrences(probe.data.value, PageMarker)
    ensures probe.found && (probe.data.None? || CountOccurrences(probe.data.value, PageMarker) == 0) ==>
      ActualCount(PdfKind, probe) == (if probe.parsed.Some? then probe.parsed.value else 0)
    ensures ActualCount(TifKind, probe) == (if probe.found && probe.frames.Some? then probe.frames.value else 0)
    ensures !probe.found ==> ActualCount(PdfKind, probe) == 0 && ActualCount(TifKind, probe) == 0
  {
  }

  /** The entries after a counting pass: every entry's actual count is
      replaced by what its file holds, and nothing else changes. */
  function CountedResults(kind: CounterKind, results: map<string, PageCountResult>, path: string -> string,
                          probe: string -> FileProbe): (r: map<string, PageCountResult>)
    ensures r.Keys == results.Keys
  {
    map k | k in results :: results[k].(actualCount := ActualCount(kind, probe(path(k))))
  }

  /** After a pass an entry fails exactly when the pages found differ from
      the pages expected. */
  lemma CountedFailure(kind: CounterKind, results: map<string, PageCountResult>, path: string -> string,
                       probe: string -> FileProbe, k: string)
    requires k in results
    ensures CountedResults(kind, results, path, probe)[k].Failed() <==>
      results[k].expectedCount != ActualCount(kind, probe(path(k)))
    ensures CountedResults(kind, results, path, probe)[k].filename == results[k].filename
  {
  }

  /** The entries after counting the documents `ks` one after another. */
  function CountedKeys(kind: CounterKind, results: map<string, PageCountResult>, path: string -> string,
                       probe: string -> FileProbe, ks: seq<string>): (r: map<string, PageCountResult>)
    ensures r.Keys == results.Keys
  {
    if ks == [] then results
    else
      var m := CountedKeys(kind, results, path, probe, ks[..|ks| - 1]);
      var k := ks[|ks| - 1];
      if k in m then m[k := m[k].(actualCount := ActualCount(kind, probe(path(k))))] else m
  }

  /** Counting a sequence of documents recounts exactly the entries it names. */
  lemma {:induction false} CountedKeysEntry(kind: CounterKind, results: map<string, PageCountResult>, path: string -> string,
                                            probe: string -> FileProbe, ks: seq<string>, k: string)
    requires k in results
    ensures CountedKeys(kind, results, path, probe, ks)[k] ==
      if k in ks then results[k].(actualCount := ActualCount(kind, probe(path(k)))) else results[k]
  {
    if ks != [] {
      CountedKeysEntry(kind, results, path, probe, ks[..|ks| - 1], k);
      assert k in ks <==> k in ks[..|ks| - 1] || k == ks[|ks| - 1];
    }
  }

  /** Counting every document of the dictionary gives the counted entries. */
  lemma CountedAllKeys(kind: CounterKind, results: map<string, PageCountResult>, path: string -> string,
                       probe: string -> FileProbe, ks: seq<string>)
    requires forall k :: k in results ==> k in ks
    ensures CountedKeys(kind, results, path, probe, ks) == CountedResults(kind, results, path, probe)
  {
    forall k | k in results
      ensures CountedKeys(kind, results, path, probe, ks)[k] == CountedResults(kind, results, path, probe)[k]
    {
      CountedKeysEntry(kind, results, path, probe, ks, k);
    }
  }

  // ---------------------------------------------------------------------------
  // Failed entries and the rework list
  // ---------------------------------------------------------------------------

  function FailedOf(results: map<string, PageCountResult>): string -> Option<PageCountResult> {
    k => if k in results && results[k].Failed() then Some(results[k]) else None
  }

  /** The entries that failed, in dictionary order. */
  function FailedEntries(keys: seq<string>, results: map<string, PageCountResult>): seq<PageCountResult> {
    FilterMap(FailedOf(results), keys)
  }

  /** An entry is reported exactly when it is in the dictionary and failed. */
  lemma FailedEntriesMembers(keys: seq<string>, results: map<string, PageCountResult>, r: PageCountResult)
    requires forall k :: k in keys <==> k in results
    ensures r in FailedEntries(keys, results) <==> r.Failed() && exists k :: k in results && results[k] == r
  {
    FilterMapMembers(FailedOf(results), keys, r);
    if r.Failed() && exists k :: k in results && results[k] == r {
      var k :| k in results && results[k] == r;
      var i :| 0 <= i < |keys| && keys[i] == k;
      assert FailedOf(results)(keys[i]) == Some(r);
    }
  }

  function TargetOf(results: map<string, PageCountResult>): string -> Option<string> {
    k => if k in results && results[k].Failed() then Some(SplitExtRoot(results[k].filename)) else None
  }

  /** `target_files`: the failed documents' names without their extension. */
  function Targets(keys: seq<string>, results: map<string, PageCountResult>): seq<string> {
    FilterMap(TargetOf(results), keys)
  }

  /** The rework lines for the import lines, or the `IndexError` raised by
      the first line without a document column. */
  function ReworkLines(entry: string -> Option<LineEntry>, lines: seq<string>, targets: seq<string>): Result<seq<string>> {
    if lines == [] then Ok([])
    else
      match ReworkLines(entry, lines[..|lines| - 1], targets)
      case Err(e) => Err(e)
      case Ok(kept) =>
        var line := lines[|lines| - 1];
        if entry(line).None? then Err(IndexError)
        else if entry(line).value.document in targets then Ok(kept + [line])
        else Ok(kept)
  }

  function Selected(entry: string -> Option<LineEntry>, targets: seq<string>): string -> Option<string> {
    line => if entry(line).Some? && entry(line).value.document in targets then Some(line) else None
  }

  /** The rework list fails, with an `IndexError`, exactly when some line
      has no document column (a blank line, say). */
  lemma {:induction false} ReworkLinesError(entry: string -> Option<LineEntry>, lines: seq<string>, targets: seq<string>)
    ensures ReworkLines(entry, lines, targets).Err? <==> exists i :: 0 <= i < |lines| && entry(lines[i]).None?
    ensures ReworkLines(entry, lines, targets).Err? ==> ReworkLines(entry, lines, targets).error == IndexError
  {
    if lines != [] {
      var init := lines[..|lines| - 1];
      ReworkLinesError(entry, init, targets);
      if exists i :: 0 <= i < |init| && entry(init[i]).None? {
        var i :| 0 <= i < |init| && entry(init[i]).None?;
        assert lines[i] == init[i];
      }
    }
  }

  /** Otherwise it keeps, verbatim and in file order, exactly the lines
      whose document is a target. */
  lemma {:induction false} ReworkLinesKept(entry: string -> Option<LineEntry>, lines: seq<string>, targets: seq<string>)
    requires ReworkLines(entry, lines, targets).Ok?
    ensures ReworkLines(entry, lines, targets).value == FilterMap(Selected(entry, targets), lines)
  {
    if lines != [] {
      var init := lines[..|lines| - 1];
      ReworkLinesKept(entry, init, targets);
      FilterMapSnoc(Selected(entry, targets), init, lines[|lines| - 1]);
      assert init + [lines[|lines| - 1]] == lines;
    }
  }

  /** A blank line has a single (empty) cell, so `create_rework_file`
      raises on any import list holding one. */
  lemma BlankLineHasNoDocument()
    ensures EntryOf("\n").None?
  {
    assert IsSpace('\n');
    assert "\n"[1..] == "";
    assert StripLeft("\n") == "";
    assert Strip("\n") == "";
    assert Split("", ',') == [""];
  }

  /** Removing the last extension from a key gives back the document name
      it was made from. */
  lemma RootOfKey(name: string, ext: string)
    requires PlainName(name)
    requires ext == ".pdf" || ext == ".tif"
    ensures SplitExtRoot(name + ext) == name
  {
    assert ext[1..] == if ext == ".pdf" then "pdf" else "tif";
    RootOfName(name, ext);
  }

  // ---------------------------------------------------------------------------
  // The counter
  // ---------------------------------------------------------------------------

  function TitleOf(kind: CounterKind): string {
    if kind.PdfKind? then "PDF" else "TIF"
  }

  function ExtensionOf(kind: CounterKind): (ext: string)
    ensures SimpleExtension(ext)
  {
    if kind.PdfKind? then ".pdf" else ".tif"
  }

  /** `Path(os.path.dirname(import_file))`. */
  function BaseDirOf(importFile: string): string {
    PathText(Dirname(importFile))
  }

  /** The folder's name, stripped. */
  function BatchNameOf(importFile: string): string {
    Strip(Name(BaseDirOf(importFile)))
  }

  /** `<base_dir>/<batch name>_<title lower-cased>_rework.txt`. */
  function ReworkFileOf(importFile: string, kind: CounterKind): string {
    PathJoin(BaseDirOf(importFile), BatchNameOf(importFile) + "_" + Lower(TitleOf(kind)) + "_rework.txt")
  }

  /** The export folder the counter looks in: the import folder's path with
      `_pdf` or `_mpt` appended. */
  function OutputDirOf(importFile: string, kind: CounterKind): string {
    BaseDirOf(importFile) + (if kind.PdfKind? then "_pdf" else "_mpt")
  }

  /** The rework file sits in the import folder, named after the batch and
      the counter's kind. */
  lemma ReworkFileName(importFile: string, kind: CounterKind)
    ensures Basename(ReworkFileOf(importFile, kind)) == BatchNameOf(importFile) + "_" + Lower(TitleOf(kind)) + "_rework.txt"
  {
    BatchNameHasNoSeparator(importFile);
    KindNameHasNoSeparator(kind);
    ReworkNameUnder(BaseDirOf(importFile), BatchNameOf(importFile), Lower(TitleOf(kind)));
  }

  lemma BatchNameHasNoSeparator(importFile: string)
    ensures Sep !in BatchNameOf(importFile)
  {
    StripKeepsOut(Name(BaseDirOf(importFile)), Sep);
  }

  lemma KindNameHasNoSeparator(kind: CounterKind)
    ensures Sep !in Lower(TitleOf(kind))
  {
    LowerKeepsOut(TitleOf(kind), Sep);
  }

  lemma ReworkNameUnder(dir: string, batch: string, kindName: string)
    requires Sep !in batch && Sep !in kindName
    ensures Basename(PathJoin(dir, batch + "_" + kindName + "_rework.txt")) == batch + "_" + kindName + "_rework.txt"
  {
    var name := batch + "_" + kindName + "_rework.txt";
    assert Sep !in "_rework.txt";
    assert Sep !in "_";
    NameUnder(dir, name);
  }

  class PageCounter {
    const kind: CounterKind
    const importFile: string
    /** The lines of the import file. */
    const importLines: seq<string>
    const title: string := TitleOf(kind)
    const extension: string := ExtensionOf(kind)
    const baseDir: string := BaseDirOf(importFile)
    const batchName: string := BatchNameOf(importFile)
    const reworkFile: string := ReworkFileOf(importFile, kind)
    const outputDir: string := OutputDirOf(importFile, kind)
    /** `counting_results`: its keys in dictionary order, and its entries. */
    var keys: seq<string>
    var countingResults: map<string, PageCountResult>
    /** The lines last written to the rework file, if it was written. */
    var reworkContent: Option<seq<string>>

    ghost predicate Valid()
      reads this
    {
      ValidTable(keys, countingResults)
    }

    /** `PdfCounter(import_file)` or `TifCounter(import_file)`: the layout
        constants follow from the kind and the import file's path. */
    constructor (importFile: string, lines: seq<string>, kind: CounterKind)
      ensures Valid()
      ensures this.kind == kind && this.importFile == importFile && importLines == lines
      ensures keys == Keys(LineEntries(), lines, ExtensionOf(kind))
      ensures countingResults == Expected(LineEntries(), lines, TitleOf(kind), ExtensionOf(kind))
      ensures reworkContent.None?
    {
      var ks, results := ReadExpected(lines, TitleOf(kind), ExtensionOf(kind));
      this.kind := kind;
      this.importFile := importFile;
      importLines := lines;
      keys, countingResults := ks, results;
      reworkContent := None;
    }

    /** The path looked up for a document: the extension is appended to a
        key that already ends in it. */
    function DocumentPath(filename: string): string
    {
      PathJoin(outputDir, filename + extension)
    }

    /** `get_failed_files`. */
    method GetFailedFiles() returns (failed: seq<PageCountResult>)
      requires Valid()
      ensures failed == FailedEntries(keys, countingResults)
    {
      failed := [];
      for i := 0 to |keys|
        invariant failed == FailedEntries(keys[..i], countingResults)
      {
        FilterMapSnoc(FailedOf(countingResults), keys[..i], keys[i]);
        assert keys[..i + 1] == keys[..i] + [keys[i]];
        var c := countingResults[keys[i]];
        if c.Failed() {
          failed := failed + [c];
        }
      }
      assert keys[..|keys|] == keys;
    }

    /** `count_document_pages`: only the named entry's actual count changes. */
    method CountDocumentPages(filename: string, probe: FileProbe)
      requires Valid() && filename in countingResults
      modifies this
      ensures Valid() && keys == old(keys) && reworkContent == old(reworkContent)
      ensures countingResults ==
        old(countingResults)[filename := old(countingResults)[filename].(actualCount := ActualCount(kind, probe))]
    {
      var actual := ActualCount(kind, probe);
      countingResults := countingResults[filename := countingResults[filename].(actualCount := actual)];
    }

    /** `count_batch_pages_concurrently`, taken one document at a time in
        dictionary order. */
    method CountBatchPages(probe: string -> FileProbe)
      requires Valid()
      modifies this
      ensures Valid() && keys == old(keys) && reworkContent == old(reworkContent)
      ensures countingResults == CountedResults(kind, old(countingResults), DocumentPath, probe)
    {
      for i := 0 to |keys|
        invariant Valid() && keys == old(keys) && reworkContent == old(reworkContent)
        invariant countingResults == CountedKeys(kind, old(countingResults), DocumentPath, probe, keys[..i])
      {
        var filename := keys[i];
        var path := PathJoin(outputDir, filename + extension);
        assert keys[..i + 1][..i] == keys[..i];
        CountDocumentPages(filename, probe(path));
      }
      assert keys[..|keys|] == keys;
      CountedAllKeys(kind, old(countingResults), DocumentPath, probe, keys);
    }

    /** `create_rework_file`; its argument is not used. On success the
        rework file holds the selected lines; on failure it is not
        written. */
    method CreateReworkFile(failedFiles: seq<PageCountResult>) returns (error: Option<Error>)
      requires Valid()
      modifies this
      ensures keys == old(keys) && countingResults == old(countingResults)
      ensures match ReworkLines(LineEntries(), importLines, Targets(keys, countingResults))
        case Ok(lines) => error.None? && reworkContent == Some(lines)
        case Err(e) => error == Some(e) && reworkContent == old(reworkContent)
    {
      var targetFiles := Targets(keys, countingResults);
      var reworkLines: seq<string> := [];
      for i := 0 to |importLines|
        invariant ReworkLines(LineEntries(), importLines[..i], targetFiles) == Ok(reworkLines)
      {
        assert importLines[..i + 1][..i] == importLines[..i];
        var line := importLines[i];
        var entry := EntryOf(line);
        assert entry == LineEntries()(line);
        if entry.None? {
          ReworkErrorStops(LineEntries(), importLines, targetFiles, i + 1);
          return Some(IndexError);
        }
        if entry.value.document in targetFiles {
          reworkLines := reworkLines + [line];
        }
      }
      assert importLines[..|importLines|] == importLines;
      reworkContent := Some(reworkLines);
      error := None;
    }
  }

  lemma {:induction false} ReworkErrorStops(entry: string -> Option<LineEntry>, lines: seq<string>, targets: seq<string>, j: nat)
    requires j <= |lines| && ReworkLines(entry, lines[..j], targets).Err?
    ensures ReworkLines(entry, lines, targets) == ReworkLines(entry, lines[..j], targets)
    decreases |lines| - j
  {
    if j < |lines| {
      assert lines[..j + 1][..j] == lines[..j];
      ReworkErrorStops(entry, lines, targets, j + 1);
    } else {
      assert lines[..j] == lines;
    }
  }

  /** When every document name of the import list is a plain name, a line
      is reworked exactly when the entry for its document failed. */
  lemma ReworkSelectsFailedDocuments(entry: string -> Option<LineEntry>, lines: seq<string>, title: string, ext: string,
                                     results: map<string, PageCountResult>, line: string)
    requires ext == ".pdf" || ext == ".tif"
    requires forall i :: 0 <= i < |lines| && entry(lines[i]).Some? ==> PlainName(entry(lines[i]).value.document)
    requires results.Keys == Expected(entry, lines, title, ext).Keys
    requires forall k :: k in results ==> results[k].filename == k
    requires entry(line).Some? && line in lines
    ensures entry(line).value.document in Targets(Keys(entry, lines, ext), results) <==>
      (KeyOf(entry, line, ext) in results && results[KeyOf(entry, line, ext)].Failed())
  {
    var d := entry(line).value.document;
    var i :| 0 <= i < |lines| && lines[i] == line;
    assert PlainName(d);
    if d in Targets(Keys(entry, lines, ext), results) {
      TargetIsFailedKey(entry, lines, title, ext, results, d);
    }
    if d + ext in results && results[d + ext].Failed() {
      FailedKeyIsTarget(entry, lines, title, ext, results, d);
    }
  }

  /** A target names a document whose entry failed. */
  lemma TargetIsFailedKey(entry: string -> Option<LineEntry>, lines: seq<string>, title: string, ext: string,
                          results: map<string, PageCountResult>, d: string)
    requires ext == ".pdf" || ext == ".tif"
    requires forall i :: 0 <= i < |lines| && entry(lines[i]).Some? ==> PlainName(entry(lines[i]).value.document)
    requires results.Keys == Expected(entry, lines, title, ext).Keys
    requires forall k :: k in results ==> results[k].filename == k
    requires d in Targets(Keys(entry, lines, ext), results)
    ensures d + ext in results && results[d + ext].Failed()
  {
    var keys := Keys(entry, lines, ext);
    FilterMapMembers(TargetOf(results), keys, d);
    var i :| 0 <= i < |keys| && TargetOf(results)(keys[i]) == Some(d);
    var k := keys[i];
    assert k in results && results[k].Failed() && SplitExtRoot(k) == d;
    ExpectedLookup(entry, lines, title, ext, k);
    var j := LastLineOf(entry, lines, ext, k);
    var doc := entry(lines[j]).value.document;
    assert k == doc + ext;
    RootOfKey(doc, ext);
  }

  /** A document whose entry failed is a target. */
  lemma FailedKeyIsTarget(entry: string -> Option<LineEntry>, lines: seq<string>, title: string, ext: string,
                          results: map<string, PageCountResult>, d: string)
    requires ext == ".pdf" || ext == ".tif"
    requires PlainName(d)
    requires results.Keys == Expected(entry, lines, title, ext).Keys
    requires forall k :: k in results ==> results[k].filename == k
    requires d + ext in results && results[d + ext].Failed()
    ensures d in Targets(Keys(entry, lines, ext), results)
  {
    var keys := Keys(entry, lines, ext);
    KeysMatchExpected(entry, lines, title, ext);
    assert d + ext in keys;
    var i :| 0 <= i < |keys| && keys[i] == d + ext;
    RootOfKey(d, ext);
    assert TargetOf(results)(keys[i]) == Some(d);
    FilterMapMembers(TargetOf(results), keys, d);
  }
}
