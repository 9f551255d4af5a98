/** The delivery check scripts: read back the `CDDOC.DAT` index of an MPT
    delivery folder, or the manifest of a PDF delivery folder, and report
    every listed file that is not there; and the renamer that shortens file
    names carrying an `X`. The working folder is the delivery folder, so a
    relative name is looked up under it. */
module SearchFilenames {
  import opened Outcomes
  import opened Text
  import Paths
  import opened Reports
  import Mpts = AssembleMpts
  import Pdfs = AssemblePdfs

  /** The cells `csv.reader` yields for one line, read without quoting: an
      empty line gives no cells. */
  function Cells(line: string, delimiter: char): (cells: seq<string>)
    ensures line != "" ==> |cells| >= 1
  {
    if line == "" then [] else Split(line, delimiter)
  }

  /** A line as the reader sees it, without its line end. */
  function Chomp(line: string): string {
    if line != "" && line[|line| - 1] == '\n' then line[..|line| - 1] else line
  }

  function ChompAll(lines: seq<string>): (r: seq<string>)
    ensures |r| == |lines| && forall k :: 0 <= k < |lines| ==> r[k] == Chomp(lines[k])
  {
    seq(|lines|, k requires 0 <= k < |lines| => Chomp(lines[k]))
  }

  lemma ChompAllCons(line: string, lines: seq<string>)
    ensures ChompAll([line] + lines) == [Chomp(line)] + ChompAll(lines)
  {
  }

  /** The message for a listed name that does not exist under `folder`. */
  function Unfound(folder: string, existing: set<string>, name: string): seq<string> {
    if Paths.Join(folder, name) in existing then [] else ["File not found: " + name]
  }

  // ---------------------------------------------------------------------------
  // CDDOC.DAT
  // ---------------------------------------------------------------------------

  /** `<folder>/APP_SPEC/XFERDATA/CDDOC.DAT`. */
  function CddocFile(folder: string): string {
    Paths.Join(Paths.Join(Paths.Join(folder, "APP_SPEC"), "XFERDATA"), "CDDOC.DAT")
  }

  /** The index read is the one the MPT assembler writes for that folder. */
  lemma CddocFileOfDelivery(select: string, base: string, n: nat)
    ensures CddocFile(Mpts.FolderPath(select, base, n)) == Mpts.CddocPath(select, base, n)
  {
  }

  /** Field 21 of a `;`-separated line without its first character. */
  function CddocName(line: string): (r: Result<string>)
    ensures r.Err? <==> |Cells(line, ';')| < 22
  {
    var row := Cells(line, ';');
    if |row| < 22 then Err(IndexError)
    else Ok(if row[21] == "" then "" else row[21][1..])
  }

  function CddocReport(folder: string, existing: set<string>, line: string): Result<seq<string>> {
    match CddocName(line)
    case Err(e) => Err(e)
    case Ok(name) => Ok(Unfound(folder, existing, name))
  }

  function CddocCheck(folder: string, existing: set<string>): string -> Result<seq<string>> {
    (line: string) => CddocReport(folder, existing, line)
  }

  function ConfirmCddoc(folder: string, existing: set<string>, lines: seq<string>): Report {
    Scan(CddocCheck(folder, existing), lines)
  }

  /** Reading back a line the MPT assembler wrote gives the image's path
      below the folder, `IMAGES\0001\<file>`: dropping the first character
      undoes the leading backslash of the image field. */
  lemma CddocNameOfWritten(e: Mpts.Entry)
    requires ';' !in e.ref && ';' !in e.file
    ensures CddocName(Chomp(Mpts.CddocLine(e))) == Ok("IMAGES\\0001\\" + e.file)
  {
    var line := Mpts.CddocLine(e);
    Mpts.CddocLineFields(e);
    assert Chomp(line) == line[..|line| - 1];
    ImageFieldTail(e.file);
  }

  lemma ImageFieldTail(file: string)
    ensures Mpts.ImageField(file)[1..] == "IMAGES\\0001\\" + file
  {
    var dir := "IMAGES\\0001\\";
    assert "\\IMAGES\\0001\\" == ['\\'] + dir;
    assert Mpts.ImageField(file) == ['\\'] + (dir + file);
  }

  lemma CddocReportOfWritten(folder: string, existing: set<string>, e: Mpts.Entry)
    requires ';' !in e.ref && ';' !in e.file
    ensures CddocReport(folder, existing, Chomp(Mpts.CddocLine(e))) == Ok(Unfound(folder, existing, "IMAGES\\0001\\" + e.file))
  {
    CddocNameOfWritten(e);
  }

  /** The messages for the images of an index, one entry at a time. */
  function ImagesUnfound(folder: string, existing: set<string>, entries: seq<Mpts.Entry>): (ms: seq<seq<string>>)
    ensures |ms| == |entries|
    ensures forall k :: 0 <= k < |entries| ==> ms[k] == Unfound(folder, existing, "IMAGES\\0001\\" + entries[k].file)
  {
    seq(|entries|, k requires 0 <= k < |entries| => Unfound(folder, existing, "IMAGES\\0001\\" + entries[k].file))
  }

  lemma WrittenIndexLines(folder: string, existing: set<string>, entries: seq<Mpts.Entry>)
    requires forall k :: 0 <= k < |entries| ==> ';' !in entries[k].ref && ';' !in entries[k].file
    ensures forall k :: 0 <= k < |entries| ==>
      CddocCheck(folder, existing)(ChompAll(Mpts.CddocLines(entries))[k]) == Ok(ImagesUnfound(folder, existing, entries)[k])
  {
    forall k | 0 <= k < |entries|
      ensures CddocCheck(folder, existing)(ChompAll(Mpts.CddocLines(entries))[k]) == Ok(ImagesUnfound(folder, existing, entries)[k])
    {
      assert ChompAll(Mpts.CddocLines(entries))[k] == Chomp(Mpts.CddocLine(entries[k]));
      CddocReportOfWritten(folder, existing, entries[k]);
    }
  }

  /** Checking an index the MPT assembler wrote never raises, and reports
      exactly the entries whose image is missing, in order. */
  lemma ConfirmWrittenIndex(folder: string, existing: set<string>, entries: seq<Mpts.Entry>)
    requires forall k :: 0 <= k < |entries| ==> ';' !in entries[k].ref && ';' !in entries[k].file
    ensures ConfirmCddoc(folder, existing, ChompAll(Mpts.CddocLines(entries))) ==
      Report(Flatten(ImagesUnfound(folder, existing, entries)), None)
  {
    WrittenIndexLines(folder, existing, entries);
    ScanAllPass(CddocCheck(folder, existing), ChompAll(Mpts.CddocLines(entries)), ImagesUnfound(folder, existing, entries));
  }

  // ---------------------------------------------------------------------------
  // _manifest.csv
  // ---------------------------------------------------------------------------

  /** `skipinitialspace`: the spaces right after a delimiter are dropped. */
  function DropSpaces(s: string): (r: string)
    ensures |r| <= |s| && r == s[|s| - |r|..] && (r == "" || r[0] != ' ')
  {
    if s != "" && s[0] == ' ' then DropSpaces(s[1..]) else s
  }

  /** `<folder>/_manifest.csv`. */
  function ManifestFile(folder: string): string {
    Paths.Join(folder, "_manifest.csv")
  }

  /** Field 2 of a `,`-separated line; every line counts, the header too. */
  function ManifestName(line: string): (r: Result<string>)
    ensures r.Err? <==> |Cells(line, ',')| < 3
  {
    var row := Cells(line, ',');
    if |row| < 3 then Err(IndexError) else Ok(DropSpaces(row[2]))
  }

  function ManifestReport(folder: string, existing: set<string>, line: string): Result<seq<string>> {
    match ManifestName(line)
    case Err(e) => Err(e)
    case Ok(name) => Ok(Unfound(folder, existing, name))
  }

  function ManifestCheck(folder: string, existing: set<string>): string -> Result<seq<string>> {
    (line: string) => ManifestReport(folder, existing, line)
  }

  function ConfirmManifest(folder: string, existing: set<string>, lines: seq<string>): Report {
    Scan(ManifestCheck(folder, existing), lines)
  }

  lemma ReportOfName(folder: string, existing: set<string>, line: string, name: string)
    requires ManifestName(line) == Ok(name)
    ensures ManifestReport(folder, existing, line) == Ok(Unfound(folder, existing, name))
  {
  }

  /** A manifest row the PDF assembler wrote reads back as its file name,
      provided that does not start with a space. */
  lemma ManifestNameOfWritten(m: Pdfs.ManifestRow)
    requires ',' !in m.box && ',' !in m.ref && ',' !in m.file
    requires m.file == "" || m.file[0] != ' '
    ensures ManifestName(Chomp(Pdfs.ManifestLine(m))) == Ok(m.file)
  {
    var line := Pdfs.ManifestLine(m);
    Pdfs.ManifestLineFields(m);
    assert Chomp(line) == line[..|line| - 1];
    assert Chomp(line) != "" by {
      assert |Split(Chomp(line), ',')| == 3;
    }
  }

  /** The header line reads back as the name `Filepath`, which is looked up
      like any other. */
  lemma ManifestNameOfHeader()
    ensures ManifestName(Chomp(Pdfs.ManifestHeader)) == Ok("Filepath")
  {
    ManifestNameOfWritten(Pdfs.ManifestRow("BoxNo", "RefCode", "Filepath"));
  }

  /** The messages for the files of a manifest, one row at a time. */
  function FilesUnfound(folder: string, existing: set<string>, rows: seq<Pdfs.ManifestRow>): (ms: seq<seq<string>>)
    ensures |ms| == |rows|
    ensures forall k :: 0 <= k < |rows| ==> ms[k] == Unfound(folder, existing, rows[k].file)
  {
    seq(|rows|, k requires 0 <= k < |rows| => Unfound(folder, existing, rows[k].file))
  }

  lemma WrittenManifestLines(folder: string, existing: set<string>, rows: seq<Pdfs.ManifestRow>)
    requires forall k :: 0 <= k < |rows| ==>
      ',' !in rows[k].box && ',' !in rows[k].ref && ',' !in rows[k].file
      && (rows[k].file == "" || rows[k].file[0] != ' ')
    ensures forall k :: 0 <= k < |rows| ==>
      ManifestCheck(folder, existing)(ChompAll(Pdfs.ManifestLines(rows))[k]) == Ok(FilesUnfound(folder, existing, rows)[k])
  {
    forall k | 0 <= k < |rows|
      ensures ManifestCheck(folder, existing)(ChompAll(Pdfs.ManifestLines(rows))[k]) == Ok(FilesUnfound(folder, existing, rows)[k])
    {
      var line := Chomp(Pdfs.ManifestLine(rows[k]));
      assert ChompAll(Pdfs.ManifestLines(rows))[k] == line;
      ManifestNameOfWritten(rows[k]);
      ReportOfName(folder, existing, line, rows[k].file);
    }
  }

  /** The rows of a manifest the PDF assembler wrote raise nothing and
      report exactly the rows whose file is missing, in order. */
  lemma ConfirmWrittenRows(folder: string, existing: set<string>, rows: seq<Pdfs.ManifestRow>)
    requires forall k :: 0 <= k < |rows| ==>
      ',' !in rows[k].box && ',' !in rows[k].ref && ',' !in rows[k].file
      && (rows[k].file == "" || rows[k].file[0] != ' ')
    ensures ConfirmManifest(folder, existing, ChompAll(Pdfs.ManifestLines(rows))) ==
      Report(Flatten(FilesUnfound(folder, existing, rows)), None)
  {
    WrittenManifestLines(folder, existing, rows);
    ScanAllPass(ManifestCheck(folder, existing), ChompAll(Pdfs.ManifestLines(rows)), FilesUnfound(folder, existing, rows));
  }

  /** Checking a whole manifest the PDF assembler wrote never raises; it
      reports `Filepath` unless a file of that name exists, then exactly the
      rows whose file is missing, in order. */
  lemma ConfirmWrittenManifest(folder: string, existing: set<string>, rows: seq<Pdfs.ManifestRow>)
    requires forall k :: 0 <= k < |rows| ==>
      ',' !in rows[k].box && ',' !in rows[k].ref && ',' !in rows[k].file
      && (rows[k].file == "" || rows[k].file[0] != ' ')
    ensures ConfirmManifest(folder, existing, ChompAll([Pdfs.ManifestHeader] + Pdfs.ManifestLines(rows))) ==
      Report(Unfound(folder, existing, "Filepath") + Flatten(FilesUnfound(folder, existing, rows)), None)
  {
    var header := Chomp(Pdfs.ManifestHeader);
    var body := ChompAll(Pdfs.ManifestLines(rows));
    ChompAllCons(Pdfs.ManifestHeader, Pdfs.ManifestLines(rows));
    ManifestNameOfHeader();
    var check := ManifestCheck(folder, existing);
    ReportOfName(folder, existing, header, "Filepath");
    ScanOne(check, header);
    ConfirmWrittenRows(folder, existing, rows);
    ScanAppend(check, [header], body);
  }

  // ---------------------------------------------------------------------------
  // Renaming
  // ---------------------------------------------------------------------------

  /** The new path of a matched file: its folder, the name's first
      `.`-separated part cut at its first space, `.`, and the second part. */
  function RenameTarget(f: string): Result<string> {
    var parts := Split(Paths.Basename(f), '.');
    if |parts| < 2 then Err(IndexError)
    else Ok(Paths.Join(Paths.Dirname(f), Split(parts[0], ' ')[0] + "." + parts[1]))
  }

  /** A text holding the separator splits into at least two pieces. */
  lemma SplitInTwo(s: string, sep: char)
    requires sep in s
    ensures |Split(s, sep)| >= 2
  {
    SplitFirstPiece(s, sep);
    var p := Split(s, sep)[0];
    var i :| 0 <= i < |s| && s[i] == sep;
    assert forall k :: 0 <= k < |p| ==> s[k] == p[k] != sep;
    assert s == p + [sep] + s[|p| + 1..];
    SplitAtSeparator(p, sep, s[|p| + 1..]);
  }

  /** Only a name without any `.` raises. */
  lemma RenameTargetRaises(f: string)
    ensures RenameTarget(f).Err? <==> '.' !in Paths.Basename(f)
  {
    var name := Paths.Basename(f);
    if '.' in name {
      SplitInTwo(name, '.');
    } else {
      SplitWithoutSeparator(name, '.');
    }
  }

  /** A name `<word><more words>.<ext><further suffixes>` is renamed, in its
      folder, to `<word>.<ext>`: everything from the first space up to the
      first `.`, and everything after the second `.`, is dropped. */
  lemma {:induction false} RenameTargetOfName(f: string, word: string, words: string, ext: string, more: string)
    requires Paths.Basename(f) == word + words + "." + ext + more
    requires ' ' !in word && '.' !in word && '.' !in words && '.' !in ext
    requires words == "" || words[0] == ' '
    requires more == "" || more[0] == '.'
    ensures RenameTarget(f) == Ok(Paths.Join(Paths.Dirname(f), word + "." + ext))
  {
    var stub := word + words;
    assert Paths.Basename(f) == stub + ['.'] + (ext + more);
    SplitAtSeparator(stub, '.', ext + more);
    if more == "" {
      assert ext + more == ext;
      SplitWithoutSeparator(ext, '.');
    } else {
      assert ext + more == ext + ['.'] + more[1..];
      SplitAtSeparator(ext, '.', more[1..]);
    }
    if words == "" {
      assert stub == word;
      SplitWithoutSeparator(word, ' ');
    } else {
      assert stub == word + [' '] + words[1..];
      SplitAtSeparator(word, ' ', words[1..]);
    }
  }

  datatype Rename = Rename(from: string, to: string)

  datatype Renaming = Renaming(renames: seq<Rename>, error: Option<Error>)

  /** The loop over the matched files: a directory is skipped; otherwise
      the target is derived (which may raise) and the file is renamed when
      its prompt is answered yes. `target` derives the new path and
      `confirmed(k)` tells whether the `k`-th file's prompt was answered
      yes. */
  function RenameLoop(target: string -> Result<string>, files: seq<string>, dirs: set<string>,
                      confirmed: nat -> bool): (r: Renaming)
  {
    if files == [] then Renaming([], None)
    else
      var k := |files| - 1;
      var r := RenameLoop(target, files[..k], dirs, confirmed);
      if r.error.Some? || files[k] in dirs then r
      else match target(files[k]) {
        case Err(e) => Renaming(r.renames, Some(e))
        case Ok(to) => if confirmed(k) then Renaming(r.renames + [Rename(files[k], to)], None) else r
      }
  }

  /** `rename_x_files` over the matched files: `answer(k)` is what was typed
      at the `k`-th file's prompt, and `y` in either case means yes. */
  function RenameAll(files: seq<string>, dirs: set<string>, answer: nat -> string): Renaming {
    RenameLoop(RenameTarget, files, dirs, (k: nat) => Lower(answer(k)) == "y")
  }

  /** The `k`-th file is renamed to `r.to`. */
  predicate RenamedAt(target: string -> Result<string>, files: seq<string>, dirs: set<string>,
                      confirmed: nat -> bool, k: int, r: Rename) {
    0 <= k < |files| && files[k] !in dirs && confirmed(k)
    && target(files[k]).Ok? && r == Rename(files[k], target(files[k]).value)
  }

  /** The loop runs through exactly when every matched file that is not a
      directory has a target; it then renames exactly the files answered
      yes, each to its target. */
  lemma {:induction false} RenameLoopExact(target: string -> Result<string>, files: seq<string>, dirs: set<string>,
                                           confirmed: nat -> bool)
    ensures RenameLoop(target, files, dirs, confirmed).error.None? <==>
      forall k :: 0 <= k < |files| && files[k] !in dirs ==> target(files[k]).Ok?
    ensures RenameLoop(target, files, dirs, confirmed).error.None? ==>
      forall r :: r in RenameLoop(target, files, dirs, confirmed).renames <==>
        exists k :: RenamedAt(target, files, dirs, confirmed, k, r)
  {
    if files != [] {
      var k := |files| - 1;
      var init := files[..k];
      RenameLoopExact(target, init, dirs, confirmed);
      assert forall j :: 0 <= j < k ==> init[j] == files[j];
      forall r, j | RenamedAt(target, init, dirs, confirmed, j, r)
        ensures RenamedAt(target, files, dirs, confirmed, j, r)
      {
      }
      forall r, j | RenamedAt(target, files, dirs, confirmed, j, r) && j < k
        ensures RenamedAt(target, init, dirs, confirmed, j, r)
      {
      }
      if files[k] !in dirs && target(files[k]).Ok? && confirmed(k) {
        assert RenamedAt(target, files, dirs, confirmed, k, Rename(files[k], target(files[k]).value));
      }
    }
  }
}
