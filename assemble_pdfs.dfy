/** The PDF assembler: the rows of `Small_File_List.csv`, then those of
    `Large_File_List.csv`, are copied into numbered delivery folders
    `PDFs_small_<n>` / `PDFs_large_<n>`. A new folder is opened before a row
    when the running total of the current one (kilobytes, as the size column
    holds them) is over 30 GiB, so the row that crosses the budget stays in
    the folder it crosses. Only the last folder of each kind gets a
    `_manifest.txt`. The file system is the set of existing paths; a copy
    adds its destination. */
module AssemblePdfs {
  import opened Outcomes
  import opened Text
  import opened Paths

  const KB: real := 1024.0
  /** 30 GiB. */
  const MaxBytes: real := (30 * 1024 * 1024 * 1024) as real

  /** `BoxNo,RefCode,Filepath` and a line end: the header line has the
      shape of a manifest row. */
  const ManifestHeader: string := ManifestLine(ManifestRow("BoxNo", "RefCode", "Filepath"))

  // ---------------------------------------------------------------------------
  // One row of a file list
  // ---------------------------------------------------------------------------

  /** What the script takes from a row: the box, the customer reference, the
      PDF to copy and its file name, and the two size columns. */
  datatype ParsedRow = ParsedRow(box: string, ref: string, source: string, file: string, mptSize: real, pdfSize: real)

  /** The box: the first six characters of the last space-separated word of
      the first cell. */
  function BoxName(cell: string): string {
    var words := Split(Strip(cell), ' ');
    var last := words[|words| - 1];
    if |last| <= 6 then last else last[..6]
  }

  /** A row: at least six cells, else a `ValueError`; both size columns must
      read as numbers (`float(...)`), the MPT's first. */
  function ParseRow(line: string): Result<ParsedRow> {
    var cells := Split(Strip(line), ',');
    if |cells| < 6 then Err(ValueError("Invalid line"))
    else
      var source := Strip(cells[3]);
      match ParseDecimal(Strip(cells[4]))
      case None => Err(ValueError("could not convert string to float"))
      case Some(mpt) =>
        match ParseDecimal(Strip(cells[5]))
        case None => Err(ValueError("could not convert string to float"))
        case Some(pdf) => Ok(ParsedRow(BoxName(cells[0]), Strip(cells[1]), source, Basename(source), mpt, pdf))
  }

  function Parser(): string -> Result<ParsedRow> {
    line => ParseRow(line)
  }

  /** A row is accepted exactly when it has six cells whose last two are
      numbers, and its fields come from cells 0, 1, 3 and 5; every failure
      is a `ValueError`. */
  lemma ParseRowFields(line: string)
    ensures var cells := Split(Strip(line), ',');
      && (ParseRow(line).Ok? <==>
            |cells| >= 6 && ParseDecimal(Strip(cells[4])).Some? && ParseDecimal(Strip(cells[5])).Some?)
      && (ParseRow(line).Err? ==> ParseRow(line).error.ValueError?)
      && (ParseRow(line).Ok? ==>
            var r := ParseRow(line).value;
            && r.ref == Strip(cells[1]) && r.source == Strip(cells[3]) && r.file == Basename(Strip(cells[3]))
            && Some(r.pdfSize) == ParseDecimal(Strip(cells[5])) && r.box == BoxName(cells[0]))
  {
  }

  /** No manifest field of an accepted row holds a comma, and the box has
      at most six characters. */
  lemma ParsedRowClean(line: string)
    requires ParseRow(line).Ok?
    ensures var r := ParseRow(line).value;
      |r.box| <= 6 && ',' !in r.box && ',' !in r.ref && ',' !in r.file
  {
    var cells := Split(Strip(line), ',');
    BoxNameClean(cells[0]);
    StripKeepsOut(cells[1], ',');
    StripKeepsOut(cells[3], ',');
  }

  lemma BoxNameClean(cell: string)
    requires ',' !in cell
    ensures |BoxName(cell)| <= 6 && ',' !in BoxName(cell)
  {
    StripKeepsOut(cell, ',');
    LastWordClean(Strip(cell));
    var words := Split(Strip(cell), ' ');
    PrefixKeepsOut(words[|words| - 1], 6, ',');
  }

  lemma LastWordClean(s: string)
    requires ',' !in s
    ensures var words := Split(s, ' '); ',' !in words[|words| - 1]
  {
    SplitKeepsOut(s, ' ', ',');
  }

  lemma PrefixKeepsOut(s: string, n: nat, c: char)
    requires c !in s
    ensures c !in (if |s| <= n then s else s[..n])
  {
    if |s| > n {
      assert forall k :: 0 <= k < n ==> s[..n][k] == s[k];
    }
  }

  // ---------------------------------------------------------------------------
  // The state of one list's loop
  // ---------------------------------------------------------------------------

  datatype ManifestRow = ManifestRow(box: string, ref: string, file: string)

  /** A row placed into delivery folder `folder`, with the size it added. */
  datatype Placement = Placement(folder: nat, row: ManifestRow, size: real)

  datatype Copy = Copy(source: string, dest: string)

  /** The loop's variables (`<kind>_delivery_folder_count`, `<kind>_files`,
      `total_<kind>_size`, `<kind>_files_count`), the file system, the copies
      made, and which folder each row went to. */
  datatype Assembly = Assembly(folderNo: nat, rows: seq<ManifestRow>, total: real, count: nat,
                               existing: set<string>, copies: seq<Copy>, placed: seq<Placement>)

  datatype Run = Run(state: Assembly, error: Option<Error>)

  function Start(existing: set<string>): Assembly {
    Assembly(1, [], 0.0, 0, existing, [], [])
  }

  /** `os.path.join(select_folder, f"PDFs_{kind}_{n}")`. */
  function FolderPath(select: string, kind: string, n: nat): string {
    Paths.Join(select, "PDFs_" + kind + "_" + NatToString(n))
  }

  /** Is it time for a new folder? */
  predicate OverBudget(total: real) {
    total * KB > MaxBytes
  }

  function Place(t: Assembly, r: ParsedRow, copies: seq<Copy>): Assembly {
    var row := ManifestRow(r.box, r.ref, r.file);
    t.(rows := t.rows + [row], total := t.total + r.pdfSize, count := t.count + 1, copies := t.copies + copies,
       placed := t.placed + [Placement(t.folderNo, row, r.pdfSize)])
  }

  /** One line: a header line (`Batch...`) is skipped; otherwise a new
      folder is opened if the current one is over budget, then the row is
      parsed, its PDF copied unless the folder already holds a file of that
      name, and the row added. */
  function Step(parse: string -> Result<ParsedRow>, select: string, kind: string, s: Assembly, line: string): Run {
    if StartsWith(line, "Batch") then Run(s, None)
    else
      var t := if OverBudget(s.total) then s.(folderNo := s.folderNo + 1, rows := [], total := 0.0) else s;
      match parse(line)
      case Err(e) => Run(t, Some(e))
      case Ok(r) =>
        var dest := Paths.Join(FolderPath(select, kind, t.folderNo), r.file);
        if dest in t.existing then Run(Place(t, r, []), None)
        else if r.source !in t.existing then Run(t, Some(CopyFailed(r.source)))
        else Run(Place(t.(existing := t.existing + {dest}), r, [Copy(r.source, dest)]), None)
  }

  /** The loop over one list; an exception ends it. */
  function Assemble(parse: string -> Result<ParsedRow>, select: string, kind: string, s: Assembly, lines: seq<string>): Run {
    if lines == [] then Run(s, None)
    else
      var before := Assemble(parse, select, kind, s, lines[..|lines| - 1]);
      if before.error.Some? then before else Step(parse, select, kind, before.state, lines[|lines| - 1])
  }

  // ---------------------------------------------------------------------------
  // What a step does
  // ---------------------------------------------------------------------------

  /** A header line changes nothing. */
  lemma HeaderSkipped(parse: string -> Result<ParsedRow>, select: string, kind: string, s: Assembly, line: string)
    requires StartsWith(line, "Batch")
    ensures Step(parse, select, kind, s, line) == Run(s, None)
  {
  }

  /** The budget is checked before the row is parsed: a row that fails to
      parse still opens the new folder when the current one is over budget. */
  lemma RolloverBeforeParse(parse: string -> Result<ParsedRow>, select: string, kind: string, s: Assembly, line: string)
    requires !StartsWith(line, "Batch") && parse(line).Err?
    ensures Step(parse, select, kind, s, line).error == Some(parse(line).error)
    ensures Step(parse, select, kind, s, line).state.folderNo == if OverBudget(s.total) then s.folderNo + 1 else s.folderNo
  {
  }

  /** A parsed row goes into the current folder (a fresh one when the last
      was over budget), adding its PDF size to the running total. Its PDF
      is copied exactly when the folder holds no file of that name, and the
      copy then needs the source; a present destination is left alone. */
  lemma StepPlacesRow(parse: string -> Result<ParsedRow>, select: string, kind: string, s: Assembly, line: string)
    requires !StartsWith(line, "Batch") && parse(line).Ok?
    ensures var t := Step(parse, select, kind, s, line);
      var rolled := OverBudget(s.total);
      var n := if rolled then s.folderNo + 1 else s.folderNo;
      var r := parse(line).value;
      var dest := Paths.Join(FolderPath(select, kind, n), r.file);
      && (dest in s.existing || r.source in s.existing ==>
            && t.error.None? && t.state.folderNo == n
            && t.state.rows == (if rolled then [] else s.rows) + [ManifestRow(r.box, r.ref, r.file)]
            && t.state.total == (if rolled then 0.0 else s.total) + r.pdfSize
            && t.state.count == s.count + 1)
      && (dest in s.existing ==> t.state.copies == s.copies && t.state.existing == s.existing)
      && (dest !in s.existing && r.source !in s.existing ==> t.error == Some(CopyFailed(r.source)))
      && (dest !in s.existing && r.source in s.existing ==>
            t.state.copies == s.copies + [Copy(r.source, dest)] && t.state.existing == s.existing + {dest})
  {
  }

  // ---------------------------------------------------------------------------
  // The folder invariant
  // ---------------------------------------------------------------------------

  /** The rows placed into folder `n`, in order, and their total size. */
  function RowsIn(placed: seq<Placement>, n: nat): seq<ManifestRow> {
    if placed == [] then []
    else
      var last := placed[|placed| - 1];
      RowsIn(placed[..|placed| - 1], n) + (if last.folder == n then [last.row] else [])
  }

  function SizeIn(placed: seq<Placement>, n: nat): real {
    if placed == [] then 0.0
    else
      var last := placed[|placed| - 1];
      SizeIn(placed[..|placed| - 1], n) + (if last.folder == n then last.size else 0.0)
  }

  /** What holds after every line of a list that went through:
      - folders are numbered consecutively from 1, rows go to them in order,
        the current folder is the last row's, and the file count is the
        number of rows placed;
      - the manifest rows and the running total are the current folder's;
      - every folder left behind is over budget;
      - every row was placed while its folder was within budget, so a folder
        is within budget but for its last row. */
  predicate Packed(s: Assembly) {
    Numbered(s) && Current(s) && Closed(s) && WithinBudget(s)
  }

  predicate Numbered(s: Assembly) {
    && s.folderNo >= 1
    && s.count == |s.placed|
    && (forall k :: 0 <= k < |s.placed| ==> 1 <= s.placed[k].folder <= s.folderNo)
    && (forall k :: 0 < k < |s.placed| ==>
          s.placed[k].folder == s.placed[k - 1].folder || s.placed[k].folder == s.placed[k - 1].folder + 1)
    && (|s.placed| == 0 ==> s.folderNo == 1)
    && (|s.placed| > 0 ==> s.placed[0].folder == 1 && s.placed[|s.placed| - 1].folder == s.folderNo)
  }

  predicate Current(s: Assembly) {
    s.rows == RowsIn(s.placed, s.folderNo) && s.total == SizeIn(s.placed, s.folderNo)
  }

  predicate Closed(s: Assembly) {
    forall n :: 1 <= n < s.folderNo ==> OverBudget(SizeIn(s.placed, n))
  }

  predicate WithinBudget(s: Assembly) {
    forall k :: 0 <= k < |s.placed| ==> !OverBudget(SizeIn(s.placed[..k], s.placed[k].folder))
  }

  /** The folder the next row goes to: the same one, or a fresh one when
      the current one is over budget. */
  predicate Advanced(s: Assembly, t: Assembly) {
    && t.placed == s.placed && t.count == s.count
    && ((!OverBudget(s.total) && t.folderNo == s.folderNo && t.rows == s.rows && t.total == s.total)
        || (OverBudget(s.total) && t.folderNo == s.folderNo + 1 && t.rows == [] && t.total == 0.0))
  }

  /** A folder no row went to is empty. */
  lemma {:induction false} EmptyFolder(placed: seq<Placement>, n: nat)
    requires forall k :: 0 <= k < |placed| ==> placed[k].folder != n
    ensures RowsIn(placed, n) == [] && SizeIn(placed, n) == 0.0
  {
    if placed != [] {
      EmptyFolder(placed[..|placed| - 1], n);
    }
  }

  lemma PlacedSnoc(placed: seq<Placement>, p: Placement, n: nat)
    ensures RowsIn(placed + [p], n) == RowsIn(placed, n) + (if p.folder == n then [p.row] else [])
    ensures SizeIn(placed + [p], n) == SizeIn(placed, n) + (if p.folder == n then p.size else 0.0)
  {
    assert (placed + [p])[..|placed|] == placed;
  }

  lemma PlaceNumbered(s: Assembly, t: Assembly, r: ParsedRow, copies: seq<Copy>)
    requires Numbered(s) && Current(s) && Advanced(s, t)
    ensures Numbered(Place(t, r, copies))
  {
    if s.placed == [] {
      assert s.total == 0.0;
    }
  }

  lemma PlaceCurrent(s: Assembly, t: Assembly, r: ParsedRow, copies: seq<Copy>)
    requires Numbered(s) && Current(s) && Advanced(s, t)
    ensures Current(Place(t, r, copies))
  {
    var p := Placement(t.folderNo, ManifestRow(r.box, r.ref, r.file), r.pdfSize);
    PlacedSnoc(s.placed, p, t.folderNo);
    if t.folderNo != s.folderNo {
      EmptyFolder(s.placed, t.folderNo);
    }
  }

  lemma PlaceClosed(s: Assembly, t: Assembly, r: ParsedRow, copies: seq<Copy>)
    requires Current(s) && Closed(s) && Advanced(s, t)
    ensures Closed(Place(t, r, copies))
  {
    var p := Placement(t.folderNo, ManifestRow(r.box, r.ref, r.file), r.pdfSize);
    forall n | 1 <= n < t.folderNo ensures OverBudget(SizeIn(s.placed + [p], n)) {
      PlacedSnoc(s.placed, p, n);
    }
  }

  lemma PlaceWithinBudget(s: Assembly, t: Assembly, r: ParsedRow, copies: seq<Copy>)
    requires Numbered(s) && Current(s) && WithinBudget(s) && Advanced(s, t)
    ensures WithinBudget(Place(t, r, copies))
  {
    var p := Placement(t.folderNo, ManifestRow(r.box, r.ref, r.file), r.pdfSize);
    var placed := s.placed + [p];
    forall k | 0 <= k < |placed| ensures !OverBudget(SizeIn(placed[..k], placed[k].folder)) {
      if k < |s.placed| {
        assert placed[..k] == s.placed[..k];
      } else {
        assert placed[..k] == s.placed;
        if t.folderNo != s.folderNo {
          EmptyFolder(s.placed, t.folderNo);
        }
      }
    }
  }

  /** Placing a row into the current folder, opened afresh or not, keeps
      the invariant. */
  lemma PlaceKeepsPacked(s: Assembly, t: Assembly, r: ParsedRow, copies: seq<Copy>)
    requires Packed(s) && Advanced(s, t)
    ensures Packed(Place(t, r, copies))
  {
    PlaceNumbered(s, t, r, copies);
    PlaceCurrent(s, t, r, copies);
    PlaceClosed(s, t, r, copies);
    PlaceWithinBudget(s, t, r, copies);
  }

  /** A line that goes through keeps the invariant. */
  lemma StepKeepsPacked(parse: string -> Result<ParsedRow>, select: string, kind: string, s: Assembly, line: string)
    requires Packed(s) && Step(parse, select, kind, s, line).error.None?
    ensures Packed(Step(parse, select, kind, s, line).state)
  {
    if !StartsWith(line, "Batch") {
      var t := if OverBudget(s.total) then s.(folderNo := s.folderNo + 1, rows := [], total := 0.0) else s;
      var r := parse(line).value;
      var dest := Paths.Join(FolderPath(select, kind, t.folderNo), r.file);
      if dest in t.existing {
        PlaceKeepsPacked(s, t, r, []);
      } else {
        PlaceKeepsPacked(s, t.(existing := t.existing + {dest}), r, [Copy(r.source, dest)]);
      }
    }
  }

  /** So every list that goes through ends with the invariant. */
  lemma {:induction false} AssemblePacked(parse: string -> Result<ParsedRow>, select: string, kind: string, existing: set<string>, lines: seq<string>)
    requires Assemble(parse, select, kind, Start(existing), lines).error.None?
    ensures Packed(Assemble(parse, select, kind, Start(existing), lines).state)
  {
    if lines != [] {
      var before := Assemble(parse, select, kind, Start(existing), lines[..|lines| - 1]);
      AssemblePacked(parse, select, kind, existing, lines[..|lines| - 1]);
      StepKeepsPacked(parse, select, kind, before.state, lines[|lines| - 1]);
    }
  }

  // ---------------------------------------------------------------------------
  // The manifest
  // ---------------------------------------------------------------------------

  function ManifestLine(m: ManifestRow): string {
    Text.Join([m.box, m.ref, m.file], ',') + "\n"
  }

  function ManifestLines(rows: seq<ManifestRow>): (r: seq<string>)
    ensures |r| == |rows|
    ensures forall k :: 0 <= k < |rows| ==> r[k] == ManifestLine(rows[k])
  {
    if rows == [] then [] else ManifestLines(rows[..|rows| - 1]) + [ManifestLine(rows[|rows| - 1])]
  }

  /** `_manifest.txt` of the last folder: the header, then that folder's rows. */
  function Manifest(select: string, kind: string, s: Assembly): (string, seq<string>) {
    (Paths.Join(FolderPath(select, kind, s.folderNo), "_manifest.txt"), [ManifestHeader] + ManifestLines(s.rows))
  }

  /** A manifest line splits back into its three fields. */
  lemma ManifestLineFields(m: ManifestRow)
    requires ',' !in m.box && ',' !in m.ref && ',' !in m.file
    ensures Text.Split(ManifestLine(m)[..|ManifestLine(m)| - 1], ',') == [m.box, m.ref, m.file]
  {
    SplitJoin([m.box, m.ref, m.file], ',');
    assert ManifestLine(m)[..|ManifestLine(m)| - 1] == Text.Join([m.box, m.ref, m.file], ',');
  }

  // ---------------------------------------------------------------------------
  // The script
  // ---------------------------------------------------------------------------

  /** What the script leaves behind: each list's run, and the manifests
      written. The large list is not reached when the small one fails, and a
      list that fails writes no manifest. */
  datatype Delivery = Delivery(small: Run, large: Option<Run>, manifests: seq<(string, seq<string>)>)

  function Deliver(select: string, small: seq<string>, large: seq<string>, existing: set<string>): Delivery {
    var sr := Assemble(Parser(), select, "small", Start(existing), small);
    if sr.error.Some? then Delivery(sr, None, [])
    else
      var lr := Assemble(Parser(), select, "large", Start(sr.state.existing), large);
      var manifests := [Manifest(select, "small", sr.state)] + if lr.error.None? then [Manifest(select, "large", lr.state)] else [];
      Delivery(sr, Some(lr), manifests)
  }

  /** When both lists go through, each list's last folder gets the rows
      placed there since the last rollover, and both runs keep the folder
      invariant. */
  lemma DeliverManifests(select: string, small: seq<string>, large: seq<string>, existing: set<string>)
    requires Deliver(select, small, large, existing).large.Some?
    requires Deliver(select, small, large, existing).large.value.error.None?
    ensures var d := Deliver(select, small, large, existing);
      && Packed(d.small.state) && Packed(d.large.value.state)
      && d.manifests == [
           (Paths.Join(FolderPath(select, "small", d.small.state.folderNo), "_manifest.txt"),
            [ManifestHeader] + ManifestLines(RowsIn(d.small.state.placed, d.small.state.folderNo))),
           (Paths.Join(FolderPath(select, "large", d.large.value.state.folderNo), "_manifest.txt"),
            [ManifestHeader] + ManifestLines(RowsIn(d.large.value.state.placed, d.large.value.state.folderNo)))]
  {
    var sr := Assemble(Parser(), select, "small", Start(existing), small);
    AssemblePacked(Parser(), select, "small", existing, small);
    AssemblePacked(Parser(), select, "large", sr.state.existing, large);
  }

  /** The loop over one list. */
  method AssembleList(parse: string -> Result<ParsedRow>, select: string, kind: string, existing: set<string>, lines: seq<string>)
    returns (run: Run)
    ensures run == Assemble(parse, select, kind, Start(existing), lines)
  {
    var s := Start(existing);
    for i := 0 to |lines|
      invariant Assemble(parse, select, kind, Start(existing), lines[..i]) == Run(s, None)
    {
      assert lines[..i + 1][..i] == lines[..i];
      var step := StepOnce(parse, select, kind, s, lines[i]);
      if step.error.Some? {
        AssembleStops(parse, select, kind, Start(existing), lines, i + 1);
        return step;
      }
      s := step.state;
    }
    assert lines[..|lines|] == lines;
    run := Run(s, None);
  }

  /** One line, as the loop body does it. */
  method StepOnce(parse: string -> Result<ParsedRow>, select: string, kind: string, s: Assembly, line: string)
    returns (run: Run)
    ensures run == Step(parse, select, kind, s, line)
  {
    if StartsWith(line, "Batch") {
      return Run(s, None);
    }
    var t := s;
    if OverBudget(t.total) {
      t := t.(folderNo := t.folderNo + 1, rows := [], total := 0.0);
    }
    var parsed := parse(line);
    if parsed.Err? {
      return Run(t, Some(parsed.error));
    }
    var r := parsed.value;
    var dest := Paths.Join(FolderPath(select, kind, t.folderNo), r.file);
    if dest !in t.existing {
      if r.source !in t.existing {
        return Run(t, Some(CopyFailed(r.source)));
      }
      run := Run(Place(t.(existing := t.existing + {dest}), r, [Copy(r.source, dest)]), None);
    } else {
      run := Run(Place(t, r, []), None);
    }
  }

  /** An exception part-way ends the whole list the same way. */
  lemma {:induction false} AssembleStops(parse: string -> Result<ParsedRow>, select: string, kind: string, s: Assembly, lines: seq<string>, n: nat)
    requires n <= |lines| && Assemble(parse, select, kind, s, lines[..n]).error.Some?
    ensures Assemble(parse, select, kind, s, lines) == Assemble(parse, select, kind, s, lines[..n])
    decreases |lines| - n
  {
    if n < |lines| {
      assert lines[..n + 1][..n] == lines[..n];
      AssembleStops(parse, select, kind, s, lines, n + 1);
    } else {
      assert lines[..n] == lines;
    }
  }

  /** The script: the small list, then the large one, each with its manifest. */
  method AssembleDelivery(select: string, small: seq<string>, large: seq<string>, existing: set<string>) returns (d: Delivery)
    ensures d == Deliver(select, small, large, existing)
  {
    var sr := AssembleList(Parser(), select, "small", existing, small);
    if sr.error.Some? {
      return Delivery(sr, None, []);
    }
    var manifests := [Manifest(select, "small", sr.state)];
    var lr := AssembleList(Parser(), select, "large", sr.state.existing, large);
    if lr.error.None? {
      manifests := manifests + [Manifest(select, "large", lr.state)];
    }
    d := Delivery(sr, Some(lr), manifests);
  }
}
