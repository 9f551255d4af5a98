/** The import list that drives the exporters: one document per line, the
    document name first and its page images after it, comma separated.
    Reading, page resolution and the sibling output folders are shared by
    the combined exporter, the package exporter and the TIFF repair script. */
module ImportList {
  import opened Text
  import Paths

  /** The cells `csv.reader` yields for one line, read without quoting: an
      empty line gives no cells. */
  function CsvRow(line: string): (cells: seq<string>)
    ensures line != "" ==> |cells| >= 1
  {
    if line == "" then [] else Split(line, ',')
  }

  function StripAll(cells: seq<string>): (r: seq<string>)
    ensures |r| == |cells| && forall i :: 0 <= i < |cells| ==> r[i] == Strip(cells[i])
  {
    seq(|cells|, i requires 0 <= i < |cells| => Strip(cells[i]))
  }

  /** The rows `_read_import_list` keeps, with every cell stripped. */
  function KeptRows(lines: seq<string>): (rows: seq<seq<string>>)
    ensures |rows| <= |lines|
    ensures forall r :: 0 <= r < |rows| ==> |rows[r]| > 1
  {
    if lines == [] then []
    else
      var rest := KeptRows(lines[..|lines| - 1]);
      var row := CsvRow(lines[|lines| - 1]);
      if |row| > 1 then rest + [StripAll(row)] else rest
  }

  /** Reading is line by line: the rows of two stretches of the file are the
      rows of the first followed by the rows of the second. */
  lemma {:induction false} KeptRowsAppend(a: seq<string>, b: seq<string>)
    ensures KeptRows(a + b) == KeptRows(a) + KeptRows(b)
  {
    if b == [] {
      assert a + b == a;
    } else {
      var init := b[..|b| - 1];
      KeptRowsAppend(a, init);
      assert (a + b)[..|a + b| - 1] == a + init;
      assert (a + b)[|a + b| - 1] == b[|b| - 1];
    }
  }

  /** A single line yields its stripped cells if it has at least two, and
      nothing otherwise. */
  lemma KeptRowsOfLine(line: string)
    ensures KeptRows([line]) == if |CsvRow(line)| > 1 then [StripAll(CsvRow(line))] else []
  {
    assert [line][..0] == [];
  }

  lemma KeptRowsStep(lines: seq<string>, j: nat)
    requires j < |lines|
    ensures KeptRows(lines[..j + 1]) == KeptRows(lines[..j]) +
      if |CsvRow(lines[j])| > 1 then [StripAll(CsvRow(lines[j]))] else []
  {
    var a, b := lines[..j], [lines[j]];
    assert lines[..j + 1] == a + b;
    KeptRowsAppend(a, b);
    KeptRowsOfLine(lines[j]);
  }

  /** `_read_import_list` over the lines of the import file. */
  method ReadImportList(lines: seq<string>) returns (rows: seq<seq<string>>)
    ensures rows == KeptRows(lines)
  {
    rows := [];
    for j := 0 to |lines|
      invariant rows == KeptRows(lines[..j])
    {
      KeptRowsStep(lines, j);
      var row := CsvRow(lines[j]);
      if |row| > 1 {
        rows := rows + [StripAll(row)];
      }
    }
    assert lines[..|lines|] == lines;
  }

  /** `Path(cell)` made absolute against the import folder unless it is
      absolute already. */
  function ResolveCell(baseDir: string, cell: string): string {
    if Paths.IsAbsolute(cell) then cell else Paths.PathJoin(baseDir, cell)
  }

  /** The page paths `_resolve_images` produces: empty cells are skipped. */
  function Resolved(baseDir: string, cells: seq<string>): (r: seq<string>)
    ensures |r| <= |cells|
  {
    if cells == [] then []
    else
      var rest := Resolved(baseDir, cells[..|cells| - 1]);
      var cell := cells[|cells| - 1];
      if cell == "" then rest else rest + [ResolveCell(baseDir, cell)]
  }

  /** Resolution keeps the non-empty cells in order, each resolved. */
  lemma {:induction false} ResolvedIsMapOfNonEmpty(baseDir: string, cells: seq<string>)
    ensures |Resolved(baseDir, cells)| == |NonEmpty(cells)|
    ensures forall k :: 0 <= k < |NonEmpty(cells)| ==>
      Resolved(baseDir, cells)[k] == ResolveCell(baseDir, NonEmpty(cells)[k])
  {
    if cells != [] {
      ResolvedIsMapOfNonEmpty(baseDir, cells[..|cells| - 1]);
    }
  }

  function NonEmpty(cells: seq<string>): (r: seq<string>)
    ensures forall k :: 0 <= k < |r| ==> r[k] != "" && r[k] in cells
    ensures forall c :: c in cells && c != "" ==> c in r
  {
    if cells == [] then []
    else
      var rest := NonEmpty(cells[..|cells| - 1]);
      var cell := cells[|cells| - 1];
      assert forall c :: c in cells ==> c in cells[..|cells| - 1] || c == cell;
      if cell == "" then rest else rest + [cell]
  }

  /** `_resolve_images(import_file, page_cells)`. */
  method ResolveImages(importFile: string, pageCells: seq<string>) returns (resolved: seq<string>)
    ensures resolved == Resolved(Paths.Parent(importFile), pageCells)
  {
    var baseDir := Paths.Parent(importFile);
    resolved := [];
    for j := 0 to |pageCells|
      invariant resolved == Resolved(baseDir, pageCells[..j])
    {
      assert pageCells[..j + 1][..j] == pageCells[..j];
      var cell := pageCells[j];
      if cell == "" {
        continue;
      }
      resolved := resolved + [ResolveCell(baseDir, cell)];
    }
    assert pageCells[..|pageCells|] == pageCells;
  }

  /** `_ensure_output_dirs`: `<parent>/<folder name>_mpt` and `..._pdf`, where
      the folder is the one holding the import file. */
  function OutputDirs(importFile: string): (dirs: (string, string))
  {
    var imagesFolder := Paths.Parent(importFile);
    var parent := Paths.Parent(imagesFolder);
    var name := Paths.Name(imagesFolder);
    (Paths.PathJoin(parent, name + "_mpt"), Paths.PathJoin(parent, name + "_pdf"))
  }

  /** For an import file in a folder `dir/name` below some other folder,
      the output folders are that folder's path with `_mpt` and `_pdf`
      appended: siblings of it. */
  lemma OutputDirsAreSiblings(importFile: string, dir: string, name: string)
    requires Paths.Parent(importFile) == dir + [Paths.Sep] + name
    requires Paths.Sep !in name && name != ""
    requires dir == "" || (dir[|dir| - 1] != Paths.Sep && dir != ".")
    ensures OutputDirs(importFile) == (Paths.Parent(importFile) + "_mpt", Paths.Parent(importFile) + "_pdf")
  {
    Paths.SiblingWithSuffix(dir, name, "_mpt");
    Paths.SiblingWithSuffix(dir, name, "_pdf");
  }
}
