/** `export_from_import_file`: one multipage TIFF and one PDF per document
    row of the import list, with the two outputs attempted and counted
    independently. The combined exporter writes the TIFF with Pillow, the
    package exporter with ImageMagick; both write the PDF with Pillow. */
module Export {
  import opened Outcomes
  import opened Paths
  import opened Sequences
  import opened ImportList
  import PilSavers
  import MagickExport

  datatype TiffBackend = PilTiff | MagickTiff(magick: MagickExport.Env)

  /** The page files that exist before the run, the outputs that exist
      after their save, what Pillow makes of each path, and the TIFF
      writer in use. */
  datatype Env = Env(existing: set<string>, present: set<string>, pil: PilSavers.Env, tiff: TiffBackend)

  /** `Path(row[0]).stem`. */
  function DocName(row: seq<string>): string
    requires |row| >= 1
  {
    Stem(row[0])
  }

  /** The existing resolved pages of a row. */
  function RowPages(importFile: string, existing: set<string>, row: seq<string>): (pages: seq<string>)
    requires |row| >= 1
    ensures forall p :: p in pages ==> p in existing
  {
    Present(existing, Resolved(Parent(importFile), row[1..]))
  }

  /** Whether the TIFF saver returned without raising. */
  predicate TiffReturns(env: Env, output: string, pages: seq<string>) {
    match env.tiff
    case PilTiff => !PilSavers.TiffSave(env.pil, output, pages).raised
    case MagickTiff(magick) => MagickExport.MagickSave(magick, output, pages).error.None?
  }

  predicate PdfReturns(env: Env, output: string, pages: seq<string>) {
    !PilSavers.PdfSave(env.pil, output, pages).raised
  }

  /** `num_tiffs += 1 if tiff_out.exists() else 0` after a save that returned. */
  function TiffCounted(env: Env): (string, seq<string>) -> bool {
    (output, pages) => TiffReturns(env, output, pages) && output in env.present
  }

  function PdfCounted(env: Env): (string, seq<string>) -> bool {
    (output, pages) => PdfReturns(env, output, pages) && output in env.present
  }

  /** What one row adds to a count: nothing for a row without existing
      pages, otherwise one if the document's output is counted. */
  function RowCount(importFile: string, existing: set<string>, row: seq<string>, outDir: string, ext: string,
                    counted: (string, seq<string>) -> bool): (n: nat)
    requires |row| >= 1
    ensures n <= 1
  {
    var pages := RowPages(importFile, existing, row);
    if pages != [] && counted(PathJoin(outDir, DocName(row) + ext), pages) then 1 else 0
  }

  /** The number of documents counted over the rows. */
  function Created(importFile: string, existing: set<string>, rows: seq<seq<string>>, outDir: string, ext: string,
                   counted: (string, seq<string>) -> bool): nat
    requires forall r :: 0 <= r < |rows| ==> |rows[r]| >= 1
  {
    if rows == [] then 0
    else Created(importFile, existing, rows[..|rows| - 1], outDir, ext, counted)
         + RowCount(importFile, existing, rows[|rows| - 1], outDir, ext, counted)
  }

  /** The number of rows with at least one existing page. */
  function Eligible(importFile: string, existing: set<string>, rows: seq<seq<string>>): nat
    requires forall r :: 0 <= r < |rows| ==> |rows[r]| >= 1
  {
    if rows == [] then 0
    else Eligible(importFile, existing, rows[..|rows| - 1])
         + (if RowPages(importFile, existing, rows[|rows| - 1]) != [] then 1 else 0)
  }

  /** Each count is at most the number of rows with an existing page, and
      it reaches that number when every such row's output is counted. */
  lemma {:induction false} CreatedBounds(importFile: string, existing: set<string>, rows: seq<seq<string>>,
                                         outDir: string, ext: string, counted: (string, seq<string>) -> bool)
    requires forall r :: 0 <= r < |rows| ==> |rows[r]| >= 1
    ensures Created(importFile, existing, rows, outDir, ext, counted) <= Eligible(importFile, existing, rows)
    ensures (forall r :: 0 <= r < |rows| && RowPages(importFile, existing, rows[r]) != [] ==>
               counted(PathJoin(outDir, DocName(rows[r]) + ext), RowPages(importFile, existing, rows[r])))
            ==> Created(importFile, existing, rows, outDir, ext, counted) == Eligible(importFile, existing, rows)
    ensures (forall r :: 0 <= r < |rows| ==> !counted(PathJoin(outDir, DocName(rows[r]) + ext), RowPages(importFile, existing, rows[r])))
            ==> Created(importFile, existing, rows, outDir, ext, counted) == 0
  {
    if rows != [] {
      CreatedBounds(importFile, existing, rows[..|rows| - 1], outDir, ext, counted);
    }
  }

  /** The TIFF count and the PDF count of a run. */
  function Counts(importFile: string, lines: seq<string>, env: Env): (nat, nat) {
    var rows := KeptRows(lines);
    var (mptDir, pdfDir) := OutputDirs(importFile);
    (Created(importFile, env.existing, rows, mptDir, ".tif", TiffCounted(env)),
     Created(importFile, env.existing, rows, pdfDir, ".pdf", PdfCounted(env)))
  }

  /** Counting depends on nothing but which outputs are counted. */
  lemma {:induction false} CreatedAgree(importFile: string, existing: set<string>, rows: seq<seq<string>>, outDir: string,
                                        ext: string, c1: (string, seq<string>) -> bool, c2: (string, seq<string>) -> bool)
    requires forall r :: 0 <= r < |rows| ==> |rows[r]| >= 1
    requires forall o, p :: c1(o, p) == c2(o, p)
    ensures Created(importFile, existing, rows, outDir, ext, c1) == Created(importFile, existing, rows, outDir, ext, c2)
  {
    if rows != [] {
      CreatedAgree(importFile, existing, rows[..|rows| - 1], outDir, ext, c1, c2);
    }
  }

  /** The two outputs are counted independently: the PDF count does not
      depend on the TIFF writer, and with ImageMagick writing the TIFFs
      the TIFF count does not depend on how Pillow fares. */
  lemma CountsIndependent(importFile: string, lines: seq<string>, env: Env, other: Env)
    requires other.existing == env.existing && other.present == env.present
    ensures other.pil == env.pil ==> Counts(importFile, lines, other).1 == Counts(importFile, lines, env).1
    ensures other.tiff == env.tiff && env.tiff.MagickTiff? ==>
      Counts(importFile, lines, other).0 == Counts(importFile, lines, env).0
  {
    var rows := KeptRows(lines);
    var (mptDir, pdfDir) := OutputDirs(importFile);
    if other.pil == env.pil {
      CreatedAgree(importFile, env.existing, rows, pdfDir, ".pdf", PdfCounted(other), PdfCounted(env));
    }
    if other.tiff == env.tiff && env.tiff.MagickTiff? {
      CreatedAgree(importFile, env.existing, rows, mptDir, ".tif", TiffCounted(other), TiffCounted(env));
    }
  }

  lemma CreatedStep(importFile: string, existing: set<string>, rows: seq<seq<string>>, i: nat, outDir: string, ext: string,
                    counted: (string, seq<string>) -> bool)
    requires i < |rows| && forall r :: 0 <= r < |rows| ==> |rows[r]| >= 1
    ensures Created(importFile, existing, rows[..i + 1], outDir, ext, counted)
         == Created(importFile, existing, rows[..i], outDir, ext, counted) + RowCount(importFile, existing, rows[i], outDir, ext, counted)
  {
    assert rows[..i + 1][..i] == rows[..i];
  }

  /** A PDF that Pillow writes for a row with existing pages is never the
      empty-list case: it is counted exactly when every page opens, the
      save returns and the file is there. */
  lemma PdfCountedRule(env: Env, output: string, pages: seq<string>)
    requires pages != []
    ensures PdfCounted(env)(output, pages) <==>
      (forall i :: 0 <= i < |pages| ==> env.pil.open(pages[i]).Some?) && env.pil.saves(output) && output in env.present
  {
    PilSavers.SaverReports(env.pil, output, pages, true);
    var k := PilSavers.FirstUnopenable(env.pil.open, pages);
    if forall i :: 0 <= i < |pages| ==> env.pil.open(pages[i]).Some? {
      assert k == |pages|;
    }
  }

  /** The per-row body: attempt the TIFF, then the PDF, swallowing errors. */
  method ExportRow(importFile: string, row: seq<string>, mptDir: string, pdfDir: string, env: Env)
    returns (tiffs: nat, pdfs: nat)
    requires |row| >= 1
    ensures tiffs == RowCount(importFile, env.existing, row, mptDir, ".tif", TiffCounted(env))
    ensures pdfs == RowCount(importFile, env.existing, row, pdfDir, ".pdf", PdfCounted(env))
  {
    var docName := Stem(row[0]);
    var resolved := ResolveImages(importFile, row[1..]);
    var images := Present(env.existing, resolved);
    if images == [] {
      return 0, 0;
    }
    var tiffOut := PathJoin(mptDir, docName + ".tif");
    var pdfOut := PathJoin(pdfDir, docName + ".pdf");
    var tiffReturned: bool;
    match env.tiff {
      case PilTiff =>
        var report := PilSavers.SaveMultipageTiff(env.pil, tiffOut, images);
        tiffReturned := !report.raised;
      case MagickTiff(magick) =>
        var report := MagickExport.SaveMultipageTiff(magick, tiffOut, images);
        tiffReturned := report.error.None?;
    }
    tiffs := if tiffReturned && tiffOut in env.present then 1 else 0;
    var pdfReport := PilSavers.SavePdf(env.pil, pdfOut, images);
    pdfs := if !pdfReport.raised && pdfOut in env.present then 1 else 0;
  }

  /** `export_from_import_file` over the lines of the import file. */
  method ExportFromImportFile(importFile: string, lines: seq<string>, env: Env) returns (numTiffs: nat, numPdfs: nat)
    ensures (numTiffs, numPdfs) == Counts(importFile, lines, env)
  {
    var rows := ReadImportList(lines);
    var (mptDir, pdfDir) := OutputDirs(importFile);
    numTiffs, numPdfs := 0, 0;
    for i := 0 to |rows|
      invariant numTiffs == Created(importFile, env.existing, rows[..i], mptDir, ".tif", TiffCounted(env))
      invariant numPdfs == Created(importFile, env.existing, rows[..i], pdfDir, ".pdf", PdfCounted(env))
    {
      CreatedStep(importFile, env.existing, rows, i, mptDir, ".tif", TiffCounted(env));
      CreatedStep(importFile, env.existing, rows, i, pdfDir, ".pdf", PdfCounted(env));
      var t, p := ExportRow(importFile, rows[i], mptDir, pdfDir, env);
      numTiffs, numPdfs := numTiffs + t, numPdfs + p;
    }
    assert rows[..|rows|] == rows;
  }
}
