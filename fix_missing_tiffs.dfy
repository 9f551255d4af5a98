/** The TIFF repair script: for every document of an import list, find the
    page images that do not exist and queue, for each, its `.jpg` sibling
    when that exists and its `.tif` sibling does not. A `.jpg` that is
    itself missing is logged. The queue is started afresh for every row, so
    after the loop it holds only the last row's pages; the conversion that
    would consume it is switched off in the source. */
module FixMissingTiffs {
  import opened Outcomes
  import opened Text
  import Paths
  import ImportList

  /** Index of the first page column of an import row. */
  const NumDataColumns: nat := 2

  /** The typed import-file path with `&`, `"` and `'` removed, then
      stripped. */
  function CleanInput(s: string): (r: string)
    ensures '&' !in r && '"' !in r && '\'' !in r
  {
    var a := Replace(s, "&", "");
    var b := Replace(a, "\"", "");
    var c := Replace(b, "'", "");
    ReplaceRemoves(s, '&');
    ReplaceKeepsOut(a, "\"", "", '&');
    ReplaceKeepsOut(b, "'", "", '&');
    ReplaceRemoves(a, '"');
    ReplaceKeepsOut(b, "'", "", '"');
    ReplaceRemoves(b, '\'');
    StripKeepsOut(c, '&');
    StripKeepsOut(c, '"');
    StripKeepsOut(c, '\'');
    Strip(c)
  }

  /** A path typed without those characters is only stripped. */
  lemma CleanInputOfPlain(s: string)
    requires '&' !in s && '"' !in s && '\'' !in s
    ensures CleanInput(s) == Strip(s)
  {
    assert s + "" == s;
    ReplaceSkips(s, "", "&", "");
    ReplaceSkips(s, "", "\"", "");
    ReplaceSkips(s, "", "'", "");
  }

  // ---------------------------------------------------------------------------
  // One row
  // ---------------------------------------------------------------------------

  /** `row[NUM_DATA_COLUMNS:]`: empty for a shorter row. */
  function PageCells(row: seq<string>): seq<string> {
    if |row| >= NumDataColumns then row[NumDataColumns..] else []
  }

  /** The row's page paths, resolved against the import file's folder. */
  function Pages(importFile: string, row: seq<string>): seq<string> {
    ImportList.Resolved(Paths.Parent(importFile), PageCells(row))
  }

  /** A row has no pages exactly when all its page cells are empty. */
  lemma PagesEmpty(importFile: string, row: seq<string>)
    ensures Pages(importFile, row) == [] <==> forall c :: c in PageCells(row) ==> c == ""
  {
    var cells := PageCells(row);
    ImportList.ResolvedIsMapOfNonEmpty(Paths.Parent(importFile), cells);
    var kept := ImportList.NonEmpty(cells);
    if kept != [] {
      assert kept[0] in cells && kept[0] != "";
    }
  }

  /** The pages that do not exist, in order. */
  function Missing(existing: set<string>, pages: seq<string>): (r: seq<string>)
    ensures forall p :: p in r <==> p in pages && p !in existing
  {
    if pages == [] then []
    else
      var init := pages[..|pages| - 1];
      var p := pages[|pages| - 1];
      assert pages == init + [p];
      var rest := Missing(existing, init);
      if p in existing then rest else rest + [p]
  }

  function JpgOf(page: string): string {
    Paths.WithSuffix(page, ".jpg")
  }

  function TifOf(page: string): string {
    Paths.WithSuffix(page, ".tif")
  }

  /** How a page's `.jpg` and `.tif` siblings are named; the script uses
      `Suffixed`. */
  datatype Siblings = Siblings(jpg: string -> string, tif: string -> string)

  const Suffixed: Siblings := Siblings(JpgOf, TifOf)

  /** The `.jpg` files queued for the missing pages `missing`. */
  function Fixes(sib: Siblings, existing: set<string>, missing: seq<string>): seq<string> {
    if missing == [] then []
    else
      var page := missing[|missing| - 1];
      Fixes(sib, existing, missing[..|missing| - 1])
      + if sib.jpg(page) in existing && sib.tif(page) !in existing then [sib.jpg(page)] else []
  }

  /** The `.jpg` files logged as not found for the missing pages `missing`. */
  function NotFound(sib: Siblings, existing: set<string>, missing: seq<string>): seq<string> {
    if missing == [] then []
    else
      var page := missing[|missing| - 1];
      NotFound(sib, existing, missing[..|missing| - 1]) + if sib.jpg(page) !in existing then [sib.jpg(page)] else []
  }

  /** `f` is queued for the `k`-th missing page. */
  predicate QueuedFor(sib: Siblings, existing: set<string>, missing: seq<string>, k: int, f: string) {
    0 <= k < |missing| && f == sib.jpg(missing[k]) && f in existing && sib.tif(missing[k]) !in existing
  }

  /** `f` is logged for the `k`-th missing page. */
  predicate LoggedFor(sib: Siblings, existing: set<string>, missing: seq<string>, k: int, f: string) {
    0 <= k < |missing| && f == sib.jpg(missing[k]) && f !in existing
  }

  /** The queue holds exactly the existing `.jpg` siblings of missing pages
      whose `.tif` sibling does not exist. */
  lemma {:induction false} FixesExact(sib: Siblings, existing: set<string>, missing: seq<string>)
    ensures forall f :: f in Fixes(sib, existing, missing) <==> exists k :: QueuedFor(sib, existing, missing, k, f)
  {
    if missing != [] {
      var n := |missing| - 1;
      var init := missing[..n];
      FixesExact(sib, existing, init);
      forall f, k | QueuedFor(sib, existing, init, k, f) ensures QueuedFor(sib, existing, missing, k, f) {
        assert init[k] == missing[k];
      }
      forall f, k | QueuedFor(sib, existing, missing, k, f) && k < n ensures QueuedFor(sib, existing, init, k, f) {
        assert init[k] == missing[k];
      }
      if sib.jpg(missing[n]) in existing && sib.tif(missing[n]) !in existing {
        assert QueuedFor(sib, existing, missing, n, sib.jpg(missing[n]));
      }
    }
  }

  /** The log holds exactly the absent `.jpg` siblings of missing pages. */
  lemma {:induction false} NotFoundExact(sib: Siblings, existing: set<string>, missing: seq<string>)
    ensures forall f :: f in NotFound(sib, existing, missing) <==> exists k :: LoggedFor(sib, existing, missing, k, f)
  {
    if missing != [] {
      var n := |missing| - 1;
      var init := missing[..n];
      NotFoundExact(sib, existing, init);
      forall f, k | LoggedFor(sib, existing, init, k, f) ensures LoggedFor(sib, existing, missing, k, f) {
        assert init[k] == missing[k];
      }
      forall f, k | LoggedFor(sib, existing, missing, k, f) && k < n ensures LoggedFor(sib, existing, init, k, f) {
        assert init[k] == missing[k];
      }
      if sib.jpg(missing[n]) !in existing {
        assert LoggedFor(sib, existing, missing, n, sib.jpg(missing[n]));
      }
    }
  }

  /** A missing `.tif` page whose `.jpg` exists is always queued: its
      `.tif` sibling is the page itself. */
  lemma MissingTifQueued(existing: set<string>, page: string)
    requires page !in existing && Paths.Suffix(page) == ".tif" && JpgOf(page) in existing
    ensures Fixes(Suffixed, existing, [page]) == [JpgOf(page)]
  {
    assert Paths.PathWithoutSuffix(page) + Paths.Suffix(page) == page;
    assert TifOf(page) == page;
    assert [page][..0] == [];
  }

  /** The inner loop over a row's missing pages. */
  method FixRow(sib: Siblings, existing: set<string>, missing: seq<string>) returns (fixList: seq<string>, logged: seq<string>)
    ensures fixList == Fixes(sib, existing, missing)
    ensures logged == NotFound(sib, existing, missing)
  {
    fixList := [];
    logged := [];
    for j := 0 to |missing|
      invariant fixList == Fixes(sib, existing, missing[..j])
      invariant logged == NotFound(sib, existing, missing[..j])
    {
      assert missing[..j + 1][..j] == missing[..j];
      var jpg := sib.jpg(missing[j]);
      if jpg !in existing {
        logged := logged + [jpg];
        continue;
      }
      var tif := sib.tif(missing[j]);
      if tif !in existing {
        fixList := fixList + [jpg];
      }
    }
    assert missing[..|missing|] == missing;
  }

  // ---------------------------------------------------------------------------
  // The script
  // ---------------------------------------------------------------------------

  function RowFixes(importFile: string, existing: set<string>, row: seq<string>): seq<string> {
    Fixes(Suffixed, existing, Missing(existing, Pages(importFile, row)))
  }

  function RowLogged(importFile: string, existing: set<string>, row: seq<string>): seq<string> {
    NotFound(Suffixed, existing, Missing(existing, Pages(importFile, row)))
  }

  /** `fix_list` after the loop: the last row's queue, and unbound when
      there was no row. */
  function LastFixes(importFile: string, existing: set<string>, rows: seq<seq<string>>): Result<seq<string>> {
    if rows == [] then Err(NameError("fix_list")) else Ok(RowFixes(importFile, existing, rows[|rows| - 1]))
  }

  /** Everything logged, row after row. */
  function Logged(importFile: string, existing: set<string>, rows: seq<seq<string>>): seq<string> {
    if rows == [] then []
    else Logged(importFile, existing, rows[..|rows| - 1]) + RowLogged(importFile, existing, rows[|rows| - 1])
  }

  lemma RowStep(importFile: string, existing: set<string>, rows: seq<seq<string>>, r: nat)
    requires r < |rows|
    ensures LastFixes(importFile, existing, rows[..r + 1]) == Ok(RowFixes(importFile, existing, rows[r]))
    ensures Logged(importFile, existing, rows[..r + 1]) ==
      Logged(importFile, existing, rows[..r]) + RowLogged(importFile, existing, rows[r])
  {
    assert rows[..r + 1][..r] == rows[..r];
  }

  /** The loop over the rows of the import list. */
  method FixRows(importFile: string, rows: seq<seq<string>>, existing: set<string>)
    returns (fixList: Result<seq<string>>, logged: seq<string>)
    ensures fixList == LastFixes(importFile, existing, rows)
    ensures logged == Logged(importFile, existing, rows)
  {
    fixList := Err(NameError("fix_list"));
    logged := [];
    for r := 0 to |rows|
      invariant fixList == LastFixes(importFile, existing, rows[..r])
      invariant logged == Logged(importFile, existing, rows[..r])
    {
      var row := rows[r];
      RowStep(importFile, existing, rows, r);
      fixList := Ok([]);
      var images := ImportList.ResolveImages(importFile, PageCells(row));
      var missing := Missing(existing, images);
      if images == [] {
        assert RowFixes(importFile, existing, row) == [] && RowLogged(importFile, existing, row) == [];
        continue;
      }
      var queued, notFound := FixRow(Suffixed, existing, missing);
      fixList := Ok(queued);
      logged := logged + notFound;
    }
    assert rows[..|rows|] == rows;
  }

  /** The script over the typed path `input`, the import file's lines and
      the files that exist. `fixList` is `fix_list` as the final log line
      reads it (its length is the count logged); `logged` lists the `.jpg`
      files reported as not found. Rows are read as the exporters read
      them; the unused `doc_name` is not computed (every kept row has the
      filename column, so reading it cannot fail). */
  method FixMissing(input: string, lines: seq<string>, existing: set<string>)
    returns (fixList: Result<seq<string>>, logged: seq<string>)
    ensures fixList == LastFixes(CleanInput(input), existing, ImportList.KeptRows(lines))
    ensures logged == Logged(CleanInput(input), existing, ImportList.KeptRows(lines))
  {
    var importFile := CleanInput(input);
    var rows := ImportList.ReadImportList(lines);
    fixList, logged := FixRows(importFile, rows, existing);
  }
}
