/** The state behind the desktop tool's main window: the document list read
    from the source file, the JPEG pages found in it, one thumbnail per page
    laid out in an eight-column grid, and the set of selected pages. Widgets
    are reduced to their image path, checkbox state and grid cell. */
module MonochromeWindow {
  import opened Outcomes
  import opened Text
  import Paths
  import opened Sequences


  const GridColumns: nat := 8

  datatype Thumbnail = Thumbnail(imagePath: string, checked: bool, row: nat, column: nat)

  /** Row `i // 8`, column `i % 8`. */
  function GridCell(i: nat): (nat, nat) {
    (i / GridColumns, i % GridColumns)
  }

  /** The grid cell of a thumbnail determines its index, so no two
      thumbnails share a cell, and the grid is filled row by row. */
  lemma GridCellDeterminesIndex(i: nat, j: nat)
    ensures GridCell(i).1 < GridColumns
    ensures GridCell(i).0 * GridColumns + GridCell(i).1 == i
    ensures GridCell(i) == GridCell(j) ==> i == j
  {
  }

  /** `image_name.lower().endswith('.jpg')`. */
  predicate IsJpgName(name: string) {
    EndsWith(Lower(name), ".jpg")
  }

  /** An absolute name as is, a relative one joined to the list's folder. */
  function ResolveName(baseDir: string, name: string): string {
    if Paths.IsAbsolute(name) then name else Paths.Join(baseDir, name)
  }

  /** The page a cell names: its stripped text, resolved, when that text
      ends in `.jpg` in any case. */
  function CellPage(baseDir: string, cell: string): Option<string> {
    var name := Strip(cell);
    if IsJpgName(name) then Some(ResolveName(baseDir, name)) else None
  }

  /** `CellPage` for the list's folder, as one function value. */
  function PageNamer(baseDir: string): string -> Option<string> {
    c => CellPage(baseDir, c)
  }

  /** Rows with more than one cell; others are skipped as empty. */
  function DocumentRows(rows: seq<seq<string>>): (r: seq<seq<string>>)
    ensures forall k :: 0 <= k < |r| ==> |r[k]| > 1
  {
    if rows == [] then []
    else
      var rest := DocumentRows(rows[..|rows| - 1]);
      if |rows[|rows| - 1]| > 1 then rest + [rows[|rows| - 1]] else rest
  }

  /** The pages of one row: from its second cell on, and none for a row
      that is skipped. */
  function RowPages(named: string -> Option<string>, row: seq<string>): seq<string> {
    if |row| > 1 then FilterMap(named, row[1..]) else []
  }

  /** The pages of a list, row by row and, within a row, cell by cell. */
  function ListPages(named: string -> Option<string>, rows: seq<seq<string>>): seq<string> {
    if rows == [] then []
    else ListPages(named, rows[..|rows| - 1]) + RowPages(named, rows[|rows| - 1])
  }

  /** The JPEG pages of a document list read from a file in `baseDir`. */
  function ImageList(baseDir: string, rows: seq<seq<string>>): seq<string> {
    ListPages(PageNamer(baseDir), rows)
  }

  lemma RowPagesMembers(named: string -> Option<string>, row: seq<string>, p: string)
    ensures p in RowPages(named, row) <==> exists i :: 1 <= i < |row| && named(row[i]) == Some(p)
  {
    if |row| > 1 {
      FilterMapMembers(named, row[1..], p);
      if p in RowPages(named, row) {
        var i :| 0 <= i < |row[1..]| && named(row[1..][i]) == Some(p);
        assert row[i + 1] == row[1..][i];
      }
      if exists i :: 1 <= i < |row| && named(row[i]) == Some(p) {
        var i :| 1 <= i < |row| && named(row[i]) == Some(p);
        assert row[1..][i - 1] == row[i];
      }
    }
  }

  /** A page of some row is a page of the list. */
  lemma {:induction false} RowPageListed(named: string -> Option<string>, rows: seq<seq<string>>, r: int, p: string)
    requires 0 <= r < |rows| && p in RowPages(named, rows[r])
    ensures p in ListPages(named, rows)
  {
    var init := rows[..|rows| - 1];
    if r < |init| {
      assert rows[r] == init[r];
      RowPageListed(named, init, r, p);
    }
  }

  /** A page of the list is a page of some row. */
  lemma {:induction false} ListedPageRow(named: string -> Option<string>, rows: seq<seq<string>>, p: string)
    returns (r: int)
    requires p in ListPages(named, rows)
    ensures 0 <= r < |rows| && p in RowPages(named, rows[r])
  {
    var init := rows[..|rows| - 1];
    if p in ListPages(named, init) {
      r := ListedPageRow(named, init, p);
      assert rows[r] == init[r];
    } else {
      r := |rows| - 1;
    }
  }

  lemma ListPagesMembers(named: string -> Option<string>, rows: seq<seq<string>>, p: string)
    ensures p in ListPages(named, rows) <==>
      exists r, i :: 0 <= r < |rows| && 1 <= i < |rows[r]| && named(rows[r][i]) == Some(p)
  {
    if p in ListPages(named, rows) {
      var r := ListedPageRow(named, rows, p);
      RowPagesMembers(named, rows[r], p);
    }
    if exists r, i :: 0 <= r < |rows| && 1 <= i < |rows[r]| && named(rows[r][i]) == Some(p) {
      var r, i :| 0 <= r < |rows| && 1 <= i < |rows[r]| && named(rows[r][i]) == Some(p);
      RowPagesMembers(named, rows[r], p);
      RowPageListed(named, rows, r, p);
    }
  }

  /** A page is listed exactly when some cell after the first of some row is
      a `.jpg` name (after stripping, in any case) that resolves to it; the
      first cell never contributes. */
  lemma ImageListMembers(baseDir: string, rows: seq<seq<string>>, p: string)
    ensures p in ImageList(baseDir, rows) <==>
      exists r, i :: 0 <= r < |rows| && 1 <= i < |rows[r]| && CellPage(baseDir, rows[r][i]) == Some(p)
  {
    ListPagesMembers(PageNamer(baseDir), rows, p);
  }

  /** The fresh, unchecked thumbnails of a page list. */
  function FreshThumbnails(paths: seq<string>): (t: seq<Thumbnail>)
    ensures |t| == |paths|
  {
    seq(|paths|, i requires 0 <= i < |paths| => Thumbnail(paths[i], false, GridCell(i).0, GridCell(i).1))
  }

  /** The index of the first thumbnail showing `path`, or the count. */
  function FirstWith(thumbnails: seq<Thumbnail>, path: string): (k: nat)
    ensures k <= |thumbnails|
    ensures k < |thumbnails| ==> thumbnails[k].imagePath == path
    ensures forall j :: 0 <= j < k ==> thumbnails[j].imagePath != path
  {
    if thumbnails == [] then 0
    else if thumbnails[0].imagePath == path then 0
    else 1 + FirstWith(thumbnails[1..], path)
  }

  /** How many thumbnails show one of the candidates. */
  function CountShowing(thumbnails: seq<Thumbnail>, candidates: seq<string>): (n: nat)
    ensures n <= |thumbnails|
  {
    if thumbnails == [] then 0
    else
      var shown := if thumbnails[|thumbnails| - 1].imagePath in candidates then 1 else 0;
      CountShowing(thumbnails[..|thumbnails| - 1], candidates) + shown
  }

  /** `{basename(old): basename(new)}` over the converted pairs; a later pair
      for the same name wins. */
  function NameMapping(converted: seq<(string, string)>): map<string, string> {
    if converted == [] then map[]
    else
      var (o, n) := converted[|converted| - 1];
      NameMapping(converted[..|converted| - 1])[Paths.Basename(o) := Paths.Basename(n)]
  }

  /** The index of the last pair converting a file of base name `name`,
      or -1. */
  function LastConversion(converted: seq<(string, string)>, name: string): (k: int)
    ensures -1 <= k < |converted|
    ensures k >= 0 ==> Paths.Basename(converted[k].0) == name
    ensures forall j :: k < j < |converted| ==> Paths.Basename(converted[j].0) != name
  {
    if converted == [] then -1
    else if Paths.Basename(converted[|converted| - 1].0) == name then |converted| - 1
    else LastConversion(converted[..|converted| - 1], name)
  }

  /** A name is mapped exactly when it is the base name of a converted
      original, and it maps to the new base name of the last such pair. */
  lemma {:induction false} NameMappingLookup(converted: seq<(string, string)>, name: string)
    ensures name in NameMapping(converted) <==> LastConversion(converted, name) >= 0
    ensures name in NameMapping(converted) ==>
      NameMapping(converted)[name] == Paths.Basename(converted[LastConversion(converted, name)].1)
  {
    if converted != [] {
      NameMappingLookup(converted[..|converted| - 1], name);
    }
  }

  /** A page cell after renaming: the new name if its stripped text is a
      mapped name, the cell as it was otherwise. */
  function Renamed(mapping: map<string, string>, cell: string): string {
    var filename := Strip(cell);
    if filename in mapping then mapping[filename] else cell
  }

  /** One row with its page cells renamed: column 0 is never touched. */
  function RemapRow(row: seq<string>, mapping: map<string, string>): (r: seq<string>)
    ensures |r| == |row|
  {
    seq(|row|, i requires 0 <= i < |row| => if i == 0 then row[i] else Renamed(mapping, row[i]))
  }

  function RemapRows(rows: seq<seq<string>>, mapping: map<string, string>): (r: seq<seq<string>>)
    ensures |r| == |rows|
  {
    seq(|rows|, k requires 0 <= k < |rows| => RemapRow(rows[k], mapping))
  }

  /** The paths outside a set, in their original order. */
  function Without(paths: seq<string>, removed: set<string>): (r: seq<string>)
    ensures |r| <= |paths|
  {
    if paths == [] then []
    else
      var rest := Without(paths[..|paths| - 1], removed);
      if paths[|paths| - 1] in removed then rest else rest + [paths[|paths| - 1]]
  }

  lemma {:induction false} WithoutMembers(paths: seq<string>, removed: set<string>, p: string)
    ensures p in Without(paths, removed) <==> p in paths && p !in removed
  {
    if paths != [] {
      var init := paths[..|paths| - 1];
      WithoutMembers(init, removed, p);
      assert paths == init + [paths[|paths| - 1]];
    }
  }

  function Originals(converted: seq<(string, string)>): set<string> {
    set k | 0 <= k < |converted| :: converted[k].0
  }


  /** The paths of the thumbnails that show a candidate. */
  function ShownCandidates(thumbnails: seq<Thumbnail>, candidates: seq<string>): set<string> {
    if thumbnails == [] then {}
    else
      var t := thumbnails[|thumbnails| - 1];
      ShownCandidates(thumbnails[..|thumbnails| - 1], candidates)
        + (if t.imagePath in candidates then {t.imagePath} else {})
  }

  lemma {:induction false} ShownCandidatesMembers(thumbnails: seq<Thumbnail>, candidates: seq<string>, p: string)
    ensures p in ShownCandidates(thumbnails, candidates) <==>
      p in candidates && exists i :: 0 <= i < |thumbnails| && thumbnails[i].imagePath == p
  {
    if thumbnails != [] {
      var init := thumbnails[..|thumbnails| - 1];
      ShownCandidatesMembers(init, candidates, p);
      if exists i :: 0 <= i < |thumbnails| && thumbnails[i].imagePath == p {
        var i :| 0 <= i < |thumbnails| && thumbnails[i].imagePath == p;
        if i < |init| { assert init[i] == thumbnails[i]; }
      }
    }
  }

  /** The number of auto-checked thumbnails is the number of widgets, not of
      distinct paths, showing a candidate. */
  lemma {:induction false} CountShowingIsCardinality(thumbnails: seq<Thumbnail>, candidates: seq<string>)
    ensures CountShowing(thumbnails, candidates) ==
      |set i | 0 <= i < |thumbnails| && thumbnails[i].imagePath in candidates|
  {
    if thumbnails != [] {
      var init := thumbnails[..|thumbnails| - 1];
      CountShowingIsCardinality(init, candidates);
      var before := set i | 0 <= i < |init| && init[i].imagePath in candidates;
      var all := set i | 0 <= i < |thumbnails| && thumbnails[i].imagePath in candidates;
      if thumbnails[|thumbnails| - 1].imagePath in candidates {
        assert all == before + {|thumbnails| - 1};
      } else {
        assert all == before;
      }
    }
  }

  /** A thumbnail after the analysis: checked if it shows a candidate. */
  function Marked(t: Thumbnail, candidates: seq<string>): (r: Thumbnail)
    ensures r.imagePath == t.imagePath && (r.row, r.column) == (t.row, t.column)
    ensures r.checked <==> t.checked || t.imagePath in candidates
  {
    if t.imagePath in candidates then t.(checked := true) else t
  }

  lemma DocumentRowsMembers(rows: seq<seq<string>>, row: seq<string>)
    ensures row in DocumentRows(rows) <==> row in rows && |row| > 1
  {
    if rows != [] {
      var init := rows[..|rows| - 1];
      DocumentRowsMembers(init, row);
      assert rows == init + [rows[|rows| - 1]];
    }
  }

  /** After `update_source_file`, a cell of column 0 or one whose stripped
      text is no converted original's name is unchanged; any other cell holds
      the new name of the last conversion of that name. */
  lemma RemappedCell(rows: seq<seq<string>>, converted: seq<(string, string)>, k: nat, i: nat)
    requires k < |rows| && i < |rows[k]|
    ensures var cell := RemapRows(rows, NameMapping(converted))[k][i];
      var last := LastConversion(converted, Strip(rows[k][i]));
      && (i == 0 || last < 0 ==> cell == rows[k][i])
      && (i >= 1 && last >= 0 ==> cell == Paths.Basename(converted[last].1))
  {
    NameMappingLookup(converted, Strip(rows[k][i]));
  }

  class MonochromeDetector {
    var documentData: seq<seq<string>>
    var imageFiles: seq<string>
    var thumbnails: seq<Thumbnail>
    var selectedImages: set<string>
    var filePath: string
    /** The rows last written back to the source file. */
    var writtenRows: seq<seq<string>>

    /** Every kept document has more than one cell, and thumbnail `i` sits in
        grid cell `GridCell(i)`. */
    predicate Valid()
      reads this
    {
      && (forall k :: 0 <= k < |documentData| ==> |documentData[k]| > 1)
      && forall i :: 0 <= i < |thumbnails| ==> (thumbnails[i].row, thumbnails[i].column) == GridCell(i)
    }

    /** Thumbnail `i` shows page `i`. */
    predicate Shown()
      reads this
    {
      |thumbnails| == |imageFiles| && forall i :: 0 <= i < |thumbnails| ==> thumbnails[i].imagePath == imageFiles[i]
    }

    constructor ()
      ensures Valid() && Shown()
      ensures documentData == [] && imageFiles == [] && thumbnails == [] && selectedImages == {}
      ensures writtenRows == []
    {
      documentData := [];
      imageFiles := [];
      thumbnails := [];
      selectedImages := {};
      filePath := "";
      writtenRows := [];
    }

    /** `populate_thumbnails`: one fresh, unchecked thumbnail per page, and
        an empty selection. */
    method PopulateThumbnails()
      requires Valid()
      modifies this
      ensures Valid() && Shown()
      ensures thumbnails == FreshThumbnails(imageFiles) && selectedImages == {}
      ensures documentData == old(documentData) && imageFiles == old(imageFiles)
      ensures filePath == old(filePath) && writtenRows == old(writtenRows)
    {
      var widgets: seq<Thumbnail> := [];
      for i := 0 to |imageFiles|
        invariant |widgets| == i
        invariant forall j :: 0 <= j < i ==>
          widgets[j] == Thumbnail(imageFiles[j], false, GridCell(j).0, GridCell(j).1)
      {
        var row := i / GridColumns;
        var col := i % GridColumns;
        widgets := widgets + [Thumbnail(imageFiles[i], false, row, col)];
      }
      assert widgets == FreshThumbnails(imageFiles);
      thumbnails := widgets;
      selectedImages := {};
    }

    /** `load_file_list` after the file dialog: `selectedPath` is the chosen
        path ("" when the dialog was cancelled), `rows` the rows the reader
        yielded and `failed` whether reading then raised (a file that cannot
        be opened yields no row and fails). The lists are cleared before
        reading and grow row by row, so a failure leaves them holding what
        the rows read before it gave, with the old path and thumbnails. */
    method LoadFileList(selectedPath: string, rows: seq<seq<string>>, failed: bool)
      requires Valid()
      modifies this
      ensures Valid()
      ensures writtenRows == old(writtenRows)
      ensures selectedPath == "" ==>
        && documentData == old(documentData) && imageFiles == old(imageFiles)
        && thumbnails == old(thumbnails) && selectedImages == old(selectedImages)
        && filePath == old(filePath)
      ensures selectedPath != "" ==>
        && documentData == DocumentRows(rows)
        && imageFiles == ImageList(Paths.Dirname(selectedPath), rows)
      ensures selectedPath != "" && failed ==>
        && thumbnails == old(thumbnails) && selectedImages == old(selectedImages)
        && filePath == old(filePath)
      ensures selectedPath != "" && !failed ==>
        && filePath == selectedPath
        && Shown() && thumbnails == FreshThumbnails(imageFiles)
        && selectedImages == {}
    {
      if selectedPath == "" {
        return;
      }
      documentData := [];
      imageFiles := [];
      var baseDir := Paths.Dirname(selectedPath);
      var documents, images := ReadDocuments(baseDir, rows);
      documentData := documents;
      imageFiles := images;
      if failed {
        return;
      }
      filePath := selectedPath;
      PopulateThumbnails();
    }

    /** `on_thumbnail_clicked`: the first thumbnail showing the path decides
        whether the path is added to the selection or removed from it. */
    method OnThumbnailClicked(path: string)
      requires Valid()
      ensures Valid() && (old(Shown()) ==> Shown())
      modifies this
      ensures var k := FirstWith(thumbnails, path);
        && (k < |thumbnails| && thumbnails[k].checked ==> selectedImages == old(selectedImages) + {path})
        && (k < |thumbnails| && !thumbnails[k].checked ==> selectedImages == old(selectedImages) - {path})
        && (k == |thumbnails| ==> selectedImages == old(selectedImages))
      ensures documentData == old(documentData) && imageFiles == old(imageFiles) && thumbnails == old(thumbnails)
      ensures filePath == old(filePath) && writtenRows == old(writtenRows)
    {
      var k := 0;
      while k < |thumbnails| && thumbnails[k].imagePath != path
        invariant 0 <= k <= |thumbnails|
        invariant forall j :: 0 <= j < k ==> thumbnails[j].imagePath != path
      {
        k := k + 1;
      }
      FirstWithIs(thumbnails, path, k);
      if k < |thumbnails| {
        if thumbnails[k].checked {
          selectedImages := selectedImages + {path};
        } else {
          selectedImages := selectedImages - {path};
        }
      }
    }

    /** A click on thumbnail `i`'s image: the checkbox is toggled, which
        reports the path once through the checkbox's change signal and once
        more through the click signal. A path shown once is then selected
        exactly when its checkbox is checked. */
    method OnImageClicked(i: nat)
      requires i < |thumbnails|
      requires Valid()
      ensures Valid() && (old(Shown()) ==> Shown())
      modifies this
      ensures thumbnails == old(thumbnails)[i := old(thumbnails[i]).(checked := !old(thumbnails[i]).checked)]
      ensures var p := thumbnails[i].imagePath; var k := FirstWith(thumbnails, p);
        && k <= i
        && (thumbnails[k].checked ==> selectedImages == old(selectedImages) + {p})
        && (!thumbnails[k].checked ==> selectedImages == old(selectedImages) - {p})
      ensures documentData == old(documentData) && imageFiles == old(imageFiles)
      ensures filePath == old(filePath) && writtenRows == old(writtenRows)
    {
      thumbnails := thumbnails[i := thumbnails[i].(checked := !thumbnails[i].checked)];
      var p := thumbnails[i].imagePath;
      OnThumbnailClicked(p);
      OnThumbnailClicked(p);
    }

    /** `on_analysis_complete`: every thumbnail showing a candidate is
        checked and its path selected; the count is of such thumbnails. */
    method OnAnalysisComplete(candidates: seq<string>) returns (checkedCount: nat)
      requires Valid()
      ensures Valid() && (old(Shown()) ==> Shown())
      modifies this
      ensures |thumbnails| == |old(thumbnails)|
      ensures forall i :: 0 <= i < |thumbnails| ==> thumbnails[i] == Marked(old(thumbnails[i]), candidates)
      ensures selectedImages == old(selectedImages) + ShownCandidates(old(thumbnails), candidates)
      ensures checkedCount == CountShowing(old(thumbnails), candidates)
      ensures documentData == old(documentData) && imageFiles == old(imageFiles)
      ensures filePath == old(filePath) && writtenRows == old(writtenRows)
    {
      var t0 := thumbnails;
      var widgets := thumbnails;
      var selected := selectedImages;
      checkedCount := 0;
      for i := 0 to |t0|
        invariant |widgets| == |t0|
        invariant forall j :: 0 <= j < i ==> widgets[j] == Marked(t0[j], candidates)
        invariant forall j :: i <= j < |t0| ==> widgets[j] == t0[j]
        invariant selected == old(selectedImages) + ShownCandidates(t0[..i], candidates)
        invariant checkedCount == CountShowing(t0[..i], candidates)
      {
        assert t0[..i + 1][..i] == t0[..i];
        if widgets[i].imagePath in candidates {
          widgets := widgets[i := widgets[i].(checked := true)];
          selected := selected + {widgets[i].imagePath};
          checkedCount := checkedCount + 1;
        }
      }
      assert t0[..|t0|] == t0;
      thumbnails := widgets;
      selectedImages := selected;
    }

    /** `update_source_file`: page cells naming a converted original are
        renamed to the converted file's name, and the whole document list is
        written back. */
    method UpdateSourceFile(converted: seq<(string, string)>)
      requires Valid()
      modifies this
      ensures Valid()
      ensures documentData == RemapRows(old(documentData), NameMapping(converted))
      ensures writtenRows == documentData
      ensures imageFiles == old(imageFiles) && thumbnails == old(thumbnails)
      ensures selectedImages == old(selectedImages) && filePath == old(filePath)
    {
      var mapping := BuildMapping(converted);
      var rows := RemapDocuments(documentData, mapping);
      assert forall k :: 0 <= k < |rows| ==> |rows[k]| == |documentData[k]|;
      documentData := rows;
      writtenRows := rows;
    }

    /** `remove_converted_items`: the converted originals leave the page
        list and the thumbnails are rebuilt. */
    method RemoveConvertedItems(converted: seq<(string, string)>)
      requires Valid()
      modifies this
      ensures Valid() && Shown()
      ensures imageFiles == Without(old(imageFiles), Originals(converted))
      ensures thumbnails == FreshThumbnails(imageFiles) && selectedImages == {}
      ensures documentData == old(documentData)
      ensures filePath == old(filePath) && writtenRows == old(writtenRows)
    {
      var convertedPaths := Originals(converted);
      imageFiles := Without(imageFiles, convertedPaths);
      PopulateThumbnails();
    }
  }

  /** The row loop of `load_file_list`: the documents kept and their
      pages. */
  method ReadDocuments(baseDir: string, rows: seq<seq<string>>) returns (documents: seq<seq<string>>, images: seq<string>)
    ensures documents == DocumentRows(rows)
    ensures images == ImageList(baseDir, rows)
  {
    documents := [];
    images := [];
    for r := 0 to |rows|
      invariant documents == DocumentRows(rows[..r])
      invariant images == ImageList(baseDir, rows[..r])
    {
      assert rows[..r + 1][..r] == rows[..r];
      var row := rows[r];
      if |row| > 1 {
        documents := documents + [row];
        var rowImages := RowImages(baseDir, row);
        images := images + rowImages;
      }
    }
    assert rows[..|rows|] == rows;
  }

  /** The inner loop of `load_file_list`: the row's pages appended to the
      pages found so far. */
  method RowImages(baseDir: string, row: seq<string>) returns (images: seq<string>)
    requires |row| > 1
    ensures images == RowPages(PageNamer(baseDir), row)
  {
    var named := PageNamer(baseDir);
    images := [];
    for i := 1 to |row|
      invariant images == FilterMap(named, row[1..i])
    {
      var before := images;
      var imageName := Strip(row[i]);
      if IsJpgName(imageName) {
        var imagePath := if Paths.IsAbsolute(imageName) then imageName else Paths.Join(baseDir, imageName);
        images := images + [imagePath];
      }
      PageStep(baseDir, row, i, before, images);
    }
    assert row[1..|row|] == row[1..];
  }

  lemma PageStep(baseDir: string, row: seq<string>, i: nat, before: seq<string>, after: seq<string>)
    requires 1 <= i < |row|
    requires before == FilterMap(PageNamer(baseDir), row[1..i])
    requires var name := Strip(row[i]);
      after == before + if IsJpgName(name) then [if Paths.IsAbsolute(name) then name else Paths.Join(baseDir, name)] else []
    ensures after == FilterMap(PageNamer(baseDir), row[1..i + 1])
  {
    SliceSnoc(row, 1, i);
    FilterMapSnoc(PageNamer(baseDir), row[1..i], row[i]);
  }

  /** The mapping loop of `update_source_file`. */
  method BuildMapping(converted: seq<(string, string)>) returns (mapping: map<string, string>)
    ensures mapping == NameMapping(converted)
  {
    mapping := map[];
    for j := 0 to |converted|
      invariant mapping == NameMapping(converted[..j])
    {
      assert converted[..j + 1][..j] == converted[..j];
      var (oldPath, newPath) := converted[j];
      mapping := mapping[Paths.Basename(oldPath) := Paths.Basename(newPath)];
    }
    assert converted[..|converted|] == converted;
  }

  /** The row loop of `update_source_file`. */
  method RemapDocuments(documents: seq<seq<string>>, mapping: map<string, string>) returns (rows: seq<seq<string>>)
    ensures rows == RemapRows(documents, mapping)
  {
    rows := documents;
    for k := 0 to |documents|
      invariant |rows| == |documents|
      invariant forall j :: 0 <= j < k ==> rows[j] == RemapRow(documents[j], mapping)
      invariant forall j :: k <= j < |documents| ==> rows[j] == documents[j]
    {
      var row := RemapCells(rows[k], mapping);
      rows := rows[k := row];
    }
    assert rows == RemapRows(documents, mapping);
  }

  /** The inner loop of `update_source_file`: each page cell whose stripped
      text is a mapped name takes the new name. */
  method RemapCells(row: seq<string>, mapping: map<string, string>) returns (r: seq<string>)
    ensures r == RemapRow(row, mapping)
  {
    r := row;
    var i := 1;
    while i < |row|
      invariant 1 <= i
      invariant |r| == |row|
      invariant |row| > 0 ==> r[0] == row[0]
      invariant forall c :: 1 <= c < i && c < |row| ==> r[c] == Renamed(mapping, row[c])
      invariant forall c :: i <= c < |r| ==> r[c] == row[c]
    {
      var filename := Strip(r[i]);
      if filename in mapping {
        r := r[i := mapping[filename]];
      }
      assert r[i] == Renamed(mapping, row[i]);
      i := i + 1;
    }
    assert r == RemapRow(row, mapping);
  }

  /** The first index showing `path` is the one a front-to-back search
      stops at. */
  lemma {:induction false} FirstWithIs(thumbnails: seq<Thumbnail>, path: string, k: nat)
    requires k <= |thumbnails|
    requires forall j :: 0 <= j < k ==> thumbnails[j].imagePath != path
    requires k < |thumbnails| ==> thumbnails[k].imagePath == path
    ensures FirstWith(thumbnails, path) == k
  {
    if thumbnails != [] && k > 0 {
      FirstWithIs(thumbnails[1..], path, k - 1);
    }
  }
}
