# Identify-Monochrome-Images: a Dafny model of the document pipeline

The repository is a set of tools for a scanning bureau. A desktop tool
finds the colour page images of a batch that are really monochrome and
converts them to bilevel Group 4 TIFFs. Exporters turn every document of an
import list into a multipage TIFF and a PDF. A page-count verifier checks
the exports. Console scripts split the exported documents by size, assemble
them into delivery folders with their manifests, and check names and
manifests. This project models the logic of those tools in Dafny and proves
what the code promises.

The modules follow the program:

- `ColorDetector` (color_detector.py) covers the monochrome vote: six strict
  threshold tests with at least four required. It also covers the
  seven-factor clamped confidence, the error result, the candidate filter
  and the debug report, whose count includes a seventh criterion.
- `ColorAnalyser` (color_analyser.py) covers the per-image summary and the
  accumulation of candidates in completion order. qt_color_analyser.py is
  a line-for-line copy, and main.py:27-83 repeats the same `run`; the rows
  cite color_analyser.py once for all three.
- `MonochromeWindow` (main.py) is a class holding the main window's state:
  the document rows, the JPEG page list, the thumbnail grid of eight
  columns and the selection set. Its methods load the list, click
  thumbnails, take the analysis result, rewrite the source list after a
  conversion, and drop converted pages.
- `ImageConverter` (image_converter.py) covers the 128 threshold, the `.tif`
  output name and the list of converted pairs. main.py:86-131 repeats it.
- `ImportList`, `Export`, `PilSavers`, `TifffileExport` and `MagickExport`
  (exporter/*.py and export_pdf_and_mpt.py) cover the import-list reading,
  page resolution and sibling output folders. They also cover the
  per-document counting of TIFFs and PDFs and the compression and colour
  choice of each saver: Group 4 (ITU-T Recommendation T.6), LZW and JPEG.
- `PageCounters` (exporter/counters/*.py) is a class with the dictionary of
  expected and actual page counts. It also has the PDF marker count and
  the TIFF frame count, the failed entries, and the rework file.
- `DeliverySizeSplitter`, `OutputSizeSplitter`, `AssemblePdfs` and
  `AssembleMpts` cover the console delivery scripts: the 50 MiB
  classification, half-to-even kilobyte rounding, the stable sort, the
  30 GiB folder packing with its lagged rollover, and the `_manifest.txt`
  and `CDDOC.DAT` formats.
- `SearchFilenames`, `Validators` and `Reports` cover the checking scripts. Reading
  back a `CDDOC.DAT` or a manifest that the assemblers wrote is proved to
  report exactly the missing files.
- `Text`, `Paths`, `Sequences`, `Sorting` and `Outcomes` are helpers. They
  hold the Python `str`, `os.path`/`pathlib` and `list.sort` behaviour the
  scripts rely on, and optional or error results.

Anything the scripts take from outside is an input to the model: images,
file existence, file sizes, codec results, the user's answers and the order
in which worker threads complete. Each loop that updates the program's
state is a method with a `while`/`for` loop, proved equal to a function that
specifies it. The print-only loops of the checking scripts and the writing
of the index and manifest files are given by functions alone: `Reports.Scan`
(the `CDDOC.DAT` and manifest checks and the two filename validators),
`SearchFilenames.RenameLoop`, `AssembleMpts.CddocLines` and
`AssemblePdfs.ManifestLines`. The properties are proved about those
functions.

Behaviour of the code that looks unintended is modelled as written. The
PDF assembler writes a manifest only for the last folder. The MPT assembler
never clears its entry list, so every `CDDOC.DAT` lists all rows read so
far. The large-file list of the delivery splitter has its kilobyte columns
swapped. The page counters look up `<key><ext>` although the key already
ends in `<ext>`. The TIFF repair script counts only the last row's queue.

## Model

| member | source | states |
|---|---|---|
| ColorDetector.FirstMissingKey | color_detector.py:132-146 | the key whose absence raises `KeyError` is one of the seven the decision reads and is absent from the metrics |
| ColorDetector.Criteria | color_detector.py:132-156 | the decision lists exactly six criteria (saturation variance is computed but not among them) |
| ColorDetector.CountTrue | color_detector.py:159 | `sum` over booleans is at most the number of criteria |
| ColorDetector.CountTrueIsCardinality | color_detector.py:159 | `sum` over booleans equals the number of indices whose criterion holds |
| ColorDetector.CountTrueAppend | color_detector.py:159 | the count of a concatenation is the sum of the counts |
| ColorDetector.IsMonochromeByVote | color_detector.py:125-159 | an image is monochrome exactly when at least four of the six criteria hold |
| ColorDetector.ThresholdsAreStrict | color_detector.py:132-146 | every comparison is strict: metrics sitting exactly on their thresholds pass no criterion and are not monochrome |
| ColorDetector.SaturationVarianceIgnored | color_detector.py:132-159 | changing `saturation_variance` never changes the decision |
| ColorDetector.Clamp | color_detector.py:168 | `max(0, x)` is non-negative, at least `x`, and is either `0` or `x` |
| ColorDetector.ConfidenceFactors | color_detector.py:163-194 | there are seven factors and each is non-negative |
| ColorDetector.Confidence | color_detector.py:161-196 | the confidence is never negative, and at most one when metrics are non-negative and the correlation is at most one |
| ColorDetector.ConfidenceMonotone | color_detector.py:167-196 | larger variance, saturation, hue variance, high-saturation ratio, channel difference or saturation variance, or a smaller correlation, never raises the confidence |
| ColorDetector.AnalyzeImage | color_detector.py:19-66 | an unreadable image or any exception gives an error result that is not monochrome, has confidence 0 and empty metrics; a result has no error exactly when every metric the decision reads is present, and then carries the vote and the confidence |
| ColorDetector.AnalyzeMultipleImages | color_detector.py:198-221 | one result per path in input order; a path that does not exist gets the "File not found" error result |
| ColorDetector.CandidatePaths | color_detector.py:234-243 | the candidates are never more than the paths |
| ColorDetector.CandidatePathsMembers | color_detector.py:223-243 | a path is a candidate exactly when it exists, is analysed without error as monochrome, and reaches the minimum confidence |
| ColorDetector.GetMonochromeCandidates | color_detector.py:223-243 | the loop keeps, in input order, exactly the paths of the candidate results |
| ColorDetector.DebugCriteria | color_detector.py:262-278 | the debug report lists seven criteria |
| ColorDetector.DebugAnalysis | color_detector.py:245-293 | an error result comes back unchanged with no debug section; otherwise at most seven criteria pass and four are required |
| ColorDetector.DebugCountAddsSaturationVariance | color_detector.py:262-280 | the debug count is the decision's count plus one exactly when the saturation variance is below 800 |
| ColorDetector.DebugCountCanMislead | color_detector.py:280-285 | there are metrics for which the debug report shows four criteria passed while the image is not monochrome |
| ColorAnalyser.SummaryCriteria | color_analyser.py:31-46 | the summary counts six criteria |
| ColorAnalyser.ProcessImage | color_analyser.py:23-51 | a path is a candidate exactly when it is monochrome with confidence at least 0.4; an exception gives an error tuple with no verdict, confidence 0 and no count; a non-candidate carries a count of at most six |
| ColorAnalyser.SummaryCountAgreesWithDetector | color_analyser.py:31-46 | for a non-candidate with all metrics present, the summary count equals the detector's own count |
| ColorAnalyser.ErrorResultCountsZero | color_analyser.py:31-38 | a missing metric defaults so that its criterion fails: an error result with empty metrics counts 0 |
| ColorAnalyser.Accumulate | color_analyser.py:56-64 | the candidate list is never longer than the completed futures |
| ColorAnalyser.AccumulateCount | color_analyser.py:56-64 | each path appears in the candidates as often as it completed, when it is accepted, and not at all otherwise |
| ColorAnalyser.CandidatesIndependentOfOrder | color_analyser.py:55-64 | the candidates of two completion orders hold the same paths with the same multiplicities |
| ColorAnalyser.CandidatesAreMonochromeInputs | color_analyser.py:55-64 | a path is a candidate exactly when it is an input whose summary is accepted, with no error |
| ColorAnalyser.Run | color_analyser.py:19-75 | the loop over completed futures appends exactly the accepted paths, in completion order |
| ColorAnalyser.WorkerCount | color_analyser.py:53 | the worker count is within 1..8: the cpu count when it is in range, 8 above it, 2 when unknown or zero |
| ImageConverter.Level | image_converter.py:36 | a grey value becomes 255 exactly when it is at least 128, and 0 otherwise |
| ImageConverter.Binarise | image_converter.py:32-36 | binarising keeps the number of pixels |
| ImageConverter.BinariseProperties | image_converter.py:36 | each pixel is 255 exactly when its grey value is at least 128, every pixel is 0 or 255, and binarising twice changes nothing |
| ImageConverter.TiffPath | image_converter.py:39 | the output path ends in `.tif` |
| ImageConverter.TiffPathIsSibling | image_converter.py:39 | the output lies in the input's folder and is named after the input with its last extension replaced by `.tif` |
| ImageConverter.ConvertOne | image_converter.py:24-49 | a page contributes, if anything, the pair of itself and its `.tif` path |
| ImageConverter.ConvertedMembers | image_converter.py:20-52 | a pair is recorded exactly for an input that exists, is read, is saved and whose output then exists; the pair is the input and its `.tif` path |
| ImageConverter.ConvertedAppend | image_converter.py:20-52 | the pairs keep the input order, and a failure on one page does not affect the others |
| ImageConverter.ConvertPage | image_converter.py:21-52 | one iteration of the loop records the page's pair exactly as specified |
| ImageConverter.Run | image_converter.py:18-54 | the list emitted once at the end is exactly the recorded pairs of the inputs, in input order |
| MonochromeWindow.GridCellDeterminesIndex | main.py:357-366 | thumbnail `i` sits at row `i // 8` and column `i % 8`, a column below 8, and no two thumbnails share a cell |
| MonochromeWindow.DocumentRows | main.py:324-326 | every kept document row has more than one cell |
| MonochromeWindow.DocumentRowsMembers | main.py:324-326 | a row is kept exactly when it was read and has more than one cell |
| MonochromeWindow.RowPagesMembers | main.py:329-334 | a row lists a page exactly when some cell after the first names it |
| MonochromeWindow.RowPageListed | main.py:324-334 | a page listed by any row is in the image list |
| MonochromeWindow.ListedPageRow | main.py:324-334 | every page of the image list comes from some row |
| MonochromeWindow.ListPagesMembers | main.py:324-334 | a page is listed exactly when some cell after the first of some row names it |
| MonochromeWindow.ImageListMembers | main.py:320-334 | a page is listed exactly when some cell after the first of some row is, stripped, a name ending in `.jpg` in any case that resolves to it (relative names joined to the list's folder, absolute ones kept); column 0 never contributes |
| MonochromeWindow.FreshThumbnails | main.py:358-367 | one thumbnail per image file |
| MonochromeWindow.FirstWith | main.py:376-380 | the widget found is the first one showing the path, or none |
| MonochromeWindow.FirstWithIs | main.py:376-380 | the search loop stops at the first widget showing the path |
| MonochromeWindow.CountShowing | main.py:442-447 | the auto-checked count is at most the number of widgets |
| MonochromeWindow.CountShowingIsCardinality | main.py:442-447 | the count is the number of widgets, not of distinct paths, showing a candidate |
| MonochromeWindow.ShownCandidatesMembers | main.py:443-446 | a path is added by the analysis exactly when it is a candidate shown by some widget |
| MonochromeWindow.Marked | main.py:443-445 | after the analysis a widget is checked exactly when it was checked or shows a candidate; its path and cell do not change |
| MonochromeWindow.LastConversion | main.py:510-514 | the mapping entry for a name comes from the last conversion of a file with that base name |
| MonochromeWindow.NameMappingLookup | main.py:510-514 | a base name is mapped exactly when some converted original has it, and it maps to the base name of the last such conversion's output |
| MonochromeWindow.RemapRow | main.py:518-521 | remapping keeps the row's length |
| MonochromeWindow.RemapRows | main.py:517-521 | remapping keeps the number of rows |
| MonochromeWindow.RemappedCell | main.py:507-521 | a column-0 cell, or one whose stripped text is not a converted name, is unchanged; any other cell holds the new base name |
| MonochromeWindow.Without | main.py:533 | removing never lengthens the list |
| MonochromeWindow.WithoutMembers | main.py:530-533 | a path remains exactly when it was listed and is not a converted original |
| MonochromeWindow.ReadDocuments | main.py:322-334 | the reading loop keeps the document rows and collects the image list |
| MonochromeWindow.RowImages | main.py:329-334 | the inner loop collects the row's resolved `.jpg` names in column order |
| MonochromeWindow.BuildMapping | main.py:510-514 | the mapping loop yields the base-name mapping, a later pair for the same original name winning |
| MonochromeWindow.RemapDocuments | main.py:517-521 | the rewriting loop yields the remapped rows |
| MonochromeWindow.RemapCells | main.py:518-521 | the per-row loop rewrites exactly the mapped cells after the first |
| MonochromeWindow.MonochromeDetector.constructor | main.py:210-216 | a window starts with no documents, images, thumbnails or selection |
| MonochromeWindow.MonochromeDetector.PopulateThumbnails | main.py:347-371 | the thumbnails are rebuilt, one per image file on the 8-column grid, and the selection is cleared; nothing else changes |
| MonochromeWindow.MonochromeDetector.LoadFileList | main.py:310-345 | a cancelled dialog changes nothing; the lists hold the documents and pages of the rows read, so a failure part-way leaves them partly filled, with the old path and thumbnails; otherwise the documents, the image list, the file path and fresh thumbnails are set and the selection is empty |
| MonochromeWindow.MonochromeDetector.OnThumbnailClicked | main.py:373-389 | the first widget showing the path decides: checked adds the path, unchecked removes it, no widget changes nothing |
| MonochromeWindow.MonochromeDetector.OnImageClicked | main.py:195-202 | a click toggles the checkbox, and the path is then selected exactly when the first widget showing it is checked |
| MonochromeWindow.MonochromeDetector.OnAnalysisComplete | main.py:432-460 | every widget showing a candidate is checked and its path added, nothing is removed, and the count is the number of such widgets |
| MonochromeWindow.MonochromeDetector.UpdateSourceFile | main.py:507-526 | the documents are remapped through the base-name mapping and written back as they stand, so rows dropped at load stay dropped |
| MonochromeWindow.MonochromeDetector.RemoveConvertedItems | main.py:528-536 | the converted originals leave the image list, the rest keep their order, and the grid is rebuilt with an empty selection |
| ImportList.CsvRow | exporter/export_common.py:20-21 | a non-empty line yields at least one cell; an empty line none |
| ImportList.StripAll | exporter/export_common.py:24 | every cell of a kept row is stripped, in place |
| ImportList.KeptRows | exporter/export_common.py:18-25 | only rows of more than one cell are kept, never more rows than lines |
| ImportList.KeptRowsAppend | exporter/export_common.py:21-24 | reading is line by line: two stretches of the file give their rows one after the other |
| ImportList.KeptRowsOfLine | exporter/export_common.py:23-24 | one line gives its stripped cells if it has more than one cell, and nothing otherwise |
| ImportList.KeptRowsStep | export_pdf_and_mpt.py:17-20 | one more line adds its stripped row exactly when it has more than one cell |
| ImportList.ReadImportList | export_pdf_and_mpt.py:8-21 | the reading loop returns exactly the kept rows |
| ImportList.Resolved | exporter/export_common.py:27-38 | never more paths than cells |
| ImportList.NonEmpty | exporter/export_common.py:31-33 | the non-empty cells, each of them and only they |
| ImportList.ResolvedIsMapOfNonEmpty | exporter/export_common.py:27-38 | resolution keeps the non-empty cells in order, relative ones joined to the import folder and absolute ones kept |
| ImportList.ResolveImages | export_pdf_and_mpt.py:24-35 | the resolving loop returns exactly the resolved non-empty cells |
| ImportList.OutputDirsAreSiblings | exporter/export_common.py:40-49 | the output folders are the import folder's path with `_mpt` and `_pdf` appended, siblings of it |
| Export.RowPages | exporter/export_common.py:65-68 | a row's pages are all existing files |
| Export.RowCount | exporter/export_common.py:64-87 | one row adds at most one to each count |
| Export.CreatedBounds | exporter/export_common.py:53-89 | each count is at most the number of rows with an existing page; it equals it when every such output is counted, and is 0 when none is |
| Export.CreatedAgree | exporter/export_common.py:75-87 | a count depends only on which outputs are counted |
| Export.CountsIndependent | exporter/export_common.py:75-87 | the PDF count does not depend on the TIFF writer, and with ImageMagick writing TIFFs the TIFF count does not depend on Pillow |
| Export.CreatedStep | export_pdf_and_mpt.py:123-144 | each row adds its own contribution to the counts |
| Export.PdfCountedRule | export_pdf_and_mpt.py:140-144 | for a row with existing pages, the PDF counts exactly when every page opens, the save returns and the file exists afterwards |
| Export.ExportRow | export_pdf_and_mpt.py:124-144 | a row without existing pages counts nothing; otherwise the TIFF and the PDF are attempted in turn and each counts exactly when its save returned and its output exists |
| Export.ExportFromImportFile | export_pdf_and_mpt.py:112-146 | the returned pair is the TIFF and PDF counts of the kept rows |
| PilSavers.FirstUnopenable | exporter/export_mpt.py:15-16 | the index of the first page that fails to open: every earlier page opens |
| PilSavers.FirstUnopenableIs | exporter/export_mpt.py:15-16 | the opening loop stops exactly at the first page that fails to open |
| PilSavers.Held | exporter/export_mpt.py:15-21 | one held image per opened page |
| PilSavers.OpenImages | exporter/export_pdf.py:10-16 | the opening loop raises exactly when some page fails to open, and holds the prepared images of the pages before it |
| PilSavers.CloseAll | exporter/export_mpt.py:37-42 | every held image is closed, in order |
| PilSavers.SaveMultipageTiff | exporter/export_mpt.py:7-42 | the TIFF saver does exactly what its specification says: open, prepare, save if any, close all |
| PilSavers.SavePdf | exporter/export_pdf.py:6-27 | the PDF saver does exactly what its specification says: open, convert to RGB, save if any, close all |
| PilSavers.TiffCompressionRule | exporter/export_mpt.py:29-34 | the TIFF uses Group 4 exactly when every page opened as mode `1`, and LZW exactly when some page did not |
| PilSavers.SaverReports | export_pdf_and_mpt.py:56-109 | a save call happens exactly when every page opened and there is at least one; its pages are the inputs in order; exactly the opened images are closed; it raises exactly when an open or the save raised |
| PilSavers.PdfPagesAreRgb | exporter/export_pdf.py:12-15 | every PDF page is RGB, and exactly the non-RGB pages were converted |
| PilSavers.TiffKeepsModes | exporter/export_mpt.py:19-21 | only palette pages are converted for the TIFF; every other page keeps its mode |
| TifffileExport.NormalizeResolutionCases | exporter/export_mpt_tifffile.py:12-23 | a tuple or list of at least two convertible entries gives its first two as the resolution; a missing, short, non-sequence or unconvertible value gives (300, 300); entries after the second never matter |
| TifffileExport.SubsetOfTwo | exporter/export_mpt_tifffile.py:40 | a set of values within {0, 255} has at most two elements, so the size test is implied by the subset test |
| TifffileExport.IsBilevelCases | exporter/export_mpt_tifffile.py:26-42 | mode `1` is bilevel; a 2-D gray page is bilevel exactly when its grid sample lies within {0, 255}; a 3-D gray-alpha page and every other mode are not |
| TifffileExport.SampleCanMissGray | exporter/export_mpt_tifffile.py:37-41 | a gray page with a mid-grey pixel off the 64-pixel grid is still classified bilevel |
| TifffileExport.Foreground | exporter/export_mpt_tifffile.py:51-52 | the mask has the plane's shape |
| TifffileExport.BilevelArrayOfMode1 | exporter/export_mpt_tifffile.py:45-52 | for a mode `1` page a pixel is foreground exactly when it is non-zero |
| TifffileExport.Settings | exporter/export_mpt_tifffile.py:89-119 | a bilevel page is written with `ccitt_t6` and `miniswhite`, any other with `jpeg`, `rgb`, level 38 and subsampling (2, 2), both at the normalised resolution |
| TifffileExport.WrittenPages | exporter/export_mpt_tifffile.py:78-119 | when the writer finishes, it has written one page per existing path, in input order, each with its classification's settings; missing paths are skipped |
| TifffileExport.WritePagesErrorStops | exporter/export_mpt_tifffile.py:120-122 | a page that fails to open or write ends the run with its error, whatever follows |
| TifffileExport.SaveMultipageTiff | exporter/export_mpt_tifffile.py:65-122 | the writing loop returns exactly the specified result: `ValueError` for an empty list, otherwise the pages written or the first error |
| MagickExport.ProcessRule | exporter/export_mpt_imagemagick.py:49-73 | a page is G4 exactly when its lower-cased suffix is `.tif`/`.tiff` and it is bilevel or gray; G4 pages get `group4`, bilevel, gray and resolution 300, the others `jpeg` quality 20 in `rgb`; a `.jpg` is never G4 and a gray `.tif` always is |
| MagickExport.ProcessAll | exporter/export_mpt_imagemagick.py:39-76 | never more processed pages than paths |
| MagickExport.ProcessedPages | exporter/export_mpt_imagemagick.py:39-76 | without an error, one processed page per existing path, in input order, each processed from what it reads as |
| MagickExport.ProcessedCount | exporter/export_mpt_imagemagick.py:41-43 | without an error, the pages are as many as the existing paths: missing ones are skipped |
| MagickExport.ProcessedPage | exporter/export_mpt_imagemagick.py:47-76 | the `i`-th processed page comes from the `i`-th existing path |
| MagickExport.ErrorStops | exporter/export_mpt_imagemagick.py:94-96 | an error on a page ends the loop with that error, whatever follows |
| MagickExport.MagickSaveReport | exporter/export_mpt_imagemagick.py:21-103 | a save happens exactly when the list is non-empty, nothing raised and some page survived; one page is saved directly, several as a sequence in input order; every converted image is closed; no surviving page raises "No valid images to process" |
| MagickExport.PresentEmptyProcessesNothing | exporter/export_mpt_imagemagick.py:78-79 | when no path exists nothing is processed and nothing raised, so the empty check fires |
| MagickExport.ProcessPages | exporter/export_mpt_imagemagick.py:38-76 | the page loop returns exactly the specified progress |
| MagickExport.SaveMultipageTiff | exporter/export_mpt_imagemagick.py:21-103 | the saver returns exactly the specified report |
| PageCounters.AsRow | exporter/counters/page_counter.py:28-29 | the row is title, filename, expected, actual and whether they differ |
| PageCounters.FreshEntryFailsUnlessEmpty | exporter/counters/page_counter.py:23-26 | a new entry, with its actual count defaulting to 0, fails exactly when it expects pages |
| PageCounters.LastLineOf | exporter/counters/page_counter.py:43-49 | the line an entry comes from is the last line naming its key |
| PageCounters.KeysMatchExpected | exporter/counters/page_counter.py:40-49 | the dictionary's keys in insertion order are distinct and are exactly its entries |
| PageCounters.ExpectedLookup | exporter/counters/page_counter.py:42-49 | a key is present exactly when some line of more than one cell names it; its entry comes from the last such line, expects that line's cells from column 2 on, empty ones included, and has counted 0 |
| PageCounters.ExpectedFilenames | exporter/counters/page_counter.py:46-49 | every entry is filed under its own name, `<stripped column 1><extension>` |
| PageCounters.TableValid | exporter/counters/page_counter.py:40-49 | the keys and the entries read from any import list form a valid table |
| PageCounters.ReadExpected | exporter/counters/page_counter.py:42-49 | the reading loop builds exactly the specified keys and entries |
| PageCounters.ReadStep | exporter/counters/page_counter.py:43-49 | a line of one cell changes nothing; any other adds its key if new and replaces that key's entry |
| PageCounters.CountOccurrences | exporter/counters/pdf_counter.py:27 | `data.count(marker)` counts non-overlapping occurrences, at most the data length over the marker length |
| PageCounters.CountWithoutFirstByte | exporter/counters/pdf_counter.py:27 | data without the marker's first byte counts 0 |
| PageCounters.PagesNodeCountsAsPage | exporter/counters/pdf_counter.py:27 | the page-tree node `/Type /Pages` counts as one page |
| PageCounters.CountAfterMarker | exporter/counters/pdf_counter.py:27 | a page object followed by other data adds one to the count |
| PageCounters.PdfActualCount | exporter/counters/pdf_counter.py:13-16 | a missing PDF counts 0 |
| PageCounters.TifActualCount | exporter/counters/tif_counter.py:13-17 | a missing TIFF counts 0 |
| PageCounters.ActualCountCases | exporter/counters/pdf_counter.py:13-40 | the PDF count is the marker count when positive, else the parser's count, else 0; the TIFF count is the frame count of a file that opens, else 0; a missing file counts 0 |
| PageCounters.CountedResults | exporter/counters/pdf_counter.py:43-57 | a counting pass keeps the dictionary's keys |
| PageCounters.CountedFailure | exporter/counters/page_counter.py:25-26 | after a pass an entry fails exactly when what its file holds differs from what was expected, and keeps its filename |
| PageCounters.CountedKeys | exporter/counters/tif_counter.py:26-40 | counting documents one after another keeps the dictionary's keys |
| PageCounters.CountedKeysEntry | exporter/counters/tif_counter.py:26-40 | counting a list of documents recounts exactly the entries it names and leaves the others |
| PageCounters.CountedAllKeys | exporter/counters/pdf_counter.py:47-50 | counting every key in turn gives the counted dictionary |
| PageCounters.FailedEntriesMembers | exporter/counters/page_counter.py:62-63 | an entry is returned exactly when it is in the dictionary and failed |
| PageCounters.ReworkLinesError | exporter/counters/page_counter.py:84-89 | the rework run raises `IndexError` exactly when some line lacks the filename column |
| PageCounters.ReworkLinesKept | exporter/counters/page_counter.py:83-89 | otherwise it keeps, verbatim and in file order, exactly the lines whose document is a target |
| PageCounters.BlankLineHasNoDocument | exporter/counters/page_counter.py:86-87 | a blank line has no filename column, so it makes the rework run raise |
| PageCounters.RootOfKey | exporter/counters/page_counter.py:78-82 | removing the last extension from a key gives back the document name it was made from |
| PageCounters.ExtensionOf | exporter/counters/pdf_counter.py:10 | each counter's extension is a dot followed by letters |
| PageCounters.ReworkFileName | exporter/counters/page_counter.py:36-39 | the rework file is named `<stripped batch name>_<lower-cased title>_rework.txt` in the import file's folder |
| PageCounters.BatchNameHasNoSeparator | exporter/counters/page_counter.py:37 | the batch name is a single path component |
| PageCounters.KindNameHasNoSeparator | exporter/counters/page_counter.py:39 | the lower-cased title is a single path component |
| PageCounters.ReworkNameUnder | exporter/counters/page_counter.py:39 | joining a single-component name to a folder keeps it as the base name |
| PageCounters.PageCounter.constructor | exporter/counters/page_counter.py:32-49 | a counter holds the keys and expected entries read from the import lines and has written no rework file |
| PageCounters.PageCounter.GetFailedFiles | exporter/counters/page_counter.py:62-63 | the failed entries, in dictionary order |
| PageCounters.PageCounter.CountDocumentPages | exporter/counters/tif_counter.py:13-24 | only the named entry's actual count changes, to what its file holds |
| PageCounters.PageCounter.CountBatchPages | exporter/counters/pdf_counter.py:43-57 | every entry's actual count becomes what the file at `<output dir>/<key><extension>` holds, and nothing else changes |
| PageCounters.PageCounter.CreateReworkFile | exporter/counters/page_counter.py:69-95 | the argument is ignored; the rework file is overwritten with the selected lines, or not written when a line raises |
| PageCounters.ReworkErrorStops | exporter/counters/page_counter.py:86-87 | once a line has raised, later lines change nothing |
| PageCounters.ReworkSelectsFailedDocuments | exporter/counters/page_counter.py:78-89 | with plain document names, a line is reworked exactly when its document's entry failed |
| PageCounters.TargetIsFailedKey | exporter/counters/page_counter.py:78-82 | every target names a document whose entry failed |
| PageCounters.FailedKeyIsTarget | exporter/counters/page_counter.py:78-82 | every document whose entry failed is a target |
| DeliverySizeSplitter.RoundKbIsNearestEven | console_delivery_size_splitter.py:78-79 | the rounded kilobytes are the nearest whole number to bytes / 1024, a tie going to the even one, and no other number is |
| DeliverySizeSplitter.ClassifyCases | console_delivery_size_splitter.py:61-88 | a blank line or one of at most two cells is skipped; a missing TIFF raises before the PDF is checked, then a missing PDF raises; otherwise the row carries the batch, the reference, the PDF path, and is large exactly when either file is over 50 MiB |
| DeliverySizeSplitter.FolderLines | console_delivery_size_splitter.py:49-60 | every line of an export file is taken with that file's folder, in order |
| DeliverySizeSplitter.CollectGroups | console_delivery_size_splitter.py:59-88 | when no line raises, each group holds, in list order, exactly the documents of its class |
| DeliverySizeSplitter.CollectFirstFailure | console_delivery_size_splitter.py:69-72 | otherwise the run stops with the first failing line's exception |
| DeliverySizeSplitter.Lines | console_delivery_size_splitter.py:110-117 | one written line per document, in order, in the group's format |
| DeliverySizeSplitter.DeliveredFails | console_delivery_size_splitter.py:40-72 | a missing file leaves both output files holding only the header, with the first failing line's exception |
| DeliverySizeSplitter.DeliveredRows | console_delivery_size_splitter.py:90-117 | with every file present and no document listed, the report's percentage raises ZeroDivisionError and only the headers stay; otherwise only the header is written unless the answer is "y"; then each file holds its group sorted by reference, a permutation of it that keeps list order among equal references |
| DeliverySizeSplitter.CollectNothing | console_delivery_size_splitter.py:59-63 | lines that name no document leave both groups empty |
| DeliverySizeSplitter.DeliveredNothingListed | console_delivery_size_splitter.py:90-95 | with every line blank or of at most two cells, or no list at all, the report divides by zero: ZeroDivisionError with both files holding only the header, whatever the answer |
| DeliverySizeSplitter.LineFields | console_delivery_size_splitter.py:111-117 | a written line splits back into its six fields; the last two are `mpt_kb,pdf_kb` for a small row but `pdf_kb,mpt_kb` for a large one, and each reads back as its rounded kilobytes |
| DeliverySizeSplitter.KbTextHasNoComma | console_delivery_size_splitter.py:112 | a size column never contains a comma |
| DeliverySizeSplitter.CollectRows | console_delivery_size_splitter.py:49-88 | the loop over export files returns exactly the specified groups or exception |
| DeliverySizeSplitter.CollectList | console_delivery_size_splitter.py:59-88 | the loop over one export file extends the groups exactly as its lines specify |
| DeliverySizeSplitter.ListedNext | console_delivery_size_splitter.py:49-60 | the lines of one more export file follow the earlier ones |
| DeliverySizeSplitter.ListStops | console_delivery_size_splitter.py:69-72 | an exception in one export file ends the whole run |
| DeliverySizeSplitter.ListedPrefix | console_delivery_size_splitter.py:49-60 | the lines of the first export files are a prefix of all lines |
| DeliverySizeSplitter.CollectStops | console_delivery_size_splitter.py:69-72 | once a prefix of the lines has raised, later lines change nothing |
| DeliverySizeSplitter.Run | console_delivery_size_splitter.py:40-117 | the script leaves exactly the specified output files and exception, ZeroDivisionError at the report included |
| DeliverySizeSplitter.WriteRows | console_delivery_size_splitter.py:109-117 | the written file is the header followed by one line per document |
| Sorting.Insert | console_delivery_size_splitter.py:106-107 | inserting adds exactly one element |
| Sorting.SortBy | console_delivery_size_splitter.py:106-107 | sorting keeps the length |
| Sorting.InsertMultiset | console_delivery_size_splitter.py:106-107 | inserting adds exactly the inserted element |
| Sorting.InsertBounded | console_delivery_size_splitter.py:106-107 | inserting an element no greater than a bound keeps every key within it |
| Sorting.InsertSorted | console_delivery_size_splitter.py:106-107 | inserting into a sorted list keeps it sorted |
| Sorting.SortSorted | console_delivery_size_splitter.py:106-107 | the result is ordered by key |
| Sorting.SortPermutes | console_delivery_size_splitter.py:106-107 | the result is a permutation of the input |
| Sorting.InsertStable | console_delivery_size_splitter.py:106-107 | inserting places the element after every element with the same key |
| Sorting.SortStable | console_delivery_size_splitter.py:106-107 | elements with equal keys keep their input order |
| OutputSizeSplitter.ClassifyCases | output_size_splitter.py:63-86 | a line without more than two cells is skipped; otherwise a missing TIFF raises first, then a missing PDF; else the document's two rows carry the batch folder's name, the stripped reference, both sizes and the PDF's and the TIFF's path, and it is large exactly when either file is over 50 MiB |
| OutputSizeSplitter.AddLinesAppends | output_size_splitter.py:62-86 | when no line raises, a list appends to each of the four group lists exactly the rows its lines contribute, in line order, after what they already held |
| OutputSizeSplitter.ContributedSnoc | output_size_splitter.py:81-86 | one more document adds its PDF row and its TIFF row to the two lists of its own class and leaves the other class untouched |
| OutputSizeSplitter.ContributedAppend | output_size_splitter.py:51-86 | the rows of two runs of lines are the rows of the first followed by those of the second, list by list |
| OutputSizeSplitter.AddLinesFails | output_size_splitter.py:72-75 | the first line naming a missing file ends the list with that line's `MissingFileException` |
| OutputSizeSplitter.AddLinesSucceeds | output_size_splitter.py:62-75 | a list goes through only when every one of its lines does |
| OutputSizeSplitter.AddLinesStops | output_size_splitter.py:72-75 | once a prefix of a list's lines has raised, the rest of the list changes nothing |
| OutputSizeSplitter.ClassifierListsWell | output_size_splitter.py:81-86 | every document's PDF and TIFF rows differ only in the path, and it is large exactly when its rows record a file over 50 MiB |
| OutputSizeSplitter.AddLinesKeepsWell | output_size_splitter.py:81-86 | appending a list keeps the PDF and MPT lists of each class paired row by row and keeps every small row small and every large row large |
| OutputSizeSplitter.ProcessKeepsWell | output_size_splitter.py:51-86 | across all batches the group lists stay paired and correctly classed |
| OutputSizeSplitter.RowLinesAppend | output_size_splitter.py:95-96 | writing two runs of rows writes the first run's lines then the second's |
| OutputSizeSplitter.ProcessStep | output_size_splitter.py:51-108 | a batch that goes through appends its rows to the group lists (to empty lists in the corrected reading) and then appends the whole of each list to its file |
| OutputSizeSplitter.ProcessLast | output_size_splitter.py:51-108 | the last batch of a run, when it goes through, adds its rows and appends the four lists to the four files |
| OutputSizeSplitter.ProcessWentThrough | output_size_splitter.py:72-75 | a run that raised nothing raised nothing in its earlier batches and met no missing file in its last |
| OutputSizeSplitter.WrittenConcat | output_size_splitter.py:93-108 | appending grown lists writes the earlier rows then the new ones to each file |
| OutputSizeSplitter.RowLinesFirst | output_size_splitter.py:95-96 | the first line written for a list is its first row's |
| OutputSizeSplitter.OneBatch | output_size_splitter.py:93-108 | a first batch that goes through writes exactly its own rows |
| OutputSizeSplitter.AsWrittenTwoBatches | output_size_splitter.py:26-29 | because the lists are never emptied, after two batches the small-PDF file holds the first batch's rows twice and then the second batch's |
| OutputSizeSplitter.AsWrittenDuplicates | output_size_splitter.py:93-108 | so a small document of the first batch is written twice to the small-PDF file |
| OutputSizeSplitter.ResetWritesOnce | output_size_splitter.py:51-108 | with the lists emptied per batch, the four files hold exactly the rows all the listed lines contribute, once each, in list order |
| OutputSizeSplitter.WrittenAfter | output_size_splitter.py:93-108 | appending a group's rows to files that hold some rows gives the files of both groups together |
| OutputSizeSplitter.ResetStep | output_size_splitter.py:93-108 | with reset lists, a batch that goes through appends exactly its own rows to each file |
| OutputSizeSplitter.ProcessSucceeded | output_size_splitter.py:72-75 | a run that raised nothing met no missing file in any batch |
| OutputSizeSplitter.ProcessSucceeds | output_size_splitter.py:72-75 | a run whose batches each name only existing files raises nothing |
| OutputSizeSplitter.ErrorStops | output_size_splitter.py:72-75 | once a batch raises, later batches change neither the lists nor the files |
| OutputSizeSplitter.Run | output_size_splitter.py:51-108 | the loop over the batches, with lists carried between batches, computes the run as specified |
| OutputSizeSplitter.Batch | output_size_splitter.py:62-86 | the loop over one list's lines computes its groups or its first missing file |
| OutputSizeSplitter.AppendRows | output_size_splitter.py:93-108 | writing a list appends one line per row, in order, to the file's previous contents |
| AssemblePdfs.ParseRowFields | console_assemble_pdfs.py:64-75 | a row is accepted exactly when it has at least six cells and both size cells read as numbers; every failure is a `ValueError`; the fields come from the stripped cells 0, 1 and 3, the file name is the source's base name and the size added is cell 5 |
| AssemblePdfs.ParsedRowClean | console_assemble_pdfs.py:68-72 | the box name has at most six characters, and no manifest field of an accepted row holds a comma |
| AssemblePdfs.BoxNameClean | console_assemble_pdfs.py:68 | the box name (first six characters of the first cell's last word) has at most six characters and no comma |
| AssemblePdfs.HeaderSkipped | console_assemble_pdfs.py:54-55 | a line starting with `Batch` changes nothing |
| AssemblePdfs.RolloverBeforeParse | console_assemble_pdfs.py:57-66 | the budget test comes before parsing: a malformed row raises its `ValueError` after opening a new folder if the current one was over budget |
| AssemblePdfs.StepPlacesRow | console_assemble_pdfs.py:57-82 | a parsed row goes into the current folder, or a fresh one with emptied rows and total when the old total exceeds 30 GiB; its PDF size is added to the total and the count grows by one; the PDF is copied exactly when the destination is absent, which needs the source to exist |
| AssemblePdfs.EmptyFolder | console_assemble_pdfs.py:57-62 | a folder that no row went to holds no rows and no size |
| AssemblePdfs.PlacedSnoc | console_assemble_pdfs.py:80-81 | placing one more row adds it and its size to its own folder only |
| AssemblePdfs.PlaceNumbered | console_assemble_pdfs.py:57-62 | folders are numbered consecutively from 1 and rows fill them in order |
| AssemblePdfs.PlaceCurrent | console_assemble_pdfs.py:57-62 | the manifest rows and running total are always those of the current folder |
| AssemblePdfs.PlaceClosed | console_assemble_pdfs.py:57 | every folder left behind is over the 30 GiB budget |
| AssemblePdfs.PlaceWithinBudget | console_assemble_pdfs.py:57 | every row is placed while its folder is still within budget, so a folder can exceed the budget only by its last row |
| AssemblePdfs.PlaceKeepsPacked | console_assemble_pdfs.py:57-82 | placing a row, in the same or a fresh folder, keeps the folder invariant |
| AssemblePdfs.StepKeepsPacked | console_assemble_pdfs.py:52-82 | a line that raises nothing keeps the folder invariant |
| AssemblePdfs.AssemblePacked | console_assemble_pdfs.py:51-82 | every list that goes through ends with the folder invariant: consecutive folders, each earlier one over budget, none over budget before its last row |
| AssemblePdfs.ManifestLines | console_assemble_pdfs.py:87-88 | the manifest has one line per row, in order |
| AssemblePdfs.ManifestLineFields | console_assemble_pdfs.py:88 | a manifest line splits back into its box, reference and file name |
| AssemblePdfs.DeliverManifests | console_assemble_pdfs.py:84-88 | when both lists go through, only the last folder of each kind gets a `_manifest.txt`, holding the header and exactly the rows placed there |
| AssemblePdfs.AssembleStops | console_assemble_pdfs.py:64-66 | an exception part-way through a list ends the list |
| AssemblePdfs.AssembleList | console_assemble_pdfs.py:51-82 | the loop over one list computes the specified run |
| AssemblePdfs.StepOnce | console_assemble_pdfs.py:53-82 | the loop body computes the specified step |
| AssemblePdfs.AssembleDelivery | console_assemble_pdfs.py:51-135 | the script runs the small list, then the large one, and writes each list's manifest; a failing small list stops the run |
| AssembleMpts.ParseRowFields | console_assemble_mpts.py:75-83 | a row is accepted exactly when it has six cells and its fifth reads as a number, whatever the sixth holds; every failure is a `ValueError`; the reference is cell 1 stripped, the source is cell 3 with `.pdf` then `_pdf` replaced, and the size is cell 4 |
| AssembleMpts.SourceOfPdfPath | console_assemble_mpts.py:80 | the PDF path the size splitter writes, `<dir>_pdf/<name>.pdf`, leads to the TIFF that splitter checked, `<dir>_mpt/<name>.tif`, when neither part holds a dot or `_pdf` |
| AssembleMpts.ExtensionReplaced | console_assemble_mpts.py:80 | the `.pdf` replacement changes only the final extension of such a path |
| AssembleMpts.DirectoryReplaced | console_assemble_mpts.py:80 | the `_pdf` replacement changes only the folder suffix of such a path |
| AssembleMpts.CddocLines | console_assemble_mpts.py:93-95 | an index has one line per entry, in order |
| AssembleMpts.SplitBlanks | console_assemble_mpts.py:95 | the run of blank ` ;` fields splits into single-space fields |
| AssembleMpts.CddocLineFields | console_assemble_mpts.py:95 | split on `;`, a `CDDOC.DAT` line holds `0001`, the reference, nineteen blank fields and the image field `\IMAGES\0001\<file>` at index 21 |
| AssembleMpts.Create | console_assemble_mpts.py:23-38 | after the structure is created, the folder's `CDDOC.DAT` exists |
| AssembleMpts.CreateIdempotent | console_assemble_mpts.py:33-36 | creating the structure creates the empty index only when absent, touches nothing else, and a second call changes nothing |
| AssembleMpts.HeaderSkipped | console_assemble_mpts.py:64-65 | a line starting with `Batch` changes nothing |
| AssembleMpts.RolloverWritesAll | console_assemble_mpts.py:67-73 | over budget, before the row is even parsed, the current index is written with every entry read so far, the next folder is opened with its index, and no entry is dropped |
| AssembleMpts.StepAddsEntry | console_assemble_mpts.py:79-90 | a parsed row adds its entry (the list is never cleared) and its MPT size to the total; its TIFF is copied exactly when `IMAGES/0001` lacks that name, which then needs the source |
| AssembleMpts.StartCumulative | console_assemble_mpts.py:58-60 | a list starts in folder 1 with its index present and nothing written |
| AssembleMpts.RolloverCumulative | console_assemble_mpts.py:67-73 | a rollover keeps the index invariant and keeps every entry |
| AssembleMpts.PlaceCumulative | console_assemble_mpts.py:85-90 | adding an entry keeps the index invariant |
| AssembleMpts.StepCumulative | console_assemble_mpts.py:62-90 | a line that raises nothing keeps the index invariant and adds exactly its row's entry |
| AssembleMpts.AssembleCumulative | console_assemble_mpts.py:58-90 | a list that goes through keeps one index written per folder left, each listing a prefix of the entries, and ends with one entry per row |
| AssembleMpts.CddocLinesPrefix | console_assemble_mpts.py:68-70 | an index written from a prefix of the entries is a prefix of the index of all of them |
| AssembleMpts.FinishListsAll | console_assemble_mpts.py:93-95 | after the loop the last folder's index lists every entry, and the earlier indexes list growing prefixes, one per folder in order |
| AssembleMpts.ListCumulative | console_assemble_mpts.py:58-90 | a list that goes through from folder 1 ends with one entry per row of the list |
| AssembleMpts.DeliverListsAll | console_assemble_mpts.py:104-141 | when both lists go through, each list's last `CDDOC.DAT` lists every row of that list and the earlier ones list growing prefixes of it |
| AssembleMpts.ListIndexed | console_assemble_mpts.py:58-95 | a list that goes through ends with its index writes in folder order, the last listing all its rows |
| AssembleMpts.IndexedLines | console_assemble_mpts.py:68-70 | every index written holds the first lines of the last index |
| AssembleMpts.AssembleStops | console_assemble_mpts.py:76-77 | an exception part-way through a list ends the list |
| AssembleMpts.AssembleList | console_assemble_mpts.py:62-90 | the loop over one list computes the specified run |
| AssembleMpts.StepOnce | console_assemble_mpts.py:63-90 | the loop body computes the specified step |
| AssembleMpts.AssembleDelivery | console_assemble_mpts.py:40-141 | the script creates the small list's folder, runs the small list and then the large one, writing each last index; a failing small list stops the run |
| SearchFilenames.Cells | console_search_filenames.py:9-10 | a non-empty line yields at least one cell |
| SearchFilenames.ChompAll | console_search_filenames.py:8-10 | each line is read without its line end, one for one |
| SearchFilenames.CddocFileOfDelivery | console_search_filenames.py:7 | the index `confirm_cddoc_files` reads is the one the MPT assembler writes for that delivery folder |
| SearchFilenames.CddocName | console_search_filenames.py:11 | reading the file name raises `IndexError` exactly when the line has fewer than 22 `;`-separated fields |
| SearchFilenames.CddocNameOfWritten | console_search_filenames.py:11 | a line the MPT assembler wrote reads back as `IMAGES\0001\<file>`: dropping the first character undoes the image field's leading backslash |
| SearchFilenames.CddocReportOfWritten | console_search_filenames.py:11-13 | such a line complains exactly when its image is missing below the folder |
| SearchFilenames.ImagesUnfound | console_search_filenames.py:12-13 | each entry contributes the message for its image when it is missing |
| SearchFilenames.ConfirmWrittenIndex | console_search_filenames.py:5-14 | checking an index the MPT assembler wrote never raises and reports exactly the entries whose image is missing, in order |
| SearchFilenames.DropSpaces | console_search_filenames.py:21 | skipping initial spaces leaves a suffix of the field that does not start with a space |
| SearchFilenames.ManifestName | console_search_filenames.py:23 | reading the file name raises `IndexError` exactly when the line has fewer than three cells |
| SearchFilenames.ReportOfName | console_search_filenames.py:23-25 | a line whose name reads complains exactly when that name is missing below the folder |
| SearchFilenames.ManifestNameOfWritten | console_search_filenames.py:21-23 | a manifest row the PDF assembler wrote reads back as its file name, when that does not start with a space |
| SearchFilenames.ManifestNameOfHeader | console_search_filenames.py:22-23 | the header line is not skipped: it reads back as the name `Filepath` |
| SearchFilenames.FilesUnfound | console_search_filenames.py:24-25 | each row contributes the message for its file when it is missing |
| SearchFilenames.ConfirmWrittenRows | console_search_filenames.py:22-25 | the rows of a manifest the PDF assembler wrote never raise and report exactly the rows whose file is missing, in order |
| SearchFilenames.ConfirmWrittenManifest | console_search_filenames.py:17-26 | checking a whole PDF manifest never raises; it reports `Filepath` unless such a file exists, then exactly the missing rows' files, in order |
| SearchFilenames.SplitInTwo | console_search_filenames.py:36-38 | a name holding a dot splits into at least two parts |
| SearchFilenames.RenameTargetRaises | console_search_filenames.py:36-38 | deriving the new name raises `IndexError` exactly when the file name has no dot |
| SearchFilenames.RenameTargetOfName | console_search_filenames.py:36-42 | a name `<word><more words>.<ext><more suffixes>` is renamed, in its folder, to `<word>.<ext>` |
| SearchFilenames.RenameLoopExact | console_search_filenames.py:33-46 | the loop goes through exactly when every matched non-directory has a dot in its name, and then renames exactly the files answered yes, each to its derived name |
| FixMissingTiffs.CleanInput | fix_missing_tiffs.py:27 | the typed path has no `&`, `"` or `'` left |
| FixMissingTiffs.CleanInputOfPlain | fix_missing_tiffs.py:27 | a path typed without those characters is only stripped |
| FixMissingTiffs.PagesEmpty | fix_missing_tiffs.py:35-39 | a row has no pages, and is skipped, exactly when all its page cells are empty |
| FixMissingTiffs.Missing | fix_missing_tiffs.py:37 | the missing pages are exactly the row's pages that do not exist |
| FixMissingTiffs.FixesExact | fix_missing_tiffs.py:41-48 | a row's queue holds exactly the existing `.jpg` siblings of missing pages whose `.tif` sibling does not exist |
| FixMissingTiffs.NotFoundExact | fix_missing_tiffs.py:42-45 | the log holds exactly the absent `.jpg` siblings of missing pages |
| FixMissingTiffs.MissingTifQueued | fix_missing_tiffs.py:46-48 | a missing `.tif` page whose `.jpg` exists is always queued, since its `.tif` sibling is itself |
| FixMissingTiffs.FixRow | fix_missing_tiffs.py:41-48 | the loop over a row's missing pages computes its queue and its log |
| FixMissingTiffs.RowStep | fix_missing_tiffs.py:32-33 | after each row the queue is that row's alone, and the log grows by that row's entries |
| FixMissingTiffs.FixRows | fix_missing_tiffs.py:32-48 | after the loop the queue holds the last row's entries only, and is unbound when there was no row; the log holds every row's entries in order |
| FixMissingTiffs.FixMissing | fix_missing_tiffs.py:27-50 | the script over the cleaned path and the import list's kept rows yields that queue and log |
| Text.CommaFields | console_validate_er_filenames.py:14 | `line.strip().split(',')` has at least one cell and no cell holds a comma |
| Validators.ValidFilenameIff | console_validate_er_filenames.py:5-7 | a file name is valid exactly when its first dot, or its end, comes at position 7 |
| Validators.ErLineMessages | console_validate_er_filenames.py:14-27 | a line raises exactly when it has fewer than three cells; otherwise it complains about the reference exactly when that is not seven characters, and about the file name exactly when that is invalid, each on its own |
| Validators.ErLineOfCells | console_validate_er_filenames.py:14-17 | a three-cell line is judged on its second and third cells as written, spaces included |
| Validators.ErRepeated | console_validate_er_filenames.py:11-27 | no line is compared with another: a file given twice prints its messages twice |
| Validators.AsiLineOfCells | console_validate_asi_filenames.py:8-10 | a two-cell line prints exactly when its second cell, as written, is not 13 characters long, and prints that cell |
| Validators.AsiCompletes | console_validate_asi_filenames.py:6-10 | a file validates without an exception exactly when every line has at least two cells |
| Reports.ScanCompletes | console_validate_er_filenames.py:13-17 | a run ends without an exception exactly when every line passes |
| Reports.ScanStops | console_validate_er_filenames.py:13-17 | the first failing line ends the run, with the messages of the lines before it |
| Reports.ScanAppend | console_validate_er_filenames.py:13-27 | after lines that raised nothing, the rest of the file prints what it would print alone |
| Reports.ScanOne | console_validate_er_filenames.py:13-27 | one line prints its messages or raises its exception |
| Reports.FlattenCons | console_validate_er_filenames.py:24-27 | the messages of several lines are the first line's followed by the rest's |
| Reports.ScanAllPass | console_validate_er_filenames.py:13-27 | when every line passes, the run prints each line's messages in turn and raises nothing |
| ImageConverter.RunStep | image_converter.py:20-52 | each input adds its recorded pair to the converted list exactly when its conversion goes through, and nothing otherwise |
| MonochromeWindow.PageStep | main.py:329-334 | each cell after the first adds a page exactly when its stripped name ends in `.jpg` in any case, resolved against the list's folder unless absolute |
| OutputSizeSplitter.RowLines | output_size_splitter.py:95-96 | one line is written per row |
| Text.Strip | output_size_splitter.py:64-65 | `str.strip`: the result neither starts nor ends with whitespace, Python's Unicode whitespace set included |
| Text.StripIdempotent | output_size_splitter.py:65-68 | stripping twice is the same as stripping once |
| Text.Split | output_size_splitter.py:65 | `str.split` on one character: never an empty list, and no piece holds the separator |
| Text.NatToString | output_size_splitter.py:96 | a size is written as decimal digits without a leading zero |
| Text.ParseDecimalOfWholeNumber | console_assemble_pdfs.py:74-75 | `float` reads back exactly the whole kilobyte counts the delivery splitter writes as `<n>.0` |
| Text.Lower | console_search_filenames.py:41 | lower-casing ASCII letters keeps the length of the answer |
| Paths.Basename | output_size_splitter.py:58 | `os.path.basename` is the tail after the last separator and holds no separator |
| Paths.Join | output_size_splitter.py:69-70 | `os.path.join` ends with its second part, which replaces the first when absolute |
| Paths.SplitExtRoot | image_converter.py:39 | the root and the extension together give back the path |
| Paths.WithSuffixName | fix_missing_tiffs.py:42 | `with_suffix` renames only the final component, to its stem followed by the new suffix |

## Findings

| source | as written | input that shows it | evidently intended | confidence | as-written member | corrected member |
|---|---|---|---|---|---|---|
| output_size_splitter.py:93-108 | the four group lists (lines 26-29) are never emptied between batches, and after each batch the whole of each list is appended to its file | two `EXPORT.TXT` batches whose files all exist, the first listing a small document: the small-PDF file holds that document's row twice | each batch appends only its own rows, so every listed document is written once per file | not executed; the loop structure makes it certain | OutputSizeSplitter.AsWrittenDuplicates | OutputSizeSplitter.ResetWritesOnce |

`OutputSizeSplitter.Run` follows the script as written (lists carried over).
The corrected reading is `Process(..., reset := true)`. For it,
`ResetWritesOnce` proves that the files hold exactly the rows of all listed
lines, once each and in list order.

## Left out

- Image-metric extraction (color_detector.py:68-123) is floating-point OpenCV and numpy statistics. The metrics map is an input of real numbers, so floating-point rounding of the confidence is not modelled.
- Pixel decoding and encoding are inputs: PIL `open`/`convert`/`save`, `n_frames`, tifffile's writer and `_to_color_array`'s RGB arrays, Wand, pypdf and `img2pdf`. The model sees only a page's mode, its grey pixels, its frame count and whether a save returns or raises. exporter/export_smaller_pdf.py, a single `img2pdf` call, is not part of this model.
- Concurrency is not modelled: thread pools, `as_completed`, `QThread` signals and the thumbnail loader. Analysis results are taken in a completion order the caller gives. The concurrent page counting is a sequential pass in dictionary order.
- The GUI is not modelled: widget construction, pixmaps, message boxes, titles and progress messages. A thumbnail is its path, checkbox state and grid cell.
- Terminal and file-system plumbing is left out: `input()` prompts, `print`, logging, tqdm, tabulate reports and `os.chdir`. `glob` discovery is an input list, and an `EOF` at a prompt is not modelled. The renamer's answers are a function of the file's position.
- File existence is a set of paths taken once per run, and a copy adds its destination to it. `os.makedirs`, `os.rename` and the contents of copied files are not tracked.
- When a script raises part-way, the model returns the files as they stood before the failing step. It does not model partially written files.
- `csv.reader` quoting is not modelled: a line is split on its delimiter. Paths are POSIX paths with `/` only, so Windows separators and drive letters are not modelled. The backslashes in a `CDDOC.DAT` image field are kept as characters of the name.
- `float(...)` is modelled only on plain decimal text (an optional sign, digits and at most one point). Exponents, `inf` and `nan` read as errors. Sizes are exact rationals.
- `NUM_DATA_COLUMNS` and `FILENAME_COLUMN` are fixed at their defaults, 2 and 1; overriding them from the environment is not modelled.
- `list.sort` is modelled by an insertion sort with the same result: sorted, a permutation, and stable.
- `Path.with_suffix` raises `ValueError` on an empty name; the model's `Paths.WithSuffix` does not raise.
- Text.Lower: folds the ASCII letters A-Z only and keeps every other character. Python's `str.lower` also folds other letters, and 'İ' becomes two characters. That needs the Unicode case tables, so the length claim holds for the ASCII folding only.
- Paths.Dirname: takes the text before the last `/` as it stands. `os.path.dirname` also strips the repeated separators before it, so `a//b` gives `a` in Python and `a/` here, and `//a` gives `//` in Python and `/` here.
- Paths.Parent: pathlib's normalisation is not modelled. pathlib collapses `//`, drops `.` components and a trailing `/`, so `Path("a/b/").parent` is `a` and `Path("a/./b").parent` is `a`. The model reads the text as written and agrees with pathlib only on paths already in its normal form.
- Paths.Stem: the same normalisation is left out. `Path("A1/").stem` is `A1` and `Path(".").stem` is empty in Python; the model gives the empty string and `.`. `Export.DocName`, the resolve base of the import list and `PageCounters.BaseDirOf` inherit this.
- The variables the source computes and never uses are not computed: `doc_name` in fix_missing_tiffs.py:34 and `seen_refs` in console_validate_er_filenames.py:12. The conversion in fix_missing_tiffs.py:51-52 is commented out and is not modelled.
- The driver and test scripts are not part of this model: verify_page_counts.py, export_tester.py, export_tester_bulk.py and exporter/__init__.py.
- `confirm_manifest_files` reads `_manifest.csv`, while the PDF assembler writes `_manifest.txt`. The read-back lemmas relate the contents and take the file as given.
- AssembleMpts.AssembleCumulative: the folder-budget invariant proved for the PDF folders (`AssemblePdfs.AssemblePacked`) is not restated for the MPT folders. Their loop applies the same budget test, but only the cumulative-index invariant is proved.
