/** The delivery size splitter: every row of every export list names a
    document whose multipage TIFF and PDF sit in the `_mpt` and `_pdf`
    folders beside the list's folder. A document is large when either file
    is over 50 MiB; the two groups are written, sorted by customer
    reference, to `Small_File_List.csv` and `Large_File_List.csv`. File
    existence and sizes are inputs; the prompt's answer is a parameter. */
module DeliverySizeSplitter {
  import opened Outcomes
  import opened Text
  import opened Paths
  import opened Sequences
  import opened Sorting

  const KB: nat := 1024
  const MB: nat := KB * KB
  /** 50 MiB. */
  const MaxBytes: nat := 50 * MB

  const Header: string := "Batch,CustomerRef,Filename,Filepath,MPT_KB,PDF_KB\n"

  // ---------------------------------------------------------------------------
  // Kilobytes: round(size / 1024, 0)
  // ---------------------------------------------------------------------------

  /** Python's `round(bytes / 1024, 0)`: the nearest whole number of
      kilobytes, a tie going to the even one. */
  function RoundKb(bytes: nat): nat {
    var q := bytes / KB;
    var r := bytes % KB;
    if r < KB / 2 then q
    else if r > KB / 2 then q + 1
    else if q % 2 == 0 then q
    else q + 1
  }

  /** The rounding rule stated without division. */
  predicate NearestEven(bytes: nat, kb: nat) {
    var d := bytes - kb * KB;
    && -512 <= d <= 512
    && (d == 512 || d == -512 ==> kb % 2 == 0)
  }

  /** `RoundKb` gives the nearest number of kilobytes, ties to even, and it
      is the only number that does. */
  lemma RoundKbIsNearestEven(bytes: nat, kb: nat)
    ensures NearestEven(bytes, RoundKb(bytes))
    ensures NearestEven(bytes, kb) ==> kb == RoundKb(bytes)
  {
    var q := bytes / KB;
    assert bytes == q * KB + bytes % KB;
  }

  /** The text Python prints for a rounded size: a float, so `".0"` follows. */
  function KbText(kb: nat): string {
    NatToString(kb) + ".0"
  }

  // ---------------------------------------------------------------------------
  // Rows
  // ---------------------------------------------------------------------------

  /** The files that exist and the size of each. */
  datatype Env = Env(existing: set<string>, size: string -> nat)

  /** A listed document: `(batch_name, ref, name, pdf_file, mpt_kb, pdf_kb)`. */
  datatype Entry = Entry(batch: string, ref: string, name: string, pdfPath: string, mptKb: nat, pdfKb: nat)

  /** An export list: its path and its lines. */
  datatype ExportFile = ExportFile(path: string, lines: seq<string>)

  /** Where the two outputs of a document listed in `folder` are. */
  function MptPath(folder: string, name: string): string {
    Paths.Join(folder + "_mpt", name + ".tif")
  }

  function PdfPath(folder: string, name: string): string {
    Paths.Join(folder + "_pdf", name + ".pdf")
  }

  /** The reference and document name of a line: non-blank, with more than
      two cells, both stripped. */
  function RefAndName(line: string): Option<(string, string)> {
    var text := Strip(line);
    var cells := Split(text, ',');
    if text != "" && |cells| > 2 then Some((Strip(cells[0]), Strip(cells[1]))) else None
  }

  predicate IsLarge(env: Env, folder: string, name: string) {
    env.size(MptPath(folder, name)) > MaxBytes || env.size(PdfPath(folder, name)) > MaxBytes
  }

  /** A listed document and whether it goes to the large group. */
  datatype Listed = Listed(entry: Entry, large: bool)

  /** One line of the list in `folder`: skipped, a missing file (the TIFF is
      checked first), or the document with its group. */
  function Classify(env: Env, l: (string, string)): Result<Option<Listed>> {
    var folder := l.0;
    match RefAndName(l.1)
    case None => Ok(None)
    case Some((ref, name)) =>
      var mpt := MptPath(folder, name);
      var pdf := PdfPath(folder, name);
      if mpt !in env.existing then Err(MissingFile(mpt))
      else if pdf !in env.existing then Err(MissingFile(pdf))
      else
        var e := Entry(Basename(folder), ref, name, pdf, RoundKb(env.size(mpt)), RoundKb(env.size(pdf)));
        Ok(Some(Listed(e, IsLarge(env, folder, name))))
  }

  function Classifier(env: Env): ((string, string)) -> Result<Option<Listed>> {
    l => Classify(env, l)
  }

  /** A line fails exactly when it names a document one of whose files is
      missing, and the TIFF is reported before the PDF; a document that is
      there is large exactly when one of its files is over 50 MiB. */
  lemma ClassifyCases(env: Env, folder: string, line: string)
    ensures var c := Classify(env, (folder, line));
      && (RefAndName(line).None? ==> c == Ok(None))
      && (RefAndName(line).Some? ==>
            var name := RefAndName(line).value.1;
            && (MptPath(folder, name) !in env.existing ==> c == Err(MissingFile(MptPath(folder, name))))
            && (MptPath(folder, name) in env.existing && PdfPath(folder, name) !in env.existing ==>
                  c == Err(MissingFile(PdfPath(folder, name))))
            && (MptPath(folder, name) in env.existing && PdfPath(folder, name) in env.existing ==>
                  && c.Ok? && c.value.Some?
                  && c.value.value.entry.ref == RefAndName(line).value.0
                  && c.value.value.entry.pdfPath == PdfPath(folder, name)
                  && c.value.value.entry.batch == Basename(folder)
                  && (c.value.value.large <==>
                        env.size(MptPath(folder, name)) > MaxBytes || env.size(PdfPath(folder, name)) > MaxBytes)))
  {
  }

  /** The lines of all lists, each with the folder of its list. */
  function ListedLines(files: seq<ExportFile>): seq<(string, string)> {
    if files == [] then []
    else
      var f := files[|files| - 1];
      ListedLines(files[..|files| - 1]) + FolderLines(Dirname(f.path), f.lines)
  }

  function FolderLines(folder: string, lines: seq<string>): (r: seq<(string, string)>)
    ensures |r| == |lines|
    ensures forall k :: 0 <= k < |lines| ==> r[k] == (folder, lines[k])
  {
    if lines == [] then [] else FolderLines(folder, lines[..|lines| - 1]) + [(folder, lines[|lines| - 1])]
  }

  /** The two groups being built. */
  datatype Groups = Groups(small: seq<Entry>, large: seq<Entry>)

  /** The module-level loop over all lists and lines, for a given line
      step; the first missing file stops it. */
  function Collect(classify: ((string, string)) -> Result<Option<Listed>>, lines: seq<(string, string)>): Result<Groups> {
    if lines == [] then Ok(Groups([], []))
    else
      match Collect(classify, lines[..|lines| - 1])
      case Err(e) => Err(e)
      case Ok(g) =>
        match classify(lines[|lines| - 1])
        case Err(e) => Err(e)
        case Ok(None) => Ok(g)
        case Ok(Some(x)) =>
          if x.large then Ok(g.(large := g.large + [x.entry])) else Ok(g.(small := g.small + [x.entry]))
  }

  // ---------------------------------------------------------------------------
  // The declarative reading of the loop
  // ---------------------------------------------------------------------------

  /** The entry of a line that goes to the large (or the small) group. */
  function InGroup(classify: ((string, string)) -> Result<Option<Listed>>, large: bool): ((string, string)) -> Option<Entry> {
    l => match classify(l)
         case Ok(Some(x)) => if x.large == large then Some(x.entry) else None
         case _ => None
  }

  /** When no line fails, each group holds, in list order, exactly the
      documents of its class. */
  lemma {:induction false} CollectGroups(classify: ((string, string)) -> Result<Option<Listed>>, lines: seq<(string, string)>)
    requires forall k :: 0 <= k < |lines| ==> classify(lines[k]).Ok?
    ensures Collect(classify, lines)
      == Ok(Groups(FilterMap(InGroup(classify, false), lines), FilterMap(InGroup(classify, true), lines)))
  {
    if lines != [] {
      var init := lines[..|lines| - 1];
      assert forall k :: 0 <= k < |init| ==> init[k] == lines[k];
      CollectGroups(classify, init);
    }
  }

  /** Otherwise the loop stops with the error of the first line that fails. */
  lemma {:induction false} CollectFirstFailure(classify: ((string, string)) -> Result<Option<Listed>>, lines: seq<(string, string)>, k: nat)
    requires k < |lines| && classify(lines[k]).Err?
    requires forall j :: 0 <= j < k ==> classify(lines[j]).Ok?
    ensures Collect(classify, lines) == Err(classify(lines[k]).error)
  {
    var init := lines[..|lines| - 1];
    assert forall j :: 0 <= j < |init| ==> init[j] == lines[j];
    if k == |lines| - 1 {
      CollectGroups(classify, init);
    } else {
      CollectFirstFailure(classify, init, k);
    }
  }

  // ---------------------------------------------------------------------------
  // The output files
  // ---------------------------------------------------------------------------

  function RefKey(): Entry -> string { (e: Entry) => e.ref }

  /** A small document's line: sizes as `mpt_kb,pdf_kb`. */
  function SmallLine(e: Entry): string {
    Text.Join([e.batch, e.ref, e.name, e.pdfPath, KbText(e.mptKb), KbText(e.pdfKb)], ',') + "\n"
  }

  /** A large document's line: the two size columns come out swapped. */
  function LargeLine(e: Entry): string {
    Text.Join([e.batch, e.ref, e.name, e.pdfPath, KbText(e.pdfKb), KbText(e.mptKb)], ',') + "\n"
  }

  function Lines(format: Entry -> string, entries: seq<Entry>): (r: seq<string>)
    ensures |r| == |entries|
    ensures forall k :: 0 <= k < |entries| ==> r[k] == format(entries[k])
  {
    if entries == [] then [] else Lines(format, entries[..|entries| - 1]) + [format(entries[|entries| - 1])]
  }

  /** What the two files hold and the exception raised, if any. */
  datatype Output = Output(small: seq<string>, large: seq<string>, error: Option<Error>)

  /** The whole script: the files are cleared to the header first; the
      report then divides by the number of listed documents, which raises
      when there is none; the rows are written only on a "y" answer, each
      group sorted by reference. */
  function Delivered(env: Env, files: seq<ExportFile>, answer: string): Output {
    match Collect(Classifier(env), ListedLines(files))
    case Err(e) => Output([Header], [Header], Some(e))
    case Ok(g) =>
      if |g.small| + |g.large| == 0 then Output([Header], [Header], Some(ZeroDivisionError))
      else if answer != "y" then Output([Header], [Header], None)
      else
        Output([Header] + Lines(SmallLine, SortBy(RefKey(), g.small)),
               [Header] + Lines(LargeLine, SortBy(RefKey(), g.large)), None)
  }

  /** A missing file leaves both files holding only the header, and the
      exception is the first failing line's. */
  lemma DeliveredFails(env: Env, files: seq<ExportFile>, answer: string, k: nat)
    requires k < |ListedLines(files)| && Classify(env, ListedLines(files)[k]).Err?
    requires forall j :: 0 <= j < k ==> Classify(env, ListedLines(files)[j]).Ok?
    ensures Delivered(env, files, answer)
      == Output([Header], [Header], Some(Classify(env, ListedLines(files)[k]).error))
  {
    CollectFirstFailure(Classifier(env), ListedLines(files), k);
  }

  /** With every file present and no document listed, the report's
      percentage raises before the question is asked. Otherwise nothing is
      written after the header unless the answer is "y"; then each file
      holds its group's documents ordered by reference, a permutation of
      the group that keeps list order among equal references. */
  lemma DeliveredRows(env: Env, files: seq<ExportFile>, answer: string, ref: string)
    requires forall k :: 0 <= k < |ListedLines(files)| ==> Classify(env, ListedLines(files)[k]).Ok?
    ensures var out := Delivered(env, files, answer);
      var small := FilterMap(InGroup(Classifier(env), false), ListedLines(files));
      var large := FilterMap(InGroup(Classifier(env), true), ListedLines(files));
      && (small == [] && large == [] ==> out == Output([Header], [Header], Some(ZeroDivisionError)))
      && (small != [] || large != [] ==>
            && out.error.None?
            && (answer != "y" ==> out.small == [Header] && out.large == [Header])
            && (answer == "y" ==>
                  && out.small == [Header] + Lines(SmallLine, SortBy(RefKey(), small))
                  && out.large == [Header] + Lines(LargeLine, SortBy(RefKey(), large))))
      && Sorted(RefKey(), SortBy(RefKey(), small)) && multiset(SortBy(RefKey(), small)) == multiset(small)
      && WithKey(RefKey(), ref, SortBy(RefKey(), small)) == WithKey(RefKey(), ref, small)
      && Sorted(RefKey(), SortBy(RefKey(), large)) && multiset(SortBy(RefKey(), large)) == multiset(large)
      && WithKey(RefKey(), ref, SortBy(RefKey(), large)) == WithKey(RefKey(), ref, large)
  {
    var lines := ListedLines(files);
    CollectGroups(Classifier(env), lines);
    var small := FilterMap(InGroup(Classifier(env), false), lines);
    var large := FilterMap(InGroup(Classifier(env), true), lines);
    SortSorted(RefKey(), small);
    SortPermutes(RefKey(), small);
    SortStable(RefKey(), small, ref);
    SortSorted(RefKey(), large);
    SortPermutes(RefKey(), large);
    SortStable(RefKey(), large, ref);
  }

  /** Lines that name no document leave both groups empty. */
  lemma {:induction false} CollectNothing(classify: ((string, string)) -> Result<Option<Listed>>, lines: seq<(string, string)>)
    requires forall k :: 0 <= k < |lines| ==> classify(lines[k]) == Ok(None)
    ensures Collect(classify, lines) == Ok(Groups([], []))
  {
    if lines != [] {
      var init := lines[..|lines| - 1];
      assert forall k :: 0 <= k < |init| ==> init[k] == lines[k];
      CollectNothing(classify, init);
    }
  }

  /** When every line is blank or has at most two cells (or there is no
      list at all), the report divides by zero: both files keep only the
      header, whatever the answer. */
  lemma DeliveredNothingListed(env: Env, files: seq<ExportFile>, answer: string)
    requires forall k :: 0 <= k < |ListedLines(files)| ==> RefAndName(ListedLines(files)[k].1).None?
    ensures Delivered(env, files, answer) == Output([Header], [Header], Some(ZeroDivisionError))
  {
    CollectNothing(Classifier(env), ListedLines(files));
  }

  /** A written line splits back into its six fields when no field holds a
      comma; the sixth is the PDF's size for a small document but the
      TIFF's size for a large one, and both read back as the rounded
      kilobytes. */
  lemma LineFields(e: Entry)
    requires ',' !in e.batch && ',' !in e.ref && ',' !in e.name && ',' !in e.pdfPath
    ensures Text.Split(SmallLine(e)[..|SmallLine(e)| - 1], ',')
      == [e.batch, e.ref, e.name, e.pdfPath, KbText(e.mptKb), KbText(e.pdfKb)]
    ensures Text.Split(LargeLine(e)[..|LargeLine(e)| - 1], ',')
      == [e.batch, e.ref, e.name, e.pdfPath, KbText(e.pdfKb), KbText(e.mptKb)]
    ensures ParseDecimal(KbText(e.pdfKb)) == Some(e.pdfKb as real)
    ensures ParseDecimal(KbText(e.mptKb)) == Some(e.mptKb as real)
  {
    KbTextHasNoComma(e.mptKb);
    KbTextHasNoComma(e.pdfKb);
    var small := [e.batch, e.ref, e.name, e.pdfPath, KbText(e.mptKb), KbText(e.pdfKb)];
    var large := [e.batch, e.ref, e.name, e.pdfPath, KbText(e.pdfKb), KbText(e.mptKb)];
    SplitJoin(small, ',');
    SplitJoin(large, ',');
    assert SmallLine(e)[..|SmallLine(e)| - 1] == Text.Join(small, ',');
    assert LargeLine(e)[..|LargeLine(e)| - 1] == Text.Join(large, ',');
    ParseDecimalOfWholeNumber(e.pdfKb);
    ParseDecimalOfWholeNumber(e.mptKb);
  }

  lemma KbTextHasNoComma(kb: nat)
    ensures ',' !in KbText(kb)
  {
    var d := NatToString(kb);
    forall i | 0 <= i < |d| ensures d[i] != ',' { assert IsDigit(d[i]); }
    assert KbText(kb) == d + ".0";
  }

  // ---------------------------------------------------------------------------
  // The script
  // ---------------------------------------------------------------------------

  /** The loop over the lists and their lines, appending to `small_files`
      and `large_files`; `classify` is the step of one line. */
  method CollectRows(classify: ((string, string)) -> Result<Option<Listed>>, files: seq<ExportFile>)
    returns (result: Result<Groups>)
    ensures result == Collect(classify, ListedLines(files))
  {
    var groups := Groups([], []);
    for i := 0 to |files|
      invariant Collect(classify, ListedLines(files[..i])) == Ok(groups)
    {
      ListedNext(files, i);
      var r := CollectList(classify, ListedLines(files[..i]), Dirname(files[i].path), files[i].lines, groups);
      if r.Err? {
        ListStops(classify, files, i);
        return r;
      }
      groups := r.value;
    }
    assert files[..|files|] == files;
    result := Ok(groups);
  }

  /** The lines of one list, in `folder`, after the lines `before`. */
  method CollectList(classify: ((string, string)) -> Result<Option<Listed>>, before: seq<(string, string)>,
                     folder: string, lines: seq<string>, start: Groups)
    returns (result: Result<Groups>)
    requires Collect(classify, before) == Ok(start)
    ensures result == Collect(classify, before + FolderLines(folder, lines))
  {
    var small := start.small;
    var large := start.large;
    assert before + FolderLines(folder, lines[..0]) == before;
    for j := 0 to |lines|
      invariant Collect(classify, before + FolderLines(folder, lines[..j])) == Ok(Groups(small, large))
    {
      var done := before + FolderLines(folder, lines[..j]);
      var next := before + FolderLines(folder, lines[..j + 1]);
      assert lines[..j + 1][..j] == lines[..j];
      assert next[..|next| - 1] == done;
      var c := classify((folder, lines[j]));
      if c.Err? {
        assert FolderLines(folder, lines)[..j + 1] == FolderLines(folder, lines[..j + 1]);
        CollectStops(classify, before + FolderLines(folder, lines), next);
        return Err(c.error);
      }
      if c.value.Some? {
        if c.value.value.large {
          large := large + [c.value.value.entry];
        } else {
          small := small + [c.value.value.entry];
        }
      }
    }
    assert lines[..|lines|] == lines;
    result := Ok(Groups(small, large));
  }

  lemma ListedNext(files: seq<ExportFile>, i: nat)
    requires i < |files|
    ensures ListedLines(files[..i + 1]) == ListedLines(files[..i]) + FolderLines(Dirname(files[i].path), files[i].lines)
  {
    assert files[..i + 1][..i] == files[..i];
  }

  /** A list whose lines fail fails the whole loop the same way. */
  lemma ListStops(classify: ((string, string)) -> Result<Option<Listed>>, files: seq<ExportFile>, i: nat)
    requires i < |files| && Collect(classify, ListedLines(files[..i + 1])).Err?
    ensures Collect(classify, ListedLines(files)) == Collect(classify, ListedLines(files[..i + 1]))
  {
    ListedPrefix(files, i + 1);
    CollectStops(classify, ListedLines(files), ListedLines(files[..i + 1]));
  }

  /** The lines of the first `n` lists come first among all the lines. */
  lemma {:induction false} ListedPrefix(files: seq<ExportFile>, n: nat)
    requires n <= |files|
    ensures ListedLines(files[..n]) <= ListedLines(files)
    decreases |files| - n
  {
    if n < |files| {
      ListedPrefix(files, n + 1);
      ListedNext(files, n);
    } else {
      assert files[..n] == files;
    }
  }

  /** A failing prefix of the lines fails the whole loop the same way. */
  lemma {:induction false} CollectStops(classify: ((string, string)) -> Result<Option<Listed>>, lines: seq<(string, string)>, prefix: seq<(string, string)>)
    requires prefix <= lines && Collect(classify, prefix).Err?
    ensures Collect(classify, lines) == Collect(classify, prefix)
    decreases |lines|
  {
    if |prefix| < |lines| {
      assert prefix <= lines[..|lines| - 1];
      CollectStops(classify, lines[..|lines| - 1], prefix);
    } else {
      assert prefix == lines;
    }
  }

  /** The script: collect, ask, sort and write. */
  method Run(env: Env, files: seq<ExportFile>, answer: string) returns (out: Output)
    ensures out == Delivered(env, files, answer)
  {
    var collected := CollectRows(Classifier(env), files);
    if collected.Err? {
      return Output([Header], [Header], Some(collected.error));
    }
    if |collected.value.small| + |collected.value.large| == 0 {
      return Output([Header], [Header], Some(ZeroDivisionError));
    }
    if answer != "y" {
      return Output([Header], [Header], None);
    }
    var small := WriteRows(SmallLine, SortBy(RefKey(), collected.value.small));
    var large := WriteRows(LargeLine, SortBy(RefKey(), collected.value.large));
    out := Output(small, large, None);
  }

  /** The header, then one formatted line per entry. */
  method WriteRows(format: Entry -> string, entries: seq<Entry>) returns (written: seq<string>)
    ensures written == [Header] + Lines(format, entries)
  {
    written := [Header];
    for i := 0 to |entries|
      invariant written == [Header] + Lines(format, entries[..i])
    {
      assert entries[..i + 1][..i] == entries[..i];
      written := written + [format(entries[i])];
    }
    assert entries[..|entries|] == entries;
  }
}
