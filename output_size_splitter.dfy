/** The output size splitter: each `EXPORT.TXT` list is a batch; every
    document it names is put into the small or the large group (over
    50 MiB), once with its PDF's path and once with its TIFF's path, and
    after each batch the four group lists are appended to the four output
    files. The lists are never emptied between batches, so as written every
    batch re-appends the rows of all earlier ones; `reset` selects the
    corrected reading where each batch writes only its own rows. Line
    parsing and the two file paths are the delivery splitter's. */
module OutputSizeSplitter {
  import opened Outcomes
  import opened Text
  import opened Paths
  import opened Sequences
  import Delivery = DeliverySizeSplitter

  /** `(batch_name, ref, name, path, mpt_size, pdf_size)`, sizes in bytes. */
  datatype Row = Row(batch: string, ref: string, name: string, path: string, mptSize: nat, pdfSize: nat)

  /** A listed document's two rows, and whether it is large. */
  datatype Listed = Listed(pdfRow: Row, mptRow: Row, large: bool)

  /** A line, with the folder of its list. */
  type Line = (string, string)

  type Classifier = Line -> Result<Option<Listed>>

  predicate Big(r: Row) {
    r.mptSize > Delivery.MaxBytes || r.pdfSize > Delivery.MaxBytes
  }

  /** One line: skipped, a missing file (the TIFF first), or the document. */
  function Classify(env: Delivery.Env, l: Line): Result<Option<Listed>> {
    var folder := l.0;
    match Delivery.RefAndName(l.1)
    case None => Ok(None)
    case Some((ref, name)) =>
      var mpt := Delivery.MptPath(folder, name);
      var pdf := Delivery.PdfPath(folder, name);
      if mpt !in env.existing then Err(MissingFile(mpt))
      else if pdf !in env.existing then Err(MissingFile(pdf))
      else
        var mptSize := env.size(mpt);
        var pdfSize := env.size(pdf);
        var row := Row(Basename(folder), ref, name, pdf, mptSize, pdfSize);
        Ok(Some(Listed(row, row.(path := mpt), mptSize > Delivery.MaxBytes || pdfSize > Delivery.MaxBytes)))
  }

  function ClassifierOf(env: Delivery.Env): Classifier {
    l => Classify(env, l)
  }

  /** The two rows of a document differ only in the path, which is the
      PDF's in one and the TIFF's in the other, and the document is large
      exactly when its rows are. */
  predicate WellListed(x: Listed) {
    && x.mptRow == x.pdfRow.(path := x.mptRow.path)
    && (x.large <==> Big(x.pdfRow))
  }

  lemma ClassifyCases(env: Delivery.Env, folder: string, line: string)
    ensures var c := Classify(env, (folder, line));
      && (Delivery.RefAndName(line).None? ==> c == Ok(None))
      && (Delivery.RefAndName(line).Some? ==>
            var name := Delivery.RefAndName(line).value.1;
            var mpt := Delivery.MptPath(folder, name);
            var pdf := Delivery.PdfPath(folder, name);
            && (mpt !in env.existing ==> c == Err(MissingFile(mpt)))
            && (mpt in env.existing && pdf !in env.existing ==> c == Err(MissingFile(pdf)))
            && (mpt in env.existing && pdf in env.existing ==>
                  && c.Ok? && c.value.Some? && WellListed(c.value.value)
                  && c.value.value.pdfRow.path == pdf && c.value.value.mptRow.path == mpt
                  && c.value.value.pdfRow.mptSize == env.size(mpt) && c.value.value.pdfRow.pdfSize == env.size(pdf)
                  && c.value.value.pdfRow.ref == Delivery.RefAndName(line).value.0
                  && c.value.value.pdfRow.batch == Basename(folder)))
  {
  }

  // ---------------------------------------------------------------------------
  // The four group lists
  // ---------------------------------------------------------------------------

  datatype Groups = Groups(smallPdf: seq<Row>, smallMpt: seq<Row>, largePdf: seq<Row>, largeMpt: seq<Row>)

  const NoGroups := Groups([], [], [], [])

  function Concat(g: Groups, h: Groups): Groups {
    Groups(g.smallPdf + h.smallPdf, g.smallMpt + h.smallMpt, g.largePdf + h.largePdf, g.largeMpt + h.largeMpt)
  }

  /** The row of a line that goes to one of the four lists. */
  function Pick(classify: Classifier, large: bool, pdf: bool): Line -> Option<Row> {
    l => match classify(l)
         case Ok(Some(x)) => if x.large == large then Some(if pdf then x.pdfRow else x.mptRow) else None
         case _ => None
  }

  /** The rows that some lines contribute to each list. */
  function Contributed(classify: Classifier, lines: seq<Line>): Groups {
    Groups(FilterMap(Pick(classify, false, true), lines), FilterMap(Pick(classify, false, false), lines),
           FilterMap(Pick(classify, true, true), lines), FilterMap(Pick(classify, true, false), lines))
  }

  /** The inner loop over one list's lines, appending to the four lists;
      a missing file stops it. */
  function AddLines(classify: Classifier, folder: string, lines: seq<string>, g: Groups): Result<Groups> {
    if lines == [] then Ok(g)
    else
      match AddLines(classify, folder, lines[..|lines| - 1], g)
      case Err(e) => Err(e)
      case Ok(h) =>
        match classify((folder, lines[|lines| - 1]))
        case Err(e) => Err(e)
        case Ok(None) => Ok(h)
        case Ok(Some(x)) =>
          if x.large then Ok(h.(largePdf := h.largePdf + [x.pdfRow], largeMpt := h.largeMpt + [x.mptRow]))
          else Ok(h.(smallPdf := h.smallPdf + [x.pdfRow], smallMpt := h.smallMpt + [x.mptRow]))
  }

  /** When none of its lines fails, a list appends to each group exactly
      the rows its lines contribute, in order, whatever the groups held. */
  lemma {:induction false} AddLinesAppends(classify: Classifier, folder: string, lines: seq<string>, g: Groups)
    requires forall k :: 0 <= k < |lines| ==> classify((folder, lines[k])).Ok?
    ensures AddLines(classify, folder, lines, g) == Ok(Concat(g, Contributed(classify, Delivery.FolderLines(folder, lines))))
  {
    if lines != [] {
      var init := lines[..|lines| - 1];
      var last := (folder, lines[|lines| - 1]);
      assert forall k :: 0 <= k < |init| ==> init[k] == lines[k];
      AddLinesAppends(classify, folder, init, g);
      var fl := Delivery.FolderLines(folder, lines);
      var p := Contributed(classify, Delivery.FolderLines(folder, init));
      assert fl == Delivery.FolderLines(folder, init) + [last];
      ContributedSnoc(classify, Delivery.FolderLines(folder, init), last);
      match classify(last)
      case Ok(Some(x)) =>
        if x.large {
          assert g.largePdf + p.largePdf + [x.pdfRow] == g.largePdf + (p.largePdf + [x.pdfRow]);
          assert g.largeMpt + p.largeMpt + [x.mptRow] == g.largeMpt + (p.largeMpt + [x.mptRow]);
        } else {
          assert g.smallPdf + p.smallPdf + [x.pdfRow] == g.smallPdf + (p.smallPdf + [x.pdfRow]);
          assert g.smallMpt + p.smallMpt + [x.mptRow] == g.smallMpt + (p.smallMpt + [x.mptRow]);
        }
      case _ =>
    } else {
      assert Contributed(classify, Delivery.FolderLines(folder, lines)) == NoGroups;
      assert Concat(g, NoGroups) == g;
    }
  }

  lemma ContributedSnoc(classify: Classifier, lines: seq<Line>, l: Line)
    ensures var c := Contributed(classify, lines + [l]);
      var p := Contributed(classify, lines);
      match classify(l)
      case Ok(Some(x)) =>
        if x.large then c == p.(largePdf := p.largePdf + [x.pdfRow], largeMpt := p.largeMpt + [x.mptRow])
        else c == p.(smallPdf := p.smallPdf + [x.pdfRow], smallMpt := p.smallMpt + [x.mptRow])
      case _ => c == p
  {
    FilterMapSnoc(Pick(classify, false, true), lines, l);
    FilterMapSnoc(Pick(classify, false, false), lines, l);
    FilterMapSnoc(Pick(classify, true, true), lines, l);
    FilterMapSnoc(Pick(classify, true, false), lines, l);
  }

  lemma ContributedAppend(classify: Classifier, a: seq<Line>, b: seq<Line>)
    ensures Contributed(classify, a + b) == Concat(Contributed(classify, a), Contributed(classify, b))
  {
    FilterMapAppend(Pick(classify, false, true), a, b);
    FilterMapAppend(Pick(classify, false, false), a, b);
    FilterMapAppend(Pick(classify, true, true), a, b);
    FilterMapAppend(Pick(classify, true, false), a, b);
  }

  /** Otherwise it stops with the error of its first failing line. */
  lemma {:induction false} AddLinesFails(classify: Classifier, folder: string, lines: seq<string>, g: Groups, k: nat)
    requires k < |lines| && classify((folder, lines[k])).Err?
    requires forall j :: 0 <= j < k ==> classify((folder, lines[j])).Ok?
    ensures AddLines(classify, folder, lines, g) == Err(classify((folder, lines[k])).error)
  {
    var init := lines[..|lines| - 1];
    assert forall j :: 0 <= j < |init| ==> init[j] == lines[j];
    if k == |lines| - 1 {
      AddLinesAppends(classify, folder, init, g);
    } else {
      AddLinesFails(classify, folder, init, g, k);
    }
  }

  /** Well-formed groups: the PDF and MPT lists of a class pair up row by
      row, differing only in the path, and a row is in a large list exactly
      when one of its files is over 50 MiB. */
  predicate WellGrouped(g: Groups) {
    && |g.smallPdf| == |g.smallMpt| && |g.largePdf| == |g.largeMpt|
    && (forall k :: 0 <= k < |g.smallPdf| ==> g.smallMpt[k] == g.smallPdf[k].(path := g.smallMpt[k].path))
    && (forall k :: 0 <= k < |g.largePdf| ==> g.largeMpt[k] == g.largePdf[k].(path := g.largeMpt[k].path))
    && (forall k :: 0 <= k < |g.smallPdf| ==> !Big(g.smallPdf[k]))
    && (forall k :: 0 <= k < |g.largePdf| ==> Big(g.largePdf[k]))
  }

  predicate ListsWell(classify: Classifier, folder: string, lines: seq<string>) {
    forall k :: 0 <= k < |lines| && classify((folder, lines[k])).Ok? && classify((folder, lines[k])).value.Some? ==>
      WellListed(classify((folder, lines[k])).value.value)
  }

  /** The script's own step lists every document well. */
  lemma ClassifierListsWell(env: Delivery.Env, folder: string, lines: seq<string>)
    ensures ListsWell(ClassifierOf(env), folder, lines)
  {
    forall k | 0 <= k < |lines| && Classify(env, (folder, lines[k])).Ok? && Classify(env, (folder, lines[k])).value.Some?
      ensures WellListed(Classify(env, (folder, lines[k])).value.value)
    {
      ClassifyCases(env, folder, lines[k]);
    }
  }

  /** Appending a list's lines keeps the groups well formed. */
  lemma {:induction false} AddLinesKeepsWell(classify: Classifier, folder: string, lines: seq<string>, g: Groups)
    requires WellGrouped(g) && ListsWell(classify, folder, lines)
    ensures AddLines(classify, folder, lines, g).Ok? ==> WellGrouped(AddLines(classify, folder, lines, g).value)
  {
    if lines != [] {
      var init := lines[..|lines| - 1];
      assert ListsWell(classify, folder, init) by {
        assert forall k :: 0 <= k < |init| ==> init[k] == lines[k];
      }
      AddLinesKeepsWell(classify, folder, init, g);
    }
  }

  // ---------------------------------------------------------------------------
  // The batches and the four files
  // ---------------------------------------------------------------------------

  /** The text of one row: sizes in bytes, the PDF's first. */
  function RowLine(r: Row): string {
    Text.Join([r.batch, r.ref, r.name, r.path, NatToString(r.pdfSize), NatToString(r.mptSize)], ',') + "\n"
  }

  function RowLines(rows: seq<Row>): (r: seq<string>)
    ensures |r| == |rows|
  {
    if rows == [] then [] else RowLines(rows[..|rows| - 1]) + [RowLine(rows[|rows| - 1])]
  }

  lemma {:induction false} RowLinesAppend(a: seq<Row>, b: seq<Row>)
    ensures RowLines(a + b) == RowLines(a) + RowLines(b)
  {
    if b != [] {
      RowLinesAppend(a, b[..|b| - 1]);
      assert (a + b)[..|a + b| - 1] == a + b[..|b| - 1];
    } else {
      assert a + b == a;
    }
  }

  /** The contents of the four files, truncated to empty at the start. */
  datatype Files = Files(smallPdf: seq<string>, smallMpt: seq<string>, largePdf: seq<string>, largeMpt: seq<string>)

  /** After a batch: each group list appended to its file. */
  function Written(out: Files, g: Groups): Files {
    Files(out.smallPdf + RowLines(g.smallPdf), out.smallMpt + RowLines(g.smallMpt),
          out.largePdf + RowLines(g.largePdf), out.largeMpt + RowLines(g.largeMpt))
  }

  datatype State = State(groups: Groups, files: Files, error: Option<Error>)

  /** The loop over the batches. As written (`reset` false) the group lists
      carry over from batch to batch; with `reset` each batch starts from
      empty lists. A missing file stops everything, leaving the files as
      the earlier batches wrote them. */
  function Process(classify: Classifier, batches: seq<Delivery.ExportFile>, reset: bool): State {
    if batches == [] then State(NoGroups, Files([], [], [], []), None)
    else
      var s := Process(classify, batches[..|batches| - 1], reset);
      var b := batches[|batches| - 1];
      if s.error.Some? then s
      else
        match AddLines(classify, Dirname(b.path), b.lines, if reset then NoGroups else s.groups)
        case Err(e) => s.(error := Some(e))
        case Ok(g) => State(g, Written(s.files, g), None)
  }

  /** The groups stay well formed across all batches. */
  lemma {:induction false} ProcessKeepsWell(env: Delivery.Env, batches: seq<Delivery.ExportFile>, reset: bool)
    ensures WellGrouped(Process(ClassifierOf(env), batches, reset).groups)
  {
    if batches != [] {
      var init := batches[..|batches| - 1];
      var b := batches[|batches| - 1];
      ProcessKeepsWell(env, init, reset);
      ClassifierListsWell(env, Dirname(b.path), b.lines);
      var s := Process(ClassifierOf(env), init, reset);
      AddLinesKeepsWell(ClassifierOf(env), Dirname(b.path), b.lines, if reset then NoGroups else s.groups);
    }
  }

  /** The rows one batch contributes. */
  function BatchRows(classify: Classifier, b: Delivery.ExportFile): Groups {
    Contributed(classify, Delivery.FolderLines(Dirname(b.path), b.lines))
  }

  predicate BatchOk(classify: Classifier, b: Delivery.ExportFile) {
    forall k :: 0 <= k < |b.lines| ==> classify((Dirname(b.path), b.lines[k])).Ok?
  }

  /** A batch that goes through appends to the groups (emptied first with
      `reset`) the rows it contributes, then writes the groups out. */
  lemma ProcessStep(classify: Classifier, batches: seq<Delivery.ExportFile>, b: Delivery.ExportFile, reset: bool)
    requires Process(classify, batches, reset).error.None? && BatchOk(classify, b)
    ensures var before := Process(classify, batches, reset);
      var g := Concat(if reset then NoGroups else before.groups, BatchRows(classify, b));
      Process(classify, batches + [b], reset) == State(g, Written(before.files, g), None)
  {
    assert (batches + [b])[..|batches|] == batches;
    ProcessLast(classify, batches + [b], reset);
  }

  lemma ProcessLast(classify: Classifier, batches: seq<Delivery.ExportFile>, reset: bool)
    requires batches != [] && Process(classify, batches[..|batches| - 1], reset).error.None?
    requires BatchOk(classify, batches[|batches| - 1])
    ensures var before := Process(classify, batches[..|batches| - 1], reset);
      var g := Concat(if reset then NoGroups else before.groups, BatchRows(classify, batches[|batches| - 1]));
      Process(classify, batches, reset) == State(g, Written(before.files, g), None)
  {
    var before := Process(classify, batches[..|batches| - 1], reset);
    var b := batches[|batches| - 1];
    AddLinesAppends(classify, Dirname(b.path), b.lines, if reset then NoGroups else before.groups);
  }

  /** A run that goes through went through every batch. */
  lemma ProcessWentThrough(classify: Classifier, batches: seq<Delivery.ExportFile>, reset: bool)
    requires batches != [] && Process(classify, batches, reset).error.None?
    ensures Process(classify, batches[..|batches| - 1], reset).error.None?
    ensures BatchOk(classify, batches[|batches| - 1])
  {
    var init := batches[..|batches| - 1];
    var b := batches[|batches| - 1];
    var s := Process(classify, init, reset);
    AddLinesSucceeds(classify, Dirname(b.path), b.lines, if reset then NoGroups else s.groups);
  }

  /** Writing out appended groups writes the old rows, then the new. */
  lemma WrittenConcat(out: Files, g: Groups, h: Groups)
    ensures Written(out, Concat(g, h)) == Files(out.smallPdf + RowLines(g.smallPdf) + RowLines(h.smallPdf),
                                               out.smallMpt + RowLines(g.smallMpt) + RowLines(h.smallMpt),
                                               out.largePdf + RowLines(g.largePdf) + RowLines(h.largePdf),
                                               out.largeMpt + RowLines(g.largeMpt) + RowLines(h.largeMpt))
  {
    RowLinesAppend(g.smallPdf, h.smallPdf);
    AppendAssoc(out.smallPdf, RowLines(g.smallPdf), RowLines(h.smallPdf));
    RowLinesAppend(g.smallMpt, h.smallMpt);
    AppendAssoc(out.smallMpt, RowLines(g.smallMpt), RowLines(h.smallMpt));
    RowLinesAppend(g.largePdf, h.largePdf);
    AppendAssoc(out.largePdf, RowLines(g.largePdf), RowLines(h.largePdf));
    RowLinesAppend(g.largeMpt, h.largeMpt);
    AppendAssoc(out.largeMpt, RowLines(g.largeMpt), RowLines(h.largeMpt));
  }

  lemma RowLinesFirst(rows: seq<Row>)
    requires rows != []
    ensures RowLines(rows)[0] == RowLine(rows[0])
  {
    RowLinesAppend(rows[..1], rows[1..]);
    assert rows == rows[..1] + rows[1..];
  }

  /** As written, after two batches that go through the small PDF file
      holds the first batch's rows twice, then the second batch's. */
  lemma AsWrittenTwoBatches(classify: Classifier, b1: Delivery.ExportFile, b2: Delivery.ExportFile)
    requires BatchOk(classify, b1) && BatchOk(classify, b2)
    ensures Process(classify, [b1, b2], false).files.smallPdf
      == RowLines(BatchRows(classify, b1).smallPdf) + RowLines(BatchRows(classify, b1).smallPdf)
         + RowLines(BatchRows(classify, b2).smallPdf)
  {
    var first := BatchRows(classify, b1);
    OneBatch(classify, b1);
    var one := Process(classify, [b1], false);
    ProcessStep(classify, [b1], b2, false);
    assert [b1] + [b2] == [b1, b2];
    WrittenConcat(one.files, first, BatchRows(classify, b2));
  }

  /** A first batch that goes through writes exactly its own rows. */
  lemma OneBatch(classify: Classifier, b: Delivery.ExportFile)
    requires BatchOk(classify, b)
    ensures Process(classify, [b], false).error.None?
    ensures Process(classify, [b], false).groups == BatchRows(classify, b)
    ensures Process(classify, [b], false).files.smallPdf == RowLines(BatchRows(classify, b).smallPdf)
  {
    ProcessStep(classify, [], b, false);
    assert [] + [b] == [b];
  }

  /** So a small document listed by the first batch is written twice. */
  lemma AsWrittenDuplicates(classify: Classifier, b1: Delivery.ExportFile, b2: Delivery.ExportFile)
    requires BatchOk(classify, b1) && BatchOk(classify, b2) && BatchRows(classify, b1).smallPdf != []
    ensures var out := Process(classify, [b1, b2], false).files.smallPdf;
      var row := RowLine(BatchRows(classify, b1).smallPdf[0]);
      exists i, j :: 0 <= i < j < |out| && out[i] == row && out[j] == row
  {
    var first := BatchRows(classify, b1).smallPdf;
    AsWrittenTwoBatches(classify, b1, b2);
    RowLinesFirst(first);
    var out := Process(classify, [b1, b2], false).files.smallPdf;
    assert out[0] == RowLine(first[0]);
    assert out[|first|] == RowLine(first[0]);
  }

  /** With the lists reset per batch, the files hold each document's row
      exactly once, in list order: the rows all the lines contribute. */
  lemma {:induction false} ResetWritesOnce(classify: Classifier, batches: seq<Delivery.ExportFile>)
    requires Process(classify, batches, true).error.None?
    ensures Process(classify, batches, true).files == FilesOf(Contributed(classify, Delivery.ListedLines(batches)))
  {
    if batches != [] {
      var init := batches[..|batches| - 1];
      var b := batches[|batches| - 1];
      ProcessWentThrough(classify, batches, true);
      ResetWritesOnce(classify, init);
      ResetStep(classify, init, b);
      assert init + [b] == batches;
      var prev := Delivery.ListedLines(init);
      var here := Delivery.FolderLines(Dirname(b.path), b.lines);
      assert Delivery.ListedLines(batches) == prev + here;
      ContributedAppend(classify, prev, here);
      WrittenAfter(Contributed(classify, prev), Contributed(classify, here));
    }
  }

  /** The files holding exactly the rows of some groups. */
  function FilesOf(g: Groups): Files {
    Files(RowLines(g.smallPdf), RowLines(g.smallMpt), RowLines(g.largePdf), RowLines(g.largeMpt))
  }

  lemma WrittenAfter(g: Groups, h: Groups)
    ensures Written(FilesOf(g), h) == FilesOf(Concat(g, h))
  {
    RowLinesAppend(g.smallPdf, h.smallPdf);
    RowLinesAppend(g.smallMpt, h.smallMpt);
    RowLinesAppend(g.largePdf, h.largePdf);
    RowLinesAppend(g.largeMpt, h.largeMpt);
  }

  /** With `reset`, a batch that goes through writes exactly its own rows. */
  lemma ResetStep(classify: Classifier, batches: seq<Delivery.ExportFile>, b: Delivery.ExportFile)
    requires Process(classify, batches, true).error.None? && BatchOk(classify, b)
    ensures Process(classify, batches + [b], true).error.None?
    ensures Process(classify, batches + [b], true).files == Written(Process(classify, batches, true).files, BatchRows(classify, b))
  {
    ProcessStep(classify, batches, b, true);
    assert Concat(NoGroups, BatchRows(classify, b)) == BatchRows(classify, b);
  }

  /** A run that goes through met no missing file in any batch... */
  lemma {:induction false} ProcessSucceeded(classify: Classifier, batches: seq<Delivery.ExportFile>, reset: bool, i: nat)
    requires Process(classify, batches, reset).error.None? && i < |batches|
    ensures BatchOk(classify, batches[i])
  {
    ProcessWentThrough(classify, batches, reset);
    if i < |batches| - 1 {
      ProcessSucceeded(classify, batches[..|batches| - 1], reset, i);
    }
  }

  /** ...and a run whose batches all go through goes through. */
  lemma {:induction false} ProcessSucceeds(classify: Classifier, batches: seq<Delivery.ExportFile>, reset: bool)
    requires forall i :: 0 <= i < |batches| ==> BatchOk(classify, batches[i])
    ensures Process(classify, batches, reset).error.None?
  {
    if batches != [] {
      var init := batches[..|batches| - 1];
      ProcessSucceeds(classify, init, reset);
      ProcessLast(classify, batches, reset);
    }
  }

  /** A list goes through only when every one of its lines does. */
  lemma {:induction false} AddLinesSucceeds(classify: Classifier, folder: string, lines: seq<string>, g: Groups)
    requires AddLines(classify, folder, lines, g).Ok?
    ensures forall k :: 0 <= k < |lines| ==> classify((folder, lines[k])).Ok?
  {
    if lines != [] {
      var init := lines[..|lines| - 1];
      AddLinesSucceeds(classify, folder, init, g);
      assert forall k :: 0 <= k < |init| ==> init[k] == lines[k];
    }
  }

  /** Once a batch fails, later batches change nothing. */
  lemma {:induction false} ErrorStops(classify: Classifier, batches: seq<Delivery.ExportFile>, more: seq<Delivery.ExportFile>, reset: bool)
    requires Process(classify, batches, reset).error.Some?
    ensures Process(classify, batches + more, reset) == Process(classify, batches, reset)
  {
    if more != [] {
      ErrorStops(classify, batches, more[..|more| - 1], reset);
      assert (batches + more)[..|batches + more| - 1] == batches + more[..|more| - 1];
    } else {
      assert batches + more == batches;
    }
  }

  // ---------------------------------------------------------------------------
  // The script
  // ---------------------------------------------------------------------------

  /** The script as written: the four lists live across the batches. */
  method Run(classify: Classifier, batches: seq<Delivery.ExportFile>) returns (s: State)
    ensures s == Process(classify, batches, false)
  {
    var groups := NoGroups;
    var files := Files([], [], [], []);
    for i := 0 to |batches|
      invariant Process(classify, batches[..i], false) == State(groups, files, None)
    {
      assert batches[..i + 1][..i] == batches[..i];
      var r := Batch(classify, Dirname(batches[i].path), batches[i].lines, groups);
      if r.Err? {
        s := State(groups, files, Some(r.error));
        assert s == Process(classify, batches[..i + 1], false);
        ErrorStops(classify, batches[..i + 1], batches[i + 1..], false);
        assert batches[..i + 1] + batches[i + 1..] == batches;
        return;
      }
      groups := r.value;
      var smallPdf := AppendRows(files.smallPdf, groups.smallPdf);
      var smallMpt := AppendRows(files.smallMpt, groups.smallMpt);
      var largePdf := AppendRows(files.largePdf, groups.largePdf);
      var largeMpt := AppendRows(files.largeMpt, groups.largeMpt);
      files := Files(smallPdf, smallMpt, largePdf, largeMpt);
    }
    assert batches[..|batches|] == batches;
    s := State(groups, files, None);
  }

  /** The loop over one list's lines. */
  method Batch(classify: Classifier, folder: string, lines: seq<string>, start: Groups) returns (r: Result<Groups>)
    ensures r == AddLines(classify, folder, lines, start)
  {
    var g := start;
    for j := 0 to |lines|
      invariant AddLines(classify, folder, lines[..j], start) == Ok(g)
    {
      assert lines[..j + 1][..j] == lines[..j];
      var c := classify((folder, lines[j]));
      if c.Err? {
        AddLinesStops(classify, folder, lines, start, j + 1);
        return Err(c.error);
      }
      if c.value.Some? {
        var x := c.value.value;
        if x.large {
          g := g.(largePdf := g.largePdf + [x.pdfRow], largeMpt := g.largeMpt + [x.mptRow]);
        } else {
          g := g.(smallPdf := g.smallPdf + [x.pdfRow], smallMpt := g.smallMpt + [x.mptRow]);
        }
      }
    }
    assert lines[..|lines|] == lines;
    r := Ok(g);
  }

  /** A failing prefix of a list's lines fails the whole list the same way. */
  lemma {:induction false} AddLinesStops(classify: Classifier, folder: string, lines: seq<string>, g: Groups, n: nat)
    requires n <= |lines| && AddLines(classify, folder, lines[..n], g).Err?
    ensures AddLines(classify, folder, lines, g) == AddLines(classify, folder, lines[..n], g)
    decreases |lines| - n
  {
    if n < |lines| {
      assert lines[..n + 1][..n] == lines[..n];
      AddLinesStops(classify, folder, lines, g, n + 1);
    } else {
      assert lines[..n] == lines;
    }
  }

  /** The writes of one file: each row's line appended. */
  method AppendRows(out: seq<string>, rows: seq<Row>) returns (written: seq<string>)
    ensures written == out + RowLines(rows)
  {
    written := out;
    for i := 0 to |rows|
      invariant written == out + RowLines(rows[..i])
    {
      assert rows[..i + 1][..i] == rows[..i];
      written := written + [RowLine(rows[i])];
    }
    assert rows[..|rows|] == rows;
  }
}
