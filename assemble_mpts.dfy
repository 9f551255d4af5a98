/** The MPT assembler: reads `Small_File_List.csv`, then
    `Large_File_List.csv`, and copies each row's multipage TIFF into
    numbered delivery folders `<select>/MPTs_<kind>_<n>`, each with an
    `IMAGES/0001` image folder and an `APP_SPEC/XFERDATA/CDDOC.DAT` index.

    The folder budget is the PDF assembler's (the running KB total times
    1024 against 30 GiB, checked before a row is read), but here the entry
    list is never cleared: every `CDDOC.DAT` written at a rollover lists
    every row read so far, and the last one lists all of them. */
module AssembleMpts {
  import opened Outcomes
  import opened Text
  import Paths
  import Pdfs = AssemblePdfs
  import Delivery = DeliverySizeSplitter

  // ---------------------------------------------------------------------------
  // One row of a file list
  // ---------------------------------------------------------------------------

  datatype MptRow = MptRow(ref: string, source: string, file: string, mptSize: real)

  /** The list's Filepath column names the PDF; the TIFF is found by
      replacing every `.pdf` with `.tif`, then every `_pdf` with `_mpt`. */
  function SourcePath(cell: string): string {
    Replace(Replace(Strip(cell), ".pdf", ".tif"), "_pdf", "_mpt")
  }

  /** A row: at least six cells, else a `ValueError`; the MPT size column
      must read as a number (`float(...)`). The PDF size column is not read. */
  function ParseRow(line: string): Result<MptRow> {
    var cells := Split(Strip(line), ',');
    if |cells| < 6 then Err(ValueError("Invalid line"))
    else
      var source := SourcePath(cells[3]);
      match ParseDecimal(Strip(cells[4]))
      case None => Err(ValueError("could not convert string to float"))
      case Some(mpt) => Ok(MptRow(Strip(cells[1]), source, Paths.Basename(source), mpt))
  }

  function Parser(): string -> Result<MptRow> {
    line => ParseRow(line)
  }

  /** A row is accepted exactly when it has six cells and its fifth is a
      number, whatever the sixth holds; every failure is a `ValueError`. */
  lemma ParseRowFields(line: string)
    ensures var cells := Split(Strip(line), ',');
      && (ParseRow(line).Ok? <==> |cells| >= 6 && ParseDecimal(Strip(cells[4])).Some?)
      && (ParseRow(line).Err? ==> ParseRow(line).error.ValueError?)
      && (ParseRow(line).Ok? ==>
            var r := ParseRow(line).value;
            && r.ref == Strip(cells[1]) && r.source == SourcePath(cells[3])
            && r.file == Paths.Basename(r.source) && Some(r.mptSize) == ParseDecimal(Strip(cells[4])))
  {
  }

  /** The path the size splitter writes into the Filepath column,
      `<dir>_pdf/<name>.pdf`, leads here to the TIFF it checked,
      `<dir>_mpt/<name>.tif`, provided neither the directory nor the name
      holds a dot or an `_pdf`, and the name is a plain file name. */
  lemma SourceOfPdfPath(folder: string, name: string)
    requires folder == [] || !IsSpace(folder[0])
    requires '.' !in folder && '.' !in name && Paths.Sep !in name
    requires !HasOccurrence(folder, "_pdf") && !HasOccurrence(name, "_pdf")
    ensures SourcePath(Delivery.PdfPath(folder, name)) == Delivery.MptPath(folder, name)
  {
    var rest := [Paths.Sep] + name + ".tif";
    assert (folder + "_pdf")[|folder + "_pdf"| - 1] == 'f';
    assert (folder + "_mpt")[|folder + "_mpt"| - 1] == 't';
    Paths.JoinUnder(folder + "_pdf", name + ".pdf");
    Paths.JoinUnder(folder + "_mpt", name + ".tif");
    Regrouped(folder, "_mpt", name, ".tif");
    StripOfClean(folder + "_pdf" + [Paths.Sep] + (name + ".pdf"));
    ExtensionReplaced(folder, name);
    DirectoryReplaced(folder, name);
  }

  lemma Regrouped(folder: string, dir: string, name: string, ext: string)
    ensures folder + dir + [Paths.Sep] + (name + ext) == folder + (dir + ([Paths.Sep] + name + ext))
  {
  }

  /** The first pass turns the one `.pdf`, at the end, into `.tif`. */
  lemma ExtensionReplaced(folder: string, name: string)
    requires '.' !in folder && '.' !in name
    ensures Replace(folder + "_pdf" + [Paths.Sep] + (name + ".pdf"), ".pdf", ".tif")
              == folder + ("_pdf" + ([Paths.Sep] + name + ".tif"))
  {
    var body := folder + "_pdf" + [Paths.Sep] + name;
    assert '.' !in "_pdf" + [Paths.Sep];
    assert '.' !in body;
    assert folder + "_pdf" + [Paths.Sep] + (name + ".pdf") == body + ".pdf";
    ReplaceSkips(body, ".pdf", ".pdf", ".tif");
    ReplaceAtFront([], ".pdf", ".tif");
    assert ".pdf" + [] == ".pdf";
    Regrouped(folder, "_pdf", name, ".tif");
  }

  /** The second pass turns the one `_pdf`, after the directory, into `_mpt`. */
  lemma DirectoryReplaced(folder: string, name: string)
    requires '.' !in name && !HasOccurrence(folder, "_pdf") && !HasOccurrence(name, "_pdf")
    ensures var rest := [Paths.Sep] + name + ".tif";
      Replace(folder + ("_pdf" + rest), "_pdf", "_mpt") == folder + ("_mpt" + rest)
  {
    var rest := [Paths.Sep] + name + ".tif";
    NoOccurrenceBeforeMarker(folder, "_pdf" + rest);
    ReplaceNone(folder, "_pdf" + rest, "_pdf", "_mpt");
    ReplaceAtFront(rest, "_pdf", "_mpt");
    RestHasNoOccurrence(name);
    ReplaceNone(rest, [], "_pdf", "_mpt");
    assert rest + [] == rest;
  }

  /** No `_pdf` starts inside a text without one that is followed by `_pdf`. */
  lemma NoOccurrenceBeforeMarker(a: string, b: string)
    requires !HasOccurrence(a, "_pdf") && |b| >= 1 && b[0] == '_'
    ensures forall i :: 0 <= i < |a| ==> !StartsWith((a + b)[i..], "_pdf")
  {
    forall i | 0 <= i < |a| ensures !StartsWith((a + b)[i..], "_pdf") {
      if i + 4 <= |a| {
        assert !StartsWith(a[i..], "_pdf");
        assert a[i..][..4] == (a + b)[i..][..4];
      } else if |(a + b)[i..]| >= 4 {
        assert (a + b)[i..][..4][|a| - i] == '_' != "_pdf"[|a| - i];
      }
    }
  }

  /** No `_pdf` starts in `/<name>.tif`. */
  lemma RestHasNoOccurrence(name: string)
    requires '.' !in name && !HasOccurrence(name, "_pdf")
    ensures var rest := [Paths.Sep] + name + ".tif";
      forall i :: 0 <= i < |rest| ==> !StartsWith((rest + [])[i..], "_pdf")
  {
    var rest := [Paths.Sep] + name + ".tif";
    assert rest + [] == rest;
    forall i | 0 <= i < |rest| ensures !StartsWith(rest[i..], "_pdf") {
      if |rest[i..]| >= 4 {
        if i == 0 {
          assert rest[i..][..4][0] == Paths.Sep;
        } else if i + 3 <= |name| {
          assert !StartsWith(name[i - 1..], "_pdf");
          assert name[i - 1..][..4] == rest[i..][..4];
        } else {
          assert rest[i..][..4][|name| + 1 - i] == '.' != "_pdf"[|name| + 1 - i];
        }
      }
    }
  }

  // ---------------------------------------------------------------------------
  // The delivery folder layout
  // ---------------------------------------------------------------------------

  /** `<select>/<base>_<n>`. */
  function FolderPath(select: string, base: string, n: nat): string {
    Paths.Join(select, base + "_" + NatToString(n))
  }

  /** `<folder>/IMAGES/0001`, which holds the TIFFs. */
  function ImagesFolder(select: string, base: string, n: nat): string {
    Paths.Join(Paths.Join(FolderPath(select, base, n), "IMAGES"), "0001")
  }

  /** `<folder>/APP_SPEC/XFERDATA/CDDOC.DAT`. */
  function CddocPath(select: string, base: string, n: nat): string {
    Paths.Join(Paths.Join(Paths.Join(FolderPath(select, base, n), "APP_SPEC"), "XFERDATA"), "CDDOC.DAT")
  }

  // ---------------------------------------------------------------------------
  // CDDOC.DAT
  // ---------------------------------------------------------------------------

  datatype Entry = Entry(ref: string, file: string)

  function Repeat(s: string, k: nat): string {
    if k == 0 then "" else Repeat(s, k - 1) + s
  }

  /** The image field of a `CDDOC.DAT` line, `\IMAGES\0001\<file>`. */
  function ImageField(file: string): string {
    "\\IMAGES\\0001\\" + file
  }

  /** `0001;<ref>;` and nineteen blank fields (` ;` each), then the image
      field and `;TIFF;0;0;0;0;`. */
  function CddocLine(e: Entry): string {
    CddocFields(e) + "\n"
  }

  function CddocFields(e: Entry): string {
    "0001" + ";" + e.ref + ";" + Repeat(" ;", 19) + ImageField(e.file) + ";" + "TIFF;0;0;0;0;"
  }

  function CddocLines(entries: seq<Entry>): (r: seq<string>)
    ensures |r| == |entries|
    ensures forall k :: 0 <= k < |entries| ==> r[k] == CddocLine(entries[k])
  {
    if entries == [] then [] else CddocLines(entries[..|entries| - 1]) + [CddocLine(entries[|entries| - 1])]
  }

  /** `k` fields holding one space each. */
  function Spaces(k: nat): (r: seq<string>)
    ensures |r| == k && forall i :: 0 <= i < k ==> r[i] == " "
  {
    if k == 0 then [] else Spaces(k - 1) + [" "]
  }

  /** The blank fields split into single spaces. */
  lemma {:induction false} SplitBlanks(k: nat, b: string)
    ensures Split(Repeat(" ;", k) + b, ';') == Spaces(k) + Split(b, ';')
  {
    if k == 0 {
      assert Repeat(" ;", k) + b == b;
    } else {
      assert Repeat(" ;", k) + b == Repeat(" ;", k - 1) + (" ;" + b);
      SplitBlanks(k - 1, " ;" + b);
      assert " ;" + b == " " + [';'] + b;
      SplitAtSeparator(" ", ';', b);
      assert Spaces(k - 1) + ([" "] + Split(b, ';')) == (Spaces(k - 1) + [" "]) + Split(b, ';');
    }
  }

  /** Split on `;`, a `CDDOC.DAT` line has the number `0001`, the reference,
      nineteen blank fields and then the image field, at index 21. */
  lemma CddocLineFields(e: Entry)
    requires ';' !in e.ref && ';' !in e.file
    ensures var line := CddocLine(e);
      var row := Split(line[..|line| - 1], ';');
      |row| >= 22 && row[0] == "0001" && row[1] == e.ref && row[21] == ImageField(e.file)
      && forall i :: 2 <= i < 21 ==> row[i] == " "
  {
    var line := CddocLine(e);
    assert line[..|line| - 1] == CddocFields(e);
    var after := ImageField(e.file) + [';'] + "TIFF;0;0;0;0;";
    FieldsGrouped(e);
    SplitAtSeparator("0001", ';', e.ref + [';'] + (Repeat(" ;", 19) + after));
    SplitAtSeparator(e.ref, ';', Repeat(" ;", 19) + after);
    SplitBlanks(19, after);
    SplitAtSeparator(ImageField(e.file), ';', "TIFF;0;0;0;0;");
  }

  lemma FieldsGrouped(e: Entry)
    ensures CddocFields(e)
      == "0001" + [';'] + (e.ref + [';'] + (Repeat(" ;", 19) + (ImageField(e.file) + [';'] + "TIFF;0;0;0;0;")))
  {
  }

  /** Where a list's folders go: the index file and the image folder of
      folder `n`. */
  datatype Layout = Layout(cddoc: nat -> string, images: nat -> string)

  function LayoutOf(select: string, base: string): Layout {
    Layout((n: nat) => CddocPath(select, base, n), (n: nat) => ImagesFolder(select, base, n))
  }

  // ---------------------------------------------------------------------------
  // The state of one list's loop
  // ---------------------------------------------------------------------------

  /** The loop's variables (`<kind>_delivery_folder_count`, `<kind>_files`,
      `total_<kind>_size`, `<kind>_files_count`), the file system, the
      `CDDOC.DAT` files created empty, the copies made, and the `CDDOC.DAT`
      contents written, in order. */
  datatype Assembly = Assembly(folderNo: nat, entries: seq<Entry>, total: real, count: nat,
                               existing: set<string>, created: seq<string>, copies: seq<Pdfs.Copy>,
                               cddocs: seq<IndexWrite>)

  /** A write of a `CDDOC.DAT`: its path, and the entries whose lines
      (`CddocLines`) it then holds. */
  datatype IndexWrite = IndexWrite(path: string, entries: seq<Entry>)

  datatype Run = Run(state: Assembly, error: Option<Error>)

  /** `create_mpt_delivery_folder_structure`: the index file is created
      empty only when it is absent. */
  function Create(layout: Layout, s: Assembly): (r: Assembly)
    ensures layout.cddoc(s.folderNo) in r.existing
  {
    var c := layout.cddoc(s.folderNo);
    if c in s.existing then s else s.(existing := s.existing + {c}, created := s.created + [c])
  }

  /** Creating the structure again changes nothing; the first time adds
      just the index file, and creates it only if it was absent. */
  lemma CreateIdempotent(layout: Layout, s: Assembly)
    ensures Create(layout, Create(layout, s)) == Create(layout, s)
    ensures var c := layout.cddoc(s.folderNo);
      && Create(layout, s).existing == s.existing + {c}
      && Create(layout, s).created == s.created + (if c in s.existing then [] else [c])
      && Create(layout, s).(existing := s.existing, created := s.created) == s
  {
  }

  /** Folder 1 of a list, its structure created. */
  function Start(layout: Layout, existing: set<string>): Assembly {
    Create(layout, Assembly(1, [], 0.0, 0, existing, [], [], []))
  }

  /** A rollover: the current index is written with every entry so far, the
      next folder's structure is created and the total resets. */
  function Rollover(layout: Layout, s: Assembly): Assembly {
    var written := s.(cddocs := s.cddocs + [IndexWrite(layout.cddoc(s.folderNo), s.entries)]);
    Create(layout, written.(folderNo := s.folderNo + 1, total := 0.0))
  }

  function Place(t: Assembly, r: MptRow, copies: seq<Pdfs.Copy>): Assembly {
    t.(entries := t.entries + [Entry(r.ref, r.file)], total := t.total + r.mptSize, count := t.count + 1,
       copies := t.copies + copies)
  }

  /** One line: a header line (`Batch...`) is skipped; otherwise a rollover
      happens if the current folder is over budget, then the row is parsed,
      its TIFF copied unless `IMAGES/0001` already holds a file of that
      name, and the entry added. */
  function Step(parse: string -> Result<MptRow>, layout: Layout, s: Assembly, line: string): Run {
    if StartsWith(line, "Batch") then Run(s, None)
    else
      var t := if Pdfs.OverBudget(s.total) then Rollover(layout, s) else s;
      match parse(line)
      case Err(e) => Run(t, Some(e))
      case Ok(r) =>
        var dest := Paths.Join(layout.images(t.folderNo), r.file);
        if dest in t.existing then Run(Place(t, r, []), None)
        else if r.source !in t.existing then Run(t, Some(CopyFailed(r.source)))
        else Run(Place(t.(existing := t.existing + {dest}), r, [Pdfs.Copy(r.source, dest)]), None)
  }

  /** The loop over one list; an exception ends it. */
  function Assemble(parse: string -> Result<MptRow>, layout: Layout, s: Assembly, lines: seq<string>): Run {
    if lines == [] then Run(s, None)
    else
      var before := Assemble(parse, layout, s, lines[..|lines| - 1]);
      if before.error.Some? then before else Step(parse, layout, before.state, lines[|lines| - 1])
  }

  /** After the loop, the last folder's index is written with every entry. */
  function Finish(layout: Layout, s: Assembly): Assembly {
    s.(cddocs := s.cddocs + [IndexWrite(layout.cddoc(s.folderNo), s.entries)])
  }

  // ---------------------------------------------------------------------------
  // What a step does
  // ---------------------------------------------------------------------------

  /** A header line changes nothing. */
  lemma HeaderSkipped(parse: string -> Result<MptRow>, layout: Layout, s: Assembly, line: string)
    requires StartsWith(line, "Batch")
    ensures Step(parse, layout, s, line) == Run(s, None)
  {
  }

  /** The budget is checked before the row is parsed: when the folder is
      over budget its index is written with every entry so far and the next
      folder opens, even if the row then fails. */
  lemma RolloverWritesAll(parse: string -> Result<MptRow>, layout: Layout, s: Assembly, line: string)
    requires !StartsWith(line, "Batch") && Pdfs.OverBudget(s.total)
    ensures var t := Step(parse, layout, s, line).state;
      && t.folderNo == s.folderNo + 1
      && t.cddocs == s.cddocs + [IndexWrite(layout.cddoc(s.folderNo), s.entries)]
      && layout.cddoc(s.folderNo + 1) in t.existing
      && s.entries <= t.entries
  {
  }

  /** A parsed row is added to the entries, which are never cleared; its
      TIFF is copied exactly when `IMAGES/0001` holds no file of that name,
      and the copy then needs the source. */
  lemma StepAddsEntry(parse: string -> Result<MptRow>, layout: Layout, s: Assembly, line: string)
    requires !StartsWith(line, "Batch") && parse(line).Ok?
    ensures var t := Step(parse, layout, s, line);
      var rolled := Pdfs.OverBudget(s.total);
      var n := if rolled then s.folderNo + 1 else s.folderNo;
      var r := parse(line).value;
      var dest := Paths.Join(layout.images(n), r.file);
      var had := if rolled then Rollover(layout, s).existing else s.existing;
      && (dest in had || r.source in had ==>
            && t.error.None? && t.state.folderNo == n
            && t.state.entries == s.entries + [Entry(r.ref, r.file)]
            && t.state.total == (if rolled then 0.0 else s.total) + r.mptSize
            && t.state.count == s.count + 1)
      && (dest in had ==> t.state.copies == s.copies && t.state.existing == had)
      && (dest !in had && r.source !in had ==> t.error == Some(CopyFailed(r.source)))
      && (dest !in had && r.source in had ==>
            t.state.copies == s.copies + [Pdfs.Copy(r.source, dest)] && t.state.existing == had + {dest})
  {
  }

  // ---------------------------------------------------------------------------
  // The indexes are cumulative
  // ---------------------------------------------------------------------------

  /** The entries of the rows of `lines`: one per non-header line. */
  function EntriesOf(parse: string -> Result<MptRow>, lines: seq<string>): seq<Entry> {
    if lines == [] then []
    else
      var last := lines[|lines| - 1];
      EntriesOf(parse, lines[..|lines| - 1])
        + (if StartsWith(last, "Batch") || parse(last).Err? then [] else [Entry(parse(last).value.ref, parse(last).value.file)])
  }

  /** What holds after every line of a list that went through: one index
      was written per folder left behind, in folder order, each listing the
      first so many entries, as many as were read before its rollover; the
      current folder's index exists; the count is the number of entries. */
  predicate Cumulative(layout: Layout, s: Assembly) {
    && s.folderNo >= 1
    && s.count == |s.entries|
    && |s.cddocs| == s.folderNo - 1
    && layout.cddoc(s.folderNo) in s.existing
    && (forall k :: 0 <= k < |s.cddocs| ==> s.cddocs[k].path == layout.cddoc(k + 1))
    && (forall k :: 0 <= k < |s.cddocs| ==> s.cddocs[k].entries <= s.entries)
    && (forall k :: 0 < k < |s.cddocs| ==> s.cddocs[k - 1].entries <= s.cddocs[k].entries)
  }

  lemma StartCumulative(layout: Layout, existing: set<string>)
    ensures Cumulative(layout, Start(layout, existing))
  {
  }

  lemma RolloverCumulative(layout: Layout, s: Assembly)
    requires Cumulative(layout, s)
    ensures Cumulative(layout, Rollover(layout, s))
    ensures Rollover(layout, s).entries == s.entries
  {
    assert s.entries[..|s.entries|] == s.entries;
  }

  lemma PlaceCumulative(layout: Layout, t: Assembly, r: MptRow, copies: seq<Pdfs.Copy>, dest: string)
    requires Cumulative(layout, t)
    ensures Cumulative(layout, Place(t.(existing := t.existing + {dest}), r, copies))
    ensures Cumulative(layout, Place(t, r, copies))
  {
  }

  /** A line that goes through keeps the invariant and adds its entry. */
  lemma StepCumulative(parse: string -> Result<MptRow>, layout: Layout, s: Assembly, line: string)
    requires Cumulative(layout, s) && Step(parse, layout, s, line).error.None?
    ensures Cumulative(layout, Step(parse, layout, s, line).state)
    ensures Step(parse, layout, s, line).state.entries
              == s.entries + (if StartsWith(line, "Batch") then [] else [Entry(parse(line).value.ref, parse(line).value.file)])
  {
    if !StartsWith(line, "Batch") {
      var t := if Pdfs.OverBudget(s.total) then Rollover(layout, s) else s;
      if Pdfs.OverBudget(s.total) {
        RolloverCumulative(layout, s);
      }
      var r := parse(line).value;
      var dest := Paths.Join(layout.images(t.folderNo), r.file);
      PlaceCumulative(layout, t, r, [], dest);
      PlaceCumulative(layout, t, r, [Pdfs.Copy(r.source, dest)], dest);
    }
  }

  /** A list that goes through keeps the invariant, and its entries are
      those it started with followed by one per row of the list. */
  lemma {:induction false} AssembleCumulative(parse: string -> Result<MptRow>, layout: Layout, s: Assembly, lines: seq<string>)
    requires Cumulative(layout, s) && Assemble(parse, layout, s, lines).error.None?
    ensures Cumulative(layout, Assemble(parse, layout, s, lines).state)
    ensures Assemble(parse, layout, s, lines).state.entries == s.entries + EntriesOf(parse, lines)
  {
    if lines != [] {
      var init := lines[..|lines| - 1];
      AssembleCumulative(parse, layout, s, init);
      StepCumulative(parse, layout, Assemble(parse, layout, s, init).state, lines[|lines| - 1]);
    }
  }

  /** An index written from a prefix of the entries is a prefix of the
      index written from all of them. */
  lemma CddocLinesPrefix(entries: seq<Entry>, m: nat)
    requires m <= |entries|
    ensures CddocLines(entries[..m]) <= CddocLines(entries)
  {
    assert forall j :: 0 <= j < m ==> entries[..m][j] == entries[j];
  }

  /** After the loop, the last index lists every entry, and each index
      written before lists a prefix of them. */
  lemma FinishListsAll(layout: Layout, s: Assembly)
    requires Cumulative(layout, s)
    ensures var f := Finish(layout, s);
      && |f.cddocs| == f.folderNo
      && f.cddocs[|f.cddocs| - 1] == IndexWrite(layout.cddoc(f.folderNo), s.entries)
      && (forall k :: 0 <= k < |f.cddocs| ==> f.cddocs[k].path == layout.cddoc(k + 1))
      && (forall k :: 0 <= k < |f.cddocs| ==> f.cddocs[k].entries <= s.entries)
      && (forall k :: 0 < k < |f.cddocs| ==> f.cddocs[k - 1].entries <= f.cddocs[k].entries)
  {
  }

  /** A list that goes through from folder 1 ends with the invariant and
      with one entry per row. */
  lemma ListCumulative(parse: string -> Result<MptRow>, layout: Layout, start: Assembly, lines: seq<string>)
    requires Cumulative(layout, start) && start.entries == []
    requires Assemble(parse, layout, start, lines).error.None?
    ensures Cumulative(layout, Assemble(parse, layout, start, lines).state)
    ensures Assemble(parse, layout, start, lines).state.entries == EntriesOf(parse, lines)
  {
    AssembleCumulative(parse, layout, start, lines);
  }

  // ---------------------------------------------------------------------------
  // The script
  // ---------------------------------------------------------------------------

  /** Each list's run, its last index written when it went through. The
      large list is not reached when the small one fails. */
  datatype MptDelivery = MptDelivery(small: Run, large: Option<Run>)

  const SmallBase := "MPTs_small"
  const LargeBase := "MPTs_large"

  /** The script over the rows parsed by `parse` and folders laid out by
      `smallAt` and `largeAt`. The small list's folder 1 is created twice,
      once before the list is opened and once after, which the second time
      changes nothing. */
  function Deliver(parse: string -> Result<MptRow>, smallAt: Layout, largeAt: Layout,
                   small: seq<string>, large: seq<string>, existing: set<string>): MptDelivery {
    var s0 := Create(smallAt, Start(smallAt, existing));
    var sr := Assemble(parse, smallAt, s0, small);
    if sr.error.Some? then MptDelivery(sr, None)
    else
      var lr := Assemble(parse, largeAt, Start(largeAt, sr.state.existing), large);
      MptDelivery(Run(Finish(smallAt, sr.state), None),
                  Some(if lr.error.Some? then lr else Run(Finish(largeAt, lr.state), None)))
  }

  /** When both lists go through, each list's last index lists every row of
      that list; the earlier ones, one per folder in order, list ever longer
      prefixes of those rows. */
  lemma DeliverListsAll(parse: string -> Result<MptRow>, smallAt: Layout, largeAt: Layout,
                        small: seq<string>, large: seq<string>, existing: set<string>)
    requires Deliver(parse, smallAt, largeAt, small, large, existing).large.Some?
    requires Deliver(parse, smallAt, largeAt, small, large, existing).large.value.error.None?
    ensures var d := Deliver(parse, smallAt, largeAt, small, large, existing);
      && Indexed(d.small.state.cddocs, smallAt, EntriesOf(parse, small))
      && Indexed(d.large.value.state.cddocs, largeAt, EntriesOf(parse, large))
  {
    var s0 := Create(smallAt, Start(smallAt, existing));
    StartCumulative(smallAt, existing);
    CreateIdempotent(smallAt, Assembly(1, [], 0.0, 0, existing, [], [], []));
    ListIndexed(parse, smallAt, s0, small);
    var sr := Assemble(parse, smallAt, s0, small);
    StartCumulative(largeAt, sr.state.existing);
    ListIndexed(parse, largeAt, Start(largeAt, sr.state.existing), large);
  }

  /** A list that goes through from folder 1 ends, once its last index is
      written, with its index writes `Indexed` by its rows. */
  lemma ListIndexed(parse: string -> Result<MptRow>, layout: Layout, start: Assembly, lines: seq<string>)
    requires Cumulative(layout, start) && start.entries == []
    requires Assemble(parse, layout, start, lines).error.None?
    ensures Indexed(Finish(layout, Assemble(parse, layout, start, lines).state).cddocs, layout, EntriesOf(parse, lines))
  {
    ListCumulative(parse, layout, start, lines);
    FinishListsAll(layout, Assemble(parse, layout, start, lines).state);
  }

  /** The index writes of a list: one per folder, in folder order, the last
      listing `all`, each earlier one a prefix of the next. */
  predicate Indexed(cddocs: seq<IndexWrite>, layout: Layout, all: seq<Entry>) {
    && |cddocs| >= 1
    && cddocs[|cddocs| - 1].entries == all
    && (forall k :: 0 <= k < |cddocs| ==> cddocs[k].path == layout.cddoc(k + 1))
    && (forall k :: 0 < k < |cddocs| ==> cddocs[k - 1].entries <= cddocs[k].entries)
  }

  /** Each index written holds the lines of a prefix of the last one's. */
  lemma IndexedLines(cddocs: seq<IndexWrite>, layout: Layout, all: seq<Entry>, k: nat)
    requires Indexed(cddocs, layout, all) && k < |cddocs|
    ensures CddocLines(cddocs[k].entries) <= CddocLines(all)
    decreases |cddocs| - k
  {
    if k < |cddocs| - 1 {
      IndexedLines(cddocs, layout, all, k + 1);
      CddocLinesPrefix(cddocs[k + 1].entries, |cddocs[k].entries|);
      assert cddocs[k + 1].entries[..|cddocs[k].entries|] == cddocs[k].entries;
    }
  }

  /** The loop over one list. */
  method AssembleList(parse: string -> Result<MptRow>, layout: Layout, start: Assembly, lines: seq<string>)
    returns (run: Run)
    ensures run == Assemble(parse, layout, start, lines)
  {
    var s := start;
    for i := 0 to |lines|
      invariant Assemble(parse, layout, start, lines[..i]) == Run(s, None)
    {
      assert lines[..i + 1][..i] == lines[..i];
      var step := StepOnce(parse, layout, s, lines[i]);
      if step.error.Some? {
        AssembleStops(parse, layout, start, lines, i + 1);
        return step;
      }
      s := step.state;
    }
    assert lines[..|lines|] == lines;
    run := Run(s, None);
  }

  /** One line, as the loop body does it. */
  method StepOnce(parse: string -> Result<MptRow>, layout: Layout, s: Assembly, line: string)
    returns (run: Run)
    ensures run == Step(parse, layout, s, line)
  {
    if StartsWith(line, "Batch") {
      return Run(s, None);
    }
    var t := s;
    if Pdfs.OverBudget(t.total) {
      t := t.(cddocs := t.cddocs + [IndexWrite(layout.cddoc(t.folderNo), t.entries)]);
      t := t.(folderNo := t.folderNo + 1, total := 0.0);
      t := Create(layout, t);
    }
    var parsed := parse(line);
    if parsed.Err? {
      return Run(t, Some(parsed.error));
    }
    var r := parsed.value;
    var dest := Paths.Join(layout.images(t.folderNo), r.file);
    if dest !in t.existing {
      if r.source !in t.existing {
        return Run(t, Some(CopyFailed(r.source)));
      }
      run := Run(Place(t.(existing := t.existing + {dest}), r, [Pdfs.Copy(r.source, dest)]), None);
    } else {
      run := Run(Place(t, r, []), None);
    }
  }

  /** An exception part-way ends the whole list the same way. */
  lemma {:induction false} AssembleStops(parse: string -> Result<MptRow>, layout: Layout, s: Assembly, lines: seq<string>, n: nat)
    requires n <= |lines| && Assemble(parse, layout, s, lines[..n]).error.Some?
    ensures Assemble(parse, layout, s, lines) == Assemble(parse, layout, s, lines[..n])
    decreases |lines| - n
  {
    if n < |lines| {
      assert lines[..n + 1][..n] == lines[..n];
      AssembleStops(parse, layout, s, lines, n + 1);
    } else {
      assert lines[..n] == lines;
    }
  }

  /** The script: the small list, then the large one, each index written. */
  method AssembleDelivery(select: string, small: seq<string>, large: seq<string>, existing: set<string>) returns (d: MptDelivery)
    ensures d == Deliver(Parser(), LayoutOf(select, SmallBase), LayoutOf(select, LargeBase), small, large, existing)
  {
    var smallAt := LayoutOf(select, SmallBase);
    var largeAt := LayoutOf(select, LargeBase);
    var s0 := Start(smallAt, existing);
    s0 := Create(smallAt, s0);
    var sr := AssembleList(Parser(), smallAt, s0, small);
    if sr.error.Some? {
      return MptDelivery(sr, None);
    }
    var smallDone := Run(Finish(smallAt, sr.state), None);
    var lr := AssembleList(Parser(), largeAt, Start(largeAt, sr.state.existing), large);
    if lr.error.None? {
      lr := Run(Finish(largeAt, lr.state), None);
    }
    d := MptDelivery(smallDone, Some(lr));
  }
}
