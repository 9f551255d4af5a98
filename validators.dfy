/** The two filename validators run over a comma-separated text file. Each
    line is stripped and split on `,` and its cells are judged as they
    stand (they are not trimmed). A line with too few cells raises
    `IndexError`, which ends the run. */
module Validators {
  import opened Outcomes
  import opened Text
  import opened Reports

  // ---------------------------------------------------------------------------
  // ER references and file names
  // ---------------------------------------------------------------------------

  predicate ValidRef(item: string) {
    |item| == 7
  }

  /** The text before the first `.` has seven characters. */
  predicate ValidFilename(item: string) {
    |Split(item, '.')[0]| == 7
  }

  /** A file name is valid exactly when its first `.` (or its end, without
      one) comes at position 7. */
  lemma ValidFilenameIff(item: string, i: nat)
    requires i <= |item| && '.' !in item[..i]
    requires i == |item| || item[i] == '.'
    ensures ValidFilename(item) <==> i == 7
  {
    SplitFirstPiece(item, '.');
    var p := Split(item, '.')[0];
    assert forall k :: 0 <= k < |p| ==> item[k] == p[k] != '.';
    assert forall k :: 0 <= k < i ==> item[k] == item[..i][k] != '.';
  }

  /** What one line prints: the reference and the file name are checked
      independently, so a line can print both messages. */
  function ErMessages(ref: string, filename: string): (m: seq<string>)
  {
    (if ValidRef(ref) then [] else ["Invalid item: " + ref])
    + (if ValidFilename(filename) then [] else ["Check filename: " + filename])
  }

  /** The reference is the second cell and the file name the third. */
  function ErLine(line: string): (r: Result<seq<string>>)
  {
    var items := CommaFields(line);
    if |items| < 3 then Err(IndexError) else Ok(ErMessages(items[1], items[2]))
  }

  function ValidateEr(lines: seq<string>): Report {
    Scan(ErLine, lines)
  }

  /** A line raises exactly when it has fewer than three cells; otherwise
      it complains about the reference exactly when that is not seven
      characters long, and about the file name exactly when that is not
      valid, each on its own. */
  lemma ErLineMessages(line: string)
    ensures ErLine(line).Err? <==> |CommaFields(line)| < 3
    ensures ErLine(line).Ok? ==>
      var items := CommaFields(line);
      var m := ErLine(line).value;
      |m| <= 2
      && (("Invalid item: " + items[1]) in m <==> !ValidRef(items[1]))
      && (("Check filename: " + items[2]) in m <==> !ValidFilename(items[2]))
  {
    var items := CommaFields(line);
    if |items| >= 3 {
      var a := "Invalid item: " + items[1];
      var b := "Check filename: " + items[2];
      assert a[0] == 'I' && b[0] == 'C';
    }
  }

  /** A line of three cells is judged on its second and third cell exactly
      as they are written, spaces included. */
  lemma {:induction false} ErLineOfCells(first: string, ref: string, filename: string)
    requires ',' !in first && ',' !in ref && ',' !in filename
    requires Strip(first + [','] + ref + [','] + filename) == first + [','] + ref + [','] + filename
    ensures ErLine(first + [','] + ref + [','] + filename) == Ok(ErMessages(ref, filename))
  {
    var line := first + [','] + ref + [','] + filename;
    var rest := ref + [','] + filename;
    assert line == first + [','] + rest;
    SplitAtSeparator(first, ',', rest);
    SplitAtSeparator(ref, ',', filename);
    SplitWithoutSeparator(filename, ',');
    assert CommaFields(line) == [first, ref, filename];
  }

  /** No line is compared with another: a file printed twice prints its
      messages twice. */
  lemma ErRepeated(lines: seq<string>)
    requires ValidateEr(lines).error.None?
    ensures ValidateEr(lines + lines) == Report(ValidateEr(lines).printed + ValidateEr(lines).printed, None)
  {
    ScanAppend(ErLine, lines, lines);
  }

  // ---------------------------------------------------------------------------
  // ASI items
  // ---------------------------------------------------------------------------

  predicate ValidAsi(item: string) {
    |item| == 13
  }

  /** The item is the second cell; only an invalid one is printed. */
  function AsiLine(line: string): (r: Result<seq<string>>)
  {
    var items := CommaFields(line);
    if |items| < 2 then Err(IndexError)
    else if ValidAsi(items[1]) then Ok([])
    else Ok(["Invalid item: " + items[1]])
  }

  function ValidateAsi(lines: seq<string>): Report {
    Scan(AsiLine, lines)
  }

  /** A line of two cells prints exactly when its second cell, as written,
      is not thirteen characters long. */
  lemma {:induction false} AsiLineOfCells(first: string, item: string)
    requires ',' !in first && ',' !in item
    requires Strip(first + [','] + item) == first + [','] + item
    ensures AsiLine(first + [','] + item).Ok?
    ensures AsiLine(first + [','] + item).value == [] <==> |item| == 13
    ensures |item| != 13 ==> AsiLine(first + [','] + item).value == ["Invalid item: " + item]
  {
    SplitAtSeparator(first, ',', item);
    SplitWithoutSeparator(item, ',');
  }

  /** A file validates without an exception exactly when every line has at
      least two cells. */
  lemma {:induction false} AsiCompletes(lines: seq<string>)
    ensures ValidateAsi(lines).error.None? <==> forall j :: 0 <= j < |lines| ==> |CommaFields(lines[j])| >= 2
  {
    ScanCompletes(AsiLine, lines);
  }
}
