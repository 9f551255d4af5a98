/** The common shape of the console check scripts: read a file line by line, print
    zero or more messages per line, and stop at the first line that raises.
    `Scan` is that loop, over a per-line check that either yields the
    line's messages or fails with the exception it raises. */
module Reports {
  import opened Outcomes

  /** What a run leaves behind: the messages printed, in order, and the
      exception that ended it, if any. */
  datatype Report = Report(printed: seq<string>, error: Option<Error>)

  function Scan(check: string -> Result<seq<string>>, lines: seq<string>): (r: Report)
  {
    if lines == [] then Report([], None)
    else
      var r := Scan(check, lines[..|lines| - 1]);
      if r.error.Some? then r
      else match check(lines[|lines| - 1]) {
        case Err(e) => Report(r.printed, Some(e))
        case Ok(m) => Report(r.printed + m, None)
      }
  }

  /** A run ends without an exception exactly when every line passes the
      check. */
  lemma {:induction false} ScanCompletes(check: string -> Result<seq<string>>, lines: seq<string>)
    ensures Scan(check, lines).error.None? <==> forall j :: 0 <= j < |lines| ==> check(lines[j]).Ok?
  {
    if lines != [] {
      var init := lines[..|lines| - 1];
      ScanCompletes(check, init);
      assert forall j :: 0 <= j < |init| ==> init[j] == lines[j];
    }
  }

  /** The first failing line ends the run: its exception is reported, and
      what was printed is what the lines before it printed. */
  lemma {:induction false} ScanStops(check: string -> Result<seq<string>>, lines: seq<string>, k: nat)
    requires k < |lines| && check(lines[k]).Err?
    requires forall j :: 0 <= j < k ==> check(lines[j]).Ok?
    ensures Scan(check, lines) == Report(Scan(check, lines[..k]).printed, Some(check(lines[k]).error))
  {
    var init := lines[..|lines| - 1];
    if |lines| == k + 1 {
      assert init == lines[..k];
      ScanCompletes(check, init);
    } else {
      assert init[k] == lines[k];
      assert forall j :: 0 <= j < k ==> init[j] == lines[j];
      ScanStops(check, init, k);
      assert init[..k] == lines[..k];
    }
  }

  /** Every line is judged on its own: after a stretch that raised nothing,
      the rest of the file prints what it would print alone. */
  lemma {:induction false} ScanAppend(check: string -> Result<seq<string>>, a: seq<string>, b: seq<string>)
    requires Scan(check, a).error.None?
    ensures Scan(check, a + b) == Report(Scan(check, a).printed + Scan(check, b).printed, Scan(check, b).error)
  {
    if b == [] {
      assert a + b == a;
    } else {
      var init := b[..|b| - 1];
      ScanAppend(check, a, init);
      assert (a + b)[..|a + b| - 1] == a + init;
      assert (a + b)[|a + b| - 1] == b[|b| - 1];
    }
  }

  lemma ScanOne(check: string -> Result<seq<string>>, line: string)
    ensures Scan(check, [line]) == match check(line) {
      case Err(e) => Report([], Some(e))
      case Ok(m) => Report(m, None)
    }
  {
    assert [line][..0] == [];
  }

  /** The messages of several lines, one after the other. */
  function Flatten(ms: seq<seq<string>>): (r: seq<string>)
  {
    if ms == [] then [] else Flatten(ms[..|ms| - 1]) + ms[|ms| - 1]
  }

  lemma {:induction false} FlattenCons(m: seq<string>, ms: seq<seq<string>>)
    ensures Flatten([m] + ms) == m + Flatten(ms)
  {
    if ms == [] {
      assert [m][..0] == [];
    } else {
      var init := ms[..|ms| - 1];
      FlattenCons(m, init);
      assert ([m] + ms)[..|ms|] == [m] + init;
    }
  }

  /** When every line passes, the run prints each line's messages in turn
      and raises nothing. */
  lemma {:induction false} ScanAllPass(check: string -> Result<seq<string>>, lines: seq<string>, ms: seq<seq<string>>)
    requires |ms| == |lines|
    requires forall k :: 0 <= k < |lines| ==> check(lines[k]) == Ok(ms[k])
    ensures Scan(check, lines) == Report(Flatten(ms), None)
  {
    if lines != [] {
      ScanAllPass(check, lines[..|lines| - 1], ms[..|ms| - 1]);
    }
  }
}
