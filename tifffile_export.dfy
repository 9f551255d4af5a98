/** The tifffile-based multipage TIFF writer: each page is written either
    as a bilevel CCITT Group 4 page (ITU-T Recommendation T.6) or as an RGB
    JPEG-in-TIFF page. Decoding is outside the model: what a path opens as,
    Pillow's own conversion to mode "1", and whether writing a page raises
    are inputs. */
module TifffileExport {
  import opened Outcomes
  import opened PilSavers
  import opened Sequences

  /** The `dpi` entry of an image's info: absent, a tuple or list whose
      entries do or do not convert with `float`, or some other value. */
  datatype Dpi = NoDpi | DpiSequence(entries: seq<Option<real>>) | DpiOther

  const DefaultDpi: real := 300.0

  /** The dpi is a sequence whose first two entries convert with `float`. */
  predicate UsableDpi(dpi: Dpi) {
    dpi.DpiSequence? && |dpi.entries| >= 2 && dpi.entries[0].Some? && dpi.entries[1].Some?
  }

  /** `_normalize_resolution`. */
  function NormalizeResolution(dpi: Dpi): (res: (real, real))
  {
    if UsableDpi(dpi) then (dpi.entries[0].value, dpi.entries[1].value) else (DefaultDpi, DefaultDpi)
  }

  /** The first two entries are used when both convert; anything else (no
      dpi, a non-sequence, fewer than two entries, an entry that does not
      convert) gives 300 dpi both ways, and extra entries are ignored. */
  lemma NormalizeResolutionCases(dpi: Dpi)
    ensures UsableDpi(dpi) ==> NormalizeResolution(dpi) == (dpi.entries[0].value, dpi.entries[1].value)
    ensures dpi.NoDpi? || dpi.DpiOther? ==> NormalizeResolution(dpi) == (300.0, 300.0)
    ensures dpi.DpiSequence? && |dpi.entries| < 2 ==> NormalizeResolution(dpi) == (300.0, 300.0)
    ensures dpi.DpiSequence? && |dpi.entries| >= 2 && dpi.entries[0].None? ==> NormalizeResolution(dpi) == (300.0, 300.0)
    ensures dpi.DpiSequence? && |dpi.entries| >= 2 && dpi.entries[1].None? ==> NormalizeResolution(dpi) == (300.0, 300.0)
    ensures dpi.DpiSequence? && |dpi.entries| >= 2 ==>
      NormalizeResolution(DpiSequence(dpi.entries[..2])) == NormalizeResolution(dpi)
  {
  }

  /** An opened page: its mode, the number of dimensions of its pixel array,
      the array's plane of values when it is two-dimensional, and its dpi. */
  datatype Page = Page(mode: Mode, ndim: nat, plane: seq<seq<int>>, dpi: Dpi)

  const SampleStep: nat := 64

  /** The distinct values of `arr[::64, ::64]`. */
  function GridSample(plane: seq<seq<int>>): set<int> {
    set r, c | 0 <= r < |plane| && r % SampleStep == 0 && 0 <= c < |plane[r]| && c % SampleStep == 0 :: plane[r][c]
  }

  /** `_is_bilevel_pil`. */
  predicate IsBilevel(page: Page) {
    || page.mode == Bilevel
    || (&& (page.mode == Gray || page.mode == GrayAlpha)
        && page.ndim == 2
        && |GridSample(page.plane)| <= 2
        && GridSample(page.plane) <= {0, 255})
  }

  lemma SubsetOfTwo(s: set<int>, a: int, b: int)
    requires s <= {a, b}
    ensures |s| <= 2
  {
    if a in s && b in s && a != b {
      assert s == {a, b};
    } else if a in s {
      assert s == {a};
    } else if b in s {
      assert s == {b};
    } else {
      assert s == {};
    }
  }

  /** Mode "1" is always bilevel; an "L" page is bilevel exactly when every
      sampled value is 0 or 255 (at most two distinct values follows from
      that); "LA" arrays have three dimensions, and other modes are never
      bilevel. */
  lemma IsBilevelCases(page: Page)
    ensures page.mode == Bilevel ==> IsBilevel(page)
    ensures page.mode == Gray && page.ndim == 2 ==> (IsBilevel(page) <==> GridSample(page.plane) <= {0, 255})
    ensures page.mode == GrayAlpha && page.ndim == 3 ==> !IsBilevel(page)
    ensures page.mode !in {Bilevel, Gray, GrayAlpha} ==> !IsBilevel(page)
  {
    if GridSample(page.plane) <= {0, 255} {
      SubsetOfTwo(GridSample(page.plane), 0, 255);
    }
  }

  /** The sample looks only at every 64th row and column, so a gray page
      whose sampled pixels happen to be black or white is written as
      bilevel. */
  lemma SampleCanMissGray()
    ensures var page := Page(Gray, 2, [[0, 128]], NoDpi);
      IsBilevel(page) && 128 in page.plane[0]
  {
    var plane := [[0, 128]];
    assert GridSample(plane) == {0} by {
      forall v | v in GridSample(plane) ensures v == 0 {
        var r, c :| 0 <= r < |plane| && r % SampleStep == 0 && 0 <= c < |plane[r]| && c % SampleStep == 0 && v == plane[r][c];
        assert r == 0 && c == 0;
      }
      assert plane[0][0] in GridSample(plane);
    }
  }

  /** `arr > 0` on a plane. */
  function Foreground(plane: seq<seq<int>>): (mask: seq<seq<bool>>)
    ensures |mask| == |plane|
    ensures forall r :: 0 <= r < |plane| ==> |mask[r]| == |plane[r]|
  {
    seq(|plane|, r requires 0 <= r < |plane| => seq(|plane[r]|, c requires 0 <= c < |plane[r]| => plane[r][c] > 0))
  }

  /** `_to_bilevel_array`: a mode "1" plane is used as it is; any other is
      first converted to mode "1" by Pillow (`toMode1`). */
  function ToBilevelArray(page: Page, toMode1: seq<seq<int>> -> seq<seq<int>>): seq<seq<bool>> {
    if page.mode == Bilevel then Foreground(page.plane) else Foreground(toMode1(page.plane))
  }

  /** For a mode "1" page a pixel is foreground exactly when it is non-zero. */
  lemma BilevelArrayOfMode1(page: Page, toMode1: seq<seq<int>> -> seq<seq<int>>, r: nat, c: nat)
    requires page.mode == Bilevel && r < |page.plane| && c < |page.plane[r]|
    ensures |ToBilevelArray(page, toMode1)| == |page.plane|
    ensures ToBilevelArray(page, toMode1)[r][c] <==> page.plane[r][c] > 0
  {
  }

  /** The keyword arguments of one `tif.write` call. */
  datatype WriteSettings = WriteSettings(photometric: string, compression: string,
                                         level: Option<nat>, subsampling: Option<(nat, nat)>,
                                         resolution: (real, real))

  datatype PageWrite = PageWrite(source: string, settings: WriteSettings)

  function Settings(page: Page): (s: WriteSettings)
    ensures s.resolution == NormalizeResolution(page.dpi)
    ensures IsBilevel(page) ==> s.compression == "ccitt_t6" && s.photometric == "miniswhite"
    ensures !IsBilevel(page) ==>
      s.compression == "jpeg" && s.photometric == "rgb" && s.level == Some(38) && s.subsampling == Some((2, 2))
  {
    var res := NormalizeResolution(page.dpi);
    if IsBilevel(page) then WriteSettings("miniswhite", "ccitt_t6", None, None, res)
    else WriteSettings("rgb", "jpeg", Some(38), Some((2, 2)), res)
  }

  /** The files that exist, what a path opens as (or the error opening it
      raises), and the error writing a page from a path raises, if any. */
  datatype Env = Env(existing: set<string>, open: string -> Result<Page>, writeError: string -> Option<Error>)

  /** The pages written for a list of paths, or the error that stopped the
      writer. A missing path is skipped. */
  function WritePages(env: Env, paths: seq<string>): Result<seq<PageWrite>> {
    if paths == [] then Ok([])
    else
      match WritePages(env, paths[..|paths| - 1])
      case Err(e) => Err(e)
      case Ok(written) =>
        var p := paths[|paths| - 1];
        if p !in env.existing then Ok(written)
        else match env.open(p)
          case Err(e) => Err(e)
          case Ok(page) =>
            if env.writeError(p).Some? then Err(env.writeError(p).value)
            else Ok(written + [PageWrite(p, Settings(page))])
  }

  /** `_save_multipage_tiff` (tifffile). */
  function TiffSave(env: Env, paths: seq<string>): Result<seq<PageWrite>> {
    if paths == [] then Err(ValueError("No input images provided")) else WritePages(env, paths)
  }

  /** When the writer finishes, it has written one page per existing path,
      in order, each with the settings its classification calls for; a
      list whose paths are all missing gives an empty TIFF and no error. */
  lemma {:induction false} WrittenPages(env: Env, paths: seq<string>)
    requires WritePages(env, paths).Ok?
    ensures var written := WritePages(env, paths).value;
      && |written| == |Present(env.existing, paths)|
      && forall i :: 0 <= i < |written| ==>
           && written[i].source == Present(env.existing, paths)[i]
           && env.open(written[i].source).Ok?
           && written[i].settings == Settings(env.open(written[i].source).value)
  {
    if paths != [] {
      WrittenPages(env, paths[..|paths| - 1]);
    }
  }

  /** An error stops the writer: once a prefix of the list fails, the whole
      list fails with the same error. */
  lemma {:induction false} WritePagesErrorStops(env: Env, paths: seq<string>, j: nat)
    requires j <= |paths| && WritePages(env, paths[..j]).Err?
    ensures WritePages(env, paths) == WritePages(env, paths[..j])
    decreases |paths| - j
  {
    if j < |paths| {
      assert paths[..j + 1][..j] == paths[..j];
      WritePagesErrorStops(env, paths, j + 1);
    } else {
      assert paths[..j] == paths;
    }
  }

  method SaveMultipageTiff(env: Env, paths: seq<string>) returns (result: Result<seq<PageWrite>>)
    ensures result == TiffSave(env, paths)
  {
    if paths == [] {
      return Err(ValueError("No input images provided"));
    }
    var written: seq<PageWrite> := [];
    for i := 0 to |paths|
      invariant WritePages(env, paths[..i]) == Ok(written)
    {
      assert paths[..i + 1][..i] == paths[..i];
      var p := paths[i];
      if p !in env.existing {
        continue;
      }
      var load := env.open(p);
      if load.Err? {
        WritePagesErrorStops(env, paths, i + 1);
        return Err(load.error);
      }
      var page := load.value;
      var settings := Settings(page);
      if env.writeError(p).Some? {
        WritePagesErrorStops(env, paths, i + 1);
        return Err(env.writeError(p).value);
      }
      written := written + [PageWrite(p, settings)];
    }
    assert paths[..|paths|] == paths;
    result := Ok(written);
  }
}
