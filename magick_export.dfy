/** The ImageMagick-based multipage TIFF writer: pages that are TIFFs and
    already bilevel or gray are kept bilevel with Group 4 compression, every
    other page becomes an RGB JPEG-compressed page. Reading an image and
    saving the result are inputs. */
module MagickExport {
  import opened Outcomes
  import opened Text
  import Paths
  import opened Sequences

  /** The properties of a read image the writer looks at. */
  datatype MagickImage = MagickImage(imageType: string, colorspace: string)

  /** A processed clone: the source path and the settings it was given. */
  datatype Processed = Processed(source: string, compression: string, quality: Option<nat>,
                                 imageType: string, colorspace: string, resolution: Option<nat>)

  /** `is_g4_tiff`: a `.tif`/`.tiff` file (in any letter case) that is
      bilevel or gray. */
  predicate IsG4Tiff(path: string, img: MagickImage) {
    var ext := Lower(Paths.Suffix(path));
    (ext == ".tif" || ext == ".tiff") && (img.imageType == "bilevel" || img.colorspace == "gray")
  }

  function Process(path: string, img: MagickImage): Processed {
    if IsG4Tiff(path, img) then Processed(path, "group4", None, "bilevel", "gray", Some(300))
    else Processed(path, "jpeg", Some(20), img.imageType, "rgb", None)
  }

  /** A G4 page is bilevel gray at 300 dpi; any other page is JPEG at quality
      20 in RGB, keeps its type and its resolution. A JPEG file is never a G4
      page, whatever it holds. */
  lemma ProcessRule(path: string, img: MagickImage)
    ensures var page := Process(path, img);
      && page.source == path
      && (IsG4Tiff(path, img) ==> page.compression == "group4" && page.imageType == "bilevel"
                                  && page.colorspace == "gray" && page.resolution == Some(300))
      && (!IsG4Tiff(path, img) ==> page.compression == "jpeg" && page.quality == Some(20)
                                   && page.colorspace == "rgb" && page.imageType == img.imageType)
    ensures Lower(Paths.Suffix(path)) == ".jpg" ==> !IsG4Tiff(path, img)
    ensures Lower(Paths.Suffix(path)) == ".tif" && img.colorspace == "gray" ==> IsG4Tiff(path, img)
  {
  }

  /** The files that exist, what reading a path gives (or the error it
      raises), and the error saving to an output path raises, if any. */
  datatype Env = Env(existing: set<string>, read: string -> Result<MagickImage>, saveError: string -> Option<Error>)

  /** The processed pages so far and the error that stopped processing. */
  datatype Progress = Progress(pages: seq<Processed>, error: Option<Error>)

  /** `Process` as a value: the loop below takes the page rule as a
      parameter so that its properties hold for any rule. */
  function Processor(): (string, MagickImage) -> Processed {
    (path, img) => Process(path, img)
  }

  /** The loop over the input paths: missing files are skipped, and the
      first read error stops it with the pages processed before it. */
  function ProcessAll(process: (string, MagickImage) -> Processed, env: Env, paths: seq<string>): (r: Progress)
    ensures |r.pages| <= |paths|
  {
    if paths == [] then Progress([], None)
    else
      var before := ProcessAll(process, env, paths[..|paths| - 1]);
      var p := paths[|paths| - 1];
      if before.error.Some? || p !in env.existing then before
      else match env.read(p)
        case Err(e) => Progress(before.pages, Some(e))
        case Ok(img) => Progress(before.pages + [process(p, img)], None)
  }

  datatype SaveCall = Single(output: string, page: Processed) | Sequence(output: string, pages: seq<Processed>)

  /** The save made (if any), the processed pages closed afterwards, and the
      error the function raises (if any). */
  datatype Report = Report(call: Option<SaveCall>, closed: seq<Processed>, error: Option<Error>)

  /** `_save_multipage_tiff` (ImageMagick). */
  function MagickSave(env: Env, output: string, paths: seq<string>): Report {
    if paths == [] then Report(None, [], Some(ValueError("No input images provided")))
    else
      var progress := ProcessAll(Processor(), env, paths);
      if progress.error.Some? then Report(None, progress.pages, progress.error)
      else if progress.pages == [] then Report(None, [], Some(ValueError("No valid images to process")))
      else
        var call := if |progress.pages| == 1 then Single(output, progress.pages[0]) else Sequence(output, progress.pages);
        Report(Some(call), progress.pages, env.saveError(output))
  }

  /** Without a read error, one page is processed per existing path, in
      order, each by the page rule (`Processor()` in the writer). */
  lemma ProcessedPages(process: (string, MagickImage) -> Processed, env: Env, paths: seq<string>)
    requires ProcessAll(process, env, paths).error.None?
    ensures var pages := ProcessAll(process, env, paths).pages;
      && |pages| == |Present(env.existing, paths)|
      && forall i :: 0 <= i < |pages| ==>
           && env.read(Present(env.existing, paths)[i]).Ok?
           && pages[i] == process(Present(env.existing, paths)[i], env.read(Present(env.existing, paths)[i]).value)
  {
    ProcessedCount(process, env, paths);
    forall i | 0 <= i < |ProcessAll(process, env, paths).pages| {
      ProcessedPage(process, env, paths, i);
    }
  }

  lemma {:induction false} ProcessedCount(process: (string, MagickImage) -> Processed, env: Env, paths: seq<string>)
    requires ProcessAll(process, env, paths).error.None?
    ensures |ProcessAll(process, env, paths).pages| == |Present(env.existing, paths)|
  {
    if paths != [] {
      ProcessedCount(process, env, paths[..|paths| - 1]);
    }
  }

  lemma {:induction false} ProcessedPage(process: (string, MagickImage) -> Processed, env: Env, paths: seq<string>, i: int)
    requires ProcessAll(process, env, paths).error.None?
    requires 0 <= i < |ProcessAll(process, env, paths).pages|
    ensures i < |Present(env.existing, paths)|
    ensures var source := Present(env.existing, paths)[i];
      env.read(source).Ok? && ProcessAll(process, env, paths).pages[i] == process(source, env.read(source).value)
  {
    var init := paths[..|paths| - 1];
    var before := ProcessAll(process, env, init);
    ProcessedCount(process, env, init);
    if i < |before.pages| {
      ProcessedPage(process, env, init, i);
      assert ProcessAll(process, env, paths).pages[i] == before.pages[i];
      assert Present(env.existing, paths)[i] == Present(env.existing, init)[i];
    } else {
      var p := paths[|paths| - 1];
      assert p in env.existing && env.read(p).Ok?;
      assert Present(env.existing, paths) == Present(env.existing, init) + [p];
    }
  }

  /** A read error stops the loop: a failing prefix leaves the whole run
      where the prefix left it. */
  lemma {:induction false} ErrorStops(process: (string, MagickImage) -> Processed, env: Env, paths: seq<string>, j: nat)
    requires j <= |paths| && ProcessAll(process, env, paths[..j]).error.Some?
    ensures ProcessAll(process, env, paths) == ProcessAll(process, env, paths[..j])
    decreases |paths| - j
  {
    if j < |paths| {
      assert paths[..j + 1][..j] == paths[..j];
      ErrorStops(process, env, paths, j + 1);
    } else {
      assert paths[..j] == paths;
    }
  }

  /** A save happens exactly when no read failed and some page was
      processed; it saves every processed page, as a single image for one
      page. Every processed page is closed, whatever happens. */
  lemma MagickSaveReport(env: Env, output: string, paths: seq<string>)
    ensures var r := MagickSave(env, output, paths);
      && (r.call.Some? <==> paths != [] && ProcessAll(Processor(), env, paths).error.None? && ProcessAll(Processor(), env, paths).pages != [])
      && (r.call.Some? ==> r.closed == ProcessAll(Processor(), env, paths).pages && r.error == env.saveError(output))
      && (r.call.Some? && r.call.value.Sequence? ==> r.call.value.pages == r.closed && |r.closed| >= 2)
      && (r.call.Some? && r.call.value.Single? ==> r.closed == [r.call.value.page])
      && (r.call.None? ==> r.error.Some?)
      && (paths != [] && Present(env.existing, paths) == [] ==> r.error == Some(ValueError("No valid images to process")))
  {
    if paths != [] && Present(env.existing, paths) == [] {
      PresentEmptyProcessesNothing(Processor(), env, paths);
    }
  }

  lemma {:induction false} PresentEmptyProcessesNothing(process: (string, MagickImage) -> Processed, env: Env, paths: seq<string>)
    requires Present(env.existing, paths) == []
    ensures ProcessAll(process, env, paths) == Progress([], None)
  {
    if paths != [] {
      PresentEmptyProcessesNothing(process, env, paths[..|paths| - 1]);
    }
  }

  /** The `for img_path in images` loop: process every existing page until
      a read fails. */
  method ProcessPages(env: Env, paths: seq<string>) returns (progress: Progress)
    ensures progress == ProcessAll(Processor(), env, paths)
  {
    var converted: seq<Processed> := [];
    for i := 0 to |paths|
      invariant ProcessAll(Processor(), env, paths[..i]) == Progress(converted, None)
    {
      assert paths[..i + 1][..i] == paths[..i];
      var p := paths[i];
      if p !in env.existing {
        continue;
      }
      var read := env.read(p);
      if read.Err? {
        ErrorStops(Processor(), env, paths, i + 1);
        return Progress(converted, Some(read.error));
      }
      converted := converted + [Processor()(p, read.value)];
    }
    assert paths[..|paths|] == paths;
    progress := Progress(converted, None);
  }

  method SaveMultipageTiff(env: Env, output: string, paths: seq<string>) returns (report: Report)
    ensures report == MagickSave(env, output, paths)
  {
    if paths == [] {
      return Report(None, [], Some(ValueError("No input images provided")));
    }
    var progress := ProcessPages(env, paths);
    var converted := progress.pages;
    if progress.error.Some? {
      return Report(None, converted, progress.error);
    }
    if converted == [] {
      return Report(None, [], Some(ValueError("No valid images to process")));
    }
    var call := if |converted| == 1 then Single(output, converted[0]) else Sequence(output, converted);
    report := Report(Some(call), converted, env.saveError(output));
  }
}
