/** The Pillow-based savers of the exporters: a multipage TIFF whose
    compression depends on the page modes, and a multipage PDF of RGB pages.
    Opening a page and writing the file are outside the model: the mode a
    path opens with (or that opening raises) and whether writing returns are
    inputs. */
module PilSavers {
  import opened Outcomes

  /** Pillow image modes: "1", "L", "LA", "P", "RGB", "RGBA" and the rest. */
  datatype Mode = Bilevel | Gray | GrayAlpha | Palette | Rgb | Rgba | OtherMode(name: string)

  /** An image a saver holds: the file it was opened from, its mode, and
      whether it is a converted copy of the opened image. */
  datatype Image = Image(path: string, mode: Mode, converted: bool)

  datatype Compression = Group4 | TiffLzw

  /** The call `first.save(output, save_all=True, append_images=rest, ...)`:
      `pages[0]` is the base image and the others are appended in order. */
  datatype SaveCall = SaveCall(output: string, pages: seq<Image>, compression: Option<Compression>)

  /** What a saver did: the save call it made (if any), the images it closed,
      and whether it raised. */
  datatype Report = Report(call: Option<SaveCall>, closed: seq<Image>, raised: bool)

  /** The mode a path opens with, or None when `Image.open` raises; and
      whether saving to a path returns. */
  datatype Env = Env(open: string -> Option<Mode>, saves: string -> bool)

  /** The TIFF saver keeps the mode, except that a palette image is
      converted to RGB. */
  function TiffPrepare(path: string, m: Mode): Image {
    if m == Palette then Image(path, Rgb, true) else Image(path, m, false)
  }

  /** The PDF saver converts every image that is not RGB to RGB. */
  function PdfPrepare(path: string, m: Mode): Image {
    if m == Rgb then Image(path, Rgb, false) else Image(path, Rgb, true)
  }

  /** The index of the first path that cannot be opened, or the count. */
  function FirstUnopenable(open: string -> Option<Mode>, paths: seq<string>): (k: nat)
    ensures k <= |paths|
    ensures forall i :: 0 <= i < k ==> open(paths[i]).Some?
    ensures k < |paths| ==> open(paths[k]).None?
  {
    if paths == [] then 0
    else if open(paths[0]).None? then 0
    else 1 + FirstUnopenable(open, paths[1..])
  }

  lemma {:induction false} FirstUnopenableIs(open: string -> Option<Mode>, paths: seq<string>, k: nat)
    requires k <= |paths|
    requires forall i :: 0 <= i < k ==> open(paths[i]).Some?
    requires k < |paths| ==> open(paths[k]).None?
    ensures FirstUnopenable(open, paths) == k
  {
    if paths != [] && k > 0 {
      FirstUnopenableIs(open, paths[1..], k - 1);
    }
  }

  /** The images held after opening and preparing every path. */
  function Held(open: string -> Option<Mode>, prepare: (string, Mode) -> Image, paths: seq<string>): (r: seq<Image>)
    requires forall i :: 0 <= i < |paths| ==> open(paths[i]).Some?
    ensures |r| == |paths|
  {
    seq(|paths|, i requires 0 <= i < |paths| => prepare(paths[i], open(paths[i]).value))
  }

  /** The opening loop both savers share: open each path in turn, prepare
      it, and stop at the first that raises. */
  method OpenImages(open: string -> Option<Mode>, prepare: (string, Mode) -> Image, paths: seq<string>)
    returns (held: seq<Image>, raised: bool)
    ensures raised <==> FirstUnopenable(open, paths) < |paths|
    ensures held == Held(open, prepare, paths[..FirstUnopenable(open, paths)])
  {
    held := [];
    raised := false;
    var i := 0;
    while i < |paths|
      invariant 0 <= i <= |paths|
      invariant forall j :: 0 <= j < i ==> open(paths[j]).Some?
      invariant held == Held(open, prepare, paths[..i])
    {
      var img := open(paths[i]);
      if img.None? {
        raised := true;
        break;
      }
      held := held + [prepare(paths[i], img.value)];
      i := i + 1;
    }
    FirstUnopenableIs(open, paths, i);
  }

  /** `all(img.mode == '1' for img in pil_images)`. */
  predicate AllBilevel(images: seq<Image>) {
    forall i :: 0 <= i < |images| ==> images[i].mode == Bilevel
  }

  /** `_save_multipage_tiff` (Pillow): the outcome for a list of pages. */
  function TiffSave(env: Env, output: string, paths: seq<string>): Report {
    var k := FirstUnopenable(env.open, paths);
    var held := Held(env.open, TiffPrepare, paths[..k]);
    if k < |paths| then Report(None, held, true)
    else if held == [] then Report(None, [], false)
    else
      var compression := if AllBilevel(held) then Group4 else TiffLzw;
      Report(Some(SaveCall(output, held, Some(compression))), held, !env.saves(output))
  }

  /** `_save_pdf` (Pillow): the outcome for a list of pages. */
  function PdfSave(env: Env, output: string, paths: seq<string>): Report {
    var k := FirstUnopenable(env.open, paths);
    var held := Held(env.open, PdfPrepare, paths[..k]);
    if k < |paths| then Report(None, held, true)
    else if held == [] then Report(None, [], false)
    else Report(Some(SaveCall(output, held, None)), held, !env.saves(output))
  }

  /** The closing loop of the `finally` block. */
  method CloseAll(images: seq<Image>) returns (closed: seq<Image>)
    ensures closed == images
  {
    closed := [];
    for i := 0 to |images|
      invariant closed == images[..i]
    {
      closed := closed + [images[i]];
    }
  }

  method SaveMultipageTiff(env: Env, output: string, paths: seq<string>) returns (report: Report)
    ensures report == TiffSave(env, output, paths)
  {
    var pilImages, raised := OpenImages(env.open, TiffPrepare, paths);
    var call: Option<SaveCall> := None;
    if !raised && pilImages != [] {
      var compression := if AllBilevel(pilImages) then Group4 else TiffLzw;
      call := Some(SaveCall(output, pilImages, Some(compression)));
      raised := !env.saves(output);
    }
    var closed := CloseAll(pilImages);
    report := Report(call, closed, raised);
  }

  method SavePdf(env: Env, output: string, paths: seq<string>) returns (report: Report)
    ensures report == PdfSave(env, output, paths)
  {
    var pilImages, raised := OpenImages(env.open, PdfPrepare, paths);
    var call: Option<SaveCall> := None;
    if !raised && pilImages != [] {
      call := Some(SaveCall(output, pilImages, None));
      raised := !env.saves(output);
    }
    var closed := CloseAll(pilImages);
    report := Report(call, closed, raised);
  }

  /** Group 4 is chosen exactly when every page opened as mode "1": palette
      pages become RGB first, so they never count as bilevel. */
  lemma TiffCompressionRule(env: Env, output: string, paths: seq<string>)
    requires TiffSave(env, output, paths).call.Some?
    ensures forall i :: 0 <= i < |paths| ==> env.open(paths[i]).Some?
    ensures TiffSave(env, output, paths).call.value.compression == Some(Group4) <==>
      forall i :: 0 <= i < |paths| ==> env.open(paths[i]) == Some(Bilevel)
    ensures TiffSave(env, output, paths).call.value.compression == Some(TiffLzw) <==>
      exists i :: 0 <= i < |paths| && env.open(paths[i]) != Some(Bilevel)
  {
    var k := FirstUnopenable(env.open, paths);
    assert paths[..k] == paths;
    var held := Held(env.open, TiffPrepare, paths);
    assert forall i :: 0 <= i < |paths| ==> (held[i].mode == Bilevel <==> env.open(paths[i]) == Some(Bilevel));
  }

  /** Each saver writes the pages in input order, one per path, only when
      every path opened and there was at least one; it closes exactly the
      images it held, one per path opened before any failure, and it raises
      exactly when an open or the save raised. */
  lemma SaverReports(env: Env, output: string, paths: seq<string>, pdf: bool)
    ensures var r := if pdf then PdfSave(env, output, paths) else TiffSave(env, output, paths);
      var k := FirstUnopenable(env.open, paths);
      && (r.call.Some? <==> k == |paths| && paths != [])
      && (r.call.Some? ==> r.call.value.output == output && |r.call.value.pages| == |paths|)
      && (r.call.Some? ==> forall i :: 0 <= i < |paths| ==> r.call.value.pages[i].path == paths[i])
      && |r.closed| == k && (forall i :: 0 <= i < k ==> r.closed[i].path == paths[i])
      && (r.raised <==> k < |paths| || (paths != [] && !env.saves(output)))
  {
    var k := FirstUnopenable(env.open, paths);
    if k == |paths| {
      assert paths[..k] == paths;
    }
  }

  /** Every PDF page is RGB, and exactly the pages that were not RGB are
      converted copies. */
  lemma PdfPagesAreRgb(env: Env, output: string, paths: seq<string>)
    requires PdfSave(env, output, paths).call.Some?
    ensures var pages := PdfSave(env, output, paths).call.value.pages;
      && |pages| == |paths|
      && forall i :: 0 <= i < |pages| ==>
           pages[i].mode == Rgb && (pages[i].converted <==> env.open(paths[i]) != Some(Rgb))
  {
    var k := FirstUnopenable(env.open, paths);
    assert paths[..k] == paths;
  }

  /** In the TIFF only palette pages are converted, and every other page
      keeps the mode it opened with. */
  lemma TiffKeepsModes(env: Env, output: string, paths: seq<string>)
    requires TiffSave(env, output, paths).call.Some?
    ensures var pages := TiffSave(env, output, paths).call.value.pages;
      && |pages| == |paths|
      && forall i :: 0 <= i < |pages| ==>
           && (pages[i].converted <==> env.open(paths[i]) == Some(Palette))
           && (!pages[i].converted ==> Some(pages[i].mode) == env.open(paths[i]))
  {
    var k := FirstUnopenable(env.open, paths);
    assert paths[..k] == paths;
  }
}
