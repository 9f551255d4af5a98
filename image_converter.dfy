/** The conversion thread of the desktop tool: each selected page is turned
    into a bilevel Group 4 TIFF beside it, and the pairs of original and
    converted path are reported when all pages were tried. Decoding and
    encoding are outside the model: the grayscale pixels of a page and what
    happens when the TIFF is saved are inputs. */
module ImageConverter {
  import opened Outcomes
  import Paths
  import opened Sequences

  /** The fixed binarisation threshold. */
  const Threshold: int := 128

  /** The lookup `point` applies to each grayscale value. */
  function Level(x: int): (y: int)
    ensures y == 0 || y == 255
    ensures y == 255 <==> x >= Threshold
  {
    if x >= Threshold then 255 else 0
  }

  function Binarise(gray: seq<int>): (bw: seq<int>)
    ensures |bw| == |gray|
  {
    seq(|gray|, i requires 0 <= i < |gray| => Level(gray[i]))
  }

  /** Binarising keeps every pixel's side of the threshold, yields only black
      and white, and leaves an already bilevel image as it is. */
  lemma BinariseProperties(gray: seq<int>)
    ensures forall i :: 0 <= i < |gray| ==> (Binarise(gray)[i] == 255 <==> gray[i] >= Threshold)
    ensures forall i :: 0 <= i < |gray| ==> Binarise(gray)[i] in {0, 255}
    ensures Binarise(Binarise(gray)) == Binarise(gray)
  {
  }

  /** `os.path.splitext(p)[0] + '.tif'`. */
  function TiffPath(p: string): (r: string)
    ensures |r| >= 4 && r[|r| - 4..] == ".tif"
  {
    Paths.SplitExtRoot(p) + ".tif"
  }

  lemma ExtensionHasNoSeparator(p: string)
    ensures Paths.Sep !in Paths.Extension(p)
  {
    var name := Paths.Basename(p);
    var ext := Paths.Extension(p);
    if ext != "" {
      var i := Paths.LastIndexOf(name, '.');
      assert ext == name[i..];
      forall k | 0 <= k < |ext| ensures ext[k] != Paths.Sep {
        assert ext[k] == name[i + k];
      }
    }
  }

  /** The TIFF is written into the page's own folder, under the page's name
      with its extension replaced. */
  lemma TiffPathIsSibling(p: string)
    ensures Paths.Dirname(TiffPath(p)) == Paths.Dirname(p)
    ensures Paths.Basename(TiffPath(p)) == Paths.Basename(Paths.SplitExtRoot(p)) + ".tif"
  {
    var root := Paths.SplitExtRoot(p);
    ExtensionHasNoSeparator(p);
    Paths.FolderOfAppend(root, ".tif", Paths.Extension(p));
    Paths.BasenameOfAppend(root, ".tif");
  }

  /** What happened when the bilevel image was saved: the save raised, or it
      returned and the output then did or did not exist. */
  datatype SaveOutcome = SaveRaised(message: string) | Saved(outputExists: bool)

  /** The world the thread sees: the paths that exist, the grayscale pixels
      of a page (None when opening or converting raises), and the outcome of
      saving a binarised image at a path. */
  datatype Env = Env(existing: set<string>,
                     gray: string -> Option<seq<int>>,
                     save: (string, seq<int>) -> SaveOutcome)

  /** The pair a page contributes, if any. */
  function ConvertOne(env: Env, p: string): (r: Option<(string, string)>)
    ensures r.Some? ==> r.value == (p, TiffPath(p))
  {
    if p !in env.existing then None
    else match env.gray(p)
      case None => None
      case Some(gray) =>
        match env.save(TiffPath(p), Binarise(gray))
        case SaveRaised(_) => None
        case Saved(present) => if present then Some((p, TiffPath(p))) else None
  }

  /** `ConvertOne` in the given world, as one function value. */
  function Converter(env: Env): string -> Option<(string, string)> {
    p => ConvertOne(env, p)
  }

  /** The pairs reported for a list of pages, in page order. */
  function Converted(env: Env, paths: seq<string>): seq<(string, string)> {
    FilterMap(Converter(env), paths)
  }

  /** A pair is reported exactly for a page that exists, could be read and
      whose TIFF was saved and then existed; the pair is the page and its
      TIFF path. A failure on one page does not affect the others. */
  lemma ConvertedMembers(env: Env, paths: seq<string>, pair: (string, string))
    ensures pair in Converted(env, paths) <==>
      && pair.0 in paths && pair.1 == TiffPath(pair.0)
      && ConvertOne(env, pair.0).Some?
  {
    FilterMapMembers(Converter(env), paths, pair);
    if pair.0 in paths && pair.1 == TiffPath(pair.0) && ConvertOne(env, pair.0).Some? {
      var i :| 0 <= i < |paths| && paths[i] == pair.0;
      assert Converter(env)(paths[i]) == Some(pair);
    }
  }

  /** The pairs keep the order of the pages: converting a longer selection
      reports the pairs of its first part first. */
  lemma ConvertedAppend(env: Env, a: seq<string>, b: seq<string>)
    ensures Converted(env, a + b) == Converted(env, a) + Converted(env, b)
  {
    FilterMapAppend(Converter(env), a, b);
  }

  /** The body of the page loop, as the step from the pairs of the first
      `i` pages to those of the first `i + 1`. */
  lemma RunStep(env: Env, paths: seq<string>, i: nat, before: seq<(string, string)>, after: seq<(string, string)>)
    requires i < |paths|
    requires before == Converted(env, paths[..i])
    requires after == before + (match ConvertOne(env, paths[i]) case Some(pair) => [pair] case None => [])
    ensures after == Converted(env, paths[..i + 1])
  {
    SliceSnoc(paths, 0, i);
    FilterMapSnoc(Converter(env), paths[..i], paths[i]);
  }

  /** The body of the page loop: skip a missing page, binarise, save next
      to the page and report the pair if the TIFF then exists. An exception
      anywhere yields no pair. */
  method ConvertPage(env: Env, imagePath: string) returns (pair: Option<(string, string)>)
    ensures pair == ConvertOne(env, imagePath)
  {
    if imagePath !in env.existing {
      return None;
    }
    var gray := env.gray(imagePath);
    if gray.None? {
      return None;
    }
    var bw := Binarise(gray.value);
    var outputPath := Paths.SplitExtRoot(imagePath) + ".tif";
    var saved := env.save(outputPath, bw);
    if saved.Saved? && saved.outputExists {
      pair := Some((imagePath, outputPath));
    } else {
      pair := None;
    }
  }

  /** `ImageConverter.run`: every page is tried in order; the list emitted
      with `finished` is the returned one. */
  method Run(env: Env, imagePaths: seq<string>) returns (convertedFiles: seq<(string, string)>)
    ensures convertedFiles == Converted(env, imagePaths)
  {
    convertedFiles := [];
    for i := 0 to |imagePaths|
      invariant convertedFiles == Converted(env, imagePaths[..i])
    {
      var before := convertedFiles;
      var pair := ConvertPage(env, imagePaths[i]);
      if pair.Some? {
        convertedFiles := convertedFiles + [pair.value];
      }
      RunStep(env, imagePaths, i, before, convertedFiles);
    }
    assert imagePaths[..|imagePaths|] == imagePaths;
  }
}
