/** The monochrome-page decision of `ColorDetector`: six threshold tests over
    an image's colour metrics, an at-least-four vote, and a confidence score
    that is the mean of seven clamped factors. The metrics themselves come
    from image statistics that are not modelled: a metrics map is an input. */
module ColorDetector {
  import opened Outcomes

  type Metrics = map<string, real>

  const BgrVariance := "bgr_variance"
  const BgrChannelDiff := "bgr_channel_diff"
  const AvgSaturation := "avg_saturation"
  const SaturationVariance := "saturation_variance"
  const HueVariance := "hue_variance"
  const BgrHistCorrelation := "bgr_hist_correlation"
  const HighSaturationRatio := "high_saturation_ratio"

  /** The detector's three configurable thresholds. */
  const ColorVarianceThreshold: real := 0.4
  const SaturationThreshold: real := 50.0
  const HueVarianceThreshold: real := 0.10

  /** The fixed thresholds written inline in the criteria. */
  const ChannelDiffThreshold: real := 30.0
  const SaturationVarianceThreshold: real := 800.0
  const HistCorrelationThreshold: real := 0.6
  const HighSaturationRatioThreshold: real := 0.03

  const RequiredCriteria: nat := 4
  const DefaultMinConfidence: real := 0.4

  /** The keys the decision reads, in the order it reads them. */
  const DecisionKeys: seq<string> := [BgrVariance, BgrChannelDiff, AvgSaturation,
    SaturationVariance, HueVariance, BgrHistCorrelation, HighSaturationRatio]

  predicate HasDecisionMetrics(m: Metrics) {
    forall k :: k in DecisionKeys ==> k in m
  }

  /** The first key the decision reads that the map lacks (the `KeyError`). */
  function FirstMissingKey(m: Metrics): (k: string)
    requires !HasDecisionMetrics(m)
    ensures k in DecisionKeys && k !in m
  {
    if BgrVariance !in m then BgrVariance
    else if BgrChannelDiff !in m then BgrChannelDiff
    else if AvgSaturation !in m then AvgSaturation
    else if SaturationVariance !in m then SaturationVariance
    else if HueVariance !in m then HueVariance
    else if BgrHistCorrelation !in m then BgrHistCorrelation
    else HighSaturationRatio
  }

  /** The six counted criteria, in the order the decision lists them. Every
      comparison is strict, and `saturation_variance` is not among them. */
  function Criteria(m: Metrics): (c: seq<bool>)
    requires HasDecisionMetrics(m)
    ensures |c| == 6
  {
    [ m[BgrVariance] < ColorVarianceThreshold,
      m[BgrChannelDiff] < ChannelDiffThreshold,
      m[AvgSaturation] < SaturationThreshold,
      m[HueVariance] < HueVarianceThreshold,
      m[BgrHistCorrelation] > HistCorrelationThreshold,
      m[HighSaturationRatio] < HighSaturationRatioThreshold ]
  }

  /** `sum` over booleans: the number of true entries. */
  function CountTrue(s: seq<bool>): (n: nat)
    ensures n <= |s|
  {
    if s == [] then 0 else CountTrue(s[..|s| - 1]) + (if s[|s| - 1] then 1 else 0)
  }

  /** The number of true entries, as the size of the set of their indices. */
  lemma {:induction false} CountTrueIsCardinality(s: seq<bool>)
    ensures CountTrue(s) == |set i | 0 <= i < |s| && s[i]|
  {
    if s != [] {
      var t := s[..|s| - 1];
      CountTrueIsCardinality(t);
      var before := set i | 0 <= i < |t| && t[i];
      var all := set i | 0 <= i < |s| && s[i];
      if s[|s| - 1] {
        assert all == before + {|s| - 1};
      } else {
        assert all == before;
      }
    }
  }

  lemma {:induction false} CountTrueAppend(a: seq<bool>, b: seq<bool>)
    ensures CountTrue(a + b) == CountTrue(a) + CountTrue(b)
  {
    if b == [] {
      assert a + b == a;
    } else {
      var c := b[..|b| - 1];
      CountTrueAppend(a, c);
      assert (a + b)[..|a + b| - 1] == a + c;
    }
  }

  function CriteriaPassed(m: Metrics): nat
    requires HasDecisionMetrics(m)
  {
    CountTrue(Criteria(m))
  }

  /** `_is_monochrome_image`: at least four of the six criteria hold. */
  predicate IsMonochromeImage(m: Metrics)
    requires HasDecisionMetrics(m)
  {
    CriteriaPassed(m) >= RequiredCriteria
  }

  /** The vote, stated on the set of criteria that hold. */
  lemma IsMonochromeByVote(m: Metrics)
    requires HasDecisionMetrics(m)
    ensures IsMonochromeImage(m) <==> |set i | 0 <= i < 6 && Criteria(m)[i]| >= 4
  {
    CountTrueIsCardinality(Criteria(m));
  }

  /** A metric equal to its threshold fails its criterion. */
  lemma ThresholdsAreStrict(m: Metrics)
    requires HasDecisionMetrics(m)
    requires m[BgrVariance] == ColorVarianceThreshold && m[BgrChannelDiff] == ChannelDiffThreshold
    requires m[AvgSaturation] == SaturationThreshold && m[HueVariance] == HueVarianceThreshold
    requires m[BgrHistCorrelation] == HistCorrelationThreshold
    requires m[HighSaturationRatio] == HighSaturationRatioThreshold
    ensures CriteriaPassed(m) == 0 && !IsMonochromeImage(m)
  {
    var c := Criteria(m);
    assert (set i | 0 <= i < |c| && c[i]) == {};
    CountTrueIsCardinality(c);
  }

  /** The saturation variance never changes the decision. */
  lemma SaturationVarianceIgnored(m: Metrics, v: real)
    requires HasDecisionMetrics(m)
    ensures HasDecisionMetrics(m[SaturationVariance := v])
    ensures IsMonochromeImage(m[SaturationVariance := v]) == IsMonochromeImage(m)
  {
    assert Criteria(m[SaturationVariance := v]) == Criteria(m);
  }

  /** `max(0, x)`. */
  function Clamp(x: real): (r: real)
    ensures r >= 0.0 && r >= x && (r == 0.0 || r == x)
  {
    if x > 0.0 then x else 0.0
  }

  /** The seven confidence factors, each clamped at zero. */
  function ConfidenceFactors(m: Metrics): (f: seq<real>)
    requires HasDecisionMetrics(m)
    ensures |f| == 7 && forall i :: 0 <= i < 7 ==> f[i] >= 0.0
  {
    [ Clamp(1.0 - m[BgrVariance] / 2000.0),
      Clamp(1.0 - m[AvgSaturation] / SaturationThreshold),
      Clamp(1.0 - m[HueVariance] / 10.0),
      Clamp(m[BgrHistCorrelation]),
      Clamp(1.0 - m[HighSaturationRatio] / 0.2),
      Clamp(1.0 - m[BgrChannelDiff] / ChannelDiffThreshold),
      Clamp(1.0 - m[SaturationVariance] / SaturationVarianceThreshold) ]
  }

  /** Metrics as the image statistics produce them: none negative, and a
      histogram correlation of at most one. */
  predicate WellFormedMetrics(m: Metrics)
    requires HasDecisionMetrics(m)
  {
    (forall k :: k in DecisionKeys ==> m[k] >= 0.0 || k == BgrHistCorrelation)
    && m[BgrHistCorrelation] <= 1.0
  }

  /** `_calculate_confidence`: the mean of the seven factors. It is never
      negative, and at most one for well-formed metrics. */
  function Confidence(m: Metrics): (r: real)
    requires HasDecisionMetrics(m)
    ensures 0.0 <= r
    ensures WellFormedMetrics(m) ==> r <= 1.0
  {
    var f := ConfidenceFactors(m);
    assert WellFormedMetrics(m) ==> forall i :: 0 <= i < 7 ==> f[i] <= 1.0 by {
      if WellFormedMetrics(m) {
        assert m[BgrVariance] >= 0.0 && m[AvgSaturation] >= 0.0 && m[HueVariance] >= 0.0;
        assert m[HighSaturationRatio] >= 0.0 && m[BgrChannelDiff] >= 0.0;
        assert m[SaturationVariance] >= 0.0;
      }
    }
    (f[0] + f[1] + f[2] + f[3] + f[4] + f[5] + f[6]) / 7.0
  }

  /** Confidence is monotone: larger "lower is better" metrics and a smaller
      correlation never raise it. */
  lemma ConfidenceMonotone(m: Metrics, n: Metrics)
    requires HasDecisionMetrics(m) && HasDecisionMetrics(n)
    requires forall k :: k in DecisionKeys && k != BgrHistCorrelation ==> n[k] >= m[k]
    requires n[BgrHistCorrelation] <= m[BgrHistCorrelation]
    ensures Confidence(n) <= Confidence(m)
  {
    var f, g := ConfidenceFactors(m), ConfidenceFactors(n);
    assert n[BgrVariance] >= m[BgrVariance] && n[AvgSaturation] >= m[AvgSaturation];
    assert n[HueVariance] >= m[HueVariance] && n[HighSaturationRatio] >= m[HighSaturationRatio];
    assert n[BgrChannelDiff] >= m[BgrChannelDiff] && n[SaturationVariance] >= m[SaturationVariance];
    assert forall i :: 0 <= i < 7 ==> g[i] <= f[i];
  }

  /** What reading and measuring one image produced: nothing (`imread`
      returned None), an exception with its text, or a metrics map. */
  datatype Reading = Unreadable | Raised(message: string) | Measured(metrics: Metrics)

  /** The dictionary `analyze_image_color` returns. A failure carries
      `is_monochrome` False, confidence 0.0, empty metrics and an `error`
      text; a success carries the decision and the image path. */
  datatype Analysis =
    | Analysed(monochrome: bool, confidence: real, metrics: Metrics, imagePath: string)
    | Failed(error: string)
  {
    predicate IsMonochrome() { Analysed? && monochrome }
    function Confidence(): real { if Analysed? then confidence else 0.0 }
    function MetricsMap(): Metrics { if Analysed? then metrics else map[] }
    predicate HasError() { Failed? }
  }

  /** `analyze_image_color` on one reading of `path`. Every failure becomes an
      error result; nothing is raised. */
  function AnalyzeImage(path: string, reading: Reading): (a: Analysis)
    ensures a.HasError() ==> !a.IsMonochrome() && a.Confidence() == 0.0 && a.MetricsMap() == map[]
    ensures reading.Unreadable? ==> a == Failed("Could not load image: " + path)
    ensures reading.Raised? ==> a == Failed("Error analyzing image: " + reading.message)
    ensures !a.HasError() <==> reading.Measured? && HasDecisionMetrics(reading.metrics)
    ensures !a.HasError() ==>
      && a.imagePath == path && a.metrics == reading.metrics
      && a.monochrome == IsMonochromeImage(a.metrics) && a.confidence == Confidence(a.metrics)
  {
    match reading
    case Unreadable => Failed("Could not load image: " + path)
    case Raised(msg) => Failed("Error analyzing image: " + msg)
    case Measured(m) =>
      if HasDecisionMetrics(m) then Analysed(IsMonochromeImage(m), Confidence(m), m, path)
      else Failed("Error analyzing image: '" + FirstMissingKey(m) + "'")
  }

  function NotFound(path: string): Analysis {
    Failed("File not found: " + path)
  }

  /** The result `analyze_multiple_images` records for one path. */
  function AnalyzePath(path: string, existing: set<string>, read: string -> Reading): Analysis {
    if path in existing then AnalyzeImage(path, read(path)) else NotFound(path)
  }

  /** `analyze_multiple_images`: one result per path, in input order. */
  method AnalyzeMultipleImages(paths: seq<string>, existing: set<string>, read: string -> Reading)
    returns (results: seq<Analysis>)
    ensures |results| == |paths|
    ensures forall i :: 0 <= i < |paths| ==> results[i] == AnalyzePath(paths[i], existing, read)
    ensures forall i :: 0 <= i < |paths| && paths[i] !in existing ==>
      results[i] == Failed("File not found: " + paths[i])
  {
    results := [];
    for j := 0 to |paths|
      invariant |results| == j
      invariant forall i :: 0 <= i < j ==> results[i] == AnalyzePath(paths[i], existing, read)
    {
      var path := paths[j];
      if path in existing {
        results := results + [AnalyzeImage(path, read(path))];
      } else {
        results := results + [NotFound(path)];
      }
    }
  }

  /** The candidate test of `get_monochrome_candidates`. */
  predicate IsCandidate(a: Analysis, minConfidence: real) {
    a.IsMonochrome() && a.Confidence() >= minConfidence && !a.HasError()
  }

  /** The paths the candidate filter keeps, in input order. */
  function CandidatePaths(paths: seq<string>, existing: set<string>, read: string -> Reading,
                          minConfidence: real): (r: seq<string>)
    ensures |r| <= |paths|
  {
    if paths == [] then []
    else
      var rest := CandidatePaths(paths[..|paths| - 1], existing, read, minConfidence);
      var p := paths[|paths| - 1];
      if IsCandidate(AnalyzePath(p, existing, read), minConfidence) then rest + [p] else rest
  }

  /** A path is a candidate exactly when it exists, measures monochrome with
      every metric present, and reaches the minimum confidence. */
  lemma {:induction false} CandidatePathsMembers(paths: seq<string>, existing: set<string>,
                                                 read: string -> Reading, minConfidence: real, p: string)
    ensures p in CandidatePaths(paths, existing, read, minConfidence) <==>
      p in paths && p in existing && read(p).Measured? && HasDecisionMetrics(read(p).metrics)
      && IsMonochromeImage(read(p).metrics) && Confidence(read(p).metrics) >= minConfidence
  {
    if paths != [] {
      var init := paths[..|paths| - 1];
      CandidatePathsMembers(init, existing, read, minConfidence, p);
      assert paths == init + [paths[|paths| - 1]];
    }
  }

  /** `get_monochrome_candidates`: analyse every path, then keep, in order,
      the image paths of the candidate results. */
  method GetMonochromeCandidates(paths: seq<string>, existing: set<string>, read: string -> Reading,
                                 minConfidence: real)
    returns (candidates: seq<string>)
    ensures candidates == CandidatePaths(paths, existing, read, minConfidence)
  {
    var results := AnalyzeMultipleImages(paths, existing, read);
    candidates := [];
    for j := 0 to |results|
      invariant candidates == CandidatePaths(paths[..j], existing, read, minConfidence)
    {
      assert paths[..j + 1][..j] == paths[..j];
      var result := results[j];
      if result.IsMonochrome() && result.Confidence() >= minConfidence && !result.HasError() {
        candidates := candidates + [result.imagePath];
      }
    }
    assert paths[..|paths|] == paths;
  }

  /** The seven criteria `debug_analysis` reports: the six of the decision
      with `saturation_variance < 800` inserted fourth. */
  function DebugCriteria(m: Metrics): (c: seq<bool>)
    requires HasDecisionMetrics(m)
    ensures |c| == 7
  {
    var d := Criteria(m);
    d[..3] + [m[SaturationVariance] < SaturationVarianceThreshold] + d[3..]
  }

  datatype DebugInfo = DebugInfo(criteria: seq<bool>, criteriaPassed: nat, requiredCriteria: nat)

  /** `debug_analysis`: an error result comes back unchanged; otherwise the
      result gains the seven criteria and how many of them hold. */
  function DebugAnalysis(path: string, reading: Reading): (r: (Analysis, Option<DebugInfo>))
    ensures r.0 == AnalyzeImage(path, reading)
    ensures r.0.HasError() <==> r.1.None?
    ensures r.1.Some? ==> r.1.value.criteriaPassed <= 7 && r.1.value.requiredCriteria == RequiredCriteria
  {
    var a := AnalyzeImage(path, reading);
    if a.HasError() then (a, None)
    else
      var c := DebugCriteria(a.metrics);
      (a, Some(DebugInfo(c, CountTrue(c), RequiredCriteria)))
  }

  /** The debug count is the decision's count plus one when the saturation
      variance is low. */
  lemma DebugCountAddsSaturationVariance(m: Metrics)
    requires HasDecisionMetrics(m)
    ensures CountTrue(DebugCriteria(m)) ==
      CriteriaPassed(m) + (if m[SaturationVariance] < SaturationVarianceThreshold then 1 else 0)
  {
    var c := Criteria(m);
    var x := m[SaturationVariance] < SaturationVarianceThreshold;
    CountTrueAppend(c[..3] + [x], c[3..]);
    CountTrueAppend(c[..3], [x]);
    CountTrueAppend(c[..3], c[3..]);
    assert c[..3] + c[3..] == c;
    assert CountTrue([x]) == CountTrue([]) + (if x then 1 else 0);
  }

  /** The debug report can show four criteria passed for an image the
      decision does not call monochrome. */
  lemma DebugCountCanMislead()
    ensures exists m: Metrics ::
      && HasDecisionMetrics(m) && CountTrue(DebugCriteria(m)) == 4 && !IsMonochromeImage(m)
  {
    var m := map[BgrVariance := 0.0, BgrChannelDiff := 0.0, AvgSaturation := 0.0,
                 SaturationVariance := 0.0, HueVariance := 1.0, BgrHistCorrelation := 0.0,
                 HighSaturationRatio := 1.0];
    assert HasDecisionMetrics(m);
    var c, d := Criteria(m), DebugCriteria(m);
    assert c == [true, true, true, false, false, false];
    assert d == [true, true, true, true, false, false, false];
    assert (set i | 0 <= i < |c| && c[i]) == {0, 1, 2};
    assert (set i | 0 <= i < |d| && d[i]) == {0, 1, 2, 3};
    CountTrueIsCardinality(c);
    CountTrueIsCardinality(d);
  }
}
