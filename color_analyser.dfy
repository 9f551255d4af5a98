/** The analysis thread of the desktop tool: a per-image summary of the
    detector's result, and the accumulation of monochrome candidates as the
    worker pool completes. The pool itself is not modelled: the images are
    taken one at a time in a completion order that the caller supplies. */
module ColorAnalyser {
  import opened Outcomes
  import CD = ColorDetector

  /** What `process_image` obtained: the detector's result, or an exception
      (with its text) raised before a result existed. */
  datatype Outcome = Returned(analysis: CD.Analysis) | Raised(message: string)

  /** The tuple `(path, is_mono, confidence, criteria_passed, err)`. */
  datatype Summary = Summary(path: string, isMono: Option<bool>, confidence: real,
                             criteriaPassed: Option<nat>, err: Option<string>)

  const CandidateConfidence: real := 0.4

  /** `metrics.get(key, inf) < t`: a missing metric never passes. */
  predicate BelowOrMissingFails(m: CD.Metrics, key: string, t: real) {
    key in m && m[key] < t
  }

  /** `metrics.get(key, -1.0) > t`. */
  predicate AboveWithDefault(m: CD.Metrics, key: string, t: real) {
    (if key in m then m[key] else -1.0) > t
  }

  /** The six criteria as the summary computes them from a possibly
      incomplete metrics map. */
  function SummaryCriteria(m: CD.Metrics): (c: seq<bool>)
    ensures |c| == 6
  {
    [ BelowOrMissingFails(m, CD.BgrVariance, CD.ColorVarianceThreshold),
      BelowOrMissingFails(m, CD.BgrChannelDiff, CD.ChannelDiffThreshold),
      BelowOrMissingFails(m, CD.AvgSaturation, CD.SaturationThreshold),
      BelowOrMissingFails(m, CD.HueVariance, CD.HueVarianceThreshold),
      AboveWithDefault(m, CD.BgrHistCorrelation, CD.HistCorrelationThreshold),
      BelowOrMissingFails(m, CD.HighSaturationRatio, CD.HighSaturationRatioThreshold) ]
  }

  /** `process_image`: a candidate is reported with `is_mono` True; any other
      result carries the count of criteria that hold; an exception becomes an
      error tuple. */
  function ProcessImage(path: string, outcome: Outcome): (s: Summary)
    ensures s.path == path
    ensures s.isMono == Some(true) <==>
      outcome.Returned? && outcome.analysis.IsMonochrome() && outcome.analysis.Confidence() >= CandidateConfidence
    ensures s.err.Some? <==> outcome.Raised?
    ensures s.err.Some? ==> s.isMono.None? && s.confidence == 0.0 && s.criteriaPassed.None?
    ensures s.isMono == Some(false) ==> s.criteriaPassed.Some? && s.criteriaPassed.value <= 6
  {
    match outcome
    case Raised(msg) => Summary(path, None, 0.0, None, Some(msg))
    case Returned(a) =>
      if a.IsMonochrome() && a.Confidence() >= CandidateConfidence then
        Summary(path, Some(true), a.Confidence(), None, None)
      else
        Summary(path, Some(false), a.Confidence(), Some(CD.CountTrue(SummaryCriteria(a.MetricsMap()))), None)
  }

  /** With every metric present, the summary's count is the detector's own. */
  lemma SummaryCountAgreesWithDetector(path: string, a: CD.Analysis)
    requires a.Analysed? && CD.HasDecisionMetrics(a.metrics)
    requires !(a.monochrome && a.confidence >= CandidateConfidence)
    ensures ProcessImage(path, Returned(a)).criteriaPassed == Some(CD.CriteriaPassed(a.metrics))
  {
    var m := a.metrics;
    assert CD.DecisionKeys[0] == CD.BgrVariance && CD.DecisionKeys[1] == CD.BgrChannelDiff;
    assert CD.DecisionKeys[2] == CD.AvgSaturation && CD.DecisionKeys[4] == CD.HueVariance;
    assert CD.DecisionKeys[5] == CD.BgrHistCorrelation && CD.DecisionKeys[6] == CD.HighSaturationRatio;
    assert SummaryCriteria(m) == CD.Criteria(m);
  }

  /** An error result has empty metrics, so its count is zero. */
  lemma ErrorResultCountsZero(path: string, message: string)
    ensures ProcessImage(path, Returned(CD.Failed(message))).criteriaPassed == Some(0)
  {
    var c := SummaryCriteria(map[]);
    assert (set i | 0 <= i < |c| && c[i]) == {};
    CD.CountTrueIsCardinality(c);
  }

  /** `if err:` — an empty exception text is falsy and is not reported as an
      error. */
  predicate ErrSet(s: Summary) {
    s.err.Some? && s.err.value != ""
  }

  /** The loop body's test for appending a completed path. */
  predicate Accepted(s: Summary) {
    !ErrSet(s) && s.isMono == Some(true)
  }

  /** The candidates accumulated over a completion order. */
  function Accumulate(completed: seq<string>, analyse: string -> Outcome): (r: seq<string>)
    ensures |r| <= |completed|
  {
    if completed == [] then []
    else
      var rest := Accumulate(completed[..|completed| - 1], analyse);
      var p := completed[|completed| - 1];
      if Accepted(ProcessImage(p, analyse(p))) then rest + [p] else rest
  }

  /** Each path occurs among the candidates as often as it was completed, if
      it passes the candidate rule, and otherwise not at all. */
  lemma {:induction false} AccumulateCount(completed: seq<string>, analyse: string -> Outcome, p: string)
    ensures multiset(Accumulate(completed, analyse))[p] ==
      if Accepted(ProcessImage(p, analyse(p))) then multiset(completed)[p] else 0
  {
    if completed != [] {
      var init := completed[..|completed| - 1];
      AccumulateCount(init, analyse, p);
      assert completed == init + [completed[|completed| - 1]];
    }
  }

  /** The completion order changes the order of the candidates but not
      which candidates there are. */
  lemma CandidatesIndependentOfOrder(order1: seq<string>, order2: seq<string>, analyse: string -> Outcome)
    requires multiset(order1) == multiset(order2)
    ensures multiset(Accumulate(order1, analyse)) == multiset(Accumulate(order2, analyse))
  {
    forall p ensures multiset(Accumulate(order1, analyse))[p] == multiset(Accumulate(order2, analyse))[p] {
      AccumulateCount(order1, analyse, p);
      AccumulateCount(order2, analyse, p);
    }
  }

  /** A candidate is an input path whose detector result is monochrome with
      confidence at least 0.4. */
  lemma CandidatesAreMonochromeInputs(paths: seq<string>, completed: seq<string>,
                                      analyse: string -> Outcome, p: string)
    requires multiset(completed) == multiset(paths)
    ensures p in Accumulate(completed, analyse) <==>
      p in paths && analyse(p).Returned? && analyse(p).analysis.IsMonochrome()
      && analyse(p).analysis.Confidence() >= CandidateConfidence
  {
    AccumulateCount(completed, analyse, p);
    assert p in paths <==> multiset(paths)[p] > 0;
    assert p in Accumulate(completed, analyse) <==> multiset(Accumulate(completed, analyse))[p] > 0;
  }

  /** `ColorAnalysisThread.run`: take the summaries in completion order and
      append every candidate path. `completed` is the pool's completion
      order, a permutation of the input paths. */
  method Run(paths: seq<string>, completed: seq<string>, analyse: string -> Outcome)
    returns (candidates: seq<string>)
    requires multiset(completed) == multiset(paths)
    ensures candidates == Accumulate(completed, analyse)
  {
    candidates := [];
    for j := 0 to |completed|
      invariant candidates == Accumulate(completed[..j], analyse)
    {
      assert completed[..j + 1][..j] == completed[..j];
      var summary := ProcessImage(completed[j], analyse(completed[j]));
      if ErrSet(summary) {
        continue;
      }
      if summary.isMono == Some(true) {
        candidates := candidates + [summary.path];
      }
    }
    assert completed[..|completed|] == completed;
  }

  /** `max(1, min(8, os.cpu_count() or 2))`; an unknown or zero count counts
      as two. */
  function WorkerCount(cpuCount: Option<nat>): (w: nat)
    ensures 1 <= w <= 8
    ensures cpuCount.Some? && 1 <= cpuCount.value <= 8 ==> w == cpuCount.value
    ensures cpuCount.Some? && cpuCount.value > 8 ==> w == 8
    ensures (cpuCount.None? || cpuCount.value == 0) ==> w == 2
  {
    var n := if cpuCount.None? || cpuCount.value == 0 then 2 else cpuCount.value;
    if n > 8 then 8 else n
  }
}
