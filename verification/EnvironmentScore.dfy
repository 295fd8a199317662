/** `environment_score_v1` and the auditor's separate closed forms, in exact arithmetic.  A call that raises ValueError
    returns None; square roots are given by their defining property. */
module EnvironmentScore {
  import opened Outcomes
  import opened RealOrder

  /** A metric: absent or None, a Decimal that is not finite, or a number. */
  datatype Metric = Missing | NotFinite | Finite(value: real)

  datatype Metrics = Metrics(
    rankIc: Metric, ic: Metric, rankIcir: Metric, icir: Metric, tStat: Metric, coverage: Metric, samples: Metric,
    retention: Metric, consistency: Metric, sharpe: Metric, netReturn: Metric, drawdown: Metric, turnover: Metric)

  datatype Score = Score(
    strength: real, stability: real, oos: real, confidenceScore: real, economics: real, penalty: real,
    confidence: real, metricScore: real)

  function Min(a: real, b: real): real {
    if a <= b then a else b
  }

  function Clip(x: real): (r: real)
    ensures 0.0 <= r <= 1.0
  {
    Min(Max(x, 0.0), 1.0)
  }

  /** The value of a metric that counts as zero when it is missing. */
  function Or0(m: Metric): Option<real> {
    match m
    case Missing => Some(0.0)
    case NotFinite => None
    case Finite(x) => Some(x)
  }

  /** Zero is a real value: only an absent metric falls back. */
  function Preferred(primary: Metric, fallback: Metric): Metric {
    if primary.Missing? then fallback else primary
  }

  /** `linear_score` */
  function LinearScore(m: Metric, lower: real, upper: real): Option<real> {
    if upper <= lower then None
    else
      match m
      case Missing => Some(0.0)
      case NotFinite => None
      case Finite(x) => Some(100.0 * Clip((x - lower) / (upper - lower)))
  }

  /** `root` is the square root of samples / (samples + 30). */
  ghost predicate IsRoot(root: real, samples: real)
    requires samples >= 0.0
  {
    root >= 0.0 && root * root == samples / (samples + 30.0)
  }

  function Penalty(drawdown: real, turnover: real): real {
    50.0 * Max(Abs(drawdown) - 0.20, 0.0) + 20.0 * Max(turnover - 0.50, 0.0)
  }

  /** The samples that count: missing is none, and negative is none. */
  function Samples(m: Metrics): real {
    if m.samples.Finite? then Max(m.samples.value, 0.0) else 0.0
  }

  /** What the weighted sum is made of: linear scores up to 100, ratios up to 1, and the penalty. */
  datatype Parts = Parts(
    ic: real, icir: real, tStat: real, sharpe: real, netReturn: real, consistency: real, retention: real,
    confidence: real, penalty: real)

  function Confidence(m: Metrics, coverage: real, root: real): real {
    if Samples(m) != 0.0 then Clip(coverage) * root else 0.0
  }

  function PartsOf(m: Metrics, minimumTStat: real, root: real): Option<Parts> {
    var ic := LinearScore(Preferred(m.rankIc, m.ic), 0.01, 0.05);
    var icir := LinearScore(Preferred(m.rankIcir, m.icir), 0.35, 0.90);
    var tStat := LinearScore(m.tStat, minimumTStat, 5.0);
    var sharpe, netReturn := LinearScore(m.sharpe, 0.0, 2.0), LinearScore(m.netReturn, 0.0, 0.10);
    var coverage, samples := Or0(m.coverage), Or0(m.samples);
    var consistency, retention := Or0(m.consistency), Or0(m.retention);
    var drawdown, turnover := Or0(m.drawdown), Or0(m.turnover);
    if ic.None? || icir.None? || tStat.None? || sharpe.None? || netReturn.None? || coverage.None? || samples.None?
       || consistency.None? || retention.None? || drawdown.None? || turnover.None? then None
    else
      Some(Parts(
             ic.value, icir.value, tStat.value, sharpe.value, netReturn.value, Clip(consistency.value),
             Clip(retention.value), Confidence(m, coverage.value, root), Penalty(drawdown.value, turnover.value)))
  }

  /** The weighted sum. */
  function Assemble(p: Parts): Score {
    var strength := 0.6 * p.ic + 0.4 * p.icir;
    var stability := 0.7 * 100.0 * p.consistency + 0.3 * p.tStat;
    var oos := 100.0 * p.retention;
    var economics := 0.6 * p.sharpe + 0.4 * p.netReturn;
    var total := 0.30 * strength + 0.25 * stability + 0.20 * oos + 0.15 * (100.0 * p.confidence) + 0.10 * economics
      - p.penalty;
    Score(
      strength, stability, oos, 100.0 * p.confidence, economics, p.penalty, p.confidence,
      Min(Max(total, 0.0), 100.0))
  }

  /** `environment_score_v1`; `root` is the square root for the effective samples. */
  function EnvironmentScore(m: Metrics, minimumTStat: real, root: real): Option<Score> {
    var parts := PartsOf(m, minimumTStat, root);
    if parts.None? then None else Some(Assemble(parts.value))
  }

  // ---- The auditor's closed forms ----

  function ExpectedEconomics(sharpe: real, netReturn: real): real {
    60.0 * Clip(sharpe / 2.0) + 40.0 * Clip(netReturn / 0.10)
  }

  function ExpectedPenalty(drawdown: real, turnover: real): real {
    50.0 * Max(Abs(drawdown) - 0.20, 0.0) + 20.0 * Max(turnover - 0.50, 0.0)
  }

  function ExpectedOos(retention: real): real {
    100.0 * Clip(retention)
  }

  /** Each component of the score is what the auditor recomputes from the fields of that component alone, whatever the
      other fields are. */
  lemma AuditorAgrees(m: Metrics, minimumTStat: real, root: real)
    requires EnvironmentScore(m, minimumTStat, root).Some?
    ensures
      var s := EnvironmentScore(m, minimumTStat, root).value;
      (m.sharpe.Finite? && m.netReturn.Finite? ==> s.economics == ExpectedEconomics(m.sharpe.value, m.netReturn.value))
      && (m.drawdown.Finite? && m.turnover.Finite? ==> s.penalty == ExpectedPenalty(m.drawdown.value, m.turnover.value))
      && (m.retention.Finite? ==> s.oos == ExpectedOos(m.retention.value))
  {
    if m.sharpe.Finite? && m.netReturn.Finite? {
      assert LinearScore(m.sharpe, 0.0, 2.0) == Some(100.0 * Clip(m.sharpe.value / 2.0));
      assert LinearScore(m.netReturn, 0.0, 0.10) == Some(100.0 * Clip(m.netReturn.value / 0.10));
    }
  }

  // ---- When a score exists ----

  /** A score exists exactly when the minimum t-statistic is below 5 and every number that is looked at is finite. */
  lemma ScoreExists(m: Metrics, minimumTStat: real, root: real)
    ensures EnvironmentScore(m, minimumTStat, root).Some?
      <==> minimumTStat < 5.0
           && !m.coverage.NotFinite? && !m.samples.NotFinite? && !m.consistency.NotFinite? && !m.retention.NotFinite?
           && !m.drawdown.NotFinite? && !m.turnover.NotFinite? && !m.tStat.NotFinite? && !m.sharpe.NotFinite?
           && !m.netReturn.NotFinite? && !Preferred(m.rankIc, m.ic).NotFinite?
           && !Preferred(m.rankIcir, m.icir).NotFinite?
  {
  }

  // ---- Bounds ----

  lemma LinearBounds(m: Metric, lower: real, upper: real)
    requires LinearScore(m, lower, upper).Some?
    ensures 0.0 <= LinearScore(m, lower, upper).value <= 100.0
  {
  }

  lemma Share(s: real)
    requires s >= 0.0
    ensures 0.0 <= s / (s + 30.0) < 1.0
  {
    var q := s / (s + 30.0);
    assert q * (s + 30.0) == s;
    Ordered(0.0, q, s + 30.0);
    Ordered(1.0, q, s + 30.0);
  }

  lemma RootBelowOne(root: real, samples: real)
    requires samples >= 0.0 && IsRoot(root, samples)
    ensures 0.0 <= root < 1.0
  {
    Share(samples);
    if root >= 1.0 {
      ProductGrows(1.0, 1.0, root, root);
    }
  }

  lemma ProductBelow(a: real, b: real)
    requires 0.0 <= a <= 1.0 && 0.0 <= b < 1.0
    ensures 0.0 <= a * b < 1.0
  {
    ProductGrows(a, b, 1.0, b);
  }

  predicate InRange(p: Parts) {
    0.0 <= p.ic <= 100.0 && 0.0 <= p.icir <= 100.0 && 0.0 <= p.tStat <= 100.0 && 0.0 <= p.sharpe <= 100.0
    && 0.0 <= p.netReturn <= 100.0 && 0.0 <= p.consistency <= 1.0 && 0.0 <= p.retention <= 1.0
    && 0.0 <= p.confidence < 1.0 && p.penalty >= 0.0
  }

  lemma PartsInRange(m: Metrics, minimumTStat: real, root: real)
    requires 0.0 <= root < 1.0 && PartsOf(m, minimumTStat, root).Some?
    ensures InRange(PartsOf(m, minimumTStat, root).value)
  {
    LinearBounds(Preferred(m.rankIc, m.ic), 0.01, 0.05);
    LinearBounds(Preferred(m.rankIcir, m.icir), 0.35, 0.90);
    LinearBounds(m.tStat, minimumTStat, 5.0);
    LinearBounds(m.sharpe, 0.0, 2.0);
    LinearBounds(m.netReturn, 0.0, 0.10);
    ConfidenceInRange(m, Or0(m.coverage).value, root);
  }

  lemma ConfidenceInRange(m: Metrics, coverage: real, root: real)
    requires 0.0 <= root < 1.0
    ensures 0.0 <= Confidence(m, coverage, root) < 1.0
  {
    var c := Clip(coverage);
    ProductBelow(c, root);
    assert 0.0 <= c * root < 1.0;
    assert Confidence(m, coverage, root) == if Samples(m) != 0.0 then c * root else 0.0;
  }

  lemma AssembleBounds(p: Parts)
    requires InRange(p)
    ensures
      var s := Assemble(p);
      0.0 <= s.metricScore < 100.0 && 0.0 <= s.strength <= 100.0 && 0.0 <= s.stability <= 100.0
      && 0.0 <= s.economics <= 100.0
  {
  }

  /** Scores stay in [0, 100) and confidence in [0, 1). */
  lemma ScoreBounds(m: Metrics, minimumTStat: real, root: real)
    requires IsRoot(root, Samples(m)) && EnvironmentScore(m, minimumTStat, root).Some?
    ensures
      var s := EnvironmentScore(m, minimumTStat, root).value;
      0.0 <= s.metricScore < 100.0 && 0.0 <= s.confidence < 1.0 && s.penalty >= 0.0
      && 0.0 <= s.strength <= 100.0 && 0.0 <= s.stability <= 100.0 && 0.0 <= s.economics <= 100.0
  {
    RootBelowOne(root, Samples(m));
    PartsInRange(m, minimumTStat, root);
    AssembleBounds(PartsOf(m, minimumTStat, root).value);
  }

  // ---- Monotonicity ----

  /** Missing scores like the lower end of the interval. */
  predicate NotBetter(a: Metric, b: Metric) {
    a.Missing? || (a.Finite? && b.Finite? && a.value <= b.value)
  }

  lemma LinearMonotone(a: Metric, b: Metric, lower: real, upper: real)
    requires NotBetter(a, b) && LinearScore(a, lower, upper).Some? && LinearScore(b, lower, upper).Some?
    ensures LinearScore(a, lower, upper).value <= LinearScore(b, lower, upper).value
  {
    LinearBounds(b, lower, upper);
    if a.Finite? {
      QuotientOrder(a.value - lower, b.value - lower, upper - lower);
    }
  }

  lemma RootMonotone(root: real, root': real, samples: real, samples': real)
    requires 0.0 <= samples <= samples' && IsRoot(root, samples) && IsRoot(root', samples')
    ensures root <= root'
  {
    var p, q := samples / (samples + 30.0), samples' / (samples' + 30.0);
    assert p * (samples + 30.0) == samples && q * (samples' + 30.0) == samples';
    Share(samples');
    ProductGrows(0.0, 0.0, samples' - samples, 1.0 - q);
    assert q * (samples + 30.0) == samples + (samples' - samples) * (1.0 - q);
    Ordered(p, q, samples + 30.0);
    SquareOrder(root, root');
  }

  predicate AtMost(a: Metric, b: Metric) {
    !a.NotFinite? && !b.NotFinite? && Or0(a).value <= Or0(b).value
  }

  /** `a` is nowhere better than `b` in any field that the score looks at. */
  predicate Dominated(a: Metrics, b: Metrics) {
    NotBetter(Preferred(a.rankIc, a.ic), Preferred(b.rankIc, b.ic))
    && NotBetter(Preferred(a.rankIcir, a.icir), Preferred(b.rankIcir, b.icir))
    && NotBetter(a.tStat, b.tStat) && NotBetter(a.sharpe, b.sharpe) && NotBetter(a.netReturn, b.netReturn)
    && AtMost(a.coverage, b.coverage) && AtMost(a.samples, b.samples) && AtMost(a.consistency, b.consistency)
    && AtMost(a.retention, b.retention) && AtMost(b.turnover, a.turnover)
    && !a.drawdown.NotFinite? && !b.drawdown.NotFinite? && Abs(Or0(b.drawdown).value) <= Abs(Or0(a.drawdown).value)
  }

  lemma ConfidenceMonotone(coverage: real, coverage': real, root: real, root': real)
    requires 0.0 <= coverage <= coverage' && 0.0 <= root <= root'
    ensures coverage * root <= coverage' * root'
  {
    ProductGrows(coverage, root, coverage', root');
  }

  predicate Below(p: Parts, q: Parts) {
    p.ic <= q.ic && p.icir <= q.icir && p.tStat <= q.tStat && p.sharpe <= q.sharpe && p.netReturn <= q.netReturn
    && p.consistency <= q.consistency && p.retention <= q.retention && p.confidence <= q.confidence
    && q.penalty <= p.penalty
  }

  lemma AssembleMonotone(p: Parts, q: Parts)
    requires Below(p, q)
    ensures Assemble(p).metricScore <= Assemble(q).metricScore
  {
  }

  lemma PartsMonotone(a: Metrics, b: Metrics, minimumTStat: real, root: real, root': real)
    requires Dominated(a, b) && 0.0 <= root <= root' < 1.0
    requires PartsOf(a, minimumTStat, root).Some? && PartsOf(b, minimumTStat, root').Some?
    ensures Below(PartsOf(a, minimumTStat, root).value, PartsOf(b, minimumTStat, root').value)
  {
    LinearMonotone(Preferred(a.rankIc, a.ic), Preferred(b.rankIc, b.ic), 0.01, 0.05);
    LinearMonotone(Preferred(a.rankIcir, a.icir), Preferred(b.rankIcir, b.icir), 0.35, 0.90);
    LinearMonotone(a.tStat, b.tStat, minimumTStat, 5.0);
    LinearMonotone(a.sharpe, b.sharpe, 0.0, 2.0);
    LinearMonotone(a.netReturn, b.netReturn, 0.0, 0.10);
    ConfidencesOrdered(a, b, root, root');
  }

  lemma ConfidencesOrdered(a: Metrics, b: Metrics, root: real, root': real)
    requires AtMost(a.coverage, b.coverage) && AtMost(a.samples, b.samples) && 0.0 <= root <= root' < 1.0
    ensures Confidence(a, Or0(a.coverage).value, root) <= Confidence(b, Or0(b.coverage).value, root')
  {
    if Samples(a) == 0.0 {
      ConfidenceInRange(b, Or0(b.coverage).value, root');
    } else {
      ConfidenceMonotone(Clip(Or0(a.coverage).value), Clip(Or0(b.coverage).value), root, root');
    }
  }

  /** No single improvement lowers the score: it is non-decreasing in every ratio, sample count and return, and
      non-increasing in turnover and in the size of the drawdown. */
  lemma ScoreMonotone(a: Metrics, b: Metrics, minimumTStat: real, root: real, root': real)
    requires Dominated(a, b) && IsRoot(root, Samples(a)) && IsRoot(root', Samples(b))
    requires EnvironmentScore(a, minimumTStat, root).Some? && EnvironmentScore(b, minimumTStat, root').Some?
    ensures
      var s, s' := EnvironmentScore(a, minimumTStat, root).value, EnvironmentScore(b, minimumTStat, root').value;
      s.metricScore <= s'.metricScore && s.confidence <= s'.confidence && s'.penalty <= s.penalty
  {
    RootMonotone(root, root', Samples(a), Samples(b));
    RootBelowOne(root', Samples(b));
    PartsMonotone(a, b, minimumTStat, root, root');
    AssembleMonotone(PartsOf(a, minimumTStat, root).value, PartsOf(b, minimumTStat, root').value);
  }
}
