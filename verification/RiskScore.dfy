/** The release-risk rubric: ten drivers, rounded contributions, a score, a band, a verdict. */
module RiskScore {
  import opened RealMath

  datatype Severity = LowSeverity | MediumSeverity | HighSeverity | CriticalSeverity

  datatype Ownership = TeamOwned | SoloOwner | Unowned

  datatype Sensitivity = NoneSensitive | LowSensitive | MediumSensitive | HighSensitive

  datatype Features = Features(
    totalTests: nat, passedTests: nat, failedTests: nat, linesAdded: nat, linesRemoved: nat, defectDensity: real,
    severities: seq<Severity>, uncovered: nat, totalCriteria: nat, flakiness: real, incidents: nat,
    ownership: Ownership, sensitivity: Sensitivity, untestedModules: seq<string>)

  // What the value object accepts.
  predicate Valid(f: Features) {
    && f.passedTests + f.failedTests <= f.totalTests && f.uncovered <= f.totalCriteria
    && 0.0 <= f.flakiness <= 1.0 && f.defectDensity >= 0.0
  }

  function CriticalFailures(s: seq<Severity>): nat {
    if s == [] then 0 else CriticalFailures(s[1..]) + if s[0].HighSeverity? || s[0].CriticalSeverity? then 1 else 0
  }

  // `part / whole`, zero for an empty whole.
  function Ratio(part: nat, whole: nat): real { if whole == 0 then 0.0 else part as real / whole as real }

  function Clamp(x: real): real { if x < 0.0 then 0.0 else if x > 1.0 then 1.0 else x }

  // ------------------------------------------------------------ drivers

  datatype Driver =
    | FailRate | CriticalFailureCount | UncoveredAcceptance | Flakiness | ChangeVolume
    | DefectDensity | RecentIncidents | OwnershipGap | SecuritySensitivity | UntestedModules

  const ALL: seq<Driver> :=
    [FailRate, CriticalFailureCount, UncoveredAcceptance, Flakiness, ChangeVolume,
     DefectDensity, RecentIncidents, OwnershipGap, SecuritySensitivity, UntestedModules]

  datatype Scorer = Scorer(weights: Driver -> real, changeSaturation: nat, incidentSaturation: nat,
                           densitySaturation: real, medium: int, high: int, critical: int)

  // The saturation knobs divide, so they must be positive.
  predicate Usable(c: Scorer) {
    c.changeSaturation > 0 && c.incidentSaturation > 0 && c.densitySaturation > 0.0
  }

  ghost predicate NonNegativeWeights(c: Scorer) { forall d :: c.weights(d) >= 0.0 }

  function Raw(c: Scorer, f: Features, d: Driver): real
    requires Usable(c)
  {
    match d
    case FailRate => Ratio(f.failedTests, f.totalTests)
    case CriticalFailureCount => Min(CriticalFailures(f.severities) as real / 5.0, 1.0)
    case UncoveredAcceptance =>
      var coverage := if f.totalCriteria == 0 then 1.0 else 1.0 - Ratio(f.uncovered, f.totalCriteria);
      1.0 - coverage
    case Flakiness => f.flakiness
    case ChangeVolume => Min(Ratio(f.linesAdded + f.linesRemoved, c.changeSaturation), 1.0)
    case DefectDensity => Min(f.defectDensity / c.densitySaturation, 1.0)
    case RecentIncidents => Min(Ratio(f.incidents, c.incidentSaturation), 1.0)
    case OwnershipGap => (match f.ownership case Unowned => 1.0 case SoloOwner => 0.5 case TeamOwned => 0.0)
    case SecuritySensitivity =>
      (match f.sensitivity
       case NoneSensitive => 0.0
       case LowSensitive => 0.25
       case MediumSensitive => 0.6
       case HighSensitive => 1.0)
    case UntestedModules => Min(|f.untestedModules| as real / 3.0, 1.0)
  }

  function Weigh(w: real, x: real): real { w * x }

  // Rounded to four decimals.
  function Points(w: real, x: real): real { RoundHalfEven(Weigh(w, x) * 10000.0) as real / 10000.0 }

  function Contribution(c: Scorer, f: Features, d: Driver): real
    requires Usable(c)
  {
    Points(c.weights(d), Clamp(Raw(c, f, d)))
  }

  function SumContributions(c: Scorer, f: Features, ds: seq<Driver>): real
    requires Usable(c)
  {
    if ds == [] then 0.0 else Contribution(c, f, ds[0]) + SumContributions(c, f, ds[1..])
  }

  function Score(c: Scorer, f: Features): int
    requires Usable(c)
  {
    var s := RoundHalfEven(SumContributions(c, f, ALL) * 100.0);
    if s > 100 then 100 else if s < 0 then 0 else s
  }

  datatype Band = LowBand | MediumBand | HighBand | CriticalBand

  function BandFor(c: Scorer, score: int): Band {
    if score >= c.critical then CriticalBand
    else if score >= c.high then HighBand
    else if score >= c.medium then MediumBand
    else LowBand
  }

  datatype Recommendation = Go | GoWithApproval | NoGo

  function RecommendationFor(b: Band): Recommendation {
    match b
    case LowBand => Go
    case MediumBand => GoWithApproval
    case _ => NoGo
  }

  function BandRank(b: Band): nat {
    match b
    case LowBand => 0
    case MediumBand => 1
    case HighBand => 2
    case CriticalBand => 3
  }

  function VerdictRank(r: Recommendation): nat { match r case Go => 0 case GoWithApproval => 1 case NoGo => 2 }

  // ------------------------------------------------------------ normalisation

  lemma RatioUnit(part: nat, whole: nat)
    requires part <= whole
    ensures 0.0 <= Ratio(part, whole) <= 1.0
  {
    if whole > 0 { Quotient(part as real, whole as real, whole as real); }
  }

  lemma Quotient(x: real, y: real, d: real)
    requires 0.0 <= x <= y && d > 0.0
    ensures 0.0 <= x / d <= y / d
    ensures d / d == 1.0
  {
    assert y / d - x / d == (y - x) / d;
  }

  // On every accepted feature set each driver is already between 0 and 1: the clamp in front of
  // the weight never changes anything.
  lemma RawIsUnit(c: Scorer, f: Features, d: Driver)
    requires Usable(c) && Valid(f)
    ensures 0.0 <= Raw(c, f, d) <= 1.0 && Clamp(Raw(c, f, d)) == Raw(c, f, d)
  {
    RatioUnit(f.failedTests, f.totalTests);
    RatioUnit(f.uncovered, f.totalCriteria);
    Quotient(0.0, f.defectDensity, c.densitySaturation);
    Quotient(0.0, (f.linesAdded + f.linesRemoved) as real, c.changeSaturation as real);
    Quotient(0.0, f.incidents as real, c.incidentSaturation as real);
  }

  // ------------------------------------------------------------ monotonicity

  function OwnershipRank(o: Ownership): nat { match o case TeamOwned => 0 case SoloOwner => 1 case Unowned => 2 }

  function SensitivityRank(s: Sensitivity): nat {
    match s case NoneSensitive => 0 case LowSensitive => 1 case MediumSensitive => 2 case HighSensitive => 3
  }

  // `g` is at least as bad as `f` in every scored input, over the same totals.
  predicate Worse(f: Features, g: Features) {
    && f.totalTests == g.totalTests && f.failedTests <= g.failedTests
    && f.totalCriteria == g.totalCriteria && f.uncovered <= g.uncovered
    && CriticalFailures(f.severities) <= CriticalFailures(g.severities)
    && f.linesAdded + f.linesRemoved <= g.linesAdded + g.linesRemoved
    && f.defectDensity <= g.defectDensity && f.flakiness <= g.flakiness && f.incidents <= g.incidents
    && OwnershipRank(f.ownership) <= OwnershipRank(g.ownership)
    && SensitivityRank(f.sensitivity) <= SensitivityRank(g.sensitivity)
    && |f.untestedModules| <= |g.untestedModules|
  }

  lemma RatioMonotone(a: nat, b: nat, whole: nat)
    requires a <= b
    ensures Ratio(a, whole) <= Ratio(b, whole)
  {
    if whole > 0 { Quotient(a as real, b as real, whole as real); }
  }

  lemma RawMonotone(c: Scorer, f: Features, g: Features, d: Driver)
    requires Usable(c) && Valid(f) && Valid(g) && Worse(f, g)
    ensures Raw(c, f, d) <= Raw(c, g, d)
  {
    match d {
      case FailRate => RatioMonotone(f.failedTests, g.failedTests, f.totalTests);
      case UncoveredAcceptance => RatioMonotone(f.uncovered, g.uncovered, f.totalCriteria);
      case ChangeVolume => RatioMonotone(f.linesAdded + f.linesRemoved, g.linesAdded + g.linesRemoved,
                                         c.changeSaturation);
      case DefectDensity => Quotient(f.defectDensity, g.defectDensity, c.densitySaturation);
      case RecentIncidents => RatioMonotone(f.incidents, g.incidents, c.incidentSaturation);
      case _ =>
    }
  }

  lemma WeighMonotone(w: real, x: real, y: real)
    requires w >= 0.0 && x <= y
    ensures Weigh(w, x) <= Weigh(w, y)
    ensures Weigh(w, 0.0) == 0.0 && Weigh(w, 1.0) == w
  {
    assert w * (y - x) >= 0.0;
  }

  lemma PointsMonotone(w: real, x: real, y: real)
    requires w >= 0.0 && x <= y
    ensures Points(w, x) <= Points(w, y)
  {
    WeighMonotone(w, x, y);
    RoundMonotone(Weigh(w, x) * 10000.0, Weigh(w, y) * 10000.0);
  }

  lemma PointsClose(w: real, x: real)
    requires w >= 0.0 && x >= 0.0
    ensures Points(w, x) >= 0.0
    ensures -0.00005 <= Points(w, x) - Weigh(w, x) <= 0.00005
  {
    WeighMonotone(w, 0.0, x);
    RoundClose(Weigh(w, x) * 10000.0);
    RoundMonotone(0.0, Weigh(w, x) * 10000.0);
  }

  lemma ContributionMonotone(c: Scorer, f: Features, g: Features, d: Driver)
    requires Usable(c) && NonNegativeWeights(c) && Valid(f) && Valid(g) && Worse(f, g)
    ensures Contribution(c, f, d) <= Contribution(c, g, d)
  {
    RawMonotone(c, f, g, d);
    ClampMonotone(Raw(c, f, d), Raw(c, g, d));
    PointsMonotone(c.weights(d), Clamp(Raw(c, f, d)), Clamp(Raw(c, g, d)));
  }

  lemma ClampMonotone(x: real, y: real)
    requires x <= y
    ensures Clamp(x) <= Clamp(y)
  {
  }

  lemma {:induction false} SumMonotone(c: Scorer, f: Features, g: Features, ds: seq<Driver>)
    requires Usable(c) && NonNegativeWeights(c) && Valid(f) && Valid(g) && Worse(f, g)
    ensures SumContributions(c, f, ds) <= SumContributions(c, g, ds)
  {
    if ds != [] {
      ContributionMonotone(c, f, g, ds[0]);
      SumMonotone(c, f, g, ds[1..]);
    }
  }

  // Bands and verdicts follow the score upwards for any thresholds, ordered or not.
  lemma BandMonotone(c: Scorer, s: int, t: int)
    requires s <= t
    ensures BandRank(BandFor(c, s)) <= BandRank(BandFor(c, t))
    ensures VerdictRank(RecommendationFor(BandFor(c, s))) <= VerdictRank(RecommendationFor(BandFor(c, t)))
  {
  }

  // Worse inputs never get a lower score, a milder band or a milder recommendation.
  lemma ScoreMonotone(c: Scorer, f: Features, g: Features)
    requires Usable(c) && NonNegativeWeights(c) && Valid(f) && Valid(g) && Worse(f, g)
    ensures Score(c, f) <= Score(c, g)
    ensures BandRank(BandFor(c, Score(c, f))) <= BandRank(BandFor(c, Score(c, g)))
    ensures VerdictRank(RecommendationFor(BandFor(c, Score(c, f)))) <=
            VerdictRank(RecommendationFor(BandFor(c, Score(c, g))))
  {
    SumMonotone(c, f, g, ALL);
    RoundMonotone(SumContributions(c, f, ALL) * 100.0, SumContributions(c, g, ALL) * 100.0);
    BandMonotone(c, Score(c, f), Score(c, g));
  }

  // ------------------------------------------------------------ accuracy

  // The rubric without any rounding.
  function WeightedSum(c: Scorer, f: Features, ds: seq<Driver>): real
    requires Usable(c)
  {
    if ds == [] then 0.0 else Weigh(c.weights(ds[0]), Raw(c, f, ds[0])) + WeightedSum(c, f, ds[1..])
  }

  lemma ContributionClose(c: Scorer, f: Features, d: Driver)
    requires Usable(c) && NonNegativeWeights(c) && Valid(f)
    ensures Contribution(c, f, d) >= 0.0
    ensures -0.00005 <= Contribution(c, f, d) - Weigh(c.weights(d), Raw(c, f, d)) <= 0.00005
  {
    RawIsUnit(c, f, d);
    PointsClose(c.weights(d), Raw(c, f, d));
  }

  lemma {:induction false} SumClose(c: Scorer, f: Features, ds: seq<Driver>)
    requires Usable(c) && NonNegativeWeights(c) && Valid(f)
    ensures SumContributions(c, f, ds) >= 0.0
    ensures -0.00005 * |ds| as real <= SumContributions(c, f, ds) - WeightedSum(c, f, ds) <= 0.00005 * |ds| as real
  {
    if ds != [] {
      var e := Weigh(c.weights(ds[0]), Raw(c, f, ds[0]));
      ContributionClose(c, f, ds[0]);
      SumClose(c, f, ds[1..]);
      SlackStep(|ds[1..]|, Contribution(c, f, ds[0]) - e, SumContributions(c, f, ds[1..]) - WeightedSum(c, f, ds[1..]));
    }
  }

  lemma SlackStep(n: nat, x: real, y: real)
    requires -0.00005 <= x <= 0.00005 && -0.00005 * n as real <= y <= 0.00005 * n as real
    ensures -0.00005 * (n + 1) as real <= x + y <= 0.00005 * (n + 1) as real
  {
  }

  // The score is a whole number from 0 to 100, and when the weighted sum is at most one it is
  // within 0.55 of a hundred times it, although every contribution is rounded on its own.
  lemma ScoreAccurate(c: Scorer, f: Features)
    requires Usable(c) && NonNegativeWeights(c) && Valid(f)
    ensures 0 <= Score(c, f) <= 100
    ensures WeightedSum(c, f, ALL) <= 1.0 ==> -0.55 <= Score(c, f) as real - 100.0 * WeightedSum(c, f, ALL) <= 0.55
  {
    SumClose(c, f, ALL);
    var x := SumContributions(c, f, ALL) * 100.0;
    assert |ALL| as real == 10.0;
    RoundClose(x);
    RoundMonotone(0.0, x);
  }

  lemma {:induction false} SumWeights(c: Scorer, f: Features, ds: seq<Driver>)
    requires Usable(c) && NonNegativeWeights(c) && Valid(f)
    ensures 0.0 <= WeightedSum(c, f, ds) <= TotalWeight(c, ds)
  {
    if ds != [] {
      SumWeights(c, f, ds[1..]);
      RawIsUnit(c, f, ds[0]);
      WeighMonotone(c.weights(ds[0]), 0.0, Raw(c, f, ds[0]));
      WeighMonotone(c.weights(ds[0]), Raw(c, f, ds[0]), 1.0);
    }
  }

  function TotalWeight(c: Scorer, ds: seq<Driver>): real {
    if ds == [] then 0.0 else c.weights(ds[0]) + TotalWeight(c, ds[1..])
  }

  // Weights that add up to at most one give that accuracy for every feature set; the scorer's
  // own check lets them add up to anything from 0.99 to 1.01.
  lemma NormalisedWeightsAccurate(c: Scorer, f: Features)
    requires Usable(c) && NonNegativeWeights(c) && Valid(f) && TotalWeight(c, ALL) <= 1.0
    ensures -0.55 <= Score(c, f) as real - 100.0 * WeightedSum(c, f, ALL) <= 0.55
  {
    SumWeights(c, f, ALL);
    ScoreAccurate(c, f);
  }

  // ------------------------------------------------------------ the rubric in words

  lemma {:induction false} CriticalCount(s: seq<Severity>)
    ensures CriticalFailures(s) == multiset(s)[HighSeverity] + multiset(s)[CriticalSeverity]
  {
    if s != [] {
      CriticalCount(s[1..]);
      assert s == [s[0]] + s[1..];
    }
  }

  lemma Share(part: real, whole: real)
    requires part >= 0.0 && whole > 0.0
    ensures part / whole * whole == part && Min(part / whole, 1.0) * whole == Min(part, whole)
  {
    if part <= whole { Quotient(part, whole, whole); } else { Quotient(whole, part, whole); }
  }

  // Shares of the whole; without tests, or criteria, there is nothing to fail.
  lemma SharesAre(c: Scorer, f: Features)
    requires Usable(c) && Valid(f)
    ensures if f.totalTests == 0 then Raw(c, f, FailRate) == 0.0
            else Raw(c, f, FailRate) * f.totalTests as real == f.failedTests as real
    ensures if f.totalCriteria == 0 then Raw(c, f, UncoveredAcceptance) == 0.0
            else Raw(c, f, UncoveredAcceptance) * f.totalCriteria as real == f.uncovered as real
    ensures Raw(c, f, Flakiness) == f.flakiness
  {
    if f.totalTests > 0 { Share(f.failedTests as real, f.totalTests as real); }
    if f.totalCriteria > 0 { Share(f.uncovered as real, f.totalCriteria as real); }
  }

  // Shares of the point at which the driver is saturated.
  lemma SaturatedAre(c: Scorer, f: Features, lines: real, incidents: real)
    requires Usable(c) && Valid(f)
    requires lines == (f.linesAdded + f.linesRemoved) as real && incidents == f.incidents as real
    ensures Raw(c, f, ChangeVolume) * c.changeSaturation as real == Min(lines, c.changeSaturation as real)
    ensures Raw(c, f, RecentIncidents) * c.incidentSaturation as real == Min(incidents, c.incidentSaturation as real)
    ensures Raw(c, f, DefectDensity) * c.densitySaturation == Min(f.defectDensity, c.densitySaturation)
  {
    Share(lines, c.changeSaturation as real);
    Share(incidents, c.incidentSaturation as real);
    Share(f.defectDensity, c.densitySaturation);
  }

  // Fixed saturation points, and levels.
  lemma LevelsAre(c: Scorer, f: Features)
    requires Usable(c) && Valid(f)
    ensures Raw(c, f, CriticalFailureCount) * 5.0 ==
            Min((multiset(f.severities)[HighSeverity] + multiset(f.severities)[CriticalSeverity]) as real, 5.0)
    ensures Raw(c, f, UntestedModules) * 3.0 == Min(|f.untestedModules| as real, 3.0)
    ensures Raw(c, f, OwnershipGap) * 2.0 == OwnershipRank(f.ownership) as real
    ensures Raw(c, f, SecuritySensitivity) == [0.0, 0.25, 0.6, 1.0][SensitivityRank(f.sensitivity)]
  {
    CriticalCount(f.severities);
  }

  function Place(d: Driver): nat {
    match d
    case FailRate => 0
    case CriticalFailureCount => 1
    case UncoveredAcceptance => 2
    case Flakiness => 3
    case ChangeVolume => 4
    case DefectDensity => 5
    case RecentIncidents => 6
    case OwnershipGap => 7
    case SecuritySensitivity => 8
    case UntestedModules => 9
  }

  // Every driver is scored, and once.
  lemma EveryDriver(i: nat, d: Driver)
    ensures |ALL| == 10 && (i < 10 ==> (ALL[i] == d <==> i == Place(d)))
  {
  }

  // A contribution is the weighted share to the nearest ten-thousandth, and the score the sum of
  // the contributions to the nearest hundredth, between none and a hundred of them; a tie goes
  // to the even number.
  lemma ScoreIs(c: Scorer, f: Features, d: Driver, tenThousandths: int, hundredths: int)
    requires Usable(c) && Valid(f)
    ensures Contribution(c, f, d) == tenThousandths as real / 10000.0 <==>
            NearestEven(c.weights(d) * Raw(c, f, d) * 10000.0, tenThousandths)
    ensures NearestEven(SumContributions(c, f, ALL) * 100.0, hundredths) ==>
            Score(c, f) == if hundredths < 0 then 0 else if hundredths > 100 then 100 else hundredths
  {
    RawIsUnit(c, f, d);
    var w, x := c.weights(d), Raw(c, f, d);
    RoundExact(Weigh(w, x) * 10000.0, tenThousandths);
    RoundExact(SumContributions(c, f, ALL) * 100.0, hundredths);
  }

  // No release below the medium mark needs approval; from the high or the critical mark on,
  // whichever is lower, none goes out.
  lemma RecommendationIs(c: Scorer, score: int)
    ensures var r := RecommendationFor(BandFor(c, score));
            && (r == NoGo <==> score >= c.high || score >= c.critical)
            && (r == Go <==> score < c.high && score < c.critical && score < c.medium)
    ensures BandFor(c, score) == CriticalBand <==> score >= c.critical
    ensures BandFor(c, score) == LowBand <==> score < c.medium && score < c.high && score < c.critical
  {
  }
}
