/** The seed bootstrap and the classification of its intervals against the registered regions. */
module Intervals {
  import opened Common
  import opened Sorting

  // ---- bootstrap -----------------------------------------------------------------------------------

  datatype BootstrapConfig = BootstrapConfig(replicates: int, confidenceLevel: real)

  /** What the constructor accepts. */
  predicate ValidConfig(c: BootstrapConfig) {
    c.replicates >= 1 && 0.0 < c.confidenceLevel < 1.0
  }

  /** A panel value: a finite number, or anything else. */
  datatype Value = Num(x: real) | NotNumeric

  datatype Interval = NotEstimable | Estimable(estimate: real, lower: real, upper: real)

  function RealOrder(): Order<real> {
    (a: real, b: real) => a <= b
  }

  function RealSum(s: seq<real>): real {
    if s == [] then 0.0 else s[0] + RealSum(s[1..])
  }

  function Mean(s: seq<real>): real
    requires s != []
  {
    RealSum(s) / (|s| as real)
  }

  lemma {:induction false} RealSumOfSum(a: seq<real>, b: seq<real>)
    ensures RealSum(a + b) == RealSum(a) + RealSum(b)
  {
    if a == [] {
      assert a + b == b;
    } else {
      assert (a + b)[1..] == a[1..] + b;
      RealSumOfSum(a[1..], b);
    }
  }

  /** The mean is the arithmetic one: that of a single value is the value, and the mean of two parts together weighs
      their means by their lengths. */
  lemma MeanIsArithmetic(x: real, a: seq<real>, b: seq<real>)
    ensures Mean([x]) == x
    ensures a != [] && b != [] ==> Mean(a + b) * (|a| + |b|) as real == Mean(a) * |a| as real + Mean(b) * |b| as real
  {
    assert [x][1..] == [] && RealSum([x]) == x + RealSum([]);
    RealSumOfSum(a, b);
  }

  /** Python's round: to the nearest integer, halves to the even one. */
  function Round(x: real): int {
    var low := x.Floor;
    var rest := x - low as real;
    if rest < 0.5 then low
    else if rest > 0.5 then low + 1
    else if low % 2 == 0 then low
    else low + 1
  }

  /** `draws(i, k)` is the position that the k-th choice of replicate i returned. */
  type Draws = (nat, nat) -> nat

  ghost predicate InRange(draws: Draws, n: nat) {
    forall i, k :: draws(i, k) < n
  }

  function Resample(numeric: seq<real>, draws: Draws, i: nat): (s: seq<real>)
    requires InRange(draws, |numeric|)
    ensures |s| == |numeric| && forall k :: 0 <= k < |s| ==> s[k] in numeric
  {
    seq(|numeric|, k requires 0 <= k < |numeric| => numeric[draws(i, k)])
  }

  function Samples(numeric: seq<real>, draws: Draws, replicates: nat): (s: seq<real>)
    requires numeric != [] && InRange(draws, |numeric|)
    ensures |s| == replicates && forall i :: 0 <= i < |s| ==> s[i] == Mean(Resample(numeric, draws, i))
  {
    seq(replicates, i requires 0 <= i < replicates => Mean(Resample(numeric, draws, i)))
  }

  function Tail(c: BootstrapConfig): real {
    (1.0 - c.confidenceLevel) / 2.0
  }

  lemma Product(a: real, b: real)
    requires 0.0 <= a && 0.0 <= b <= 1.0
    ensures 0.0 <= a * b <= a
  {
  }

  function Scale(n: real, t: real): real {
    n * t
  }

  lemma TailOrder(n: real, t: real)
    requires 0.0 <= n && 0.0 <= t <= 0.5
    ensures 0.0 <= Scale(n, t) <= Scale(n, 1.0 - t) <= n
  {
    Product(n, t);
    Product(n, 1.0 - t);
    Product(n, 1.0 - 2.0 * t);
    assert n * (1.0 - t) == n * t + n * (1.0 - 2.0 * t);
  }

  /** Rounding goes to a nearest integer, and to the even one where two are nearest. */
  lemma RoundIsNearest(x: real)
    ensures x - 0.5 <= Round(x) as real <= x + 0.5
    ensures Round(x) as real == x - 0.5 || Round(x) as real == x + 0.5 ==> Round(x) % 2 == 0
  {
  }

  lemma RoundIsMonotone(x: real, y: real)
    requires x <= y
    ensures Round(x) <= Round(y)
  {
  }

  lemma RoundOfInt(n: int)
    ensures Round(n as real) == n
  {
  }

  lemma RoundWithin(m: int, p: real, q: real)
    requires 0.0 <= p <= q <= m as real
    ensures 0 <= Round(p) <= Round(q) <= m
  {
    hide Round;
    RoundOfInt(0);
    RoundOfInt(m);
    RoundIsMonotone(0.0, p);
    RoundIsMonotone(p, q);
    RoundIsMonotone(q, m as real);
  }

  /** The sorted position at a fraction t of the way through n + 1 samples. */
  function Position(n: int, t: real): int {
    Round(Scale(n as real, t))
  }

  function LowerPosition(c: BootstrapConfig): int {
    Position(c.replicates - 1, Tail(c))
  }

  function UpperPosition(c: BootstrapConfig): int {
    Position(c.replicates - 1, 1.0 - Tail(c))
  }

  lemma PositionsAt(n: int, t: real)
    requires 0 <= n && 0.0 <= t <= 0.5
    ensures 0 <= Position(n, t) <= Position(n, 1.0 - t) <= n
  {
    hide Round, Scale;
    TailOrder(n as real, t);
    RoundWithin(n, Scale(n as real, t), Scale(n as real, 1.0 - t));
  }

  lemma TailRange(c: BootstrapConfig)
    requires ValidConfig(c)
    ensures 0.0 < Tail(c) < 0.5
  {
  }

  /** Both quantile positions are inside the sorted samples, the lower one first. */
  lemma {:induction false} PositionsInRange(c: BootstrapConfig)
    requires ValidConfig(c)
    ensures 0 <= LowerPosition(c) <= UpperPosition(c) < c.replicates
  {
    hide Position, Tail;
    TailRange(c);
    PositionsAt(c.replicates - 1, Tail(c));
  }

  function Numbers(values: seq<Value>): (s: seq<real>)
    requires forall i :: 0 <= i < |values| ==> values[i].Num?
    ensures |s| == |values| && forall i :: 0 <= i < |s| ==> s[i] == values[i].x
  {
    seq(|values|, i requires 0 <= i < |values| => values[i].x)
  }

  predicate Numeric(values: seq<Value>) {
    |values| >= 2 && forall i :: 0 <= i < |values| ==> values[i].Num?
  }

  function Bootstrap(values: seq<Value>, c: BootstrapConfig, draws: Draws): Interval
    requires ValidConfig(c) && InRange(draws, |values|)
  {
    if !Numeric(values) then NotEstimable
    else
      var numeric := Numbers(values);
      var sample := Samples(numeric, draws, c.replicates);
      SortSorts(RealOrder(), sample);
      PositionsInRange(c);
      var samples := Sort(RealOrder(), sample);
      Estimable(
        Mean(numeric),
        samples[LowerPosition(c)],
        samples[UpperPosition(c)])
  }

  lemma {:induction false} SumAtLeast(s: seq<real>, a: real)
    requires forall i :: 0 <= i < |s| ==> a <= s[i]
    ensures a * (|s| as real) <= RealSum(s)
  {
    if s != [] {
      SumAtLeast(s[1..], a);
      assert a * (|s| as real) == a + a * (|s[1..]| as real);
    }
  }

  lemma {:induction false} SumAtMost(s: seq<real>, b: real)
    requires forall i :: 0 <= i < |s| ==> s[i] <= b
    ensures RealSum(s) <= b * (|s| as real)
  {
    if s != [] {
      SumAtMost(s[1..], b);
      assert b * (|s| as real) == b + b * (|s[1..]| as real);
    }
  }

  lemma Quotient(s: real, n: real, a: real)
    requires n > 0.0
    ensures a * n <= s ==> a <= s / n
    ensures s <= a * n ==> s / n <= a
  {
    assert s == s / n * n;
    if s / n < a {
      assert s / n * n < a * n;
    }
    if a < s / n {
      assert a * n < s / n * n;
    }
  }

  lemma MeanAtLeast(s: seq<real>, a: real)
    requires s != [] && forall x :: x in s ==> a <= x
    ensures a <= Mean(s)
  {
    assert forall i :: 0 <= i < |s| ==> s[i] in s;
    SumAtLeast(s, a);
    Quotient(RealSum(s), |s| as real, a);
  }

  lemma MeanAtMost(s: seq<real>, b: real)
    requires s != [] && forall x :: x in s ==> x <= b
    ensures Mean(s) <= b
  {
    assert forall i :: 0 <= i < |s| ==> s[i] in s;
    SumAtMost(s, b);
    Quotient(RealSum(s), |s| as real, b);
  }

  /** The ends of an interval are resampled means, in order. */
  lemma {:induction false} EndsAreResampledMeans(values: seq<Value>, c: BootstrapConfig, draws: Draws)
    returns (i: nat, j: nat)
    requires ValidConfig(c) && InRange(draws, |values|) && Numeric(values)
    ensures
      var r := Bootstrap(values, c, draws);
      r.Estimable? && r.lower <= r.upper && r.estimate == Mean(Numbers(values)) &&
      r.lower == Mean(Resample(Numbers(values), draws, i)) && r.upper == Mean(Resample(Numbers(values), draws, j))
  {
    hide Sort, Resample, Mean, LowerPosition, UpperPosition;
    var sample := Samples(Numbers(values), draws, c.replicates);
    SortSorts(RealOrder(), sample);
    PositionsInRange(c);
    var samples := Sort(RealOrder(), sample);
    var r := Bootstrap(values, c, draws);
    assert r.lower in multiset(samples) && r.upper in multiset(samples);
    assert r.lower in sample && r.upper in sample;
    i :| 0 <= i < |sample| && sample[i] == r.lower;
    j :| 0 <= j < |sample| && sample[j] == r.upper;
  }

  lemma {:induction false} SortKeepsCounts<T>(le: Order<T>, keep: T -> bool, s: seq<T>)
    ensures |Filter(keep, Sort(le, s))| == |Filter(keep, s)|
  {
    if s != [] {
      SortKeepsCounts(le, keep, s[1..]);
      InsertCounts(le, keep, s[0], Sort(le, s[1..]));
    }
  }

  lemma {:induction false} InsertCounts<T>(le: Order<T>, keep: T -> bool, x: T, s: seq<T>)
    ensures |Filter(keep, Insert(le, x, s))| == |Filter(keep, s)| + if keep(x) then 1 else 0
  {
    if s == [] || le(x, s[0]) {
      assert ([x] + s)[1..] == s;
    } else {
      InsertCounts(le, keep, x, s[1..]);
      assert ([s[0]] + Insert(le, x, s[1..]))[1..] == Insert(le, x, s[1..]);
    }
  }

  function AtMost(x: real): real -> bool {
    (m: real) => m <= x
  }

  function AtLeast(x: real): real -> bool {
    (m: real) => m >= x
  }

  /** In sorted order, position k separates the values at most and at least the one there. */
  lemma SortedPosition(s: seq<real>, k: nat)
    requires k < |Sort(RealOrder(), s)|
    ensures var x := Sort(RealOrder(), s)[k];
      |Filter(AtMost(x), s)| >= k + 1 && |Filter(AtLeast(x), s)| >= |s| - k
  {
    hide Sort, Filter;
    SortSorts(RealOrder(), s);
    var sorted := Sort(RealOrder(), s);
    forall i, j | 0 <= i < j < |sorted| ensures sorted[i] <= sorted[j] {
      assert RealOrder()(sorted[i], sorted[j]);
    }
    SortKeepsCounts(RealOrder(), AtMost(sorted[k]), s);
    SortKeepsCounts(RealOrder(), AtLeast(sorted[k]), s);
    CountsAround(sorted, k);
  }

  lemma CountsAround(sorted: seq<real>, k: nat)
    requires k < |sorted| && forall i, j :: 0 <= i < j < |sorted| ==> sorted[i] <= sorted[j]
    ensures |Filter(AtMost(sorted[k]), sorted)| >= k + 1 && |Filter(AtLeast(sorted[k]), sorted)| >= |sorted| - k
  {
    hide Filter;
    var low, high := AtMost(sorted[k]), AtLeast(sorted[k]);
    assert sorted == sorted[..k + 1] + sorted[k + 1..] && sorted == sorted[..k] + sorted[k..];
    FilterSum(low, sorted[..k + 1], sorted[k + 1..]);
    FilterAll(low, sorted[..k + 1]);
    FilterSum(high, sorted[..k], sorted[k..]);
    FilterAll(high, sorted[k..]);
  }

  /** The ends are quantiles of the resampled means. The tail below the lower end and the one above the upper end are
      equal, and the confidence level lies between them; at least so many means are at most, or at least, each end. */
  lemma {:induction false} EndsAreQuantiles(
    values: seq<Value>, c: BootstrapConfig, draws: Draws, last: int, tail: real, head: real)
    requires ValidConfig(c) && InRange(draws, |values|) && Numeric(values)
    requires last == c.replicates - 1 && tail + head == 1.0 && head - tail == c.confidenceLevel
    ensures
      var r, means := Bootstrap(values, c, draws), Samples(Numbers(values), draws, c.replicates);
      var low, high := Round(last as real * tail), Round(last as real * head);
      r.Estimable? &&
      |Filter(AtMost(r.lower), means)| >= low + 1 &&
      |Filter(AtLeast(r.lower), means)| >= c.replicates - low &&
      |Filter(AtMost(r.upper), means)| >= high + 1 &&
      |Filter(AtLeast(r.upper), means)| >= c.replicates - high
  {
    hide Sort, Round, Mean, Filter, LowerPosition, UpperPosition;
    var means := Samples(Numbers(values), draws, c.replicates);
    SortSorts(RealOrder(), means);
    PositionsInRange(c);
    SortedPosition(means, LowerPosition(c));
    SortedPosition(means, UpperPosition(c));
    PositionsAre(c, last, tail, head);
  }

  lemma PositionsAre(c: BootstrapConfig, n: int, tail: real, head: real)
    requires n == c.replicates - 1 && tail + head == 1.0 && head - tail == c.confidenceLevel
    ensures LowerPosition(c) == Round(n as real * tail) && UpperPosition(c) == Round(n as real * head)
  {
    hide Round, Scale, Position;
    assert Tail(c) == tail && 1.0 - Tail(c) == head;
    PositionIs(n, tail);
    PositionIs(n, head);
  }

  lemma PositionIs(n: int, t: real)
    ensures Position(n, t) == Round(n as real * t)
  {
    var x := n as real * t;
    assert Scale(n as real, t) == x;
    assert Round(Scale(n as real, t)) == Round(x);
  }

  lemma NumericIff(values: seq<Value>, c: BootstrapConfig, draws: Draws)
    requires ValidConfig(c) && InRange(draws, |values|)
    ensures Numeric(values) <==> |values| >= 2 && NotNumeric !in values
    ensures Numeric(values) <==> Bootstrap(values, c, draws).Estimable?
  {
    if |values| >= 2 && NotNumeric !in values {
      forall i | 0 <= i < |values| ensures values[i].Num? {
        assert values[i] in values;
      }
    }
  }

  /** There is an interval exactly when there are two numbers or more and nothing else. Whatever is drawn, a lower bound
      of the seed values is one of the whole interval, and so is an upper bound. */
  lemma IntervalStaysInHull(values: seq<Value>, c: BootstrapConfig, draws: Draws, a: real)
    requires ValidConfig(c) && InRange(draws, |values|)
    ensures Bootstrap(values, c, draws).Estimable? <==> |values| >= 2 && NotNumeric !in values
    ensures
      var r := Bootstrap(values, c, draws);
      r.Estimable? ==>
        r.lower <= r.upper &&
        ((forall i :: 0 <= i < |values| ==> a <= values[i].x) ==> a <= r.lower && a <= r.estimate) &&
        ((forall i :: 0 <= i < |values| ==> values[i].x <= a) ==> r.upper <= a && r.estimate <= a)
  {
    hide Bootstrap, Mean;
    NumericIff(values, c, draws);
    if !Numeric(values) {
      return;
    }
    var i, j := EndsAreResampledMeans(values, c, draws);
    var numeric := Numbers(values);
    if forall i :: 0 <= i < |values| ==> a <= values[i].x {
      MeanAtLeast(numeric, a);
      MeanAtLeast(Resample(numeric, draws, i), a);
    }
    if forall i :: 0 <= i < |values| ==> values[i].x <= a {
      MeanAtMost(numeric, a);
      MeanAtMost(Resample(numeric, draws, j), a);
    }
  }

  // ---- registered tests ----------------------------------------------------------------------------

  datatype Test = Inv01 | Inv02 | Inv03 | Dir01 | Dir02 | Dir03 | Dir04

  datatype Kind = Equivalence | LowerBound | UpperBound

  function Threshold(t: Test): (Kind, real) {
    match t
    case Inv01 | Inv02 | Inv03 => (Equivalence, 0.1)
    case Dir01 => (LowerBound, 0.1)
    case Dir02 => (UpperBound, 0.0)
    case Dir03 | Dir04 => (LowerBound, 0.0)
  }

  datatype Classification = Supported | Violated | Inconclusive | NotApplicable

  datatype Reason =
    | NotApplicableReason | CanonicalContentUnavailable | CanonicalContentMismatch | IntervalNotEstimable
    | WithinEquivalenceBand | OutsideEquivalenceBand | CrossesEquivalenceBand
    | LowerBoundMeets | UpperBoundFails | UpperBoundMeets | LowerBoundFails | CrossesDirectionThreshold

  datatype TestResult = TestResult(classification: Classification, reason: Reason)

  datatype EvaluationError = UnregisteredBehaviorThreshold | InvalidBehaviorInterval | InvalidResamplingUnit

  /** The band test of the invariance rows and the threshold test of the directional rows. */
  function Classify(t: Test, lower: real, upper: real): TestResult {
    var (kind, threshold) := Threshold(t);
    match kind
    case Equivalence =>
      if lower >= -threshold && upper <= threshold then TestResult(Supported, WithinEquivalenceBand)
      else if upper < -threshold || lower > threshold then TestResult(Violated, OutsideEquivalenceBand)
      else TestResult(Inconclusive, CrossesEquivalenceBand)
    case LowerBound =>
      if lower >= threshold then TestResult(Supported, LowerBoundMeets)
      else if upper < threshold then TestResult(Violated, UpperBoundFails)
      else TestResult(Inconclusive, CrossesDirectionThreshold)
    case UpperBound =>
      if upper <= threshold then TestResult(Supported, UpperBoundMeets)
      else if lower > threshold then TestResult(Violated, LowerBoundFails)
      else TestResult(Inconclusive, CrossesDirectionThreshold)
  }

  /** The values a test asks for. */
  ghost predicate InRegion(t: Test, x: real) {
    var (kind, threshold) := Threshold(t);
    match kind
    case Equivalence => -threshold <= x <= threshold
    case LowerBound => x >= threshold
    case UpperBound => x <= threshold
  }

  /** Supported: the whole interval is in the registered region. Violated: no point of it is. Inconclusive: otherwise.
      The reason says the same, and for a direction which end decided. */
  lemma ClassifyMeaning(t: Test, lower: real, upper: real)
    requires lower <= upper
    ensures forall x :: InRegion(t, x) <==>
      match t
      case Inv01 | Inv02 | Inv03 => -0.1 <= x <= 0.1
      case Dir01 => x >= 0.1
      case Dir02 => x <= 0.0
      case Dir03 | Dir04 => x >= 0.0
    ensures Classify(t, lower, upper).reason ==
      match Classify(t, lower, upper).classification
      case Supported =>
        if t in {Inv01, Inv02, Inv03} then WithinEquivalenceBand
        else if t == Dir02 then UpperBoundMeets else LowerBoundMeets
      case Violated =>
        if t in {Inv01, Inv02, Inv03} then OutsideEquivalenceBand
        else if t == Dir02 then LowerBoundFails else UpperBoundFails
      case _ => if t in {Inv01, Inv02, Inv03} then CrossesEquivalenceBand else CrossesDirectionThreshold
    ensures Classify(t, lower, upper).classification == Supported <==>
      forall x :: lower <= x <= upper ==> InRegion(t, x)
    ensures Classify(t, lower, upper).classification == Violated <==>
      forall x :: lower <= x <= upper ==> !InRegion(t, x)
    ensures Classify(t, lower, upper).classification != NotApplicable
  {
    var (kind, threshold) := Threshold(t);
    if forall x :: lower <= x <= upper ==> InRegion(t, x) {
      assert InRegion(t, lower) && InRegion(t, upper);
    }
    if forall x :: lower <= x <= upper ==> !InRegion(t, x) {
      assert !InRegion(t, lower) && !InRegion(t, upper);
      assert kind == Equivalence && lower < -threshold <= upper ==> !InRegion(t, -threshold);
    }
  }

  /** A narrower interval keeps a supported or violated verdict. */
  lemma NarrowingKeepsVerdict(t: Test, lower: real, upper: real, lower': real, upper': real)
    requires lower <= lower' <= upper' <= upper
    requires Classify(t, lower, upper).classification != Inconclusive
    ensures Classify(t, lower', upper').classification == Classify(t, lower, upper).classification
  {
    ClassifyMeaning(t, lower, upper);
    ClassifyMeaning(t, lower', upper');
  }

  // ---- evaluation ----------------------------------------------------------------------------------

  datatype SeedInterval = SeedInterval(estimate: Value, lower: Value, upper: Value, estimable: bool)

  /** What the INV-03 check reads: an absent entry is None, a listed id that is no string is None. */
  datatype Mechanical = Mechanical(
    correspondence: Option<seq<Option<Id>>>, canonicalIds: Option<seq<Option<Id>>>,
    referenceId: Option<Id>, variantId: Option<Id>, canonicalContentId: Option<Id>, gateStatus: Option<string>)

  /** Metrics as an interval object, or as a mapping with an interval in it. */
  datatype Metrics =
    | Direct(interval: Result<SeedInterval, EvaluationError>)
    | Mapping(notApplicable: bool, mechanical: Mechanical, interval: Result<SeedInterval, EvaluationError>)

  function NumericInterval(s: SeedInterval): Option<(real, real)> {
    if !s.estimable || !s.estimate.Num? || !s.lower.Num? || !s.upper.Num? then None
    else if s.lower.x > s.upper.x then None
    else Some((s.lower.x, s.upper.x))
  }

  function CorrespondingIds(m: Mechanical): seq<Option<Id>> {
    if m.correspondence.Some? then m.correspondence.value
    else if m.canonicalIds.Some? then m.canonicalIds.value
    else if m.referenceId.Some? || m.variantId.Some? then [m.referenceId, m.variantId]
    else []
  }

  predicate Usable(id: Option<Id>) {
    id.Some? && id.value != ""
  }

  function MechanicalStatus(metrics: Metrics): Classification {
    match metrics
    case Direct(_) => NotApplicable
    case Mapping(_, m, _) =>
      var ids := CorrespondingIds(m);
      if ids == [] || exists i :: 0 <= i < |ids| && !Usable(ids[i]) then
        if m.gateStatus == Some("pass") then Violated else NotApplicable
      else if exists i :: 0 <= i < |ids| && ids[i] != ids[0] then Violated
      else if m.canonicalContentId.Some? && ids[0] != m.canonicalContentId then Violated
      else if m.gateStatus.Some? && m.gateStatus.value != "pass" then Violated
      else Supported
  }

  function OfInterval(t: Test, interval: Result<SeedInterval, EvaluationError>): Result<TestResult, EvaluationError> {
    match interval
    case Err(e) => Err(e)
    case Ok(s) =>
      match NumericInterval(s)
      case None => Ok(TestResult(Inconclusive, IntervalNotEstimable))
      case Some((lower, upper)) => Ok(Classify(t, lower, upper))
  }

  function EvaluateInvariance(metrics: Metrics, t: Test): Result<TestResult, EvaluationError> {
    if t !in {Inv01, Inv02, Inv03} then Err(UnregisteredBehaviorThreshold)
    else if metrics.Mapping? && metrics.notApplicable then Ok(TestResult(NotApplicable, NotApplicableReason))
    else if t == Inv03 && MechanicalStatus(metrics) == NotApplicable then
      Ok(TestResult(Inconclusive, CanonicalContentUnavailable))
    else if t == Inv03 && MechanicalStatus(metrics) == Violated then
      Ok(TestResult(Violated, CanonicalContentMismatch))
    else OfInterval(t, metrics.interval)
  }

  function EvaluateDirection(metrics: Metrics, t: Test): Result<TestResult, EvaluationError> {
    if t !in {Dir01, Dir02, Dir03, Dir04} then Err(UnregisteredBehaviorThreshold)
    else if metrics.Mapping? && metrics.notApplicable then Ok(TestResult(NotApplicable, NotApplicableReason))
    else OfInterval(t, metrics.interval)
  }

  function Evaluate(metrics: Metrics, t: Test): Result<TestResult, EvaluationError> {
    if t in {Inv01, Inv02, Inv03} then EvaluateInvariance(metrics, t) else EvaluateDirection(metrics, t)
  }

  /** All ids name the same content, which is the canonical one, and no gate failed. */
  ghost predicate SameContent(metrics: Metrics) {
    metrics.Mapping? &&
    (exists content :: content != "" &&
      CorrespondingIds(metrics.mechanical) != [] &&
      (forall id :: id in CorrespondingIds(metrics.mechanical) ==> id == Some(content)) &&
      metrics.mechanical.canonicalContentId in {None, Some(content)}) &&
    metrics.mechanical.gateStatus in {None, Some("pass")}
  }

  lemma MechanicalSupportedIff(metrics: Metrics)
    ensures MechanicalStatus(metrics) == Supported <==> SameContent(metrics)
    ensures MechanicalStatus(metrics) != Inconclusive
  {
    if metrics.Mapping? {
      var ids := CorrespondingIds(metrics.mechanical);
      if MechanicalStatus(metrics) == Supported {
        assert Usable(ids[0]);
        forall id | id in ids ensures id == Some(ids[0].value) {
          var i :| 0 <= i < |ids| && ids[i] == id;
        }
      }
      if SameContent(metrics) {
        assert ids[0] in ids;
        forall i | 0 <= i < |ids| ensures Usable(ids[i]) && ids[i] == ids[0] {
          assert ids[i] in ids;
        }
      }
    }
  }

  /** Contents cannot be compared without a mapping, or when no ids are listed or one is missing and no gate passed. */
  lemma ContentUnavailableIff(metrics: Metrics)
    ensures MechanicalStatus(metrics) == NotApplicable <==>
      metrics.Direct? ||
      ((CorrespondingIds(metrics.mechanical) == [] ||
        exists id :: id in CorrespondingIds(metrics.mechanical) && (id == None || id == Some(""))) &&
       metrics.mechanical.gateStatus != Some("pass"))
  {
    if metrics.Mapping? {
      UnusableIff(CorrespondingIds(metrics.mechanical));
    }
  }

  lemma UnusableIff(ids: seq<Option<Id>>)
    ensures (exists i :: 0 <= i < |ids| && !Usable(ids[i])) <==>
      exists id :: id in ids && (id == None || id == Some(""))
  {
    if i :| 0 <= i < |ids| && !Usable(ids[i]) {
      assert ids[i] in ids;
    }
    if id :| id in ids && (id == None || id == Some("")) {
      var i :| 0 <= i < |ids| && ids[i] == id;
      assert !Usable(ids[i]);
    }
  }

  /** The list of corresponding ids decides before the list of canonical ids, and that one before the pair of ids, which
      counts like a list of the two; without any of them nothing corresponds. */
  lemma ListsTakePrecedence(m: Mechanical, ids: seq<Option<Id>>, gate: Result<SeedInterval, EvaluationError>)
    ensures MechanicalStatus(Mapping(false, m.(correspondence := Some(ids)), gate)) ==
      MechanicalStatus(Mapping(
        false, Mechanical(None, Some(ids), m.referenceId, m.variantId, m.canonicalContentId, m.gateStatus), gate))
    ensures m.correspondence.None? && m.canonicalIds.None? && (m.referenceId.Some? || m.variantId.Some?) ==>
      MechanicalStatus(Mapping(false, m, gate)) ==
      MechanicalStatus(Mapping(false, m.(correspondence := Some([m.referenceId, m.variantId])), gate))
    ensures m.correspondence.None? && m.canonicalIds.None? && m.referenceId.None? && m.variantId.None? ==>
      MechanicalStatus(Mapping(false, m, gate)) ==
      MechanicalStatus(Mapping(false, m.(correspondence := Some([])), gate))
  {
  }

  /** The interval is estimable, its numbers are in order, and it lies in the region of the test. */
  ghost predicate Inside(t: Test, interval: Result<SeedInterval, EvaluationError>) {
    exists estimate, lower, upper ::
      interval == Ok(SeedInterval(Num(estimate), Num(lower), Num(upper), true)) && lower <= upper &&
      forall x :: lower <= x <= upper ==> InRegion(t, x)
  }

  /** Likewise, and no point of it lies in the region. */
  ghost predicate Outside(t: Test, interval: Result<SeedInterval, EvaluationError>) {
    exists estimate, lower, upper ::
      interval == Ok(SeedInterval(Num(estimate), Num(lower), Num(upper), true)) && lower <= upper &&
      forall x :: lower <= x <= upper ==> !InRegion(t, x)
  }

  /** The verdict on a registered test: not applicable exactly when it is marked so; supported exactly when, besides,
      INV-03's contents agree and the interval is inside the region; violated exactly when INV-03's contents differ or
      the interval is outside; an error exactly when the interval is needed and cannot be read. */
  lemma VerdictIff(metrics: Metrics, t: Test)
    ensures
      var r := Evaluate(metrics, t);
      var marked := metrics.Mapping? && metrics.notApplicable;
      var gated := t == Inv03 ==> SameContent(metrics);
      if r.Err? then !marked && gated && metrics.interval == Err(r.error)
      else
        !(!marked && gated && metrics.interval.Err?) &&
        match r.value.classification
        case NotApplicable => marked
        case Supported => !marked && gated && Inside(t, metrics.interval)
        case Violated =>
          !marked &&
          ((t == Inv03 && MechanicalStatus(metrics) == Violated) || (gated && Outside(t, metrics.interval)))
        case Inconclusive =>
          !marked && !(t == Inv03 && MechanicalStatus(metrics) == Violated) &&
          (gated ==> !Inside(t, metrics.interval) && !Outside(t, metrics.interval))
    ensures !(Inside(t, metrics.interval) && Outside(t, metrics.interval))
  {
    hide MechanicalStatus, SameContent, OfInterval, Inside, Outside;
    MechanicalSupportedIff(metrics);
    IntervalVerdict(t, metrics.interval);
  }

  lemma IntervalVerdict(t: Test, interval: Result<SeedInterval, EvaluationError>)
    ensures
      var r := OfInterval(t, interval);
      && (r.Err? <==> interval.Err?) && (r.Err? ==> interval == Err(r.error))
      && (r.Ok? ==>
          && r.value.classification != NotApplicable
          && (r.value.classification == Supported <==> Inside(t, interval))
          && (r.value.classification == Violated <==> Outside(t, interval)))
    ensures !(Inside(t, interval) && Outside(t, interval))
  {
    hide InRegion, Classify, Threshold, Inside, Outside;
    if interval.Ok? {
      NumbersOf(t, interval.value);
      if NumericInterval(interval.value).Some? {
        var (lower, upper) := NumericInterval(interval.value).value;
        ClassifyMeaning(t, lower, upper);
      }
    } else {
      NothingInError(t, interval);
    }
  }

  lemma NothingInError(t: Test, interval: Result<SeedInterval, EvaluationError>)
    ensures interval.Err? ==> !Inside(t, interval) && !Outside(t, interval)
  {
  }

  lemma NumbersOf(t: Test, s: SeedInterval)
    ensures
      var n := NumericInterval(s);
      && (n.Some? ==> n.value.0 <= n.value.1)
      && (Inside(t, Ok(s)) <==> n.Some? && forall x :: n.value.0 <= x <= n.value.1 ==> InRegion(t, x))
      && (Outside(t, Ok(s)) <==> n.Some? && forall x :: n.value.0 <= x <= n.value.1 ==> !InRegion(t, x))
  {
    hide InRegion;
    if NumericInterval(s).Some? {
      InOrder(s.estimate.x, s.lower.x, s.upper.x, t);
      assert s == SeedInterval(Num(s.estimate.x), Num(s.lower.x), Num(s.upper.x), true);
    } else {
      NoNumbers(t, s);
    }
  }

  lemma InOrder(e: real, l: real, u: real, t: Test)
    requires l <= u
    ensures
      var i := Ok(SeedInterval(Num(e), Num(l), Num(u), true));
      && (Inside(t, i) <==> forall x :: l <= x <= u ==> InRegion(t, x))
      && (Outside(t, i) <==> forall x :: l <= x <= u ==> !InRegion(t, x))
  {
    hide InRegion;
  }

  lemma NoNumbers(t: Test, s: SeedInterval)
    requires NumericInterval(s).None?
    ensures !Inside(t, Ok(s)) && !Outside(t, Ok(s))
  {
    hide InRegion;
  }

  /** The reason that comes with a verdict tells which of its causes it was. */
  lemma ReasonsAreExact(metrics: Metrics, t: Test)
    ensures
      var r := Evaluate(metrics, t);
      r.Ok? ==>
        match r.value.reason
        case NotApplicableReason => r.value.classification == NotApplicable
        case CanonicalContentUnavailable =>
          r.value.classification == Inconclusive && t == Inv03 && MechanicalStatus(metrics) == NotApplicable
        case CanonicalContentMismatch =>
          r.value.classification == Violated && t == Inv03 && MechanicalStatus(metrics) == Violated
        case IntervalNotEstimable =>
          r.value.classification == Inconclusive &&
          forall e, l, u :: metrics.interval == Ok(SeedInterval(Num(e), Num(l), Num(u), true)) ==> l > u
        case WithinEquivalenceBand => r.value.classification == Supported && t in {Inv01, Inv02, Inv03}
        case OutsideEquivalenceBand => r.value.classification == Violated && t in {Inv01, Inv02, Inv03}
        case CrossesEquivalenceBand => r.value.classification == Inconclusive && t in {Inv01, Inv02, Inv03}
        case LowerBoundMeets => r.value.classification == Supported && t in {Dir01, Dir03, Dir04}
        case UpperBoundFails => r.value.classification == Violated && t in {Dir01, Dir03, Dir04}
        case UpperBoundMeets => r.value.classification == Supported && t == Dir02
        case LowerBoundFails => r.value.classification == Violated && t == Dir02
        case CrossesDirectionThreshold => r.value.classification == Inconclusive && t in {Dir01, Dir02, Dir03, Dir04}
  {
    hide MechanicalStatus, OfInterval;
    ReasonOfInterval(t, metrics.interval);
  }

  lemma ReasonOfInterval(t: Test, interval: Result<SeedInterval, EvaluationError>)
    ensures
      var r := OfInterval(t, interval);
      r.Ok? ==>
        if r.value.reason == IntervalNotEstimable then
          r.value.classification == Inconclusive &&
          forall e, l, u :: interval == Ok(SeedInterval(Num(e), Num(l), Num(u), true)) ==> l > u
        else
          r.value.reason ==
            match r.value.classification
            case Supported =>
              if t in {Inv01, Inv02, Inv03} then WithinEquivalenceBand
              else if t == Dir02 then UpperBoundMeets else LowerBoundMeets
            case Violated =>
              if t in {Inv01, Inv02, Inv03} then OutsideEquivalenceBand
              else if t == Dir02 then LowerBoundFails else UpperBoundFails
            case _ => if t in {Inv01, Inv02, Inv03} then CrossesEquivalenceBand else CrossesDirectionThreshold
    ensures OfInterval(t, interval).Ok? ==> OfInterval(t, interval).value.classification != NotApplicable
  {
    hide Classify;
    if interval.Ok? && NumericInterval(interval.value).Some? {
      var (lower, upper) := NumericInterval(interval.value).value;
      ClassifyMeaning(t, lower, upper);
    }
  }

  /** `_coerce_interval` of a bootstrap interval. */
  function FromBootstrap(i: Interval): SeedInterval {
    match i
    case NotEstimable => SeedInterval(NotNumeric, NotNumeric, NotNumeric, false)
    case Estimable(e, l, u) => SeedInterval(Num(e), Num(l), Num(u), true)
  }

  predicate MarkedNotApplicable(metrics: Metrics) {
    metrics.Mapping? && metrics.notApplicable
  }

  /** Seed values inside a test's region support it, whatever was drawn and for any confidence level, unless the
      metrics are marked not applicable or, for INV-03, the contents differ. */
  lemma {:induction false} SeedsInsideAreSupported(
    values: seq<Value>, c: BootstrapConfig, draws: Draws, t: Test, metrics: Metrics)
    requires ValidConfig(c) && InRange(draws, |values|) && Numeric(values)
    requires metrics.interval == Ok(FromBootstrap(Bootstrap(values, c, draws)))
    requires forall i :: 0 <= i < |values| ==> InRegion(t, values[i].x)
    ensures var r := Evaluate(metrics, t);
      r.Ok? && r.value.classification == Supported <==>
      !MarkedNotApplicable(metrics) && (t == Inv03 ==> SameContent(metrics))
  {
    hide Bootstrap, Evaluate, SameContent, MechanicalStatus;
    var (kind, threshold) := Threshold(t);
    IntervalStaysInHull(values, c, draws, threshold);
    IntervalStaysInHull(values, c, draws, -threshold);
    VerdictIff(metrics, t);
    MechanicalSupportedIff(metrics);
    BoundsAreInside(t, Bootstrap(values, c, draws));
  }

  lemma BoundsAreInside(t: Test, b: Interval)
    requires b.Estimable? && b.lower <= b.upper && InRegion(t, b.lower) && InRegion(t, b.upper)
    ensures Inside(t, Ok(FromBootstrap(b)))
  {
    assert FromBootstrap(b) == SeedInterval(Num(b.estimate), Num(b.lower), Num(b.upper), true);
  }

  /** Seed values on one side of a test's region violate it, unless the metrics are marked not applicable or, for
      INV-03, no contents can be compared. */
  lemma {:induction false} SeedsBeyondAreViolated(
    values: seq<Value>, c: BootstrapConfig, draws: Draws, t: Test, metrics: Metrics, bound: real)
    requires ValidConfig(c) && InRange(draws, |values|) && Numeric(values)
    requires metrics.interval == Ok(FromBootstrap(Bootstrap(values, c, draws)))
    requires
      || ((forall i :: 0 <= i < |values| ==> values[i].x <= bound) && (forall x :: x <= bound ==> !InRegion(t, x)))
      || ((forall i :: 0 <= i < |values| ==> bound <= values[i].x) && (forall x :: bound <= x ==> !InRegion(t, x)))
    ensures var r := Evaluate(metrics, t);
      r.Ok? && r.value.classification == Violated <==>
      !MarkedNotApplicable(metrics) && (t == Inv03 ==> MechanicalStatus(metrics) != NotApplicable)
  {
    hide Bootstrap, InRegion, Classify, MechanicalStatus;
    IntervalStaysInHull(values, c, draws, bound);
    var b := Bootstrap(values, c, draws);
    ClassifyMeaning(t, b.lower, b.upper);
    MechanicalSupportedIff(metrics);
  }

  // ---- verdicts for all draws ----------------------------------------------------------------------

  function Carrying(metrics: Metrics, interval: Result<SeedInterval, EvaluationError>): Metrics {
    match metrics
    case Direct(_) => Direct(interval)
    case Mapping(notApplicable, mechanical, _) => Mapping(notApplicable, mechanical, interval)
  }

  /** The metrics are not marked inapplicable and, for INV-03, their contents agree. */
  ghost predicate Applies(metrics: Metrics, t: Test) {
    !MarkedNotApplicable(metrics) && (t == Inv03 ==> SameContent(metrics))
  }

  /** The verdict on the metrics when they carry the bootstrap interval of the seeds. */
  ghost predicate Yields(
    values: seq<Value>, c: BootstrapConfig, draws: Draws, t: Test, metrics: Metrics, verdict: Classification)
    requires ValidConfig(c) && InRange(draws, |values|)
  {
    var r := Evaluate(Carrying(metrics, Ok(FromBootstrap(Bootstrap(values, c, draws)))), t);
    r.Ok? && r.value.classification == verdict
  }

  ghost predicate AlwaysYields(values: seq<Value>, t: Test, metrics: Metrics, verdict: Classification) {
    forall c, draws :: ValidConfig(c) && InRange(draws, |values|) ==> Yields(values, c, draws, t, metrics, verdict)
  }

  lemma YieldsClassification(
    values: seq<Value>, c: BootstrapConfig, draws: Draws, t: Test, metrics: Metrics, verdict: Classification)
    requires ValidConfig(c) && InRange(draws, |values|) && Numeric(values) && Applies(metrics, t)
    ensures var b := Bootstrap(values, c, draws);
      b.Estimable? && b.lower <= b.upper &&
      (Yields(values, c, draws, t, metrics, verdict) <==> Classify(t, b.lower, b.upper).classification == verdict)
  {
    hide Bootstrap, Classify, MechanicalStatus, SameContent;
    IntervalStaysInHull(values, c, draws, 0.0);
    SameContentCarries(metrics, Ok(FromBootstrap(Bootstrap(values, c, draws))));
    MechanicalSupportedIff(metrics);
  }

  lemma SameContentCarries(metrics: Metrics, interval: Result<SeedInterval, EvaluationError>)
    ensures MechanicalStatus(Carrying(metrics, interval)) == MechanicalStatus(metrics)
  {
  }

  function Constant(k: nat): Draws {
    (i: nat, j: nat) => k
  }

  /** When every choice returns the same seed, the interval is that seed. */
  lemma ConstantDraw(values: seq<Value>, c: BootstrapConfig, k: nat)
    requires ValidConfig(c) && Numeric(values) && k < |values|
    ensures InRange(Constant(k), |values|)
    ensures var b := Bootstrap(values, c, Constant(k));
      b.Estimable? && b.lower == values[k].x && b.upper == values[k].x
  {
    hide Bootstrap, Mean;
    var numeric := Numbers(values);
    var i, j := EndsAreResampledMeans(values, c, Constant(k));
    forall n: nat ensures Mean(Resample(numeric, Constant(k), n)) == numeric[k] {
      MeanOfEqual(Resample(numeric, Constant(k), n), numeric[k]);
    }
  }

  lemma MeanOfEqual(s: seq<real>, x: real)
    requires s != [] && forall i :: 0 <= i < |s| ==> s[i] == x
    ensures Mean(s) == x
  {
    hide Mean;
    MeanAtLeast(s, x);
    MeanAtMost(s, x);
  }

  /** Replicate 0 always draws one seed, all others another one. */
  function FirstThen(a: nat, b: nat): Draws {
    (i: nat, j: nat) => if i == 0 then a else b
  }

  const TWO_REPLICATES := BootstrapConfig(2, 0.95)

  lemma TwoPositions()
    ensures LowerPosition(TWO_REPLICATES) == 0 && UpperPosition(TWO_REPLICATES) == 1
  {
    assert Tail(TWO_REPLICATES) == 0.025;
  }

  lemma TwoSamples(x: real, y: real)
    requires x <= y
    ensures Sort(RealOrder(), [x, y]) == [x, y]
  {
    assert [x, y][1..] == [y] && [y][1..] == [];
    assert Sort(RealOrder(), [y]) == [y];
  }

  /** Two replicates can span any two seeds. */
  lemma SpanningDraw(values: seq<Value>, a: nat, b: nat)
    requires Numeric(values) && a < |values| && b < |values| && values[a].x <= values[b].x
    ensures ValidConfig(TWO_REPLICATES) && InRange(FirstThen(a, b), |values|)
    ensures var r := Bootstrap(values, TWO_REPLICATES, FirstThen(a, b));
      r.Estimable? && r.lower == values[a].x && r.upper == values[b].x
  {
    hide Mean, Sort, LowerPosition, UpperPosition;
    var numeric, draws := Numbers(values), FirstThen(a, b);
    MeanOfEqual(Resample(numeric, draws, 0), numeric[a]);
    MeanOfEqual(Resample(numeric, draws, 1), numeric[b]);
    assert Samples(numeric, draws, 2) == [numeric[a], numeric[b]];
    TwoSamples(numeric[a], numeric[b]);
    TwoPositions();
  }

  /** One replicate is enough for an interval, at any confidence level, and makes it a point. */
  lemma SingleReplicate(values: seq<Value>, level: real, draws: Draws)
    requires 0.0 < level < 1.0 && InRange(draws, |values|) && Numeric(values)
    ensures ValidConfig(BootstrapConfig(1, level))
    ensures var r := Bootstrap(values, BootstrapConfig(1, level), draws);
      r.Estimable? && r.lower == r.upper == Mean(Resample(Numbers(values), draws, 0))
  {
    hide Mean, Sort, LowerPosition, UpperPosition;
    PositionsInRange(BootstrapConfig(1, level));
    var means := Samples(Numbers(values), draws, 1);
    SortSorts(RealOrder(), means);
    var sorted := Sort(RealOrder(), means);
    assert sorted[0] in multiset(sorted);
    assert means == [means[0]];
  }

  /** Whatever is drawn, the seeds support a test exactly when all of them are inside its region. */
  lemma {:induction false} AlwaysSupportedIff(values: seq<Value>, t: Test, metrics: Metrics)
    requires Numeric(values) && Applies(metrics, t)
    ensures AlwaysYields(values, t, metrics, Supported) <==>
      forall i :: 0 <= i < |values| ==> InRegion(t, values[i].x)
  {
    hide Bootstrap, Classify, InRegion, Applies, Yields;
    if forall i :: 0 <= i < |values| ==> InRegion(t, values[i].x) {
      forall c, draws | ValidConfig(c) && InRange(draws, |values|)
        ensures Yields(values, c, draws, t, metrics, Supported)
      {
        InsideYieldsSupported(values, c, draws, t, metrics);
      }
    } else {
      var k :| 0 <= k < |values| && !InRegion(t, values[k].x);
      if AlwaysYields(values, t, metrics, Supported) {
        SeedDecidesAlone(values, t, metrics, k, Supported);
      }
    }
  }

  lemma InsideYieldsSupported(values: seq<Value>, c: BootstrapConfig, draws: Draws, t: Test, metrics: Metrics)
    requires ValidConfig(c) && InRange(draws, |values|) && Numeric(values) && Applies(metrics, t)
    requires forall i :: 0 <= i < |values| ==> InRegion(t, values[i].x)
    ensures Yields(values, c, draws, t, metrics, Supported)
  {
    hide Bootstrap, Evaluate, InRegion, MechanicalStatus, SameContent;
    var carried := Carrying(metrics, Ok(FromBootstrap(Bootstrap(values, c, draws))));
    SameContentCarries(metrics, Ok(FromBootstrap(Bootstrap(values, c, draws))));
    MechanicalSupportedIff(metrics);
    MechanicalSupportedIff(carried);
    SeedsInsideAreSupported(values, c, draws, t, carried);
  }

  /** Drawing one seed only gives the verdict on that seed. */
  lemma SeedDecidesAlone(values: seq<Value>, t: Test, metrics: Metrics, k: nat, verdict: Classification)
    requires Numeric(values) && Applies(metrics, t) && k < |values| && AlwaysYields(values, t, metrics, verdict)
    ensures verdict == if InRegion(t, values[k].x) then Supported else Violated
  {
    hide Bootstrap, Applies, Yields, InRegion, Classify;
    var c, x := TWO_REPLICATES, values[k].x;
    ConstantDraw(values, c, k);
    YieldsClassification(values, c, Constant(k), t, metrics, verdict);
    PointVerdict(t, x);
  }

  lemma PointVerdict(t: Test, x: real)
    ensures Classify(t, x, x).classification == if InRegion(t, x) then Supported else Violated
  {
  }

  /** All seeds lie beyond the same side of the region. */
  ghost predicate BeyondOneSide(t: Test, values: seq<Value>)
    requires Numeric(values)
  {
    var (kind, threshold) := Threshold(t);
    match kind
    case Equivalence =>
      (forall i :: 0 <= i < |values| ==> values[i].x < -threshold) ||
      (forall i :: 0 <= i < |values| ==> values[i].x > threshold)
    case LowerBound => forall i :: 0 <= i < |values| ==> values[i].x < threshold
    case UpperBound => forall i :: 0 <= i < |values| ==> values[i].x > threshold
  }

  lemma {:induction false} ExtremeSeeds(values: seq<Value>) returns (low: nat, high: nat)
    requires values != [] && forall i :: 0 <= i < |values| ==> values[i].Num?
    ensures low < |values| && high < |values|
    ensures forall i :: 0 <= i < |values| ==> values[low].x <= values[i].x <= values[high].x
  {
    var n := |values| - 1;
    if n == 0 {
      low, high := 0, 0;
    } else {
      low, high := ExtremeSeeds(values[..n]);
      assert forall i :: 0 <= i < n ==> values[..n][i] == values[i];
      low := if values[n].x < values[low].x then n else low;
      high := if values[n].x > values[high].x then n else high;
    }
  }

  lemma BeyondYieldsViolated(values: seq<Value>, c: BootstrapConfig, draws: Draws, t: Test, metrics: Metrics)
    requires ValidConfig(c) && InRange(draws, |values|) && Numeric(values) && Applies(metrics, t)
    requires BeyondOneSide(t, values)
    ensures Yields(values, c, draws, t, metrics, Violated)
  {
    hide Bootstrap, Applies, Yields;
    var low, high := ExtremeSeeds(values);
    IntervalStaysInHull(values, c, draws, values[low].x);
    IntervalStaysInHull(values, c, draws, values[high].x);
    YieldsClassification(values, c, draws, t, metrics, Violated);
  }

  /** Seeds on both sides of the band give an inconclusive verdict when the draws span them. */
  lemma SpanIsNotViolated(values: seq<Value>, t: Test, metrics: Metrics, a: nat, b: nat)
    requires Numeric(values) && Applies(metrics, t) && a < |values| && b < |values|
    requires Threshold(t).0 == Equivalence && values[a].x < -Threshold(t).1 && Threshold(t).1 < values[b].x
    ensures !AlwaysYields(values, t, metrics, Violated)
  {
    hide Bootstrap, Applies, Yields;
    SpanningDraw(values, a, b);
    YieldsClassification(values, TWO_REPLICATES, FirstThen(a, b), t, metrics, Violated);
  }

  lemma InsideSeedIsNotViolated(values: seq<Value>, t: Test, metrics: Metrics, k: nat)
    requires Numeric(values) && Applies(metrics, t) && k < |values| && InRegion(t, values[k].x)
    ensures !AlwaysYields(values, t, metrics, Violated)
  {
    hide AlwaysYields, Applies, InRegion;
    if AlwaysYields(values, t, metrics, Violated) {
      SeedDecidesAlone(values, t, metrics, k, Violated);
    }
  }

  /** Whatever is drawn, the seeds violate a test exactly when all of them lie beyond the same side of its region:
      for the equivalence band, all below -0.1 or all above 0.1. */
  lemma {:induction false} AlwaysViolatedIff(values: seq<Value>, t: Test, metrics: Metrics)
    requires Numeric(values) && Applies(metrics, t)
    ensures AlwaysYields(values, t, metrics, Violated) <==> BeyondOneSide(t, values)
  {
    hide Bootstrap, Applies, Yields;
    if BeyondOneSide(t, values) {
      forall c, draws | ValidConfig(c) && InRange(draws, |values|)
        ensures Yields(values, c, draws, t, metrics, Violated)
      {
        BeyondYieldsViolated(values, c, draws, t, metrics);
      }
    } else if k: nat :| k < |values| && InRegion(t, values[k].x) {
      InsideSeedIsNotViolated(values, t, metrics, k);
    } else {
      var a, b := SeedsOnBothSides(t, values);
      SpanIsNotViolated(values, t, metrics, a, b);
    }
  }

  lemma SeedsOnBothSides(t: Test, values: seq<Value>) returns (a: nat, b: nat)
    requires Numeric(values) && !BeyondOneSide(t, values)
    requires forall k :: 0 <= k < |values| ==> !InRegion(t, values[k].x)
    ensures a < |values| && b < |values| && Threshold(t).0 == Equivalence
    ensures values[a].x < -Threshold(t).1 && Threshold(t).1 < values[b].x
  {
    a, b := ExtremeSeeds(values);
  }

  /** Outside the equivalence band on both sides is not enough: two seeds that cancel are called equivalent. */
  lemma OutsideOnBothSidesCanBeSupported(c: BootstrapConfig, draws: Draws)
    requires ValidConfig(c) && InRange(draws, 2) && forall i: nat, k: nat :: draws(i, k) == k % 2
    ensures var values := [Num(1.0), Num(-1.0)];
      !InRegion(Inv01, 1.0) && !InRegion(Inv01, -1.0) &&
      Evaluate(Direct(Ok(FromBootstrap(Bootstrap(values, c, draws)))), Inv01) ==
      Ok(TestResult(Supported, WithinEquivalenceBand))
  {
    hide Bootstrap;
    var values := [Num(1.0), Num(-1.0)];
    var numeric := Numbers(values);
    var i, j := EndsAreResampledMeans(values, c, draws);
    forall n: nat ensures Mean(Resample(numeric, draws, n)) == 0.0 {
      var s := Resample(numeric, draws, n);
      assert s == [1.0, -1.0];
      assert s[1..] == [-1.0] && s[1..][1..] == [];
      assert RealSum(s) == 1.0 + RealSum([-1.0]) && RealSum([-1.0]) == -1.0 + RealSum([]);
    }
  }
}
