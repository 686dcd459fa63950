/** What an aggregated report guarantees: conservation over the groups, rates that are fractions, and degradation
    that is defined for every completed grid. */
module GroupingRuns {
  import opened Common
  import opened Text
  import opened Grouping
  import Grid
  import GridRuns

  // ---- conservation --------------------------------------------------------------------------------

  function KeyTotal<T, K(==)>(key: T -> K, w: T -> int, keys: seq<K>, s: seq<T>): int {
    if keys == [] then 0
    else KeyTotal(key, w, keys[..|keys| - 1], s) + Sum(w, Filter(With(key, keys[|keys| - 1]), s))
  }

  /** Summing a weight key by key is summing it over the elements with one of those keys. */
  lemma {:induction false} KeysConserve<T(!new), K>(key: T -> K, w: T -> int, keys: seq<K>, s: seq<T>)
    requires Distinct(keys)
    ensures KeyTotal(key, w, keys, s) == Sum(w, Filter(KeyIn(key, Elements(keys)), s))
    decreases |keys|
  {
    if keys == [] {
      FilterNone(KeyIn(key, Elements(keys)), s);
    } else {
      var rest, k := keys[..|keys| - 1], keys[|keys| - 1];
      KeysConserve(key, w, rest, s);
      assert keys == rest + [k];
      ElementsOfSum(rest, [k]);
      DistinctPush(rest, k);
      SumFilterSplit(w, KeyIn(key, Elements(rest)), With(key, k), KeyIn(key, Elements(keys)), s);
    }
  }

  lemma AllKeysConserve<T(!new), K>(key: T -> K, w: T -> int, keys: seq<K>, s: seq<T>)
    requires Distinct(keys) && forall x :: x in s ==> key(x) in keys
    ensures KeyTotal(key, w, keys, s) == Sum(w, s)
  {
    KeysConserve(key, w, keys, s);
    FilterAll(KeyIn(key, Elements(keys)), s);
  }

  function OneEach<T>(): T -> int {
    (x: T) => 1
  }

  lemma {:induction false} SumOfOnes<T>(s: seq<T>)
    ensures Sum(OneEach(), s) == |s|
  {
    if s != [] {
      SumOfOnes(s[1..]);
    }
  }

  function Lookup<K(==)>(h: map<K, nat>): K -> int {
    (k: K) => if k in h then h[k] else 0
  }

  lemma {:induction false} LookupTotal<T, K(!new)>(key: T -> K, s: seq<T>, h: map<K, nat>, keys: seq<K>)
    requires IsHistogram(key, s, h)
    ensures Sum(Lookup(h), keys) == KeyTotal(key, OneEach(), keys, s)
    decreases |keys|
  {
    hide IsHistogram;
    if keys != [] {
      var rest, k := keys[..|keys| - 1], keys[|keys| - 1];
      LookupTotal(key, s, h, rest);
      assert keys == rest + [k];
      SumPush(Lookup(h), rest, k);
      SumOfOnes(Filter(With(key, k), s));
      LookupIsCount(key, s, h, k);
    }
  }

  lemma LookupIsCount<T, K(!new)>(key: T -> K, s: seq<T>, h: map<K, nat>, k: K)
    requires IsHistogram(key, s, h)
    ensures Lookup(h)(k) == |Filter(With(key, k), s)|
  {
    if k !in h {
      FilterNone(With(key, k), s);
    }
  }

  /** The entries of a histogram sum to the number of elements. */
  lemma HistogramConserves<T(!new), K(!new)>(key: T -> K, s: seq<T>, h: map<K, nat>, keys: seq<K>)
    requires IsHistogram(key, s, h) && Distinct(keys) && Elements(keys) == h.Keys
    ensures Sum(Lookup(h), keys) == |s|
  {
    LookupTotal(key, s, h, keys);
    forall x | x in s ensures key(x) in keys {
      assert key(x) in h;
    }
    AllKeysConserve(key, OneEach(), keys, s);
    SumOfOnes(s);
  }

  /** A group field that adds up a weight over the group's trials adds up to the weight of all included trials. */
  lemma FieldConserves(
    included: seq<Trial>, groups: seq<Group>, value: Group -> int, w: Trial -> int)
    requires Distinct(GroupKeys(groups))
    requires forall t :: t in included ==> t.key in GroupKeys(groups)
    requires forall i :: 0 <= i < |groups| ==>
      value(groups[i]) == Sum(w, Filter(With(KeyOf(), groups[i].key), included))
    ensures Sum(value, groups) == Sum(w, included)
  {
    ValuesAreKeyTotal(KeyOf(), included, groups, value, w);
    AllKeysConserve(KeyOf(), w, GroupKeys(groups), included);
  }

  lemma {:induction false} ValuesAreKeyTotal<T>(
    key: T -> Key, s: seq<T>, groups: seq<Group>, value: Group -> int, w: T -> int)
    requires forall i :: 0 <= i < |groups| ==> value(groups[i]) == Sum(w, Filter(With(key, groups[i].key), s))
    ensures Sum(value, groups) == KeyTotal(key, w, GroupKeys(groups), s)
    decreases |groups|
  {
    if groups != [] {
      var rest, g := groups[..|groups| - 1], groups[|groups| - 1];
      assert GroupKeys(groups)[..|groups| - 1] == GroupKeys(rest);
      ValuesAreKeyTotal(key, s, rest, value, w);
      assert groups == rest + [g];
      SumPush(value, rest, g);
    }
  }

  function OrZero(x: Option<int>): int {
    if x.Some? then x.value else 0
  }

  /** A count that is reported only when it can be judged is the plain count, with not-computed as zero. */
  lemma CountKnownIsCount(known: Trial -> bool, p: Trial -> bool, trials: seq<Trial>)
    requires forall t :: p(t) ==> known(t)
    ensures OrZero(CountKnown(known, p, trials)) == Count(p, trials)
  {
    CountAtMost(p, known, trials);
  }

  /** The additive columns of a group row. */
  datatype Column =
    | Trials | FailedTrials | EvaluableTrials | Successes | Contaminated | Exposures | Uptakes | Descendants
    | Repeats | Drops | TokenTotal

  function Weight(c: Column): Trial -> int {
    match c
    case Trials => OneEach()
    case FailedTrials => Indicator(Failed())
    case EvaluableTrials => Indicator(Succeeded())
    case Successes => Indicator(VerifiedSuccess())
    case Contaminated => Indicator(NotClean())
    case Exposures => Indicator(Exposed())
    case Uptakes => Indicator(Uptaken())
    case Descendants => Indicator(Descends())
    case Repeats => Indicator(Repeated())
    case Drops => Dropped()
    case TokenTotal => Tokens()
  }

  /** What the report shows in a column, not-computed as zero. */
  function Reported(c: Column): Group -> int {
    (g: Group) =>
      match c
      case Trials => g.metrics.trials
      case FailedTrials => g.metrics.failed
      case EvaluableTrials => g.metrics.evaluable
      case Successes => g.metrics.successes
      case Contaminated => g.metrics.contaminated
      case Exposures => g.metrics.exposures
      case Uptakes => OrZero(g.metrics.uptakes)
      case Descendants => OrZero(g.metrics.descendants)
      case Repeats => OrZero(g.metrics.repeats)
      case Drops => g.metrics.drops
      case TokenTotal => g.metrics.tokens
  }

  lemma ReportedIsWeight(c: Column, trials: seq<Trial>, calls: seq<Call>, failures: seq<Failure>, g: Group)
    requires AreMetrics(trials, calls, failures, g.metrics)
    ensures Reported(c)(g) == Sum(Weight(c), trials)
  {
    hide IsHistogram, AreCallMetrics, CountKnown, Sum, Filter, RateOf;
    SumOfOnes(trials);
    CountKnownIsCount(UptakeKnown(), Uptaken(), trials);
    CountKnownIsCount(Descends(), Descends(), trials);
    CountKnownIsCount(RepeatKnown(), Repeated(), trials);
  }

  /** Every additive column of the report sums to its value over all included trials. */
  lemma ReportConserves(
    included: seq<Trial>, calls: seq<Call>, failures: seq<Failure>, field: PairField, groups: seq<Group>, c: Column)
    requires IsReport(included, calls, failures, field, groups)
    ensures Sum(Reported(c), groups) == Sum(Weight(c), included)
  {
    hide AreMetrics, Degradation, Reported, Weight, Sum;
    forall i | 0 <= i < |groups|
      ensures Reported(c)(groups[i]) == Sum(Weight(c), Filter(With(KeyOf(), groups[i].key), included))
    {
      var own := Filter(With(KeyOf(), groups[i].key), included);
      ReportedIsWeight(c, own, Filter(CalledBy(Ids(own)), calls), failures, groups[i]);
    }
    forall t | t in included ensures t.key in GroupKeys(groups) {
      assert KeyOf()(t) == t.key;
    }
    FieldConserves(included, groups, Reported(c), Weight(c));
  }

  /** Failed and evaluable trials partition any set of trials. */
  lemma FailedAndEvaluable(trials: seq<Trial>)
    ensures Sum(Weight(FailedTrials), trials) + Sum(Weight(EvaluableTrials), trials) == |trials|
  {
    SumPointwise(OneEach(), Indicator(Failed()), Indicator(Succeeded()), trials);
    SumOfOnes(trials);
  }

  /** The trial column sums to the number of included trials, and so do failed and evaluable trials together. */
  lemma TrialsConserve(
    included: seq<Trial>, calls: seq<Call>, failures: seq<Failure>, field: PairField, groups: seq<Group>)
    requires IsReport(included, calls, failures, field, groups)
    ensures Sum(Reported(Trials), groups) == |included|
    ensures Sum(Reported(FailedTrials), groups) + Sum(Reported(EvaluableTrials), groups) == |included|
  {
    hide IsReport;
    ReportConserves(included, calls, failures, field, groups, Trials);
    ReportConserves(included, calls, failures, field, groups, FailedTrials);
    ReportConserves(included, calls, failures, field, groups, EvaluableTrials);
    FailedAndEvaluable(included);
    SumOfOnes(included);
  }

  // ---- calls ---------------------------------------------------------------------------------------

  datatype CallColumn = Calls | CallErrors | PromptColumn | CompletionColumn | TotalColumn | LatencyColumn

  function CallWeight(c: CallColumn): Call -> int {
    match c
    case Calls => OneEach()
    case CallErrors => Indicator(HasError())
    case PromptColumn => PromptTokens()
    case CompletionColumn => CompletionTokens()
    case TotalColumn => TotalTokens()
    case LatencyColumn => Latency()
  }

  function ReportedCalls(c: CallColumn): Group -> int {
    (g: Group) =>
      match g.metrics.calls
      case NoCalls => 0
      case CallMetrics(calls, errors, prompt, completion, total, latency, _) =>
        match c
        case Calls => calls
        case CallErrors => errors
        case PromptColumn => prompt
        case CompletionColumn => completion
        case TotalColumn => total
        case LatencyColumn => latency
  }

  lemma ReportedCallsAreWeight(c: CallColumn, calls: seq<Call>, g: Group)
    requires AreCallMetrics(calls, g.metrics.calls)
    ensures ReportedCalls(c)(g) == Sum(CallWeight(c), calls)
  {
    SumOfOnes(calls);
  }

  predicate UniqueIds(trials: seq<Trial>) {
    forall i, j :: 0 <= i < j < |trials| ==> trials[i].trialId != trials[j].trialId
  }

  /** The key of the trial that made a call; the calls of trials outside the report have none. */
  function Owner(trials: seq<Trial>, id: Id): Option<Key> {
    if trials == [] then None
    else if trials[0].trialId == id then Some(trials[0].key)
    else Owner(trials[1..], id)
  }

  lemma {:induction false} OwnerIff(trials: seq<Trial>, id: Id, k: Key)
    requires UniqueIds(trials)
    ensures Owner(trials, id) == Some(k) <==> exists t :: t in trials && t.trialId == id && t.key == k
  {
    if trials != [] {
      OwnerIff(trials[1..], id, k);
      assert trials[0] in trials;
      assert forall t :: t in trials ==> t == trials[0] || t in trials[1..];
      assert forall t :: t in trials[1..] ==> t.trialId != trials[0].trialId;
    }
  }

  function OwnerOf(trials: seq<Trial>): Call -> Option<Key> {
    (c: Call) => Owner(trials, c.trialId)
  }

  lemma {:induction false} FilterSame<T>(p: T -> bool, q: T -> bool, s: seq<T>)
    requires forall x :: x in s ==> (p(x) <==> q(x))
    ensures Filter(p, s) == Filter(q, s)
  {
    if s != [] {
      FilterSame(p, q, s[1..]);
    }
  }

  /** With unique trial ids, the calls of a group are the calls owned by its key. */
  lemma GroupCallsAreOwned(included: seq<Trial>, calls: seq<Call>, k: Key)
    requires UniqueIds(included)
    ensures Filter(CalledBy(Ids(Filter(With(KeyOf(), k), included))), calls) ==
      Filter(With(OwnerOf(included), Some(k)), calls)
  {
    var own := Filter(With(KeyOf(), k), included);
    forall c | c in calls ensures CalledBy(Ids(own))(c) <==> With(OwnerOf(included), Some(k))(c) {
      OwnerIff(included, c.trialId, k);
      forall t ensures t in own <==> t in included && t.key == k {
        FilterMember(With(KeyOf(), k), included, t);
      }
    }
    FilterSame(CalledBy(Ids(own)), With(OwnerOf(included), Some(k)), calls);
  }

  function Somes(keys: seq<Key>): (r: seq<Option<Key>>)
    ensures |r| == |keys| && forall i :: 0 <= i < |keys| ==> r[i] == Some(keys[i])
  {
    seq(|keys|, i requires 0 <= i < |keys| => Some(keys[i]))
  }

  lemma {:induction false} CallValuesAreKeyTotal(
    included: seq<Trial>, calls: seq<Call>, groups: seq<Group>, c: CallColumn)
    requires UniqueIds(included)
    requires forall i :: 0 <= i < |groups| ==>
      AreCallMetrics(
        Filter(CalledBy(Ids(Filter(With(KeyOf(), groups[i].key), included))), calls), groups[i].metrics.calls)
    ensures Sum(ReportedCalls(c), groups) ==
      KeyTotal(OwnerOf(included), CallWeight(c), Somes(GroupKeys(groups)), calls)
    decreases |groups|
  {
    hide AreCallMetrics, ReportedCalls, CallWeight, Sum, UniqueIds;
    if groups == [] {
      SumOfNone(ReportedCalls(c));
    } else {
      var rest, g := groups[..|groups| - 1], groups[|groups| - 1];
      assert Somes(GroupKeys(groups))[..|groups| - 1] == Somes(GroupKeys(rest));
      CallValuesAreKeyTotal(included, calls, rest, c);
      assert groups == rest + [g];
      SumPush(ReportedCalls(c), rest, g);
      GroupCallsAreOwned(included, calls, g.key);
      ReportedCallsAreWeight(c, Filter(CalledBy(Ids(Filter(With(KeyOf(), g.key), included))), calls), g);
    }
  }

  /** With unique trial ids every call column sums to its value over all calls of included trials. */
  lemma CallsConserve(
    included: seq<Trial>, calls: seq<Call>, failures: seq<Failure>, field: PairField, groups: seq<Group>,
    c: CallColumn)
    requires IsReport(included, calls, failures, field, groups) && UniqueIds(included)
    ensures Sum(ReportedCalls(c), groups) == Sum(CallWeight(c), Filter(CalledBy(Ids(included)), calls))
  {
    hide Degradation, AreCallMetrics, ReportedCalls, CallWeight, Sum, UniqueIds, RateOf, Count, CountKnown;
    CallValuesAreKeyTotal(included, calls, groups, c);
    var keys := Somes(GroupKeys(groups));
    KeysConserve(OwnerOf(included), CallWeight(c), keys, calls);
    forall x | x in calls
      ensures KeyIn(OwnerOf(included), Elements(keys))(x) <==> CalledBy(Ids(included))(x)
    {
      OwnerInKeys(included, GroupKeys(groups), x.trialId);
    }
    FilterSame(KeyIn(OwnerOf(included), Elements(keys)), CalledBy(Ids(included)), calls);
  }

  lemma OwnerInKeys(included: seq<Trial>, keys: seq<Key>, id: Id)
    requires UniqueIds(included)
    requires forall k :: k in keys <==> exists t :: t in included && KeyOf()(t) == k
    ensures Owner(included, id) in Somes(keys) <==> id in Ids(included)
  {
    hide UniqueIds;
    if Owner(included, id) in Somes(keys) {
      var i :| 0 <= i < |keys| && Somes(keys)[i] == Owner(included, id);
      OwnerIff(included, id, keys[i]);
    }
    if id in Ids(included) {
      var t :| t in included && t.trialId == id;
      OwnerIff(included, id, t.key);
      assert KeyOf()(t) in keys;
      var i :| 0 <= i < |keys| && keys[i] == t.key;
      assert Somes(keys)[i] == Some(t.key);
    }
  }

  // ---- rates and degradation -----------------------------------------------------------------------

  predicate Fraction(r: Rate) {
    r.Computed? ==> 0.0 <= r.value <= 1.0
  }

  lemma RateIsFraction(n: int, d: int)
    requires 0 <= n <= d
    ensures Fraction(RateOf(n, d)) && (RateOf(n, d) == NotComputed <==> d == 0)
  {
  }

  /** Every rate of a group is a fraction, and computed exactly when something can be judged. */
  lemma RatesAreFractions(trials: seq<Trial>, calls: seq<Call>, failures: seq<Failure>, m: Metrics)
    requires AreMetrics(trials, calls, failures, m)
    ensures Fraction(m.successRate) && (m.successRate == NotComputed <==> m.evaluable == 0)
    ensures Fraction(m.contaminatedRate) && Fraction(m.exposureRate)
    ensures m.contaminatedRate == NotComputed <==> trials == []
    ensures m.exposureRate == NotComputed <==> trials == []
    ensures Fraction(m.uptakeRate) && (m.uptakeRate == NotComputed <==> m.uptakes == None)
    ensures Fraction(m.repeatRate) && (m.repeatRate == NotComputed <==> m.repeats == None)
    ensures m.descendantRate == if m.descendants == None then NotComputed else Computed(1.0)
  {
    hide Count, IsHistogram, AreCallMetrics, RateOf;
    CountAtMost(VerifiedSuccess(), Succeeded(), trials);
    CountAtMost(Uptaken(), UptakeKnown(), trials);
    CountAtMost(Repeated(), RepeatKnown(), trials);
    CountAtMostLength(NotClean(), trials);
    CountAtMostLength(Exposed(), trials);
    RateIsFraction(Count(VerifiedSuccess(), trials), Count(Succeeded(), trials));
    RateIsFraction(Count(NotClean(), trials), |trials|);
    RateIsFraction(Count(Exposed(), trials), |trials|);
    RateIsFraction(Count(Uptaken(), trials), Count(UptakeKnown(), trials));
    RateIsFraction(Count(Repeated(), trials), Count(RepeatKnown(), trials));
    WholeRate(Count(Descends(), trials));
  }

  lemma WholeRate(n: int)
    ensures RateOf(n, n) == if n == 0 then NotComputed else Computed(1.0)
  {
  }

  lemma CountAtMostLength(p: Trial -> bool, trials: seq<Trial>)
    ensures 0 <= Count(p, trials) <= |trials|
  {
    CountIsLength(p, trials);
    SumMonotone(Indicator(p), OneEach(), trials);
    SumOfOnes(trials);
  }

  lemma ShareIsFraction(trials: seq<Trial>)
    requires Count(Judged(), trials) != 0
    ensures 0.0 <= SuccessShare(trials) <= 1.0
  {
    hide Count;
    CountAtMost(JudgedCorrect(), Judged(), trials);
    RateIsFraction(Count(JudgedCorrect(), trials), Count(Judged(), trials));
  }

  /** A computed degradation is between -1 and 1. */
  lemma DegradationIsBounded(field: PairField, clean: seq<Trial>, contaminated: seq<Trial>)
    ensures
      var r := Degradation(field, clean, contaminated);
      r.Computed? ==> -1.0 <= r.value <= 1.0
  {
    hide Count, Comparable, SuccessShare, Paired;
    if Degradation(field, clean, contaminated).Computed? {
      ShareIsFraction(Paired(field, clean));
      ShareIsFraction(Paired(field, contaminated));
    }
  }

  /** Exchanging the arms negates the degradation. */
  lemma DegradationIsAntisymmetric(field: PairField, clean: seq<Trial>, contaminated: seq<Trial>)
    ensures
      var r, q := Degradation(field, clean, contaminated), Degradation(field, contaminated, clean);
      match r
      case NotComputed => q == NotComputed
      case Computed(x) => q == Computed(-x)
  {
    hide Count, SuccessShare, Paired, PairIds;
    NonEmptyAlike(PairIds(field, clean), PairIds(field, contaminated));
  }

  lemma NonEmptyAlike<T>(a: seq<T>, b: seq<T>)
    ensures Elements(a) == Elements(b) ==> (a == [] <==> b == [])
  {
    if a != [] {
      assert a[0] in Elements(a);
    }
    if b != [] {
      assert b[0] in Elements(b);
    }
  }

  // ---- completed grids -----------------------------------------------------------------------------

  /** The trajectory part of a pair id: a digest of the seeds, task, baseline and model. */
  type Trajectory = (string, string, string) -> string

  function PairId(trajectory: string, index: nat, sampleId: string): string {
    JoinOn(":", [trajectory, Decimal(index), sampleId])
  }

  function PairOfCell(traj: Trajectory): Grid.Cell -> string {
    (cell: Grid.Cell) =>
      match cell
      case Cell(id, index, row) => PairId(traj(id.task, id.baseline, id.model), index, row.sampleId)
      case Refused => ""
  }

  function PairIdField(): PairField {
    (t: Trial) => t.pairId
  }

  function KeyOfIdentity(id: Grid.Identity): Key {
    Key(id.task, id.baseline, id.arm, id.model)
  }

  /** How the grid logs a record; all other fields of the trial are arbitrary. */
  ghost predicate Logs(log: Grid.Record -> Trial, traj: Trajectory) {
    forall r: Grid.Record :: r.cell.Cell? ==>
      log(r).key == KeyOfIdentity(r.cell.id) && log(r).pairId == Some(PairOfCell(traj)(r.cell)) &&
      Included()(log(r))
  }

  ghost predicate SameCells(written: seq<Grid.Record>, cells: seq<Grid.Cell>) {
    |written| == |cells| && forall k :: 0 <= k < |written| ==> written[k].cell == cells[k] && cells[k].Cell?
  }

  lemma PairIdSplits(a: string, b: string, x: string, y: string)
    requires ':' !in a && ':' !in b && a + ":" + x == b + ":" + y
    ensures a == b
  {
    SplitNoSep(':', a);
    SplitNoSep(':', b);
    SplitConcat(':', a, x);
    SplitConcat(':', b, y);
    assert SplitOn(':', a + ":" + x)[0] == a && SplitOn(':', b + ":" + y)[0] == b;
  }

  lemma PairIdShape(t: string, i: nat, s: string)
    ensures PairId(t, i, s) == t + (":" + (Decimal(i) + ":" + s))
  {
    assert [t, Decimal(i), s][1..] == [Decimal(i), s] && [Decimal(i), s][1..] == [s];
    assert JoinOn(":", [Decimal(i), s]) == Decimal(i) + ":" + s;
  }

  /** Within one trajectory, the position alone decides the pair id. */
  lemma PairIdIsInjective(t: string, i: nat, s: string, j: nat, u: string)
    requires PairId(t, i, s) == PairId(t, j, u)
    ensures i == j
  {
    PairIdShape(t, i, s);
    PairIdShape(t, j, u);
    var x, y := Decimal(i) + ":" + s, Decimal(j) + ":" + u;
    assert PairId(t, i, s)[|t| + 1..] == x && PairId(t, j, u)[|t| + 1..] == y;
    DecimalHasNo(i, ':');
    DecimalHasNo(j, ':');
    PairIdSplits(Decimal(i), Decimal(j), s, u);
    DecimalInjective(i, j);
  }

  function ComboOfIdentity(id: Grid.Identity): Combo {
    Combo(id.task, id.baseline, id.model)
  }

  /** The pair ids that an arm's trials show are the pair ids of its cells. */
  lemma {:induction false} ArmPairIds(
    log: Grid.Record -> Trial, traj: Trajectory, written: seq<Grid.Record>, cells: seq<Grid.Cell>,
    id: Grid.Identity)
    requires Logs(log, traj) && SameCells(written, cells)
    ensures PairIds(PairIdField(), ArmOfCombo(Map(log, written), ComboOfIdentity(id), id.arm)) ==
      Map(PairOfCell(traj), GridRuns.CellsOf(cells, id))
    decreases |written|
  {
    if written != [] {
      ArmPairIds(log, traj, written[1..], cells[1..], id);
      var t := log(written[0]);
      assert Map(log, written) == [t] + Map(log, written[1..]);
      assert GridRuns.Is(id)(cells[0]) <==> t.key == KeyOfIdentity(id);
    }
  }

  lemma NumberingPairIds(traj: Trajectory, a: Grid.Identity, b: Grid.Identity, rows: seq<Grid.Row>)
    requires a.task == b.task && a.baseline == b.baseline && a.model == b.model
    ensures Map(PairOfCell(traj), GridRuns.Numbering(a, rows, |rows|)) ==
      Map(PairOfCell(traj), GridRuns.Numbering(b, rows, |rows|))
    ensures Distinct(Map(PairOfCell(traj), GridRuns.Numbering(a, rows, |rows|)))
  {
    hide PairId;
    var ids := Map(PairOfCell(traj), GridRuns.Numbering(a, rows, |rows|));
    forall i, j | 0 <= i < j < |ids| ensures ids[i] != ids[j] {
      if ids[i] == ids[j] {
        PairIdIsInjective(traj(a.task, a.baseline, a.model), i, rows[i].sampleId, j, rows[j].sampleId);
      }
    }
  }

  /** The trials that a finished grid run leaves in the log. */
  function Logged<S>(env: Grid.Env<S>, cfg: Grid.Config, cursor: nat, log: Grid.Record -> Trial): seq<Trial> {
    Map(log, Grid.RunCells(env, GridRuns.Start(cursor), Grid.AllCells(env, cfg)).written)
  }

  lemma {:induction false} AllLoggedIncluded(log: Grid.Record -> Trial, traj: Trajectory, written: seq<Grid.Record>)
    requires Logs(log, traj) && forall i :: 0 <= i < |written| ==> written[i].cell.Cell?
    ensures Filter(Included(), Map(log, written)) == Map(log, written)
  {
    hide Included;
    forall t | t in Map(log, written) ensures Included()(t) {
      var i :| 0 <= i < |written| && Map(log, written)[i] == t;
    }
    FilterAll(Included(), Map(log, written));
  }

  lemma LoggedArm<S>(
    env: Grid.Env<S>, cfg: Grid.Config, cursor: nat, log: Grid.Record -> Trial, traj: Trajectory,
    id: Grid.Identity, k: nat)
    requires GridRuns.DistinctConfig(cfg) && GridRuns.Supported(env, cfg) && k < |cfg.tasks|
    requires id.task == cfg.tasks[k].name && GridRuns.InGrid(cfg, id)
    requires !Grid.RunCells(env, GridRuns.Start(cursor), Grid.AllCells(env, cfg)).aborted
    requires Logs(log, traj)
    ensures Filter(Included(), Logged(env, cfg, cursor, log)) == Logged(env, cfg, cursor, log)
    ensures PairIds(PairIdField(), ArmOfCombo(Logged(env, cfg, cursor, log), ComboOfIdentity(id), id.arm)) ==
      Map(PairOfCell(traj), GridRuns.Numbering(id, cfg.tasks[k].rows, |cfg.tasks[k].rows|))
  {
    hide Grid.RunCells, Grid.AllCells, GridRuns.Numbering, PairIds, ArmOfCombo, Logs;
    var cells := Grid.AllCells(env, cfg);
    var written := Grid.RunCells(env, GridRuns.Start(cursor), cells).written;
    GridRuns.RunIsNumbered(env, cursor, cells);
    forall i | 0 <= i < |written| ensures cells[i].Cell? && written[i].cell == cells[i] {
      assert cells[i] in cells;
    }
    AllLoggedIncluded(log, traj, written);
    ArmPairIds(log, traj, written, cells, id);
    AllCellsOfTask(env, cfg, id, k);
  }

  lemma AllCellsOfTask<S>(env: Grid.Env<S>, cfg: Grid.Config, id: Grid.Identity, k: nat)
    requires GridRuns.DistinctConfig(cfg) && GridRuns.Supported(env, cfg) && k < |cfg.tasks|
    requires id.task == cfg.tasks[k].name && GridRuns.InGrid(cfg, id)
    ensures GridRuns.CellsOf(Grid.AllCells(env, cfg), id) ==
      GridRuns.Numbering(id, cfg.tasks[k].rows, |cfg.tasks[k].rows|)
  {
    GridRuns.CellsOfTask(env, cfg, id, k, |cfg.tasks|);
  }

  /** In a finished grid with a clean and a contaminated arm the two arms have the same pair ids, each once, so the
      degradation is computed exactly when both arms have a judged trial. */
  lemma {:induction false} GridArmsAreComparable<S>(
    env: Grid.Env<S>, cfg: Grid.Config, cursor: nat, log: Grid.Record -> Trial, traj: Trajectory,
    clean: Grid.Identity, k: nat)
    requires GridRuns.DistinctConfig(cfg) && GridRuns.Supported(env, cfg) && k < |cfg.tasks|
    requires clean.task == cfg.tasks[k].name && clean.arm == "clean" && GridRuns.InGrid(cfg, clean)
    requires clean.baseline != "no_memory" && "contaminated" in cfg.arms
    requires !Grid.RunCells(env, GridRuns.Start(cursor), Grid.AllCells(env, cfg)).aborted
    requires Logs(log, traj)
    ensures
      var c, included := ComboOfIdentity(clean), Filter(Included(), Logged(env, cfg, cursor, log));
      var a, b := ArmOfCombo(included, c, "clean"), ArmOfCombo(included, c, "contaminated");
      Comparable(PairIdField(), a, b) &&
      (Degradation(PairIdField(), a, b) == NotComputed <==>
        Count(Judged(), Paired(PairIdField(), a)) == 0 || Count(Judged(), Paired(PairIdField(), b)) == 0)
  {
    hide Logged, Included, ArmOfCombo, PairIds, Logs, Count, PairOfCell, Paired;
    hide Grid.RunCells, Grid.AllCells;
    var contaminated := clean.(arm := "contaminated");
    LoggedArm(env, cfg, cursor, log, traj, clean, k);
    LoggedArm(env, cfg, cursor, log, traj, contaminated, k);
    NumberingPairIds(traj, clean, contaminated, cfg.tasks[k].rows);
    NumberingPairIds(traj, contaminated, clean, cfg.tasks[k].rows);
    assert |Map(PairOfCell(traj), GridRuns.Numbering(clean, cfg.tasks[k].rows, |cfg.tasks[k].rows|))| > 0;
  }
}
