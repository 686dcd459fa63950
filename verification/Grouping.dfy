/** The metric groups of an aggregated run: grouping, counts and rates, call metrics and paired degradation. */
module Grouping {
  import opened Common
  import opened Sorting

  // ---- log rows ------------------------------------------------------------------------------------

  datatype Key = Key(task: string, baseline: string, arm: string, backbone: string)

  datatype Combo = Combo(task: string, baseline: string, backbone: string)

  /** An absent value is None; `correct` is the verdict of the verifier, if there is one. */
  datatype Trial = Trial(
    trialId: Id, key: Key, sampleId: Option<string>, pairId: Option<string>, excludeFromAggregate: bool,
    phase: Option<string>, failed: bool, correct: Option<bool>, exposed: bool, dropped: int, tokens: int,
    uptakeLabel: Option<string>, repeatedLabel: Option<string>, descendantLink: bool)

  datatype Call = Call(
    trialId: Id, stage: string, errorType: Option<string>, promptTokens: int, completionTokens: int,
    totalTokens: int, latency: Option<int>)

  datatype Failure = Failure(trialId: Id, origin: string)

  // ---- grouping ------------------------------------------------------------------------------------

  function With<T, K(==)>(key: T -> K, k: K): T -> bool {
    (x: T) => key(x) == k
  }

  /** A dictionary of lists: under each key, the elements with that key in their order, and no empty list. */
  ghost predicate IsGrouping<T, K(!new)>(key: T -> K, s: seq<T>, m: map<K, seq<T>>) {
    (forall k :: k in m <==> exists x :: x in s && key(x) == k) &&
    forall k :: k in m ==> m[k] == Filter(With(key, k), s)
  }

  function Pushed<T, K(==)>(m: map<K, seq<T>>, k: K, x: T): map<K, seq<T>> {
    m[k := (if k in m then m[k] else []) + [x]]
  }

  lemma {:induction false} FilterNone<T>(keep: T -> bool, s: seq<T>)
    requires forall x :: x in s ==> !keep(x)
    ensures Filter(keep, s) == []
  {
    if s != [] {
      FilterNone(keep, s[1..]);
    }
  }

  lemma FilterPush<T>(keep: T -> bool, s: seq<T>, x: T)
    ensures Filter(keep, s + [x]) == Filter(keep, s) + (if keep(x) then [x] else [])
  {
    FilterSum(keep, s, [x]);
    assert [x][1..] == [];
  }

  lemma GroupPush<T, K(!new)>(key: T -> K, s: seq<T>, m: map<K, seq<T>>, x: T)
    requires IsGrouping(key, s, m)
    ensures IsGrouping(key, s + [x], Pushed(m, key(x), x))
  {
    var more := Pushed(m, key(x), x);
    forall k ensures k in more <==> exists y :: y in s + [x] && key(y) == k {
      if k == key(x) {
        assert x in s + [x];
      } else if k in m {
        var y :| y in s && key(y) == k;
        assert y in s + [x];
      }
    }
    forall k | k in more ensures more[k] == Filter(With(key, k), s + [x]) {
      FilterPush(With(key, k), s, x);
      if k == key(x) && k !in m {
        FilterNone(With(key, k), s);
      }
    }
  }

  function KeyOf(): Trial -> Key {
    (t: Trial) => t.key
  }

  function ComboOf(): Trial -> Combo {
    (t: Trial) => Combo(t.key.task, t.key.baseline, t.key.backbone)
  }

  function ArmOf(): Trial -> string {
    (t: Trial) => t.key.arm
  }

  function Included(): Trial -> bool {
    (t: Trial) => !t.excludeFromAggregate && t.phase != Some("warmup")
  }

  /** The trials of one comparison, split by arm. */
  ghost predicate AreCombos(s: seq<Trial>, combos: map<Combo, map<string, seq<Trial>>>) {
    (forall c :: c in combos <==> exists t :: t in s && ComboOf()(t) == c) &&
    forall c :: c in combos ==> IsGrouping(ArmOf(), Filter(With(ComboOf(), c), s), combos[c])
  }

  lemma ComboPush(s: seq<Trial>, combos: map<Combo, map<string, seq<Trial>>>, t: Trial)
    requires AreCombos(s, combos)
    ensures
      var c := ComboOf()(t);
      AreCombos(s + [t], combos[c := Pushed(if c in combos then combos[c] else map[], t.key.arm, t)])
  {
    hide IsGrouping, Pushed;
    var c := ComboOf()(t);
    var arms := if c in combos then combos[c] else map[];
    var more := combos[c := Pushed(arms, t.key.arm, t)];
    if c !in combos {
      FilterNone(With(ComboOf(), c), s);
      NoGroups(ArmOf());
    }
    GroupPush(ArmOf(), Filter(With(ComboOf(), c), s), arms, t);
    forall d ensures d in more <==> exists u :: u in s + [t] && ComboOf()(u) == d {
      if d == c {
        assert t in s + [t];
      } else if d in combos {
        var u :| u in s && ComboOf()(u) == d;
        assert u in s + [t];
      }
    }
    forall d | d in more ensures IsGrouping(ArmOf(), Filter(With(ComboOf(), d), s + [t]), more[d]) {
      FilterPush(With(ComboOf(), d), s, t);
      assert Filter(With(ComboOf(), d), s) + [] == Filter(With(ComboOf(), d), s);
    }
  }

  lemma NoGroups<T, K(!new)>(key: T -> K)
    ensures IsGrouping(key, [], map[])
  {
  }

  /** Groups the included trials by key, and by combo and arm. */
  method GroupTrials(trials: seq<Trial>)
    returns (grouped: map<Key, seq<Trial>>, combos: map<Combo, map<string, seq<Trial>>>)
    ensures IsGrouping(KeyOf(), Filter(Included(), trials), grouped)
    ensures AreCombos(Filter(Included(), trials), combos)
  {
    hide IsGrouping, AreCombos, Pushed;
    grouped, combos := map[], map[];
    ghost var seen: seq<Trial> := [];
    assert trials[..0] == [];
    NoGroups(KeyOf());
    NoCombos();
    for i := 0 to |trials|
      invariant seen == Filter(Included(), trials[..i])
      invariant IsGrouping(KeyOf(), seen, grouped) && AreCombos(seen, combos)
    {
      var trial := trials[i];
      assert trials[..i + 1] == trials[..i] + [trial];
      FilterPush(Included(), trials[..i], trial);
      if trial.excludeFromAggregate || trial.phase == Some("warmup") {
        continue;
      }
      GroupPush(KeyOf(), seen, grouped, trial);
      ComboPush(seen, combos, trial);
      grouped := Pushed(grouped, trial.key, trial);
      var combo := Combo(trial.key.task, trial.key.baseline, trial.key.backbone);
      combos := combos[combo := Pushed(if combo in combos then combos[combo] else map[], trial.key.arm, trial)];
      seen := seen + [trial];
    }
    assert trials[..|trials|] == trials;
  }

  lemma NoCombos()
    ensures AreCombos([], map[])
  {
  }

  // ---- counting ------------------------------------------------------------------------------------

  function Indicator<T>(p: T -> bool): T -> int {
    (x: T) => if p(x) then 1 else 0
  }

  function Count<T>(p: T -> bool, s: seq<T>): int {
    Sum(Indicator(p), s)
  }

  lemma {:induction false} CountIsLength<T>(p: T -> bool, s: seq<T>)
    ensures Count(p, s) == |Filter(p, s)|
  {
    if s != [] {
      CountIsLength(p, s[1..]);
    }
  }

  lemma CountAtMost<T(!new)>(p: T -> bool, q: T -> bool, s: seq<T>)
    requires forall x :: p(x) ==> q(x)
    ensures 0 <= Count(p, s) <= Count(q, s)
  {
    CountIsLength(p, s);
    SumMonotone(Indicator(p), Indicator(q), s);
  }

  /** A histogram: for every key that occurs, how often it occurs. */
  ghost predicate IsHistogram<T, K(!new)>(key: T -> K, s: seq<T>, h: map<K, nat>) {
    (forall k :: k in h <==> exists x :: x in s && key(x) == k) &&
    forall k :: k in h ==> h[k] == |Filter(With(key, k), s)|
  }

  function Tallied<K(==)>(h: map<K, nat>, k: K): map<K, nat> {
    h[k := (if k in h then h[k] else 0) + 1]
  }

  lemma TallyPush<T, K(!new)>(key: T -> K, s: seq<T>, h: map<K, nat>, x: T)
    requires IsHistogram(key, s, h)
    ensures IsHistogram(key, s + [x], Tallied(h, key(x)))
  {
    var more := Tallied(h, key(x));
    forall k ensures k in more <==> exists y :: y in s + [x] && key(y) == k {
      if k == key(x) {
        assert x in s + [x];
      } else if k in h {
        var y :| y in s && key(y) == k;
        assert y in s + [x];
      }
    }
    forall k | k in more ensures more[k] == |Filter(With(key, k), s + [x])| {
      FilterPush(With(key, k), s, x);
      if k == key(x) && k !in h {
        FilterNone(With(key, k), s);
      }
    }
  }

  // ---- call metrics --------------------------------------------------------------------------------

  datatype CallMetrics =
    | NoCalls
    | CallMetrics(
        calls: int, errors: int, promptTokens: int, completionTokens: int, totalTokens: int, latency: int,
        stages: map<string, nat>)

  function StageOf(): Call -> string {
    (c: Call) => c.stage
  }

  function HasError(): Call -> bool {
    (c: Call) => c.errorType.Some?
  }

  function PromptTokens(): Call -> int {
    (c: Call) => c.promptTokens
  }

  function CompletionTokens(): Call -> int {
    (c: Call) => c.completionTokens
  }

  function TotalTokens(): Call -> int {
    (c: Call) => c.totalTokens
  }

  function Latency(): Call -> int {
    (c: Call) => if c.latency.Some? then c.latency.value else 0
  }

  ghost predicate AreCallMetrics(calls: seq<Call>, m: CallMetrics) {
    if calls == [] then m == NoCalls
    else
      m.CallMetrics? && m.calls == |calls| && m.errors == Count(HasError(), calls) &&
      m.promptTokens == Sum(PromptTokens(), calls) && m.completionTokens == Sum(CompletionTokens(), calls) &&
      m.totalTokens == Sum(TotalTokens(), calls) && m.latency == Sum(Latency(), calls) &&
      IsHistogram(StageOf(), calls, m.stages)
  }

  lemma SumPush<T>(w: T -> int, s: seq<T>, x: T)
    ensures Sum(w, s + [x]) == Sum(w, s) + w(x)
  {
    SumOfSum(w, s, [x]);
    assert [x][1..] == [];
  }

  method AggregateCallMetrics(calls: seq<Call>) returns (m: CallMetrics)
    ensures AreCallMetrics(calls, m)
  {
    hide IsHistogram, Tallied, Sum;
    if calls == [] {
      return NoCalls;
    }
    var errors, prompt, completion, total, latency := 0, 0, 0, 0, 0;
    var histogram: map<string, nat> := map[];
    EmptyCalls();
    assert calls[..0] == [];
    for i := 0 to |calls|
      invariant IsHistogram(StageOf(), calls[..i], histogram)
      invariant errors == Sum(Indicator(HasError()), calls[..i])
      invariant prompt == Sum(PromptTokens(), calls[..i]) && completion == Sum(CompletionTokens(), calls[..i])
      invariant total == Sum(TotalTokens(), calls[..i]) && latency == Sum(Latency(), calls[..i])
    {
      var call := calls[i];
      assert calls[..i + 1] == calls[..i] + [call];
      TallyPush(StageOf(), calls[..i], histogram, call);
      histogram := Tallied(histogram, call.stage);
      SumPush(Indicator(HasError()), calls[..i], call);
      if call.errorType.Some? {
        errors := errors + 1;
      }
      SumPush(PromptTokens(), calls[..i], call);
      prompt := prompt + call.promptTokens;
      SumPush(CompletionTokens(), calls[..i], call);
      completion := completion + call.completionTokens;
      SumPush(TotalTokens(), calls[..i], call);
      total := total + call.totalTokens;
      SumPush(Latency(), calls[..i], call);
      if call.latency.Some? {
        latency := latency + call.latency.value;
      }
    }
    assert calls[..|calls|] == calls;
    m := CallMetrics(|calls|, errors, prompt, completion, total, latency, histogram);
  }

  lemma EmptyCalls()
    ensures IsHistogram(StageOf(), [], map[]) && Sum(Indicator(HasError()), []) == 0
    ensures Sum(PromptTokens(), []) == 0 && Sum(CompletionTokens(), []) == 0
    ensures Sum(TotalTokens(), []) == 0 && Sum(Latency(), []) == 0
  {
  }

  // ---- the metrics of a group ----------------------------------------------------------------------

  datatype Rate = NotComputed | Computed(value: real)

  function RateOf(numerator: int, denominator: int): Rate {
    if denominator == 0 then NotComputed else Computed(numerator as real / denominator as real)
  }

  function Failed(): Trial -> bool {
    (t: Trial) => t.failed
  }

  function Succeeded(): Trial -> bool {
    (t: Trial) => !t.failed
  }

  function VerifiedSuccess(): Trial -> bool {
    (t: Trial) => !t.failed && t.correct == Some(true)
  }

  function NotClean(): Trial -> bool {
    (t: Trial) => t.key.arm != "clean"
  }

  function Exposed(): Trial -> bool {
    (t: Trial) => t.exposed
  }

  function UptakeKnown(): Trial -> bool {
    (t: Trial) => t.uptakeLabel in {Some("uptake_detected"), Some("no_uptake_detected")}
  }

  function Uptaken(): Trial -> bool {
    (t: Trial) => t.uptakeLabel == Some("uptake_detected")
  }

  function RepeatKnown(): Trial -> bool {
    (t: Trial) => t.repeatedLabel in {Some("first_failure"), Some("repeated_failure")}
  }

  function Repeated(): Trial -> bool {
    (t: Trial) => t.repeatedLabel == Some("repeated_failure")
  }

  function Descends(): Trial -> bool {
    (t: Trial) => t.descendantLink
  }

  function Dropped(): Trial -> int {
    (t: Trial) => t.dropped
  }

  function Tokens(): Trial -> int {
    (t: Trial) => t.tokens
  }

  datatype Metrics = Metrics(
    trials: int, failed: int, evaluable: int,
    successes: int, successRate: Rate, contaminated: int, contaminatedRate: Rate,
    exposures: int, exposureRate: Rate, uptakes: Option<int>, uptakeRate: Rate,
    descendants: Option<int>, descendantRate: Rate, drops: int, tokens: int,
    repeats: Option<int>, repeatRate: Rate, origins: map<string, nat>, calls: CallMetrics)

  /** A count over the trials where it can be judged, None if there are none. */
  function CountKnown(known: Trial -> bool, p: Trial -> bool, trials: seq<Trial>): Option<int> {
    if Count(known, trials) == 0 then None else Some(Count(p, trials))
  }

  /** The dictionary of failures by trial: the last failure of a trial wins. */
  function OriginOf(failures: seq<Failure>, trialId: Id): string {
    if failures == [] then "runner"
    else if failures[|failures| - 1].trialId == trialId then failures[|failures| - 1].origin
    else OriginOf(failures[..|failures| - 1], trialId)
  }

  function Origin(failures: seq<Failure>): Trial -> string {
    (t: Trial) => OriginOf(failures, t.trialId)
  }

  ghost predicate AreMetrics(trials: seq<Trial>, calls: seq<Call>, failures: seq<Failure>, m: Metrics) {
    m.trials == |trials| && m.failed == Count(Failed(), trials) && m.evaluable == Count(Succeeded(), trials) &&
    m.successes == Count(VerifiedSuccess(), trials) && m.successRate == RateOf(m.successes, m.evaluable) &&
    m.contaminated == Count(NotClean(), trials) && m.contaminatedRate == RateOf(m.contaminated, m.trials) &&
    m.exposures == Count(Exposed(), trials) && m.exposureRate == RateOf(m.exposures, m.trials) &&
    m.uptakes == CountKnown(UptakeKnown(), Uptaken(), trials) &&
    m.uptakeRate == RateOf(Count(Uptaken(), trials), Count(UptakeKnown(), trials)) &&
    m.descendants == CountKnown(Descends(), Descends(), trials) &&
    m.descendantRate == RateOf(Count(Descends(), trials), Count(Descends(), trials)) &&
    m.drops == Sum(Dropped(), trials) && m.tokens == Sum(Tokens(), trials) &&
    m.repeats == CountKnown(RepeatKnown(), Repeated(), trials) &&
    m.repeatRate == RateOf(Count(Repeated(), trials), Count(RepeatKnown(), trials)) &&
    IsHistogram(Origin(failures), Filter(Failed(), trials), m.origins) && AreCallMetrics(calls, m.calls)
  }

  method OriginHistogram(failed: seq<Trial>, failures: seq<Failure>) returns (h: map<string, nat>)
    ensures IsHistogram(Origin(failures), failed, h)
  {
    hide Tallied;
    h := map[];
    for i := 0 to |failed|
      invariant IsHistogram(Origin(failures), failed[..i], h)
    {
      assert failed[..i + 1] == failed[..i] + [failed[i]];
      TallyPush(Origin(failures), failed[..i], h, failed[i]);
      h := Tallied(h, OriginOf(failures, failed[i].trialId));
    }
    assert failed[..|failed|] == failed;
  }

  ghost function Positions<T>(p: T -> bool, s: seq<T>): set<nat> {
    set i: nat | i < |s| && p(s[i])
  }

  /** A count is the number of positions at which the condition holds. */
  lemma {:induction false} CountIsCardinality<T>(p: T -> bool, s: seq<T>)
    ensures Count(p, s) == |Positions(p, s)|
    decreases |s|
  {
    if s != [] {
      var n := |s| - 1;
      CountIsCardinality(p, s[..n]);
      assert s == s[..n] + [s[n]];
      SumPush(Indicator(p), s[..n], s[n]);
      assert Positions(p, s) == Positions(p, s[..n]) + (if p(s[n]) then {n} else {});
    }
  }

  /** Counting in a filtered list is counting both conditions. */
  lemma {:induction false} CountWithin<T(!new)>(p: T -> bool, q: T -> bool, both: T -> bool, s: seq<T>)
    requires forall x :: both(x) <==> p(x) && q(x)
    ensures Count(p, Filter(q, s)) == Count(both, s)
  {
    if s != [] {
      CountWithin(p, q, both, s[1..]);
      assert forall t: seq<T> :: ([s[0]] + t)[1..] == t;
    }
  }

  /** `sum(1 for trial in trials if ...)`. */
  method CountWhere(p: Trial -> bool, trials: seq<Trial>) returns (n: nat)
    ensures n == |Positions(p, trials)| && n == Count(p, trials)
  {
    hide Sum;
    n := 0;
    SumOfNone(Indicator(p));
    assert trials[..0] == [];
    for i := 0 to |trials|
      invariant n == Sum(Indicator(p), trials[..i])
    {
      assert trials[..i + 1] == trials[..i] + [trials[i]];
      SumPush(Indicator(p), trials[..i], trials[i]);
      if p(trials[i]) {
        n := n + 1;
      }
    }
    assert trials[..|trials|] == trials;
    CountIsCardinality(p, trials);
  }

  lemma SumOfNone<T>(w: T -> int)
    ensures Sum(w, []) == 0
  {
  }

  /** `sum(... for trial in trials)`. */
  method TotalOf(w: Trial -> int, trials: seq<Trial>) returns (total: int)
    ensures total == Sum(w, trials)
  {
    hide Sum;
    total := 0;
    SumOfNone(w);
    assert trials[..0] == [];
    for i := 0 to |trials|
      invariant total == Sum(w, trials[..i])
    {
      assert trials[..i + 1] == trials[..i] + [trials[i]];
      SumPush(w, trials[..i], trials[i]);
      total := total + w(trials[i]);
    }
    assert trials[..|trials|] == trials;
  }

  function IsCorrect(): Trial -> bool {
    (t: Trial) => t.correct == Some(true)
  }

  /** A count among the trials where it can be judged, and its share of them. */
  method CountJudged(known: Trial -> bool, p: Trial -> bool, trials: seq<Trial>)
    returns (count: Option<int>, rate: Rate)
    requires forall t :: p(t) ==> known(t)
    ensures count == CountKnown(known, p, trials)
    ensures rate == RateOf(Count(p, trials), Count(known, trials))
  {
    hide Count;
    var evaluable := Filter(known, trials);
    CountIsLength(known, trials);
    CountWithin(p, known, p, trials);
    var n := CountWhere(p, evaluable);
    count := if evaluable != [] then Some(n) else None;
    rate := RateOf(n, |evaluable|);
  }

  /** The source counts in filtered lists; the contract counts the whole group. */
  method MetricGroup(trials: seq<Trial>, calls: seq<Call>, failures: seq<Failure>) returns (m: Metrics)
    ensures AreMetrics(trials, calls, failures, m)
  {
    hide IsHistogram, AreCallMetrics, Count, CountKnown, RateOf, Filter, Sum;
    var succeeded, failed := Filter(Succeeded(), trials), Filter(Failed(), trials);
    var origins := OriginHistogram(failed, failures);
    var callMetrics := AggregateCallMetrics(calls);
    var successes := CountWhere(IsCorrect(), succeeded);
    var contaminated := CountWhere(NotClean(), trials);
    var exposures := CountWhere(Exposed(), trials);
    var drops := TotalOf(Dropped(), trials);
    var tokens := TotalOf(Tokens(), trials);
    var uptakes, uptakeRate := CountJudged(UptakeKnown(), Uptaken(), trials);
    var repeats, repeatRate := CountJudged(RepeatKnown(), Repeated(), trials);
    var descendants := Filter(Descends(), trials);
    CountIsLength(Failed(), trials);
    CountIsLength(Succeeded(), trials);
    CountIsLength(Descends(), trials);
    CountWithin(IsCorrect(), Succeeded(), VerifiedSuccess(), trials);
    DescendantsKnown(trials);
    m := Metrics(
      |trials|, |failed|, |succeeded|, successes, RateOf(successes, |succeeded|), contaminated,
      RateOf(contaminated, |trials|), exposures, RateOf(exposures, |trials|), uptakes, uptakeRate,
      if descendants != [] then Some(|descendants|) else None, RateOf(|descendants|, |descendants|), drops, tokens,
      repeats, repeatRate, origins, callMetrics);
  }

  lemma DescendantsKnown(trials: seq<Trial>)
    ensures CountKnown(Descends(), Descends(), trials) ==
      if Filter(Descends(), trials) != [] then Some(|Filter(Descends(), trials)|) else None
  {
    CountIsLength(Descends(), trials);
  }

  // ---- paired degradation --------------------------------------------------------------------------

  /** The field that pairs trials across arms: the pair id, or the sample id of older runs. */
  type PairField = Trial -> Option<string>

  function HasPair(field: PairField): Trial -> bool {
    (t: Trial) => field(t).Some?
  }

  function PairOf(field: PairField): Trial -> string {
    (t: Trial) => if field(t).Some? then field(t).value else ""
  }

  function Paired(field: PairField, trials: seq<Trial>): seq<Trial> {
    Filter(HasPair(field), trials)
  }

  function PairIds(field: PairField, trials: seq<Trial>): seq<string> {
    Map(PairOf(field), Paired(field, trials))
  }

  /** The arms can be compared: they have the same pair ids, at least one, and each id once in each arm. */
  ghost predicate Comparable(field: PairField, clean: seq<Trial>, contaminated: seq<Trial>) {
    PairIds(field, clean) != [] &&
    Elements(PairIds(field, clean)) == Elements(PairIds(field, contaminated)) &&
    Distinct(PairIds(field, clean)) && Distinct(PairIds(field, contaminated))
  }

  function Judged(): Trial -> bool {
    (t: Trial) => !t.failed && t.correct.Some?
  }

  function JudgedCorrect(): Trial -> bool {
    (t: Trial) => !t.failed && t.correct == Some(true)
  }

  function SuccessShare(trials: seq<Trial>): real
    requires Count(Judged(), trials) != 0
  {
    Count(JudgedCorrect(), trials) as real / Count(Judged(), trials) as real
  }

  ghost function Degradation(field: PairField, clean: seq<Trial>, contaminated: seq<Trial>): Rate {
    var c, d := Paired(field, clean), Paired(field, contaminated);
    if Comparable(field, clean, contaminated) && Count(Judged(), c) != 0 && Count(Judged(), d) != 0 then
      Computed(SuccessShare(c) - SuccessShare(d))
    else NotComputed
  }

  method GroupByPair(field: PairField, trials: seq<Trial>) returns (byPair: map<string, seq<Trial>>)
    ensures IsGrouping(PairOf(field), Paired(field, trials), byPair)
  {
    hide IsGrouping, Pushed;
    byPair := map[];
    ghost var seen: seq<Trial> := [];
    NoGroups(PairOf(field));
    assert trials[..0] == [];
    for i := 0 to |trials|
      invariant seen == Paired(field, trials[..i]) && IsGrouping(PairOf(field), seen, byPair)
    {
      assert trials[..i + 1] == trials[..i] + [trials[i]];
      FilterPush(HasPair(field), trials[..i], trials[i]);
      var pairId := field(trials[i]);
      if pairId.Some? {
        GroupPush(PairOf(field), seen, byPair, trials[i]);
        byPair := Pushed(byPair, pairId.value, trials[i]);
        seen := seen + [trials[i]];
      }
    }
    assert trials[..|trials|] == trials;
  }

  predicate Singletons(byPair: map<string, seq<Trial>>) {
    forall k :: k in byPair ==> |byPair[k]| == 1
  }

  /** Two disjoint conditions split a sum. */
  lemma {:induction false} SumFilterSplit<T(!new)>(
    w: T -> int, p: T -> bool, q: T -> bool, r: T -> bool, s: seq<T>)
    requires forall x :: (r(x) <==> p(x) || q(x)) && !(p(x) && q(x))
    ensures Sum(w, Filter(r, s)) == Sum(w, Filter(p, s)) + Sum(w, Filter(q, s))
  {
    if s != [] {
      SumFilterSplit(w, p, q, r, s[1..]);
      assert forall t: seq<T> :: ([s[0]] + t)[1..] == t;
    }
  }

  lemma {:induction false} DistinctKeysFilterOnce<T, K>(key: T -> K, s: seq<T>, k: K)
    requires Distinct(Map(key, s))
    ensures |Filter(With(key, k), s)| <= 1
  {
    if s != [] {
      var ks := Map(key, s);
      assert Map(key, s[1..]) == ks[1..];
      if key(s[0]) == k {
        forall x | x in s[1..] ensures !With(key, k)(x) {
          var i :| 0 <= i < |s[1..]| && s[1..][i] == x;
          assert ks[0] != ks[i + 1];
        }
        FilterNone(With(key, k), s[1..]);
      } else {
        DistinctKeysFilterOnce(key, s[1..], k);
      }
    }
  }

  lemma RepeatedKeyFiltersTwice<T, K>(key: T -> K, s: seq<T>, i: nat, j: nat)
    requires i < j < |s|
    ensures key(s[i]) == key(s[j]) ==> |Filter(With(key, key(s[i])), s)| >= 2
  {
    var keep := With(key, key(s[i]));
    assert s == s[..i + 1] + s[i + 1..];
    FilterSum(keep, s[..i + 1], s[i + 1..]);
    assert s[i] in s[..i + 1];
    assert s[i + 1..][j - i - 1] == s[j];
    FilterMember(keep, s[..i + 1], s[i]);
    FilterMember(keep, s[i + 1..], s[j]);
  }

  lemma SingletonsIff(field: PairField, trials: seq<Trial>, byPair: map<string, seq<Trial>>)
    requires IsGrouping(PairOf(field), Paired(field, trials), byPair)
    ensures byPair.Keys == Elements(PairIds(field, trials))
    ensures byPair == map[] <==> PairIds(field, trials) == []
    ensures Singletons(byPair) <==> Distinct(PairIds(field, trials))
  {
    hide Paired;
    var paired, ids, key := Paired(field, trials), PairIds(field, trials), PairOf(field);
    forall k ensures k in byPair <==> k in ids {
      if k in byPair {
        var t :| t in paired && key(t) == k;
        var i :| 0 <= i < |paired| && paired[i] == t;
        assert ids[i] == k;
      }
      if k in ids {
        var i :| 0 <= i < |ids| && ids[i] == k;
        assert paired[i] in paired;
      }
    }
    if ids != [] {
      assert ids[0] in ids;
    }
    if Distinct(ids) {
      forall k | k in byPair ensures |byPair[k]| == 1 {
        DistinctKeysFilterOnce(key, paired, k);
        var t :| t in paired && key(t) == k;
        FilterMember(With(key, k), paired, t);
      }
    }
    if Singletons(byPair) {
      forall i, j | 0 <= i < j < |ids| ensures ids[i] != ids[j] {
        assert ids[i] in byPair;
        RepeatedKeyFiltersTwice(key, paired, i, j);
      }
    }
  }

  function KeyIn<T, K(==)>(key: T -> K, keys: set<K>): T -> bool {
    (x: T) => key(x) in keys
  }

  /** Adding a key's only element to the keys already counted. */
  lemma CountNext<T(!new), K(!new)>(
    key: T -> K, p: T -> bool, s: seq<T>, m: map<K, seq<T>>, done: set<K>, k: K)
    requires IsGrouping(key, s, m) && k in m && k !in done && |m[k]| == 1
    ensures Count(p, Filter(KeyIn(key, done + {k}), s)) ==
      Count(p, Filter(KeyIn(key, done), s)) + (if p(m[k][0]) then 1 else 0)
  {
    SumFilterSplit(Indicator(p), KeyIn(key, done), With(key, k), KeyIn(key, done + {k}), s);
    assert m[k] == [m[k][0]];
    assert m[k][1..] == [];
  }

  /** Counts the judged and the correct trials of an arm whose pairs are single trials. */
  method JudgeArm(field: PairField, ghost trials: seq<Trial>, byPair: map<string, seq<Trial>>)
    returns (judged: int, correct: int)
    requires IsGrouping(PairOf(field), Paired(field, trials), byPair) && Singletons(byPair)
    ensures judged == Count(Judged(), Paired(field, trials))
    ensures correct == Count(JudgedCorrect(), Paired(field, trials))
  {
    hide IsGrouping, Paired, Count;
    judged, correct := 0, 0;
    var rest := byPair.Keys;
    ghost var done: set<string> := {};
    ghost var paired := Paired(field, trials);
    NothingCounted(field, paired);
    while rest != {}
      invariant rest <= byPair.Keys && done == byPair.Keys - rest
      invariant judged == Count(Judged(), Filter(KeyIn(PairOf(field), done), paired))
      invariant correct == Count(JudgedCorrect(), Filter(KeyIn(PairOf(field), done), paired))
    {
      var k :| k in rest;
      CountNext(PairOf(field), Judged(), paired, byPair, done, k);
      CountNext(PairOf(field), JudgedCorrect(), paired, byPair, done, k);
      var row := byPair[k][0];
      if !row.failed && row.correct.Some? {
        judged := judged + 1;
        if row.correct.value {
          correct := correct + 1;
        }
      }
      done := done + {k};
      rest := rest - {k};
    }
    AllKeysCounted(field, trials, byPair, done);
  }

  lemma NothingCounted(field: PairField, paired: seq<Trial>)
    ensures Count(Judged(), Filter(KeyIn(PairOf(field), {}), paired)) == 0
    ensures Count(JudgedCorrect(), Filter(KeyIn(PairOf(field), {}), paired)) == 0
  {
    FilterNone(KeyIn(PairOf(field), {}), paired);
  }

  lemma AllKeysCounted(field: PairField, trials: seq<Trial>, byPair: map<string, seq<Trial>>, done: set<string>)
    requires IsGrouping(PairOf(field), Paired(field, trials), byPair) && done == byPair.Keys
    ensures Filter(KeyIn(PairOf(field), done), Paired(field, trials)) == Paired(field, trials)
  {
    hide Paired;
    FilterAll(KeyIn(PairOf(field), done), Paired(field, trials));
  }

  /** One entry of the degradation table. */
  method Degrade(field: PairField, clean: seq<Trial>, contaminated: seq<Trial>) returns (r: Rate)
    ensures r == Degradation(field, clean, contaminated)
  {
    hide IsGrouping, Paired, PairIds, Count;
    var cleanByPair := GroupByPair(field, clean);
    var contaminatedByPair := GroupByPair(field, contaminated);
    SingletonsIff(field, clean, cleanByPair);
    SingletonsIff(field, contaminated, contaminatedByPair);
    if cleanByPair == map[] || cleanByPair.Keys != contaminatedByPair.Keys ||
       !Singletons(cleanByPair) || !Singletons(contaminatedByPair) {
      return NotComputed;
    }
    var cleanJudged, cleanCorrect := JudgeArm(field, clean, cleanByPair);
    var contaminatedJudged, contaminatedCorrect := JudgeArm(field, contaminated, contaminatedByPair);
    if cleanJudged == 0 || contaminatedJudged == 0 {
      return NotComputed;
    }
    return Computed(
      cleanCorrect as real / cleanJudged as real - contaminatedCorrect as real / contaminatedJudged as real);
  }

  function ArmTrials(arms: map<string, seq<Trial>>, arm: string): seq<Trial> {
    if arm in arms then arms[arm] else []
  }

  method PairedDegradation(combos: map<Combo, map<string, seq<Trial>>>, field: PairField)
    returns (table: map<Combo, Rate>)
    ensures table.Keys == combos.Keys
    ensures forall c :: c in combos ==>
      table[c] == Degradation(field, ArmTrials(combos[c], "clean"), ArmTrials(combos[c], "contaminated"))
  {
    hide Degradation;
    table := map[];
    var rest := combos.Keys;
    while rest != {}
      invariant rest <= combos.Keys && table.Keys == combos.Keys - rest
      invariant forall c :: c in table ==>
        table[c] == Degradation(field, ArmTrials(combos[c], "clean"), ArmTrials(combos[c], "contaminated"))
    {
      var combo :| combo in rest;
      var r := Degrade(field, ArmTrials(combos[combo], "clean"), ArmTrials(combos[combo], "contaminated"));
      table := table[combo := r];
      rest := rest - {combo};
    }
  }

  // ---- the report ----------------------------------------------------------------------------------

  datatype Group = Group(key: Key, metrics: Metrics, degradation: Rate)

  function Ids(trials: seq<Trial>): set<Id> {
    set t | t in trials :: t.trialId
  }

  function CalledBy(ids: set<Id>): Call -> bool {
    (c: Call) => c.trialId in ids
  }

  /** The trials of one arm of one comparison. */
  function ArmOfCombo(included: seq<Trial>, c: Combo, arm: string): seq<Trial> {
    Filter(With(ArmOf(), arm), Filter(With(ComboOf(), c), included))
  }

  ghost predicate IsGroup(
    included: seq<Trial>, calls: seq<Call>, failures: seq<Failure>, field: PairField, g: Group)
  {
    var own := Filter(With(KeyOf(), g.key), included);
    var c := Combo(g.key.task, g.key.baseline, g.key.backbone);
    AreMetrics(own, Filter(CalledBy(Ids(own)), calls), failures, g.metrics) &&
    g.degradation == Degradation(field, ArmOfCombo(included, c, "clean"), ArmOfCombo(included, c, "contaminated"))
  }

  function GroupKeys(groups: seq<Group>): (r: seq<Key>)
    ensures |r| == |groups|
  {
    seq(|groups|, i requires 0 <= i < |groups| => groups[i].key)
  }

  /** One group for every key of an included trial, in key order. */
  ghost predicate IsReport(
    included: seq<Trial>, calls: seq<Call>, failures: seq<Failure>, field: PairField, groups: seq<Group>)
  {
    Distinct(GroupKeys(groups)) &&
    (forall k :: k in GroupKeys(groups) <==> exists t :: t in included && KeyOf()(t) == k) &&
    forall i :: 0 <= i < |groups| ==> IsGroup(included, calls, failures, field, groups[i])
  }

  lemma CombosOfKey(included: seq<Trial>, combos: map<Combo, map<string, seq<Trial>>>, c: Combo, arm: string)
    requires AreCombos(included, combos) && c in combos
    ensures ArmTrials(combos[c], arm) == ArmOfCombo(included, c, arm)
  {
    var own := Filter(With(ComboOf(), c), included);
    if arm !in combos[c] {
      FilterNone(With(ArmOf(), arm), own);
    }
  }

  /** The degradation table read at the combination of a group. */
  ghost predicate IsTable(included: seq<Trial>, field: PairField, table: map<Combo, Rate>) {
    forall t :: t in included ==>
      ComboOf()(t) in table &&
      table[ComboOf()(t)] ==
      Degradation(
        field, ArmOfCombo(included, ComboOf()(t), "clean"), ArmOfCombo(included, ComboOf()(t), "contaminated"))
  }

  lemma {:induction false} TableOfCombos(
    included: seq<Trial>, combos: map<Combo, map<string, seq<Trial>>>, field: PairField, table: map<Combo, Rate>)
    requires AreCombos(included, combos) && table.Keys == combos.Keys
    requires forall c :: c in combos ==>
      table[c] == Degradation(field, ArmTrials(combos[c], "clean"), ArmTrials(combos[c], "contaminated"))
    ensures IsTable(included, field, table)
  {
    hide Degradation, ArmOfCombo, ArmTrials, IsGrouping;
    forall t | t in included
      ensures ComboOf()(t) in combos
      ensures ArmTrials(combos[ComboOf()(t)], "clean") == ArmOfCombo(included, ComboOf()(t), "clean")
      ensures ArmTrials(combos[ComboOf()(t)], "contaminated") == ArmOfCombo(included, ComboOf()(t), "contaminated")
    {
      CombosOfKey(included, combos, ComboOf()(t), "clean");
      CombosOfKey(included, combos, ComboOf()(t), "contaminated");
    }
  }

  method AggregateGroup(
    ghost included: seq<Trial>, grouped: map<Key, seq<Trial>>, table: map<Combo, Rate>, calls: seq<Call>,
    failures: seq<Failure>, ghost field: PairField, key: Key)
    returns (g: Group)
    requires IsGrouping(KeyOf(), included, grouped) && IsTable(included, field, table) && key in grouped
    ensures g.key == key && IsGroup(included, calls, failures, field, g)
  {
    hide AreMetrics, Degradation, ArmOfCombo;
    ghost var t :| t in included && KeyOf()(t) == key;
    var combo := Combo(key.task, key.baseline, key.backbone);
    assert ComboOf()(t) == combo;
    var metrics := MetricGroup(grouped[key], Filter(CalledBy(Ids(grouped[key])), calls), failures);
    g := Group(key, metrics, table[combo]);
  }

  lemma AssembleReport(
    included: seq<Trial>, calls: seq<Call>, failures: seq<Failure>, field: PairField,
    grouped: map<Key, seq<Trial>>, groups: seq<Group>)
    requires IsGrouping(KeyOf(), included, grouped)
    requires Distinct(GroupKeys(groups)) && Elements(GroupKeys(groups)) == grouped.Keys
    requires forall i :: 0 <= i < |groups| ==> IsGroup(included, calls, failures, field, groups[i])
    ensures IsReport(included, calls, failures, field, groups)
  {
    hide IsGroup;
    forall k ensures k in GroupKeys(groups) <==> exists t :: t in included && KeyOf()(t) == k {
      assert k in GroupKeys(groups) <==> k in Elements(GroupKeys(groups));
      assert k in grouped.Keys <==> k in grouped;
    }
  }

  method AggregateRun(
    trials: seq<Trial>, calls: seq<Call>, failures: seq<Failure>, field: PairField, le: Order<Key>)
    returns (groups: seq<Group>)
    requires TotalOrder(le)
    ensures IsReport(Filter(Included(), trials), calls, failures, field, groups)
    ensures SortedBy(le, GroupKeys(groups))
  {
    hide IsGroup, TotalOrder, IsTable, AreCombos, Degradation, IsGrouping, IsReport, SortedBy, Distinct;
    ghost var included := Filter(Included(), trials);
    var grouped, combos := GroupTrials(trials);
    var table := PairedDegradation(combos, field);
    TableOfCombos(included, combos, field, table);
    var keys := SortedTuple(le, grouped.Keys);
    groups := [];
    for i := 0 to |keys|
      invariant GroupKeys(groups) == keys[..i]
      invariant forall j :: 0 <= j < i ==> IsGroup(included, calls, failures, field, groups[j])
    {
      assert keys[i] in Elements(keys);
      var g := AggregateGroup(included, grouped, table, calls, failures, field, keys[i]);
      groups := groups + [g];
    }
    assert keys[..|keys|] == keys;
    AssembleReport(included, calls, failures, field, grouped, groups);
  }
}
