/** What the numbers of a report count, said in terms of the logged trials and calls alone. */
module GroupingCounts {
  import opened Common
  import opened Grouping
  import opened GroupingRuns

  lemma {:induction false} SumSame<T(!new)>(u: T -> int, v: T -> int, s: seq<T>)
    requires forall x :: u(x) == v(x)
    ensures Sum(u, s) == Sum(v, s)
  {
    if s != [] {
      SumSame(u, v, s[1..]);
    }
  }

  /** A count under one name of a condition is the number of positions under another one. */
  lemma CountIs<T(!new)>(p: T -> bool, q: T -> bool, s: seq<T>)
    requires forall x :: p(x) <==> q(x)
    ensures Count(p, s) == |Positions(q, s)|
  {
    CountIsCardinality(p, s);
    assert Positions(p, s) == Positions(q, s);
  }

  lemma CountInFiltered<T(!new)>(p: T -> bool, q: T -> bool, both: T -> bool, s: seq<T>)
    requires forall x :: both(x) <==> p(x) && q(x)
    ensures Count(p, Filter(q, s)) == |Positions(both, s)|
  {
    CountWithin(p, q, both, s);
    CountIsCardinality(both, s);
  }

  // ---- the metrics of a group ----------------------------------------------------------------------

  /** Every count of a group is the number of its trials with the property, every total the sum over its trials. */
  lemma CountsAreCardinalities(trials: seq<Trial>, calls: seq<Call>, failures: seq<Failure>, m: Metrics)
    requires AreMetrics(trials, calls, failures, m)
    ensures m.trials == |trials|
    ensures m.failed == |Positions((t: Trial) => t.failed, trials)|
    ensures m.evaluable == |Positions((t: Trial) => !t.failed, trials)|
    ensures m.successes == |Positions((t: Trial) => !t.failed && t.correct == Some(true), trials)|
    ensures m.contaminated == |Positions((t: Trial) => t.key.arm != "clean", trials)|
    ensures m.exposures == |Positions((t: Trial) => t.exposed, trials)|
    ensures m.drops == Sum((t: Trial) => t.dropped, trials) && m.tokens == Sum((t: Trial) => t.tokens, trials)
  {
    hide IsHistogram, AreCallMetrics, Count, CountKnown, RateOf, Sum, Positions;
    CountIs(Failed(), (t: Trial) => t.failed, trials);
    CountIs(Succeeded(), (t: Trial) => !t.failed, trials);
    CountIs(VerifiedSuccess(), (t: Trial) => !t.failed && t.correct == Some(true), trials);
    CountIs(NotClean(), (t: Trial) => t.key.arm != "clean", trials);
    CountIs(Exposed(), (t: Trial) => t.exposed, trials);
    SumSame(Dropped(), (t: Trial) => t.dropped, trials);
    SumSame(Tokens(), (t: Trial) => t.tokens, trials);
  }

  /** The counts that are reported only when some trial can be judged, and what they are a share of. */
  lemma JudgedCountsAreCardinalities(trials: seq<Trial>, calls: seq<Call>, failures: seq<Failure>, m: Metrics)
    requires AreMetrics(trials, calls, failures, m)
    ensures
      var known := |Positions(
        (t: Trial) => t.uptakeLabel == Some("uptake_detected") || t.uptakeLabel == Some("no_uptake_detected"), trials)|;
      var uptakes := |Positions((t: Trial) => t.uptakeLabel == Some("uptake_detected"), trials)|;
      m.uptakes == (if known == 0 then None else Some(uptakes)) && m.uptakeRate == RateOf(uptakes, known)
    ensures
      var known := |Positions(
        (t: Trial) => t.repeatedLabel == Some("first_failure") || t.repeatedLabel == Some("repeated_failure"), trials)|;
      var repeats := |Positions((t: Trial) => t.repeatedLabel == Some("repeated_failure"), trials)|;
      m.repeats == (if known == 0 then None else Some(repeats)) && m.repeatRate == RateOf(repeats, known)
    ensures
      var descendants := |Positions((t: Trial) => t.descendantLink, trials)|;
      m.descendants == if descendants == 0 then None else Some(descendants)
  {
    hide IsHistogram, AreCallMetrics, Count, RateOf, Sum, Positions;
    CountIs(
      UptakeKnown(),
      (t: Trial) => t.uptakeLabel == Some("uptake_detected") || t.uptakeLabel == Some("no_uptake_detected"), trials);
    CountIs(Uptaken(), (t: Trial) => t.uptakeLabel == Some("uptake_detected"), trials);
    CountIs(
      RepeatKnown(),
      (t: Trial) => t.repeatedLabel == Some("first_failure") || t.repeatedLabel == Some("repeated_failure"), trials);
    CountIs(Repeated(), (t: Trial) => t.repeatedLabel == Some("repeated_failure"), trials);
    CountIs(Descends(), (t: Trial) => t.descendantLink, trials);
  }

  lemma RateTimes(n: int, d: int)
    ensures RateOf(n, d).Computed? <==> d != 0
    ensures d != 0 ==> RateOf(n, d).value * d as real == n as real
  {
  }

  /** A computed rate times what it is a share of is the reported count. */
  lemma RatesAreShares(trials: seq<Trial>, calls: seq<Call>, failures: seq<Failure>, m: Metrics)
    requires AreMetrics(trials, calls, failures, m)
    ensures m.successRate.Computed? ==> m.successRate.value * m.evaluable as real == m.successes as real
    ensures m.contaminatedRate.Computed? ==> m.contaminatedRate.value * m.trials as real == m.contaminated as real
    ensures m.exposureRate.Computed? ==> m.exposureRate.value * m.trials as real == m.exposures as real
  {
    hide IsHistogram, AreCallMetrics, Count, CountKnown, Sum, RateOf;
    RateTimes(m.successes, m.evaluable);
    RateTimes(m.contaminated, m.trials);
    RateTimes(m.exposures, m.trials);
  }

  /** The origin of a failed trial is that of its last logged failure, or runner when there is none. */
  lemma {:induction false} OriginIsLast(failures: seq<Failure>, id: Id, k: nat)
    requires k <= |failures| && forall j :: k <= j < |failures| ==> failures[j].trialId != id
    ensures k == 0 ==> OriginOf(failures, id) == "runner"
    ensures k > 0 && failures[k - 1].trialId == id ==> OriginOf(failures, id) == failures[k - 1].origin
    decreases |failures|
  {
    if k < |failures| {
      OriginIsLast(failures[..|failures| - 1], id, k);
    }
  }

  /** Each failed trial is counted under its origin, and no others are. */
  lemma OriginsAreCardinalities(
    trials: seq<Trial>, calls: seq<Call>, failures: seq<Failure>, m: Metrics, origin: string)
    requires AreMetrics(trials, calls, failures, m)
    ensures (if origin in m.origins then m.origins[origin] else 0) ==
      |Positions((t: Trial) => t.failed && OriginOf(failures, t.trialId) == origin, trials)|
  {
    hide AreCallMetrics, Count, CountKnown, RateOf, Sum, Positions, OriginOf;
    var failed, with := Filter(Failed(), trials), With(Origin(failures), origin);
    LookupIsCount(Origin(failures), failed, m.origins, origin);
    CountIsLength(with, failed);
    CountInFiltered(with, Failed(), (t: Trial) => t.failed && OriginOf(failures, t.trialId) == origin, trials);
  }

  // ---- calls ---------------------------------------------------------------------------------------

  /** The call metrics are the numbers and sums over the calls; a call without a latency counts as zero. */
  lemma CallMetricsAreSums(calls: seq<Call>, m: CallMetrics)
    requires AreCallMetrics(calls, m)
    ensures m == NoCalls <==> calls == []
    ensures calls != [] ==>
      && m.calls == |calls| && m.errors == |Positions((c: Call) => c.errorType.Some?, calls)|
      && m.promptTokens == Sum((c: Call) => c.promptTokens, calls)
      && m.completionTokens == Sum((c: Call) => c.completionTokens, calls)
      && m.totalTokens == Sum((c: Call) => c.totalTokens, calls)
      && m.latency == Sum((c: Call) => if c.latency.Some? then c.latency.value else 0, calls)
      && forall s :: (if s in m.stages then m.stages[s] else 0) == |Positions((c: Call) => c.stage == s, calls)|
  {
    hide Sum, Count, Positions, IsHistogram;
    if calls != [] {
      CountIs(HasError(), (c: Call) => c.errorType.Some?, calls);
      SumSame(PromptTokens(), (c: Call) => c.promptTokens, calls);
      SumSame(CompletionTokens(), (c: Call) => c.completionTokens, calls);
      SumSame(TotalTokens(), (c: Call) => c.totalTokens, calls);
      SumSame(Latency(), (c: Call) => if c.latency.Some? then c.latency.value else 0, calls);
      forall s ensures (if s in m.stages then m.stages[s] else 0) == |Positions((c: Call) => c.stage == s, calls)| {
        StageIsCounted(calls, m.stages, s);
      }
    }
  }

  lemma StageIsCounted(calls: seq<Call>, stages: map<string, nat>, s: string)
    requires IsHistogram(StageOf(), calls, stages)
    ensures (if s in stages then stages[s] else 0) == |Positions((c: Call) => c.stage == s, calls)|
  {
    hide Positions, Count;
    LookupIsCount(StageOf(), calls, stages, s);
    CountIsLength(With(StageOf(), s), calls);
    CountIs(With(StageOf(), s), (c: Call) => c.stage == s, calls);
  }

  // ---- the report ----------------------------------------------------------------------------------

  /** The report covers exactly the trials that are not excluded and not part of the warm-up. */
  lemma ReportCoversTrials(
    trials: seq<Trial>, calls: seq<Call>, failures: seq<Failure>, field: PairField, groups: seq<Group>)
    requires IsReport(Filter(Included(), trials), calls, failures, field, groups)
    ensures Sum(Reported(Trials), groups) ==
      |Positions((t: Trial) => !t.excludeFromAggregate && t.phase != Some("warmup"), trials)|
  {
    hide IsReport, Positions, Count;
    TrialsConserve(Filter(Included(), trials), calls, failures, field, groups);
    CountIsLength(Included(), trials);
    CountIs(Included(), (t: Trial) => !t.excludeFromAggregate && t.phase != Some("warmup"), trials);
  }

  lemma {:induction false} FilterTwice<T>(p: T -> bool, q: T -> bool, both: T -> bool, s: seq<T>)
    requires forall x :: x in s ==> (both(x) <==> p(x) && q(x))
    ensures Filter(p, Filter(q, s)) == Filter(both, s)
  {
    if s != [] {
      FilterTwice(p, q, both, s[1..]);
      assert forall t: seq<T> :: ([s[0]] + t)[1..] == t;
    }
  }

  /** A group shows the degradation from the clean trials with its key to the contaminated ones. */
  lemma GroupDegradation(
    included: seq<Trial>, calls: seq<Call>, failures: seq<Failure>, field: PairField, groups: seq<Group>, i: nat)
    requires IsReport(included, calls, failures, field, groups) && i < |groups|
    ensures groups[i].degradation == Degradation(
      field,
      Filter((t: Trial) => t.key == groups[i].key.(arm := "clean"), included),
      Filter((t: Trial) => t.key == groups[i].key.(arm := "contaminated"), included))
  {
    hide AreMetrics, Degradation;
    var k := groups[i].key;
    var c := Combo(k.task, k.baseline, k.backbone);
    FilterTwice(
      With(ArmOf(), "clean"), With(ComboOf(), c), (t: Trial) => t.key == groups[i].key.(arm := "clean"), included);
    FilterTwice(
      With(ArmOf(), "contaminated"), With(ComboOf(), c),
      (t: Trial) => t.key == groups[i].key.(arm := "contaminated"), included);
  }

  // ---- degradation ---------------------------------------------------------------------------------

  /** No two trials show the same pair id. */
  ghost predicate PairsOnce(field: PairField, trials: seq<Trial>) {
    forall i, j :: 0 <= i < j < |trials| && field(trials[i]).Some? ==> field(trials[i]) != field(trials[j])
  }

  ghost predicate ShowsPair(field: PairField, trials: seq<Trial>, id: string) {
    exists t :: t in trials && field(t) == Some(id)
  }

  lemma {:induction false} PairIdsIff(field: PairField, trials: seq<Trial>, id: string)
    ensures id in PairIds(field, trials) <==> ShowsPair(field, trials, id)
  {
    if trials != [] {
      PairIdsIff(field, trials[1..], id);
      PairIdsStep(field, trials);
      assert forall t :: t in trials <==> t == trials[0] || t in trials[1..];
    }
  }

  lemma PairIdsStep(field: PairField, trials: seq<Trial>)
    requires trials != []
    ensures PairIds(field, trials) ==
      (if field(trials[0]).Some? then [field(trials[0]).value] else []) + PairIds(field, trials[1..])
  {
    if HasPair(field)(trials[0]) {
      var rest := Paired(field, trials[1..]);
      assert ([trials[0]] + rest)[1..] == rest;
    }
  }

  lemma {:induction false} DistinctPairsIff(field: PairField, trials: seq<Trial>)
    ensures Distinct(PairIds(field, trials)) <==> PairsOnce(field, trials)
  {
    hide PairIds;
    if trials == [] {
      assert PairIds(field, []) == [] by { NoPairIds(field); }
    } else {
      var rest := trials[1..];
      DistinctPairsIff(field, rest);
      PairIdsStep(field, trials);
      var own := if field(trials[0]).Some? then [field(trials[0]).value] else [];
      DistinctSum(own, PairIds(field, rest));
      if field(trials[0]).Some? {
        PairIdsIff(field, rest, field(trials[0]).value);
        assert Elements(own) == {field(trials[0]).value};
      }
      PairsOnceStep(field, trials);
    }
  }

  lemma NoPairIds(field: PairField)
    ensures PairIds(field, []) == []
  {
  }

  lemma PairsOnceStep(field: PairField, trials: seq<Trial>)
    requires trials != []
    ensures PairsOnce(field, trials) <==>
      PairsOnce(field, trials[1..]) &&
      (field(trials[0]).Some? ==> !ShowsPair(field, trials[1..], field(trials[0]).value))
  {
    var rest := trials[1..];
    assert forall i :: 0 <= i < |rest| ==> rest[i] == trials[i + 1];
    if PairsOnce(field, rest) && (field(trials[0]).Some? ==> !ShowsPair(field, rest, field(trials[0]).value)) {
      forall i, j | 0 <= i < j < |trials| && field(trials[i]).Some? ensures field(trials[i]) != field(trials[j]) {
        assert rest[j - 1] in rest;
        if i > 0 {
          assert rest[i - 1] == trials[i] && rest[j - 1] == trials[j];
        }
      }
    }
    if PairsOnce(field, trials) {
      forall i, j | 0 <= i < j < |rest| && field(rest[i]).Some? ensures field(rest[i]) != field(rest[j]) {
        assert rest[i] == trials[i + 1] && rest[j] == trials[j + 1];
      }
    }
  }

  /** The two arms show the same pair ids, at least one, and each arm shows none twice. */
  ghost predicate PairedOneToOne(field: PairField, clean: seq<Trial>, contaminated: seq<Trial>) {
    && (exists id :: ShowsPair(field, clean, id))
    && (forall id :: ShowsPair(field, clean, id) <==> ShowsPair(field, contaminated, id))
    && PairsOnce(field, clean) && PairsOnce(field, contaminated)
  }

  lemma ComparableIff(field: PairField, clean: seq<Trial>, contaminated: seq<Trial>)
    ensures Comparable(field, clean, contaminated) <==> PairedOneToOne(field, clean, contaminated)
  {
    hide PairIds, ShowsPair, PairsOnce;
    DistinctPairsIff(field, clean);
    DistinctPairsIff(field, contaminated);
    var a, b := PairIds(field, clean), PairIds(field, contaminated);
    forall id ensures (id in a <==> ShowsPair(field, clean, id)) && (id in b <==> ShowsPair(field, contaminated, id)) {
      PairIdsIff(field, clean, id);
      PairIdsIff(field, contaminated, id);
    }
    assert Elements(a) == Elements(b) <==> forall id :: id in a <==> id in b by {
      forall id ensures (id in a <==> id in Elements(a)) && (id in b <==> id in Elements(b)) {}
    }
    if a != [] {
      assert a[0] in a;
    }
  }

  lemma Shares(a: int, b: int, c: int, d: int, r: real)
    requires b != 0 && d != 0 && r == a as real / b as real - c as real / d as real
    ensures r * b as real * d as real == (a * d - c * b) as real
  {
    var x, y := a as real / b as real, c as real / d as real;
    assert x * b as real == a as real && y * d as real == c as real;
    assert r * b as real * d as real == x * b as real * d as real - y * d as real * b as real;
  }

  /** Degradation is the success share of the clean arm minus that of the contaminated arm, over the paired trials that
      have a verdict; it is computed exactly when the arms pair one to one and each has such a trial. */
  lemma DegradationMeans(field: PairField, clean: seq<Trial>, contaminated: seq<Trial>)
    ensures
      var r := Degradation(field, clean, contaminated);
      var judged := (t: Trial) => field(t).Some? && !t.failed && t.correct.Some?;
      var correct := (t: Trial) => field(t).Some? && !t.failed && t.correct == Some(true);
      var judgedClean, correctClean := |Positions(judged, clean)|, |Positions(correct, clean)|;
      var judgedBad, correctBad := |Positions(judged, contaminated)|, |Positions(correct, contaminated)|;
      && (r.Computed? <==> PairedOneToOne(field, clean, contaminated) && judgedClean != 0 && judgedBad != 0)
      && (r.Computed? ==>
          r.value * judgedClean as real * judgedBad as real ==
          (correctClean * judgedBad - correctBad * judgedClean) as real)
  {
    hide Comparable, PairedOneToOne, Positions, Count;
    var judged := (t: Trial) => field(t).Some? && !t.failed && t.correct.Some?;
    var correct := (t: Trial) => field(t).Some? && !t.failed && t.correct == Some(true);
    ComparableIff(field, clean, contaminated);
    CountInFiltered(Judged(), HasPair(field), judged, clean);
    CountInFiltered(Judged(), HasPair(field), judged, contaminated);
    CountInFiltered(JudgedCorrect(), HasPair(field), correct, clean);
    CountInFiltered(JudgedCorrect(), HasPair(field), correct, contaminated);
    var r := Degradation(field, clean, contaminated);
    if r.Computed? {
      Shares(
        |Positions(correct, clean)|, |Positions(judged, clean)|,
        |Positions(correct, contaminated)|, |Positions(judged, contaminated)|, r.value);
    }
  }
}
