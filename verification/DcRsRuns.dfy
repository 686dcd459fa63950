/** Atomicity, lineage and verifier-blindness of DC-RS trials and runs. */
module DcRsRuns {
  import opened Common
  import opened Text
  import opened AliasCodec
  import opened DcRs
  import L = Lineage

  // ---- one trial -----------------------------------------------------------------------------------

  ghost predicate SourcesKnown(st: State, t: Trial, c: Candidate) {
    && c.status == Accepted && c.lineage == (if c.sourceIds == [] then Unavailable else Exact)
    && Distinct(c.sourceIds) && c.retrieved == t.retrieved
    && forall i :: 0 <= i < |c.sourceIds| ==> c.sourceIds[i] in t.retrieved && c.sourceIds[i] in Ids(st.archive)
  }

  lemma CuratedSourcesAreRetrieved(
    json: Decoder, output: string, fallback: string, retrieved: seq<Id>, table: AliasTable)
    requires FromSourceIds(retrieved) == Ok(table)
    ensures
      var r := Curate(json, output, fallback, retrieved, [], table);
      r.Ok? && r.value.status == Accepted ==> (
        r.value.retrieved == retrieved && Distinct(r.value.sourceIds) &&
        r.value.lineage == (if r.value.sourceIds == [] then Unavailable else LineageStatus.Exact) &&
        forall i :: 0 <= i < |r.value.sourceIds| ==> r.value.sourceIds[i] in retrieved)
  {
    hide FromSourceIds, WholeCheatsheet, ExplicitSourceIds, Resolve;
    var aliases := ExplicitSourceIds(json, output);
    if aliases.Ok? && Resolve(table, aliases.value).Ok? {
      ResolvedIdsAreSources(retrieved, aliases.value);
    }
  }

  /** An accepted candidate names only retrieved entries, so its lineage is exact or unavailable, never approximate. */
  lemma {:induction false} CoreLineageIsNeverApproximate(env: Env, st: State, t: Trial)
    ensures Synthesise(env, st, t) != Err(ExplicitParentNotActive)
    ensures Synthesise(env, st, t).Ok? ==> SourcesKnown(st, t, Synthesise(env, st, t).value)
  {
    hide Curate, FromSourceIds;
    if FromSourceIds(t.retrieved).Ok? && t.curator.Text? {
      CuratedSourcesAreRetrieved(
        env.json, t.curator.content, PriorContent(st), t.retrieved, FromSourceIds(t.retrieved).value);
    }
  }

  /** The curator's reply is one whole cheatsheet with some text, and its source ids resolve among the retrieved. */
  ghost predicate Curated(json: Decoder, reply: string, retrieved: seq<Id>, parents: seq<Id>) {
    && WholeCheatsheet(reply).Some? && !Blank(WholeCheatsheet(reply).value)
    && FromSourceIds(retrieved).Ok? && ExplicitSourceIds(json, reply).Ok?
    && Resolve(FromSourceIds(retrieved).value, ExplicitSourceIds(json, reply).value) == Ok(parents)
  }

  lemma CurateIff(json: Decoder, reply: string, fallback: string, retrieved: seq<Id>, c: Candidate)
    requires FromSourceIds(retrieved).Ok?
    ensures
      Curate(json, reply, fallback, retrieved, [], FromSourceIds(retrieved).value) == Ok(c) && c.status == Accepted <==>
      Curated(json, reply, retrieved, c.sourceIds) &&
      c == Candidate(reply, Accepted, c.sourceIds, retrieved, if c.sourceIds == [] then Unavailable else Exact)
  {
    hide WholeCheatsheet, ExplicitSourceIds, Resolve, Strip, FromSourceIds;
    if WholeCheatsheet(reply).Some? {
      StripNonBlank(WholeCheatsheet(reply).value);
    }
    if ExplicitSourceIds(json, reply).Ok? {
      var aliases := ExplicitSourceIds(json, reply).value;
      if Resolve(FromSourceIds(retrieved).value, aliases).Ok? {
        ResolvedIdsAreSources(retrieved, aliases);
        SourcesAreNamed(retrieved);
      }
    }
  }

  lemma SourcesAreNamed(retrieved: seq<Id>)
    ensures FromSourceIds(retrieved).Ok? ==> "" !in retrieved
  {
  }

  /** Which trials write: the context and the state are fine, every retrieved entry is stored, the curator's reply is
      accepted and fits both its budgets, and the generator answers within its own. The strategy keeps the reply, the
      pair the task, the answer and the strategy as its parent. */
  lemma {:induction false} PreparedIff(env: Env, st: State, t: Trial, w: Writes)
    ensures Prepare(env, st, t) == Ok(w) <==>
      && t.valid && t.hasProvider && t.toolModeValid
      && (st.allowUnparented || forall s :: s in st.strategies ==> s.parents != [])
      && (forall id :: id in t.retrieved ==> exists e :: e in st.archive && e.entryId == id)
      && t.curator.Text? && env.count(t.curator.content) <= 8192 && !env.json(t.curator.content).ToolAction?
      && Curated(env.json, t.curator.content, t.retrieved, w.strategy.parents)
      && t.cheatsheetBudget.Some? && env.count(t.curator.content) <= t.cheatsheetBudget.value
      && t.cheatsheetBudget.value > 0
      && t.generator.Text? && env.count(t.generator.content) <= 8192
      && w.strategy == Strategy("dc_rs_strategy:" + t.trialId, w.strategy.parents, t.curator.content)
      && w.pair == Pair(
        "dc_rs_pair:" + t.trialId, ["dc_rs_strategy:" + t.trialId], t.task, t.generator.content,
        env.parse(t.generator.content))
  {
    hide Curate, Curated, FromSourceIds;
    StateChecksMean(st, t);
    CoreLineageIsNeverApproximate(env, st, t);
    if FromSourceIds(t.retrieved).Ok? && t.curator.Text? {
      var table := FromSourceIds(t.retrieved).value;
      var r := Curate(env.json, t.curator.content, PriorContent(st), t.retrieved, [], table);
      if r.Ok? {
        CurateIff(env.json, t.curator.content, PriorContent(st), t.retrieved, r.value);
        CuratedSourcesAreRetrieved(env.json, t.curator.content, PriorContent(st), t.retrieved, table);
      }
      CurateIff(
        env.json, t.curator.content, PriorContent(st), t.retrieved,
        Candidate(
          t.curator.content, Accepted, w.strategy.parents, t.retrieved,
          if w.strategy.parents == [] then Unavailable else LineageStatus.Exact));
    }
    if t.curator.Text? {
      CuratedNeedsTable(env.json, t.curator.content, t.retrieved, w.strategy.parents);
    }
  }

  lemma CuratedNeedsTable(json: Decoder, reply: string, retrieved: seq<Id>, parents: seq<Id>)
    ensures Curated(json, reply, retrieved, parents) ==> FromSourceIds(retrieved).Ok?
  {
  }

  lemma StateChecksMean(st: State, t: Trial)
    ensures Readable(st) <==> st.allowUnparented || forall s :: s in st.strategies ==> s.parents != []
    ensures (exists i :: 0 <= i < |t.retrieved| && t.retrieved[i] !in Ids(st.archive)) <==>
      !(forall id :: id in t.retrieved ==> exists e :: e in st.archive && e.entryId == id)
  {
    forall id ensures id in Ids(st.archive) <==> exists e :: e in st.archive && e.entryId == id {
      if id in Ids(st.archive) {
        var k :| 0 <= k < |st.archive| && Ids(st.archive)[k] == id;
        assert st.archive[k] in st.archive;
      }
      if e :| e in st.archive && e.entryId == id {
        var k :| 0 <= k < |st.archive| && st.archive[k] == e;
        assert Ids(st.archive)[k] == id;
      }
    }
    if i :| 0 <= i < |t.retrieved| && t.retrieved[i] !in Ids(st.archive) {
      assert t.retrieved[i] in t.retrieved;
    }
  }

  /** A trial that raises has changed nothing, except in one case that shows before the call returns: the
      strategy it wrote names no source and such strategies are not allowed. */
  lemma AtomicIff(env: Env, st: State, t: Trial)
    ensures var (next, r) := Step(env, st, t);
      r.Err? && next != st <==>
      Prepare(env, st, t).Ok? && Prepare(env, st, t).value.strategy.parents == [] && !st.allowUnparented
    ensures Step(env, st, t).1.Ok? ==> Prepare(env, st, t).Ok?
    ensures Step(env, st, t).0 ==
      match Prepare(env, st, t)
      case Err(_) => st
      case Ok(w) => State(st.archive + [w.pair], st.strategies + [w.strategy], st.allowUnparented)
  {
    if Prepare(env, st, t).Ok? {
      var w := Prepare(env, st, t).value;
      var next := Step(env, st, t).0;
      assert Readable(st);
      assert |next.archive| == |st.archive| + 1;
      assert next.strategies[|st.strategies|] == w.strategy;
      forall i | 0 <= i < |st.strategies| ensures next.strategies[i] == st.strategies[i] {}
    }
  }

  /** The trial is all-or-nothing: when it raises it has changed nothing. */
  ghost predicate Atomic(env: Env, st: State, t: Trial) {
    var (next, r) := Step(env, st, t);
    r.Err? ==> next == st
  }

  const UNPARENTED_REPLY := OPEN + "x" + CLOSE

  /** A trial whose curator names no source. */
  function UnparentedTrial(): Trial {
    Trial("t", "", true, true, [], Text(UNPARENTED_REPLY), Some(1), true, Text(""), NoVerifier)
  }

  function PlainEnv(): Env {
    Env((s: string) => 0, (s: string) => Json.Malformed, (s: string) => None)
  }

  lemma UnparentedIsPrepared(st: State)
    requires Readable(st)
    ensures var p := Prepare(PlainEnv(), st, UnparentedTrial()); p.Ok? && p.value.strategy.parents == []
  {
    hide Curate, Readable;
    assert !IsSpace("x"[0]);
    CurateUntagged(PlainEnv().json, "x", PriorContent(st), [], AliasTable([]));
    assert Bindings([]) == [];
  }

  /** In a readable state that does not allow unparented strategies, the trial raises after it has written both. */
  lemma UnparentedTrialIsNotAtomic(st: State)
    requires Readable(st) && !st.allowUnparented
    ensures Step(PlainEnv(), st, UnparentedTrial()).1 == Err(DirectStrategyInjection)
    ensures !Atomic(PlainEnv(), st, UnparentedTrial())
  {
    hide Prepare, Readable;
    UnparentedIsPrepared(st);
    AtomicIff(PlainEnv(), st, UnparentedTrial());
  }

  /** Every trial from a state is all-or-nothing, whatever the replies, exactly when the state allows unparented
      strategies or cannot be read any more. */
  lemma {:induction false} AllTrialsAtomicIff(st: State)
    ensures (forall env, t :: Atomic(env, st, t)) <==> st.allowUnparented || !Readable(st)
  {
    hide Prepare;
    forall env, t | st.allowUnparented || !Readable(st) ensures Atomic(env, st, t) {
      AtomicIff(env, st, t);
      UnreadableIsNotPrepared(env, st, t);
    }
    if !st.allowUnparented && Readable(st) {
      UnparentedTrialIsNotAtomic(st);
    }
  }

  lemma UnreadableIsNotPrepared(env: Env, st: State, t: Trial)
    ensures !Readable(st) ==> Prepare(env, st, t).Err?
  {
  }

  /** What a trial that returns leaves and reports: the strategy with the curator's reply after all others, the pair
      with task, answer and parsed answer after all others, and the verdict on a parsed answer. */
  lemma {:induction false} StoredTrial(env: Env, st: State, t: Trial)
    requires Step(env, st, t).1.Ok?
    ensures
      var (next, r) := Step(env, st, t);
      && t.curator.Text? && t.generator.Text?
      && (var answer := env.parse(t.generator.content);
          && next.archive == st.archive + [Pair(
            "dc_rs_pair:" + t.trialId, ["dc_rs_strategy:" + t.trialId], t.task, t.generator.content, answer)]
          && r == Ok(
            if answer.None? then InvalidFinalAnswer
            else
              match t.verdict
              case NoVerifier => Succeeded(None)
              case Judged(correct) => Succeeded(Some(correct))
              case VerifierRaised => VerifierContractFailed))
      && exists parents ::
        Curated(env.json, t.curator.content, t.retrieved, parents) &&
        next.strategies == st.strategies + [Strategy("dc_rs_strategy:" + t.trialId, parents, t.curator.content)]
  {
    hide Prepare, Readable, Curated;
    AtomicIff(env, st, t);
    PreparedIff(env, st, t, Prepare(env, st, t).value);
  }

  /** Each way in which a trial stops before it writes has its cause. */
  lemma {:induction false} RefusalHasCause(env: Env, st: State, t: Trial)
    ensures
      match Prepare(env, st, t)
      case Ok(_) => true
      case Err(InvalidTrial) => !t.valid
      case Err(EmbeddingProviderRequired) => !t.hasProvider
      case Err(DirectStrategyInjection) =>
        !st.allowUnparented && exists s :: s in st.strategies && s.parents == []
      case Err(UnknownDocument) =>
        exists id :: id in t.retrieved && forall e :: e in st.archive ==> e.entryId != id
      case Err(InvalidSourceIds) =>
        FromSourceIds(t.retrieved).Err? ||
        (t.curator.Text? &&
         (ExplicitSourceIds(env.json, t.curator.content).Err? ||
          Resolve(FromSourceIds(t.retrieved).value, ExplicitSourceIds(env.json, t.curator.content).value).Err?))
      case Err(CallFailed) => t.curator.Failed? || t.generator.Failed?
      case Err(WriterOutputBudgetExceeded) => t.curator.Text? && env.count(t.curator.content) > 8192
      case Err(CuratorToolForbidden) => t.curator.Text? && env.json(t.curator.content).ToolAction?
      case Err(WriterGrammarInvalid) =>
        t.curator.Text? &&
        (WholeCheatsheet(t.curator.content).None? || Blank(WholeCheatsheet(t.curator.content).value))
      case Err(CheatsheetBudgetRequired) => t.cheatsheetBudget.None? || t.cheatsheetBudget.value <= 0
      case Err(CheatsheetBudgetExceeded) =>
        t.curator.Text? && t.cheatsheetBudget.Some? && env.count(t.curator.content) > t.cheatsheetBudget.value
      case Err(InvalidToolMode) => !t.toolModeValid
      case Err(RawAnswerBudgetExceeded) => t.generator.Text? && env.count(t.generator.content) > 8192
      case Err(ParentUnion) => false
      case Err(ExplicitParentNotActive) => false
  {
    hide Curate, FromSourceIds, ExplicitSourceIds, Resolve, WholeCheatsheet;
    StateChecksMean(st, t);
    CoreLineageIsNeverApproximate(env, st, t);
    FromSourceIdsErrors(t.retrieved);
    if FromSourceIds(t.retrieved).Ok? && t.curator.Text? {
      var table := FromSourceIds(t.retrieved).value;
      CurateOutcomes(env.json, t.curator.content, PriorContent(st), t.retrieved, [], table);
    }
  }

  lemma FromSourceIdsErrors(ids: seq<Id>)
    ensures FromSourceIds(ids).Err? ==> FromSourceIds(ids).error == InvalidExplicitSourceIds
  {
  }

  /** What curating gives: inferred parents and bad source ids are errors; a reply that is no whole cheatsheet, or a
      blank one, keeps the fallback; any other reply is kept itself. */
  lemma CurateOutcomes(
    json: Decoder, reply: string, fallback: string, retrieved: seq<Id>, inferred: seq<Id>, table: AliasTable)
    requires FromSourceIds(retrieved) == Ok(table)
    ensures inferred != [] ==> Curate(json, reply, fallback, retrieved, inferred, table) == Err(ImplicitParentUnion)
    ensures
      var r := Curate(json, reply, fallback, retrieved, [], table);
      && (r.Err? ==>
          r.error == InvalidExplicitSourceIds &&
          (ExplicitSourceIds(json, reply).Err? || Resolve(table, ExplicitSourceIds(json, reply).value).Err?))
      && (r.Ok? ==>
          if WholeCheatsheet(reply).None? then
            r.value.status == PreservedInvalidGrammar && r.value.content == fallback && r.value.sourceIds == []
          else if Blank(WholeCheatsheet(reply).value) then
            r.value.status == PreservedEmpty && r.value.content == fallback
          else r.value.status == Accepted && r.value.content == reply)
  {
    hide WholeCheatsheet, Strip, FromSourceIds;
    SourcesAreNamed(retrieved);
    if WholeCheatsheet(reply).Some? {
      StripNonBlank(WholeCheatsheet(reply).value);
    }
    if ExplicitSourceIds(json, reply).Ok? {
      var aliases := ExplicitSourceIds(json, reply).value;
      if Resolve(table, aliases).Ok? {
        ResolvedIdsAreSources(retrieved, aliases);
      }
    }
  }

  // ---- runs ----------------------------------------------------------------------------------------

  function Run(env: Env, st: State, trials: seq<Trial>): State
    decreases |trials|
  {
    if trials == [] then st else Run(env, Step(env, st, trials[0]).0, trials[1..])
  }

  /** Once an unparented strategy slipped in, the state is stuck: every later trial raises and changes nothing. */
  lemma {:induction false} UnreadableIsStuck(env: Env, st: State, trials: seq<Trial>)
    requires !Readable(st)
    ensures Run(env, st, trials) == st
    ensures forall i :: 0 <= i < |trials| ==> Step(env, st, trials[i]).1.Err?
    decreases |trials|
  {
    if trials != [] {
      UnreadableIsStuck(env, st, trials[1..]);
      forall i | 0 <= i < |trials| ensures Step(env, st, trials[i]).1.Err? {
        if i > 0 {
          assert trials[i] == trials[1..][i - 1];
        }
      }
    }
  }

  ghost predicate SameButVerdict(a: seq<Trial>, b: seq<Trial>) {
    |a| == |b| && forall i :: 0 <= i < |a| ==> b[i] == a[i].(verdict := b[i].verdict)
  }

  lemma StepIgnoresVerdict(env: Env, st: State, t: Trial, v: Verdict)
    ensures Step(env, st, t.(verdict := v)).0 == Step(env, st, t).0
  {
    hide Curate, Readable, FromSourceIds;
    assert Synthesise(env, st, t.(verdict := v)) == Synthesise(env, st, t);
  }

  /** The verifier, even a raising one, never reaches the stores. */
  lemma {:induction false} WritesAreVerifierBlind(env: Env, st: State, a: seq<Trial>, b: seq<Trial>)
    requires SameButVerdict(a, b)
    ensures Run(env, st, a) == Run(env, st, b)
    decreases |a|
  {
    hide Step;
    if a != [] {
      StepIgnoresVerdict(env, st, a[0], b[0].verdict);
      forall i | 0 <= i < |a| - 1 ensures b[1..][i] == a[1..][i].(verdict := b[1..][i].verdict) {
        assert b[1..][i] == b[i + 1] && a[1..][i] == a[i + 1];
      }
      WritesAreVerifierBlind(env, Step(env, st, a[0]).0, a[1..], b[1..]);
    }
  }

  // ---- lineage -------------------------------------------------------------------------------------

  ghost function ParentSet(log: seq<Entry>, x: Id): set<Id> {
    set i, p | 0 <= i < |log| && log[i].entryId == x && p in log[i].parents :: p
  }

  lemma ParentSetAppend(log: seq<Entry>, e: Entry, x: Id)
    ensures ParentSet(log + [e], x) == ParentSet(log, x) + if e.entryId == x then Elements(e.parents) else {}
  {
    var more := log + [e];
    forall p ensures p in ParentSet(more, x) <==>
      p in ParentSet(log, x) + if e.entryId == x then Elements(e.parents) else {}
    {
      if p in ParentSet(log, x) {
        var i :| 0 <= i < |log| && log[i].entryId == x && p in log[i].parents;
        assert more[i] == log[i];
      }
      if e.entryId == x && p in Elements(e.parents) {
        assert more[|log|] == e;
      }
      if p in ParentSet(more, x) {
        var i :| 0 <= i < |more| && more[i].entryId == x && p in more[i].parents;
        assert i < |log| ==> log[i] == more[i];
      }
    }
  }

  ghost function AllIds(st: State): set<Id> {
    Elements(Ids(st.archive)) + Elements(Ids(st.strategies))
  }

  ghost function Graph(st: State): L.Graph {
    map x | x in AllIds(st) :: ParentSet(st.archive, x) + ParentSet(st.strategies, x)
  }

  lemma GraphParents(st: State, x: Id)
    ensures L.Parents(Graph(st), x) == ParentSet(st.archive, x) + ParentSet(st.strategies, x)
  {
    if x !in AllIds(st) {
      forall i | 0 <= i < |st.archive| ensures st.archive[i].entryId != x {
        assert Ids(st.archive)[i] in Elements(Ids(st.archive));
      }
      forall i | 0 <= i < |st.strategies| ensures st.strategies[i].entryId != x {
        assert Ids(st.strategies)[i] in Elements(Ids(st.strategies));
      }
    }
  }

  lemma IdsAppend(log: seq<Entry>, e: Entry)
    ensures Elements(Ids(log + [e])) == Elements(Ids(log)) + {e.entryId}
  {
    assert Ids(log + [e]) == Ids(log) + [e.entryId];
    ElementsOfSum(Ids(log), [e.entryId]);
  }

  /** The order lists every stored id once, parents first: lineage is acyclic and every parent resolves. */
  ghost predicate Ordered(st: State, order: seq<Id>) {
    L.Topological(Graph(st), order) && Elements(order) == AllIds(st)
  }

  ghost predicate FreshTrial(st: State, t: Trial) {
    StrategyId(t.trialId) !in AllIds(st) && PairId(t.trialId) !in AllIds(st)
  }

  lemma OwnIdsDiffer(t: Trial, u: Trial)
    ensures StrategyId(t.trialId) != PairId(u.trialId)
  {
    assert StrategyId(t.trialId)[6] == 's' && PairId(u.trialId)[6] == 'p';
  }

  /** The archive entry is appended before its parent, yet the order stays topological: strategy, then pair. */
  lemma {:induction false} StepKeepsOrder(env: Env, st: State, t: Trial, order: seq<Id>)
    requires Ordered(st, order) && FreshTrial(st, t)
    ensures var next := Step(env, st, t).0;
      Ordered(next, if next == st then order else order + [StrategyId(t.trialId)] + [PairId(t.trialId)])
  {
    if Prepare(env, st, t).Ok? {
      var w := Prepare(env, st, t).value;
      var next := Step(env, st, t).0;
      assert |next.archive| == |st.archive| + 1;
      CoreLineageIsNeverApproximate(env, st, t);
      OwnIdsDiffer(t, t);
      forall p | p in Elements(w.strategy.parents) ensures p in AllIds(st) {
        assert p in Ids(st.archive);
      }
      AppendBoth(st, next, order, w.strategy, w.pair);
    }
  }

  lemma AppendBoth(st: State, next: State, order: seq<Id>, s: Entry, p: Entry)
    requires Ordered(st, order) && s.entryId !in AllIds(st) && p.entryId !in AllIds(st) && s.entryId != p.entryId
    requires next == State(st.archive + [p], st.strategies + [s], st.allowUnparented)
    requires Elements(s.parents) <= AllIds(st) && p.parents == [s.entryId]
    ensures Ordered(next, order + [s.entryId] + [p.entryId])
  {
    var g, h := Graph(st), Graph(next);
    forall x ensures L.Parents(h, x) == L.Parents(g, x) +
      (if x == s.entryId then Elements(s.parents) else {}) + (if x == p.entryId then {s.entryId} else {})
    {
      GraphParents(st, x);
      GraphParents(next, x);
      ParentSetAppend(st.archive, p, x);
      ParentSetAppend(st.strategies, s, x);
      assert Elements(p.parents) == {s.entryId};
    }
    IdsAppend(st.archive, p);
    IdsAppend(st.strategies, s);
    assert forall x :: x in order ==> x in Elements(order);
    assert L.Topological(h, order);
    L.FinishTopological(h, order, s.entryId);
    L.FinishTopological(h, order + [s.entryId], p.entryId);
  }

  ghost predicate FreshTrials(ids: set<Id>, trials: seq<Trial>) {
    (forall i :: 0 <= i < |trials| ==> StrategyId(trials[i].trialId) !in ids && PairId(trials[i].trialId) !in ids) &&
    forall i, j :: 0 <= i < j < |trials| ==> trials[i].trialId != trials[j].trialId
  }

  lemma OwnIdsInjective(a: Id, b: Id)
    requires a != b
    ensures StrategyId(a) != StrategyId(b) && PairId(a) != PairId(b)
  {
    assert StrategyId(a)[15..] == a && StrategyId(b)[15..] == b;
    assert PairId(a)[11..] == a && PairId(b)[11..] == b;
  }

  lemma {:induction false} FreshAfterStep(env: Env, st: State, trials: seq<Trial>)
    requires trials != [] && FreshTrials(AllIds(st), trials)
    ensures FreshTrials(AllIds(Step(env, st, trials[0]).0), trials[1..])
  {
    var next, rest := Step(env, st, trials[0]).0, trials[1..];
    if Prepare(env, st, trials[0]).Ok? {
      IdsAppend(st.archive, Prepare(env, st, trials[0]).value.pair);
      IdsAppend(st.strategies, Prepare(env, st, trials[0]).value.strategy);
    }
    forall i | 0 <= i < |rest|
      ensures StrategyId(rest[i].trialId) !in AllIds(next) && PairId(rest[i].trialId) !in AllIds(next)
    {
      assert rest[i] == trials[i + 1];
      OwnIdsInjective(trials[0].trialId, rest[i].trialId);
      OwnIdsDiffer(trials[0], rest[i]);
      OwnIdsDiffer(rest[i], trials[0]);
    }
  }

  /** Over any run with distinct trial ids: lineage is acyclic and every parent id is stored. */
  lemma {:induction false} RunKeepsLineage(env: Env, st: State, trials: seq<Trial>, order: seq<Id>)
    returns (final: seq<Id>)
    requires Ordered(st, order) && FreshTrials(AllIds(st), trials)
    ensures Ordered(Run(env, st, trials), final) && order <= final
    ensures !L.Cyclic(Graph(Run(env, st, trials)))
    ensures forall x, p :: p in L.Parents(Graph(Run(env, st, trials)), x) ==> p in AllIds(Run(env, st, trials))
    decreases |trials|
  {
    if trials == [] {
      final := order;
      assert forall x :: x in AllIds(st) ==> x in Elements(order) && x in order;
      L.TopologicalIsAcyclic(Graph(st), order);
      forall x, p | p in L.Parents(Graph(st), x) ensures p in AllIds(st) {
        var k :| 0 <= k < |order| && order[k] == x;
        assert p in order[..k];
        assert p in Elements(order);
      }
    } else {
      var next := Step(env, st, trials[0]).0;
      StepKeepsOrder(env, st, trials[0], order);
      FreshAfterStep(env, st, trials);
      var longer :=
        if next == st then order else order + [StrategyId(trials[0].trialId)] + [PairId(trials[0].trialId)];
      final := RunKeepsLineage(env, next, trials[1..], longer);
    }
  }

  // ---- order keys ----------------------------------------------------------------------------------

  function StrategyOrderKey(orderKey: int): int {
    orderKey * 1000 + 2
  }

  function ArchiveOrderKey(orderKey: int): int {
    orderKey * 1000 + 1
  }

  /** Keys never collide and follow the append order: archive, strategy, then the next trial's. The trial's key can be
      read back from both. */
  lemma OrderKeysFollowAppends(a: int, b: int)
    requires a < b
    ensures ArchiveOrderKey(a) / 1000 == StrategyOrderKey(a) / 1000 == a
    ensures ArchiveOrderKey(a) % 1000 == 1 && StrategyOrderKey(a) % 1000 == 2
    ensures ArchiveOrderKey(a) < StrategyOrderKey(a) < ArchiveOrderKey(b) < StrategyOrderKey(b)
  {
    assert a * 1000 + 1000 <= b * 1000;
  }

  /** The keys of everything a run appends, in append order; `orderKeys` are those of its trials. */
  function AppendedKeys(env: Env, st: State, trials: seq<Trial>, orderKeys: seq<int>): seq<int>
    requires |orderKeys| == |trials|
    decreases |trials|
  {
    if trials == [] then []
    else
      var own :=
        if Prepare(env, st, trials[0]).Ok? then [ArchiveOrderKey(orderKeys[0]), StrategyOrderKey(orderKeys[0])] else [];
      own + AppendedKeys(env, Step(env, st, trials[0]).0, trials[1..], orderKeys[1..])
  }

  predicate Increasing(s: seq<int>) {
    forall i, j :: 0 <= i < j < |s| ==> s[i] < s[j]
  }

  /** Along a run with increasing trial keys, there is one key for every appended entry, and the keys increase in
      append order. */
  lemma {:induction false} RunKeysIncrease(env: Env, st: State, trials: seq<Trial>, orderKeys: seq<int>)
    requires |orderKeys| == |trials| && Increasing(orderKeys)
    ensures var keys, final := AppendedKeys(env, st, trials, orderKeys), Run(env, st, trials);
      Increasing(keys) && |st.archive| + |st.strategies| + |keys| == |final.archive| + |final.strategies|
    ensures forall k :: k in AppendedKeys(env, st, trials, orderKeys) ==> ArchiveOrderKey(orderKeys[0]) <= k
    decreases |trials|
  {
    hide Prepare, Readable;
    if trials != [] {
      var next := Step(env, st, trials[0]).0;
      var rest := AppendedKeys(env, next, trials[1..], orderKeys[1..]);
      assert forall i :: 0 <= i < |orderKeys[1..]| ==> orderKeys[1..][i] == orderKeys[i + 1];
      RunKeysIncrease(env, next, trials[1..], orderKeys[1..]);
      if rest != [] {
        OrderKeysFollowAppends(orderKeys[0], orderKeys[1]);
      }
      assert forall i :: 0 <= i < |rest| ==> rest[i] in rest;
    }
  }
}
