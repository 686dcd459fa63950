/**
 The Full History baseline: an append-only store, a token-bounded window that drops the oldest records, the
 phase-12 root latch, and writes that happen before the verifier is asked.
 */
module FullHistory {
  import opened Common
  import opened Memory
  import opened Text

  // ---- prompt budget -------------------------------------------------------------------------------

  datatype BudgetSpec = BudgetSpec(window: int, maxOutput: int, overhead: int, safety: int)

  datatype Error =
    | InvalidSpec | BudgetNotPositive | InvalidHistoryCapacity
    | NonFifoEvictionPolicy | FalseExactLabel | ImmediateRootTruncation

  function EffectiveBudget(spec: BudgetSpec, taskTokens: nat): (r: Result<int, Error>)
    ensures r.Err? <==>
      spec.window <= 0 || spec.maxOutput <= 0 || spec.overhead < 0 || spec.safety < 0 ||
      spec.maxOutput + spec.overhead + spec.safety + taskTokens >= spec.window
    ensures r == Err(InvalidSpec) <==>
      spec.window <= 0 || spec.maxOutput <= 0 || spec.overhead < 0 || spec.safety < 0
    ensures r.Err? ==> r.error in {InvalidSpec, BudgetNotPositive}
    ensures r.Ok? ==> r.value > 0
    ensures r.Ok? ==> spec.maxOutput + spec.overhead + spec.safety + taskTokens + r.value == spec.window
  {
    if spec.window <= 0 || spec.maxOutput <= 0 || spec.overhead < 0 || spec.safety < 0 then Err(InvalidSpec)
    else
      var budget := spec.window - spec.maxOutput - spec.overhead - spec.safety - taskTokens;
      if budget <= 0 then Err(BudgetNotPositive) else Ok(budget)
  }

  // ---- the window ----------------------------------------------------------------------------------

  datatype FhMode = Exact | Bounded

  datatype Config = Config(
    contextBounded: bool, fifoPolicy: bool, spec: BudgetSpec, historyCapacity: Option<int>)

  /** The tokenizer and the answer parser are not part of this model: any functions will do. */
  datatype Env = Env(count: string -> nat, parse: string -> Option<string>)

  datatype Decision = Decision(
    records: seq<MemoryEntry>, preIds: seq<Id>, postIds: seq<Id>, removedIds: seq<Id>,
    preCount: Option<nat>, postCount: Option<nat>)

  function Join(parts: seq<MemoryEntry>): string {
    if parts == [] then ""
    else if |parts| == 1 then parts[0].content
    else parts[0].content + "\n\n" + Join(parts[1..])
  }

  /** The counted message: the history, if any text, in front of the task. */
  function Message(records: seq<MemoryEntry>, task: string): string {
    var history := Join(records);
    (if history == "" then "" else history + "\n\n") + "TASK:\n" + task
  }

  function Content(): MemoryEntry -> string {
    (e: MemoryEntry) => e.content
  }

  lemma {:induction false} JoinIsJoinOn(records: seq<MemoryEntry>)
    ensures Join(records) == JoinOn("\n\n", Map(Content(), records))
  {
    if records != [] {
      JoinIsJoinOn(records[1..]);
      assert Map(Content(), records)[1..] == Map(Content(), records[1..]);
    }
  }

  /** The message is the shown contents and the task, in order, with a blank line between them; a history without any
      text is left out. */
  lemma MessageIsJoined(records: seq<MemoryEntry>, task: string)
    ensures Message(records, task) ==
      if records == [] || (|records| == 1 && records[0].content == "") then "TASK:\n" + task
      else JoinOn("\n\n", Map((e: MemoryEntry) => e.content, records) + ["TASK:\n" + task])
  {
    hide Join, JoinOn, Map;
    EmptyJoin(records);
    ContentsAre(records);
    if Join(records) == "" {
      assert "" + "TASK:\n" + task == "TASK:\n" + task;
    } else {
      JoinIsJoinOn(records);
      JoinAppend("\n\n", Map(Content(), records), "TASK:\n" + task);
      Regroup(Join(records), "\n\n", "TASK:\n", task);
    }
  }

  lemma ContentsAre(records: seq<MemoryEntry>)
    ensures Map((e: MemoryEntry) => e.content, records) == Map(Content(), records)
  {
    hide Map;
  }

  lemma Regroup(a: string, b: string, c: string, d: string)
    ensures (a + b) + c + d == a + b + (c + d)
  {
  }

  lemma EmptyJoin(records: seq<MemoryEntry>)
    ensures Join(records) == "" <==> records == [] || (|records| == 1 && records[0].content == "")
  {
    if |records| > 1 {
      assert |Join(records)| >= |records[0].content + "\n\n"|;
    }
  }

  function Cost(env: Env, records: seq<MemoryEntry>, task: string): nat {
    env.count(Message(records, task))
  }

  /** The token limit for history and task together. */
  function TotalBudget(env: Env, task: string, cfg: Config): (r: Result<int, Error>)
    ensures r.Ok? ==> Cost(env, [], task) < r.value
    ensures r.Ok? ==> r.value <= cfg.spec.window - cfg.spec.maxOutput - cfg.spec.overhead - cfg.spec.safety
  {
    var taskTokens := Cost(env, [], task);
    match EffectiveBudget(cfg.spec, taskTokens)
    case Err(e) => Err(e)
    case Ok(budget) =>
      if cfg.historyCapacity.None? then Ok(taskTokens + budget)
      else if cfg.historyCapacity.value <= 0 then Err(InvalidHistoryCapacity)
      else Ok(taskTokens + if budget <= cfg.historyCapacity.value then budget else cfg.historyCapacity.value)
  }

  /** The window drops the k oldest records for the least k whose message fits. */
  ghost predicate IsWindow(env: Env, records: seq<MemoryEntry>, task: string, total: int, k: nat) {
    && k <= |records|
    && Cost(env, records[k..], task) <= total
    && forall j :: 0 <= j < k ==> Cost(env, records[j..], task) > total
  }

  lemma WindowIsUnique(env: Env, records: seq<MemoryEntry>, task: string, total: int, k: nat, l: nat)
    requires IsWindow(env, records, task, total, k) && IsWindow(env, records, task, total, l)
    ensures k == l
  {
  }

  /** The whole meaning of a decision: it shows a suffix, and in bounded mode the longest one that fits. */
  ghost predicate Decides(env: Env, records: seq<MemoryEntry>, task: string, cfg: Config, d: Decision) {
    && d.preIds == EntryIds(records) && d.postIds == EntryIds(d.records)
    && |d.records| <= |records| && d.records == records[|records| - |d.records|..]
    && d.removedIds == EntryIds(records[..|records| - |d.records|])
    && (!cfg.contextBounded ==> d.records == records && d.preCount.None? && d.postCount.None?)
    && (cfg.contextBounded ==>
        && TotalBudget(env, task, cfg).Ok?
        && IsWindow(env, records, task, TotalBudget(env, task, cfg).value, |records| - |d.records|)
        && d.preCount == Some(Cost(env, records, task)) && d.postCount == Some(Cost(env, d.records, task)))
  }

  method SelectVisibleHistory(env: Env, records: seq<MemoryEntry>, task: string, cfg: Config)
    returns (r: Result<Decision, Error>)
    ensures r.Ok? <==> (cfg.contextBounded ==> TotalBudget(env, task, cfg).Ok?)
    ensures r.Ok? ==> Decides(env, records, task, cfg, r.value)
    ensures r.Err? ==> TotalBudget(env, task, cfg) == Err(r.error)
  {
    hide Message, TotalBudget;
    var visible := records;
    var preIds := EntryIds(records);
    if !cfg.contextBounded {
      assert records[..0] == [];
      return Ok(Decision(records, preIds, preIds, [], None, None));
    }
    var budget := TotalBudget(env, task, cfg);
    if budget.Err? {
      return Err(budget.error);
    }
    var total := budget.value;
    var preCount := env.count(Message(visible, task));
    while visible != [] && env.count(Message(visible, task)) > total
      invariant |visible| <= |records| && visible == records[|records| - |visible|..]
      invariant forall j :: 0 <= j < |records| - |visible| ==> Cost(env, records[j..], task) > total
      decreases |visible|
    {
      visible := visible[1..];
    }
    var postIds := EntryIds(visible);
    EntryIdsSum(records[..|records| - |visible|], visible);
    assert records == records[..|records| - |visible|] + visible;
    return Ok(Decision(
      visible, preIds, postIds, preIds[..|preIds| - |postIds|],
      Some(preCount), Some(env.count(Message(visible, task)))));
  }

  /** The message with these records leaves room in the context window for everything else, and its history part
      stays within the configured history capacity. */
  ghost predicate Fits(env: Env, records: seq<MemoryEntry>, task: string, cfg: Config) {
    var tokens := env.count(Message(records, task));
    && tokens + cfg.spec.maxOutput + cfg.spec.overhead + cfg.spec.safety <= cfg.spec.window
    && (cfg.historyCapacity.Some? ==> tokens <= env.count("TASK:\n" + task) + cfg.historyCapacity.value)
  }

  lemma BudgetIsFit(env: Env, records: seq<MemoryEntry>, task: string, cfg: Config)
    requires TotalBudget(env, task, cfg).Ok?
    ensures Cost(env, records, task) <= TotalBudget(env, task, cfg).value <==> Fits(env, records, task, cfg)
  {
    MessageIsJoined([], task);
  }

  /** A bounded prompt has a budget exactly when the specification is valid, the bare task leaves room for some history,
      and a configured history capacity is positive. */
  lemma BudgetExistsIff(env: Env, task: string, cfg: Config)
    ensures var s, tokens := cfg.spec, env.count("TASK:\n" + task);
      var validSpec := s.window > 0 && s.maxOutput > 0 && s.overhead >= 0 && s.safety >= 0;
      var roomForHistory := s.maxOutput + s.overhead + s.safety + tokens < s.window;
      match TotalBudget(env, task, cfg)
      case Ok(_) => validSpec && roomForHistory && (cfg.historyCapacity.Some? ==> cfg.historyCapacity.value > 0)
      case Err(InvalidSpec) => !validSpec
      case Err(BudgetNotPositive) => validSpec && !roomForHistory
      case Err(InvalidHistoryCapacity) =>
        validSpec && roomForHistory && cfg.historyCapacity.Some? && cfg.historyCapacity.value <= 0
      case Err(_) => false
  {
    MessageIsJoined([], task);
  }

  /** What a decision shows is a suffix of the store that fits, and all longer suffixes do not; removed and shown ids
      are the stored ids in order, and the counts are those of the whole and of the shown history. */
  lemma WindowFitsContext(env: Env, records: seq<MemoryEntry>, task: string, cfg: Config, d: Decision)
    requires Decides(env, records, task, cfg, d)
    ensures d.preIds == EntryIds(records) == d.removedIds + d.postIds && d.postIds == EntryIds(d.records)
    ensures exists older :: records == older + d.records
    ensures !cfg.contextBounded ==> d.records == records
    ensures cfg.contextBounded ==>
      Fits(env, d.records, task, cfg) && forall j :: 0 <= j < |d.removedIds| ==> !Fits(env, records[j..], task, cfg)
    ensures cfg.contextBounded ==>
      d.preCount == Some(env.count(Message(records, task))) && d.postCount == Some(env.count(Message(d.records, task)))
  {
    hide Message, Fits, TotalBudget;
    var k := |records| - |d.records|;
    assert records == records[..k] + records[k..];
    EntryIdsSum(records[..k], records[k..]);
    if cfg.contextBounded {
      BudgetIsFit(env, d.records, task, cfg);
      forall j | 0 <= j < |d.removedIds| ensures !Fits(env, records[j..], task, cfg) {
        BudgetIsFit(env, records[j..], task, cfg);
      }
    }
  }

  lemma DecisionIsUnique(env: Env, records: seq<MemoryEntry>, task: string, cfg: Config, d: Decision, e: Decision)
    requires Decides(env, records, task, cfg, d) && Decides(env, records, task, cfg, e)
    ensures d == e
  {
    if cfg.contextBounded {
      WindowIsUnique(
        env, records, task, TotalBudget(env, task, cfg).value, |records| - |d.records|, |records| - |e.records|);
    }
  }

  /** Why a trial is refused before its model call; exact mode is refused when the whole history does not fit. */
  function AdmissionError(
    env: Env, task: string, records: seq<MemoryEntry>, cfg: Config, mode: FhMode): Option<Error>
  {
    if !cfg.fifoPolicy then Some(NonFifoEvictionPolicy)
    else if !cfg.contextBounded then None
    else
      match TotalBudget(env, task, cfg)
      case Err(e) => Some(e)
      case Ok(total) => if mode == Exact && Cost(env, records, task) > total then Some(FalseExactLabel) else None
  }

  /** A trial is admitted exactly when eviction is first in, first out and, in bounded context, a budget exists and
      exact mode sees the whole history; each refusal has its cause. */
  lemma AdmissionIff(env: Env, task: string, records: seq<MemoryEntry>, cfg: Config, mode: FhMode)
    ensures
      var truncated := mode == Exact && !Fits(env, records, task, cfg);
      match AdmissionError(env, task, records, cfg, mode)
      case None => cfg.fifoPolicy && (cfg.contextBounded ==> TotalBudget(env, task, cfg).Ok? && !truncated)
      case Some(NonFifoEvictionPolicy) => !cfg.fifoPolicy
      case Some(FalseExactLabel) =>
        cfg.fifoPolicy && cfg.contextBounded && TotalBudget(env, task, cfg).Ok? && truncated
      case Some(e) => cfg.fifoPolicy && cfg.contextBounded && TotalBudget(env, task, cfg) == Err(e)
  {
    hide Fits;
    if TotalBudget(env, task, cfg).Ok? {
      BudgetIsFit(env, records, task, cfg);
    }
    BudgetExistsIff(env, task, cfg);
  }

  /** Exact mode is accepted exactly when nothing had to be removed. */
  method VerifyCompleteFit(env: Env, task: string, records: seq<MemoryEntry>, cfg: Config, mode: FhMode)
    returns (r: Result<Decision, Error>)
    ensures r.Ok? ==> Decides(env, records, task, cfg, r.value)
    ensures AdmissionError(env, task, records, cfg, mode) == if r.Ok? then None else Some(r.error)
    ensures r.Ok? && mode == Exact ==> r.value.removedIds == [] && r.value.records == records
  {
    if !cfg.fifoPolicy {
      return Err(NonFifoEvictionPolicy);
    }
    r := SelectVisibleHistory(env, records, task, cfg);
    if r.Err? {
      return;
    }
    assert records[0..] == records;
    if mode == Exact && r.value.removedIds != [] {
      return Err(FalseExactLabel);
    }
  }

  // ---- trials --------------------------------------------------------------------------------------

  datatype Reply = CallFailed | Response(text: string)

  datatype Verdict = Judged(correct: bool) | VerifierRaised

  datatype Trial = Trial(
    trialId: Id, task: string, mode: FhMode, cfg: Config, reply: Reply, verdict: Verdict, entryId: Id)

  datatype Disposition = ProviderCallFailed | InvalidFinalAnswer | VerifierContractFailed

  datatype Outcome = Succeeded(correct: bool) | Failed(why: Disposition)

  datatype State = State(
    records: seq<MemoryEntry>, injectedRootId: Option<Id>, rootWasVisible: bool, firstEviction: Option<Id>)

  function NewRecord(records: seq<MemoryEntry>, shown: seq<MemoryEntry>, t: Trial): MemoryEntry
    requires t.reply.Response?
  {
    MemoryEntry(
      t.entryId,
      "<BEGIN_HISTORY_RECORD id=\"" + t.entryId + "\">\nTASK:\n" + t.task + "\n\nRESPONSE:\n" + t.reply.text +
        "\n<END_HISTORY_RECORD>",
      if UsesContaminated(records, EntryIds(shown)) then Contaminated else Clean,
      Some(t.trialId), None, Some(EntryIds(shown)))
  }

  /** The root must be visible at its first trial; later the first trial without it is remembered. */
  function RootVisibility(st: State, t: Trial, postIds: seq<Id>): Result<State, Error> {
    if st.injectedRootId.None? then Ok(st)
    else
      var visible := st.injectedRootId.value in postIds;
      if !st.rootWasVisible then
        if visible then Ok(st.(rootWasVisible := true)) else Err(ImmediateRootTruncation)
      else if !visible && st.firstEviction.None? then Ok(st.(firstEviction := Some(t.trialId)))
      else Ok(st)
  }

  /** What an admitted trial leaves: the response is stored whatever the parser and the verifier say. */
  function StateAfter(st: State, t: Trial, shown: seq<MemoryEntry>): State {
    if t.reply.CallFailed? then st else st.(records := st.records + [NewRecord(st.records, shown, t)])
  }

  function OutcomeOf(env: Env, t: Trial): Outcome {
    if t.reply.CallFailed? then Failed(ProviderCallFailed)
    else if env.parse(t.reply.text) in {None, Some("")} then Failed(InvalidFinalAnswer)
    else if t.verdict.VerifierRaised? then Failed(VerifierContractFailed)
    else Succeeded(t.verdict.correct)
  }

  /** The specification of one trial as a relation between states. */
  ghost predicate TrialStep(env: Env, st: State, t: Trial, st': State, r: Result<Outcome, Error>) {
    var refused := AdmissionError(env, t.task, st.records, t.cfg, t.mode);
    if refused.Some? then st' == st && r == Err(refused.value)
    else
      exists d :: Decides(env, st.records, t.task, t.cfg, d) && (
        match RootVisibility(st, t, d.postIds)
        case Err(e) => st' == st && r == Err(e)
        case Ok(marked) => st' == StateAfter(marked, t, d.records) && r == Ok(OutcomeOf(env, t)))
  }

  class FullHistoryStateV3 {
    var records: seq<MemoryEntry>
    var injectedRootId: Option<Id>
    var injectedRootWasVisible: bool
    var firstEvictionTrialId: Option<Id>

    constructor (records: seq<MemoryEntry>, injectedRootId: Option<Id>)
      ensures Model() == State(records, injectedRootId, false, None)
    {
      this.records, this.injectedRootId := records, injectedRootId;
      injectedRootWasVisible, firstEvictionTrialId := false, None;
    }

    ghost function Model(): State
      reads this
    {
      State(records, injectedRootId, injectedRootWasVisible, firstEvictionTrialId)
    }

    method RecordRootVisibility(t: Trial, postIds: seq<Id>) returns (error: Option<Error>)
      modifies this`injectedRootWasVisible, this`firstEvictionTrialId
      ensures RootVisibility(old(Model()), t, postIds) == if error.None? then Ok(Model()) else Err(error.value)
      ensures error == if injectedRootId.Some? && !old(injectedRootWasVisible) && injectedRootId.value !in postIds
        then Some(ImmediateRootTruncation) else None
      ensures error.Some? ==> Model() == old(Model())
    {
      if injectedRootId.None? {
        return None;
      }
      var rootVisible := injectedRootId.value in postIds;
      if !injectedRootWasVisible {
        if !rootVisible {
          return Some(ImmediateRootTruncation);
        }
        injectedRootWasVisible := true;
      } else if !rootVisible && firstEvictionTrialId.None? {
        firstEvictionTrialId := Some(t.trialId);
      }
      return None;
    }

    method Execute(env: Env, t: Trial) returns (r: Result<Outcome, Error>)
      modifies this
      ensures TrialStep(env, old(Model()), t, Model(), r)
    {
      var promptRecords := records;
      var fit := VerifyCompleteFit(env, t.task, promptRecords, t.cfg, t.mode);
      if fit.Err? {
        return Err(fit.error);
      }
      var error := RecordRootVisibility(t, fit.value.postIds);
      if error.Some? {
        return Err(error.value);
      }
      var appended, outcome := RunAdapter(env, t, promptRecords);
      if appended.Some? {
        records := records + [appended.value];
      }
      return Ok(outcome);
    }
  }

  /** FullHistoryAdapter.execute on a copy of the records: it renders the window again and appends to the copy. */
  method RunAdapter(env: Env, t: Trial, records: seq<MemoryEntry>)
    returns (appended: Option<MemoryEntry>, outcome: Outcome)
    requires t.cfg.contextBounded ==> TotalBudget(env, t.task, t.cfg).Ok?
    ensures outcome == OutcomeOf(env, t)
    ensures outcome == Failed(ProviderCallFailed) <==> t.reply.CallFailed?
    ensures outcome == Failed(InvalidFinalAnswer) <==>
      t.reply.Response? && (env.parse(t.reply.text).None? || env.parse(t.reply.text).value == "")
    ensures forall correct :: outcome == Succeeded(correct) ==> t.verdict == Judged(correct)
    ensures outcome == Failed(VerifierContractFailed) ==> t.verdict == VerifierRaised
    ensures appended.Some? <==> t.reply.Response?
    ensures appended.Some? ==> forall d :: Decides(env, records, t.task, t.cfg, d) ==>
      appended.value == NewRecord(records, d.records, t)
  {
    var decision := SelectVisibleHistory(env, records, t.task, t.cfg);
    var shown := decision.value.records;
    forall d | Decides(env, records, t.task, t.cfg, d) ensures d == decision.value {
      DecisionIsUnique(env, records, t.task, t.cfg, d, decision.value);
    }
    if t.reply.CallFailed? {
      return None, Failed(ProviderCallFailed);
    }
    appended := Some(NewRecord(records, shown, t));
    var answer := env.parse(t.reply.text);
    if answer.None? || answer.value == "" {
      return appended, Failed(InvalidFinalAnswer);
    }
    match t.verdict {
      case VerifierRaised => return appended, Failed(VerifierContractFailed);
      case Judged(correct) => return appended, Succeeded(correct);
    }
  }
}
