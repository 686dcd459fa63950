/**
 The core DC-RS trial without a filter: retrieve, synthesise a strategy, generate with it, then append the
 interaction to the archive and the strategy after it. Everything before the first append only reads.
 */
module DcRs {
  import opened Common
  import opened AliasCodec

  const RAW_ANSWER_CEILING := 8192

  datatype Entry =
    | Pair(entryId: Id, parents: seq<Id>, task: string, output: string, answer: Option<string>)
    | Strategy(entryId: Id, parents: seq<Id>, content: string)

  datatype Code =
    | InvalidTrial | EmbeddingProviderRequired | DirectStrategyInjection | UnknownDocument
    | InvalidSourceIds | ParentUnion | CallFailed | WriterOutputBudgetExceeded | CuratorToolForbidden
    | WriterGrammarInvalid | CheatsheetBudgetRequired | CheatsheetBudgetExceeded | ExplicitParentNotActive
    | InvalidToolMode | RawAnswerBudgetExceeded

  datatype Reply = Failed | Text(content: string)

  datatype Verdict = NoVerifier | Judged(correct: bool) | VerifierRaised

  /** What surrounds the adapter: the tokenizer, the JSON decoder and the answer parser. */
  datatype Env = Env(count: string -> nat, json: Decoder, parse: string -> Option<string>)

  /** `retrieved` is what the dense index returns; `valid` stands for the leakage checks on the context. */
  datatype Trial = Trial(
    trialId: Id, task: string, valid: bool, hasProvider: bool, retrieved: seq<Id>, curator: Reply,
    cheatsheetBudget: Option<int>, toolModeValid: bool, generator: Reply, verdict: Verdict)

  datatype State = State(archive: seq<Entry>, strategies: seq<Entry>, allowUnparented: bool)

  datatype Outcome = Succeeded(correct: Option<bool>) | InvalidFinalAnswer | VerifierContractFailed

  function Ids(log: seq<Entry>): seq<Id> {
    seq(|log|, i requires 0 <= i < |log| => log[i].entryId)
  }

  function StrategyId(trialId: Id): Id {
    "dc_rs_strategy:" + trialId
  }

  function PairId(trialId: Id): Id {
    "dc_rs_pair:" + trialId
  }

  /** Reading the strategies raises when one has no parent and that is not allowed. */
  predicate Readable(st: State) {
    st.allowUnparented || forall i :: 0 <= i < |st.strategies| ==> st.strategies[i].parents != []
  }

  function PriorContent(st: State): string {
    if st.strategies == [] then ""
    else
      var last := st.strategies[|st.strategies| - 1];
      if last.Strategy? then last.content else ""
  }

  function CodeOf(e: AliasCodec.Error): Code {
    match e
    case InvalidExplicitSourceIds => InvalidSourceIds
    case ImplicitParentUnion => ParentUnion
  }

  /** The curator stage: the accepted candidate, or why the trial stops before anything is written. */
  function Synthesise(env: Env, st: State, t: Trial): Result<Candidate, Code> {
    if !t.valid then Err(InvalidTrial)
    else if !t.hasProvider then Err(EmbeddingProviderRequired)
    else if !Readable(st) then Err(DirectStrategyInjection)
    else if exists i :: 0 <= i < |t.retrieved| && t.retrieved[i] !in Ids(st.archive) then Err(UnknownDocument)
    else
      match FromSourceIds(t.retrieved)
      case Err(e) => Err(CodeOf(e))
      case Ok(table) =>
        if t.curator.Failed? then Err(CallFailed)
        else if env.count(t.curator.content) > RAW_ANSWER_CEILING then Err(WriterOutputBudgetExceeded)
        else if env.json(t.curator.content).ToolAction? then Err(CuratorToolForbidden)
        else
          match Curate(env.json, t.curator.content, PriorContent(st), t.retrieved, [], table)
          case Err(e) => Err(CodeOf(e))
          case Ok(candidate) =>
            if !candidate.status.Accepted? then Err(WriterGrammarInvalid)
            else
              var known := forall i :: 0 <= i < |candidate.sourceIds| ==> candidate.sourceIds[i] in t.retrieved;
              var marked := if known then candidate else candidate.(lineage := Approximate);
              if t.cheatsheetBudget.None? || t.cheatsheetBudget.value <= 0 then Err(CheatsheetBudgetRequired)
              else if env.count(marked.content) > t.cheatsheetBudget.value then Err(CheatsheetBudgetExceeded)
              else if marked.lineage.Approximate? then Err(ExplicitParentNotActive)
              else Ok(marked)
  }

  datatype Writes = Writes(strategy: Entry, pair: Entry)

  /** Everything up to the archive append. */
  function Prepare(env: Env, st: State, t: Trial): Result<Writes, Code> {
    match Synthesise(env, st, t)
    case Err(e) => Err(e)
    case Ok(candidate) =>
      if !t.toolModeValid then Err(InvalidToolMode)
      else if t.generator.Failed? then Err(CallFailed)
      else if env.count(t.generator.content) > RAW_ANSWER_CEILING then Err(RawAnswerBudgetExceeded)
      else
        var strategy := Strategy(StrategyId(t.trialId), candidate.sourceIds, candidate.content);
        Ok(Writes(strategy, Pair(
          PairId(t.trialId), [strategy.entryId], t.task, t.generator.content, env.parse(t.generator.content))))
  }

  function OutcomeOf(t: Trial, answer: Option<string>): Outcome {
    if answer.None? then InvalidFinalAnswer
    else
      match t.verdict
      case NoVerifier => Succeeded(None)
      case Judged(correct) => Succeeded(Some(correct))
      case VerifierRaised => VerifierContractFailed
  }

  /** Building the outcome reads the strategies again, after both appends. */
  function Step(env: Env, st: State, t: Trial): (State, Result<Outcome, Code>) {
    match Prepare(env, st, t)
    case Err(e) => (st, Err(e))
    case Ok(w) =>
      var next := State(st.archive + [w.pair], st.strategies + [w.strategy], st.allowUnparented);
      (next, if Readable(next) then Ok(OutcomeOf(t, w.pair.answer)) else Err(DirectStrategyInjection))
  }

  class DcRsStateV3 {
    var archive: seq<Entry>
    var strategies: seq<Entry>
    const allowUnparented: bool

    constructor (archive: seq<Entry>, strategies: seq<Entry>, allowUnparented: bool)
      ensures Model() == State(archive, strategies, allowUnparented)
    {
      this.archive, this.strategies, this.allowUnparented := archive, strategies, allowUnparented;
    }

    function Model(): State
      reads this
    {
      State(archive, strategies, allowUnparented)
    }

    method Execute(env: Env, t: Trial) returns (r: Result<Outcome, Code>)
      modifies this`archive, this`strategies
      ensures (Model(), r) == Step(env, old(Model()), t)
    {
      var prepared := Prepare(env, Model(), t);
      if prepared.Err? {
        return Err(prepared.error);
      }
      var strategyEntry, archiveEntry := prepared.value.strategy, prepared.value.pair.(answer := None);
      archive := archive + [archiveEntry];
      strategies := strategies + [strategyEntry];
      var outcome := InvalidFinalAnswer;
      var parsedAnswer := env.parse(archiveEntry.output);
      if parsedAnswer.Some? {
        archive := archive[|archive| - 1 := archiveEntry.(answer := parsedAnswer)];
        match t.verdict {
          case NoVerifier => outcome := Succeeded(None);
          case Judged(correct) => outcome := Succeeded(Some(correct));
          case VerifierRaised => outcome := VerifierContractFailed;
        }
      }
      assert archive == old(archive) + [prepared.value.pair];
      if !Readable(Model()) {
        return Err(DirectStrategyInjection);
      }
      return Ok(outcome);
    }
  }
}
