/**
 The Buffer-of-Thoughts baseline without a filter: the staged runtime that freezes its write before it asks the
 verifier, and the phase-12 adapter that decides whether the frozen entry is stored.
 */
module Bot {
  import opened Common
  import M = Memory

  datatype LineageStatus = Exact | Unavailable | Approximate

  /** A thought template and the metadata that the adapter reads and rewrites. */
  datatype Template = Template(
    entryId: Id, content: string, description: string, taint: M.Taint, sourceTrialId: Id,
    explicitIds: seq<Id>, directParentIds: seq<Id>, sourceEntryIds: seq<Id>,
    lineage: LineageStatus, sourceOutcome: Option<bool>)

  /** Embedding search, novelty test and the content hash are functions of what they are given. */
  datatype Env = Env(
    nearest: (string, seq<Template>) -> Option<nat>,
    novel: (string, seq<Template>) -> bool,
    hash: (Id, string, string) -> Id)

  datatype Distilled = DistillCallFailed | DistillMalformed | Problem(text: string)

  datatype Solved = SolveCallFailed | SolveInvalid | Answer(text: string)

  datatype Thought =
    | ThoughtCallFailed | ThoughtMalformed | Payload(description: string, template: string, usedIds: seq<Id>)

  datatype Verdict = Judged(correct: bool) | VerifierRaised

  datatype Trial = Trial(
    trialId: Id, hasProvider: bool, updateEnabled: bool, distilled: Distilled, solved: Solved, thought: Thought,
    verdict: Verdict)

  datatype Disposition =
    | InvalidProblemDistillation | ProviderCallFailed | InvalidSolveResult | InvalidThoughtDistillation
    | VerifierContractFailed

  datatype Code = EmbeddingProviderRequired | ThoughtCallRaised | NoveltyDecisionMissing | VisibilityOnlyParent

  /** The runtime's outcome; the memory in it is what it reports, not what is stored. */
  datatype RunOutcome =
    | Failed(why: Disposition, reported: seq<Template>)
    | Succeeded(correct: bool, memoryAfter: seq<Template>, admitted: Option<bool>)
    | Raised(code: Code)

  // ---- the runtime ---------------------------------------------------------------------------------

  function Ids(log: seq<Template>): seq<Id> {
    seq(|log|, i requires 0 <= i < |log| => log[i].entryId)
  }

  /** The best match at or above the threshold, if any. */
  function Matched(env: Env, problem: string, buffer: seq<Template>): Option<Template> {
    if buffer == [] then None
    else
      match env.nearest(problem, buffer)
      case None => None
      case Some(k) => if k < |buffer| then Some(buffer[k]) else None
  }

  function VisibleIds(matched: Option<Template>): seq<Id> {
    if matched.None? then [] else [matched.value.entryId]
  }

  predicate UsedIdsValid(usedIds: seq<Id>, visible: seq<Id>) {
    Distinct(usedIds) && forall i :: 0 <= i < |usedIds| ==> usedIds[i] in visible
  }

  datatype Frozen = Frozen(candidate: Template, admitted: bool, memoryBefore: seq<Template>)

  /** Decided from the payload and the buffer alone, before the verifier is asked. */
  function Freeze(env: Env, buffer: seq<Template>, trialId: Id, p: Thought): Frozen
    requires p.Payload?
  {
    var tainted := exists i :: 0 <= i < |buffer| && buffer[i].entryId in p.usedIds && buffer[i].taint == M.Contaminated;
    Frozen(
      Template(
        env.hash(trialId, p.description, p.template), p.template, p.description,
        if tainted then M.Contaminated else M.Clean, trialId, p.usedIds, p.usedIds, p.usedIds, Unavailable, None),
      env.novel(p.description, buffer), buffer)
  }

  function Materialize(frozen: Frozen, sourceOutcome: Option<bool>): seq<Template> {
    if frozen.admitted then frozen.memoryBefore + [frozen.candidate.(sourceOutcome := sourceOutcome)]
    else frozen.memoryBefore
  }

  function RunBot(env: Env, buffer: seq<Template>, t: Trial): RunOutcome {
    if !t.hasProvider then Raised(EmbeddingProviderRequired)
    else
      match t.distilled
      case DistillCallFailed => Failed(ProviderCallFailed, buffer)
      case DistillMalformed => Failed(InvalidProblemDistillation, buffer)
      case Problem(problem) =>
        var matched := Matched(env, problem, buffer);
        match t.solved
        case SolveCallFailed => Failed(ProviderCallFailed, buffer)
        case SolveInvalid => Failed(InvalidSolveResult, buffer)
        case Answer(_) =>
          if !t.updateEnabled then
            match t.verdict
            case VerifierRaised => Failed(VerifierContractFailed, buffer)
            case Judged(correct) => Succeeded(correct, buffer, None)
          else
            match t.thought
            case ThoughtCallFailed => Raised(ThoughtCallRaised)
            case ThoughtMalformed => Failed(InvalidThoughtDistillation, buffer)
            case Payload(_, _, usedIds) =>
              if !UsedIdsValid(usedIds, VisibleIds(matched)) then Failed(InvalidThoughtDistillation, buffer)
              else
                var frozen := Freeze(env, buffer, t.trialId, t.thought);
                match t.verdict
                case VerifierRaised => Failed(VerifierContractFailed, Materialize(frozen, None))
                case Judged(correct) =>
                  Succeeded(correct, Materialize(frozen, Some(correct)), Some(frozen.admitted))
  }

  // ---- the adapter ---------------------------------------------------------------------------------

  datatype State = State(entries: seq<Template>, activeCapacity: Option<nat>)

  datatype Event = NoWrite | RejectedNovelty | RejectedCapacity | Stored

  datatype StepResult = StepResult(state: State, outcome: RunOutcome, event: Event, lineage: LineageStatus)

  function ResolveExplicitParents(ids: seq<Id>, entries: seq<Template>): seq<Id> {
    Filter((id: Id) => id in Ids(entries), ids)
  }

  /** The entry as it is stored: parents only when all are known, and the verdict erased. */
  function Normalize(candidate: Template, entries: seq<Template>): Template {
    var parents := ResolveExplicitParents(candidate.explicitIds, entries);
    var lineage :=
      if candidate.explicitIds == [] then Unavailable
      else if parents == candidate.explicitIds then Exact else Approximate;
    var exact := if lineage == Exact then parents else [];
    candidate.(directParentIds := exact, sourceEntryIds := exact, lineage := lineage, sourceOutcome := None)
  }

  predicate AtCapacity(st: State) {
    st.activeCapacity.Some? && |st.entries| >= st.activeCapacity.value
  }

  /** BoTPhase12Adapter.execute as a function of the state. */
  function Step(env: Env, st: State, t: Trial): StepResult {
    var outcome := RunBot(env, st.entries, t);
    match outcome
    case Raised(_) => StepResult(st, outcome, NoWrite, Unavailable)
    case Failed(_, _) => StepResult(st, outcome, NoWrite, Unavailable)
    case Succeeded(_, memoryAfter, admitted) =>
      if admitted.None? then StepResult(st, Raised(NoveltyDecisionMissing), NoWrite, Unavailable)
      else if !admitted.value then StepResult(st, outcome, RejectedNovelty, Unavailable)
      else
        var candidate := memoryAfter[|memoryAfter| - 1];
        if candidate.directParentIds != candidate.explicitIds then
          StepResult(st, Raised(VisibilityOnlyParent), NoWrite, Unavailable)
        else
          var entry := Normalize(candidate, st.entries);
          if AtCapacity(st) then StepResult(st, outcome.(memoryAfter := st.entries), RejectedCapacity, entry.lineage)
          else StepResult(
            st.(entries := st.entries + [entry]),
            outcome.(memoryAfter := memoryAfter[..|memoryAfter| - 1] + [entry]), Stored, entry.lineage)
  }

  class BoTStateV3 {
    var entries: seq<Template>
    const activeCapacity: Option<nat>

    constructor (entries: seq<Template>, activeCapacity: Option<nat>)
      ensures Model() == State(entries, activeCapacity)
    {
      this.entries, this.activeCapacity := entries, activeCapacity;
    }

    function Model(): State
      reads this
    {
      State(entries, activeCapacity)
    }

    method Execute(env: Env, t: Trial) returns (outcome: RunOutcome, event: Event, lineage: LineageStatus)
      modifies this`entries
      ensures StepResult(Model(), outcome, event, lineage) == Step(env, old(Model()), t)
    {
      outcome := RunBot(env, entries, t);
      if !outcome.Succeeded? {
        return outcome, NoWrite, Unavailable;
      }
      if outcome.admitted.None? {
        return Raised(NoveltyDecisionMissing), NoWrite, Unavailable;
      }
      if !outcome.admitted.value {
        return outcome, RejectedNovelty, Unavailable;
      }
      var after := outcome.memoryAfter;
      var candidate := after[|after| - 1];
      if candidate.directParentIds != candidate.explicitIds {
        return Raised(VisibilityOnlyParent), NoWrite, Unavailable;
      }
      var entry := Normalize(candidate, entries);
      if AtCapacity(Model()) {
        return outcome.(memoryAfter := entries), RejectedCapacity, entry.lineage;
      }
      entries := entries + [entry];
      return outcome.(memoryAfter := after[..|after| - 1] + [entry]), Stored, entry.lineage;
    }
  }
}
