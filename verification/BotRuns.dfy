/** What BoT trials and runs guarantee about the stored buffer. */
module BotRuns {
  import opened Common
  import opened Bot

  /** The id of the one entry that the search found for the problem. */
  ghost predicate Shown(env: Env, entries: seq<Template>, problem: string, id: Id) {
    entries != [] &&
    exists k :: env.nearest(problem, entries) == Some(k) && k < |entries| && entries[k].entryId == id
  }

  /** The thought template names each shown entry at most once, and no other. */
  ghost predicate UsesShown(env: Env, entries: seq<Template>, problem: string, usedIds: seq<Id>) {
    (forall i, j :: 0 <= i < j < |usedIds| ==> usedIds[i] != usedIds[j]) &&
    forall id :: id in usedIds ==> Shown(env, entries, problem, id)
  }

  lemma UsedIdsValidIff(env: Env, entries: seq<Template>, problem: string, usedIds: seq<Id>)
    ensures UsedIdsValid(usedIds, VisibleIds(Matched(env, problem, entries))) <==>
      UsesShown(env, entries, problem, usedIds)
  {
    var visible := VisibleIds(Matched(env, problem, entries));
    forall id ensures id in visible <==> Shown(env, entries, problem, id) {}
    if UsedIdsValid(usedIds, visible) {
      forall id | id in usedIds ensures id in visible {
        var i :| 0 <= i < |usedIds| && usedIds[i] == id;
      }
    }
  }

  /** A trial that gets as far as its verifier with a novel template, and would find room for it. */
  ghost predicate ReachesWrite(env: Env, st: State, t: Trial) {
    && t.hasProvider && t.updateEnabled && t.distilled.Problem? && t.solved.Answer? && t.thought.Payload?
    && UsesShown(env, st.entries, t.distilled.text, t.thought.usedIds)
    && env.novel(t.thought.description, st.entries)
    && (st.activeCapacity.Some? ==> |st.entries| < st.activeCapacity.value)
  }

  function NewEntry(env: Env, st: State, t: Trial): Template
    requires t.thought.Payload?
  {
    Normalize(Freeze(env, st.entries, t.trialId, t.thought).candidate, st.entries)
  }

  /** The store grows exactly when a novel, valid template meets free capacity and a verifier that answers. */
  lemma StoresExactly(env: Env, st: State, t: Trial)
    ensures Step(env, st, t).state ==
      if ReachesWrite(env, st, t) && t.verdict.Judged? then st.(entries := st.entries + [NewEntry(env, st, t)]) else st
    ensures Step(env, st, t).event == Stored <==> ReachesWrite(env, st, t) && t.verdict.Judged?
  {
    hide UsesShown, UsedIdsValid;
    if t.thought.Payload? && t.distilled.Problem? {
      UsedIdsValidIff(env, st.entries, t.distilled.text, t.thought.usedIds);
    }
    if t.thought.Payload? && t.verdict.Judged? {
      var frozen := Freeze(env, st.entries, t.trialId, t.thought);
      assert Normalize(frozen.candidate.(sourceOutcome := Some(t.verdict.correct)), st.entries) ==
        Normalize(frozen.candidate, st.entries);
    }
  }

  lemma {:induction false} ResolveKnown(ids: seq<Id>, entries: seq<Template>)
    requires forall i :: 0 <= i < |ids| ==> ids[i] in Ids(entries)
    ensures ResolveExplicitParents(ids, entries) == ids
  {
    if ids != [] {
      ResolveKnown(ids[1..], entries);
      assert ids == [ids[0]] + ids[1..];
    }
  }

  /** Only the matched entry was shown, and it comes from the buffer. */
  lemma UsedIdsAreStored(env: Env, entries: seq<Template>, problem: string, usedIds: seq<Id>)
    requires UsedIdsValid(usedIds, VisibleIds(Matched(env, problem, entries)))
    ensures forall i :: 0 <= i < |usedIds| ==> usedIds[i] in Ids(entries)
  {
    var matched := Matched(env, problem, entries);
    if matched.Some? {
      var k :| 0 <= k < |entries| && entries[k] == matched.value;
      assert Ids(entries)[k] == matched.value.entryId;
    }
  }

  /** What is stored is the distilled template under the hash of what it says. It names as parents and sources exactly
      the ids the model declared, all of them stored already; it is contaminated exactly when one of them is; it is
      never approximate and carries no verdict. The outcome reports the verdict and the stored buffer. */
  lemma StoredEntryIsExact(env: Env, st: State, t: Trial)
    requires Step(env, st, t).event == Stored
    ensures
      var r, p := Step(env, st, t), t.thought;
      && p.Payload? && |r.state.entries| == |st.entries| + 1 && st.entries <= r.state.entries
      && (var e := r.state.entries[|st.entries|];
          && e.entryId == env.hash(t.trialId, p.description, p.template)
          && e.content == p.template && e.description == p.description && e.sourceTrialId == t.trialId
          && (e.taint == M.Contaminated <==>
              exists x :: x in st.entries && x.entryId in p.usedIds && x.taint == M.Contaminated)
          && e.sourceOutcome == None && e.directParentIds == e.sourceEntryIds == p.usedIds
          && (forall i :: 0 <= i < |e.directParentIds| ==> e.directParentIds[i] in Ids(st.entries))
          && e.lineage == (if e.directParentIds == [] then Unavailable else Exact))
      && t.verdict.Judged? && r.outcome == Succeeded(t.verdict.correct, r.state.entries, Some(true))
  {
    hide UsesShown, UsedIdsValid, Step, NewEntry;
    StoresExactly(env, st, t);
    UsedIdsValidIff(env, st.entries, t.distilled.text, t.thought.usedIds);
    UsedIdsAreStored(env, st.entries, t.distilled.text, t.thought.usedIds);
    ResolveKnown(t.thought.usedIds, st.entries);
    NewEntryIs(env, st, t);
    StoredOutcome(env, st, t);
  }

  /** The fields of a new entry whose declared parents are all stored. */
  lemma NewEntryIs(env: Env, st: State, t: Trial)
    requires t.thought.Payload? && ResolveExplicitParents(t.thought.usedIds, st.entries) == t.thought.usedIds
    ensures
      var e, p := NewEntry(env, st, t), t.thought;
      && e.entryId == env.hash(t.trialId, p.description, p.template)
      && e.content == p.template && e.description == p.description && e.sourceTrialId == t.trialId
      && (e.taint == M.Contaminated <==>
          exists x :: x in st.entries && x.entryId in p.usedIds && x.taint == M.Contaminated)
      && e.sourceOutcome == None && e.directParentIds == e.sourceEntryIds == p.usedIds
      && e.lineage == (if e.directParentIds == [] then Unavailable else Exact)
  {
    hide ResolveExplicitParents;
    var entries := st.entries;
    if i :| 0 <= i < |entries| && entries[i].entryId in t.thought.usedIds && entries[i].taint == M.Contaminated {
      assert entries[i] in entries;
    }
  }

  lemma StoredOutcome(env: Env, st: State, t: Trial)
    requires Step(env, st, t).event == Stored
    ensures t.verdict.Judged? && Step(env, st, t).outcome.Succeeded?
    ensures Step(env, st, t).outcome == Succeeded(t.verdict.correct, Step(env, st, t).state.entries, Some(true))
  {
    hide UsedIdsValid, Normalize, Matched;
    var frozen := Freeze(env, st.entries, t.trialId, t.thought);
    var after := Materialize(frozen, Some(t.verdict.correct));
    assert after[..|after| - 1] == st.entries;
  }

  lemma ParentCheckNeverFires(env: Env, st: State, t: Trial)
    ensures Step(env, st, t).outcome != Raised(VisibilityOnlyParent)
    ensures Step(env, st, t).lineage != Approximate
  {
    hide UsesShown;
    if t.thought.Payload? && t.distilled.Problem? {
      if UsedIdsValid(t.thought.usedIds, VisibleIds(Matched(env, t.distilled.text, st.entries))) {
        UsedIdsAreStored(env, st.entries, t.distilled.text, t.thought.usedIds);
        ResolveKnown(t.thought.usedIds, st.entries);
      }
    }
  }

  // ---- outcomes ------------------------------------------------------------------------------------

  /** What each outcome of a trial says about its replies, and what it reports as memory. */
  lemma OutcomeHasCause(env: Env, st: State, t: Trial)
    ensures
      var r := Step(env, st, t);
      var solved := t.hasProvider && t.distilled.Problem? && t.solved.Answer?;
      var updating := solved && t.updateEnabled;
      match r.outcome
      case Raised(EmbeddingProviderRequired) => !t.hasProvider
      case Raised(ThoughtCallRaised) => updating && t.thought.ThoughtCallFailed?
      case Raised(NoveltyDecisionMissing) => solved && !t.updateEnabled && t.verdict.Judged?
      case Raised(VisibilityOnlyParent) => false
      case Failed(ProviderCallFailed, memory) =>
        memory == st.entries && t.hasProvider &&
        (t.distilled.DistillCallFailed? || (t.distilled.Problem? && t.solved.SolveCallFailed?))
      case Failed(InvalidProblemDistillation, memory) =>
        memory == st.entries && t.hasProvider && t.distilled.DistillMalformed?
      case Failed(InvalidSolveResult, memory) =>
        memory == st.entries && t.hasProvider && t.distilled.Problem? && t.solved.SolveInvalid?
      case Failed(InvalidThoughtDistillation, memory) =>
        memory == st.entries && updating && !t.thought.ThoughtCallFailed? &&
        !(t.thought.Payload? && UsesShown(env, st.entries, t.distilled.text, t.thought.usedIds))
      case Failed(VerifierContractFailed, memory) =>
        solved && t.verdict.VerifierRaised? &&
        (if updating && t.thought.Payload? && env.novel(t.thought.description, st.entries)
         then st.entries < memory && |memory| == |st.entries| + 1 && memory[|st.entries|].sourceOutcome == None
         else memory == st.entries)
      case Succeeded(correct, memory, admitted) =>
        updating && t.verdict == Judged(correct) && memory == r.state.entries && t.thought.Payload? &&
        admitted == Some(env.novel(t.thought.description, st.entries))
  {
    hide UsesShown, UsedIdsValid, Normalize;
    ParentCheckNeverFires(env, st, t);
    if t.thought.Payload? && t.distilled.Problem? {
      UsedIdsValidIff(env, st.entries, t.distilled.text, t.thought.usedIds);
    }
    if Step(env, st, t).event == Stored {
      StoredEntryIsExact(env, st, t);
    }
  }

  /** Why a successful trial stored nothing: its template was not novel, or the buffer was full. */
  lemma EventHasCause(env: Env, st: State, t: Trial)
    ensures
      var r := Step(env, st, t);
      match r.event
      case NoWrite => !r.outcome.Succeeded?
      case RejectedNovelty => r.outcome.Succeeded? && !env.novel(t.thought.description, st.entries)
      case RejectedCapacity =>
        r.outcome.Succeeded? && env.novel(t.thought.description, st.entries) && st.activeCapacity.Some? &&
        |st.entries| >= st.activeCapacity.value
      case Stored => r.outcome.Succeeded? && |r.state.entries| == |st.entries| + 1
  {
    OutcomeHasCause(env, st, t);
  }

  // ---- the verifier --------------------------------------------------------------------------------

  function Run(env: Env, st: State, trials: seq<Trial>): State
    decreases |trials|
  {
    if trials == [] then st else Run(env, Step(env, st, trials[0]).state, trials[1..])
  }

  ghost predicate SameButAnswer(a: seq<Trial>, b: seq<Trial>) {
    |a| == |b| && forall i :: 0 <= i < |a| ==>
      a[i].verdict.Judged? && b[i].verdict.Judged? && b[i] == a[i].(verdict := b[i].verdict)
  }

  /** Whatever the verifier answers, the buffer is the same. */
  lemma {:induction false} WritesAreAnswerBlind(env: Env, st: State, a: seq<Trial>, b: seq<Trial>)
    requires SameButAnswer(a, b)
    ensures Run(env, st, a) == Run(env, st, b)
    decreases |a|
  {
    if a != [] {
      StoresExactly(env, st, a[0]);
      StoresExactly(env, st, b[0]);
      forall i | 0 <= i < |a| - 1
        ensures a[1..][i].verdict.Judged? && b[1..][i].verdict.Judged? &&
          b[1..][i] == a[1..][i].(verdict := b[1..][i].verdict)
      {
        assert b[1..][i] == b[i + 1] && a[1..][i] == a[i + 1];
      }
      WritesAreAnswerBlind(env, Step(env, st, a[0]).state, a[1..], b[1..]);
    }
  }

  /** A raising verifier is not neutral: it changes the store exactly when the trial would have written. */
  lemma RaisingVerifierIsNeutralIff(env: Env, st: State, t: Trial, correct: bool)
    ensures Step(env, st, t.(verdict := VerifierRaised)).state == st
    ensures Step(env, st, t.(verdict := VerifierRaised)).state == Step(env, st, t.(verdict := Judged(correct))).state
      <==> !ReachesWrite(env, st, t)
  {
    StoresExactly(env, st, t.(verdict := VerifierRaised));
    StoresExactly(env, st, t.(verdict := Judged(correct)));
    if ReachesWrite(env, st, t) {
      var u := t.(verdict := Judged(correct));
      assert |Step(env, st, u).state.entries| == |st.entries| + 1;
    }
  }

  /** A verifier that raises leaves the same store as one that answers. */
  ghost predicate Neutral(env: Env, st: State, t: Trial) {
    forall correct ::
      Step(env, st, t.(verdict := VerifierRaised)).state == Step(env, st, t.(verdict := Judged(correct))).state
  }

  /** A trial with a novel template that uses no entry. */
  function WritingTrial(hasProvider: bool, updateEnabled: bool): Trial {
    Trial(
      "t", hasProvider, updateEnabled, Problem("p"), Answer("a"), Payload("d", "template", []), VerifierRaised)
  }

  function EverythingIsNovel(): Env {
    Env(
      (s: string, b: seq<Template>) => None,
      (s: string, b: seq<Template>) => true,
      (i: Id, d: string, c: string) => "id")
  }

  /** With a provider, updates and free capacity, the raising verifier suppresses the write of that trial. */
  lemma RaisingVerifierSuppressesWrite(st: State)
    requires st.activeCapacity.Some? ==> |st.entries| < st.activeCapacity.value
    ensures !Neutral(EverythingIsNovel(), st, WritingTrial(true, true))
  {
    hide Step;
    var env, t := EverythingIsNovel(), WritingTrial(true, true);
    assert ReachesWrite(env, st, t);
    RaisingVerifierIsNeutralIff(env, st, t, true);
  }

  /** The raising verifier is neutral for all replies exactly when no write is possible from the start: there is no
      embedding provider, updates are off, or the buffer is full. */
  lemma {:induction false} AlwaysNeutralIff(st: State, hasProvider: bool, updateEnabled: bool)
    ensures
      (forall env, t: Trial :: t.hasProvider == hasProvider && t.updateEnabled == updateEnabled ==> Neutral(env, st, t))
      <==> (
        !hasProvider || !updateEnabled || (st.activeCapacity.Some? && |st.entries| >= st.activeCapacity.value))
  {
    hide Step;
    if !hasProvider || !updateEnabled || (st.activeCapacity.Some? && |st.entries| >= st.activeCapacity.value) {
      forall env, t: Trial | t.hasProvider == hasProvider && t.updateEnabled == updateEnabled
        ensures Neutral(env, st, t)
      {
        forall correct { RaisingVerifierIsNeutralIff(env, st, t, correct); }
      }
    } else {
      RaisingVerifierSuppressesWrite(st);
      var t := WritingTrial(true, true);
      assert t.hasProvider == hasProvider && t.updateEnabled == updateEnabled;
    }
  }

  // ---- the store -----------------------------------------------------------------------------------

  ghost predicate ParentsEarlier(log: seq<Template>, start: nat) {
    forall i, k :: start <= i < |log| && 0 <= k < |log[i].directParentIds| ==>
      log[i].directParentIds[k] in Ids(log[..i])
  }

  /** Over any run the buffer only grows, stays within its capacity, and every written entry's parents were
      stored before it, with no verdict recorded. */
  lemma {:induction false} RunKeepsBuffer(env: Env, st: State, trials: seq<Trial>, start: nat)
    requires start <= |st.entries| && ParentsEarlier(st.entries, start)
    requires forall i :: start <= i < |st.entries| ==> st.entries[i].sourceOutcome == None
    ensures var r := Run(env, st, trials);
      && st.entries <= r.entries && ParentsEarlier(r.entries, start)
      && (forall i :: start <= i < |r.entries| ==> r.entries[i].sourceOutcome == None)
      && (st.activeCapacity.Some? && |st.entries| <= st.activeCapacity.value ==>
          |r.entries| <= st.activeCapacity.value)
    decreases |trials|
  {
    hide Step, ParentsEarlier;
    if trials != [] {
      StepKeepsBuffer(env, st, trials[0], start);
      RunKeepsBuffer(env, Step(env, st, trials[0]).state, trials[1..], start);
    }
  }

  lemma StepKeepsBuffer(env: Env, st: State, t: Trial, start: nat)
    requires start <= |st.entries| && ParentsEarlier(st.entries, start)
    requires forall i :: start <= i < |st.entries| ==> st.entries[i].sourceOutcome == None
    ensures
      var next := Step(env, st, t).state;
      && next.activeCapacity == st.activeCapacity && st.entries <= next.entries && ParentsEarlier(next.entries, start)
      && (forall i :: start <= i < |next.entries| ==> next.entries[i].sourceOutcome == None)
      && (st.activeCapacity.Some? && |st.entries| <= st.activeCapacity.value ==>
          |next.entries| <= st.activeCapacity.value)
  {
    hide Step, UsesShown, NewEntry;
    var next := Step(env, st, t).state;
    StoresExactly(env, st, t);
    if next != st {
      StoredEntryIsExact(env, st, t);
      forall i, k | start <= i < |next.entries| && 0 <= k < |next.entries[i].directParentIds|
        ensures next.entries[i].directParentIds[k] in Ids(next.entries[..i])
      {
        if i < |st.entries| {
          assert next.entries[..i] == st.entries[..i];
        } else {
          assert next.entries[..i] == st.entries;
        }
      }
    }
  }
}
