/** What any run of the Full History baseline guarantees. */
module FullHistoryRuns {
  import opened Common
  import opened Memory
  import opened FullHistory

  datatype Run = Run(states: seq<State>, trials: seq<Trial>, results: seq<Result<Outcome, Error>>)

  ghost predicate IsRun(env: Env, run: Run) {
    |run.states| == |run.trials| + 1 && |run.results| == |run.trials| &&
    forall i :: 0 <= i < |run.trials| ==>
      TrialStep(env, run.states[i], run.trials[i], run.states[i + 1], run.results[i])
  }

  /** The specification determines the next state and the result. */
  lemma {:induction false} StepIsDeterministic(
    env: Env, st: State, t: Trial, a: State, ra: Result<Outcome, Error>, b: State, rb: Result<Outcome, Error>)
    requires TrialStep(env, st, t, a, ra) && TrialStep(env, st, t, b, rb)
    ensures a == b && ra == rb
  {
    if AdmissionError(env, t.task, st.records, t.cfg, t.mode).None? {
      forall d, e | Decides(env, st.records, t.task, t.cfg, d) && Decides(env, st.records, t.task, t.cfg, e)
        ensures d == e
      {
        DecisionIsUnique(env, st.records, t.task, t.cfg, d, e);
      }
    }
  }

  // ---- the verifier --------------------------------------------------------------------------------

  ghost predicate SameButVerdict(a: seq<Trial>, b: seq<Trial>) {
    |a| == |b| && forall i :: 0 <= i < |a| ==> b[i] == a[i].(verdict := b[i].verdict)
  }

  lemma {:induction false} VerdictDoesNotReachState(
    env: Env, st: State, t: Trial, v: Verdict, a: State, ra: Result<Outcome, Error>, b: State,
    rb: Result<Outcome, Error>)
    requires TrialStep(env, st, t, a, ra) && TrialStep(env, st, t.(verdict := v), b, rb)
    ensures a == b && (ra.Err? <==> rb.Err?)
  {
    if AdmissionError(env, t.task, st.records, t.cfg, t.mode).None? {
      var u := t.(verdict := v);
      forall d | Decides(env, st.records, t.task, t.cfg, d)
        ensures RootVisibility(st, t, d.postIds) == RootVisibility(st, u, d.postIds)
        ensures forall s :: StateAfter(s, t, d.records) == StateAfter(s, u, d.records)
      {
      }
      forall d, e | Decides(env, st.records, t.task, t.cfg, d) && Decides(env, st.records, t.task, t.cfg, e)
        ensures d == e
      {
        DecisionIsUnique(env, st.records, t.task, t.cfg, d, e);
      }
    }
  }

  /** Two runs with the same replies store the same, whatever their verifiers answer and whether or not they raise. */
  lemma {:induction false} WritesAreVerifierBlind(env: Env, a: Run, b: Run, i: nat)
    requires IsRun(env, a) && IsRun(env, b) && SameButVerdict(a.trials, b.trials)
    requires a.states[0] == b.states[0] && i <= |a.trials|
    ensures a.states[i] == b.states[i]
  {
    hide TrialStep;
    if i > 0 {
      WritesAreVerifierBlind(env, a, b, i - 1);
      assert TrialStep(env, a.states[i - 1], a.trials[i - 1], a.states[(i - 1) + 1], a.results[i - 1]);
      assert TrialStep(env, b.states[i - 1], b.trials[i - 1], b.states[(i - 1) + 1], b.results[i - 1]);
      VerdictDoesNotReachState(
        env, a.states[i - 1], a.trials[i - 1], b.trials[i - 1].verdict,
        a.states[i], a.results[i - 1], b.states[i], b.results[i - 1]);
    }
  }

  // ---- the store -----------------------------------------------------------------------------------

  /** A trial appends nothing or exactly its own record, and never touches the root id. */
  lemma StepAppends(env: Env, st: State, t: Trial, st': State, r: Result<Outcome, Error>)
    requires TrialStep(env, st, t, st', r)
    ensures st'.injectedRootId == st.injectedRootId
    ensures r.Err? || t.reply.CallFailed? ==> st'.records == st.records
    ensures r.Ok? && t.reply.Response? ==>
      exists d :: Decides(env, st.records, t.task, t.cfg, d) &&
        st'.records == st.records + [NewRecord(st.records, d.records, t)]
  {
    hide NewRecord, Decides, AdmissionError;
  }

  /** The record of an answered trial: its own ids and texts, the shown ids as sources, and the label of what was
      shown. */
  lemma StoredRecord(env: Env, st: State, t: Trial, st': State, r: Result<Outcome, Error>)
    requires TrialStep(env, st, t, st', r) && r.Ok? && t.reply.Response?
    ensures
      exists d, e :: Decides(env, st.records, t.task, t.cfg, d) && st'.records == st.records + [e] &&
        e.entryId == t.entryId && e.sourceTrialId == Some(t.trialId) && e.sourceEntryIds == Some(d.postIds) &&
        e.content == "<BEGIN_HISTORY_RECORD id=\"" + t.entryId + "\">\nTASK:\n" + t.task + "\n\nRESPONSE:\n" +
          t.reply.text + "\n<END_HISTORY_RECORD>" &&
        ((exists x :: x in d.records && x.taint == Contaminated) ==> e.taint == Contaminated) &&
        (Distinct(EntryIds(st.records)) && e.taint == Contaminated ==>
          exists x :: x in d.records && x.taint == Contaminated)
  {
    hide TrialStep, Decides;
    StepAppends(env, st, t, st', r);
    var d :| Decides(env, st.records, t.task, t.cfg, d) &&
      st'.records == st.records + [NewRecord(st.records, d.records, t)];
    ShownTaint(env, st, t, d);
  }

  /** Using what was shown: a shown contaminated record is used, and with unique ids nothing else is. */
  lemma ShownTaint(env: Env, st: State, t: Trial, d: Decision)
    requires Decides(env, st.records, t.task, t.cfg, d)
    ensures d.postIds == EntryIds(d.records)
    ensures (exists x :: x in d.records && x.taint == Contaminated) ==> UsesContaminated(st.records, d.postIds)
    ensures Distinct(EntryIds(st.records)) && UsesContaminated(st.records, d.postIds) ==>
      exists x :: x in d.records && x.taint == Contaminated
  {
    var k := |st.records| - |d.records|;
    SuffixTaint(st.records, k);
    if Distinct(EntryIds(st.records)) {
      SuffixTaintOnly(st.records, k);
    }
  }

  lemma SuffixTaint(log: seq<MemoryEntry>, k: nat)
    requires k <= |log|
    ensures (exists x :: x in log[k..] && x.taint == Contaminated) ==> UsesContaminated(log, EntryIds(log[k..]))
  {
    if x :| x in log[k..] && x.taint == Contaminated {
      var i :| 0 <= i < |log[k..]| && log[k..][i] == x;
      assert log[k + i] == x && EntryIds(log[k..])[i] == x.entryId;
    }
  }

  lemma SuffixTaintOnly(log: seq<MemoryEntry>, k: nat)
    requires k <= |log| && Distinct(EntryIds(log))
    ensures UsesContaminated(log, EntryIds(log[k..])) ==> exists x :: x in log[k..] && x.taint == Contaminated
  {
    if UsesContaminated(log, EntryIds(log[k..])) {
      var j :| 0 <= j < |log| && log[j].entryId in EntryIds(log[k..]) && log[j].taint == Contaminated;
      var i :| 0 <= i < |log[k..]| && EntryIds(log[k..])[i] == log[j].entryId;
      assert EntryIds(log)[k + i] == EntryIds(log)[j];
      assert log[k..][i] in log[k..];
    }
  }

  lemma {:induction false} StoreIsAppendOnly(env: Env, run: Run, i: nat, j: nat)
    requires IsRun(env, run) && i <= j <= |run.trials|
    ensures run.states[i].records <= run.states[j].records
    ensures run.states[j].injectedRootId == run.states[i].injectedRootId
    decreases j - i
  {
    hide TrialStep, Decides, NewRecord;
    if i < j {
      StoreIsAppendOnly(env, run, i, j - 1);
      assert TrialStep(env, run.states[j - 1], run.trials[j - 1], run.states[(j - 1) + 1], run.results[j - 1]);
      StepAppends(env, run.states[j - 1], run.trials[j - 1], run.states[j], run.results[j - 1]);
    }
  }

  lemma RootStaysStored(env: Env, run: Run, root: Id, j: nat)
    requires IsRun(env, run) && j <= |run.trials| && root in EntryIds(run.states[0].records)
    ensures root in EntryIds(run.states[j].records)
  {
    StoreIsAppendOnly(env, run, 0, j);
    var k :| 0 <= k < |run.states[0].records| && EntryIds(run.states[0].records)[k] == root;
    assert run.states[j].records[k] == run.states[0].records[k];
    assert EntryIds(run.states[j].records)[k] == root;
  }

  // ---- the eviction latch --------------------------------------------------------------------------

  /** The root is in the window that trial i shows. */
  ghost predicate RootShown(env: Env, run: Run, i: nat)
    requires IsRun(env, run) && i < |run.trials| && run.states[i].injectedRootId.Some?
  {
    forall d :: Decides(env, run.states[i].records, run.trials[i].task, run.trials[i].cfg, d) ==>
      run.states[i].injectedRootId.value in d.postIds
  }

  ghost predicate NoErrors(run: Run) {
    forall i :: 0 <= i < |run.results| ==> run.results[i].Ok?
  }

  lemma LatchStep(env: Env, run: Run, i: nat)
    requires IsRun(env, run) && NoErrors(run) && i < |run.trials| && run.states[i].injectedRootId.Some?
    ensures run.states[i + 1].rootWasVisible
    ensures !run.states[i].rootWasVisible ==> RootShown(env, run, i)
    ensures run.states[i + 1].firstEviction ==
      if run.states[i].firstEviction.None? && !RootShown(env, run, i) then Some(run.trials[i].trialId)
      else run.states[i].firstEviction
  {
    var st, t := run.states[i], run.trials[i];
    assert TrialStep(env, st, t, run.states[i + 1], run.results[i]);
    forall d, e | Decides(env, st.records, t.task, t.cfg, d) && Decides(env, st.records, t.task, t.cfg, e)
      ensures d == e
    {
      DecisionIsUnique(env, st.records, t.task, t.cfg, d, e);
    }
  }

  /** The first of the trials i, i + 1, ... that does not show the root. */
  ghost function FirstHidden(env: Env, run: Run, i: nat, n: nat): (r: Option<Id>)
    requires IsRun(env, run) && i <= n <= |run.trials|
    requires forall k :: 0 <= k <= |run.trials| ==> run.states[k].injectedRootId.Some?
    decreases n - i
  {
    if i == n then None
    else if !RootShown(env, run, i) then Some(run.trials[i].trialId)
    else FirstHidden(env, run, i + 1, n)
  }

  lemma {:induction false} FirstHiddenExtends(env: Env, run: Run, i: nat, n: nat)
    requires IsRun(env, run) && i <= n < |run.trials|
    requires forall k :: 0 <= k <= |run.trials| ==> run.states[k].injectedRootId.Some?
    ensures FirstHidden(env, run, i, n + 1) ==
      if FirstHidden(env, run, i, n).Some? then FirstHidden(env, run, i, n)
      else if !RootShown(env, run, n) then Some(run.trials[n].trialId) else None
    decreases n - i
  {
    if i < n {
      FirstHiddenExtends(env, run, i + 1, n);
    }
  }

  /** Along a run without errors that starts with cleared flags the latch names exactly the first trial that
      hides the root, and never changes afterwards. */
  lemma {:induction false} LatchNamesFirstHiddenTrial(env: Env, run: Run, n: nat)
    requires IsRun(env, run) && NoErrors(run) && n <= |run.trials|
    requires run.states[0].injectedRootId.Some? && !run.states[0].rootWasVisible && run.states[0].firstEviction.None?
    ensures forall k :: 0 <= k <= |run.trials| ==> run.states[k].injectedRootId.Some?
    ensures run.states[n].firstEviction == FirstHidden(env, run, 0, n)
    ensures n > 0 ==> run.states[n].rootWasVisible && RootShown(env, run, 0)
    ensures n > 0 && run.states[n - 1].firstEviction.Some? ==>
      run.states[n].firstEviction == run.states[n - 1].firstEviction
  {
    forall k | 0 <= k <= |run.trials| ensures run.states[k].injectedRootId.Some? {
      StoreIsAppendOnly(env, run, 0, k);
    }
    if n > 0 {
      LatchNamesFirstHiddenTrial(env, run, n - 1);
      LatchStep(env, run, n - 1);
      FirstHiddenExtends(env, run, 0, n - 1);
    }
  }

  // ---- taint ---------------------------------------------------------------------------------------

  lemma {:induction false} StepKeepsLabels(
    env: Env, st: State, t: Trial, st': State, r: Result<Outcome, Error>, start: nat)
    requires TrialStep(env, st, t, st', r) && LabelledFromSources(st.records, start) && start <= |st.records|
    ensures LabelledFromSources(st'.records, start) && start <= |st'.records|
  {
    StepAppends(env, st, t, st', r);
    if st'.records != st.records {
      var d :| Decides(env, st.records, t.task, t.cfg, d) &&
        st'.records == st.records + [NewRecord(st.records, d.records, t)];
      LabelledAppend(st.records, start, NewRecord(st.records, d.records, t));
    }
  }

  lemma {:induction false} RunKeepsLabels(env: Env, run: Run, n: nat)
    requires IsRun(env, run) && n <= |run.trials|
    ensures LabelledFromSources(run.states[n].records, |run.states[0].records|)
    ensures |run.states[0].records| <= |run.states[n].records|
  {
    hide TrialStep;
    if n > 0 {
      RunKeepsLabels(env, run, n - 1);
      assert TrialStep(env, run.states[n - 1], run.trials[n - 1], run.states[(n - 1) + 1], run.results[n - 1]);
      StepKeepsLabels(
        env, run.states[n - 1], run.trials[n - 1], run.states[n], run.results[n - 1], |run.states[0].records|);
    }
  }

  /** Over any run: contaminated iff a chain of source ids leads to a contaminated seed record. */
  lemma FullHistoryTaintIsExact(env: Env, run: Run, i: nat)
    requires IsRun(env, run) && i < |run.states[|run.trials|].records|
    ensures var log := run.states[|run.trials|].records;
      log[i].taint == Contaminated <==> exists chain :: TaintChain(log, |run.states[0].records|, i, chain)
  {
    RunKeepsLabels(env, run, |run.trials|);
    TaintIsExact(run.states[|run.trials|].records, |run.states[0].records|, i);
  }
}
