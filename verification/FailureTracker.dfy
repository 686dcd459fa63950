/** The repeated-failure labels of a run: an incorrect trial is repeated iff its key failed before. */
module FailureTracker {
  import Grid
  import GridRuns

  datatype Label = NotApplicable | FirstFailure | RepeatedFailure

  datatype Judged<Key> = Judged(key: Key, correct: bool)

  class RepeatedFailureTracker<Key(==)> {
    var seenIncorrect: set<Key>

    constructor ()
      ensures seenIncorrect == {}
    {
      seenIncorrect := {};
    }

    method Label(trial: Judged<Key>) returns (verdict: Label)
      modifies this
      ensures (verdict, seenIncorrect) == Next(old(seenIncorrect), trial)
    {
      if trial.correct {
        return NotApplicable;
      }
      if trial.key in seenIncorrect {
        return RepeatedFailure;
      }
      seenIncorrect := seenIncorrect + {trial.key};
      return FirstFailure;
    }
  }

  function Next<Key(==)>(seen: set<Key>, trial: Judged<Key>): (Label, set<Key>) {
    if trial.correct then (NotApplicable, seen)
    else if trial.key in seen then (RepeatedFailure, seen)
    else (FirstFailure, seen + {trial.key})
  }

  function Seen<Key(==)>(trials: seq<Judged<Key>>): set<Key> {
    if trials == [] then {} else Next(Seen(trials[..|trials| - 1]), trials[|trials| - 1]).1
  }

  /** The label of the k-th trial of a run. */
  function LabelAt<Key(==)>(trials: seq<Judged<Key>>, k: nat): Label
    requires k < |trials|
  {
    Next(Seen(trials[..k]), trials[k]).0
  }

  lemma {:induction false} SeenIsEarlierFailures<Key>(trials: seq<Judged<Key>>, key: Key)
    ensures key in Seen(trials) <==> exists j :: 0 <= j < |trials| && trials[j].key == key && !trials[j].correct
  {
    if trials != [] {
      var n := |trials| - 1;
      SeenIsEarlierFailures(trials[..n], key);
      if key in Seen(trials[..n]) {
        var j :| 0 <= j < n && trials[..n][j].key == key && !trials[..n][j].correct;
        assert trials[j].key == key;
      }
      assert forall j :: 0 <= j < n ==> trials[..n][j] == trials[j];
    }
  }

  /** Repeated means: incorrect, and some earlier trial with the same key was incorrect too. */
  lemma RepeatedIff<Key>(trials: seq<Judged<Key>>, k: nat)
    requires k < |trials|
    ensures LabelAt(trials, k) == RepeatedFailure <==>
      !trials[k].correct && exists j :: 0 <= j < k && trials[j].key == trials[k].key && !trials[j].correct
    ensures LabelAt(trials, k) == NotApplicable <==> trials[k].correct
  {
    SeenIsEarlierFailures(trials[..k], trials[k].key);
    assert forall j :: 0 <= j < k ==> trials[..k][j] == trials[j];
    if j :| 0 <= j < k && trials[j].key == trials[k].key && !trials[j].correct {
      assert trials[..k][j].key == trials[k].key;
    }
  }

  /** The labelled trials of a grid run: those of some of its cells, in cell order. */
  ghost predicate LabelsCells(
    trials: seq<Judged<(Grid.Identity, string)>>, cells: seq<Grid.Cell>, positions: seq<nat>)
  {
    |positions| == |trials| &&
    (forall k :: 0 <= k < |trials| ==>
      positions[k] < |cells| && cells[positions[k]].Cell? &&
      trials[k].key == (cells[positions[k]].id, cells[positions[k]].row.sampleId)) &&
    forall j, k :: 0 <= j < k < |positions| ==> positions[j] < positions[k]
  }

  /** With distinct sample ids a grid run visits every key once, so no trial is ever labelled a repeated failure. */
  lemma GridNeverRepeatsAFailure<S>(
    env: Grid.Env<S>, cfg: Grid.Config, trials: seq<Judged<(Grid.Identity, string)>>, positions: seq<nat>, k: nat)
    requires GridRuns.DistinctConfig(cfg) && GridRuns.Supported(env, cfg)
    requires forall t :: 0 <= t < |cfg.tasks| ==> GridRuns.DistinctSamples(cfg.tasks[t].rows)
    requires LabelsCells(trials, Grid.AllCells(env, cfg), positions) && k < |trials|
    ensures LabelAt(trials, k) == if trials[k].correct then NotApplicable else FirstFailure
  {
    hide Grid.AllCells;
    RepeatedIff(trials, k);
    forall j | 0 <= j < k ensures trials[j].key != trials[k].key {
      GridRuns.TrialKeysAreDistinct(env, cfg, positions[j], positions[k]);
    }
  }
}
