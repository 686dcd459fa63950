/** The stored memory entry (memory/stores.py) and logs of entries in the order in which they were written. */
module Memory {
  import opened Common

  datatype Taint = Clean | Contaminated

  /** The metadata keys the baselines read are fields; an absent key is None. */
  datatype MemoryEntry = MemoryEntry(
    entryId: Id,
    content: string,
    taint: Taint,
    sourceTrialId: Option<Id>,
    directParentIds: Option<seq<Id>>,
    sourceEntryIds: Option<seq<Id>>)

  function EntryIds(log: seq<MemoryEntry>): (r: seq<Id>)
    ensures |r| == |log|
  {
    seq(|log|, i requires 0 <= i < |log| => log[i].entryId)
  }

  function ParentsOf(e: MemoryEntry): seq<Id> {
    if e.directParentIds.Some? then e.directParentIds.value else []
  }

  function SourcesOf(e: MemoryEntry): seq<Id> {
    if e.sourceEntryIds.Some? then e.sourceEntryIds.value else []
  }

  lemma EntryIdsSum(a: seq<MemoryEntry>, b: seq<MemoryEntry>)
    ensures EntryIds(a + b) == EntryIds(a) + EntryIds(b)
  {
  }

  /** The first entry with the id: Python's `next(entry for entry in log if ...)`. */
  function FirstById(log: seq<MemoryEntry>, id: Id): (r: Option<MemoryEntry>)
    ensures r.Some? <==> id in EntryIds(log)
    ensures r.Some? ==> r.value in log && r.value.entryId == id
  {
    if log == [] then None
    else if log[0].entryId == id then assert EntryIds(log)[0] == id; Some(log[0])
    else
      assert EntryIds(log) == [log[0].entryId] + EntryIds(log[1..]);
      FirstById(log[1..], id)
  }

  lemma {:induction false} FirstByIdUnique(log: seq<MemoryEntry>, k: nat)
    requires Distinct(EntryIds(log)) && k < |log|
    ensures FirstById(log, log[k].entryId) == Some(log[k])
  {
    if k > 0 {
      assert EntryIds(log)[0] != EntryIds(log)[k];
      var rest := log[1..];
      forall i, j | 0 <= i < j < |rest| ensures EntryIds(rest)[i] != EntryIds(rest)[j] {
        assert EntryIds(log)[i + 1] != EntryIds(log)[j + 1];
      }
      FirstByIdUnique(rest, k - 1);
    }
  }

  /** Ids are unique and every entry's parents were written before it. */
  ghost predicate ParentsEarlier(log: seq<MemoryEntry>) {
    Distinct(EntryIds(log)) &&
    forall i, p :: 0 <= i < |log| && p in ParentsOf(log[i]) ==> p in EntryIds(log[..i])
  }

  lemma ParentsEarlierAppend(log: seq<MemoryEntry>, e: MemoryEntry)
    requires ParentsEarlier(log) && e.entryId !in EntryIds(log)
    requires Elements(ParentsOf(e)) <= Elements(EntryIds(log))
    ensures ParentsEarlier(log + [e])
  {
    var longer := log + [e];
    EntryIdsSum(log, [e]);
    forall i, p | 0 <= i < |longer| && p in ParentsOf(longer[i]) ensures p in EntryIds(longer[..i]) {
      if i < |log| {
        assert longer[..i] == log[..i];
      } else {
        assert longer[..i] == log;
        assert p in Elements(ParentsOf(e));
      }
    }
  }

  // ---- taint ---------------------------------------------------------------------------------------

  ghost predicate HasSource(log: seq<MemoryEntry>, i: nat, j: nat) {
    i < |log| && j < |log| && log[j].entryId in SourcesOf(log[i])
  }

  ghost predicate HasContaminatedSource(log: seq<MemoryEntry>, i: nat) {
    exists j :: 0 <= j < i && HasSource(log, i, j) && log[j].taint == Contaminated
  }

  /** How a baseline labels what it writes from position `start` on. */
  ghost predicate LabelledFromSources(log: seq<MemoryEntry>, start: nat) {
    forall i :: start <= i < |log| ==> (log[i].taint == Contaminated <==> HasContaminatedSource(log, i))
  }

  /** Some entry of the log with one of the ids is contaminated. */
  predicate UsesContaminated(log: seq<MemoryEntry>, ids: seq<Id>) {
    exists j :: 0 <= j < |log| && log[j].entryId in ids && log[j].taint == Contaminated
  }

  lemma OlderSourcesStay(log: seq<MemoryEntry>, e: MemoryEntry, i: nat)
    requires i < |log|
    ensures HasContaminatedSource(log + [e], i) <==> HasContaminatedSource(log, i)
  {
    var longer := log + [e];
    forall j | 0 <= j < i ensures HasSource(longer, i, j) <==> HasSource(log, i, j) {}
    if HasContaminatedSource(log, i) {
      var j :| 0 <= j < i && HasSource(log, i, j) && log[j].taint == Contaminated;
      assert HasSource(longer, i, j) && longer[j].taint == Contaminated;
    }
  }

  lemma NewSources(log: seq<MemoryEntry>, e: MemoryEntry)
    ensures HasContaminatedSource(log + [e], |log|) <==> UsesContaminated(log, SourcesOf(e))
  {
    var longer, n := log + [e], |log|;
    forall j | 0 <= j < n ensures HasSource(longer, n, j) <==> log[j].entryId in SourcesOf(e) {}
    if UsesContaminated(log, SourcesOf(e)) {
      var j :| 0 <= j < n && log[j].entryId in SourcesOf(e) && log[j].taint == Contaminated;
      assert HasSource(longer, n, j) && longer[j].taint == Contaminated;
    }
  }

  lemma LabelledAppend(log: seq<MemoryEntry>, start: nat, e: MemoryEntry)
    requires LabelledFromSources(log, start) && start <= |log|
    requires e.taint == Contaminated <==> UsesContaminated(log, SourcesOf(e))
    ensures LabelledFromSources(log + [e], start)
  {
    var longer := log + [e];
    forall i | start <= i < |longer| ensures longer[i].taint == Contaminated <==> HasContaminatedSource(longer, i) {
      if i < |log| {
        OlderSourcesStay(log, e, i);
      } else {
        NewSources(log, e);
      }
    }
  }

  /** A chain of sources that starts at i, runs through written entries and stops at a contaminated seed. */
  ghost predicate TaintChain(log: seq<MemoryEntry>, start: nat, i: nat, chain: seq<nat>) {
    |chain| >= 1 && chain[0] == i && chain[|chain| - 1] < start <= |log| &&
    log[chain[|chain| - 1]].taint == Contaminated &&
    forall k :: 0 <= k < |chain| - 1 ==>
      start <= chain[k] && chain[k + 1] < chain[k] && HasSource(log, chain[k], chain[k + 1])
  }

  lemma ChainExtends(log: seq<MemoryEntry>, start: nat, i: nat, j: nat, rest: seq<nat>)
    requires TaintChain(log, start, j, rest) && start <= i && j < i && HasSource(log, i, j)
    ensures TaintChain(log, start, i, [i] + rest)
  {
    hide HasSource;
    var chain := [i] + rest;
    forall k | 0 <= k < |chain| - 1
      ensures start <= chain[k] && chain[k + 1] < chain[k] && HasSource(log, chain[k], chain[k + 1])
    {
      if k > 0 {
        assert chain[k] == rest[k - 1] && chain[k + 1] == rest[(k - 1) + 1];
      }
    }
  }

  lemma {:induction false} ContaminatedHasChain(log: seq<MemoryEntry>, start: nat, i: nat) returns (chain: seq<nat>)
    requires LabelledFromSources(log, start) && i < |log| && start <= |log| && log[i].taint == Contaminated
    ensures TaintChain(log, start, i, chain)
    decreases i
  {
    if i < start {
      chain := [i];
    } else {
      var j :| 0 <= j < i && HasSource(log, i, j) && log[j].taint == Contaminated;
      var rest := ContaminatedHasChain(log, start, j);
      chain := [i] + rest;
      ChainExtends(log, start, i, j, rest);
    }
  }

  lemma {:induction false} ChainContaminates(log: seq<MemoryEntry>, start: nat, i: nat, chain: seq<nat>)
    requires LabelledFromSources(log, start) && i < |log| && TaintChain(log, start, i, chain)
    ensures log[i].taint == Contaminated
    decreases |chain|
  {
    if |chain| > 1 {
      var rest := chain[1..];
      forall k | 0 <= k < |rest| - 1
        ensures start <= rest[k] && rest[k + 1] < rest[k] && HasSource(log, rest[k], rest[k + 1])
      {
        assert rest[k] == chain[k + 1] && rest[k + 1] == chain[(k + 1) + 1];
      }
      assert chain[0 + 1] < chain[0] && HasSource(log, chain[0], chain[0 + 1]);
      ChainContaminates(log, start, chain[1], rest);
    }
  }

  /** Labels are exact: an entry is contaminated iff a chain of sources leads to a contaminated seed. */
  lemma TaintIsExact(log: seq<MemoryEntry>, start: nat, i: nat)
    requires LabelledFromSources(log, start) && start <= |log| && i < |log|
    ensures log[i].taint == Contaminated <==> exists chain :: TaintChain(log, start, i, chain)
  {
    if log[i].taint == Contaminated {
      var chain := ContaminatedHasChain(log, start, i);
    }
    if chain :| TaintChain(log, start, i, chain) {
      ChainContaminates(log, start, i, chain);
    }
  }
}
