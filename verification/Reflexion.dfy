/**
 The Reflexion baseline without a filter: the bounded attempt loop of the adapter, the phase-12 hook that runs
 inside it, and first-in-first-out eviction. Store is the specification state; the classes below are the code.
 */
module Reflexion {
  import opened Common
  import opened Memory

  datatype Generation = CallFailed | Unparseable | Answered(answer: string)

  datatype Verdict = Correct | Incorrect | VerifierRaised

  /** explicitly_used_memory_ids as the reflection model returned them. */
  datatype Payload = Payload(text: string, usedIds: seq<Id>)

  datatype ReflectReply = ReflectFailed | Malformed | Parsed(payload: Payload)

  /** Everything the outside world supplies to one attempt; entryId is the id the new entry would get. */
  datatype Attempt = Attempt(generation: Generation, verdict: Verdict, reflect: ReflectReply, entryId: Id)

  datatype Config = Config(
    maxAttempts: nat, updateEnabled: bool, capacity: Option<nat>, injectedRootId: Option<Id>)

  datatype Disposition = ProviderCallFailed | InvalidGeneration | VerifierContractFailed | InvalidReflection

  datatype Code = FutureReflectionAccess | WriteEventMissing

  datatype Outcome = Succeeded(verdict: bool) | Failed(why: Disposition) | Raised(code: Code)

  datatype Store = Store(live: seq<MemoryEntry>, evicted: seq<MemoryEntry>, firstInjectedEviction: Option<Id>) {
    /** Everything ever stored, oldest first. */
    function Log(): seq<MemoryEntry> {
      evicted + live
    }
  }

  datatype TrialResult = TrialResult(
    store: Store, written: seq<MemoryEntry>, outcome: Outcome, writeEvent: Option<MemoryEntry>)

  predicate ValidConfig(cfg: Config) {
    cfg.maxAttempts in {1, 2} && (cfg.capacity.Some? ==> cfg.capacity.value >= 1)
  }

  // ---- specification -------------------------------------------------------------------------------

  function Visible(live: seq<MemoryEntry>): seq<MemoryEntry> {
    if |live| <= 3 then live else live[|live| - 3..]
  }

  /** The parser rejects repeated ids and ids that were not shown. */
  ghost predicate Acceptable(p: Payload, visible: seq<MemoryEntry>) {
    Distinct(p.usedIds) && Elements(p.usedIds) <= Elements(EntryIds(visible))
  }

  /** A dict comprehension keeps the last entry of an id. */
  function LastById(visible: seq<MemoryEntry>, id: Id): (r: Option<MemoryEntry>)
    ensures r.Some? <==> id in EntryIds(visible)
    ensures r.Some? ==>
      exists k :: 0 <= k < |visible| && visible[k] == r.value && r.value.entryId == id &&
        forall j :: k < j < |visible| ==> visible[j].entryId != id
  {
    if visible == [] then None
    else
      var last := visible[|visible| - 1];
      assert visible == visible[..|visible| - 1] + [last];
      assert EntryIds(visible) == EntryIds(visible[..|visible| - 1]) + [last.entryId];
      if last.entryId == id then Some(last) else LastById(visible[..|visible| - 1], id)
  }

  function AddUnique(ids: seq<Id>, more: seq<Id>): seq<Id>
    decreases |more|
  {
    if more == [] then ids
    else AddUnique(if more[0] in ids then ids else ids + [more[0]], more[1..])
  }

  /** `source_entry_ids` of a used entry, with the entry itself as the default of an absent key. */
  function TaintSources(e: MemoryEntry): seq<Id> {
    if e.sourceEntryIds.Some? then e.sourceEntryIds.value else [e.entryId]
  }

  function ContaminatedSources(visible: seq<MemoryEntry>, usedIds: seq<Id>, found: seq<Id>): seq<Id>
    decreases |usedIds|
  {
    if usedIds == [] then found
    else
      var e := LastById(visible, usedIds[0]);
      ContaminatedSources(visible, usedIds[1..],
        if e.Some? && e.value.taint == Contaminated then AddUnique(found, TaintSources(e.value)) else found)
  }

  function NewEntry(visible: seq<MemoryEntry>, p: Payload, trialId: Id, entryId: Id): MemoryEntry {
    MemoryEntry(entryId, "Reflection: " + p.text,
      if ContaminatedSources(visible, p.usedIds, []) == [] then Clean else Contaminated,
      Some(trialId), Some(p.usedIds), Some(p.usedIds))
  }

  function OtherThan(id: Id): MemoryEntry -> bool {
    (e: MemoryEntry) => e.entryId != id
  }

  function Without(log: seq<MemoryEntry>, id: Id): seq<MemoryEntry> {
    Filter(OtherThan(id), log)
  }

  lemma {:induction false} WithoutShrinks(log: seq<MemoryEntry>, id: Id)
    ensures |Without(log, id)| <= |log|
    ensures id in EntryIds(log) ==> |Without(log, id)| < |log|
    ensures id !in EntryIds(log) ==> Without(log, id) == log
  {
    if log != [] {
      assert EntryIds(log) == [log[0].entryId] + EntryIds(log[1..]);
      WithoutShrinks(log[1..], id);
    }
  }

  function EvictOldest(st: Store, cfg: Config, trialId: Id): Store
    requires st.live != []
  {
    var first := st.live[0];
    Store(
      Without(st.live, first.entryId),
      st.evicted + [first],
      if cfg.injectedRootId == Some(first.entryId) && st.firstInjectedEviction.None?
      then Some(trialId) else st.firstInjectedEviction)
  }

  /** The oldest entry's id is removed until the capacity is met. */
  function Enforce(st: Store, cfg: Config, trialId: Id): Store
    decreases |st.live|
  {
    if cfg.capacity.None? || |st.live| <= cfg.capacity.value then st
    else
      WithoutShrinks(st.live, st.live[0].entryId);
      assert EntryIds(st.live)[0] == st.live[0].entryId;
      Enforce(EvictOldest(st, cfg, trialId), cfg, trialId)
  }

  function Write(st: Store, cfg: Config, trialId: Id, e: MemoryEntry): Store {
    Enforce(st.(live := st.live + [e]), cfg, trialId)
  }

  /** Building the outcome looks the last written entry up among the live ones. */
  function Finish(st: Store, written: seq<MemoryEntry>, outcome: Outcome): TrialResult {
    if written == [] then TrialResult(st, written, outcome, None)
    else
      var found := FirstById(st.live, written[|written| - 1].entryId);
      if found.None? then TrialResult(st, written, Raised(WriteEventMissing), None)
      else TrialResult(st, written, outcome, found)
  }

  /** The early returns of one attempt; None when a reflection is to be written. */
  ghost function EarlyEnd(a: Attempt, updateEnabled: bool, visible: seq<MemoryEntry>): (end: Option<Outcome>)
    ensures end.None? ==> a.reflect.Parsed? && Acceptable(a.reflect.payload, visible)
  {
    match a.generation
    case CallFailed => Some(Failed(ProviderCallFailed))
    case Unparseable => Some(Failed(InvalidGeneration))
    case Answered(_) =>
      match a.verdict
      case VerifierRaised => Some(Failed(VerifierContractFailed))
      case Correct => Some(Succeeded(true))
      case Incorrect =>
        if !updateEnabled then Some(Succeeded(false))
        else
          match a.reflect
          case ReflectFailed => Some(Failed(ProviderCallFailed))
          case Malformed => Some(Failed(InvalidReflection))
          case Parsed(payload) => if Acceptable(payload, visible) then None else Some(Failed(InvalidReflection))
  }

  /** One attempt either ends the trial or leaves a new store and the entry it wrote. */
  datatype Step = Ended(result: TrialResult) | Next(store: Store, entry: MemoryEntry)

  ghost function AttemptStep(
    st: Store, cfg: Config, trialId: Id, a: Attempt, last: bool, written: seq<MemoryEntry>): Step
  {
    var visible := Visible(st.live);
    var end := EarlyEnd(a, cfg.updateEnabled, visible);
    if end.Some? then Ended(Finish(st, written, end.value))
    else if a.entryId in a.reflect.payload.usedIds then
      Ended(TrialResult(st, written, Raised(FutureReflectionAccess), None))
    else
      var e := NewEntry(visible, a.reflect.payload, trialId, a.entryId);
      var next := Write(st, cfg, trialId, e);
      if last then Ended(Finish(next, written + [e], Succeeded(false))) else Next(next, e)
  }

  ghost function RunFrom(
    st: Store, cfg: Config, trialId: Id, attempts: seq<Attempt>, written: seq<MemoryEntry>): TrialResult
    requires attempts != []
    decreases |attempts|
  {
    match AttemptStep(st, cfg, trialId, attempts[0], |attempts| == 1, written)
    case Ended(result) => result
    case Next(next, e) => RunFrom(next, cfg, trialId, attempts[1..], written + [e])
  }

  ghost function RunTrial(st: Store, cfg: Config, trialId: Id, attempts: seq<Attempt>): TrialResult
    requires ValidConfig(cfg) && |attempts| == cfg.maxAttempts
  {
    RunFrom(st, cfg, trialId, attempts, [])
  }

  // ---- the code ------------------------------------------------------------------------------------

  class ReflexionState {
    var reflections: seq<MemoryEntry>

    constructor (reflections: seq<MemoryEntry>)
      ensures this.reflections == reflections
    {
      this.reflections := reflections;
    }
  }

  datatype EvictionEvent = EvictionEvent(entryId: Id, trialId: Id)

  /** `events` reports, in order, exactly what moved from the live list to the evicted one. */
  ghost predicate Reports(events: seq<EvictionEvent>, before: Store, after: Store, trialId: Id) {
    before.evicted <= after.evicted && |events| == |after.evicted| - |before.evicted| &&
    forall i :: 0 <= i < |events| ==>
      events[i].entryId == after.evicted[|before.evicted| + i].entryId && events[i].trialId == trialId
  }

  lemma ReportsCompose(
    a: seq<EvictionEvent>, b: seq<EvictionEvent>, before: Store, between: Store, after: Store, trialId: Id)
    requires Reports(a, before, between, trialId) && Reports(b, between, after, trialId)
    ensures Reports(a + b, before, after, trialId)
  {
    var n := |before.evicted|;
    forall i | 0 <= i < |a + b|
      ensures (a + b)[i].entryId == after.evicted[n + i].entryId && (a + b)[i].trialId == trialId
    {
      if i < |a| {
        assert between.evicted[n + i] == after.evicted[n + i];
      } else {
        assert after.evicted[|between.evicted| + (i - |a|)] == after.evicted[n + i];
      }
    }
  }

  class ReflexionStateV3 {
    const cfg: Config
    var reflections: seq<MemoryEntry>
    var evictedReflections: seq<MemoryEntry>
    var firstInjectedEvictionTrialId: Option<Id>

    constructor (cfg: Config, reflections: seq<MemoryEntry>)
      ensures this.cfg == cfg && Model() == Store(reflections, [], None)
    {
      this.cfg := cfg;
      this.reflections, evictedReflections, firstInjectedEvictionTrialId := reflections, [], None;
    }

    ghost function Model(): Store
      reads this
    {
      Store(reflections, evictedReflections, firstInjectedEvictionTrialId)
    }

    method EnforceActiveCapacity(legacy: ReflexionState, trialId: Id) returns (events: seq<EvictionEvent>)
      requires legacy.reflections == reflections
      modifies this, legacy
      ensures Model() == Enforce(old(Model()), cfg, trialId) && legacy.reflections == reflections
      ensures Reports(events, old(Model()), Model(), trialId)
    {
      events := [];
      if cfg.capacity.None? {
        return;
      }
      while |reflections| > cfg.capacity.value
        invariant Enforce(Model(), cfg, trialId) == Enforce(old(Model()), cfg, trialId)
        invariant legacy.reflections == reflections
        invariant Reports(events, old(Model()), Model(), trialId)
        decreases |reflections|
      {
        var evicted := reflections[0];
        assert EntryIds(reflections)[0] == evicted.entryId;
        WithoutShrinks(reflections, evicted.entryId);
        reflections := Without(reflections, evicted.entryId);
        legacy.reflections := Without(legacy.reflections, evicted.entryId);
        evictedReflections := evictedReflections + [evicted];
        if cfg.injectedRootId == Some(evicted.entryId) && firstInjectedEvictionTrialId.None? {
          firstInjectedEvictionTrialId := Some(trialId);
        }
        events := events + [EvictionEvent(evicted.entryId, trialId)];
      }
    }

    /** The hook: lineage checks first, then the append, then eviction. */
    method AfterReflection(entry: MemoryEntry, legacy: ReflexionState, trialId: Id)
      returns (error: Option<Code>, events: seq<EvictionEvent>)
      requires legacy.reflections == reflections + [entry]
      requires entry.directParentIds == entry.sourceEntryIds && entry.directParentIds.Some?
      modifies this, legacy
      ensures error == if forall p :: p in ParentsOf(entry) ==> p in EntryIds(old(reflections)) && p != entry.entryId
        then None else Some(FutureReflectionAccess)
      ensures error.Some? ==> Model() == old(Model())
      ensures error.None? ==> Model() == Write(old(Model()), cfg, trialId, entry) && legacy.reflections == reflections
      ensures Reports(events, old(Model()), Model(), trialId)
    {
      events := [];
      var supports := entry.directParentIds.value;
      var visible := Filter(OtherThan(entry.entryId), legacy.reflections);
      var k := 0;
      while k < |supports|
        invariant k <= |supports| && events == [] && unchanged(this) && unchanged(legacy)
        invariant forall i :: 0 <= i < k ==>
          supports[i] in EntryIds(reflections) && supports[i] != entry.entryId
      {
        assert supports[k] in EntryIds(visible) <==>
          supports[k] in EntryIds(reflections) && supports[k] != entry.entryId by {
          if supports[k] in EntryIds(visible) {
            var i :| 0 <= i < |visible| && visible[i].entryId == supports[k];
            FilterMember(OtherThan(entry.entryId), legacy.reflections, visible[i]);
            var j :| 0 <= j < |legacy.reflections| && legacy.reflections[j] == visible[i];
            assert j < |reflections| && EntryIds(reflections)[j] == supports[k];
          }
          if supports[k] in EntryIds(reflections) && supports[k] != entry.entryId {
            var j :| 0 <= j < |reflections| && EntryIds(reflections)[j] == supports[k];
            assert legacy.reflections[j] == reflections[j];
            FilterMember(OtherThan(entry.entryId), legacy.reflections, reflections[j]);
            var i :| 0 <= i < |visible| && visible[i] == reflections[j];
            assert EntryIds(visible)[i] == supports[k];
          }
        }
        if supports[k] !in EntryIds(visible) {
          return Some(FutureReflectionAccess), [];
        }
        k := k + 1;
      }
      reflections := reflections + [entry];
      events := EnforceActiveCapacity(legacy, trialId);
      return None, events;
    }

    method AppendReflection(legacy: ReflexionState, p: Payload, trialId: Id, entryId: Id)
      returns (error: Option<Code>, entry: MemoryEntry, events: seq<EvictionEvent>)
      requires legacy.reflections == reflections && Acceptable(p, Visible(reflections))
      modifies this, legacy
      ensures entry == NewEntry(Visible(old(reflections)), p, trialId, entryId)
      ensures error == if entryId in p.usedIds then Some(FutureReflectionAccess) else None
      ensures error.Some? ==> Model() == old(Model())
      ensures error.None? ==> Model() == Write(old(Model()), cfg, trialId, entry) && legacy.reflections == reflections
      ensures Reports(events, old(Model()), Model(), trialId)
    {
      entry := NewEntry(Visible(legacy.reflections), p, trialId, entryId);
      legacy.reflections := legacy.reflections + [entry];
      VisibleIds(reflections);
      assert forall q :: q in p.usedIds ==> q in Elements(p.usedIds) && q in EntryIds(reflections);
      error, events := AfterReflection(entry, legacy, trialId);
    }

    /** The body of the attempt loop; `more` says that the loop goes on. */
    method RunAttempt(legacy: ReflexionState, trialId: Id, a: Attempt, last: bool, before: seq<MemoryEntry>)
      returns (
        more: bool, written: seq<MemoryEntry>, events: seq<EvictionEvent>,
        outcome: Outcome, writeEvent: Option<MemoryEntry>)
      requires legacy.reflections == reflections
      modifies this, legacy
      ensures more ==> written != [] && !last
      ensures AttemptStep(old(Model()), cfg, trialId, a, last, before) ==
        if more then Next(Model(), written[|written| - 1])
        else Ended(TrialResult(Model(), written, outcome, writeEvent))
      ensures more ==> written == before + [written[|written| - 1]] && legacy.reflections == reflections
      ensures Reports(events, old(Model()), Model(), trialId)
    {
      var visible := Visible(legacy.reflections);
      var ended := AttemptEnd(a, cfg.updateEnabled, visible);
      if ended.Some? {
        outcome, writeEvent := Conclude(legacy.reflections, before, ended.value);
        return false, before, [], outcome, writeEvent;
      }
      var error, entry;
      error, entry, events := AppendReflection(legacy, a.reflect.payload, trialId, a.entryId);
      if error.Some? {
        return false, before, events, Raised(error.value), None;
      }
      written := before + [entry];
      if last {
        outcome, writeEvent := Conclude(legacy.reflections, written, Succeeded(false));
        return false, written, events, outcome, writeEvent;
      }
      return true, written, events, Succeeded(false), None;
    }

    /** ReflexionPhase12Adapter.execute around ReflexionAdapter.execute. */
    method Execute(trialId: Id, attempts: seq<Attempt>)
      returns (
        written: seq<MemoryEntry>, evictions: seq<EvictionEvent>,
        outcome: Outcome, writeEvent: Option<MemoryEntry>)
      requires ValidConfig(cfg) && |attempts| == cfg.maxAttempts
      modifies this
      ensures Reports(evictions, old(Model()), Model(), trialId)
      ensures RunTrial(old(Model()), cfg, trialId, attempts) == TrialResult(Model(), written, outcome, writeEvent)
    {
      var legacy := new ReflexionState(reflections);
      written, evictions := [], [];
      var i := 1;
      assert attempts[0..] == attempts;
      while true
        invariant 1 <= i <= cfg.maxAttempts && legacy.reflections == reflections && fresh(legacy)
        invariant Reports(evictions, old(Model()), Model(), trialId)
        invariant RunTrial(old(Model()), cfg, trialId, attempts) ==
          RunFrom(Model(), cfg, trialId, attempts[i - 1..], written)
        decreases cfg.maxAttempts - i
      {
        ghost var before := Model();
        var more, events;
        more, written, events, outcome, writeEvent :=
          RunAttempt(legacy, trialId, attempts[i - 1], i == cfg.maxAttempts, written);
        ReportsCompose(evictions, events, old(Model()), before, Model(), trialId);
        evictions := evictions + events;
        if !more {
          return;
        }
        assert attempts[i - 1..][1..] == attempts[i..];
        i := i + 1;
      }
    }
  }

  datatype StateError =
    | InvalidCapacity | InvalidReflectionState | FutureReflection | ImplicitParentUnion | CapacityMiscount
    | RootNotNewest

  ghost predicate WellFormedParents(e: MemoryEntry) {
    e.directParentIds.Some? && Distinct(e.directParentIds.value) && "" !in e.directParentIds.value
  }

  method CheckParentList(e: MemoryEntry) returns (ok: bool)
    ensures ok <==> WellFormedParents(e)
  {
    if e.directParentIds.None? {
      return false;
    }
    var ids := e.directParentIds.value;
    for k := 0 to |ids|
      invariant Distinct(ids[..k]) && "" !in ids[..k]
    {
      if ids[k] == "" || ids[k] in ids[..k] {
        return false;
      }
    }
    assert ids[..|ids|] == ids;
    return true;
  }

  ghost predicate NewId(reflections: seq<MemoryEntry>, k: nat)
    requires k < |reflections|
  {
    reflections[k].entryId != "" && reflections[k].entryId !in EntryIds(reflections[..k])
  }

  ghost predicate KnownParents(reflections: seq<MemoryEntry>, k: nat)
    requires k < |reflections|
  {
    Elements(ParentsOf(reflections[k])) <= Elements(EntryIds(reflections[..k]))
  }

  /** The first k reflections pass all three checks of their order. */
  ghost predicate OrderedUpTo(reflections: seq<MemoryEntry>, k: nat)
    requires k <= |reflections|
  {
    forall j :: 0 <= j < k ==>
      NewId(reflections, j) && WellFormedParents(reflections[j]) && KnownParents(reflections, j)
  }

  lemma {:induction false} OrderedIsParentsEarlier(reflections: seq<MemoryEntry>, k: nat)
    requires k <= |reflections| && OrderedUpTo(reflections, k)
    ensures ParentsEarlier(reflections[..k])
  {
    if k > 0 {
      OrderedIsParentsEarlier(reflections, k - 1);
      assert reflections[..k] == reflections[..k - 1] + [reflections[k - 1]];
      ParentsEarlierAppend(reflections[..k - 1], reflections[k - 1]);
    }
  }

  lemma InPrefixIds(reflections: seq<MemoryEntry>, k: nat, id: Id)
    requires k <= |reflections|
    ensures id in EntryIds(reflections[..k]) <==> exists j :: 0 <= j < k && reflections[j].entryId == id
  {
    if j :| 0 <= j < k && reflections[j].entryId == id {
      assert EntryIds(reflections[..k])[j] == id;
    }
  }

  lemma OrderChecksMean(reflections: seq<MemoryEntry>, k: nat)
    requires k < |reflections|
    ensures NewId(reflections, k) <==>
      reflections[k].entryId != "" && forall j :: 0 <= j < k ==> reflections[j].entryId != reflections[k].entryId
    ensures reflections[k].directParentIds.Some? ==> (
      KnownParents(reflections, k) <==>
        forall p :: p in reflections[k].directParentIds.value ==> exists j :: 0 <= j < k && reflections[j].entryId == p)
  {
    InPrefixIds(reflections, k, reflections[k].entryId);
    forall p ensures p in EntryIds(reflections[..k]) <==> exists j :: 0 <= j < k && reflections[j].entryId == p {
      InPrefixIds(reflections, k, p);
    }
    assert forall p :: p in ParentsOf(reflections[k]) <==> p in Elements(ParentsOf(reflections[k]));
  }

  /** The starting list of a state: every id is new and non-empty, and every parent list is there, has no empty and no
      repeated id, and names only reflections listed before. The error tells the first check that fails. */
  method ValidateReflectionOrder(reflections: seq<MemoryEntry>) returns (error: Option<StateError>)
    ensures error.None? <==>
      forall k :: 0 <= k < |reflections| ==>
        var e := reflections[k];
        && e.entryId != "" && (forall j :: 0 <= j < k ==> reflections[j].entryId != e.entryId)
        && e.directParentIds.Some? && "" !in e.directParentIds.value && Distinct(e.directParentIds.value)
        && forall p :: p in e.directParentIds.value ==> exists j :: 0 <= j < k && reflections[j].entryId == p
    ensures error.None? ==> ParentsEarlier(reflections)
    ensures error.Some? ==>
      !OrderedUpTo(reflections, |reflections|) &&
      error.value in {InvalidReflectionState, ImplicitParentUnion, FutureReflection}
    ensures error == Some(InvalidReflectionState) ==>
      exists k, e :: 0 <= k < |reflections| && OrderedUpTo(reflections, k) && e == reflections[k] &&
        (e.entryId == "" || exists j :: 0 <= j < k && reflections[j].entryId == e.entryId)
    ensures error == Some(ImplicitParentUnion) ==>
      exists k, e :: 0 <= k < |reflections| && OrderedUpTo(reflections, k) && e == reflections[k] &&
        e.entryId != "" && (forall j :: 0 <= j < k ==> reflections[j].entryId != e.entryId) &&
        (e.directParentIds.None? || "" in e.directParentIds.value || !Distinct(e.directParentIds.value))
    ensures error == Some(FutureReflection) ==>
      exists k, p :: 0 <= k < |reflections| && OrderedUpTo(reflections, k) && reflections[k].directParentIds.Some? &&
        "" !in reflections[k].directParentIds.value && Distinct(reflections[k].directParentIds.value) &&
        p in reflections[k].directParentIds.value && forall j :: 0 <= j < k ==> reflections[j].entryId != p
  {
    forall k | 0 <= k < |reflections| {
      OrderChecksMean(reflections, k);
    }
    for k := 0 to |reflections|
      invariant OrderedUpTo(reflections, k)
    {
      var prior := EntryIds(reflections[..k]);
      var e := reflections[k];
      if e.entryId == "" || e.entryId in prior {
        return Some(InvalidReflectionState);
      }
      var wellFormed := CheckParentList(e);
      if !wellFormed {
        return Some(ImplicitParentUnion);
      }
      var known := Subset(ParentsOf(e), prior);
      if !known {
        return Some(FutureReflection);
      }
    }
    OrderedIsParentsEarlier(reflections, |reflections|);
    assert reflections[..|reflections|] == reflections;
    return None;
  }

  /** What the constructor of a state checks: the capacity, the list, the injected root as its newest entry, and that
      the list fits. */
  method ValidateState(capacity: Option<int>, injectedRootId: Option<Id>, reflections: seq<MemoryEntry>)
    returns (error: Option<StateError>)
    ensures error.None? ==>
      && (capacity.Some? ==> 1 <= capacity.value && |reflections| <= capacity.value)
      && (injectedRootId.Some? ==>
          reflections != [] && reflections[|reflections| - 1].entryId == injectedRootId.value)
      && ParentsEarlier(reflections)
    ensures error == Some(InvalidCapacity) <==> capacity.Some? && capacity.value < 1
    ensures error == Some(RootNotNewest) ==>
      injectedRootId.Some? && ParentsEarlier(reflections) &&
      (reflections == [] || reflections[|reflections| - 1].entryId != injectedRootId.value)
    ensures error == Some(CapacityMiscount) ==>
      capacity.Some? && 1 <= capacity.value < |reflections| && ParentsEarlier(reflections)
    ensures error in {Some(InvalidReflectionState), Some(ImplicitParentUnion), Some(FutureReflection)} ==>
      !OrderedUpTo(reflections, |reflections|)
  {
    if capacity.Some? && capacity.value < 1 {
      return Some(InvalidCapacity);
    }
    error := ValidateReflectionOrder(reflections);
    if error.Some? {
      return;
    }
    if injectedRootId.Some? {
      var ids := EntryIds(reflections);
      if ids == [] || ids[|ids| - 1] != injectedRootId.value {
        return Some(RootNotNewest);
      }
    }
    if capacity.Some? && |reflections| > capacity.value {
      return Some(CapacityMiscount);
    }
  }

  method Subset(ids: seq<Id>, all: seq<Id>) returns (ok: bool)
    ensures ok <==> Elements(ids) <= Elements(all)
  {
    for k := 0 to |ids|
      invariant forall i :: 0 <= i < k ==> ids[i] in all
    {
      if ids[k] !in all {
        assert ids[k] in Elements(ids);
        return false;
      }
    }
    return true;
  }

  lemma VisibleIds(live: seq<MemoryEntry>)
    ensures Elements(EntryIds(Visible(live))) <= Elements(EntryIds(live))
  {
    forall k | 0 <= k < |Visible(live)| ensures EntryIds(Visible(live))[k] in EntryIds(live) {
      var j := if |live| <= 3 then k else |live| - 3 + k;
      assert EntryIds(live)[j] == EntryIds(Visible(live))[k];
    }
  }

  lemma AcceptableMeans(p: Payload, visible: seq<MemoryEntry>)
    ensures Elements(p.usedIds) <= Elements(EntryIds(visible)) <==>
      forall id :: id in p.usedIds ==> exists e :: e in visible && e.entryId == id
  {
    forall id ensures id in EntryIds(visible) <==> exists e :: e in visible && e.entryId == id {
      if id in EntryIds(visible) {
        var k :| 0 <= k < |visible| && EntryIds(visible)[k] == id;
        assert visible[k] in visible;
      }
      if e :| e in visible && e.entryId == id {
        var k :| 0 <= k < |visible| && visible[k] == e;
        assert EntryIds(visible)[k] == id;
      }
    }
    assert forall id :: id in p.usedIds <==> id in Elements(p.usedIds);
  }

  method IsAcceptable(p: Payload, visible: seq<MemoryEntry>) returns (ok: bool)
    ensures ok <==>
      (forall i, j :: 0 <= i < j < |p.usedIds| ==> p.usedIds[i] != p.usedIds[j]) &&
      forall id :: id in p.usedIds ==> exists e :: e in visible && e.entryId == id
    ensures ok <==> Acceptable(p, visible)
  {
    AcceptableMeans(p, visible);
    var ids := EntryIds(visible);
    for k := 0 to |p.usedIds|
      invariant Distinct(p.usedIds[..k]) && Elements(p.usedIds[..k]) <= Elements(ids)
    {
      if p.usedIds[k] in p.usedIds[..k] || p.usedIds[k] !in ids {
        assert p.usedIds[k] in Elements(p.usedIds);
        return false;
      }
      assert p.usedIds[..k + 1] == p.usedIds[..k] + [p.usedIds[k]];
      ElementsOfSum(p.usedIds[..k], [p.usedIds[k]]);
    }
    assert p.usedIds[..|p.usedIds|] == p.usedIds;
    return true;
  }

  /** The attempt asks the reflection model: it answered wrongly and updates are on. */
  predicate Reflects(a: Attempt, updateEnabled: bool) {
    a.generation.Answered? && a.verdict == Incorrect && updateEnabled
  }

  method AttemptEnd(a: Attempt, updateEnabled: bool, visible: seq<MemoryEntry>) returns (end: Option<Outcome>)
    ensures end == EarlyEnd(a, updateEnabled, visible)
    ensures end.None? <==> Reflects(a, updateEnabled) && a.reflect.Parsed? && Acceptable(a.reflect.payload, visible)
    ensures end == Some(Succeeded(true)) <==> a.generation.Answered? && a.verdict == Correct
    ensures end == Some(Succeeded(false)) <==> a.generation.Answered? && a.verdict == Incorrect && !updateEnabled
    ensures end == Some(Failed(ProviderCallFailed)) <==>
      a.generation == CallFailed || (Reflects(a, updateEnabled) && a.reflect == ReflectFailed)
    ensures end == Some(Failed(InvalidGeneration)) <==> a.generation == Unparseable
    ensures end == Some(Failed(VerifierContractFailed)) <==> a.generation.Answered? && a.verdict == VerifierRaised
    ensures end == Some(Failed(InvalidReflection)) <==>
      Reflects(a, updateEnabled) && a.reflect != ReflectFailed &&
      !(a.reflect.Parsed? && Acceptable(a.reflect.payload, visible))
  {
    match a.generation {
      case CallFailed => return Some(Failed(ProviderCallFailed));
      case Unparseable => return Some(Failed(InvalidGeneration));
      case Answered(_) =>
    }
    match a.verdict {
      case VerifierRaised => return Some(Failed(VerifierContractFailed));
      case Correct => return Some(Succeeded(true));
      case Incorrect =>
    }
    if !updateEnabled {
      return Some(Succeeded(false));
    }
    match a.reflect {
      case ReflectFailed => return Some(Failed(ProviderCallFailed));
      case Malformed => return Some(Failed(InvalidReflection));
      case Parsed(payload) =>
        var ok := IsAcceptable(payload, visible);
        return if ok then None else Some(Failed(InvalidReflection));
    }
  }

  method Conclude(live: seq<MemoryEntry>, written: seq<MemoryEntry>, end: Outcome)
    returns (outcome: Outcome, writeEvent: Option<MemoryEntry>)
    ensures forall st: Store :: st.live == live ==>
      Finish(st, written, end) == TrialResult(st, written, outcome, writeEvent)
  {
    if written == [] {
      return end, None;
    }
    var found := FirstById(live, written[|written| - 1].entryId);
    if found.None? {
      return Raised(WriteEventMissing), None;
    }
    return end, found;
  }
}
