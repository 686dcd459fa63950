/** Conservation, lineage, the eviction latch and taint over whole Reflexion runs. */
module ReflexionRuns {
  import opened Common
  import opened Memory
  import opened Reflexion

  function Excess(st: Store, cfg: Config): nat {
    if cfg.capacity.None? || |st.live| <= cfg.capacity.value then 0 else |st.live| - cfg.capacity.value
  }

  lemma WithoutHead(log: seq<MemoryEntry>)
    requires log != [] && Distinct(EntryIds(log))
    ensures Without(log, log[0].entryId) == log[1..] && Distinct(EntryIds(log[1..]))
  {
    var rest := log[1..];
    assert EntryIds(log) == [log[0].entryId] + EntryIds(rest);
    DistinctSum([log[0].entryId], EntryIds(rest));
    assert log[0].entryId in Elements([log[0].entryId]);
    WithoutShrinks(rest, log[0].entryId);
  }

  lemma EvictOldestIsFifo(st: Store, cfg: Config, trialId: Id)
    requires st.live != [] && Distinct(EntryIds(st.live))
    ensures EvictOldest(st, cfg, trialId) == Store(
      st.live[1..], st.evicted + [st.live[0]], Latch(st.firstInjectedEviction, cfg, [st.live[0]], trialId))
    ensures Distinct(EntryIds(st.live[1..]))
  {
    WithoutHead(st.live);
    assert EntryIds([st.live[0]]) == [st.live[0].entryId];
  }

  ghost function Latch(before: Option<Id>, cfg: Config, gone: seq<MemoryEntry>, trialId: Id): Option<Id> {
    if before.None? && cfg.injectedRootId.Some? && cfg.injectedRootId.value in EntryIds(gone)
    then Some(trialId) else before
  }

  lemma LatchStep(before: Option<Id>, cfg: Config, first: MemoryEntry, rest: seq<MemoryEntry>, trialId: Id)
    ensures Latch(before, cfg, [first] + rest, trialId) ==
      Latch(Latch(before, cfg, [first], trialId), cfg, rest, trialId)
  {
    EntryIdsSum([first], rest);
  }

  lemma ShiftOne(live: seq<MemoryEntry>, evicted: seq<MemoryEntry>, d: nat)
    requires 0 < d <= |live|
    ensures live[1..][d - 1..] == live[d..] && live[..d] == [live[0]] + live[1..][..d - 1]
    ensures evicted + [live[0]] + live[1..][..d - 1] == evicted + live[..d]
  {
  }

  lemma NoLatch(before: Option<Id>, cfg: Config, trialId: Id)
    ensures Latch(before, cfg, [], trialId) == before
  {
  }

  /** With unique ids the removal by id is exactly first in, first out. */
  lemma {:induction false} EnforceIsFifo(st: Store, cfg: Config, trialId: Id)
    requires ValidConfig(cfg) && Distinct(EntryIds(st.live))
    ensures var d := Excess(st, cfg);
      Enforce(st, cfg, trialId) == Store(
        st.live[d..], st.evicted + st.live[..d],
        Latch(st.firstInjectedEviction, cfg, st.live[..d], trialId))
    decreases |st.live|
  {
    hide EvictOldest, Latch, Distinct;
    var d := Excess(st, cfg);
    if d > 0 {
      var next := EvictOldest(st, cfg, trialId);
      EvictOldestIsFifo(st, cfg, trialId);
      EnforceIsFifo(next, cfg, trialId);
      ShiftOne(st.live, st.evicted, d);
      LatchStep(st.firstInjectedEviction, cfg, st.live[0], next.live[..d - 1], trialId);
    } else {
      NoLatch(st.firstInjectedEviction, cfg, trialId);
    }
  }

  /** Without any assumption on the ids, evicting removes every entry with the id of the oldest one. */
  lemma EvictedAndKept(st: Store, cfg: Config, trialId: Id)
    requires st.live != []
    ensures var next := EvictOldest(st, cfg, trialId);
      next.live == Without(st.live[1..], st.live[0].entryId) && next.evicted == st.evicted + [st.live[0]] &&
      |next.live| <= |st.live| - 1
  {
    var first, younger := st.live[0], st.live[1..];
    assert st.live == [first] + younger;
    FilterSum(OtherThan(first.entryId), [first], younger);
    assert Without([first], first.entryId) == [];
    WithoutShrinks(younger, first.entryId);
  }

  lemma WriteAtCapacity(st: Store, cfg: Config, trialId: Id, e: MemoryEntry)
    requires cfg.capacity == Some(|st.live|) && st.live != []
    ensures var r := Write(st, cfg, trialId, e);
      r.live == Without(st.live[1..] + [e], st.live[0].entryId) && r.evicted == st.evicted + [st.live[0]]
  {
    hide EvictOldest, Without;
    var more := st.(live := st.live + [e]);
    assert more.live[0] == st.live[0] && more.live[1..] == st.live[1..] + [e];
    EvictedAndKept(more, cfg, trialId);
    var next := EvictOldest(more, cfg, trialId);
    assert Enforce(next, cfg, trialId) == next;
  }

  /** For any store within its capacity, unique ids or not: a write loses an entry exactly when it evicts and the id
      of the oldest entry occurs a second time, among the younger entries or as the id it writes. */
  lemma WriteConservesIff(st: Store, cfg: Config, trialId: Id, e: MemoryEntry)
    requires ValidConfig(cfg)
    requires cfg.capacity.Some? ==> |st.live| <= cfg.capacity.value
    ensures Write(st, cfg, trialId, e).Log() == st.Log() + [e] <==>
      !(cfg.capacity == Some(|st.live|) && st.live[0].entryId in EntryIds(st.live[1..] + [e]))
  {
    if cfg.capacity == Some(|st.live|) {
      hide Write, Without;
      var first, younger := st.live[0], st.live[1..] + [e];
      WriteAtCapacity(st, cfg, trialId, e);
      WithoutShrinks(younger, first.entryId);
      var r := Write(st, cfg, trialId, e);
      assert |st.Log() + [e]| == |st.evicted| + 1 + |younger|;
      assert st.evicted + [first] + younger == st.Log() + [e];
    } else {
      assert st.(live := st.live + [e]).Log() == st.Log() + [e];
    }
  }

  /** What every trial keeps. */
  ghost predicate Inv(st: Store, cfg: Config) {
    && ValidConfig(cfg)
    && ParentsEarlier(st.Log())
    && (cfg.capacity.Some? ==> |st.live| <= cfg.capacity.value)
    && (st.firstInjectedEviction.Some? <==>
        cfg.injectedRootId.Some? && cfg.injectedRootId.value in EntryIds(st.evicted))
  }

  /** A state that the constructor accepts satisfies the invariant. */
  lemma ValidStateStarts(cfg: Config, reflections: seq<MemoryEntry>)
    requires ValidConfig(cfg) && ParentsEarlier(reflections)
    requires cfg.capacity.Some? ==> |reflections| <= cfg.capacity.value
    ensures Inv(Store(reflections, [], None), cfg)
  {
    assert [] + reflections == reflections;
    assert Store(reflections, [], None).Log() == reflections;
  }

  lemma SecondWriteErasesBoth(cfg: Config, trialId: Id, e: MemoryEntry)
    requires cfg.capacity == Some(1) && cfg.injectedRootId == None
    ensures Write(Store([], [], None), cfg, trialId, e) == Store([e], [], None)
    ensures Write(Store([e], [], None), cfg, trialId, e) == Store([], [e], None)
  {
    assert [] + [e] == [e] && [e] + [e] == [e, e];
    assert !OtherThan(e.entryId)(e);
    FilterSum(OtherThan(e.entryId), [e], [e]);
    assert Without([e], e.entryId) == [];
    var gone := EvictOldest(Store([e, e], [], None), cfg, trialId);
    assert gone == Store([], [e], None);
    assert Enforce(gone, cfg, trialId) == gone;
    assert Store([e], [], None).(live := [e] + [e]) == Store([e, e], [], None);
  }

  /** With a configured entry id two attempts write the same id; at capacity 1 both copies are then evicted. */
  lemma RepeatedIdBreaksTheTrial(id: Id, text: string)
    ensures var cfg := Config(2, true, Some(1), None);
      var a := Attempt(Answered("x"), Incorrect, Parsed(Payload(text, [])), id);
      var r := RunTrial(Store([], [], None), cfg, "t", [a, a]);
      r.outcome == Raised(WriteEventMissing) && |r.written| == 2 && |r.store.Log()| == 1
  {
    var cfg := Config(2, true, Some(1), None);
    var p := Payload(text, []);
    var a := Attempt(Answered("x"), Incorrect, Parsed(p), id);
    var e := NewEntry([], p, "t", id);
    SecondWriteErasesBoth(cfg, "t", e);
    assert AttemptStep(Store([], [], None), cfg, "t", a, false, []) == Next(Store([e], [], None), e);
    assert NewEntry([e], p, "t", id) == e;
    var end := Finish(Store([], [e], None), [e] + [e], Succeeded(false));
    assert AttemptStep(Store([e], [], None), cfg, "t", a, true, [e]) == Ended(end);
    assert [a, a][1..] == [a] && [] + [e] == [e];
    assert RunFrom(Store([e], [], None), cfg, "t", [a], [e]) == end;
  }

  lemma TwoWritesOfOneId(cfg: Config, trialId: Id, e: MemoryEntry)
    requires cfg.capacity == Some(2) && cfg.injectedRootId == None
    ensures Write(Store([], [], None), cfg, trialId, e) == Store([e], [], None)
    ensures Write(Store([e], [], None), cfg, trialId, e) == Store([e, e], [], None)
  {
    assert [] + [e] == [e] && [e] + [e] == [e, e];
    assert Store([e], [], None).(live := [e] + [e]) == Store([e, e], [], None);
  }

  /** At capacity 2 the two attempts of one trial leave both copies live and no error. */
  lemma RepeatedIdStaysLive(id: Id, text: string)
    ensures var cfg := Config(2, true, Some(2), None);
      var a := Attempt(Answered("x"), Incorrect, Parsed(Payload(text, [])), id);
      var e := NewEntry([], Payload(text, []), "t", id);
      RunTrial(Store([], [], None), cfg, "t", [a, a]) ==
      TrialResult(Store([e, e], [], None), [e, e], Succeeded(false), Some(e))
  {
    var cfg := Config(2, true, Some(2), None);
    var p := Payload(text, []);
    var a := Attempt(Answered("x"), Incorrect, Parsed(p), id);
    var e := NewEntry([], p, "t", id);
    TwoWritesOfOneId(cfg, "t", e);
    assert AttemptStep(Store([], [], None), cfg, "t", a, false, []) == Next(Store([e], [], None), e);
    assert NewEntry([e], p, "t", id) == e;
    assert [e] + [e] == [e, e];
    var end := Finish(Store([e, e], [], None), [e, e], Succeeded(false));
    assert AttemptStep(Store([e], [], None), cfg, "t", a, true, [e]) == Ended(end);
    assert [a, a][1..] == [a] && [] + [e] == [e];
    assert RunFrom(Store([e], [], None), cfg, "t", [a], [e]) == end;
  }

  /** The next write, under any other id, then drops one of the copies without an error. */
  lemma RepeatedIdLosesLater(e: MemoryEntry, z: MemoryEntry, trialId: Id)
    requires z.entryId != e.entryId
    ensures Write(Store([e, e], [], None), Config(2, true, Some(2), None), trialId, z) == Store([z], [e], None)
  {
    var st, cfg := Store([e, e], [], None), Config(2, true, Some(2), None);
    assert st.live[1..] + [z] == [e] + [z] && st.evicted + [e] == [e];
    WriteAtCapacity(st, cfg, trialId, z);
    FilterSum(OtherThan(e.entryId), [e], [z]);
    assert !OtherThan(e.entryId)(e) && OtherThan(e.entryId)(z);
    assert Without([e] + [z], e.entryId) == [z];
    WriteKeepsLatch(st, cfg, trialId, z);
  }

  lemma WriteKeepsLatch(st: Store, cfg: Config, trialId: Id, e: MemoryEntry)
    requires cfg.injectedRootId == None
    ensures Write(st, cfg, trialId, e).firstInjectedEviction == st.firstInjectedEviction
  {
    EnforceKeepsLatch(st.(live := st.live + [e]), cfg, trialId);
  }

  lemma {:induction false} EnforceKeepsLatch(st: Store, cfg: Config, trialId: Id)
    requires cfg.injectedRootId == None
    ensures Enforce(st, cfg, trialId).firstInjectedEviction == st.firstInjectedEviction
    decreases |st.live|
  {
    if cfg.capacity.Some? && |st.live| > cfg.capacity.value {
      EvictedAndKept(st, cfg, trialId);
      EnforceKeepsLatch(EvictOldest(st, cfg, trialId), cfg, trialId);
    }
  }

  lemma LiveDistinct(st: Store)
    requires Distinct(EntryIds(st.Log()))
    ensures Distinct(EntryIds(st.live)) && Elements(EntryIds(st.live)) <= Elements(EntryIds(st.Log()))
    ensures Elements(EntryIds(st.live)) !! Elements(EntryIds(st.evicted))
  {
    EntryIdsSum(st.evicted, st.live);
    DistinctSum(EntryIds(st.evicted), EntryIds(st.live));
    ElementsOfSum(EntryIds(st.evicted), EntryIds(st.live));
  }

  /** The latch is set at most once, and then to the current trial. */
  ghost predicate LatchMoves(before: Option<Id>, after: Option<Id>, trialId: Id) {
    after == before || (before.None? && after == Some(trialId))
  }

  /** r is the store after e was written: nothing is lost and e is the newest live entry. */
  ghost predicate Wrote(st: Store, r: Store, cfg: Config, trialId: Id, e: MemoryEntry) {
    && Inv(r, cfg) && r.Log() == st.Log() + [e]
    && r.live != [] && r.live[|r.live| - 1] == e
    && LatchMoves(st.firstInjectedEviction, r.firstInjectedEviction, trialId)
  }

  lemma WriteKeeps(st: Store, cfg: Config, trialId: Id, e: MemoryEntry)
    requires Inv(st, cfg) && e.entryId !in EntryIds(st.Log())
    requires Elements(ParentsOf(e)) <= Elements(EntryIds(st.live))
    ensures Wrote(st, Write(st, cfg, trialId, e), cfg, trialId, e)
  {
    hide Enforce, Distinct;
    WriteShifts(st, cfg, trialId, e);
    LiveDistinct(st);
    ParentsEarlierAppend(st.Log(), e);
    var more := st.(live := st.live + [e]);
    EntryIdsSum(st.evicted, more.live[..Excess(more, cfg)]);
  }

  /** A write of a fresh id moves the oldest surplus entry, if any, to the evicted ones. */
  lemma WriteShifts(st: Store, cfg: Config, trialId: Id, e: MemoryEntry)
    requires ValidConfig(cfg) && ParentsEarlier(st.Log()) && e.entryId !in EntryIds(st.Log())
    ensures
      var more := st.(live := st.live + [e]);
      var d, r := Excess(more, cfg), Write(st, cfg, trialId, e);
      r == Store(
        more.live[d..], st.evicted + more.live[..d], Latch(st.firstInjectedEviction, cfg, more.live[..d], trialId)) &&
      r.Log() == st.Log() + [e]
  {
    hide Enforce, Latch;
    var more := st.(live := st.live + [e]);
    assert more.Log() == st.Log() + [e];
    EntryIdsSum(st.Log(), [e]);
    DistinctPush(EntryIds(st.Log()), e.entryId);
    assert EntryIds(more.Log()) == EntryIds(st.Log()) + [e.entryId];
    LiveDistinct(more);
    EnforceIsFifo(more, cfg, trialId);
    assert more.live == more.live[..Excess(more, cfg)] + more.live[Excess(more, cfg)..];
  }

  /** No attempt would reuse an id: neither a stored one nor another attempt's. */
  ghost predicate FreshIds(ids: set<Id>, attempts: seq<Attempt>) {
    forall i :: 0 <= i < |attempts| ==>
      attempts[i].entryId !in ids && forall j :: 0 <= j < i ==> attempts[j].entryId != attempts[i].entryId
  }

  lemma FreshTail(ids: set<Id>, attempts: seq<Attempt>)
    requires attempts != [] && FreshIds(ids, attempts)
    ensures FreshIds(ids + {attempts[0].entryId}, attempts[1..])
  {
    var rest := attempts[1..];
    forall i | 0 <= i < |rest|
      ensures rest[i].entryId !in ids + {attempts[0].entryId}
      ensures forall j :: 0 <= j < i ==> rest[j].entryId != rest[i].entryId
    {
      assert rest[i] == attempts[i + 1];
      forall j | 0 <= j < i ensures rest[j].entryId != rest[i].entryId {
        assert rest[j] == attempts[j + 1];
      }
    }
  }

  /** What a whole trial guarantees, given the entries `written` so far. */
  ghost predicate TrialKeeps(st: Store, cfg: Config, trialId: Id, written: seq<MemoryEntry>, r: TrialResult) {
    && Inv(r.store, cfg)
    && written <= r.written
    && r.store.Log() == st.Log() + r.written[|written|..]
    && !r.outcome.Raised?
    && r.writeEvent == (if r.written == [] then None else Some(r.written[|r.written| - 1]))
    && LatchMoves(st.firstInjectedEviction, r.store.firstInjectedEviction, trialId)
  }

  lemma FinishKeeps(st: Store, cfg: Config, trialId: Id, written: seq<MemoryEntry>, end: Outcome)
    requires Inv(st, cfg) && !end.Raised?
    requires written != [] ==> st.live != [] && st.live[|st.live| - 1] == written[|written| - 1]
    ensures TrialKeeps(st, cfg, trialId, written, Finish(st, written, end))
    ensures Finish(st, written, end).outcome == end && Finish(st, written, end).written == written
  {
    if written != [] {
      LiveDistinct(st);
      FirstByIdUnique(st.live, |st.live| - 1);
    }
  }

  lemma TrialKeepsEarlier(
    st: Store, next: Store, cfg: Config, trialId: Id, written: seq<MemoryEntry>, e: MemoryEntry, r: TrialResult)
    requires next.Log() == st.Log() + [e]
    requires TrialKeeps(next, cfg, trialId, written + [e], r)
    requires LatchMoves(st.firstInjectedEviction, next.firstInjectedEviction, trialId)
    ensures TrialKeeps(st, cfg, trialId, written, r)
  {
    assert r.written[|written|..] == [e] + r.written[|written| + 1..];
    assert st.Log() + [e] + r.written[|written| + 1..] == st.Log() + r.written[|written|..];
  }

  /** The write of one attempt, before the outcome is built. */
  lemma ReflectKeeps(st: Store, cfg: Config, trialId: Id, p: Payload, entryId: Id)
    requires Inv(st, cfg) && entryId !in EntryIds(st.Log()) && Acceptable(p, Visible(st.live))
    ensures var e := NewEntry(Visible(st.live), p, trialId, entryId);
      entryId !in p.usedIds && Wrote(st, Write(st, cfg, trialId, e), cfg, trialId, e)
  {
    VisibleIds(st.live);
    LiveDistinct(st);
    assert forall q :: q in p.usedIds ==> q in Elements(p.usedIds) && q in Elements(EntryIds(st.Log()));
    WriteKeeps(st, cfg, trialId, NewEntry(Visible(st.live), p, trialId, entryId));
  }

  lemma LastWriteKeeps(st: Store, next: Store, cfg: Config, trialId: Id, written: seq<MemoryEntry>, e: MemoryEntry)
    requires Wrote(st, next, cfg, trialId, e)
    ensures TrialKeeps(st, cfg, trialId, written, Finish(next, written + [e], Succeeded(false)))
  {
    FinishKeeps(next, cfg, trialId, written + [e], Succeeded(false));
    TrialKeepsEarlier(st, next, cfg, trialId, written, e, Finish(next, written + [e], Succeeded(false)));
  }

  lemma StepKeeps(st: Store, cfg: Config, trialId: Id, a: Attempt, last: bool, written: seq<MemoryEntry>)
    requires Inv(st, cfg) && a.entryId !in EntryIds(st.Log())
    requires written != [] ==> st.live != [] && st.live[|st.live| - 1] == written[|written| - 1]
    ensures var s := AttemptStep(st, cfg, trialId, a, last, written);
      && (s.Ended? ==> TrialKeeps(st, cfg, trialId, written, s.result))
      && (s.Next? ==> !last && Wrote(st, s.store, cfg, trialId, s.entry) && s.entry.entryId == a.entryId)
  {
    var visible := Visible(st.live);
    var end := EarlyEnd(a, cfg.updateEnabled, visible);
    if end.Some? {
      FinishKeeps(st, cfg, trialId, written, end.value);
    } else {
      ReflectKeeps(st, cfg, trialId, a.reflect.payload, a.entryId);
      if last {
        var e := NewEntry(visible, a.reflect.payload, trialId, a.entryId);
        LastWriteKeeps(st, Write(st, cfg, trialId, e), cfg, trialId, written, e);
      }
    }
  }

  lemma {:induction false} RunFromKeeps(
    st: Store, cfg: Config, trialId: Id, attempts: seq<Attempt>, written: seq<MemoryEntry>)
    requires Inv(st, cfg) && attempts != [] && FreshIds(Elements(EntryIds(st.Log())), attempts)
    requires written != [] ==> st.live != [] && st.live[|st.live| - 1] == written[|written| - 1]
    ensures TrialKeeps(st, cfg, trialId, written, RunFrom(st, cfg, trialId, attempts, written))
    decreases |attempts|
  {
    hide AttemptStep, Inv;
    var s := AttemptStep(st, cfg, trialId, attempts[0], |attempts| == 1, written);
    StepKeeps(st, cfg, trialId, attempts[0], |attempts| == 1, written);
    if s.Next? {
      EntryIdsSum(st.Log(), [s.entry]);
      ElementsOfSum(EntryIds(st.Log()), [s.entry.entryId]);
      FreshTail(Elements(EntryIds(st.Log())), attempts);
      RunFromKeeps(s.store, cfg, trialId, attempts[1..], written + [s.entry]);
      TrialKeepsEarlier(
        st, s.store, cfg, trialId, written, s.entry, RunFrom(st, cfg, trialId, attempts, written));
    }
  }

  // ---- what a trial writes and reports -------------------------------------------------------------

  /** The entry is what the attempt's reflection makes: its text, its used ids as parents and as sources. */
  ghost predicate WrittenBy(a: Attempt, trialId: Id, e: MemoryEntry) {
    && a.generation.Answered? && a.verdict == Incorrect && a.reflect.Parsed?
    && e.entryId == a.entryId && e.content == "Reflection: " + a.reflect.payload.text
    && e.sourceTrialId == Some(trialId)
    && e.directParentIds == Some(a.reflect.payload.usedIds) && e.sourceEntryIds == Some(a.reflect.payload.usedIds)
  }

  /** Why a trial ended at this attempt. */
  ghost predicate EndsWith(a: Attempt, updateEnabled: bool, outcome: Outcome) {
    match outcome
    case Succeeded(true) => a.generation.Answered? && a.verdict == Correct
    case Succeeded(false) => a.generation.Answered? && a.verdict == Incorrect && !updateEnabled
    case Failed(ProviderCallFailed) =>
      a.generation == CallFailed ||
      (a.generation.Answered? && a.verdict == Incorrect && updateEnabled && a.reflect == ReflectFailed)
    case Failed(InvalidGeneration) => a.generation == Unparseable
    case Failed(VerifierContractFailed) => a.generation.Answered? && a.verdict == VerifierRaised
    case Failed(InvalidReflection) =>
      a.generation.Answered? && a.verdict == Incorrect && updateEnabled && a.reflect != ReflectFailed
    case Raised(_) => true
  }

  /** A trial writes one entry for each of its first n attempts, all of them wrong answers with a reflection; then
      the next attempt ended it, or there was none left and the last answer was wrong. */
  lemma {:induction false} TrialFollowsAttempts(
    st: Store, cfg: Config, trialId: Id, attempts: seq<Attempt>, written: seq<MemoryEntry>)
    requires attempts != []
    ensures
      var r := RunFrom(st, cfg, trialId, attempts, written);
      var n := |r.written| - |written|;
      && 0 <= n <= |attempts| && written <= r.written
      && (forall k :: 0 <= k < n ==> WrittenBy(attempts[k], trialId, r.written[|written| + k]))
      && (r.outcome.Raised? ||
          if n == |attempts| then r.outcome == Succeeded(false)
          else EndsWith(attempts[n], cfg.updateEnabled, r.outcome))
    decreases |attempts|
  {
    hide AttemptStep, WrittenBy, EndsWith;
    StepFollowsAttempt(st, cfg, trialId, attempts[0], |attempts| == 1, written);
    var s := AttemptStep(st, cfg, trialId, attempts[0], |attempts| == 1, written);
    if s.Next? {
      TrialFollowsAttempts(s.store, cfg, trialId, attempts[1..], written + [s.entry]);
      var r := RunFrom(st, cfg, trialId, attempts, written);
      assert r == RunFrom(s.store, cfg, trialId, attempts[1..], written + [s.entry]);
      forall k | 0 <= k < |r.written| - |written|
        ensures WrittenBy(attempts[k], trialId, r.written[|written| + k])
      {
        if k == 0 {
          assert r.written[|written|] == (written + [s.entry])[|written|];
        } else {
          assert attempts[1..][k - 1] == attempts[k];
        }
      }
    }
  }

  lemma StepFollowsAttempt(st: Store, cfg: Config, trialId: Id, a: Attempt, last: bool, written: seq<MemoryEntry>)
    ensures
      match AttemptStep(st, cfg, trialId, a, last, written)
      case Next(_, e) => !last && WrittenBy(a, trialId, e)
      case Ended(r) =>
        if r.written == written then r.outcome.Raised? || EndsWith(a, cfg.updateEnabled, r.outcome)
        else
          last && |r.written| == |written| + 1 && written <= r.written &&
          WrittenBy(a, trialId, r.written[|written|]) && (r.outcome.Raised? || r.outcome == Succeeded(false))
  {
    hide Write, Visible, ContaminatedSources, Acceptable, FirstById;
  }

  // ---- whole runs ----------------------------------------------------------------------------------

  datatype Trial = Trial(trialId: Id, attempts: seq<Attempt>)

  datatype RunResult = RunResult(store: Store, written: seq<MemoryEntry>, raised: bool)

  ghost predicate Shaped(cfg: Config, trials: seq<Trial>) {
    ValidConfig(cfg) && forall t :: t in trials ==> |t.attempts| == cfg.maxAttempts
  }

  ghost function Run(st: Store, cfg: Config, trials: seq<Trial>): RunResult
    requires Shaped(cfg, trials)
    decreases |trials|
  {
    if trials == [] then RunResult(st, [], false)
    else
      var r := RunTrial(st, cfg, trials[0].trialId, trials[0].attempts);
      var rest := Run(r.store, cfg, trials[1..]);
      RunResult(rest.store, r.written + rest.written, r.outcome.Raised? || rest.raised)
  }

  ghost function AttemptIds(attempts: seq<Attempt>): set<Id> {
    set i | 0 <= i < |attempts| :: attempts[i].entryId
  }

  /** uuid4 ids: no trial draws an id that is stored or was drawn before. */
  ghost predicate FreshRun(ids: set<Id>, trials: seq<Trial>)
    decreases |trials|
  {
    trials != [] ==>
      FreshIds(ids, trials[0].attempts) && FreshRun(ids + AttemptIds(trials[0].attempts), trials[1..])
  }

  lemma {:induction false} FreshRunWeaken(ids: set<Id>, fewer: set<Id>, trials: seq<Trial>)
    requires FreshRun(ids, trials) && fewer <= ids
    ensures FreshRun(fewer, trials)
    decreases |trials|
  {
    if trials != [] {
      FreshRunWeaken(ids + AttemptIds(trials[0].attempts), fewer + AttemptIds(trials[0].attempts), trials[1..]);
    }
  }

  /** Ids written in a trial come from its attempts. */
  lemma {:induction false} WrittenIds(
    st: Store, cfg: Config, trialId: Id, attempts: seq<Attempt>, written: seq<MemoryEntry>, ids: set<Id>)
    requires attempts != [] && AttemptIds(attempts) <= ids && Elements(EntryIds(written)) <= ids
    ensures Elements(EntryIds(RunFrom(st, cfg, trialId, attempts, written).written)) <= ids
    decreases |attempts|
  {
    var s := AttemptStep(st, cfg, trialId, attempts[0], |attempts| == 1, written);
    assert attempts[0].entryId in AttemptIds(attempts);
    if s.Next? {
      EntryIdsSum(written, [s.entry]);
      ElementsOfSum(EntryIds(written), [s.entry.entryId]);
      assert AttemptIds(attempts[1..]) <= AttemptIds(attempts);
      WrittenIds(s.store, cfg, trialId, attempts[1..], written + [s.entry], ids);
    } else {
      var e := s.result.written;
      if e != written {
        EntryIdsSum(written, [e[|e| - 1]]);
        ElementsOfSum(EntryIds(written), [e[|e| - 1].entryId]);
      }
    }
  }

  lemma TrialLeavesFreshIds(st: Store, cfg: Config, trials: seq<Trial>)
    requires Inv(st, cfg) && Shaped(cfg, trials) && trials != []
    requires FreshRun(Elements(EntryIds(st.Log())), trials)
    ensures var r := RunTrial(st, cfg, trials[0].trialId, trials[0].attempts);
      TrialKeeps(st, cfg, trials[0].trialId, [], r) &&
      FreshRun(Elements(EntryIds(r.store.Log())), trials[1..])
  {
    var r := RunTrial(st, cfg, trials[0].trialId, trials[0].attempts);
    RunFromKeeps(st, cfg, trials[0].trialId, trials[0].attempts, []);
    WrittenIds(st, cfg, trials[0].trialId, trials[0].attempts, [], AttemptIds(trials[0].attempts));
    assert r.written[0..] == r.written;
    EntryIdsSum(st.Log(), r.written);
    ElementsOfSum(EntryIds(st.Log()), EntryIds(r.written));
    FreshRunWeaken(
      Elements(EntryIds(st.Log())) + AttemptIds(trials[0].attempts),
      Elements(EntryIds(r.store.Log())), trials[1..]);
  }

  /** Nothing is lost or reordered, lineage stays topological, the capacity is kept and no trial raises. */
  ghost predicate RunKeeps(st: Store, cfg: Config, r: RunResult) {
    && r.store.Log() == st.Log() + r.written
    && ParentsEarlier(r.store.Log())
    && (cfg.capacity.Some? ==> |r.store.live| <= cfg.capacity.value)
    && !r.raised
    && Inv(r.store, cfg)
  }

  lemma RunKeepsCompose(st: Store, cfg: Config, trialId: Id, first: TrialResult, rest: RunResult)
    requires TrialKeeps(st, cfg, trialId, [], first) && RunKeeps(first.store, cfg, rest)
    ensures RunKeeps(st, cfg, RunResult(rest.store, first.written + rest.written, rest.raised))
  {
    assert first.written[0..] == first.written;
    assert (st.Log() + first.written) + rest.written == st.Log() + (first.written + rest.written);
  }

  lemma {:induction false} RunConserves(st: Store, cfg: Config, trials: seq<Trial>)
    requires Inv(st, cfg) && Shaped(cfg, trials) && FreshRun(Elements(EntryIds(st.Log())), trials)
    ensures RunKeeps(st, cfg, Run(st, cfg, trials))
    decreases |trials|
  {
    if trials != [] {
      var first := RunTrial(st, cfg, trials[0].trialId, trials[0].attempts);
      TrialLeavesFreshIds(st, cfg, trials);
      RunConserves(first.store, cfg, trials[1..]);
      RunKeepsCompose(st, cfg, trials[0].trialId, first, Run(first.store, cfg, trials[1..]));
    }
  }

  /** The first trial that ends with the injected root no longer live. */
  ghost function FirstTrialWithoutRoot(st: Store, cfg: Config, trials: seq<Trial>): Option<Id>
    requires Shaped(cfg, trials) && cfg.injectedRootId.Some?
    decreases |trials|
  {
    if trials == [] then None
    else
      var r := RunTrial(st, cfg, trials[0].trialId, trials[0].attempts);
      if cfg.injectedRootId.value !in EntryIds(r.store.live) then Some(trials[0].trialId)
      else FirstTrialWithoutRoot(r.store, cfg, trials[1..])
  }

  lemma RootLiveOrEvicted(st: Store, cfg: Config)
    requires Inv(st, cfg) && cfg.injectedRootId.Some? && cfg.injectedRootId.value in EntryIds(st.Log())
    ensures cfg.injectedRootId.value in EntryIds(st.live) <==> st.firstInjectedEviction.None?
  {
    var root := cfg.injectedRootId.value;
    LiveDistinct(st);
    EntryIdsSum(st.evicted, st.live);
    ElementsOfSum(EntryIds(st.evicted), EntryIds(st.live));
    assert root in Elements(EntryIds(st.Log()));
    assert root in Elements(EntryIds(st.live)) <==> root !in Elements(EntryIds(st.evicted));
  }

  /** A latch that is set never changes again. */
  lemma {:induction false} LatchIsFinal(st: Store, cfg: Config, trials: seq<Trial>)
    requires Inv(st, cfg) && Shaped(cfg, trials) && FreshRun(Elements(EntryIds(st.Log())), trials)
    requires st.firstInjectedEviction.Some?
    ensures Run(st, cfg, trials).store.firstInjectedEviction == st.firstInjectedEviction
    decreases |trials|
  {
    if trials != [] {
      TrialLeavesFreshIds(st, cfg, trials);
      LatchIsFinal(RunTrial(st, cfg, trials[0].trialId, trials[0].attempts).store, cfg, trials[1..]);
    }
  }

  /** The latch names exactly the first trial after which the injected root is not live. */
  lemma {:induction false} LatchNamesFirstEviction(st: Store, cfg: Config, trials: seq<Trial>)
    requires Inv(st, cfg) && Shaped(cfg, trials) && FreshRun(Elements(EntryIds(st.Log())), trials)
    requires cfg.injectedRootId.Some? && cfg.injectedRootId.value in EntryIds(st.live)
    ensures Run(st, cfg, trials).store.firstInjectedEviction == FirstTrialWithoutRoot(st, cfg, trials)
    decreases |trials|
  {
    var root := cfg.injectedRootId.value;
    EntryIdsSum(st.evicted, st.live);
    assert root in EntryIds(st.evicted) + EntryIds(st.live);
    RootLiveOrEvicted(st, cfg);
    if trials != [] {
      var first := RunTrial(st, cfg, trials[0].trialId, trials[0].attempts);
      TrialLeavesFreshIds(st, cfg, trials);
      assert first.written[0..] == first.written;
      EntryIdsSum(st.Log(), first.written);
      assert root in EntryIds(st.Log()) + EntryIds(first.written);
      RootLiveOrEvicted(first.store, cfg);
      if root in EntryIds(first.store.live) {
        LatchNamesFirstEviction(first.store, cfg, trials[1..]);
      } else {
        LatchIsFinal(first.store, cfg, trials[1..]);
      }
    }
  }

  // ---- taint ---------------------------------------------------------------------------------------

  /** No contaminated entry carries an explicitly empty source list. */
  ghost predicate NoEmptyContaminated(log: seq<MemoryEntry>) {
    forall i :: 0 <= i < |log| && log[i].taint == Contaminated ==> log[i].sourceEntryIds != Some([])
  }

  lemma {:induction false} AddUniqueGrows(ids: seq<Id>, more: seq<Id>)
    ensures AddUnique(ids, more) == [] <==> ids == [] && more == []
    decreases |more|
  {
    if more != [] {
      AddUniqueGrows(if more[0] in ids then ids else ids + [more[0]], more[1..]);
    }
  }

  ghost predicate Taints(visible: seq<MemoryEntry>, id: Id) {
    var e := LastById(visible, id);
    e.Some? && e.value.taint == Contaminated && TaintSources(e.value) != []
  }

  /** When the adapter marks a write contaminated. */
  lemma {:induction false} ContaminatedSourcesEmpty(visible: seq<MemoryEntry>, usedIds: seq<Id>, found: seq<Id>)
    ensures ContaminatedSources(visible, usedIds, found) == [] <==>
      found == [] && forall id :: id in usedIds ==> !Taints(visible, id)
    decreases |usedIds|
  {
    if usedIds != [] {
      var e := LastById(visible, usedIds[0]);
      var next := if e.Some? && e.value.taint == Contaminated then AddUnique(found, TaintSources(e.value)) else found;
      if e.Some? {
        AddUniqueGrows(found, TaintSources(e.value));
      }
      assert next == [] <==> found == [] && !Taints(visible, usedIds[0]);
      assert ContaminatedSources(visible, usedIds, found) == ContaminatedSources(visible, usedIds[1..], next);
      ContaminatedSourcesEmpty(visible, usedIds[1..], next);
      assert forall id :: id in usedIds <==> id == usedIds[0] || id in usedIds[1..];
    }
  }

  lemma LastByIdUnique(visible: seq<MemoryEntry>, k: nat)
    requires Distinct(EntryIds(visible)) && k < |visible|
    ensures LastById(visible, visible[k].entryId) == Some(visible[k])
  {
    hide Distinct;
    var id := visible[k].entryId;
    var j := LastPosition(visible, k);
    assert EntryIds(visible)[j] == id == EntryIds(visible)[k];
    SamePosition(EntryIds(visible), j, k);
  }

  lemma LastPosition(visible: seq<MemoryEntry>, k: nat) returns (j: nat)
    requires k < |visible|
    ensures j < |visible| && visible[j].entryId == visible[k].entryId
    ensures LastById(visible, visible[k].entryId) == Some(visible[j])
  {
    var id := visible[k].entryId;
    assert EntryIds(visible)[k] == id;
    j :| 0 <= j < |visible| && visible[j] == LastById(visible, id).value && visible[j].entryId == id;
  }

  lemma SamePosition(ids: seq<Id>, i: nat, j: nat)
    requires Distinct(ids) && i < |ids| && j < |ids| && ids[i] == ids[j]
    ensures i == j
  {
  }

  lemma VisibleIsSuffix(st: Store) returns (d: nat)
    ensures d <= |st.Log()| && Visible(st.live) == st.Log()[d..]
  {
    d := |st.Log()| - |Visible(st.live)|;
  }

  lemma TaintsIsUse(log: seq<MemoryEntry>, d: nat, usedIds: seq<Id>, id: Id)
    requires d <= |log| && id in usedIds && Taints(log[d..], id)
    ensures UsesContaminated(log, usedIds)
  {
    var e := LastById(log[d..], id).value;
    var k :| 0 <= k < |log[d..]| && log[d..][k] == e;
    assert log[d + k] == e;
  }

  lemma UseIsTaints(log: seq<MemoryEntry>, d: nat, usedIds: seq<Id>) returns (id: Id)
    requires d <= |log| && Distinct(EntryIds(log)) && NoEmptyContaminated(log[d..])
    requires Elements(usedIds) <= Elements(EntryIds(log[d..])) && UsesContaminated(log, usedIds)
    ensures id in usedIds && Taints(log[d..], id)
  {
    var visible := log[d..];
    var j :| 0 <= j < |log| && log[j].entryId in usedIds && log[j].taint == Contaminated;
    id := log[j].entryId;
    assert id in Elements(usedIds);
    var k :| 0 <= k < |visible| && EntryIds(visible)[k] == id;
    assert visible[k] == log[d + k] && EntryIds(log)[d + k] == EntryIds(log)[j];
    forall x, y | 0 <= x < y < |visible| ensures EntryIds(visible)[x] != EntryIds(visible)[y] {
      assert EntryIds(log)[d + x] != EntryIds(log)[d + y];
    }
    LastByIdUnique(visible, k);
  }

  /** The label of a new reflection follows the labels of the entries it used. */
  lemma NewEntryTaint(st: Store, cfg: Config, p: Payload, trialId: Id, entryId: Id)
    requires Inv(st, cfg) && NoEmptyContaminated(Visible(st.live)) && Acceptable(p, Visible(st.live))
    ensures NewEntry(Visible(st.live), p, trialId, entryId).taint == Contaminated <==>
      UsesContaminated(st.Log(), p.usedIds)
  {
    var d := VisibleIsSuffix(st);
    ContaminatedSourcesEmpty(Visible(st.live), p.usedIds, []);
    if id :| id in p.usedIds && Taints(Visible(st.live), id) {
      TaintsIsUse(st.Log(), d, p.usedIds, id);
    }
    if UsesContaminated(st.Log(), p.usedIds) {
      var id := UseIsTaints(st.Log(), d, p.usedIds);
    }
  }

  /** One write of the given state is labelled by what it uses. */
  ghost predicate LabelsUse(st: Store, p: Payload, trialId: Id, entryId: Id) {
    NewEntry(Visible(st.live), p, trialId, entryId).taint == Contaminated <==> UsesContaminated(st.Log(), p.usedIds)
  }

  /** A visible contaminated entry with an explicitly empty source list launders what is written from it alone. */
  lemma EmptySourcesHideTaint(st: Store, cfg: Config, k: nat, text: string, trialId: Id, entryId: Id)
    requires Inv(st, cfg) && k < |Visible(st.live)|
    requires Visible(st.live)[k].taint == Contaminated && Visible(st.live)[k].sourceEntryIds == Some([])
    ensures var p := Payload(text, [Visible(st.live)[k].entryId]);
      Acceptable(p, Visible(st.live)) && !LabelsUse(st, p, trialId, entryId)
  {
    var d := VisibleIsSuffix(st);
    var visible, log := Visible(st.live), st.Log();
    var id := visible[k].entryId;
    forall x, y | 0 <= x < y < |visible| ensures EntryIds(visible)[x] != EntryIds(visible)[y] {
      assert EntryIds(log)[d + x] != EntryIds(log)[d + y];
    }
    LastByIdUnique(visible, k);
    assert EntryIds(visible)[k] == id;
    ContaminatedSourcesEmpty(visible, [id], []);
    assert log[d + k] == visible[k];
    assert UsesContaminated(log, [id]);
  }

  /** In any reachable state every possible write is labelled by what it uses exactly when no visible contaminated
      entry has an explicitly empty source list. */
  lemma {:induction false} LabelsFollowUseIff(st: Store, cfg: Config, trialId: Id, entryId: Id)
    requires Inv(st, cfg)
    ensures NoEmptyContaminated(Visible(st.live)) <==>
      forall p :: Acceptable(p, Visible(st.live)) ==> LabelsUse(st, p, trialId, entryId)
  {
    hide Visible, NewEntry;
    var visible := Visible(st.live);
    if NoEmptyContaminated(visible) {
      forall p | Acceptable(p, visible) ensures LabelsUse(st, p, trialId, entryId) {
        NewEntryTaint(st, cfg, p, trialId, entryId);
      }
    } else {
      var k :| 0 <= k < |visible| && visible[k].taint == Contaminated && visible[k].sourceEntryIds == Some([]);
      EmptySourcesHideTaint(st, cfg, k, "", trialId, entryId);
    }
  }

  /** Written entries are labelled by their sources, and no entry that can still be used hides its taint. */
  ghost predicate TaintInv(st: Store, start: nat) {
    start <= |st.Log()| && LabelledFromSources(st.Log(), start) && NoEmptyContaminated(Visible(st.live))
  }

  lemma {:induction false} EnforceShrinks(st: Store, cfg: Config, trialId: Id)
    ensures |Enforce(st, cfg, trialId).live| <= |st.live|
    decreases |st.live|
  {
    if cfg.capacity.Some? && |st.live| > cfg.capacity.value {
      EvictedAndKept(st, cfg, trialId);
      EnforceShrinks(EvictOldest(st, cfg, trialId), cfg, trialId);
    }
  }

  lemma VisibleTail(st: Store)
    ensures |Visible(st.live)| == if |st.live| <= 3 then |st.live| else 3
    ensures |Visible(st.live)| <= |st.Log()| && Visible(st.live) == st.Log()[|st.Log()| - |Visible(st.live)|..]
  {
  }

  /** After a write only the new entry and entries that were visible before are visible. */
  lemma NothingOldAppears(st: Store, next: Store, e: MemoryEntry, i: nat)
    requires next.Log() == st.Log() + [e] && |next.live| <= |st.live| + 1 && i < |Visible(next.live)|
    ensures Visible(next.live)[i] == e || Visible(next.live)[i] in Visible(st.live)
  {
    hide Visible;
    VisibleTail(st);
    VisibleTail(next);
    var m, n := |Visible(next.live)|, |Visible(st.live)|;
    var log := st.Log();
    assert Visible(next.live)[i] == next.Log()[|log| + 1 - m + i];
    if i < m - 1 {
      assert Visible(st.live)[n - (m - 1 - i)] == log[|log| - (m - 1 - i)];
    }
  }

  lemma ContaminatedHasSources(visible: seq<MemoryEntry>, p: Payload)
    ensures ContaminatedSources(visible, p.usedIds, []) != [] ==> p.usedIds != []
  {
  }

  lemma VisibleStaysHonest(st: Store, next: Store, e: MemoryEntry)
    requires next.Log() == st.Log() + [e] && |next.live| <= |st.live| + 1
    requires NoEmptyContaminated(Visible(st.live)) && (e.taint == Contaminated ==> e.sourceEntryIds != Some([]))
    ensures NoEmptyContaminated(Visible(next.live))
  {
    hide Visible;
    forall i | 0 <= i < |Visible(next.live)| && Visible(next.live)[i].taint == Contaminated
      ensures Visible(next.live)[i].sourceEntryIds != Some([])
    {
      NothingOldAppears(st, next, e, i);
    }
  }

  lemma WriteKeepsTaint(st: Store, cfg: Config, trialId: Id, p: Payload, entryId: Id, start: nat)
    requires Inv(st, cfg) && entryId !in EntryIds(st.Log()) && Acceptable(p, Visible(st.live))
    requires TaintInv(st, start)
    ensures TaintInv(Write(st, cfg, trialId, NewEntry(Visible(st.live), p, trialId, entryId)), start)
  {
    hide Visible, Enforce, Inv, ContaminatedSources, NoEmptyContaminated, LabelledFromSources;
    var e := NewEntry(Visible(st.live), p, trialId, entryId);
    ReflectKeeps(st, cfg, trialId, p, entryId);
    NewEntryTaint(st, cfg, p, trialId, entryId);
    ContaminatedHasSources(Visible(st.live), p);
    LabelledAppend(st.Log(), start, e);
    EnforceShrinks(st.(live := st.live + [e]), cfg, trialId);
    VisibleStaysHonest(st, Write(st, cfg, trialId, e), e);
  }

  lemma {:induction false} RunFromTaint(
    st: Store, cfg: Config, trialId: Id, attempts: seq<Attempt>, written: seq<MemoryEntry>, start: nat)
    requires Inv(st, cfg) && attempts != [] && FreshIds(Elements(EntryIds(st.Log())), attempts)
    requires written != [] ==> st.live != [] && st.live[|st.live| - 1] == written[|written| - 1]
    requires TaintInv(st, start)
    ensures TaintInv(RunFrom(st, cfg, trialId, attempts, written).store, start)
    decreases |attempts|
  {
    hide NewEntry, Visible, Write, TaintInv, Inv;
    var a := attempts[0];
    var end := EarlyEnd(a, cfg.updateEnabled, Visible(st.live));
    if end.None? {
      var p := a.reflect.payload;
      var e := NewEntry(Visible(st.live), p, trialId, a.entryId);
      ReflectKeeps(st, cfg, trialId, p, a.entryId);
      WriteKeepsTaint(st, cfg, trialId, p, a.entryId, start);
      if |attempts| > 1 {
        var next := Write(st, cfg, trialId, e);
        NewEntryId(Visible(st.live), p, trialId, a.entryId);
        EntryIdsSum(st.Log(), [e]);
        ElementsOfSum(EntryIds(st.Log()), [e.entryId]);
        FreshTail(Elements(EntryIds(st.Log())), attempts);
        RunFromTaint(next, cfg, trialId, attempts[1..], written + [e], start);
      }
    }
  }

  lemma NewEntryId(visible: seq<MemoryEntry>, p: Payload, trialId: Id, entryId: Id)
    ensures NewEntry(visible, p, trialId, entryId).entryId == entryId
  {
  }

  lemma {:induction false} RunKeepsTaint(st: Store, cfg: Config, trials: seq<Trial>, start: nat)
    requires Inv(st, cfg) && Shaped(cfg, trials) && FreshRun(Elements(EntryIds(st.Log())), trials)
    requires TaintInv(st, start)
    ensures TaintInv(Run(st, cfg, trials).store, start)
    decreases |trials|
  {
    hide TaintInv;
    if trials != [] {
      TrialLeavesFreshIds(st, cfg, trials);
      RunFromTaint(st, cfg, trials[0].trialId, trials[0].attempts, [], start);
      RunKeepsTaint(RunTrial(st, cfg, trials[0].trialId, trials[0].attempts).store, cfg, trials[1..], start);
    }
  }

  ghost predicate ExactLabels(log: seq<MemoryEntry>, start: nat) {
    forall i :: 0 <= i < |log| ==> (log[i].taint == Contaminated <==> exists chain :: TaintChain(log, start, i, chain))
  }

  /** Over any run: contaminated iff a chain of source ids leads to a contaminated seed. Only the visible entries of
      the start need honest source lists, since no older entry can be used any more. */
  lemma {:induction false} ReflexionTaintIsExact(st: Store, cfg: Config, trials: seq<Trial>)
    requires Inv(st, cfg) && Shaped(cfg, trials) && FreshRun(Elements(EntryIds(st.Log())), trials)
    requires NoEmptyContaminated(Visible(st.live))
    ensures ExactLabels(Run(st, cfg, trials).store.Log(), |st.Log()|)
  {
    hide Run, Visible, NoEmptyContaminated;
    RunKeepsTaint(st, cfg, trials, |st.Log()|);
    var log := Run(st, cfg, trials).store.Log();
    forall i | 0 <= i < |log|
      ensures log[i].taint == Contaminated <==> exists chain :: TaintChain(log, |st.Log()|, i, chain)
    {
      TaintIsExact(log, |st.Log()|, i);
    }
  }

  // ---- when taint is exact -------------------------------------------------------------------------

  function Longest(ids: seq<Id>): nat {
    if ids == [] then 0
    else
      var rest := Longest(ids[1..]);
      if |ids[0]| > rest then |ids[0]| else rest
  }

  lemma {:induction false} LongestBounds(ids: seq<Id>, id: Id)
    requires id in ids
    ensures |id| <= Longest(ids)
  {
    if id != ids[0] {
      LongestBounds(ids[1..], id);
    }
  }

  function Xs(n: nat): string {
    seq(n, i => 'x')
  }

  lemma LongIsFresh(ids: seq<Id>, n: nat)
    requires n > Longest(ids)
    ensures Xs(n) !in ids
  {
    if Xs(n) in ids {
      LongestBounds(ids, Xs(n));
    }
  }

  /** One trial that writes a reflection with the payload and then, if it has another attempt, fails to call. */
  function WritingTrial(cfg: Config, p: Payload, first: Id, second: Id): Trial {
    var a := Attempt(Answered("x"), Incorrect, Parsed(p), first);
    Trial("t", if cfg.maxAttempts == 1 then [a] else [a, Attempt(CallFailed, Incorrect, ReflectFailed, second)])
  }

  lemma WritingTrialWrites(st: Store, cfg: Config, p: Payload, first: Id, second: Id)
    requires ValidConfig(cfg) && cfg.updateEnabled && Acceptable(p, Visible(st.live)) && first !in p.usedIds
    ensures Shaped(cfg, [WritingTrial(cfg, p, first, second)])
    ensures Run(st, cfg, [WritingTrial(cfg, p, first, second)]).store ==
      Write(st, cfg, "t", NewEntry(Visible(st.live), p, "t", first))
  {
    hide Write, NewEntry, Visible;
    var t := WritingTrial(cfg, p, first, second);
    var e := NewEntry(Visible(st.live), p, "t", first);
    var next := Write(st, cfg, "t", e);
    assert [t][1..] == [];
    assert Run(st, cfg, [t]).store == RunTrial(st, cfg, "t", t.attempts).store;
    if cfg.maxAttempts == 2 {
      var b := Attempt(CallFailed, Incorrect, ReflectFailed, second);
      assert t.attempts[1..] == [b];
      assert AttemptStep(st, cfg, "t", t.attempts[0], false, []) == Next(next, e);
      assert AttemptStep(next, cfg, "t", b, true, [] + [e]) ==
        Ended(Finish(next, [] + [e], Failed(ProviderCallFailed)));
      assert RunFrom(next, cfg, "t", [b], [] + [e]) == Finish(next, [] + [e], Failed(ProviderCallFailed));
    }
  }

  lemma WritingTrialIsFresh(ids: seq<Id>, cfg: Config, p: Payload)
    ensures FreshRun(Elements(ids), [WritingTrial(cfg, p, Xs(Longest(ids) + 1), Xs(Longest(ids) + 2))])
  {
    hide Xs;
    LongIsFresh(ids, Longest(ids) + 1);
    LongIsFresh(ids, Longest(ids) + 2);
    DifferentLengths(Longest(ids) + 1, Longest(ids) + 2);
    var t := WritingTrial(cfg, p, Xs(Longest(ids) + 1), Xs(Longest(ids) + 2));
    assert [t][1..] == [];
  }

  lemma DifferentLengths(m: nat, n: nat)
    requires m != n
    ensures Xs(m) != Xs(n)
  {
    assert |Xs(m)| == m && |Xs(n)| == n;
  }

  /** A clean entry with a contaminated source in the seeds is labelled wrongly. */
  lemma CleanWithSourceIsWrong(log: seq<MemoryEntry>, j: nat, e: MemoryEntry)
    requires j < |log| && log[j].taint == Contaminated && log[j].entryId in SourcesOf(e) && e.taint == Clean
    ensures !ExactLabels(log + [e], |log|)
  {
    var more, n := log + [e], |log|;
    assert more[n] == e && more[j] == log[j];
    OneStepChain(more, n, j);
  }

  lemma OneStepChain(log: seq<MemoryEntry>, start: nat, j: nat)
    requires j < start < |log| && log[j].taint == Contaminated && log[j].entryId in SourcesOf(log[start])
    ensures TaintChain(log, start, start, [start, j])
  {
    assert HasSource(log, start, j);
    var chain := [start, j];
    assert chain[0] == start && chain[1] == j;
  }

  /** From any state of a run: all further runs label exactly if and only if nothing will be written, or no visible
      contaminated entry carries an explicitly empty source list. */
  lemma {:induction false} ReflexionTaintIsExactIff(st: Store, cfg: Config)
    requires Inv(st, cfg)
    ensures
      (forall trials :: Shaped(cfg, trials) && FreshRun(Elements(EntryIds(st.Log())), trials) ==>
        ExactLabels(Run(st, cfg, trials).store.Log(), |st.Log()|))
      <==> !cfg.updateEnabled || NoEmptyContaminated(Visible(st.live))
  {
    hide Run, Visible, ExactLabels, Shaped, FreshRun, Inv, NoEmptyContaminated;
    if !cfg.updateEnabled || NoEmptyContaminated(Visible(st.live)) {
      forall trials | Shaped(cfg, trials) && FreshRun(Elements(EntryIds(st.Log())), trials)
        ensures ExactLabels(Run(st, cfg, trials).store.Log(), |st.Log()|)
      {
        if cfg.updateEnabled {
          ReflexionTaintIsExact(st, cfg, trials);
        } else {
          NoUpdatesNoWrites(st, cfg, trials);
          SeedsAreExact(st.Log());
        }
      }
    } else {
      var t := LaunderingTrial(st, cfg);
    }
  }

  lemma SeedsAreExact(log: seq<MemoryEntry>)
    ensures ExactLabels(log, |log|)
  {
    forall i | 0 <= i < |log|
      ensures log[i].taint == Contaminated <==> exists chain :: TaintChain(log, |log|, i, chain)
    {
      TaintIsExact(log, |log|, i);
    }
  }

  lemma {:induction false} NoUpdatesNoWrites(st: Store, cfg: Config, trials: seq<Trial>)
    requires !cfg.updateEnabled && Shaped(cfg, trials)
    ensures Run(st, cfg, trials).store == st
    decreases |trials|
  {
    hide Finish, Visible;
    if trials != [] {
      FinishKeepsStore(st, [], EarlyEnd(trials[0].attempts[0], false, Visible(st.live)).value);
      NoUpdatesNoWrites(st, cfg, trials[1..]);
    }
  }

  lemma FinishKeepsStore(st: Store, written: seq<MemoryEntry>, end: Outcome)
    ensures Finish(st, written, end).store == st
  {
  }

  /** A run of one trial whose entry uses only a contaminated entry with an explicitly empty source list. */
  lemma LaunderingTrial(st: Store, cfg: Config) returns (trials: seq<Trial>)
    requires Inv(st, cfg) && cfg.updateEnabled && !NoEmptyContaminated(Visible(st.live))
    ensures Shaped(cfg, trials) && FreshRun(Elements(EntryIds(st.Log())), trials)
    ensures !ExactLabels(Run(st, cfg, trials).store.Log(), |st.Log()|)
  {
    hide Run, Visible, ExactLabels, Shaped, FreshRun, Xs, Longest, ContaminatedSources, Write;
    var visible, ids := Visible(st.live), EntryIds(st.Log());
    var k :| 0 <= k < |visible| && visible[k].taint == Contaminated && visible[k].sourceEntryIds == Some([]);
    var p := Payload("", [visible[k].entryId]);
    var first, second := Xs(Longest(ids) + 1), Xs(Longest(ids) + 2);
    var e := NewEntry(visible, p, "t", first);
    EmptySourcesHideTaint(st, cfg, k, "", "t", first);
    LongIsFresh(ids, Longest(ids) + 1);
    ReflectKeeps(st, cfg, "t", p, first);
    WritingTrialIsFresh(ids, cfg, p);
    WritingTrialWrites(st, cfg, p, first, second);
    trials := [WritingTrial(cfg, p, first, second)];
    var d := VisibleIsSuffix(st);
    assert st.Log()[d + k] == visible[k];
    assert UsesContaminated(st.Log(), p.usedIds);
    CleanWithSourceIsWrong(st.Log(), d + k, e);
  }
}
