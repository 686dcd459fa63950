/**
 The lineage part of the phase-11 log validator: edges are collected in trial order under the chronology
 checks, the exact derived entries are checked, and the collected graph is searched for a cycle.
 */
module LineageValidation {
  import opened Common
  import opened Lineage
  import opened Sorting

  /** A logged memory row; an absent metadata key is None and a missing root list is empty. */
  datatype Entry = Entry(
    entryId: Option<Id>, contaminationClass: Option<string>, lineageStatus: Option<string>,
    injectedRootIds: seq<Id>)

  datatype Edge = Edge(child: Id, parent: Id, status: string, relation: string, basis: string, roots: seq<Id>)

  datatype MemoryEvent = MemoryEvent(trialId: Id, edges: seq<Edge>)

  datatype Trial = Trial(trialId: Id, trialSeq: Option<int>, before: seq<Entry>, after: seq<Entry>)

  datatype CheckError =
    | UnknownChild(child: Id, trialId: Id)
    | UnknownParent(parent: Id, trialId: Id)
    | RootNotInjected(root: Id)
    | DerivedRootUnknown(entry: Id, root: Id)
    | CyclicEdge(entry: Id)

  function Ids(rows: seq<Entry>): (r: set<Id>)
    ensures forall x :: x in r <==> exists i :: 0 <= i < |rows| && rows[i].entryId == Some(x)
  {
    set i | 0 <= i < |rows| && rows[i].entryId.Some? :: rows[i].entryId.value
  }

  /** The first row with the given id: what `setdefault` keeps. */
  function FirstWith(rows: seq<Entry>, id: Id): Option<Entry> {
    if rows == [] then None
    else if rows[0].entryId == Some(id) then Some(rows[0])
    else FirstWith(rows[1..], id)
  }

  function AllRows(trials: seq<Trial>): seq<Entry> {
    if trials == [] then [] else trials[0].before + trials[0].after + AllRows(trials[1..])
  }

  predicate IsInjected(rows: seq<Entry>, root: Id) {
    var e := FirstWith(rows, root);
    e.Some? && e.value.contaminationClass == Some("injected")
  }

  function FirstNotInjected(rows: seq<Entry>, roots: seq<Id>): Option<Id> {
    if roots == [] then None
    else if !IsInjected(rows, roots[0]) then Some(roots[0])
    else FirstNotInjected(rows, roots[1..])
  }

  // ---- trial order -------------------------------------------------------------------------------

  function SeqKey(t: Trial): int {
    if t.trialSeq.Some? then t.trialSeq.value else 0
  }

  function TrialOrder(): Order<Trial> {
    (s: Trial, t: Trial) => SeqKey(s) <= SeqKey(t)
  }

  function WithKey(k: int): Trial -> bool {
    (x: Trial) => SeqKey(x) == k
  }

  /** The stable sort by trial_seq. */
  function Chronological(trials: seq<Trial>): seq<Trial> {
    Sort(TrialOrder(), trials)
  }

  /** The order is increasing in trial_seq, a missing one reading as zero, is a permutation, and keeps trials with
      equal keys in their input order. */
  lemma ChronologicalIsStableSort(trials: seq<Trial>, k: int)
    ensures forall i, j :: 0 <= i < j < |Chronological(trials)| ==>
      var s, t := Chronological(trials)[i].trialSeq, Chronological(trials)[j].trialSeq;
      (if s.Some? then s.value else 0) <= if t.Some? then t.value else 0
    ensures multiset(Chronological(trials)) == multiset(trials)
    ensures Filter(WithKey(k), Chronological(trials)) == Filter(WithKey(k), trials)
  {
    SortSorts(TrialOrder(), trials);
    SortIsStable(TrialOrder(), WithKey(k), trials);
    forall i, j | 0 <= i < j < |Chronological(trials)|
      ensures SeqKey(Chronological(trials)[i]) <= SeqKey(Chronological(trials)[j])
    {
      assert TrialOrder()(Chronological(trials)[i], Chronological(trials)[j]);
    }
  }

  // ---- what the validator should accept ------------------------------------------------------------

  function EdgesOf(events: seq<MemoryEvent>, trialId: Id): seq<Edge> {
    if events == [] then []
    else (if events[0].trialId == trialId then events[0].edges else []) + EdgesOf(events[1..], trialId)
  }

  /** The ids that some trial before position k of the order has left in memory. */
  function Known(order: seq<Trial>, k: nat): set<Id>
    requires k <= |order|
  {
    if k == 0 then {} else Known(order, k - 1) + Ids(order[k - 1].after)
  }

  function EdgeError(rows: seq<Entry>, order: seq<Trial>, k: nat, e: Edge): Option<CheckError>
    requires k < |order|
  {
    if e.status != "exact" then None
    else if e.child !in Ids(order[k].after) then Some(UnknownChild(e.child, order[k].trialId))
    else if e.parent !in Known(order, k) + Ids(order[k].before) then
      Some(UnknownParent(e.parent, order[k].trialId))
    else
      match FirstNotInjected(rows, e.roots)
      case Some(root) => Some(RootNotInjected(root))
      case None => None
  }

  predicate Contributes(e: Edge) {
    e.status == "exact" && !(e.relation == "version_edge" && e.basis == "version_edge")
  }

  ghost function RowPairs(edges: seq<Edge>, j: nat): set<(Id, Id)>
    requires j <= |edges|
  {
    set i | 0 <= i < j && Contributes(edges[i]) :: (edges[i].child, edges[i].parent)
  }

  ghost function Pairs(order: seq<Trial>, events: seq<MemoryEvent>, k: nat): set<(Id, Id)>
    requires k <= |order|
  {
    if k == 0 then {}
    else
      var edges := EdgesOf(events, order[k - 1].trialId);
      Pairs(order, events, k - 1) + RowPairs(edges, |edges|)
  }

  ghost function Sources(pairs: set<(Id, Id)>): set<Id> {
    set e | e in pairs :: e.0
  }

  ghost function Targets(pairs: set<(Id, Id)>, c: Id): set<Id> {
    set e | e in pairs && e.0 == c :: e.1
  }

  ghost function GraphOf(pairs: set<(Id, Id)>): Graph {
    map c | c in Sources(pairs) :: Targets(pairs, c)
  }

  ghost function AcceptedGraph(trials: seq<Trial>, events: seq<MemoryEvent>): Graph {
    var order := Chronological(trials);
    GraphOf(Pairs(order, events, |order|))
  }

  ghost predicate EdgesAreChronological(trials: seq<Trial>, events: seq<MemoryEvent>) {
    var order := Chronological(trials);
    forall k, e :: 0 <= k < |order| && e in EdgesOf(events, order[k].trialId) ==>
      EdgeError(AllRows(trials), order, k, e) == None
  }

  ghost predicate EarlierTrialsPass(rows: seq<Entry>, order: seq<Trial>, events: seq<MemoryEvent>, k: nat)
    requires k <= |order|
  {
    forall i, e :: 0 <= i < k && e in EdgesOf(events, order[i].trialId) ==> EdgeError(rows, order, i, e) == None
  }

  ghost predicate FirstFailure(rows: seq<Entry>, order: seq<Trial>, k: nat, logged: seq<Edge>, error: CheckError)
    requires k < |order|
  {
    exists j :: 0 <= j < |logged| && EdgeError(rows, order, k, logged[j]) == Some(error) &&
      forall i :: 0 <= i < j ==> EdgeError(rows, order, k, logged[i]) == None
  }

  /** The error of the first edge that breaks a rule, in the order of the checks. */
  ghost predicate FirstFailsWith(trials: seq<Trial>, events: seq<MemoryEvent>, error: CheckError) {
    var rows, order := AllRows(trials), Chronological(trials);
    exists k :: 0 <= k < |order| && EarlierTrialsPass(rows, order, events, k) &&
      FirstFailure(rows, order, k, EdgesOf(events, order[k].trialId), error)
  }

  predicate DerivedExact(e: Entry) {
    e.contaminationClass == Some("derived") && e.lineageStatus == Some("exact")
  }

  ghost predicate DerivedRootsInjected(rows: seq<Entry>) {
    forall id :: (var e := FirstWith(rows, id);
      e.Some? && DerivedExact(e.value) ==> FirstNotInjected(rows, e.value.injectedRootIds) == None)
  }

  // ---- the validator -------------------------------------------------------------------------------

  lemma FirstWithAppend(rows: seq<Entry>, e: Entry, id: Id)
    ensures FirstWith(rows + [e], id) ==
      if FirstWith(rows, id).Some? then FirstWith(rows, id)
      else if e.entryId == Some(id) then Some(e) else None
  {
    if rows == [] {
      assert rows + [e] == [e];
    } else {
      assert (rows + [e])[1..] == rows[1..] + [e];
      FirstWithAppend(rows[1..], e, id);
    }
  }

  ghost predicate Indexes(entries: map<Id, Entry>, rows: seq<Entry>) {
    forall id :: FirstWith(rows, id) == if id in entries then Some(entries[id]) else None
  }

  method IndexEntries(rows: seq<Entry>) returns (entries: map<Id, Entry>)
    ensures Indexes(entries, rows)
  {
    entries := map[];
    for i := 0 to |rows|
      invariant Indexes(entries, rows[..i])
    {
      var entryId := rows[i].entryId;
      forall id { FirstWithAppend(rows[..i], rows[i], id); }
      assert rows[..i + 1] == rows[..i] + [rows[i]];
      if entryId.Some? && entryId.value !in entries {
        entries := entries[entryId.value := rows[i]];
      }
    }
    assert rows[..|rows|] == rows;
  }

  method CheckRoots(entries: map<Id, Entry>, ghost rows: seq<Entry>, roots: seq<Id>) returns (bad: Option<Id>)
    requires Indexes(entries, rows)
    ensures bad == FirstNotInjected(rows, roots)
  {
    for i := 0 to |roots|
      invariant FirstNotInjected(rows, roots) == FirstNotInjected(rows, roots[i..])
    {
      assert roots[i..][1..] == roots[i + 1..];
      assert FirstWith(rows, roots[i]) == if roots[i] in entries then Some(entries[roots[i]]) else None;
      if roots[i] !in entries || entries[roots[i]].contaminationClass != Some("injected") {
        return Some(roots[i]);
      }
    }
    return None;
  }

  lemma ParentsOfGraph(pairs: set<(Id, Id)>, c: Id, p: Id)
    ensures p in Parents(GraphOf(pairs), c) <==> (c, p) in pairs
  {
    if (c, p) in pairs {
      assert c in Sources(pairs);
    }
  }

  lemma GraphOfAdd(pairs: set<(Id, Id)>, c: Id, p: Id)
    ensures GraphOf(pairs + {(c, p)}) == GraphOf(pairs)[c := Parents(GraphOf(pairs), c) + {p}]
  {
    var g, h := GraphOf(pairs), GraphOf(pairs + {(c, p)});
    assert (c, p) in pairs + {(c, p)};
    assert Sources(pairs + {(c, p)}) == Sources(pairs) + {c};
    forall x | x in h ensures h[x] == g[c := Parents(g, c) + {p}][x] {
      forall q ensures q in h[x] <==> q in g[c := Parents(g, c) + {p}][x] {
        ParentsOfGraph(pairs, x, q);
        ParentsOfGraph(pairs + {(c, p)}, x, q);
      }
    }
  }

  method CheckEdge(
    entries: map<Id, Entry>, order: seq<Trial>, ghost rows: seq<Entry>, k: nat, known: set<Id>, edge: Edge)
    returns (error: Option<CheckError>)
    requires Indexes(entries, rows) && k < |order| && known == Known(order, k)
    ensures error == EdgeError(rows, order, k, edge)
  {
    var trial := order[k];
    if edge.status != "exact" {
      return None;
    }
    if edge.child !in Ids(trial.after) {
      return Some(UnknownChild(edge.child, trial.trialId));
    }
    if edge.parent !in known + Ids(trial.before) {
      return Some(UnknownParent(edge.parent, trial.trialId));
    }
    var bad := CheckRoots(entries, rows, edge.roots);
    if bad.Some? {
      return Some(RootNotInjected(bad.value));
    }
    return None;
  }

  lemma RowPairsStep(edges: seq<Edge>, j: nat)
    requires j < |edges|
    ensures RowPairs(edges, j + 1) ==
      RowPairs(edges, j) + (if Contributes(edges[j]) then {(edges[j].child, edges[j].parent)} else {})
  {
  }

  lemma NoRowPairs(edges: seq<Edge>)
    ensures RowPairs(edges, 0) == {}
  {
  }

  method AddEdge(edges: Graph, ghost pairs: set<(Id, Id)>, child: Id, parent: Id) returns (more: Graph)
    requires edges == GraphOf(pairs)
    ensures more == GraphOf(pairs + {(child, parent)})
  {
    GraphOfAdd(pairs, child, parent);
    var parents := if child in edges then edges[child] else {};
    more := edges[child := parents + {parent}];
  }

  /** The edges that one trial logged, added to the graph unless one of them breaks the chronology. */
  method CollectTrial(
    entries: map<Id, Entry>, ghost rows: seq<Entry>, order: seq<Trial>, k: nat, known: set<Id>,
    logged: seq<Edge>, before: Graph, ghost pairs: set<(Id, Id)>)
    returns (error: Option<CheckError>, edges: Graph)
    requires Indexes(entries, rows) && k < |order| && known == Known(order, k) && before == GraphOf(pairs)
    ensures error.None? ==> edges == GraphOf(pairs + RowPairs(logged, |logged|))
    ensures error.None? ==> forall e :: e in logged ==> EdgeError(rows, order, k, e) == None
    ensures error.Some? ==> FirstFailure(rows, order, k, logged, error.value)
  {
    hide EdgeError, Contributes, GraphOf, RowPairs, Known;
    edges := before;
    NoRowPairs(logged);
    ghost var collected := pairs;
    for j := 0 to |logged|
      invariant edges == GraphOf(collected) && collected == pairs + RowPairs(logged, j)
      invariant forall i :: 0 <= i < j ==> EdgeError(rows, order, k, logged[i]) == None
    {
      error := CheckEdge(entries, order, rows, k, known, logged[j]);
      if error.Some? {
        return;
      }
      RowPairsStep(logged, j);
      if Contributes(logged[j]) {
        edges := AddEdge(edges, collected, logged[j].child, logged[j].parent);
        collected := collected + {(logged[j].child, logged[j].parent)};
      }
    }
    error := None;
  }

  lemma EdgeErrorsOnly(rows: seq<Entry>, order: seq<Trial>, k: nat, logged: seq<Edge>, error: CheckError)
    requires k < |order| && FirstFailure(rows, order, k, logged, error)
    ensures !error.CyclicEdge? && !error.DerivedRootUnknown?
  {
  }

  lemma NoPairs()
    ensures GraphOf({}) == map[]
  {
  }

  /** Collects the exact non-version edges; raises on the first edge that breaks the chronology. */
  method CollectEdges(trials: seq<Trial>, events: seq<MemoryEvent>, entries: map<Id, Entry>)
    returns (r: Result<Graph, CheckError>)
    requires Indexes(entries, AllRows(trials))
    ensures r.Ok? <==> EdgesAreChronological(trials, events)
    ensures r.Ok? ==> r.value == AcceptedGraph(trials, events)
    ensures r.Err? ==> FirstFailsWith(trials, events, r.error) && !r.error.CyclicEdge? && !r.error.DerivedRootUnknown?
  {
    hide EdgeError, EdgesOf, Chronological, AllRows, GraphOf, RowPairs, Ids, Indexes;
    NoPairs();
    var order := Chronological(trials);
    ghost var rows := AllRows(trials);
    var edges: Graph := map[];
    var known := {};
    for k := 0 to |order|
      invariant known == Known(order, k) && edges == GraphOf(Pairs(order, events, k))
      invariant EarlierTrialsPass(rows, order, events, k)
    {
      var error, more := CollectTrial(
        entries, rows, order, k, known, EdgesOf(events, order[k].trialId), edges, Pairs(order, events, k));
      if error.Some? {
        EdgeErrorsOnly(rows, order, k, EdgesOf(events, order[k].trialId), error.value);
        return Err(error.value);
      }
      edges := more;
      known := known + Ids(order[k].after);
    }
    return Ok(edges);
  }

  /** Accepts a log exactly when all three requirements hold, and otherwise reports the first one that fails. */
  method ValidateLineage(trials: seq<Trial>, events: seq<MemoryEvent>) returns (r: Option<CheckError>)
    ensures r.None? <==>
      EdgesAreChronological(trials, events) &&
      DerivedRootsInjected(AllRows(trials)) &&
      !Cyclic(AcceptedGraph(trials, events))
    ensures r.Some? ==>
      match r.value
      case CyclicEdge(x) => (
        EdgesAreChronological(trials, events) && DerivedRootsInjected(AllRows(trials)) &&
        exists p :: IsCycle(AcceptedGraph(trials, events), p) && p[0] == x)
      case DerivedRootUnknown(id, root) => (
        EdgesAreChronological(trials, events) &&
        exists e :: FirstWith(AllRows(trials), id) == Some(e) && e.contaminationClass == Some("derived") &&
          e.lineageStatus == Some("exact") && FirstNotInjected(AllRows(trials), e.injectedRootIds) == Some(root))
      case _ => FirstFailsWith(trials, events, r.value)
    ensures r.None? ==>
      forall id, e, root ::
        (FirstWith(AllRows(trials), id) == Some(e) && e.contaminationClass == Some("derived") &&
         e.lineageStatus == Some("exact") && root in e.injectedRootIds) ==> IsInjected(AllRows(trials), root)
  {
    hide IsInjected, FirstWith;
    var rows := AllRows(trials);
    var entries := IndexEntries(rows);
    var collected := CollectEdges(trials, events, entries);
    if collected.Err? {
      return Some(collected.error);
    }
    var todo := entries.Keys;
    while todo != {}
      invariant todo <= entries.Keys
      invariant forall id :: id in entries.Keys - todo && DerivedExact(entries[id]) ==>
        FirstNotInjected(rows, entries[id].injectedRootIds) == None
      decreases todo
    {
      var entryId :| entryId in todo;
      todo := todo - {entryId};
      var entry := entries[entryId];
      assert FirstWith(rows, entryId) == Some(entry);
      if DerivedExact(entry) {
        var bad := CheckRoots(entries, rows, entry.injectedRootIds);
        if bad.Some? {
          return Some(DerivedRootUnknown(entryId, bad.value));
        }
      }
    }
    assert DerivedRootsInjected(rows) by {
      forall id | FirstWith(rows, id).Some? ensures id in entries && FirstWith(rows, id) == Some(entries[id]) {}
    }
    forall id, e, root |
      FirstWith(rows, id) == Some(e) && e.contaminationClass == Some("derived") && e.lineageStatus == Some("exact") &&
      root in e.injectedRootIds
      ensures IsInjected(rows, root)
    {
      FirstNotInjectedIs(rows, e.injectedRootIds);
    }
    var check := new CycleCheck(collected.value);
    var raised := check.CheckAll();
    if raised.Some? {
      return Some(CyclicEdge(raised.value));
    }
    return None;
  }

  // ---- what the rules mean -------------------------------------------------------------------------

  /** The logged row of an id is the first one with it. */
  lemma {:induction false} FirstWithIs(rows: seq<Entry>, id: Id, e: Entry)
    ensures FirstWith(rows, id) == Some(e) <==>
      exists i :: 0 <= i < |rows| && rows[i] == e && rows[i].entryId == Some(id) &&
        forall j :: 0 <= j < i ==> rows[j].entryId != Some(id)
  {
    if rows != [] && rows[0].entryId != Some(id) {
      var rest := rows[1..];
      FirstWithIs(rest, id, e);
      if FirstWith(rest, id) == Some(e) {
        var i :| 0 <= i < |rest| && rest[i] == e && rest[i].entryId == Some(id) &&
          forall j :: 0 <= j < i ==> rest[j].entryId != Some(id);
        assert rows[i + 1] == e;
        assert forall j :: 0 < j < i + 1 ==> rows[j] == rest[j - 1];
      }
      if exists i :: 0 <= i < |rows| && rows[i] == e && rows[i].entryId == Some(id) &&
          forall j :: 0 <= j < i ==> rows[j].entryId != Some(id)
      {
        var i :| 0 <= i < |rows| && rows[i] == e && rows[i].entryId == Some(id) &&
          forall j :: 0 <= j < i ==> rows[j].entryId != Some(id);
        assert rest[i - 1] == e;
        assert forall j :: 0 <= j < i - 1 ==> rest[j] == rows[j + 1];
      }
    } else if rows != [] {
      assert FirstWith(rows, id) == Some(rows[0]);
    }
  }

  /** An injected root is one whose first logged row says so. */
  lemma IsInjectedIff(rows: seq<Entry>, root: Id)
    ensures IsInjected(rows, root) <==>
      exists i :: 0 <= i < |rows| && rows[i].entryId == Some(root) &&
        rows[i].contaminationClass == Some("injected") && forall j :: 0 <= j < i ==> rows[j].entryId != Some(root)
  {
    hide FirstWith;
    if IsInjected(rows, root) {
      FirstWithIs(rows, root, FirstWith(rows, root).value);
    }
    if exists i :: 0 <= i < |rows| && rows[i].entryId == Some(root) &&
        rows[i].contaminationClass == Some("injected") && forall j :: 0 <= j < i ==> rows[j].entryId != Some(root)
    {
      var i :| 0 <= i < |rows| && rows[i].entryId == Some(root) &&
        rows[i].contaminationClass == Some("injected") && forall j :: 0 <= j < i ==> rows[j].entryId != Some(root);
      FirstWithIs(rows, root, rows[i]);
    }
  }

  lemma {:induction false} FirstNotInjectedIs(rows: seq<Entry>, roots: seq<Id>)
    ensures match FirstNotInjected(rows, roots)
      case None => forall root :: root in roots ==> IsInjected(rows, root)
      case Some(bad) => (
        exists i :: 0 <= i < |roots| && roots[i] == bad && !IsInjected(rows, bad) &&
          forall j :: 0 <= j < i ==> IsInjected(rows, roots[j]))
  {
    hide IsInjected;
    if roots != [] && IsInjected(rows, roots[0]) {
      FirstNotInjectedIs(rows, roots[1..]);
      if FirstNotInjected(rows, roots).Some? {
        var rest, bad := roots[1..], FirstNotInjected(rows, roots).value;
        var i :| 0 <= i < |rest| && rest[i] == bad && !IsInjected(rows, bad) &&
          forall j :: 0 <= j < i ==> IsInjected(rows, rest[j]);
        assert roots[i + 1] == bad;
        assert forall j :: 0 < j < i + 1 ==> roots[j] == rest[j - 1];
      } else {
        assert forall root :: root in roots <==> root == roots[0] || root in roots[1..];
      }
    }
  }

  /** Rows are read in log order, a trial's memory before it first. */
  lemma {:induction false} RowsInLogOrder(trials: seq<Trial>, t: Trial)
    ensures AllRows(trials + [t]) == AllRows(trials) + (t.before + t.after)
  {
    if trials == [] {
      assert (trials + [t])[1..] == [];
    } else {
      assert (trials + [t])[1..] == trials[1..] + [t];
      RowsInLogOrder(trials[1..], t);
    }
  }

  function OwnEdges(v: MemoryEvent, id: Id): seq<Edge> {
    if v.trialId == id then v.edges else []
  }

  lemma {:induction false} EdgesInLogOrder(events: seq<MemoryEvent>, v: MemoryEvent, id: Id)
    ensures EdgesOf(events + [v], id) == EdgesOf(events, id) + if v.trialId == id then v.edges else []
  {
    hide OwnEdges;
    EdgesStep(events + [v], id);
    OwnEdgesIs(v, id);
    if events == [] {
      assert (events + [v])[1..] == [];
    } else {
      EdgesStep(events, id);
      assert (events + [v])[1..] == events[1..] + [v];
      EdgesInLogOrder(events[1..], v, id);
      assert OwnEdges(events[0], id) + (EdgesOf(events[1..], id) + OwnEdges(v, id)) ==
        OwnEdges(events[0], id) + EdgesOf(events[1..], id) + OwnEdges(v, id);
    }
  }

  lemma OwnEdgesIs(v: MemoryEvent, id: Id)
    ensures OwnEdges(v, id) == if v.trialId == id then v.edges else []
  {
  }

  lemma EdgesStep(events: seq<MemoryEvent>, id: Id)
    requires events != []
    ensures EdgesOf(events, id) == OwnEdges(events[0], id) + EdgesOf(events[1..], id)
  {
  }

  lemma {:induction false} KnownIff(order: seq<Trial>, k: nat, id: Id)
    requires k <= |order|
    ensures id in Known(order, k) <==> exists i, r :: 0 <= i < k && r in order[i].after && r.entryId == Some(id)
  {
    if id in Known(order, k) {
      var i := KnownIsEarlier(order, k, id);
      var j :| 0 <= j < |order[i].after| && order[i].after[j].entryId == Some(id);
      assert order[i].after[j] in order[i].after;
    }
    if i, r :| 0 <= i < k && r in order[i].after && r.entryId == Some(id) {
      LaterKnows(order, i, k, id);
    }
  }

  lemma {:induction false} LaterKnows(order: seq<Trial>, i: nat, k: nat, id: Id)
    requires i < k <= |order| && id in Ids(order[i].after)
    ensures id in Known(order, k)
  {
    if i < k - 1 {
      LaterKnows(order, i, k - 1, id);
    }
  }

  lemma IdsIff(rows: seq<Entry>, id: Id)
    ensures id in Ids(rows) <==> exists r :: r in rows && r.entryId == Some(id)
  {
    if id in Ids(rows) {
      var i :| 0 <= i < |rows| && rows[i].entryId == Some(id);
      assert rows[i] in rows;
    }
  }

  /** Which rule an edge breaks first, and that it breaks none otherwise. */
  lemma EdgeErrorNamesRule(rows: seq<Entry>, order: seq<Trial>, k: nat, e: Edge)
    requires k < |order|
    ensures
      var childLeft := exists r :: r in order[k].after && r.entryId == Some(e.child);
      var parentShown := exists r :: r in order[k].before && r.entryId == Some(e.parent);
      var parentLeft := exists i, r :: 0 <= i < k && r in order[i].after && r.entryId == Some(e.parent);
      match EdgeError(rows, order, k, e)
      case None => (
        e.status == "exact" ==>
          childLeft && (parentShown || parentLeft) && forall root :: root in e.roots ==> IsInjected(rows, root))
      case Some(UnknownChild(c, t)) => e.status == "exact" && !childLeft && c == e.child && t == order[k].trialId
      case Some(UnknownParent(p, t)) => (
        e.status == "exact" && childLeft && !parentShown && !parentLeft && p == e.parent && t == order[k].trialId)
      case Some(RootNotInjected(root)) => (
        e.status == "exact" && childLeft && (parentShown || parentLeft) && root in e.roots && !IsInjected(rows, root))
      case Some(_) => false
  {
    hide IsInjected, Known, Ids, FirstNotInjected;
    IdsIff(order[k].after, e.child);
    IdsIff(order[k].before, e.parent);
    KnownIff(order, k, e.parent);
    FirstNotInjectedIs(rows, e.roots);
  }

  lemma {:induction false} EdgesOfIff(events: seq<MemoryEvent>, id: Id, e: Edge)
    ensures e in EdgesOf(events, id) <==> exists v :: v in events && v.trialId == id && e in v.edges
  {
    if events != [] {
      EdgesOfIff(events[1..], id, e);
      assert forall v :: v in events <==> v == events[0] || v in events[1..];
    }
  }

  /** The graph that is searched: the exact edges of all trials except the version edges. */
  lemma {:induction false} AcceptedEdgesIff(trials: seq<Trial>, events: seq<MemoryEvent>, c: Id, p: Id)
    ensures p in Parents(AcceptedGraph(trials, events), c) <==>
      exists t, v, e :: t in trials && v in events && v.trialId == t.trialId && e in v.edges &&
        e.child == c && e.parent == p && e.status == "exact" &&
        !(e.relation == "version_edge" && e.basis == "version_edge")
  {
    hide Chronological, EdgesOf, GraphOf, Pairs, Parents;
    var order := Chronological(trials);
    ParentsOfGraph(Pairs(order, events, |order|), c, p);
    SameTrials(trials);
    if (c, p) in Pairs(order, events, |order|) {
      var i, e := PairHasEdge(order, events, |order|, c, p);
      EdgesOfIff(events, order[i].trialId, e);
      assert order[i] in trials;
    }
    if t, v, e :|
      t in trials && v in events && v.trialId == t.trialId && e in v.edges && e.child == c && e.parent == p &&
      Contributes(e)
    {
      EdgesOfIff(events, t.trialId, e);
      assert t in order;
      var k :| 0 <= k < |order| && order[k] == t;
      EdgeIsPair(order, events, k, |order|, e);
    }
  }

  lemma SameTrials(trials: seq<Trial>)
    ensures forall t :: t in trials <==> t in Chronological(trials)
  {
    hide Chronological;
    ChronologicalIsStableSort(trials, 0);
    assert forall t :: t in trials <==> t in multiset(Chronological(trials));
  }

  lemma {:induction false} EdgeIsPair(order: seq<Trial>, events: seq<MemoryEvent>, k: nat, n: nat, e: Edge)
    requires k < n <= |order| && e in EdgesOf(events, order[k].trialId) && Contributes(e)
    ensures (e.child, e.parent) in Pairs(order, events, n)
    decreases n
  {
    hide EdgesOf;
    if k < n - 1 {
      EdgeIsPair(order, events, k, n - 1, e);
    } else {
      var edges := EdgesOf(events, order[k].trialId);
      var j :| 0 <= j < |edges| && edges[j] == e;
      assert (edges[j].child, edges[j].parent) in RowPairs(edges, |edges|);
    }
  }

  // ---- consequences of acceptance ------------------------------------------------------------------

  lemma {:induction false} PairHasEdge(order: seq<Trial>, events: seq<MemoryEvent>, k: nat, c: Id, p: Id)
    returns (i: nat, e: Edge)
    requires k <= |order| && (c, p) in Pairs(order, events, k)
    ensures i < k && e in EdgesOf(events, order[i].trialId) && Contributes(e) && e.child == c && e.parent == p
  {
    hide EdgesOf;
    var edges := EdgesOf(events, order[k - 1].trialId);
    if (c, p) in RowPairs(edges, |edges|) {
      var j :| 0 <= j < |edges| && Contributes(edges[j]) && edges[j].child == c && edges[j].parent == p;
      i, e := k - 1, edges[j];
    } else {
      i, e := PairHasEdge(order, events, k - 1, c, p);
    }
  }

  lemma {:induction false} KnownIsEarlier(order: seq<Trial>, k: nat, x: Id) returns (i: nat)
    requires k <= |order| && x in Known(order, k)
    ensures i < k && x in Ids(order[i].after)
  {
    if x in Ids(order[k - 1].after) {
      i := k - 1;
    } else {
      i := KnownIsEarlier(order, k - 1, x);
    }
  }

  /** In an accepted log a parent was in the trial's own memory_before or was left by an earlier trial. */
  lemma AcceptedParentIsEarlier(trials: seq<Trial>, events: seq<MemoryEvent>, c: Id, p: Id)
    requires EdgesAreChronological(trials, events)
    requires p in Parents(AcceptedGraph(trials, events), c)
    ensures var order := Chronological(trials);
      exists k :: 0 <= k < |order| && c in Ids(order[k].after) &&
        (p in Ids(order[k].before) ||
         exists i :: 0 <= i < k && p in Ids(order[i].after) &&
           (if order[i].trialSeq.Some? then order[i].trialSeq.value else 0) <=
           (if order[k].trialSeq.Some? then order[k].trialSeq.value else 0))
  {
    var order := Chronological(trials);
    ChronologicalIsStableSort(trials, 0);
    assert (c, p) in Pairs(order, events, |order|);
    var k, e := PairHasEdge(order, events, |order|, c, p);
    assert EdgeError(AllRows(trials), order, k, e) == None;
    if p !in Ids(order[k].before) {
      var i := KnownIsEarlier(order, k, p);
      assert 0 <= i < k && p in Ids(order[i].after);
    }
  }

  /** Where an id first shows up: 2k in the memory before trial k, 2k + 1 in the memory after it. */
  function FirstSeen(order: seq<Trial>, x: Id, k: nat): (r: int)
    requires k <= |order|
    ensures 2 * k <= r
    decreases |order| - k
  {
    if k == |order| then 2 * k
    else if x in Ids(order[k].before) then 2 * k
    else if x in Ids(order[k].after) then 2 * k + 1
    else FirstSeen(order, x, k + 1)
  }

  lemma {:induction false} FirstSeenAtMost(order: seq<Trial>, x: Id, j: nat, k: nat)
    requires j <= k < |order|
    ensures x in Ids(order[k].before) ==> FirstSeen(order, x, j) <= 2 * k
    ensures x in Ids(order[k].after) ==> FirstSeen(order, x, j) <= 2 * k + 1
    decreases k - j
  {
    if j < k {
      FirstSeenAtMost(order, x, j + 1, k);
    }
  }

  /** The child of every exact edge is new: no memory shown earlier, nor this trial's memory_before, has it. */
  ghost predicate ChildrenAreNew(trials: seq<Trial>, events: seq<MemoryEvent>) {
    var order := Chronological(trials);
    forall k, e, j :: 0 <= j <= k < |order| && e in EdgesOf(events, order[k].trialId) && Contributes(e) ==>
      e.child !in Ids(order[j].before) && (j < k ==> e.child !in Ids(order[j].after))
  }

  lemma {:induction false} NewIsSeenLate(order: seq<Trial>, x: Id, j: nat, k: nat)
    requires j <= k < |order|
    requires forall i :: j <= i <= k ==> x !in Ids(order[i].before) && (i < k ==> x !in Ids(order[i].after))
    ensures FirstSeen(order, x, j) > 2 * k
    decreases k - j
  {
    hide Ids;
    if j < k {
      NewIsSeenLate(order, x, j + 1, k);
    }
  }

  /** A baseline that only ever appends new entries can never fail the cycle check. */
  lemma AppendOnlyLogsAreAcyclic(trials: seq<Trial>, events: seq<MemoryEvent>)
    requires EdgesAreChronological(trials, events) && ChildrenAreNew(trials, events)
    ensures !Cyclic(AcceptedGraph(trials, events))
  {
    var order := Chronological(trials);
    var g := AcceptedGraph(trials, events);
    var rank := (x: Id) => FirstSeen(order, x, 0);
    forall c, p | p in Parents(g, c) ensures rank(p) < rank(c) {
      assert (c, p) in Pairs(order, events, |order|);
      var k, e := PairHasEdge(order, events, |order|, c, p);
      assert EdgeError(AllRows(trials), order, k, e) == None;
      NewIsSeenLate(order, c, 0, k);
      if p in Ids(order[k].before) {
        FirstSeenAtMost(order, p, 0, k);
      } else {
        var i := KnownIsEarlier(order, k, p);
        FirstSeenAtMost(order, p, 0, i);
      }
    }
    RankedIsAcyclic(g, rank);
  }

  /** Chronology alone is not enough: two entries already in a trial's memory may name each other. */
  lemma ChronologyDoesNotExcludeCycles() returns (trials: seq<Trial>, events: seq<MemoryEvent>)
    ensures EdgesAreChronological(trials, events) && Cyclic(AcceptedGraph(trials, events))
  {
    var a, b := Entry(Some("a"), None, None, []), Entry(Some("b"), None, None, []);
    var ab := Edge("a", "b", "exact", "parent_edge", "recorded_parent", []);
    var ba := Edge("b", "a", "exact", "parent_edge", "recorded_parent", []);
    trials := [Trial("t", Some(0), [a, b], [a, b])];
    events := [MemoryEvent("t", [ab, ba])];
    var order := Chronological(trials);
    assert order == trials by {
      assert trials[1..] == [] && Chronological(trials[1..]) == [];
    }
    var edges := EdgesOf(events, "t");
    assert edges == [ab, ba] by {
      assert events[1..] == [] && EdgesOf(events[1..], "t") == [];
    }
    assert [a, b][0] == a && [a, b][1] == b;
    assert EdgesAreChronological(trials, events);
    assert edges[0] == ab && edges[1] == ba;
    assert ("a", "b") in RowPairs(edges, 2) && ("b", "a") in RowPairs(edges, 2);
    var g := AcceptedGraph(trials, events);
    assert Pairs(order, events, 1) == Pairs(order, events, 0) + RowPairs(edges, 2);
    assert "b" in Parents(g, "a") && "a" in Parents(g, "b");
    var p := ["a", "b", "a"];
    assert IsCycle(g, p);
  }
}
