/**
 The lineage graph: entries are nodes and every entry points at its parents.
 CycleCheck is the depth-first search of evaluation/aggregate.py with its two sets.
 */
module Lineage {
  import opened Common

  type Graph = map<Id, set<Id>>

  function Parents(g: Graph, x: Id): set<Id> {
    if x in g then g[x] else {}
  }

  ghost predicate IsPath(g: Graph, p: seq<Id>) {
    |p| > 0 && forall i :: 0 <= i < |p| - 1 ==> p[i + 1] in Parents(g, p[i])
  }

  ghost predicate IsCycle(g: Graph, p: seq<Id>) {
    IsPath(g, p) && |p| >= 2 && p[0] == p[|p| - 1]
  }

  ghost predicate Cyclic(g: Graph) {
    exists p :: IsCycle(g, p)
  }

  /** Every listed node comes after all of its parents. */
  ghost predicate Topological(g: Graph, order: seq<Id>) {
    Distinct(order) &&
    forall i, q :: 0 <= i < |order| && q in Parents(g, order[i]) ==> q in order[..i]
  }

  /** A path that starts at position k of a topological order ends strictly before k. */
  lemma {:induction false} PathDescends(g: Graph, order: seq<Id>, p: seq<Id>, k: nat)
    requires Topological(g, order) && IsPath(g, p) && |p| >= 2
    requires k < |order| && p[0] == order[k]
    ensures p[|p| - 1] in order[..k] && p[|p| - 1] != p[0]
    decreases |p|
  {
    assert p[1] in Parents(g, p[0]);
    assert p[1] in order[..k];
    if |p| > 2 {
      var j :| 0 <= j < k && order[j] == p[1];
      var rest := p[1..];
      forall i | 0 <= i < |rest| - 1 ensures rest[i + 1] in Parents(g, rest[i]) {
        assert rest[i] == p[i + 1] && rest[i + 1] == p[(i + 1) + 1];
      }
      PathDescends(g, order, rest, j);
      assert rest[|rest| - 1] == p[|p| - 1];
    }
  }

  lemma TopologicalIsAcyclic(g: Graph, order: seq<Id>)
    requires Topological(g, order)
    requires forall x :: x in g && g[x] != {} ==> x in order
    ensures !Cyclic(g)
  {
    forall p | IsCycle(g, p) ensures false {
      assert p[1] in Parents(g, p[0]);
      var k :| 0 <= k < |order| && order[k] == p[0];
      PathDescends(g, order, p, k);
    }
  }

  /** A graph whose edges all lead to a smaller rank has no cycle. */
  lemma {:induction false} RankDescends(g: Graph, rank: Id -> int, p: seq<Id>)
    requires forall x, q :: q in Parents(g, x) ==> rank(q) < rank(x)
    requires IsPath(g, p)
    ensures |p| >= 2 ==> rank(p[|p| - 1]) < rank(p[0])
  {
    if |p| >= 2 {
      var rest := p[1..];
      forall i | 0 <= i < |rest| - 1 ensures rest[i + 1] in Parents(g, rest[i]) {
        assert rest[i] == p[i + 1] && rest[i + 1] == p[(i + 1) + 1];
      }
      assert p[0 + 1] in Parents(g, p[0]);
      RankDescends(g, rank, rest);
    }
  }

  lemma RankedIsAcyclic(g: Graph, rank: Id -> int)
    requires forall x, q :: q in Parents(g, x) ==> rank(q) < rank(x)
    ensures !Cyclic(g)
  {
    forall p | IsCycle(g, p) ensures false {
      RankDescends(g, rank, p);
    }
  }

  ghost function Nodes(g: Graph): set<Id> {
    g.Keys + set x, q | x in g && q in g[x] :: q
  }

  /** The search of aggregate.py: `visiting` is the open path, `visited` the finished nodes. */
  class CycleCheck {
    const edges: Graph
    var visiting: set<Id>
    var visited: set<Id>
    ghost var finished: seq<Id>

    ghost predicate Valid()
      reads this
    {
      Elements(finished) == visited && visiting !! visited && Topological(edges, finished)
    }

    constructor (edges: Graph)
      ensures Valid() && this.edges == edges && visiting == {} && visited == {}
    {
      this.edges := edges;
      visiting, visited, finished := {}, {}, [];
    }

    /** Returns the node at which the search raises, if it does. */
    method Visit(entryId: Id, ghost path: seq<Id>) returns (raised: Option<Id>)
      requires Valid() && entryId in Nodes(edges)
      requires IsPath(edges, path + [entryId]) && Elements(path) == visiting
      modifies this`visiting, this`visited, this`finished
      ensures raised.Some? ==> exists p :: IsCycle(edges, p) && p[0] == raised.value
      ensures raised.None? ==> Valid() && visiting == old(visiting)
      ensures raised.None? ==> old(visited) + {entryId} <= visited
      decreases Nodes(edges) - visiting - visited
    {
      if entryId in visiting {
        ClosedPathIsCycle(edges, path, entryId);
        return Some(entryId);
      }
      if entryId in visited {
        return None;
      }
      visiting := visiting + {entryId};
      ghost var longer := path + [entryId];
      ElementsOfSum(path, [entryId]);
      var todo := Parents(edges, entryId);
      while todo != {}
        invariant todo <= Parents(edges, entryId)
        invariant Valid() && visiting == old(visiting) + {entryId} && Elements(longer) == visiting
        invariant old(visited) <= visited && Parents(edges, entryId) - todo <= visited
        decreases todo
      {
        var parentId :| parentId in todo;
        todo := todo - {parentId};
        PathExtends(edges, longer, parentId);
        assert entryId in old(Nodes(edges) - visiting - visited);
        assert Nodes(edges) - visiting - visited < old(Nodes(edges) - visiting - visited);
        raised := Visit(parentId, longer);
        if raised.Some? {
          return;
        }
      }
      FinishTopological(edges, finished, entryId);
      visiting := visiting - {entryId};
      visited := visited + {entryId};
      finished := finished + [entryId];
      return None;
    }

    /** The loop over all children: raises exactly on a cyclic graph, and then names a node of a cycle. */
    method CheckAll() returns (raised: Option<Id>)
      requires Valid() && visiting == {} && visited == {}
      modifies this`visiting, this`visited, this`finished
      ensures raised.Some? <==> Cyclic(edges)
      ensures raised.Some? ==> exists p :: IsCycle(edges, p) && p[0] == raised.value
      ensures raised.None? ==> exists order :: Topological(edges, order) && edges.Keys <= Elements(order)
    {
      var todo := edges.Keys;
      while todo != {}
        invariant todo <= edges.Keys && Valid() && visiting == {} && edges.Keys - todo <= visited
        decreases todo
      {
        var entryId :| entryId in todo;
        todo := todo - {entryId};
        raised := Visit(entryId, []);
        if raised.Some? {
          return;
        }
      }
      assert edges.Keys <= Elements(finished);
      TopologicalIsAcyclic(edges, finished);
      return None;
    }
  }

  lemma PathExtends(g: Graph, p: seq<Id>, q: Id)
    requires IsPath(g, p) && q in Parents(g, p[|p| - 1])
    ensures IsPath(g, p + [q]) && q in Nodes(g)
  {
  }

  lemma ClosedPathIsCycle(g: Graph, path: seq<Id>, x: Id)
    requires IsPath(g, path + [x]) && x in path
    ensures exists p :: IsCycle(g, p) && p[0] == x
  {
    var k :| 0 <= k < |path| && path[k] == x;
    var loop := (path + [x])[k..];
    forall i | 0 <= i < |loop| - 1 ensures loop[i + 1] in Parents(g, loop[i]) {
      assert loop[i] == (path + [x])[k + i] && loop[i + 1] == (path + [x])[k + i + 1];
    }
    assert IsCycle(g, loop) && loop[0] == x;
  }

  lemma FinishTopological(g: Graph, finished: seq<Id>, x: Id)
    requires Topological(g, finished) && x !in finished
    requires Parents(g, x) <= Elements(finished)
    ensures Topological(g, finished + [x])
    ensures Elements(finished + [x]) == Elements(finished) + {x}
  {
    var longer := finished + [x];
    forall i, q | 0 <= i < |longer| && q in Parents(g, longer[i]) ensures q in longer[..i] {
      if i < |finished| {
        assert longer[..i] == finished[..i];
      } else {
        assert longer[..i] == finished;
      }
    }
    ElementsOfSum(finished, [x]);
  }
}
