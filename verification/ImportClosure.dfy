/** The import closure of an entry point and the files of it that an execution package leaves unbound. */
module ImportClosure {
  import opened Common
  import opened Sorting

  /** The files under the source root and the local files each of them imports. */
  datatype Source<!Path> = Source(files: set<Path>, imports: Path -> seq<Path>)

  /** Imports resolve to existing files only. */
  ghost predicate Resolved<Path>(src: Source<Path>) {
    forall p, q :: p in src.files && q in src.imports(p) ==> q in src.files
  }

  /** Each path of the chain is imported by the one before it. */
  ghost predicate IsChain<Path>(src: Source<Path>, chain: seq<Path>) {
    forall i :: 0 < i < |chain| ==> chain[i] in src.imports(chain[i - 1])
  }

  ghost predicate ChainTo<Path>(src: Source<Path>, roots: seq<Path>, chain: seq<Path>, p: Path) {
    chain != [] && chain[0] in roots && chain[|chain| - 1] == p && IsChain(src, chain)
  }

  ghost predicate Reachable<Path(!new)>(src: Source<Path>, roots: seq<Path>, p: Path) {
    exists chain :: ChainTo(src, roots, chain, p)
  }

  lemma RootIsReachable<Path(!new)>(src: Source<Path>, roots: seq<Path>, p: Path)
    requires p in roots
    ensures Reachable(src, roots, p)
  {
    assert ChainTo(src, roots, [p], p);
  }

  lemma ImportIsReachable<Path(!new)>(src: Source<Path>, roots: seq<Path>, p: Path, q: Path)
    requires Reachable(src, roots, p) && q in src.imports(p)
    ensures Reachable(src, roots, q)
  {
    var chain :| ChainTo(src, roots, chain, p);
    assert ChainTo(src, roots, chain + [q], q);
  }

  /** The set holds the roots and everything its members import. */
  ghost predicate ClosedUnder<Path>(src: Source<Path>, roots: seq<Path>, s: set<Path>) {
    (forall p :: p in roots ==> p in s) && forall p, q :: p in s && q in src.imports(p) ==> q in s
  }

  /** Every closed set holds every reachable path. */
  lemma {:induction false} ClosedHoldsChain<Path>(
    src: Source<Path>, roots: seq<Path>, s: set<Path>, chain: seq<Path>, p: Path)
    requires ClosedUnder(src, roots, s) && ChainTo(src, roots, chain, p)
    ensures p in s
    decreases |chain|
  {
    if |chain| > 1 {
      var shorter := chain[..|chain| - 1];
      ClosedHoldsChain(src, roots, s, shorter, shorter[|shorter| - 1]);
      assert chain[|chain| - 1] in src.imports(chain[|chain| - 2]);
    }
  }

  /** A popped path's imports are visited, or still pending. */
  ghost predicate Explored<Path>(src: Source<Path>, visited: set<Path>, pending: seq<Path>) {
    forall p, q :: p in visited && q in src.imports(p) ==> q in visited || q in pending
  }

  ghost predicate AllReachable<Path(!new)>(src: Source<Path>, roots: seq<Path>, s: set<Path>) {
    forall p :: p in s ==> Reachable(src, roots, p)
  }

  function Unvisited<Path(==)>(visited: set<Path>): Path -> bool {
    (p: Path) => p !in visited
  }

  /** Visiting p and queueing its unvisited imports keeps the worklist invariant. */
  lemma VisitKeepsExplored<Path>(src: Source<Path>, visited: set<Path>, pending: seq<Path>, p: Path)
    requires Explored(src, visited, pending + [p])
    ensures Explored(src, visited + {p}, pending + Filter(Unvisited(visited + {p}), src.imports(p)))
  {
    var v, more := visited + {p}, Filter(Unvisited(visited + {p}), src.imports(p));
    forall a, q | a in v && q in src.imports(a) ensures q in v || q in pending + more {
      FilterMember(Unvisited(v), src.imports(p), q);
      assert a == p || q in visited || q in pending + [p];
    }
  }

  /** The worklist: pops the last pending path, skips visited ones, queues the unvisited imports of the others. */
  method Visit<Path(!new, ==)>(src: Source<Path>, roots: seq<Path>) returns (visited: set<Path>)
    requires Resolved(src) && forall p :: p in roots ==> p in src.files
    ensures forall p :: p in visited <==> Reachable(src, roots, p)
    ensures visited <= src.files && ClosedUnder(src, roots, visited)
  {
    visited := {};
    var pending := roots;
    forall p | p in roots ensures Reachable(src, roots, p) {
      RootIsReachable(src, roots, p);
    }
    while pending != []
      invariant visited <= src.files && Elements(pending) <= src.files
      invariant AllReachable(src, roots, visited) && AllReachable(src, roots, Elements(pending))
      invariant forall p :: p in roots ==> p in visited || p in pending
      invariant Explored(src, visited, pending)
      decreases src.files - visited, |pending|
    {
      var path := pending[|pending| - 1];
      ghost var all := pending;
      pending := pending[..|pending| - 1];
      assert all == pending + [path];
      assert path in Elements(all);
      if path in visited {
        assert Explored(src, visited, pending);
        continue;
      }
      VisitKeepsExplored(src, visited, pending, path);
      visited := visited + {path};
      var more := Filter(Unvisited(visited), src.imports(path));
      forall q | q in more ensures q in src.files && Reachable(src, roots, q) {
        FilterMember(Unvisited(visited), src.imports(path), q);
        ImportIsReachable(src, roots, path, q);
      }
      pending := pending + more;
    }
    forall p | Reachable(src, roots, p) ensures p in visited {
      var chain :| ChainTo(src, roots, chain, p);
      ClosedHoldsChain(src, roots, visited, chain, p);
    }
  }

  method Closure<Path(!new, ==)>(src: Source<Path>, roots: seq<Path>, le: Order<Path>) returns (r: seq<Path>)
    requires Resolved(src) && (forall p :: p in roots ==> p in src.files) && TotalOrder(le)
    ensures SortedBy(le, r) && Distinct(r) && forall p :: p in r <==> Reachable(src, roots, p)
  {
    var visited := Visit(src, roots);
    r := SortedTuple(le, visited);
    assert forall p :: p in r <==> p in Elements(r);
  }

  /** The report's omitted imports: none exactly when everything reachable is bound. */
  method Omitted<Path(!new, ==)>(src: Source<Path>, roots: seq<Path>, bound: set<Path>, le: Order<Path>)
    returns (omitted: seq<Path>)
    requires Resolved(src) && (forall p :: p in roots ==> p in src.files) && TotalOrder(le)
    ensures SortedBy(le, omitted) && Distinct(omitted)
    ensures forall p :: p in omitted <==> Reachable(src, roots, p) && p !in bound
    ensures omitted == [] <==> forall p :: Reachable(src, roots, p) ==> p in bound
  {
    var closure := Closure(src, roots, le);
    omitted := SortedTuple(le, Elements(closure) - bound);
    forall p ensures p in omitted <==> Reachable(src, roots, p) && p !in bound {
      assert p in omitted <==> p in Elements(omitted);
      assert p in closure <==> p in Elements(closure);
    }
    if omitted != [] {
      assert omitted[0] in omitted;
    }
  }

  /** A package that binds the roots and the imports of all it binds has no omitted import. */
  lemma ClosedPackageOmitsNothing<Path(!new)>(src: Source<Path>, roots: seq<Path>, bound: set<Path>, p: Path)
    requires ClosedUnder(src, roots, bound) && Reachable(src, roots, p)
    ensures p in bound
  {
    var chain :| ChainTo(src, roots, chain, p);
    ClosedHoldsChain(src, roots, bound, chain, p);
  }
}
