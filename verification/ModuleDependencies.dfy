/** Stage 3 declaration ordering: the whole pass, when it succeeds, and how stable its order is. */
module ModuleDependencies {
  import opened Collections
  import opened Graphs
  import opened DependencyEdges
  import opened DependencySort

  datatype Outcome = Sorted(headers: seq<Header>) | Diagnosed(errors: seq<Diagnostic>)

  function TopLevel(headers: seq<Header>): seq<Header> {
    if headers == [] then []
    else
      var n := |headers| - 1;
      TopLevel(headers[..n]) + if headers[n].isStart then [] else [headers[n]]
  }

  function Starts(headers: seq<Header>): seq<Header> {
    if headers == [] then []
    else
      var n := |headers| - 1;
      Starts(headers[..n]) + if headers[n].isStart then [headers[n]] else []
  }

  /** The header graph cannot be ordered: it has a cycle (self-edges included) or a Missing edge. */
  ghost predicate Unorderable(g: DependencyGraph)
    requires Prepared(g)
  {
    HasCycle(HeaderGraph(g)) || exists p :: p in g.headers && HasMissingHint(g, g.headers[p])
  }

  /** A diagnostic names a cycle through its path, or a hint whose target is missing. */
  ghost predicate NamesDefect(g: DependencyGraph, d: Diagnostic)
    requires Prepared(g)
  {
    match d
    case CircularDependency(p) => ReachesStrictly(HeaderGraph(g), p, p)
    case MissingImportTarget(target) =>
      exists p, i :: p in g.headers && 0 <= i < |g.headers[p].hints| &&
                     Dangling(g, g.headers[p], g.headers[p].hints[i]) && g.headers[p].hints[i].path == target
  }

  /** Position `k` was emitted on behalf of root `j`, after every earlier root was already out. */
  ghost predicate RootedAt(deps: Graph<PathId>, ordered: seq<PathId>, out: seq<PathId>, k: nat, j: nat)
    requires k < |out|
  {
    j < |ordered| && Reaches(deps, ordered[j], out[k]) && forall i | 0 <= i < j :: ordered[i] in out[..k]
  }

  ghost predicate HasRoot(deps: Graph<PathId>, ordered: seq<PathId>, out: seq<PathId>, k: nat)
    requires k < |out|
  {
    exists j: nat :: RootedAt(deps, ordered, out, k, j)
  }

  ghost predicate Rooted(deps: Graph<PathId>, ordered: seq<PathId>, out: seq<PathId>) {
    forall k | 0 <= k < |out| :: HasRoot(deps, ordered, out, k)
  }

  /** The sorted part of a successful result. */
  ghost predicate ValidOrder(g: DependencyGraph, sorted: seq<Header>)
    requires Prepared(g)
  {
    var out := PathsOf(sorted);
    && Emitted(HeaderGraph(g), {}, out)
    && (forall p :: p in out <==> p in g.headers)
    && (forall k | 0 <= k < |sorted| :: g.headers[out[k]] == sorted[k])
    && Rooted(HeaderGraph(g), g.ordered, out)
  }

  // ----- consequences of a valid order

  lemma PrefixClosed(deps: Graph<PathId>, broken: set<PathId>, out: seq<PathId>, k: nat, a: PathId, b: PathId)
    requires Emitted(deps, broken, out) && k <= |out| && a in out[..k] && Reaches(deps, a, b)
    ensures b in out[..k]
  {
    var p :| PathBetween(deps, p, a, b);
    var closed := set x | x in out[..k];
    forall x | x in closed && x in deps ensures deps[x] <= closed {
      var i :| 0 <= i < k && out[i] == x;
      forall d | d in deps[x] ensures d in closed {
        assert d in out[..i];
      }
    }
    ClosedPath(deps, closed, p, |p| - 1);
  }

  /** A complete topological listing rules out cycles. */
  lemma OrderedMeansAcyclic(deps: Graph<PathId>, broken: set<PathId>, out: seq<PathId>)
    requires Emitted(deps, broken, out) && forall p | p in deps :: p in out
    ensures !HasCycle(deps)
  {
    if a :| ReachesStrictly(deps, a, a) {
      var k :| 0 <= k < |out| && out[k] == a;
      var c :| c in deps[a] && Reaches(deps, c, a);
      assert c in out[..k];
      PrefixClosed(deps, broken, out, k, c, a);
      assert false;
    }
  }

  lemma ReachesOther(deps: Graph<PathId>, a: PathId, b: PathId)
    requires Reaches(deps, a, b) && a != b
    ensures ReachesStrictly(deps, a, b)
  {
    var p :| PathBetween(deps, p, a, b);
    assert p[0] in deps && p[1] in deps[p[0]];
    assert PathBetween(deps, p[1..], p[1], b);
  }

  /** A header overtakes an earlier one only if some header at or before the overtaken one depends on it. */
  lemma OvertakingIsForced(deps: Graph<PathId>, ordered: seq<PathId>, out: seq<PathId>, a: nat, b: nat, at: nat)
    requires NoDup(out) && Rooted(deps, ordered, out)
    requires a < b < |out| && at < |ordered| && ordered[at] == out[b] && out[a] !in ordered[..at + 1]
    ensures exists j :: 0 <= j <= at && ReachesStrictly(deps, ordered[j], out[a])
  {
    assert HasRoot(deps, ordered, out, a);
    var j: nat :| RootedAt(deps, ordered, out, a, j);
    if j > at {
      assert false;
    }
    assert ordered[j] in ordered[..at + 1];
    ReachesOther(deps, ordered[j], out[a]);
  }

  /** A source order that is already topological is returned unchanged. */
  lemma {:induction false} TopologicalOrderKept(deps: Graph<PathId>, ordered: seq<PathId>, out: seq<PathId>, k: nat)
    requires NoDup(ordered) && Emitted(deps, {}, ordered)
    requires NoDup(out) && Rooted(deps, ordered, out) && |out| == |ordered| && k <= |out|
    ensures out[..k] == ordered[..k]
  {
    if k > 0 {
      var n := k - 1;
      TopologicalOrderKept(deps, ordered, out, n);
      assert HasRoot(deps, ordered, out, n);
      var j: nat :| RootedAt(deps, ordered, out, n, j);
      if j > n {
        assert false;
      }
      assert ordered[j] in ordered[..k];
      PrefixClosed(deps, {}, ordered, k, ordered[j], out[n]);
      assert out[n] !in out[..n];
      assert out[n] == ordered[n];
    }
  }

  lemma {:induction false} DistinctFits(a: seq<PathId>, b: seq<PathId>)
    requires NoDup(a) && NoDup(b) && forall p | p in a :: p in b
    ensures |a| <= |b|
  {
    if a != [] {
      var n := |a| - 1;
      assert a[n] in b;
      var k :| 0 <= k < |b| && b[k] == a[n];
      var rest := b[..k] + b[k + 1..];
      forall p | p in a[..n] ensures p in rest {
        assert p in a;
        var i :| 0 <= i < |b| && b[i] == p;
        assert i != k ==> rest[if i < k then i else i - 1] == p;
      }
      DistinctFits(a[..n], rest);
    }
  }

  /** Ordering a module whose source order already respects every dependency changes nothing. */
  lemma SortKeepsTopologicalOrder(g: DependencyGraph, sorted: seq<Header>)
    requires Prepared(g) && ValidOrder(g, sorted) && g.headers.Keys == SeqSet(g.ordered)
    requires NoDup(g.ordered) && Emitted(HeaderGraph(g), {}, g.ordered)
    ensures PathsOf(sorted) == g.ordered
  {
    var out := PathsOf(sorted);
    DistinctFits(out, g.ordered);
    DistinctFits(g.ordered, out);
    TopologicalOrderKept(HeaderGraph(g), g.ordered, out, |out|);
  }

  // ----- the pass

  ghost predicate EdgesFor(g: DependencyGraph, h: Header, edges: seq<Edge>)
    requires h.source in g.ctx.sourcePaths
  {
    && (forall i | 0 <= i < |h.hints| :: Covers(edges, Classify(g, h, h.hints[i])))
    && (forall e | e in edges :: exists i :: 0 <= i < |h.hints| && e == Classify(g, h, h.hints[i]))
  }

  ghost predicate TableOf(g: DependencyGraph, table: EdgeTable)
    requires Prepared(g)
  {
    table.Keys == g.headers.Keys && forall p | p in table :: EdgesFor(g, g.headers[p], table[p])
  }

  /** The pure post-order of all roots; a failed root keeps what it emitted and the next root goes on. */
  ghost function PureRoots(table: EdgeTable, roots: seq<PathId>): seq<PathId> {
    if roots == [] then []
    else
      var n := |roots| - 1;
      PureVisit(table, {}, PureRoots(table, roots[..n]), roots[n]).out
  }

  /** A table whose edge lists are also free of repeated targets and in the stable order. */
  ghost predicate SortedTable(g: DependencyGraph, table: EdgeTable)
    requires Prepared(g)
  {
    TableOf(g, table) && forall p | p in table :: EdgesSorted(g.ctx, table[p]) && TargetsDistinct(table[p])
  }

  /** The depth-first post-order from the roots in source order, following each header's sorted edges. */
  ghost predicate DepthFirst(g: DependencyGraph, sorted: seq<Header>)
    requires Prepared(g)
  {
    exists table :: SortedTable(g, table) && PathsOf(sorted) == PureRoots(table, g.ordered)
  }

  lemma TableMatchesHeaders(g: DependencyGraph, table: EdgeTable)
    requires Prepared(g) && TableOf(g, table)
    ensures TableGraph(table) == HeaderGraph(g)
    ensures Broken(table) == set p | p in g.headers && HasMissingHint(g, g.headers[p])
    ensures WellFormed(table)
    ensures forall d | Truthful(table, d) :: NamesDefect(g, d)
  {
    forall p | p in table
      ensures Targets(table[p]) == HintTargets(g, g.headers[p]) &&
              (HasMissing(table[p]) <==> HasMissingHint(g, g.headers[p]))
    {
      EdgesMatchHints(g, g.headers[p], table[p]);
    }
    forall p, i | p in table && 0 <= i < |table[p]|
      ensures exists j ::
                0 <= j < |g.headers[p].hints| && table[p][i] == Classify(g, g.headers[p], g.headers[p].hints[j])
    {
      assert table[p][i] in table[p];
    }
  }

  method EdgeTableFor(g: DependencyGraph) returns (table: EdgeTable)
    requires Prepared(g) && g.headers.Keys == SeqSet(g.ordered)
    ensures SortedTable(g, table)
  {
    table := map[];
    for i := 0 to |g.ordered|
      invariant table.Keys == set p | p in g.ordered[..i]
      invariant forall p | p in table :: EdgesFor(g, g.headers[p], table[p])
      invariant forall p | p in table :: EdgesSorted(g.ctx, table[p]) && TargetsDistinct(table[p])
    {
      var path := g.ordered[i];
      assert path in g.headers;
      var edges := SortedDependencyEdges(g, g.headers[path]);
      assert g.ordered[..i + 1] == g.ordered[..i] + [path];
      table := table[path := edges];
    }
    assert g.ordered[..|g.ordered|] == g.ordered;
  }

  /** Marks and stack are empty, as they are before and after every root. */
  ghost predicate AtRest(sorter: DependencySorter)
    reads sorter, sorter.tracker
  {
    sorter.Valid() && sorter.tracker.stack == [] && sorter.tracker.tempMark == {}
  }

  /** Every root so far is out, and every position is owed to one of them. */
  ghost predicate AllOut(deps: Graph<PathId>, ordered: seq<PathId>, i: nat, out: seq<PathId>)
    requires i <= |ordered|
  {
    (forall j | 0 <= j < i :: ordered[j] in out) && Rooted(deps, ordered, out)
  }

  /** Visit one root unless it is finished; whatever happens, marks and stack are empty again. */
  method VisitRoot(sorter: DependencySorter, ordered: seq<PathId>, i: nat) returns (r: VisitResult)
    requires sorter.Linked() && AtRest(sorter) && i < |ordered| && ordered[i] in sorter.headers
    modifies sorter, sorter.tracker
    ensures AtRest(sorter) && (r.Failed? ==> Truthful(sorter.table, r.error))
    ensures sorter.out == PureVisit(sorter.table, {}, old(sorter.out), ordered[i]).out
    ensures r.Visited? && old(AllOut(sorter.deps, ordered, i, sorter.out)) ==>
              AllOut(sorter.deps, ordered, i + 1, sorter.out)
  {
    ghost var before := sorter.out;
    AgreeOn(sorter.headers.Keys, sorter.tracker.visited, sorter.out, {ordered[i]});
    if ordered[i] in sorter.tracker.visited {
      return Visited;
    }
    sorter.root, sorter.base := ordered[i], |before|;
    r := sorter.VisitNode(ordered[i]);
    AgreeOn(sorter.headers.Keys, sorter.tracker.visited, sorter.out, {ordered[i]});
    RootedGrows(sorter.deps, ordered, before, sorter.out, i);
  }

  /** Visit every root in source order, continuing past failed roots; marks and stack are empty in between. */
  method VisitRoots(sorter: DependencySorter, ordered: seq<PathId>) returns (errors: seq<Diagnostic>)
    requires sorter.Linked() && AtRest(sorter) && sorter.out == []
    requires forall p | p in ordered :: p in sorter.headers
    modifies sorter, sorter.tracker
    ensures AtRest(sorter) && forall d | d in errors :: Truthful(sorter.table, d)
    ensures errors == [] ==> AllOut(sorter.deps, ordered, |ordered|, sorter.out)
    ensures sorter.out == PureRoots(sorter.table, ordered)
  {
    errors := [];
    for i := 0 to |ordered|
      invariant AtRest(sorter) && forall d | d in errors :: Truthful(sorter.table, d)
      invariant errors == [] ==> AllOut(sorter.deps, ordered, i, sorter.out)
      invariant sorter.out == PureRoots(sorter.table, ordered[..i])
    {
      assert ordered[..i + 1][..i] == ordered[..i];
      assert ordered[i] in ordered;
      var r := VisitRoot(sorter, ordered, i);
      if r.Failed? {
        errors := errors + [r.error];
      }
    }
    assert ordered[..|ordered|] == ordered;
  }

  lemma RootedGrows(deps: Graph<PathId>, ordered: seq<PathId>, before: seq<PathId>, after: seq<PathId>, i: nat)
    requires i < |ordered| && before <= after
    requires forall k | |before| <= k < |after| :: Reaches(deps, ordered[i], after[k])
    ensures (forall j | 0 <= j < i :: ordered[j] in before) && Rooted(deps, ordered, before) ==>
            Rooted(deps, ordered, after)
    ensures forall p | p in before :: p in after
  {
    if (forall j | 0 <= j < i :: ordered[j] in before) && Rooted(deps, ordered, before) {
      forall k | 0 <= k < |after| ensures HasRoot(deps, ordered, after, k) {
        if k < |before| {
          assert HasRoot(deps, ordered, before, k);
          var j: nat :| RootedAt(deps, ordered, before, k, j);
          assert after[..k] == before[..k];
          assert RootedAt(deps, ordered, after, k, j);
        } else {
          forall m | 0 <= m < i ensures ordered[m] in after[..k] {
            var at :| 0 <= at < |before| && before[at] == ordered[m];
            assert after[..k][at] == ordered[m];
          }
          assert RootedAt(deps, ordered, after, k, i);
        }
      }
    }
  }

  lemma ValidOrderIsOrderable(g: DependencyGraph, sorted: seq<Header>)
    requires Prepared(g) && ValidOrder(g, sorted)
    requires forall p | p in PathsOf(sorted) :: !HasMissingHint(g, g.headers[p])
    ensures !Unorderable(g)
  {
    OrderedMeansAcyclic(HeaderGraph(g), {}, PathsOf(sorted));
  }

  /** Sort one header graph, or report every root that could not be ordered. */
  method SortGraph(g: DependencyGraph) returns (sorted: seq<Header>, errors: seq<Diagnostic>)
    requires Prepared(g) && g.headers.Keys == SeqSet(g.ordered)
    ensures errors == [] <==> !Unorderable(g)
    ensures errors == [] ==> ValidOrder(g, sorted) && DepthFirst(g, sorted)
    ensures forall d | d in errors :: NamesDefect(g, d)
  {
    var table := EdgeTableFor(g);
    TableMatchesHeaders(g, table);
    var sorter := new DependencySorter(g, table);
    sorter.LinkedGraph();
    errors := VisitRoots(sorter, g.ordered);
    sorted := sorter.sorted;
    if errors != [] {
      assert errors[0] in errors;
    } else {
      ListsPaths(g.headers, sorted, sorter.out);
      assert forall p | p in g.ordered :: p in sorter.out;
      assert sorter.deps == HeaderGraph(g);
      assert forall p | p in PathsOf(sorted) :: p !in sorter.broken;
      ValidOrderIsOrderable(g, sorted);
    }
  }

  method Partition(headers: seq<Header>) returns (topLevel: seq<Header>, starts: seq<Header>)
    ensures topLevel == TopLevel(headers) && starts == Starts(headers)
  {
    topLevel, starts := [], [];
    for i := 0 to |headers|
      invariant topLevel == TopLevel(headers[..i]) && starts == Starts(headers[..i])
    {
      assert headers[..i + 1][..i] == headers[..i];
      if headers[i].isStart {
        starts := starts + [headers[i]];
      } else {
        topLevel := topLevel + [headers[i]];
      }
    }
    assert headers[..|headers|] == headers;
  }

  /** The header graph of a module's top-level headers. */
  ghost function ModuleGraph(headers: seq<Header>, ctx: Context): (g: DependencyGraph)
    requires forall h | h in headers :: h.source in ctx.sourcePaths
    ensures Built(TopLevel(headers), g) && Prepared(g)
  {
    ModuleGraphPrepared(headers, ctx);
    GraphOf(TopLevel(headers), ctx)
  }

  lemma {:induction false} TopLevelListed(headers: seq<Header>)
    ensures forall h | h in TopLevel(headers) :: h in headers
  {
    if headers != [] {
      TopLevelListed(headers[..|headers| - 1]);
    }
  }

  lemma ModuleGraphPrepared(headers: seq<Header>, ctx: Context)
    requires forall h | h in headers :: h.source in ctx.sourcePaths
    ensures Built(TopLevel(headers), GraphOf(TopLevel(headers), ctx)) && Prepared(GraphOf(TopLevel(headers), ctx))
  {
    TopLevelListed(headers);
    GraphIsBuilt(TopLevel(headers), ctx);
    BuiltFacts(TopLevel(headers), GraphOf(TopLevel(headers), ctx));
  }

  /** Order all top-level headers, then append the start headers in source order. */
  method ResolveModuleDependencies(headers: seq<Header>, ctx: Context) returns (r: Outcome)
    requires forall h | h in headers :: h.source in ctx.sourcePaths
    ensures r.Sorted? <==> !Unorderable(ModuleGraph(headers, ctx))
    ensures r.Sorted? ==> exists sorted :: OrderOf(headers, ctx, sorted) && r.headers == sorted + Starts(headers)
    ensures r.Diagnosed? ==> r.errors != [] && forall d | d in r.errors :: NamesDefect(ModuleGraph(headers, ctx), d)
  {
    var topLevel, starts := Partition(headers);
    var graph := FromHeaders(topLevel, ctx);
    BuiltFacts(topLevel, graph);
    assert graph == ModuleGraph(headers, ctx);
    var sorted, errors := SortGraph(graph);
    r := if errors != [] then Diagnosed(errors) else Sorted(sorted + starts);
  }

  /** The one order of a module's top-level headers. */
  ghost predicate OrderOf(headers: seq<Header>, ctx: Context, sorted: seq<Header>)
    requires forall h | h in headers :: h.source in ctx.sourcePaths
  {
    ValidOrder(ModuleGraph(headers, ctx), sorted) && DepthFirst(ModuleGraph(headers, ctx), sorted)
  }
}
