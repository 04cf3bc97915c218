/** Stage 3 declaration ordering: the three-state depth-first sort over resolved edges. */
module DependencySort {
  import opened Collections
  import opened Graphs
  import opened DependencyEdges

  function Without(s: seq<PathId>, path: PathId): (r: seq<PathId>)
    ensures forall p :: p in r <==> p in s && p != path
  {
    if s == [] then []
    else
      var n := |s| - 1;
      assert s == s[..n] + [s[n]];
      if s[n] == path then Without(s[..n], path) else Without(s[..n], path) + [s[n]]
  }

  lemma {:induction false} WithoutAbsent(s: seq<PathId>, path: PathId)
    requires path !in s
    ensures Without(s, path) == s
  {
    if s != [] {
      WithoutAbsent(s[..|s| - 1], path);
      assert s == s[..|s| - 1] + [s[|s| - 1]];
    }
  }

  /** Dropping a mark keeps the listing duplicate-free, and only pops when the mark is on top. */
  lemma {:induction false} WithoutNoDup(s: seq<PathId>, path: PathId)
    requires NoDup(s)
    ensures NoDup(Without(s, path))
    ensures s != [] && s[|s| - 1] == path ==> Without(s, path) == s[..|s| - 1]
  {
    if s != [] {
      var n := |s| - 1;
      WithoutNoDup(s[..n], path);
      if s[n] == path {
        WithoutAbsent(s[..n], path);
      } else {
        var kept := Without(s[..n], path);
        forall k | 0 <= k < |kept| ensures kept[k] != s[n] {
          assert kept[k] in s[..n];
        }
      }
    }
  }

  /** Temporary marks, permanent marks, and the active path of one depth-first run. */
  class DependencyTracker {
    var tempMark: set<PathId>
    var visited: set<PathId>
    var stack: seq<PathId>
    var visitCount: nat

    constructor ()
      ensures Valid() && tempMark == {} && visited == {} && stack == []
    {
      tempMark, visited, stack, visitCount := {}, {}, [], 0;
    }

    /** The stack is a duplicate-free listing of the temporary marks, and nothing marked is finished. */
    ghost predicate Valid()
      reads this
    {
      NoDup(stack) && tempMark == (set p | p in stack) && tempMark !! visited
    }

    method Enter(path: PathId)
      requires Valid() && path !in tempMark && path !in visited
      modifies this
      ensures Valid() && stack == old(stack) + [path] && visited == old(visited)
      ensures tempMark == old(tempMark) + {path}
    {
      tempMark := tempMark + {path};
      stack := stack + [path];
    }

    method Abandon(path: PathId)
      requires Valid()
      modifies this
      ensures Valid() && visited == old(visited) && tempMark == old(tempMark) - {path}
      ensures stack == Without(old(stack), path)
    {
      tempMark := tempMark - {path};
      WithoutNoDup(stack, path);
      if stack != [] && stack[|stack| - 1] == path {
        stack := stack[..|stack| - 1];
      } else {
        stack := Without(stack, path);
      }
    }

    method Finish(path: PathId)
      requires Valid()
      modifies this
      ensures Valid() && visited == old(visited) + {path} && tempMark == old(tempMark) - {path}
      ensures stack == Without(old(stack), path)
    {
      Abandon(path);
      visited := visited + {path};
    }
  }

  datatype Diagnostic = MissingImportTarget(path: PathId) | CircularDependency(path: PathId)

  datatype VisitResult = Visited | Failed(error: Diagnostic)

  /** Resolved edges by header path. */
  type EdgeTable = map<PathId, seq<Edge>>

  ghost predicate WellFormed(table: EdgeTable) {
    forall p, i | p in table && 0 <= i < |table[p]| :: EdgeFormed(table, table[p][i])
  }

  /** Header edges lead to headers; the other resolved edges never do. */
  ghost predicate EdgeFormed(table: EdgeTable, e: Edge) {
    && (e.kind == GraphHeader ==> e.requested in table)
    && (e.kind == ProviderInterface || e.kind == SourcePackagePublicExport ==>
        e.resolved.Some? && e.resolved.value !in table)
  }

  ghost function TableGraph(table: EdgeTable): Graph<PathId> {
    map p | p in table :: Targets(table[p])
  }

  ghost function Broken(table: EdgeTable): set<PathId> {
    set p | p in table && HasMissing(table[p])
  }

  /** A diagnostic names a real defect of the header graph. */
  ghost predicate Truthful(table: EdgeTable, d: Diagnostic) {
    match d
    case CircularDependency(p) => ReachesStrictly(TableGraph(table), p, p)
    case MissingImportTarget(target) =>
      exists p, i :: p in table && 0 <= i < |table[p]| && table[p][i].kind == Missing && table[p][i].requested == target
  }

  /** Every emitted path comes after all its header dependencies, and none of them has a Missing edge. */
  ghost predicate Emitted(deps: Graph<PathId>, broken: set<PathId>, out: seq<PathId>) {
    && NoDup(out)
    && (forall k | 0 <= k < |out| :: out[k] in deps && out[k] !in broken)
    && (forall k, d | 0 <= k < |out| && d in deps[out[k]] :: d in out[..k])
  }

  lemma EmitOne(deps: Graph<PathId>, broken: set<PathId>, out: seq<PathId>, node: PathId)
    requires Emitted(deps, broken, out) && node in deps && node !in broken && node !in out
    requires forall d | d in deps[node] :: d in out
    ensures Emitted(deps, broken, out + [node])
  {
    var after := out + [node];
    forall k, d | 0 <= k < |after| && d in deps[after[k]] ensures d in after[..k] {
      if k < |out| {
        assert d in out[..k] && after[..k] == out[..k];
      } else {
        assert after[..k] == out;
      }
    }
  }

  /** The active stack is a chain of dependency edges, and `next` continues it. */
  ghost predicate Chain(deps: Graph<PathId>, stack: seq<PathId>) {
    && (forall i | 0 <= i < |stack| :: stack[i] in deps)
    && (forall i | 0 <= i < |stack| - 1 :: stack[i + 1] in deps[stack[i]])
  }

  ghost predicate Continues(deps: Graph<PathId>, stack: seq<PathId>, next: PathId) {
    next in deps && (stack != [] ==> stack[|stack| - 1] in deps && next in deps[stack[|stack| - 1]])
  }

  lemma ChainClosesCycle(deps: Graph<PathId>, stack: seq<PathId>, p: PathId)
    requires Chain(deps, stack) && Continues(deps, stack, p) && p in stack
    ensures ReachesStrictly(deps, p, p)
  {
    var i :| 0 <= i < |stack| && stack[i] == p;
    var tail := stack[i..] + [p];
    forall k | 0 <= k < |tail| - 1 ensures tail[k] in deps && tail[k + 1] in deps[tail[k]] {
      assert tail[k] == stack[i + k];
      if k + 1 < |stack| - i {
        assert tail[k + 1] == stack[i + k + 1];
      }
    }
    assert PathBetween(deps, tail[1..], tail[1], p);
  }

  /** The node on top of the stack is reachable from the bottom. */
  lemma ChainFromRoot(deps: Graph<PathId>, stack: seq<PathId>)
    requires Chain(deps, stack) && stack != []
    ensures Reaches(deps, stack[0], stack[|stack| - 1])
  {
    assert PathBetween(deps, stack, stack[0], stack[|stack| - 1]);
  }

  /** Everything emitted from position `base` on is reachable from `root`. */
  ghost predicate AllFrom(deps: Graph<PathId>, root: PathId, out: seq<PathId>, base: nat) {
    forall k | base <= k < |out| :: Reaches(deps, root, out[k])
  }

  ghost predicate AgreeAt(keys: set<PathId>, visited: set<PathId>, out: seq<PathId>, p: PathId) {
    p in keys ==> (p in visited <==> p in out)
  }

  /** Among the graph headers, visited means emitted. */
  ghost predicate Agree(keys: set<PathId>, visited: set<PathId>, out: seq<PathId>) {
    forall p :: AgreeAt(keys, visited, out, p)
  }

  lemma AgreeMore(keys: set<PathId>, visited: set<PathId>, out: seq<PathId>, p: PathId)
    requires Agree(keys, visited, out) && p !in keys
    ensures Agree(keys, visited + {p}, out)
  {
    forall q ensures AgreeAt(keys, visited + {p}, out, q) {
      assert AgreeAt(keys, visited, out, q);
    }
  }

  lemma AgreeEmitted(keys: set<PathId>, visited: set<PathId>, out: seq<PathId>, node: PathId)
    requires Agree(keys, visited, out)
    ensures Agree(keys, visited + {node}, out + [node])
  {
    forall q ensures AgreeAt(keys, visited + {node}, out + [node], q) {
      assert AgreeAt(keys, visited, out, q);
    }
  }

  lemma AgreeOn(keys: set<PathId>, visited: set<PathId>, out: seq<PathId>, some: set<PathId>)
    requires Agree(keys, visited, out) && some <= keys
    ensures forall p | p in some :: p in visited <==> p in out
  {
    forall p | p in some ensures p in visited <==> p in out {
      assert AgreeAt(keys, visited, out, p);
    }
  }

  ghost predicate Lists(headers: map<PathId, Header>, sorted: seq<Header>, out: seq<PathId>) {
    |out| == |sorted| && forall k | 0 <= k < |out| :: out[k] in headers && headers[out[k]] == sorted[k]
  }

  /** No edge is missing, and every header edge leads to a finished header. */
  ghost predicate Followed(edges: seq<Edge>, visited: set<PathId>) {
    forall e | e in edges :: e.kind != Missing && (e.kind == GraphHeader ==> e.requested in visited)
  }

  lemma FollowedNext(edges: seq<Edge>, i: nat, visited: set<PathId>)
    requires i < |edges| && Followed(edges[..i], visited) && Followed([edges[i]], visited)
    ensures Followed(edges[..i + 1], visited)
  {
    assert edges[..i + 1] == edges[..i] + [edges[i]];
  }

  function PathsOf(headers: seq<Header>): seq<PathId> {
    seq(|headers|, i requires 0 <= i < |headers| => headers[i].path)
  }

  // ----- the order as a pure depth-first post-order

  /** What is out after a visit, and whether the visit succeeded. */
  datatype Traversal = Traversal(out: seq<PathId>, ok: bool)

  ghost function PureVisit(table: EdgeTable, active: set<PathId>, out: seq<PathId>, node: PathId): Traversal
    decreases |table.Keys - active|, 0, 0
  {
    if node in active then Traversal(out, false)
    else if node in out || node !in table then Traversal(out, true)
    else
      assert table.Keys - (active + {node}) == (table.Keys - active) - {node};
      var below := PureEdges(table, active + {node}, out, table[node]);
      if below.ok then Traversal(below.out + [node], true) else below
  }

  ghost function PureEdges(table: EdgeTable, active: set<PathId>, out: seq<PathId>, edges: seq<Edge>): Traversal
    decreases |table.Keys - active|, 1, |edges|
  {
    if edges == [] then Traversal(out, true)
    else
      var first := PureEdge(table, active, out, edges[0]);
      if first.ok then PureEdges(table, active, first.out, edges[1..]) else first
  }

  /** Only header edges lead anywhere, and only a missing target fails by itself. */
  ghost function PureEdge(table: EdgeTable, active: set<PathId>, out: seq<PathId>, e: Edge): Traversal
    decreases |table.Keys - active|, 1, 0
  {
    if e.kind == GraphHeader then PureVisit(table, active, out, e.requested) else Traversal(out, e.kind != Missing)
  }

  lemma FewerUnmarked(all: set<PathId>, marked: set<PathId>, node: PathId)
    requires node in all && node !in marked
    ensures |all - (marked + {node})| < |all - marked|
  {
    assert all - (marked + {node}) == (all - marked) - {node};
  }

  lemma ListsPaths(headers: map<PathId, Header>, sorted: seq<Header>, out: seq<PathId>)
    requires Lists(headers, sorted, out) && forall p | p in headers :: headers[p].path == p
    ensures PathsOf(sorted) == out
  {
  }

  class DependencySorter {
    const graph: DependencyGraph
    const headers: map<PathId, Header>
    const table: EdgeTable
    ghost const deps: Graph<PathId>
    ghost const broken: set<PathId>
    const tracker: DependencyTracker
    var sorted: seq<Header>

    /** The paths of `sorted`. */
    ghost var out: seq<PathId>

    /** The source-order root being visited, and how much was already out when its visit began. */
    ghost var root: PathId
    ghost var base: nat

    constructor (graph: DependencyGraph, table: EdgeTable)
      requires graph.headers.Keys == table.Keys && WellFormed(table)
      ensures headers == graph.headers && this.table == table && Linked() && Valid() && fresh(tracker)
      ensures sorted == [] && out == [] && tracker.stack == [] && tracker.visited == {} && tracker.tempMark == {}
    {
      this.graph := graph;
      headers := graph.headers;
      this.table := table;
      deps := TableGraph(table);
      broken := Broken(table);
      tracker := new DependencyTracker();
      sorted, out, root, base := [], [], 0, 0;
      new;
      forall p ensures RowLinked(p) {
      }
    }

    /** What the sorter knows of one row: its header targets, whether a target is missing, where edges lead. */
    ghost predicate RowLinked(p: PathId) {
      p in table ==>
        && p in deps && deps[p] == Targets(table[p]) && deps[p] <= table.Keys && (p in broken <==> HasMissing(table[p]))
        && (forall i | 0 <= i < |table[p]| :: EdgeFormed(table, table[p][i]))
    }

    ghost predicate Linked() {
      && headers == graph.headers && headers.Keys == table.Keys == deps.Keys && broken <= table.Keys
      && forall p :: RowLinked(p)
    }

    lemma LinkedGraph()
      requires Linked()
      ensures deps == TableGraph(table) && broken == Broken(table)
    {
      forall p | p in table ensures deps[p] == Targets(table[p]) && (p in broken <==> HasMissing(table[p])) {
        assert RowLinked(p);
      }
    }

    /** The emitted headers are exactly the finished graph headers, whatever else is marked visited. */
    ghost predicate Valid()
      reads this, tracker
    {
      && headers.Keys == deps.Keys
      && tracker.Valid()
      && Chain(deps, tracker.stack) && (tracker.stack != [] ==> tracker.stack[0] == root)
      && Emitted(deps, broken, out) && Lists(headers, sorted, out)
      && Agree(headers.Keys, tracker.visited, out)
      && AllFrom(deps, root, out, base)
    }

    /** Nothing already emitted or visited is lost; the active stack is restored. */
    twostate predicate Grows()
      reads this, tracker
    {
      && tracker.stack == old(tracker.stack) && tracker.tempMark == old(tracker.tempMark)
      && old(tracker.visited) <= tracker.visited
      && old(out) <= out
    }

    /** A path that is no header is answered at once; a header is explored unless it is active or finished. */
    method VisitNode(node: PathId) returns (r: VisitResult)
      requires Linked() && Valid()
      requires node in headers ==> Continues(deps, tracker.stack, node) && (tracker.stack == [] ==> root == node)
      modifies this`sorted, this`out, tracker
      ensures Valid() && Grows()
      ensures r.Visited? ==> node in tracker.visited
      ensures node in headers && r.Failed? ==> Truthful(table, r.error)
      ensures node in headers ==> Traversal(out, r.Visited?) == PureVisit(table, old(tracker.tempMark), old(out), node)
      ensures node !in headers ==> out == old(out) && (r.Visited? <==> ResolveRequested(graph, node).Some?)
      ensures node !in headers && r.Failed? ==> r.error == MissingImportTarget(node)
      decreases |headers.Keys - tracker.tempMark|, 1
    {
      tracker.visitCount := tracker.visitCount + 1;
      var resolved := ResolveRequested(graph, node);
      if resolved.None? {
        return Failed(MissingImportTarget(node));
      }
      if resolved.value != GraphHeader {
        AgreeMore(headers.Keys, tracker.visited, out, node);
        tracker.visited := tracker.visited + {node};
        return Visited;
      }
      if node in tracker.tempMark {
        LinkedGraph();
        ChainClosesCycle(deps, tracker.stack, node);
        return Failed(CircularDependency(node));
      }
      AgreeOn(headers.Keys, tracker.visited, out, {node});
      if node in tracker.visited {
        return Visited;
      }
      r := Explore(node);
    }

    /** Enter an unmarked node, follow its edges, and retire it: emitted on success, abandoned on failure. */
    method Explore(node: PathId) returns (r: VisitResult)
      requires Linked() && Valid() && Continues(deps, tracker.stack, node)
      requires tracker.stack == [] ==> root == node
      requires node !in tracker.tempMark && node !in tracker.visited
      modifies this`sorted, this`out, tracker
      ensures Valid() && Grows()
      ensures r.Visited? ==> node in tracker.visited
      ensures r.Failed? ==> Truthful(table, r.error)
      ensures Traversal(out, r.Visited?) == PureVisit(table, old(tracker.tempMark), old(out), node)
      decreases |headers.Keys - tracker.tempMark|, 0
    {
      AgreeOn(headers.Keys, tracker.visited, out, {node});
      FewerUnmarked(headers.Keys, tracker.tempMark, node);
      Push(node);
      r := VisitEdges(node);
      Retire(node, r.Visited?, old(tracker.stack), old(tracker.tempMark), old(out));
    }

    /**
     Leave the node on top of the stack, emitted when its edges were all followed and abandoned otherwise;
     stack and marks are what they were before the node was entered.
     */
    method Retire(node: PathId, followed: bool, ghost stack: seq<PathId>, ghost marks: set<PathId>,
                  ghost before: seq<PathId>)
      requires Linked() && Valid() && before <= out
      requires tracker.stack == stack + [node] && tracker.tempMark == marks + {node} && node !in marks
      requires followed ==> node !in broken && deps[node] <= tracker.visited
      modifies this`sorted, this`out, tracker
      ensures Valid() && tracker.stack == stack && tracker.tempMark == marks && before <= out
      ensures tracker.visited == if followed then old(tracker.visited) + {node} else old(tracker.visited)
      ensures out == if followed then old(out) + [node] else old(out)
    {
      assert RowLinked(node);
      if followed {
        Emit(node);
      } else {
        Drop(node);
      }
    }

    method Push(node: PathId)
      requires Valid() && Continues(deps, tracker.stack, node)
      requires tracker.stack == [] ==> root == node
      requires node !in tracker.tempMark && node !in tracker.visited
      modifies tracker
      ensures Valid() && tracker.visited == old(tracker.visited)
      ensures tracker.stack == old(tracker.stack) + [node] && tracker.tempMark == old(tracker.tempMark) + {node}
    {
      tracker.Enter(node);
    }

    method Drop(node: PathId)
      requires Valid() && tracker.stack != [] && tracker.stack[|tracker.stack| - 1] == node
      modifies tracker
      ensures Valid() && tracker.visited == old(tracker.visited)
      ensures tracker.stack == old(tracker.stack)[..|old(tracker.stack)| - 1] &&
              tracker.tempMark == old(tracker.tempMark) - {node}
    {
      WithoutNoDup(tracker.stack, node);
      tracker.Abandon(node);
    }

    /** Follow every edge of the node on top of the stack, stopping at the first failure. */
    method VisitEdges(node: PathId) returns (r: VisitResult)
      requires Linked() && Valid() && tracker.stack != [] && tracker.stack[|tracker.stack| - 1] == node
      modifies this`sorted, this`out, tracker
      ensures Valid() && Grows()
      ensures r.Visited? ==> node !in broken && deps[node] <= tracker.visited
      ensures r.Failed? ==> Truthful(table, r.error)
      ensures Traversal(out, r.Visited?) == PureEdges(table, old(tracker.tempMark), old(out), table[node])
      decreases |headers.Keys - tracker.tempMark|, 3
    {
      r := Visited;
      var edges := table[node];
      ghost var active, expected := tracker.tempMark, PureEdges(table, tracker.tempMark, out, edges);
      assert edges[0..] == edges;
      for i := 0 to |edges|
        invariant Valid() && Grows()
        invariant r.Visited? && Followed(edges[..i], tracker.visited)
        invariant expected == PureEdges(table, active, out, edges[i..])
      {
        r := VisitEdge(node, i);
        if r.Failed? {
          return;
        }
        FollowedNext(edges, i, tracker.visited);
      }
      LinkedGraph();
    }

    /** Append the finished node and retire it from the stack. */
    method Emit(node: PathId)
      requires Valid() && tracker.stack != [] && tracker.stack[|tracker.stack| - 1] == node
      requires node !in broken && deps[node] <= tracker.visited && deps[node] <= headers.Keys
      modifies this`sorted, this`out, tracker
      ensures Valid() && tracker.visited == old(tracker.visited) + {node}
      ensures tracker.stack == old(tracker.stack)[..|old(tracker.stack)| - 1] &&
              tracker.tempMark == old(tracker.tempMark) - {node}
      ensures out == old(out) + [node]
    {
      AgreeOn(headers.Keys, tracker.visited, out, deps[node] + {node});
      EmitOne(deps, broken, out, node);
      AgreeEmitted(headers.Keys, tracker.visited, out, node);
      ChainFromRoot(deps, tracker.stack);
      WithoutNoDup(tracker.stack, node);
      sorted, out := sorted + [headers[node]], out + [node];
      tracker.Finish(node);
    }

    method VisitEdge(node: PathId, i: nat) returns (r: VisitResult)
      requires Linked() && Valid() && tracker.stack != [] && tracker.stack[|tracker.stack| - 1] == node
      requires i < |table[node]|
      modifies this`sorted, this`out, tracker
      ensures Valid() && Grows()
      ensures r.Visited? ==> Followed([table[node][i]], tracker.visited)
      ensures r.Failed? ==> Truthful(table, r.error)
      ensures Traversal(out, r.Visited?) == PureEdge(table, old(tracker.tempMark), old(out), table[node][i])
      decreases |headers.Keys - tracker.tempMark|, 2
    {
      var e := table[node][i];
      assert RowLinked(node);
      assert EdgeFormed(table, e);
      match e.kind
      case GraphHeader =>
        assert e.requested in deps[node];
        r := VisitNode(e.requested);
      case ProviderInterface =>
        AgreeMore(headers.Keys, tracker.visited, out, e.resolved.value);
        tracker.visited := tracker.visited + {e.resolved.value};
        r := Visited;
      case SourcePackagePublicExport =>
        AgreeMore(headers.Keys, tracker.visited, out, e.resolved.value);
        tracker.visited := tracker.visited + {e.resolved.value};
        r := Visited;
      case SameFileSymbolHint => r := Visited;
      case MissingContentSource => r := Visited;
      case Missing => r := Failed(MissingImportTarget(e.requested));
    }
  }
}
