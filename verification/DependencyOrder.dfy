/** Stage 3 declaration ordering: the order is a function of the header graph alone. */
module DependencyOrder {
  import opened Collections
  import opened DependencyEdges
  import opened DependencySort
  import opened ModuleDependencies

  /** Source indexes name each header once. */
  ghost predicate Numbered(g: DependencyGraph) {
    && g.order.Keys == g.headers.Keys
    && forall p | p in g.order :: g.order[p] < |g.ordered| && g.ordered[g.order[p]] == p
  }

  lemma BuiltIsNumbered(headers: seq<Header>, g: DependencyGraph)
    ensures Built(headers, g) ==> Numbered(g)
  {
    forall p | Built(headers, g) && p in g.order ensures g.order[p] < |g.ordered| && g.ordered[g.order[p]] == p {
      assert p in g.headers;
    }
  }

  // ----- header targets in edge order

  ghost function HeaderTargets(edges: seq<Edge>): seq<PathId> {
    if edges == [] then []
    else if edges[0].kind == GraphHeader then [edges[0].requested] + HeaderTargets(edges[1..])
    else HeaderTargets(edges[1..])
  }

  lemma {:induction false} HeaderTargetsAre(edges: seq<Edge>)
    ensures forall t :: t in HeaderTargets(edges) <==>
            exists i :: 0 <= i < |edges| && edges[i].kind == GraphHeader && edges[i].requested == t
  {
    if edges != [] {
      HeaderTargetsAre(edges[1..]);
      forall t ensures t in HeaderTargets(edges) <==>
          exists i :: 0 <= i < |edges| && edges[i].kind == GraphHeader && edges[i].requested == t {
        if t in HeaderTargets(edges[1..]) {
          var i :| 0 <= i < |edges[1..]| && edges[1..][i].kind == GraphHeader && edges[1..][i].requested == t;
          assert edges[i + 1].kind == GraphHeader && edges[i + 1].requested == t;
        }
        if i :| 0 <= i < |edges| && edges[i].kind == GraphHeader && edges[i].requested == t {
          assert i > 0 ==> edges[1..][i - 1] == edges[i];
        }
      }
    }
  }

  /** Header edges carry their target's source index; other edges carry none. */
  ghost predicate Placed(g: DependencyGraph, e: Edge) {
    if e.kind == GraphHeader then
      e.requested in g.order && e.order == Some(g.order[e.requested]) && e.resolved == Some(e.requested)
    else e.order == None
  }

  /** What the sorted edge list of one header looks like from the sort's point of view. */
  ghost predicate Tidy(g: DependencyGraph, edges: seq<Edge>) {
    (forall i | 0 <= i < |edges| :: Placed(g, edges[i])) && EdgesSorted(g.ctx, edges) && TargetsDistinct(edges)
  }

  lemma TableIsTidy(g: DependencyGraph, table: EdgeTable, p: PathId)
    requires Prepared(g) && Numbered(g) && SortedTable(g, table) && p in table
    ensures Tidy(g, table[p])
  {
    forall i | 0 <= i < |table[p]| ensures Placed(g, table[p][i]) {
      assert table[p][i] in table[p] && EdgesFor(g, g.headers[p], table[p]);
      var j :| 0 <= j < |g.headers[p].hints| && table[p][i] == Classify(g, g.headers[p], g.headers[p].hints[j]);
    }
  }

  ghost predicate InSourceOrder(g: DependencyGraph, ts: seq<PathId>) {
    && (forall i | 0 <= i < |ts| :: ts[i] in g.order)
    && forall i, j | 0 <= i < j < |ts| :: g.order[ts[i]] < g.order[ts[j]]
  }

  lemma {:induction false} TargetsInSourceOrder(g: DependencyGraph, edges: seq<Edge>)
    requires Numbered(g) && Tidy(g, edges)
    ensures InSourceOrder(g, HeaderTargets(edges))
  {
    if edges != [] {
      TargetsInSourceOrder(g, edges[1..]);
      if edges[0].kind == GraphHeader {
        HeaderTargetsAre(edges[1..]);
        var rest := HeaderTargets(edges[1..]);
        forall j | 0 <= j < |rest| ensures g.order[edges[0].requested] < g.order[rest[j]] {
          assert rest[j] in rest;
          var i :| 0 <= i < |edges[1..]| && edges[1..][i].kind == GraphHeader && edges[1..][i].requested == rest[j];
          assert edges[1..][i] == edges[i + 1];
          assert EdgeLeq(g.ctx, edges[0], edges[i + 1]) && edges[0].resolved != edges[i + 1].resolved;
        }
      }
    }
  }

  /** Two source-ordered listings of the same headers are equal. */
  lemma {:induction false} ListingUnique(g: DependencyGraph, a: seq<PathId>, b: seq<PathId>)
    requires InSourceOrder(g, a) && InSourceOrder(g, b) && forall t :: t in a <==> t in b
    ensures a == b
  {
    assert a != [] ==> a[0] in b;
    assert b != [] ==> b[0] in a;
    if a != [] {
      assert a[0] == b[0];
      forall t ensures t in a[1..] <==> t in b[1..] {
        TailHolds(g, a, t);
        TailHolds(g, b, t);
      }
      ListingUnique(g, a[1..], b[1..]);
      assert a == [a[0]] + a[1..] && b == [b[0]] + b[1..];
    }
  }

  lemma TailHolds(g: DependencyGraph, a: seq<PathId>, t: PathId)
    requires InSourceOrder(g, a) && a != []
    ensures t in a[1..] <==> t in a && t != a[0]
  {
    if t in a && t != a[0] {
      var i :| 0 <= i < |a| && a[i] == t;
      assert a[1..][i - 1] == t;
    }
    if t in a[1..] {
      var i :| 0 <= i < |a[1..]| && a[1..][i] == t;
      assert a[i + 1] == t && g.order[a[0]] < g.order[a[i + 1]];
    }
  }

  // ----- the traversal sees only header targets and whether a target is missing

  ghost function PureTargets(table: EdgeTable, active: set<PathId>, out: seq<PathId>, ts: seq<PathId>,
                             missing: bool): Traversal
    decreases |ts|
  {
    if ts == [] then Traversal(out, !missing)
    else
      var first := PureVisit(table, active, out, ts[0]);
      if first.ok then PureTargets(table, active, first.out, ts[1..], missing) else first
  }

  /** Header edges come first, so the rest can only decide success. */
  lemma {:induction false} EdgesAreTargets(g: DependencyGraph, table: EdgeTable, active: set<PathId>,
                                           out: seq<PathId>, edges: seq<Edge>)
    requires Tidy(g, edges)
    ensures PureEdges(table, active, out, edges) ==
            PureTargets(table, active, out, HeaderTargets(edges), HasMissing(edges))
    decreases |edges|
  {
    if edges != [] {
      var e := edges[0];
      if e.kind == GraphHeader {
        assert HeaderTargets(edges)[1..] == HeaderTargets(edges[1..]);
        var first := PureVisit(table, active, out, e.requested);
        EdgesAreTargets(g, table, active, first.out, edges[1..]);
      } else {
        NoLaterHeaders(g, edges);
        EdgesAreTargets(g, table, active, out, edges[1..]);
      }
    }
  }

  lemma NoLaterHeaders(g: DependencyGraph, edges: seq<Edge>)
    requires Tidy(g, edges) && edges != [] && edges[0].kind != GraphHeader
    ensures HeaderTargets(edges) == HeaderTargets(edges[1..]) == []
  {
    forall i | 0 <= i < |edges| ensures edges[i].kind != GraphHeader {
      assert i > 0 ==> EdgeLeq(g.ctx, edges[0], edges[i]);
    }
    HeaderTargetsAre(edges);
    assert HeaderTargets(edges) == [] || HeaderTargets(edges)[0] in HeaderTargets(edges);
  }

  /** Two tables that list the same header targets in the same order, and agree on what is missing. */
  ghost predicate SameShape(g: DependencyGraph, a: EdgeTable, b: EdgeTable) {
    && a.Keys == b.Keys
    && (forall p | p in a :: Tidy(g, a[p]) && Tidy(g, b[p]))
    && (forall p | p in a :: HeaderTargets(a[p]) == HeaderTargets(b[p]) && (HasMissing(a[p]) <==> HasMissing(b[p])))
  }

  lemma TablesAgree(g: DependencyGraph, a: EdgeTable, b: EdgeTable)
    requires Prepared(g) && Numbered(g) && SortedTable(g, a) && SortedTable(g, b)
    ensures SameShape(g, a, b)
  {
    forall p | p in a
      ensures Tidy(g, a[p]) && Tidy(g, b[p]) && HeaderTargets(a[p]) == HeaderTargets(b[p]) &&
              (HasMissing(a[p]) <==> HasMissing(b[p]))
    {
      TableIsTidy(g, a, p);
      TableIsTidy(g, b, p);
      RowsAgree(g, a, b, p);
    }
  }

  lemma RowsAgree(g: DependencyGraph, a: EdgeTable, b: EdgeTable, p: PathId)
    requires Prepared(g) && Numbered(g) && SortedTable(g, a) && SortedTable(g, b) && p in a
    ensures (HeaderTargets(a[p]), HasMissing(a[p])) == (HeaderTargets(b[p]), HasMissing(b[p]))
  {
    TableIsTidy(g, a, p);
    TableIsTidy(g, b, p);
    TargetsInSourceOrder(g, a[p]);
    TargetsInSourceOrder(g, b[p]);
    EdgesMatchHints(g, g.headers[p], a[p]);
    EdgesMatchHints(g, g.headers[p], b[p]);
    SameTargets(a[p], b[p]);
    ListingUnique(g, HeaderTargets(a[p]), HeaderTargets(b[p]));
  }

  lemma SameTargets(a: seq<Edge>, b: seq<Edge>)
    requires Targets(a) == Targets(b)
    ensures forall t :: t in HeaderTargets(a) <==> t in HeaderTargets(b)
  {
    HeaderTargetsAre(a);
    HeaderTargetsAre(b);
    forall t ensures t in HeaderTargets(a) <==> t in HeaderTargets(b) {
      assert t in HeaderTargets(a) <==> t in Targets(a);
      assert t in HeaderTargets(b) <==> t in Targets(b);
    }
  }

  lemma {:induction false} VisitsAgree(g: DependencyGraph, a: EdgeTable, b: EdgeTable, active: set<PathId>,
                                       out: seq<PathId>, node: PathId)
    requires SameShape(g, a, b)
    ensures PureVisit(a, active, out, node) == PureVisit(b, active, out, node)
    decreases |a.Keys - active|, 0, 0
  {
    if node !in active && node !in out && node in a {
      assert a.Keys - (active + {node}) == (a.Keys - active) - {node};
      EdgesAreTargets(g, a, active + {node}, out, a[node]);
      EdgesAreTargets(g, b, active + {node}, out, b[node]);
      TargetVisitsAgree(g, a, b, active + {node}, out, HeaderTargets(a[node]), HasMissing(a[node]));
    }
  }

  lemma {:induction false} TargetVisitsAgree(g: DependencyGraph, a: EdgeTable, b: EdgeTable, active: set<PathId>,
                                             out: seq<PathId>, ts: seq<PathId>, missing: bool)
    requires SameShape(g, a, b)
    ensures PureTargets(a, active, out, ts, missing) == PureTargets(b, active, out, ts, missing)
    decreases |a.Keys - active|, 1, |ts|
  {
    if ts != [] {
      VisitsAgree(g, a, b, active, out, ts[0]);
      TargetVisitsAgree(g, a, b, active, PureVisit(a, active, out, ts[0]).out, ts[1..], missing);
    }
  }

  lemma {:induction false} RootsAgree(g: DependencyGraph, a: EdgeTable, b: EdgeTable, roots: seq<PathId>)
    requires SameShape(g, a, b)
    ensures PureRoots(a, roots) == PureRoots(b, roots)
  {
    if roots != [] {
      var n := |roots| - 1;
      RootsAgree(g, a, b, roots[..n]);
      VisitsAgree(g, a, b, {}, PureRoots(a, roots[..n]), roots[n]);
    }
  }

  /** One header graph has one order: hash iteration and edge bookkeeping cannot show through. */
  lemma DepthFirstUnique(g: DependencyGraph, a: seq<Header>, b: seq<Header>)
    requires Prepared(g) && Numbered(g) && ValidOrder(g, a) && ValidOrder(g, b) && DepthFirst(g, a) && DepthFirst(g, b)
    ensures a == b
  {
    var s :| SortedTable(g, s) && PathsOf(a) == PureRoots(s, g.ordered);
    var t :| SortedTable(g, t) && PathsOf(b) == PureRoots(t, g.ordered);
    TablesAgree(g, s, t);
    RootsAgree(g, s, t, g.ordered);
  }

  /** A module's headers have exactly one order that the sort can produce. */
  lemma OrderUnique(headers: seq<Header>, ctx: Context, a: seq<Header>, b: seq<Header>)
    requires forall h | h in headers :: h.source in ctx.sourcePaths
    requires OrderOf(headers, ctx, a) && OrderOf(headers, ctx, b)
    ensures a == b
  {
    BuiltIsNumbered(TopLevel(headers), ModuleGraph(headers, ctx));
    DepthFirstUnique(ModuleGraph(headers, ctx), a, b);
  }
}
