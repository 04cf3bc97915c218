/** Stage 3 declaration ordering: resolving retained hints into a sortable header graph. */
module DependencyEdges {
  import opened Collections
  import opened Graphs
  import opened Ordering

  /** An interned path handle; the interner knows its parent and its components. */
  type PathId = nat
  type SourceId = nat
  type Occurrence = nat

  datatype HintOrigin = ContentSource | Declaration

  datatype Hint = Hint(origin: HintOrigin, path: PathId, occurrence: Option<Occurrence>)

  datatype Header = Header(path: PathId, source: SourceId, isStart: bool, hints: seq<Hint>)

  /**
   Facts owned by earlier stages. `packageExports` maps a source-package prefix to its public export
   names; registered prefixes never nest, so at most one of them matches a path.
   */
  datatype Context = Context(
    parents: map<PathId, PathId>,
    components: map<PathId, seq<Text>>,
    packageExports: map<seq<Text>, set<Text>>,
    providers: set<PathId>,
    contentTargets: map<(SourceId, Occurrence), PathId>,
    sourcePaths: map<SourceId, PathId>)

  datatype DependencyGraph = DependencyGraph(
    headers: map<PathId, Header>, order: map<PathId, nat>, ordered: seq<PathId>, ctx: Context)

  datatype EdgeKind =
    GraphHeader | ProviderInterface | SourcePackagePublicExport | SameFileSymbolHint | MissingContentSource | Missing

  datatype Edge = Edge(requested: PathId, resolved: Option<PathId>, order: Option<nat>, kind: EdgeKind)

  // ----- edge resolution

  function Components(ctx: Context, path: PathId): seq<Text> {
    if path in ctx.components then ctx.components[path] else []
  }

  predicate IsPublicExport(ctx: Context, path: PathId) {
    var parts := Components(ctx, path);
    parts != [] &&
    exists prefix | prefix in ctx.packageExports :: prefix <= parts && parts[|parts| - 1] in ctx.packageExports[prefix]
  }

  /** The kind of a path that resolves, or `None` when it names nothing known. */
  function ResolveRequested(g: DependencyGraph, path: PathId): (r: Option<EdgeKind>)
    ensures path in g.headers <==> r == Some(GraphHeader)
  {
    if path in g.headers then Some(GraphHeader)
    else if path in g.ctx.providers then Some(ProviderInterface)
    else if IsPublicExport(g.ctx, path) then Some(SourcePackagePublicExport)
    else None
  }

  predicate IsSameFileHint(g: DependencyGraph, header: Header, path: PathId)
    requires header.source in g.ctx.sourcePaths
  {
    path in g.ctx.parents && g.ctx.parents[path] == g.ctx.sourcePaths[header.source]
  }

  // ----- what a hint means, read off the tables

  /** A declaration hint asks for its own path, a content hint for the canonical header of its occurrence. */
  ghost predicate AsksFor(ctx: Context, h: Header, hint: Hint, path: PathId) {
    match hint.origin
    case Declaration => path == hint.path
    case ContentSource =>
      exists o :: hint.occurrence == Some(o) && (h.source, o) in ctx.contentTargets &&
                  ctx.contentTargets[(h.source, o)] == path
  }

  /** The path's components start with a registered prefix and end in one of its exports. */
  ghost predicate Exported(ctx: Context, path: PathId) {
    exists prefix, rest, name ::
      && prefix in ctx.packageExports && name in ctx.packageExports[prefix] && path in ctx.components
      && ctx.components[path] == prefix + rest && EndsWith(ctx.components[path], name)
  }

  ghost predicate EndsWith(parts: seq<Text>, name: Text) {
    exists front :: parts == front + [name]
  }

  ghost predicate Known(g: DependencyGraph, path: PathId) {
    path in g.headers || path in g.ctx.providers || Exported(g.ctx, path)
  }

  /** The path names a symbol directly under the header's own source file. */
  ghost predicate OwnFile(ctx: Context, h: Header, path: PathId) {
    Get(ctx.parents, path).Some? && Get(ctx.parents, path) == Get(ctx.sourcePaths, h.source)
  }

  /** A declaration hint whose target is neither known nor deferred to another stage. */
  ghost predicate Dangling(g: DependencyGraph, h: Header, hint: Hint) {
    hint.origin == Declaration && !Known(g, hint.path) && !OwnFile(g.ctx, h, hint.path)
  }

  ghost predicate RightKind(g: DependencyGraph, h: Header, hint: Hint, path: PathId, kind: EdgeKind) {
    var asked := AsksFor(g.ctx, h, hint, path);
    && (kind == GraphHeader <==> asked && path in g.headers)
    && (kind == ProviderInterface <==> asked && path !in g.headers && path in g.ctx.providers)
    && (kind == SourcePackagePublicExport <==>
        asked && path !in g.headers && path !in g.ctx.providers && Exported(g.ctx, path))
    && (kind == SameFileSymbolHint <==> asked && !Known(g, path) && OwnFile(g.ctx, h, path))
    && (kind == Missing <==> Dangling(g, h, hint))
    && (kind == MissingContentSource <==>
        hint.origin == ContentSource && (asked ==> !Known(g, path) && !OwnFile(g.ctx, h, path)))
  }

  lemma ExportedMeaning(ctx: Context, path: PathId)
    ensures IsPublicExport(ctx, path) <==> Exported(ctx, path)
  {
    var parts := Components(ctx, path);
    if IsPublicExport(ctx, path) {
      var prefix :| prefix in ctx.packageExports && prefix <= parts &&
                    parts[|parts| - 1] in ctx.packageExports[prefix];
      assert parts == prefix + parts[|prefix|..] && parts == parts[..|parts| - 1] + [parts[|parts| - 1]];
      assert EndsWith(ctx.components[path], parts[|parts| - 1]);
    }
  }

  /** Exactly one kind of edge fits a hint, and it carries the target's source order. */
  function Classify(g: DependencyGraph, header: Header, hint: Hint): (r: Edge)
    requires header.source in g.ctx.sourcePaths
    ensures (forall path :: AsksFor(g.ctx, header, hint, path) ==> r.requested == path)
    ensures !AsksFor(g.ctx, header, hint, r.requested) ==> r.requested == hint.path
    ensures RightKind(g, header, hint, r.requested, r.kind)
    ensures r.resolved == if r.kind in {GraphHeader, ProviderInterface, SourcePackagePublicExport}
                          then Some(r.requested) else None
    ensures r.order == if r.kind == GraphHeader then Get(g.order, r.requested) else None
  {
    if hint.origin == ContentSource &&
       (hint.occurrence.None? || (header.source, hint.occurrence.value) !in g.ctx.contentTargets)
    then Edge(hint.path, None, None, MissingContentSource)
    else
      ExportedMeaning(g.ctx, if hint.origin == ContentSource then
                               g.ctx.contentTargets[(header.source, hint.occurrence.value)] else hint.path);
      var path := if hint.origin == ContentSource then g.ctx.contentTargets[(header.source, hint.occurrence.value)]
                  else hint.path;
      match ResolveRequested(g, path)
      case Some(kind) =>
        Edge(path, Some(path), if kind == GraphHeader && path in g.order then Some(g.order[path]) else None, kind)
      case None =>
        Edge(path, None, None,
             if IsSameFileHint(g, header, path) then SameFileSymbolHint
             else if hint.origin == ContentSource then MissingContentSource
             else Missing)
  }

  function Render(ctx: Context, path: PathId): Text {
    Join(Components(ctx, path))
  }

  /** Placed edges first, by source order; the text of the path decides among equals. */
  predicate EdgeLeq(ctx: Context, a: Edge, b: Edge): (r: bool)
    ensures r <==> (b.order.Some? ==> a.order.Some? && a.order.value <= b.order.value) &&
                   (a.order == b.order ==> LexLeq(Render(ctx, a.requested), Render(ctx, b.requested)))
  {
    if a.order == b.order then LexLeq(Render(ctx, a.requested), Render(ctx, b.requested))
    else a.order.Some? && (b.order.None? || a.order.value < b.order.value)
  }

  ghost predicate EdgesSorted(ctx: Context, es: seq<Edge>) {
    forall i, j | 0 <= i < j < |es| :: EdgeLeq(ctx, es[i], es[j])
  }

  function InsertEdge(ctx: Context, e: Edge, es: seq<Edge>): (r: seq<Edge>)
    ensures multiset(r) == multiset(es) + multiset{e}
  {
    if es == [] then [e]
    else if EdgeLeq(ctx, es[0], e) then
      assert es == [es[0]] + es[1..];
      [es[0]] + InsertEdge(ctx, e, es[1..])
    else [e] + es
  }

  /** A stable sort by source order, then by rendered text. */
  function SortEdges(ctx: Context, es: seq<Edge>): (r: seq<Edge>)
    ensures multiset(r) == multiset(es)
  {
    if es == [] then []
    else
      var n := |es| - 1;
      assert es == es[..n] + [es[n]];
      InsertEdge(ctx, es[n], SortEdges(ctx, es[..n]))
  }

  lemma EdgeTotal(ctx: Context, a: Edge, b: Edge)
    ensures EdgeLeq(ctx, a, b) || EdgeLeq(ctx, b, a)
  {
    LexTotal(Render(ctx, a.requested), Render(ctx, b.requested));
  }

  lemma EdgeTrans(ctx: Context, a: Edge, b: Edge, c: Edge)
    requires EdgeLeq(ctx, a, b) && EdgeLeq(ctx, b, c)
    ensures EdgeLeq(ctx, a, c)
  {
    if a.order == b.order == c.order {
      LexTrans(Render(ctx, a.requested), Render(ctx, b.requested), Render(ctx, c.requested));
    }
  }

  lemma InsertElements(ctx: Context, e: Edge, es: seq<Edge>, j: nat)
    requires j < |InsertEdge(ctx, e, es)|
    ensures InsertEdge(ctx, e, es)[j] in es || InsertEdge(ctx, e, es)[j] == e
  {
    var r := InsertEdge(ctx, e, es);
    assert r[j] in multiset(r);
    assert r[j] in multiset(es) + multiset{e};
  }

  lemma {:induction false} InsertSorted(ctx: Context, e: Edge, es: seq<Edge>)
    requires EdgesSorted(ctx, es)
    ensures EdgesSorted(ctx, InsertEdge(ctx, e, es))
  {
    if es != [] {
      if EdgeLeq(ctx, es[0], e) {
        InsertSorted(ctx, e, es[1..]);
        var tail := InsertEdge(ctx, e, es[1..]);
        forall j | 0 <= j < |tail| ensures EdgeLeq(ctx, es[0], tail[j]) {
          InsertElements(ctx, e, es[1..], j);
        }
      } else {
        EdgeTotal(ctx, es[0], e);
        forall j | 0 <= j < |es| ensures EdgeLeq(ctx, e, es[j]) {
          if j > 0 {
            EdgeTrans(ctx, e, es[0], es[j]);
          }
        }
      }
    }
  }

  lemma {:induction false} SortIsSorted(ctx: Context, es: seq<Edge>)
    ensures EdgesSorted(ctx, SortEdges(ctx, es))
  {
    if es != [] {
      SortIsSorted(ctx, es[..|es| - 1]);
      InsertSorted(ctx, es[|es| - 1], SortEdges(ctx, es[..|es| - 1]));
    }
  }

  /** The edge list stands for a hint: same target when it resolves, the very edge when it does not. */
  ghost predicate Covers(edges: seq<Edge>, e: Edge) {
    if e.resolved.Some? then exists i :: 0 <= i < |edges| && edges[i].resolved == e.resolved && edges[i].kind == e.kind
    else e in edges
  }

  ghost predicate TargetsDistinct(edges: seq<Edge>) {
    forall i, j | 0 <= i < j < |edges| && edges[i].resolved.Some? :: edges[i].resolved != edges[j].resolved
  }

  /** One edge per resolved target, in stable order. */
  method SortedDependencyEdges(g: DependencyGraph, header: Header) returns (edges: seq<Edge>)
    requires header.source in g.ctx.sourcePaths
    ensures forall i | 0 <= i < |header.hints| :: Covers(edges, Classify(g, header, header.hints[i]))
    ensures forall e | e in edges :: exists i :: 0 <= i < |header.hints| && e == Classify(g, header, header.hints[i])
    ensures TargetsDistinct(edges) && EdgesSorted(g.ctx, edges)
  {
    var seen: set<PathId> := {};
    var kept: seq<Edge> := [];
    for n := 0 to |header.hints|
      invariant forall i | 0 <= i < n :: Covers(kept, Classify(g, header, header.hints[i]))
      invariant forall e | e in kept :: exists i :: 0 <= i < n && e == Classify(g, header, header.hints[i])
      invariant forall e | e in kept && e.resolved.Some? :: e.resolved.value in seen
      invariant forall p | p in seen :: exists i :: 0 <= i < |kept| && kept[i].resolved == Some(p)
      invariant TargetsDistinct(kept)
    {
      var edge := Classify(g, header, header.hints[n]);
      ghost var before := kept;
      if edge.resolved.None? || edge.resolved.value !in seen {
        kept := kept + [edge];
        if edge.resolved.Some? {
          seen := seen + {edge.resolved.value};
        }
        assert kept[|kept| - 1] == edge;
        forall e | Covers(before, e) ensures Covers(kept, e) {
          if e.resolved.Some? {
            var i :| 0 <= i < |before| && before[i].resolved == e.resolved && before[i].kind == e.kind;
            assert kept[i] == before[i];
          }
        }
        forall p | p in seen ensures exists i :: 0 <= i < |kept| && kept[i].resolved == Some(p) {
          if edge.resolved != Some(p) {
            var i :| 0 <= i < |before| && before[i].resolved == Some(p);
            assert kept[i] == before[i];
          }
        }
      } else {
        var i :| 0 <= i < |kept| && kept[i].resolved == edge.resolved;
        assert kept[i] in kept;
      }
    }
    edges := SortEdges(g.ctx, kept);
    SortIsSorted(g.ctx, kept);
    SameElements(kept, edges);
  }

  lemma SameElements(a: seq<Edge>, b: seq<Edge>)
    requires multiset(a) == multiset(b) && TargetsDistinct(a)
    ensures forall e :: e in a <==> e in b
    ensures forall e :: Covers(a, e) ==> Covers(b, e)
    ensures TargetsDistinct(b)
  {
    forall e ensures e in a <==> e in b {
      assert e in a <==> e in multiset(a);
      assert e in b <==> e in multiset(b);
    }
    forall e | Covers(a, e) ensures Covers(b, e) {
      if e.resolved.Some? {
        var i :| 0 <= i < |a| && a[i].resolved == e.resolved && a[i].kind == e.kind;
        assert a[i] in b;
      }
    }
    forall i, j | 0 <= i < j < |b| && b[i].resolved.Some? ensures b[i].resolved != b[j].resolved {
      if b[i].resolved == b[j].resolved {
        assert b[i] in a && b[j] in a;
        var k :| 0 <= k < |a| && a[k] == b[i];
        var l :| 0 <= l < |a| && a[l] == b[j];
        assert k == l;
        TwiceInMultiset(b, i, j);
        OnceInMultiset(a, k);
      }
    }
  }

  lemma TwiceInMultiset<T>(s: seq<T>, i: nat, j: nat)
    requires i < j < |s| && s[i] == s[j]
    ensures multiset(s)[s[i]] >= 2
  {
    assert s == s[..i] + [s[i]] + s[i + 1..j] + [s[j]] + s[j + 1..];
  }

  lemma OnceInMultiset<T>(s: seq<T>, k: nat)
    requires k < |s| && forall i | 0 <= i < |s| && i != k :: s[i] != s[k]
    ensures multiset(s)[s[k]] == 1
  {
    assert s == s[..k] + [s[k]] + s[k + 1..];
    assert s[k] !in s[..k] && s[k] !in s[k + 1..];
  }

  // ----- the header graph

  function AddHeader(g: DependencyGraph, h: Header): DependencyGraph {
    g.(headers := g.headers[h.path := h], order := g.order[h.path := |g.ordered|], ordered := g.ordered + [h.path])
  }

  /** Later duplicates replace the retained header and its source order, but every path stays listed. */
  function GraphOf(headers: seq<Header>, ctx: Context): DependencyGraph {
    if headers == [] then DependencyGraph(map[], map[], [], ctx)
    else AddHeader(GraphOf(headers[..|headers| - 1], ctx), headers[|headers| - 1])
  }

  /** Every path is listed in source order; the last header under a path is retained, with its index. */
  ghost predicate Built(headers: seq<Header>, g: DependencyGraph) {
    && |g.ordered| == |headers| && (forall i | 0 <= i < |headers| :: g.ordered[i] == headers[i].path)
    && g.headers.Keys == g.order.Keys
    && (forall i | 0 <= i < |headers| :: headers[i].path in g.order && i <= g.order[headers[i].path])
    && (forall p | p in g.headers ::
          g.order[p] < |headers| && g.headers[p] == headers[g.order[p]] && g.headers[p].path == p)
  }

  lemma {:induction false} GraphIsBuilt(headers: seq<Header>, ctx: Context)
    ensures Built(headers, GraphOf(headers, ctx)) && GraphOf(headers, ctx).ctx == ctx
  {
    if headers != [] {
      var n := |headers| - 1;
      GraphIsBuilt(headers[..n], ctx);
      assert headers == headers[..n] + [headers[n]];
    }
  }

  method FromHeaders(headers: seq<Header>, ctx: Context) returns (g: DependencyGraph)
    ensures g == GraphOf(headers, ctx) && g.ctx == ctx && Built(headers, g)
  {
    g := DependencyGraph(map[], map[], [], ctx);
    for i := 0 to |headers|
      invariant g == GraphOf(headers[..i], ctx)
    {
      assert headers[..i + 1][..i] == headers[..i];
      g := AddHeader(g, headers[i]);
    }
    assert headers[..|headers|] == headers;
    GraphIsBuilt(headers, ctx);
  }

  lemma BuiltFacts(headers: seq<Header>, g: DependencyGraph)
    requires Built(headers, g)
    ensures g.headers.Keys == SeqSet(g.ordered) && forall p | p in g.headers :: g.headers[p] in headers
  {
    forall p ensures p in g.headers <==> p in SeqSet(g.ordered) {
      if p in SeqSet(g.ordered) {
        var i :| 0 <= i < |g.ordered| && g.ordered[i] == p;
        assert headers[i].path == p;
      }
    }
  }

  /** Every header's source has a prepared path identity, which the source demands of its caller. */
  ghost predicate Prepared(g: DependencyGraph) {
    forall p | p in g.headers :: g.headers[p].path == p && g.headers[p].source in g.ctx.sourcePaths
  }

  /** Header-to-header dependencies: the headers some hint asks for. */
  ghost function HintTargets(g: DependencyGraph, h: Header): set<PathId> {
    set p | p in g.headers && exists i :: 0 <= i < |h.hints| && AsksFor(g.ctx, h, h.hints[i], p)
  }

  ghost predicate HasMissingHint(g: DependencyGraph, h: Header) {
    exists i :: 0 <= i < |h.hints| && Dangling(g, h, h.hints[i])
  }

  ghost function HeaderGraph(g: DependencyGraph): Graph<PathId>
    requires Prepared(g)
  {
    map p | p in g.headers :: HintTargets(g, g.headers[p])
  }

  ghost function Targets(es: seq<Edge>): set<PathId> {
    set i | 0 <= i < |es| && es[i].kind == GraphHeader :: es[i].requested
  }

  ghost predicate HasMissing(es: seq<Edge>) {
    exists i :: 0 <= i < |es| && es[i].kind == Missing
  }

  /** Deduplicating and sorting edges loses no dependency and no missing target. */
  lemma EdgesMatchHints(g: DependencyGraph, h: Header, edges: seq<Edge>)
    requires h.source in g.ctx.sourcePaths
    requires forall i | 0 <= i < |h.hints| :: Covers(edges, Classify(g, h, h.hints[i]))
    requires forall e | e in edges :: exists i :: 0 <= i < |h.hints| && e == Classify(g, h, h.hints[i])
    ensures Targets(edges) == HintTargets(g, h)
    ensures HasMissing(edges) <==> HasMissingHint(g, h)
    ensures Targets(edges) <= g.headers.Keys
  {
    forall i, p | 0 <= i < |h.hints| && p in g.headers && AsksFor(g.ctx, h, h.hints[i], p) ensures p in Targets(edges) {
      var e := Classify(g, h, h.hints[i]);
      assert e.requested == p && e.kind == GraphHeader;
      var j :| 0 <= j < |edges| && edges[j].resolved == e.resolved && edges[j].kind == e.kind;
      assert edges[j] in edges;
    }
    forall i | 0 <= i < |h.hints| && Dangling(g, h, h.hints[i]) ensures HasMissing(edges) {
      assert Classify(g, h, h.hints[i]) in edges;
    }
    forall j | 0 <= j < |edges| ensures
      (edges[j].kind == GraphHeader ==> edges[j].requested in HintTargets(g, h)) &&
      (edges[j].kind == Missing ==> HasMissingHint(g, h))
    {
      assert edges[j] in edges;
    }
  }
}
