/** Intra-module reachability over function link facts. */
module LinkFacts {
  import opened Collections
  import opened Graphs

  type FunctionId = nat
  type BlockId = nat

  /** A function outside the calling module: by source origin, module-private identity, or generated identity. */
  datatype Identity = Origin(id: nat) | ModulePrivate(id: nat) | Generated(id: nat)

  /** Direct facts of one function and of one block, as link planning retains them. */
  datatype FunctionRow = FunctionRow(entry: BlockId, projectContext: bool)

  /** One runtime use a block makes, such as an external call, a map operation or a numeric operation. */
  datatype RuntimeUse = RuntimeUse(kind: nat, site: nat)

  datatype BlockRow = BlockRow(
    owner: FunctionId, callList: seq<FunctionId>, outgoing: set<Identity>, uses: seq<RuntimeUse>,
    successorList: seq<BlockId>)
  {
    function Calls(): set<FunctionId> { SeqSet(callList) }
    function Successors(): set<BlockId> { SeqSet(successorList) }
  }

  datatype LinkTable = LinkTable(functions: map<FunctionId, FunctionRow>, blocks: map<BlockId, BlockRow>)

  datatype Reachability = Reachability(
    functions: set<FunctionId>, blocks: set<BlockId>, outgoing: set<Identity>, reachesContext: bool)

  datatype Result<+T> = Ok(value: T) | Err

  // ----- what a table says about whole functions

  function BlockGraph(t: LinkTable): Graph<BlockId> {
    map b | b in t.blocks :: t.blocks[b].Successors()
  }

  /** Control flow can take `f` from its entry to `b`. */
  ghost predicate InFunction(t: LinkTable, f: FunctionId, b: BlockId) {
    f in t.functions && Reaches(BlockGraph(t), t.functions[f].entry, b)
  }

  /**
   What one function's reachable blocks are, call and refer to; `complete` when none of them lacks facts,
   `filed` when all of them are recorded under the function itself.
   */
  datatype FunctionFacts = FunctionFacts(
    blocks: set<BlockId>, calls: set<FunctionId>, outgoing: set<Identity>, projectContext: bool, complete: bool,
    filed: bool)

  type ModuleFacts = map<FunctionId, FunctionFacts>

  ghost function BlocksOf(t: LinkTable, f: FunctionId): set<BlockId> {
    set b | b in t.blocks && InFunction(t, f, b)
  }

  ghost function FactsOf(t: LinkTable, f: FunctionId): FunctionFacts
    requires f in t.functions
  {
    var blocks := BlocksOf(t, f);
    FunctionFacts(blocks, set b, c | b in blocks && c in t.blocks[b].Calls() :: c,
                  set b, id | b in blocks && id in t.blocks[b].outgoing :: id,
                  t.functions[f].projectContext, forall b | InFunction(t, f, b) :: b in t.blocks,
                  forall b | b in blocks :: t.blocks[b].owner == f)
  }

  ghost function ModuleView(t: LinkTable): ModuleFacts {
    map f | f in t.functions :: FactsOf(t, f)
  }

  /** Blocks are recorded under the function whose control flow reaches them. */
  ghost predicate Owned(t: LinkTable) {
    && (forall f | f in t.functions && t.functions[f].entry in t.blocks :: t.blocks[t.functions[f].entry].owner == f)
    && (forall b, c | b in t.blocks && c in t.blocks && c in t.blocks[b].Successors() ::
        t.blocks[c].owner == t.blocks[b].owner)
  }

  function CallGraph(m: ModuleFacts): Graph<FunctionId> {
    map f | f in m :: m[f].calls
  }

  /** A function without facts, with a block without facts, or with a block filed elsewhere. */
  ghost predicate Deficient(m: ModuleFacts, f: FunctionId) {
    f !in m || !m[f].complete || !m[f].filed
  }

  /** Everything merged from a set of visited functions. */
  ghost predicate Merged(m: ModuleFacts, r: Reachability) {
    && r.functions <= m.Keys
    && (forall b :: b in r.blocks <==> exists f :: f in r.functions && b in m[f].blocks)
    && (forall id :: id in r.outgoing <==> exists f :: f in r.functions && id in m[f].outgoing)
    && (r.reachesContext <==> exists f :: f in r.functions && m[f].projectContext)
  }

  /** The exact intra-module closure of `roots`, with everything it refers to and nothing missing. */
  ghost predicate Describes(m: ModuleFacts, roots: set<FunctionId>, r: Reachability) {
    && Merged(m, r) && (forall f | f in r.functions :: m[f].complete)
    && forall f :: f in r.functions <==> ReachableFrom(CallGraph(m), roots, f)
  }

  lemma ReachableStep<N(!new)>(g: Graph<N>, seeds: set<N>, a: N, b: N)
    requires ReachableFrom(g, seeds, a) && a in g && b in g[a]
    ensures ReachableFrom(g, seeds, b)
  {
    var s :| s in seeds && Reaches(g, s, a);
    ReachesStep(g, a, b);
    ReachesTrans(g, s, a, b);
  }

  /** A set that holds the seeds and is closed under edges holds everything reachable. */
  lemma ClosedHoldsReachable<N(!new)>(g: Graph<N>, seeds: set<N>, closed: set<N>, b: N)
    requires seeds <= closed && ReachableFrom(g, seeds, b)
    requires forall x | x in closed && x in g :: g[x] <= closed
    ensures b in closed
  {
    var s :| s in seeds && Reaches(g, s, b);
    var p :| PathBetween(g, p, s, b);
    ClosedPath(g, closed, p, |p| - 1);
  }
}
