/** The two interleaved work lists, functions and blocks, that select what a module's roots reach. */
module LinkWalk {
  import opened Collections
  import opened Graphs
  import opened LinkFacts

  /** What has been selected, and the functions and blocks still queued. */
  datatype Walk = Walk(reached: Reachability, log: Log, work: seq<FunctionId>, pending: seq<BlockId>)

  /** The visit order of functions and blocks, runtime uses in that order, the first project-context function. */
  datatype Log = Log(functions: seq<FunctionId>, blocks: seq<BlockId>, uses: seq<RuntimeUse>,
                     firstContext: Option<FunctionId>)

  const EMPTY_LOG := Log([], [], [], None)

  /** Functions the walk may select, and the blocks each function may select. */
  datatype Bounds = Bounds(functions: iset<FunctionId>, blocks: iset<(FunctionId, BlockId)>)

  /** What a block's row leads to stays within the bounds of every function that may select the block. */
  ghost predicate RowClosed(t: LinkTable, k: Bounds, b: BlockId) {
    b in t.blocks ==> forall f | (f, b) in k.blocks ::
      && (forall c | c in t.blocks[b].Successors() :: (f, c) in k.blocks)
      && (f in k.functions ==> forall c | c in t.blocks[b].Calls() :: c in k.functions)
  }

  ghost predicate EntryClosed(t: LinkTable, k: Bounds, f: FunctionId) {
    f in t.functions && f in k.functions ==> (f, t.functions[f].entry) in k.blocks
  }

  /** Following any row of the table stays within the bounds. */
  ghost predicate Closed(t: LinkTable, k: Bounds) {
    (forall f :: EntryClosed(t, k, f)) && (forall b :: RowClosed(t, k, b))
  }

  ghost predicate HoldsAt(k: Bounds, seeds: set<FunctionId>, f: FunctionId) {
    f in seeds ==> f in k.functions
  }

  /** The bounds hold all the seeds. */
  ghost predicate Holds(k: Bounds, seeds: set<FunctionId>) {
    forall f :: HoldsAt(k, seeds, f)
  }

  /** Some selected function reaches the block. */
  ghost predicate Housed(k: Bounds, functions: set<FunctionId>, b: BlockId) {
    exists f :: f in functions && (f, b) in k.blocks
  }

  /** The selection is the union of the visited rows. */
  ghost predicate Collected(t: LinkTable, r: Reachability) {
    && r.functions <= t.functions.Keys && r.blocks <= t.blocks.Keys
    && (forall id :: id in r.outgoing <==> exists b :: b in r.blocks && id in t.blocks[b].outgoing)
    && (r.reachesContext <==> exists f :: f in r.functions && t.functions[f].projectContext)
  }

  /** Everything known is within bounds. */
  ghost predicate Inside(k: Bounds, functions: set<FunctionId>, work: set<FunctionId>, blocks: set<BlockId>) {
    && (forall f | f in functions + work :: f in k.functions)
    && (forall b | b in blocks :: Housed(k, functions, b))
  }

  ghost predicate RowFollowed(t: LinkTable, visited: set<BlockId>, functions: set<FunctionId>, blocks: set<BlockId>,
                              b: BlockId) {
    b in visited && b in t.blocks ==> t.blocks[b].Successors() <= blocks && t.blocks[b].Calls() <= functions
  }

  ghost predicate EntryFollowed(t: LinkTable, visited: set<FunctionId>, blocks: set<BlockId>, f: FunctionId) {
    f in visited && f in t.functions ==> t.functions[f].entry in blocks
  }

  /** Everything a visited row leads to is known. */
  ghost predicate Followed(t: LinkTable, r: Reachability, functions: set<FunctionId>, blocks: set<BlockId>) {
    && (forall f :: EntryFollowed(t, r.functions, blocks, f))
    && (forall b :: RowFollowed(t, r.blocks, functions, blocks, b))
  }

  ghost predicate GoodSets(t: LinkTable, seeds: set<FunctionId>, k: Bounds, r: Reachability, work: set<FunctionId>,
                           pending: set<BlockId>) {
    && Collected(t, r) && seeds <= r.functions + work
    && Inside(k, r.functions, work, r.blocks + pending)
    && Followed(t, r, r.functions + work, r.blocks + pending)
  }

  /** The walks that selected rows of the table only, within bounds, and know everything those rows lead to. */
  ghost function GoodWalks(t: LinkTable, seeds: set<FunctionId>, k: Bounds): iset<Walk> {
    iset w: Walk | GoodSets(t, seeds, k, w.reached, SeqSet(w.work), SeqSet(w.pending))
  }

  ghost predicate Good(t: LinkTable, seeds: set<FunctionId>, k: Bounds, w: Walk) {
    w in GoodWalks(t, seeds, k)
  }

  /** A block within bounds is missing, or filed under another function. */
  ghost predicate BadBlockOf(t: LinkTable, k: Bounds, f: FunctionId) {
    exists b :: (f, b) in k.blocks && (b !in t.blocks || t.blocks[b].owner != f)
  }

  ghost predicate Defect(t: LinkTable, k: Bounds) {
    exists f :: f in k.functions && (f !in t.functions || BadBlockOf(t, k, f))
  }

  // ----- one visit

  function VisitFunction(t: LinkTable, w: Walk, f: FunctionId): Walk
    requires f in t.functions
  {
    var r, context := w.reached, t.functions[f].projectContext;
    Walk(r.(functions := r.functions + {f}, reachesContext := r.reachesContext || context),
         w.log.(functions := w.log.functions + [f],
                firstContext := if w.log.firstContext.None? && context then Some(f) else w.log.firstContext),
         w.work, w.pending + [t.functions[f].entry])
  }

  /** The members of a list that still need a visit, in the list's order. */
  function Unvisited(list: seq<nat>, visited: set<nat>): (r: seq<nat>)
    ensures SeqSet(r) == SeqSet(list) - visited
  {
    if list == [] then []
    else
      var rest := Unvisited(list[1..], visited);
      QueueSet([list[0]], rest);
      if list[0] in visited then rest else [list[0]] + rest
  }

  function VisitBlock(t: LinkTable, w: Walk, b: BlockId): Walk
    requires b in t.blocks
  {
    var r, row := w.reached, t.blocks[b];
    Walk(r.(blocks := r.blocks + {b}, outgoing := r.outgoing + row.outgoing),
         w.log.(blocks := w.log.blocks + [b], uses := w.log.uses + row.uses),
         w.work + Unvisited(row.callList, r.functions), w.pending + Unvisited(row.successorList, r.blocks + {b}))
  }

  lemma CollectBlock(t: LinkTable, r: Reachability, b: BlockId)
    requires Collected(t, r) && b in t.blocks
    ensures Collected(t, r.(blocks := r.blocks + {b}, outgoing := r.outgoing + t.blocks[b].outgoing))
  {
    var after := r.blocks + {b};
    forall id ensures id in r.outgoing + t.blocks[b].outgoing <==>
        exists c :: c in after && id in t.blocks[c].outgoing {
      if id in r.outgoing {
        var c :| c in r.blocks && id in t.blocks[c].outgoing;
        assert c in after;
      }
      if id in t.blocks[b].outgoing {
        assert b in after;
      }
    }
  }

  lemma FollowedEntry(t: LinkTable, r: Reachability, f: FunctionId, functions: set<FunctionId>, blocks: set<BlockId>,
                      after: Reachability, functions': set<FunctionId>, blocks': set<BlockId>)
    requires Followed(t, r, functions, blocks) && f in t.functions && functions <= functions' && blocks <= blocks'
    requires t.functions[f].entry in blocks' && after.blocks == r.blocks && after.functions == r.functions + {f}
    ensures Followed(t, after, functions', blocks')
  {
    forall h ensures EntryFollowed(t, after.functions, blocks', h) {
      assert EntryFollowed(t, r.functions, blocks, h);
    }
    forall c ensures RowFollowed(t, after.blocks, functions', blocks', c) {
      assert RowFollowed(t, r.blocks, functions, blocks, c);
    }
  }

  lemma VisitFunctionKeeps(t: LinkTable, seeds: set<FunctionId>, k: Bounds, w: Walk, f: FunctionId)
    requires Closed(t, k) && Good(t, seeds, k, w.(work := [f] + w.work)) && f in t.functions
    ensures Good(t, seeds, k, VisitFunction(t, w, f))
  {
    var after := VisitFunction(t, w, f);
    QueueSet(w.pending, [t.functions[f].entry]);
    QueueSet([f], w.work);
    FollowedEntry(t, w.reached, f, w.reached.functions + SeqSet([f] + w.work), w.reached.blocks + SeqSet(w.pending),
                  after.reached, after.reached.functions + SeqSet(after.work),
                      after.reached.blocks + SeqSet(after.pending));
    assert EntryClosed(t, k, f);
    assert Housed(k, after.reached.functions, t.functions[f].entry);
  }

  /** Everything the block's row leads to is within bounds. */
  ghost predicate LeadsInside(k: Bounds, functions: set<FunctionId>, row: BlockRow) {
    (forall c | c in row.Successors() :: Housed(k, functions, c)) && (forall c | c in row.Calls() :: c in k.functions)
  }

  lemma RowLeadsInside(t: LinkTable, k: Bounds, functions: set<FunctionId>, b: BlockId)
    requires Closed(t, k) && Housed(k, functions, b) && b in t.blocks && forall f | f in functions :: f in k.functions
    ensures LeadsInside(k, functions, t.blocks[b])
  {
    var f := HomeOf(k, functions, b);
    assert RowClosed(t, k, b);
    forall c | c in t.blocks[b].Successors() ensures Housed(k, functions, c) {
      assert (f, c) in k.blocks;
    }
  }

  lemma FollowedNext(t: LinkTable, r: Reachability, functions: set<FunctionId>, blocks: set<BlockId>, b: BlockId,
                     after: Reachability, functions': set<FunctionId>, blocks': set<BlockId>)
    requires Followed(t, r, functions, blocks) && b in t.blocks && functions <= functions' && blocks <= blocks'
    requires t.blocks[b].Successors() <= blocks' && t.blocks[b].Calls() <= functions'
    requires after.functions == r.functions && after.blocks == r.blocks + {b}
    ensures Followed(t, after, functions', blocks')
  {
    forall f ensures EntryFollowed(t, after.functions, blocks', f) {
      assert EntryFollowed(t, r.functions, blocks, f);
    }
    forall c ensures RowFollowed(t, after.blocks, functions', blocks', c) {
      assert RowFollowed(t, r.blocks, functions, blocks, c);
    }
  }

  lemma VisitBlockSets(t: LinkTable, seeds: set<FunctionId>, k: Bounds, r: Reachability, work: set<FunctionId>,
                       pending: set<BlockId>, b: BlockId)
    requires GoodSets(t, seeds, k, r, work, pending + {b}) && b in t.blocks && LeadsInside(k, r.functions, t.blocks[b])
    ensures GoodSets(t, seeds, k, r.(blocks := r.blocks + {b}, outgoing := r.outgoing + t.blocks[b].outgoing),
                     work + (t.blocks[b].Calls() - r.functions),
                     pending + (t.blocks[b].Successors() - (r.blocks + {b})))
  {
    var row := t.blocks[b];
    var after := r.(blocks := r.blocks + {b}, outgoing := r.outgoing + row.outgoing);
    CollectBlock(t, r, b);
    var functions', blocks' := r.functions + (work + (row.Calls() - r.functions)),
        after.blocks + (pending + (row.Successors() - after.blocks));
    FollowedNext(t, r, r.functions + work, r.blocks + (pending + {b}), b, after, functions', blocks');
  }

  lemma VisitBlockKeeps(t: LinkTable, seeds: set<FunctionId>, k: Bounds, w: Walk, b: BlockId)
    requires Good(t, seeds, k, w.(pending := [b] + w.pending)) && b in t.blocks
    requires LeadsInside(k, w.reached.functions, t.blocks[b])
    ensures Good(t, seeds, k, VisitBlock(t, w, b))
  {
    var row := t.blocks[b];
    QueueSet([b], w.pending);
    QueueSet(w.pending, Unvisited(row.successorList, w.reached.blocks + {b}));
    QueueSet(w.work, Unvisited(row.callList, w.reached.functions));
    assert SeqSet([b]) == {b};
    assert SeqSet([b] + w.pending) == SeqSet(w.pending) + {b};
    VisitBlockSets(t, seeds, k, w.reached, SeqSet(w.work), SeqSet(w.pending), b);
  }

  lemma HomeOf(k: Bounds, functions: set<FunctionId>, b: BlockId) returns (f: FunctionId)
    requires Housed(k, functions, b)
    ensures f in functions && (f, b) in k.blocks
  {
    f :| f in functions && (f, b) in k.blocks;
  }

  // ----- the log

  /** Runtime uses of a list of blocks, one block after another. */
  ghost function UsesOf(t: LinkTable, blocks: seq<BlockId>): seq<RuntimeUse>
    requires forall b | b in blocks :: b in t.blocks
  {
    if blocks == [] then [] else UsesOf(t, blocks[..|blocks| - 1]) + t.blocks[blocks[|blocks| - 1]].uses
  }

  ghost predicate IsFirstContext(t: LinkTable, functions: seq<FunctionId>, first: Option<FunctionId>)
    requires forall f | f in functions :: f in t.functions
  {
    match first
    case None => forall f | f in functions :: !t.functions[f].projectContext
    case Some(f) => exists i :: 0 <= i < |functions| && functions[i] == f && t.functions[f].projectContext &&
                                forall j | 0 <= j < i :: !t.functions[functions[j]].projectContext
  }

  /** Every selected function and block is listed once; uses follow the block order. */
  ghost predicate Logged(t: LinkTable, r: Reachability, log: Log) {
    && NoDup(log.functions) && SeqSet(log.functions) == r.functions &&
       (forall f | f in log.functions :: f in t.functions)
    && NoDup(log.blocks) && SeqSet(log.blocks) == r.blocks && (forall b | b in log.blocks :: b in t.blocks)
    && log.uses == UsesOf(t, log.blocks) && IsFirstContext(t, log.functions, log.firstContext)
  }

  lemma LogFunction(t: LinkTable, w: Walk, f: FunctionId)
    requires Logged(t, w.reached, w.log) && f in t.functions && f !in w.reached.functions
    ensures var after := VisitFunction(t, w, f); Logged(t, after.reached, after.log)
  {
    var after := VisitFunction(t, w, f);
    var old_, new_ := w.log.functions, after.log.functions;
    QueueSet(old_, [f]);
    assert forall i | 0 <= i < |old_| :: old_[i] in SeqSet(old_);
    assert new_[|old_|] == f;
    if w.log.firstContext.Some? {
      var i :| 0 <= i < |old_| && old_[i] == w.log.firstContext.value &&
               forall j | 0 <= j < i :: !t.functions[old_[j]].projectContext;
      assert new_[i] == old_[i] && forall j | 0 <= j < i :: new_[j] == old_[j];
    }
  }

  lemma LogBlock(t: LinkTable, w: Walk, b: BlockId)
    requires Logged(t, w.reached, w.log) && b in t.blocks && b !in w.reached.blocks
    ensures var after := VisitBlock(t, w, b); Logged(t, after.reached, after.log)
  {
    var old_, new_ := w.log.blocks, w.log.blocks + [b];
    QueueSet(old_, [b]);
    assert forall i | 0 <= i < |old_| :: old_[i] in SeqSet(old_);
    assert new_[..|old_|] == old_;
  }

  // ----- the visit order as pure functions

  /** Functions in queue order, each once; entry blocks are queued behind the pending ones. */
  function PureFunctions(t: LinkTable, w: Walk): (r: Result<Walk>)
    ensures r.Ok? ==> r.value.work == [] && r.value.reached.blocks == w.reached.blocks
    ensures r.Ok? ==> r.value == w.(work := []) || FunctionsLeft(t, r.value) < FunctionsLeft(t, w)
    decreases FunctionsLeft(t, w), |w.work|
  {
    if w.work == [] then Ok(w)
    else
      var f, rest := w.work[0], w.(work := w.work[1..]);
      if f in w.reached.functions then PureFunctions(t, rest)
      else if f !in t.functions then Err
      else
        PureFunctions(t, VisitFunction(t, rest, f))
  }

  /** Blocks in queue order, each once; a block is refused when its row is missing or its owner unvisited. */
  function PureBlocks(t: LinkTable, w: Walk): (r: Result<Walk>)
    ensures r.Ok? ==> r.value.pending == [] && r.value.reached.functions == w.reached.functions
    ensures r.Ok? ==> r.value == w.(pending := []) || BlocksLeft(t, r.value) < BlocksLeft(t, w)
    decreases BlocksLeft(t, w), |w.pending|
  {
    if w.pending == [] then Ok(w)
    else
      var b, rest := w.pending[0], w.(pending := w.pending[1..]);
      if b in w.reached.blocks then PureBlocks(t, rest)
      else if b !in t.blocks || t.blocks[b].owner !in w.reached.functions then Err
      else
        PureBlocks(t, VisitBlock(t, rest, b))
  }

  /** Drain functions, then blocks, until both queues are empty. */
  function PureWalk(t: LinkTable, w: Walk): Result<Walk>
    decreases FunctionsLeft(t, w), BlocksLeft(t, w), |w.work| + |w.pending|
  {
    if w.work == [] && w.pending == [] then Ok(w)
    else
      var first := PureFunctions(t, w);
      if first.Err? then Err
      else
        var second := PureBlocks(t, first.value);
        if second.Err? then Err else PureWalk(t, second.value)
  }

  function StartWalk(roots: seq<FunctionId>): Walk {
    Walk(Reachability({}, {}, {}, false), EMPTY_LOG, roots, [])
  }

  function FunctionsLeft(t: LinkTable, w: Walk): set<FunctionId> {
    t.functions.Keys - w.reached.functions
  }

  function BlocksLeft(t: LinkTable, w: Walk): set<BlockId> {
    t.blocks.Keys - w.reached.blocks
  }

  // ----- the loops

  lemma PopFunction(t: LinkTable, seeds: set<FunctionId>, k: Bounds, w: Walk)
    requires Good(t, seeds, k, w) && w.work != []
    ensures w.work == [w.work[0]] + w.work[1..] && w.work[0] in k.functions
    ensures w.work[0] in w.reached.functions ==> Good(t, seeds, k, w.(work := w.work[1..]))
  {
    assert w.work == [w.work[0]] + w.work[1..];
    assert w.work[0] in SeqSet(w.work);
    var r := w.reached;
    if w.work[0] in r.functions {
      assert r.functions + SeqSet(w.work) == r.functions + SeqSet(w.work[1..]);
    }
  }

  lemma PopBlock(t: LinkTable, seeds: set<FunctionId>, k: Bounds, w: Walk)
    requires Good(t, seeds, k, w) && w.pending != []
    ensures w.pending == [w.pending[0]] + w.pending[1..] && Housed(k, w.reached.functions, w.pending[0])
    ensures forall f | f in w.reached.functions :: f in k.functions
    ensures w.pending[0] in w.reached.blocks ==> Good(t, seeds, k, w.(pending := w.pending[1..]))
  {
    assert w.pending == [w.pending[0]] + w.pending[1..];
    assert w.pending[0] in SeqSet(w.pending);
    var r := w.reached;
    if w.pending[0] in r.blocks {
      assert r.blocks + SeqSet(w.pending) == r.blocks + SeqSet(w.pending[1..]);
    }
  }

  /** Visit queued functions until none is left; only blocks are queued meanwhile. */
  method DrainFunctions(t: LinkTable, start: Walk, ghost seeds: set<FunctionId>, ghost k: Bounds)
      returns (r: Result<Walk>)
    requires Closed(t, k) && Good(t, seeds, k, start) && Logged(t, start.reached, start.log)
    ensures r == PureFunctions(t, start)
    ensures r.Ok? ==> Good(t, seeds, k, r.value) && Logged(t, r.value.reached, r.value.log)
    ensures r.Err? ==> Defect(t, k)
  {
    var w := start;
    while w.work != []
      invariant Good(t, seeds, k, w) && Logged(t, w.reached, w.log)
      invariant PureFunctions(t, start) == PureFunctions(t, w)
      decreases FunctionsLeft(t, w), |w.work|
    {
      PopFunction(t, seeds, k, w);
      var f := w.work[0];
      var rest := w.(work := w.work[1..]);
      if f in w.reached.functions {
        w := rest;
        continue;
      }
      if f !in t.functions {
        return Err;
      }
      VisitFunctionKeeps(t, seeds, k, rest, f);
      LogFunction(t, rest, f);
      w := VisitFunction(t, rest, f);
    }
    r := Ok(w);
  }

  /** Take one block off its queue: skip it, refuse it, or visit it. */
  method StepBlock(t: LinkTable, w: Walk, ghost seeds: set<FunctionId>, ghost k: Bounds) returns (r: Result<Walk>)
    requires Closed(t, k) && Sane(t, seeds, k, w) && w.pending != []
    ensures r.Ok? ==> Sane(t, seeds, k, r.value) && PureBlocks(t, w) == PureBlocks(t, r.value)
    ensures r.Ok? ==> BlocksLeft(t, r.value) < BlocksLeft(t, w) ||
                      (BlocksLeft(t, r.value) == BlocksLeft(t, w) && |r.value.pending| < |w.pending|)
    ensures r.Err? ==> Defect(t, k) && PureBlocks(t, w) == Err
  {
    PopBlock(t, seeds, k, w);
    var b := w.pending[0];
    var rest := w.(pending := w.pending[1..]);
    if b in w.reached.blocks {
      return Ok(rest);
    }
    if b !in t.blocks || t.blocks[b].owner !in w.reached.functions {
      return Err;
    }
    EnterBlock(t, rest, b, seeds, k);
    r := Ok(VisitBlock(t, rest, b));
  }

  /** Visit queued blocks until none is left; only functions are queued meanwhile. */
  method DrainBlocks(t: LinkTable, start: Walk, ghost seeds: set<FunctionId>, ghost k: Bounds) returns (r: Result<Walk>)
    requires Closed(t, k) && Sane(t, seeds, k, start)
    ensures r == PureBlocks(t, start)
    ensures r.Ok? ==> Sane(t, seeds, k, r.value)
    ensures r.Err? ==> Defect(t, k)
  {
    var w := start;
    while w.pending != []
      invariant Sane(t, seeds, k, w) && PureBlocks(t, start) == PureBlocks(t, w)
      decreases BlocksLeft(t, w), |w.pending|
    {
      var next := StepBlock(t, w, seeds, k);
      if next.Err? {
        return Err;
      }
      w := next.value;
    }
    r := Ok(w);
  }

  /** Every selected block is filed under a selected function. */
  ghost predicate OwnersVisited(t: LinkTable, r: Reachability) {
    forall b | b in r.blocks && b in t.blocks :: t.blocks[b].owner in r.functions
  }

  /** Merging one new block's facts and queueing what its row leads to keeps everything. */
  lemma EnterBlock(t: LinkTable, w: Walk, b: BlockId, seeds: set<FunctionId>, k: Bounds)
    requires Closed(t, k) && Good(t, seeds, k, w.(pending := [b] + w.pending)) && Logged(t, w.reached, w.log)
    requires Housed(k, w.reached.functions, b) && forall f | f in w.reached.functions :: f in k.functions
    requires b in t.blocks && b !in w.reached.blocks && OwnersVisited(t, w.reached) &&
             t.blocks[b].owner in w.reached.functions
    ensures var after := VisitBlock(t, w, b);
            Good(t, seeds, k, after) && Logged(t, after.reached, after.log) && OwnersVisited(t, after.reached)
  {
    RowLeadsInside(t, k, w.reached.functions, b);
    VisitBlockKeeps(t, seeds, k, w, b);
    LogBlock(t, w, b);
  }

  /** Drain the functions, then the blocks. */
  method DrainBoth(t: LinkTable, w: Walk, ghost seeds: set<FunctionId>, ghost k: Bounds) returns (r: Result<Walk>)
    requires Closed(t, k) && Sane(t, seeds, k, w) && (w.work != [] || w.pending != [])
    ensures r.Ok? ==> Sane(t, seeds, k, r.value) && PureWalk(t, w) == PureWalk(t, r.value) && Shorter(t, r.value, w)
    ensures r.Err? ==> Defect(t, k) && PureWalk(t, w) == Err
  {
    var first := DrainFunctions(t, w, seeds, k);
    if first.Err? {
      return Err;
    }
    OwnersStayVisited(t, w, first.value);
    r := DrainBlocks(t, first.value, seeds, k);
  }

  ghost predicate Sane(t: LinkTable, seeds: set<FunctionId>, k: Bounds, w: Walk) {
    Good(t, seeds, k, w) && Logged(t, w.reached, w.log) && OwnersVisited(t, w.reached)
  }

  /** Fewer functions left, or as many and fewer blocks, or as many of both and shorter queues. */
  ghost predicate Shorter(t: LinkTable, after: Walk, before: Walk) {
    || FunctionsLeft(t, after) < FunctionsLeft(t, before)
    || (FunctionsLeft(t, after) == FunctionsLeft(t, before) && BlocksLeft(t, after) < BlocksLeft(t, before))
    || (FunctionsLeft(t, after) == FunctionsLeft(t, before) && BlocksLeft(t, after) == BlocksLeft(t, before) &&
        |after.work| + |after.pending| < |before.work| + |before.pending|)
  }

  lemma StartIsSane(t: LinkTable, roots: seq<FunctionId>, k: Bounds)
    requires Holds(k, SeqSet(roots))
    ensures Sane(t, SeqSet(roots), k, StartWalk(roots))
  {
    forall f | f in SeqSet(roots) ensures f in k.functions {
      assert HoldsAt(k, SeqSet(roots), f);
    }
  }

  /** Alternate between the two queues until both are empty. */
  method Drain(t: LinkTable, roots: seq<FunctionId>, ghost k: Bounds) returns (r: Result<Walk>)
    requires Closed(t, k) && Holds(k, SeqSet(roots))
    ensures r == PureWalk(t, StartWalk(roots))
    ensures r.Ok? ==> Sane(t, SeqSet(roots), k, r.value) && r.value.work == [] && r.value.pending == []
    ensures r.Err? ==> Defect(t, k)
  {
    ghost var seeds := SeqSet(roots);
    var w := StartWalk(roots);
    StartIsSane(t, roots, k);
    while w.work != [] || w.pending != []
      invariant Sane(t, seeds, k, w)
      invariant PureWalk(t, StartWalk(roots)) == PureWalk(t, w)
      decreases FunctionsLeft(t, w), BlocksLeft(t, w), |w.work| + |w.pending|
    {
      var both := DrainBoth(t, w, seeds, k);
      if both.Err? {
        return Err;
      }
      w := both.value;
    }
    r := Ok(w);
  }

  /** Draining functions selects no block and forgets no function. */
  lemma {:induction false} OwnersStayVisited(t: LinkTable, w: Walk, after: Walk)
    requires PureFunctions(t, w) == Ok(after) && OwnersVisited(t, w.reached)
    ensures OwnersVisited(t, after.reached)
    decreases FunctionsLeft(t, w), |w.work|
  {
    if w.work != [] {
      var f, rest := w.work[0], w.(work := w.work[1..]);
      if f in w.reached.functions {
        OwnersStayVisited(t, rest, after);
      } else {
        OwnersStayVisited(t, VisitFunction(t, rest, f), after);
      }
    }
  }

  // ----- the walk is the closure

  ghost function BoundsOf(t: LinkTable, seeds: set<FunctionId>): Bounds {
    Bounds(iset f: FunctionId | ReachableFrom(CallGraph(ModuleView(t)), seeds, f),
           iset f: FunctionId, b: BlockId | InFunction(t, f, b) :: (f, b))
  }

  lemma {:induction false} OwnerAlong(t: LinkTable, f: FunctionId, p: seq<BlockId>, i: nat)
    requires Owned(t) && f in t.functions && IsPath(BlockGraph(t), p) && p[0] == t.functions[f].entry && i < |p| &&
             p[i] in t.blocks
    ensures t.blocks[p[i]].owner == f
  {
    if i > 0 {
      assert p[i - 1] in BlockGraph(t) && p[i] in BlockGraph(t)[p[i - 1]];
      OwnerAlong(t, f, p, i - 1);
    }
  }

  /** Rows produced one function at a time are filed under the function whose control flow reaches them. */
  lemma OwnedIsFiled(t: LinkTable, f: FunctionId)
    requires Owned(t) && f in t.functions
    ensures ModuleView(t)[f].filed
  {
    forall b | b in BlocksOf(t, f) ensures t.blocks[b].owner == f {
      var p :| PathBetween(BlockGraph(t), p, t.functions[f].entry, b);
      OwnerAlong(t, f, p, |p| - 1);
    }
  }

  lemma NextBlock(t: LinkTable, f: FunctionId, b: BlockId, c: BlockId)
    requires InFunction(t, f, b) && b in t.blocks && c in t.blocks[b].Successors()
    ensures InFunction(t, f, c)
  {
    ReachesStep(BlockGraph(t), b, c);
    ReachesTrans(BlockGraph(t), t.functions[f].entry, b, c);
  }

  lemma NextCall(t: LinkTable, seeds: set<FunctionId>, f: FunctionId, b: BlockId, c: FunctionId)
    requires ReachableFrom(CallGraph(ModuleView(t)), seeds, f) && InFunction(t, f, b) && b in t.blocks &&
             c in t.blocks[b].Calls()
    ensures ReachableFrom(CallGraph(ModuleView(t)), seeds, c)
  {
    assert b in BlocksOf(t, f) && c in FactsOf(t, f).calls;
    ReachableStep(CallGraph(ModuleView(t)), seeds, f, c);
  }

  lemma RowIsClosed(t: LinkTable, seeds: set<FunctionId>, b: BlockId)
    ensures RowClosed(t, BoundsOf(t, seeds), b)
  {
    var k := BoundsOf(t, seeds);
    if b in t.blocks {
      forall f, c | (f, b) in k.blocks && c in t.blocks[b].Successors() ensures (f, c) in k.blocks {
        NextBlock(t, f, b, c);
      }
      forall f, c | (f, b) in k.blocks && f in k.functions && c in t.blocks[b].Calls() ensures c in k.functions {
        NextCall(t, seeds, f, b, c);
      }
    }
  }

  lemma EntryIsClosed(t: LinkTable, seeds: set<FunctionId>, f: FunctionId)
    ensures EntryClosed(t, BoundsOf(t, seeds), f)
  {
    if f in t.functions {
      ReachesRefl(BlockGraph(t), t.functions[f].entry);
      assert InFunction(t, f, t.functions[f].entry);
    }
  }

  lemma SeedInside(t: LinkTable, seeds: set<FunctionId>, f: FunctionId)
    requires f in seeds
    ensures f in BoundsOf(t, seeds).functions
  {
    ReachesRefl(CallGraph(ModuleView(t)), f);
    assert ReachableFrom(CallGraph(ModuleView(t)), seeds, f);
  }

  lemma BoundsAreClosed(t: LinkTable, seeds: set<FunctionId>, k: Bounds)
    requires k == BoundsOf(t, seeds)
    ensures Closed(t, k) && Holds(k, seeds)
  {
    forall f ensures EntryClosed(t, k, f) {
      EntryIsClosed(t, seeds, f);
    }
    forall b ensures RowClosed(t, k, b) {
      RowIsClosed(t, seeds, b);
    }
    forall f ensures HoldsAt(k, seeds, f) {
      if f in seeds {
        SeedInside(t, seeds, f);
      }
    }
  }

  /** Both queues are empty: the selection is closed under its own rows. */
  ghost predicate Finished(t: LinkTable, seeds: set<FunctionId>, k: Bounds, r: Reachability) {
    r in FinishedSelections(t, seeds, k)
  }

  ghost function FinishedSelections(t: LinkTable, seeds: set<FunctionId>, k: Bounds): iset<Reachability> {
    iset r: Reachability |
      && seeds <= r.functions && r.functions <= t.functions.Keys && r.blocks <= t.blocks.Keys
      && (forall f | f in r.functions :: f in k.functions && t.functions[f].entry in r.blocks)
      && (forall b | b in r.blocks :: t.blocks[b].Successors() <= r.blocks && t.blocks[b].Calls() <= r.functions)
      && (forall b | b in r.blocks :: Housed(k, r.functions, b))
  }

  lemma EmptyQueuesFinish(t: LinkTable, seeds: set<FunctionId>, k: Bounds, r: Reachability, log: Log)
    requires Good(t, seeds, k, Walk(r, log, [], []))
    ensures Finished(t, seeds, k, r)
  {
    var work, pending: set<nat> := SeqSet([]), SeqSet([]);
    assert r.functions + work == r.functions && r.blocks + pending == r.blocks;
    forall f | f in r.functions ensures t.functions[f].entry in r.blocks {
      assert EntryFollowed(t, r.functions, r.blocks, f);
    }
    forall b | b in r.blocks ensures t.blocks[b].Successors() <= r.blocks && t.blocks[b].Calls() <= r.functions {
      assert RowFollowed(t, r.blocks, r.functions, r.blocks, b);
    }
  }

  /** A finished walk has selected every block a selected function can enter, and no block lacks facts. */
  lemma FinishedBlocks(t: LinkTable, seeds: set<FunctionId>, k: Bounds, r: Reachability, f: FunctionId)
    requires Finished(t, seeds, k, r) && f in r.functions
    ensures forall b | InFunction(t, f, b) :: b in r.blocks
  {
    forall b | InFunction(t, f, b) ensures b in r.blocks {
      var p :| PathBetween(BlockGraph(t), p, t.functions[f].entry, b);
      ClosedPath(BlockGraph(t), r.blocks, p, |p| - 1);
    }
  }

  lemma FinishedSelection(t: LinkTable, seeds: set<FunctionId>, r: Reachability)
    requires Finished(t, seeds, BoundsOf(t, seeds), r)
    ensures AllComplete(ModuleView(t), r) && BlocksAgree(ModuleView(t), r)
  {
    var m, k := ModuleView(t), BoundsOf(t, seeds);
    forall f | f in r.functions ensures m[f].complete && m[f].blocks <= r.blocks {
      FinishedBlocks(t, seeds, k, r, f);
    }
    forall b | b in r.blocks ensures exists f :: f in r.functions && b in m[f].blocks {
      var f := HomeOf(k, r.functions, b);
      assert b in m[f].blocks;
    }
  }

  ghost predicate AllComplete(m: ModuleFacts, r: Reachability) {
    forall f | f in r.functions && f in m :: m[f].complete
  }

  ghost predicate CallsClosed(m: ModuleFacts, r: Reachability) {
    forall f | f in r.functions && f in m :: m[f].calls <= r.functions
  }

  /** Every block of a selected function is selected, and every selected block belongs to one. */
  ghost predicate BlocksAgree(m: ModuleFacts, r: Reachability) {
    r.functions <= m.Keys && forall b :: b in r.blocks <==> exists f :: f in r.functions && b in m[f].blocks
  }

  lemma OutgoingComesFrom(t: LinkTable, m: ModuleFacts, r: Reachability, id: Identity) returns (f: FunctionId)
    requires m == ModuleView(t) && Collected(t, r) && BlocksAgree(m, r) && id in r.outgoing
    ensures f in r.functions && id in m[f].outgoing
  {
    var b :| b in r.blocks && id in t.blocks[b].outgoing;
    f :| f in r.functions && b in m[f].blocks;
  }

  lemma FinishedMerge(t: LinkTable, m: ModuleFacts, r: Reachability)
    requires m == ModuleView(t) && Collected(t, r) && BlocksAgree(m, r)
    ensures Merged(m, r)
  {
    forall id | id in r.outgoing ensures exists f :: f in r.functions && id in m[f].outgoing {
      var f := OutgoingComesFrom(t, m, r, id);
    }
    forall f, id | f in r.functions && id in m[f].outgoing ensures id in r.outgoing {
    }
    assert r.reachesContext <==> exists f :: f in r.functions && m[f].projectContext;
  }

  lemma FinishedCalls(t: LinkTable, m: ModuleFacts, r: Reachability)
    requires m == ModuleView(t) && r.functions <= t.functions.Keys && r.blocks <= t.blocks.Keys
    requires forall b | b in r.blocks :: t.blocks[b].Calls() <= r.functions
    requires BlocksAgree(m, r)
    ensures CallsClosed(m, r)
  {
    forall f, c | f in r.functions && f in m && c in m[f].calls ensures c in r.functions {
      var b :| b in m[f].blocks && c in t.blocks[b].Calls();
      assert b in r.blocks;
    }
  }

  lemma FinishedClosure(t: LinkTable, m: ModuleFacts, seeds: set<FunctionId>, r: Reachability)
    requires m == ModuleView(t) && Finished(t, seeds, BoundsOf(t, seeds), r) && CallsClosed(m, r)
    ensures forall f :: f in r.functions <==> ReachableFrom(CallGraph(m), seeds, f)
  {
    forall f | ReachableFrom(CallGraph(m), seeds, f) ensures f in r.functions {
      ClosedHoldsReachable(CallGraph(m), seeds, r.functions, f);
    }
    forall f | f in r.functions ensures ReachableFrom(CallGraph(m), seeds, f) {
      assert f in BoundsOf(t, seeds).functions;
    }
  }

  lemma SelectionMerges(t: LinkTable, m: ModuleFacts, seeds: set<FunctionId>, r: Reachability)
    requires m == ModuleView(t) && Finished(t, seeds, BoundsOf(t, seeds), r) && Collected(t, r)
    ensures Merged(m, r) && AllComplete(m, r) && CallsClosed(m, r)
  {
    FinishedSelection(t, seeds, r);
    FinishedMerge(t, m, r);
    FinishedCalls(t, m, r);
  }

  /** Two empty queues: the selection is the exact closure of the roots. */
  lemma WalkIsClosure(t: LinkTable, m: ModuleFacts, seeds: set<FunctionId>, r: Reachability, log: Log)
    requires m == ModuleView(t) && Good(t, seeds, BoundsOf(t, seeds), Walk(r, log, [], []))
    ensures Describes(m, seeds, r)
  {
    EmptyQueuesFinish(t, seeds, BoundsOf(t, seeds), r, log);
    FinishedIsClosure(t, m, seeds, r);
  }

  lemma FinishedIsClosure(t: LinkTable, m: ModuleFacts, seeds: set<FunctionId>, r: Reachability)
    requires m == ModuleView(t) && Finished(t, seeds, BoundsOf(t, seeds), r) && Collected(t, r)
    ensures Describes(m, seeds, r)
  {
    SelectionMerges(t, m, seeds, r);
    FinishedClosure(t, m, seeds, r);
  }
}
