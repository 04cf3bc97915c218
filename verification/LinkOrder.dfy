/** The order in which the two work lists visit a module, told without the queues. */
module LinkOrder {
  import opened Collections
  import opened Graphs
  import opened LinkFacts
  import opened LinkWalk

  /** One visit: a function entered, or a block merged. */
  datatype Event = EnterFunction(function_: FunctionId) | MergeBlock(block: BlockId)

  /** A list without its later repetitions. */
  ghost function Firsts(list: seq<nat>): seq<nat> {
    if list == [] then []
    else
      var n := |list| - 1;
      Firsts(list[..n]) + if list[n] in list[..n] then [] else [list[n]]
  }

  ghost function FunctionsIn(es: seq<Event>): seq<FunctionId> {
    if es == [] then []
    else
      var n := |es| - 1;
      FunctionsIn(es[..n]) + match es[n] case EnterFunction(f) => [f] case MergeBlock(_) => []
  }

  ghost function BlocksIn(es: seq<Event>): seq<BlockId> {
    if es == [] then []
    else
      var n := |es| - 1;
      BlocksIn(es[..n]) + match es[n] case EnterFunction(_) => [] case MergeBlock(b) => [b]
  }

  /** Functions asked for so far: the roots, then every call of every merged block. */
  ghost function CallsIn(t: LinkTable, roots: seq<FunctionId>, es: seq<Event>): seq<FunctionId> {
    if es == [] then roots
    else
      var n := |es| - 1;
      CallsIn(t, roots, es[..n]) +
      match es[n] case EnterFunction(_) => [] case MergeBlock(b) => if b in t.blocks then t.blocks[b].callList else []
  }

  /** Blocks asked for so far: entry blocks of entered functions and successors of merged blocks, as they came. */
  ghost function TargetsIn(t: LinkTable, es: seq<Event>): seq<BlockId> {
    if es == [] then []
    else
      var n := |es| - 1;
      TargetsIn(t, es[..n]) +
      match es[n]
      case EnterFunction(f) => if f in t.functions then [t.functions[f].entry] else []
      case MergeBlock(b) => if b in t.blocks then t.blocks[b].successorList else []
  }

  /** Every visit is due when it happens. */
  ghost predicate Phased(t: LinkTable, roots: seq<FunctionId>, es: seq<Event>) {
    forall k | 0 <= k < |es| :: Due(t, roots, es[..k], es[k])
  }

  /**
   Only what was asked for is visited. The first block after a function waits until all functions asked for are
   entered, and the first function after a block until all blocks asked for are merged.
   */
  ghost predicate Due(t: LinkTable, roots: seq<FunctionId>, past: seq<Event>, e: Event) {
    match e
    case MergeBlock(b) =>
      b in TargetsIn(t, past) &&
      (past[|past| - 1].EnterFunction? ==> forall f | f in CallsIn(t, roots, past) :: f in FunctionsIn(past))
    case EnterFunction(f) =>
      f in CallsIn(t, roots, past) &&
      (past != [] && past[|past| - 1].MergeBlock? ==> forall b | b in TargetsIn(t, past) :: b in BlocksIn(past))
  }

  /** Functions and blocks are each visited in the order they were first asked for, in alternating phases. */
  ghost predicate Trace(t: LinkTable, roots: seq<FunctionId>, log: Log, es: seq<Event>) {
    && log.functions == FunctionsIn(es) == Firsts(CallsIn(t, roots, es))
    && log.blocks == BlocksIn(es) == Firsts(TargetsIn(t, es))
    && Phased(t, roots, es)
  }

  ghost predicate BreadthFirst(t: LinkTable, roots: seq<FunctionId>, log: Log) {
    exists es :: Trace(t, roots, log, es)
  }

  // ----- first occurrences

  lemma {:induction false} FirstsMembers(list: seq<nat>)
    ensures forall x :: x in Firsts(list) <==> x in list
  {
    if list != [] {
      var n := |list| - 1;
      FirstsMembers(list[..n]);
      assert list == list[..n] + [list[n]];
    }
  }

  /** Appending one element appends it to the first occurrences, unless it is there. */
  lemma FirstsNext(list: seq<nat>, x: nat)
    ensures Firsts(list + [x]) == Firsts(list) + if x in list then [] else [x]
  {
    assert (list + [x])[..|list|] == list;
  }

  lemma {:induction false} FirstsOfDistinct(list: seq<nat>)
    requires NoDup(list)
    ensures Firsts(list) == list
  {
    if list != [] {
      var n := |list| - 1;
      FirstsOfDistinct(list[..n]);
      assert list == list[..n] + [list[n]];
    }
  }

  /** Lists with equal first occurrences stay equal under any common extension. */
  lemma {:induction false} FirstsExtend(a: seq<nat>, b: seq<nat>, more: seq<nat>)
    requires Firsts(a) == Firsts(b)
    ensures Firsts(a + more) == Firsts(b + more)
  {
    if more == [] {
      assert a + more == a && b + more == b;
    } else {
      var n := |more| - 1;
      FirstsExtend(a, b, more[..n]);
      assert a + more == a + more[..n] + [more[n]] && b + more == b + more[..n] + [more[n]];
      FirstsNext(a + more[..n], more[n]);
      FirstsNext(b + more[..n], more[n]);
      FirstsMembers(a + more[..n]);
      FirstsMembers(b + more[..n]);
    }
  }

  /** Queueing only what is not yet visited changes no first occurrence. */
  lemma {:induction false} FirstsUnvisited(seen: seq<nat>, list: seq<nat>, visited: set<nat>)
    requires visited <= SeqSet(seen)
    ensures Firsts(seen + Unvisited(list, visited)) == Firsts(seen + list)
    decreases |list|
  {
    if list != [] {
      var x, rest := list[0], list[1..];
      assert seen + list == seen + [x] + rest;
      if x in visited {
        FirstsUnvisited(seen, rest, visited);
        FirstsNext(seen, x);
        FirstsExtend(seen, seen + [x], rest);
      } else {
        QueueSet(seen, [x]);
        FirstsUnvisited(seen + [x], rest, visited);
        assert Unvisited(list, visited) == [x] + Unvisited(rest, visited);
        assert seen + ([x] + Unvisited(rest, visited)) == seen + [x] + Unvisited(rest, visited);
      }
    }
  }

  // ----- the walk keeps the order

  /** What is visited and queued is what was asked for, in order of first occurrence. */
  ghost predicate Queued(visited: seq<nat>, queue: seq<nat>, asked: seq<nat>) {
    NoDup(visited) && Firsts(visited + queue) == Firsts(asked)
  }

  ghost predicate InOrder(t: LinkTable, roots: seq<FunctionId>, w: Walk, es: seq<Event>) {
    && w.log.functions == FunctionsIn(es) && SeqSet(w.log.functions) == w.reached.functions
    && w.log.blocks == BlocksIn(es) && SeqSet(w.log.blocks) == w.reached.blocks
    && Queued(w.log.functions, w.work, CallsIn(t, roots, es)) && Queued(w.log.blocks, w.pending, TargetsIn(t, es))
    && Phased(t, roots, es)
  }

  lemma QueueAsked(visited: seq<nat>, queue: seq<nat>, asked: seq<nat>)
    requires Queued(visited, queue, asked) && queue != []
    ensures queue[0] in asked
  {
    assert (visited + queue)[|visited|] == queue[0];
    FirstsMembers(visited + queue);
    FirstsMembers(asked);
  }

  lemma QueueSkip(visited: seq<nat>, queue: seq<nat>, asked: seq<nat>)
    requires Queued(visited, queue, asked) && queue != [] && queue[0] in visited
    ensures Queued(visited, queue[1..], asked)
  {
    FirstsNext(visited, queue[0]);
    FirstsExtend(visited, visited + [queue[0]], queue[1..]);
    assert visited + queue == visited + [queue[0]] + queue[1..];
  }

  lemma QueueVisit(visited: seq<nat>, queue: seq<nat>, asked: seq<nat>, known: set<nat>)
    requires Queued(visited, queue, asked) && queue != [] && queue[0] !in known && SeqSet(visited) == known
    ensures Queued(visited + [queue[0]], queue[1..], asked) && SeqSet(visited + [queue[0]]) == known + {queue[0]}
  {
    assert visited + queue == visited + [queue[0]] + queue[1..];
    QueueSet(visited, [queue[0]]);
    assert queue[0] !in visited;
  }

  lemma FirstsMore(seen: seq<nat>, asked: seq<nat>, list: seq<nat>, known: set<nat>, all: seq<nat>)
    requires Firsts(seen) == Firsts(asked) && known <= SeqSet(seen) && all == seen + Unvisited(list, known)
    ensures Firsts(all) == Firsts(asked + list)
  {
    FirstsUnvisited(seen, list, known);
    FirstsExtend(seen, asked, list);
  }

  lemma QueueMore(visited: seq<nat>, queue: seq<nat>, asked: seq<nat>, list: seq<nat>, known: set<nat>)
    requires Queued(visited, queue, asked) && known <= SeqSet(visited)
    ensures Queued(visited, queue + Unvisited(list, known), asked + list)
  {
    QueueSet(visited, queue);
    var new_ := Unvisited(list, known);
    var all := visited + (queue + new_);
    assert all == visited + queue + new_;
    FirstsMore(visited + queue, asked, list, known, all);
  }

  /** With nothing queued, everything asked for is visited. */
  lemma QueueEmpty(visited: seq<nat>, asked: seq<nat>)
    requires Queued(visited, [], asked)
    ensures visited == Firsts(asked) && forall x | x in asked :: x in visited
  {
    assert visited + [] == visited;
    FirstsOfDistinct(visited);
    FirstsMembers(asked);
  }

  lemma PhasedNext(t: LinkTable, roots: seq<FunctionId>, es: seq<Event>, e: Event)
    requires Phased(t, roots, es) && Due(t, roots, es, e)
    ensures Phased(t, roots, es + [e])
  {
    var next := es + [e];
    forall k | 0 <= k < |next| ensures Due(t, roots, next[..k], next[k]) {
      if k < |es| {
        assert next[..k] == es[..k] && Due(t, roots, es[..k], es[k]);
      } else {
        assert next[..k] == es;
      }
    }
  }

  lemma EventsAfter(t: LinkTable, roots: seq<FunctionId>, es: seq<Event>, f: FunctionId)
    requires f in t.functions
    ensures FunctionsIn(es + [EnterFunction(f)]) == FunctionsIn(es) + [f]
    ensures BlocksIn(es + [EnterFunction(f)]) == BlocksIn(es)
    ensures CallsIn(t, roots, es + [EnterFunction(f)]) == CallsIn(t, roots, es)
    ensures TargetsIn(t, es + [EnterFunction(f)]) == TargetsIn(t, es) + [t.functions[f].entry]
  {
    assert (es + [EnterFunction(f)])[..|es|] == es;
  }

  /** Entering a function queues its entry block behind the pending ones. */
  lemma EntryQueued(visited: seq<BlockId>, queue: seq<BlockId>, asked: seq<BlockId>, entry: BlockId)
    requires Queued(visited, queue, asked)
    ensures Queued(visited, queue + [entry], asked + [entry])
  {
    QueueMore(visited, queue, asked, [entry], {});
    assert Unvisited([entry], {}) == [entry];
  }

  /** The next queued function may be entered. */
  ghost predicate CanEnter(t: LinkTable, roots: seq<FunctionId>, w: Walk, es: seq<Event>) {
    && InOrder(t, roots, w, es) && w.work != [] && w.work[0] !in w.reached.functions && w.work[0] in t.functions
    && (w.pending == [] || es == [] || es[|es| - 1].EnterFunction?)
  }

  lemma EnterPhased(t: LinkTable, roots: seq<FunctionId>, w: Walk, es: seq<Event>)
    requires CanEnter(t, roots, w, es)
    ensures Phased(t, roots, es + [EnterFunction(w.work[0])])
  {
    QueueAsked(w.log.functions, w.work, CallsIn(t, roots, es));
    if w.pending == [] {
      QueueEmpty(w.log.blocks, TargetsIn(t, es));
    }
    PhasedNext(t, roots, es, EnterFunction(w.work[0]));
  }

  lemma EnterQueues(t: LinkTable, roots: seq<FunctionId>, w: Walk, es: seq<Event>)
    requires CanEnter(t, roots, w, es)
    ensures Queued(w.log.functions + [w.work[0]], w.work[1..], CallsIn(t, roots, es))
    ensures Queued(w.log.blocks, w.pending + [t.functions[w.work[0]].entry],
                   TargetsIn(t, es) + [t.functions[w.work[0]].entry])
    ensures SeqSet(w.log.functions + [w.work[0]]) == w.reached.functions + {w.work[0]}
  {
    QueueVisit(w.log.functions, w.work, CallsIn(t, roots, es), w.reached.functions);
    EntryQueued(w.log.blocks, w.pending, TargetsIn(t, es), t.functions[w.work[0]].entry);
  }

  lemma EnterInOrder(t: LinkTable, roots: seq<FunctionId>, w: Walk, es: seq<Event>)
    requires CanEnter(t, roots, w, es)
    ensures InOrder(t, roots, VisitFunction(t, w.(work := w.work[1..]), w.work[0]), es + [EnterFunction(w.work[0])])
  {
    EnterPhased(t, roots, w, es);
    EnterQueues(t, roots, w, es);
    EventsAfter(t, roots, es, w.work[0]);
  }

  lemma MergeInOrder(t: LinkTable, roots: seq<FunctionId>, w: Walk, es: seq<Event>)
    requires InOrder(t, roots, w, es) && w.pending != [] && w.pending[0] !in w.reached.blocks
    requires w.pending[0] in t.blocks
    requires w.work == [] || (es != [] && es[|es| - 1].MergeBlock?)
    ensures InOrder(t, roots, VisitBlock(t, w.(pending := w.pending[1..]), w.pending[0]),
                    es + [MergeBlock(w.pending[0])])
  {
    var b := w.pending[0];
    var next, row := es + [MergeBlock(b)], t.blocks[b];
    assert next[..|es|] == es;
    QueueAsked(w.log.blocks, w.pending, TargetsIn(t, es));
    QueueVisit(w.log.blocks, w.pending, TargetsIn(t, es), w.reached.blocks);
    QueueMore(w.log.blocks + [b], w.pending[1..], TargetsIn(t, es), row.successorList, w.reached.blocks + {b});
    QueueMore(w.log.functions, w.work, CallsIn(t, roots, es), row.callList, w.reached.functions);
    if w.work == [] {
      QueueEmpty(w.log.functions, CallsIn(t, roots, es));
    }
    PhasedNext(t, roots, es, MergeBlock(b));
    assert FunctionsIn(next) == FunctionsIn(es);
  }

  /** The walk so far has an ordered trace. */
  ghost predicate Traceable(t: LinkTable, roots: seq<FunctionId>, w: Walk) {
    exists es :: InOrder(t, roots, w, es)
  }

  lemma {:induction false} FunctionsInOrder(t: LinkTable, roots: seq<FunctionId>, w: Walk, es: seq<Event>, after: Walk)
    requires InOrder(t, roots, w, es) && PureFunctions(t, w) == Ok(after)
    requires w.pending == [] || es == [] || es[|es| - 1].EnterFunction?
    ensures Traceable(t, roots, after)
    decreases FunctionsLeft(t, w), |w.work|
  {
    if w.work != [] {
      var f, rest := w.work[0], w.(work := w.work[1..]);
      if f in w.reached.functions {
        assert f in SeqSet(w.log.functions);
        QueueSkip(w.log.functions, w.work, CallsIn(t, roots, es));
        FunctionsInOrder(t, roots, rest, es, after);
      } else {
        EnterInOrder(t, roots, w, es);
        FunctionsInOrder(t, roots, VisitFunction(t, rest, f), es + [EnterFunction(f)], after);
      }
    }
  }

  lemma {:induction false} BlocksInOrder(t: LinkTable, roots: seq<FunctionId>, w: Walk, es: seq<Event>, after: Walk)
    requires InOrder(t, roots, w, es) && PureBlocks(t, w) == Ok(after)
    requires w.work == [] || (es != [] && es[|es| - 1].MergeBlock?)
    ensures Traceable(t, roots, after)
    decreases BlocksLeft(t, w), |w.pending|
  {
    if w.pending != [] {
      var b, rest := w.pending[0], w.(pending := w.pending[1..]);
      if b in w.reached.blocks {
        assert b in SeqSet(w.log.blocks);
        QueueSkip(w.log.blocks, w.pending, TargetsIn(t, es));
        BlocksInOrder(t, roots, rest, es, after);
      } else {
        MergeInOrder(t, roots, w, es);
        BlocksInOrder(t, roots, VisitBlock(t, rest, b), es + [MergeBlock(b)], after);
      }
    }
  }

  /** The walk after the functions and then the blocks are drained. */
  function Round(t: LinkTable, w: Walk): Result<Walk> {
    var first := PureFunctions(t, w);
    if first.Err? then Err else PureBlocks(t, first.value)
  }

  lemma RoundInOrder(t: LinkTable, roots: seq<FunctionId>, w: Walk)
    requires Traceable(t, roots, w) && w.pending == []
    ensures Round(t, w).Ok? ==> Traceable(t, roots, Round(t, w).value)
  {
    if Round(t, w).Ok? {
      var first := PureFunctions(t, w).value;
      var es :| InOrder(t, roots, w, es);
      FunctionsInOrder(t, roots, w, es, first);
      es :| InOrder(t, roots, first, es);
      BlocksInOrder(t, roots, first, es, Round(t, w).value);
    }
  }

  /** One round of a completing walk completes, leaves less to do, and the rest of the walk goes on from it. */
  lemma RoundGoesOn(t: LinkTable, w: Walk, after: Walk)
    requires PureWalk(t, w) == Ok(after) && (w.work != [] || w.pending != [])
    ensures Round(t, w).Ok? && PureWalk(t, Round(t, w).value) == Ok(after)
    ensures Round(t, w).value.pending == [] && Shorter(t, Round(t, w).value, w)
  {
  }

  lemma {:induction false} WalkInOrder(t: LinkTable, roots: seq<FunctionId>, w: Walk, after: Walk)
    requires Traceable(t, roots, w) && PureWalk(t, w) == Ok(after) && w.pending == []
    ensures Traceable(t, roots, after) && (after.work, after.pending) == ([], [])
    decreases FunctionsLeft(t, w), BlocksLeft(t, w), |w.work| + |w.pending|
  {
    if w.work != [] {
      RoundGoesOn(t, w, after);
      RoundInOrder(t, roots, w);
      WalkInOrder(t, roots, Round(t, w).value, after);
    }
  }

  lemma StartInOrder(t: LinkTable, roots: seq<FunctionId>)
    ensures Traceable(t, roots, StartWalk(roots))
  {
    assert [] + roots == roots;
    assert Queued([], roots, roots);
    assert InOrder(t, roots, StartWalk(roots), []);
  }

  /** Every completed walk is breadth-first. */
  lemma WalkIsBreadthFirst(t: LinkTable, roots: seq<FunctionId>, after: Walk)
    requires PureWalk(t, StartWalk(roots)) == Ok(after)
    ensures BreadthFirst(t, roots, after.log)
  {
    StartInOrder(t, roots);
    WalkInOrder(t, roots, StartWalk(roots), after);
    var es :| InOrder(t, roots, after, es);
    QueueEmpty(after.log.functions, CallsIn(t, roots, es));
    QueueEmpty(after.log.blocks, TargetsIn(t, es));
    assert Trace(t, roots, after.log, es);
  }

  // ----- one module

  /** What one module contributes: the selection, and the lists made while selecting. */
  datatype Selection = Selection(reached: Reachability, log: Log)

  /**
   The exact closure of the roots, its functions and blocks listed once each in the breadth-first visit order;
   it fails only when a reached function or block has no facts, or a block is filed under another function.
   */
  method CollectReachability(t: LinkTable, roots: seq<FunctionId>, ghost m: ModuleFacts) returns (r: Result<Selection>)
    requires m == ModuleView(t)
    ensures r.Ok? ==> Describes(m, SeqSet(roots), r.value.reached) && OwnersVisited(t, r.value.reached)
    ensures r.Ok? ==> Logged(t, r.value.reached, r.value.log)
    ensures r.Ok? ==> BreadthFirst(t, roots, r.value.log)
    ensures r.Ok? <==> PureWalk(t, StartWalk(roots)).Ok?
    ensures r.Ok? ==> r.value.log == PureWalk(t, StartWalk(roots)).value.log
    ensures r.Err? ==> exists f :: ReachableFrom(CallGraph(m), SeqSet(roots), f) && Deficient(m, f)
  {
    ghost var seeds := SeqSet(roots);
    BoundsAreClosed(t, seeds, BoundsOf(t, seeds));
    var w := Drain(t, roots, BoundsOf(t, seeds));
    if w.Err? {
      return Err;
    }
    r := Ok(Selection(w.value.reached, w.value.log));
    WalkIsClosure(t, m, seeds, w.value.reached, w.value.log);
    WalkIsBreadthFirst(t, roots, w.value);
  }
}
