/** Cross-module reachability: the module work list behind entry assembly and package facades. */
module ProjectReachability {
  import opened Collections
  import opened Graphs
  import opened LinkFacts
  import opened LinkWalk
  import opened LinkOrder

  type PackageId = nat

  datatype ModuleRef =
    | Project(id: nat)
    | SourcePackage(package: PackageId, id: nat)
    | GeneratedProject(sidecar: nat)
    | GeneratedSourcePackage(package: PackageId, sidecar: nat)

  /** One function of one compiled module. */
  datatype Node = Node(m: ModuleRef, f: FunctionId)

  datatype OwnerMaps = OwnerMaps(
    byOrigin: map<nat, Node>, byPrivate: map<nat, Node>,
    projectGenerated: map<nat, Node>, packageGenerated: map<PackageId, map<nat, Node>>)

  datatype Program = Program(modules: map<ModuleRef, LinkTable>, owners: OwnerMaps)

  /** The program with each function's blocks taken together. */
  datatype View = View(modules: map<ModuleRef, ModuleFacts>, owners: OwnerMaps)

  ghost function ViewOf(p: Program): View {
    View(map m | m in p.modules :: ModuleView(p.modules[m]), p.owners)
  }

  /** Generated identities resolve only inside the boundary that made the call. */
  function GeneratedOwner(o: OwnerMaps, caller: ModuleRef, id: nat): Option<Node> {
    match caller
    case Project(_) => Get(o.projectGenerated, id)
    case GeneratedProject(_) => Get(o.projectGenerated, id)
    case SourcePackage(package, _) =>
      if package in o.packageGenerated then Get(o.packageGenerated[package], id) else None
    case GeneratedSourcePackage(package, _) =>
      if package in o.packageGenerated then Get(o.packageGenerated[package], id) else None
  }

  function OwnerOf(o: OwnerMaps, caller: ModuleRef, id: Identity): Option<Node> {
    match id
    case Origin(i) => Get(o.byOrigin, i)
    case ModulePrivate(i) => Get(o.byPrivate, i)
    case Generated(i) => GeneratedOwner(o, caller, i)
  }

  function OwnerNodes(o: OwnerMaps): set<Node> {
    (set i | i in o.byOrigin :: o.byOrigin[i]) + (set i | i in o.byPrivate :: o.byPrivate[i]) +
    (set i | i in o.projectGenerated :: o.projectGenerated[i]) +
    (set k, i | k in o.packageGenerated && i in o.packageGenerated[k] :: o.packageGenerated[k][i])
  }

  // ----- whole-program meaning

  ghost function NodeSuccessors(p: View, n: Node): set<Node>
    requires n.m in p.modules && n.f in p.modules[n.m]
  {
    var facts := p.modules[n.m][n.f];
    (set f | f in facts.calls :: Node(n.m, f)) +
    (set id | id in facts.outgoing && OwnerOf(p.owners, n.m, id).Some? :: OwnerOf(p.owners, n.m, id).value)
  }

  ghost function WholeGraph(p: View): Graph<Node> {
    map n | n in (set m, f | m in p.modules && f in p.modules[m] :: Node(m, f)) :: NodeSuccessors(p, n)
  }

  /** Nothing reached is defective: facts are complete, identities resolve, and no facade reaches project context. */
  ghost predicate Sound(p: View, n: Node, facade: bool) {
    && n.m in p.modules && n.f in p.modules[n.m] && p.modules[n.m][n.f].complete
    && (forall id | id in p.modules[n.m][n.f].outgoing :: OwnerOf(p.owners, n.m, id).Some?)
    && (facade ==> !p.modules[n.m][n.f].projectContext)
  }

  type Roots = map<ModuleRef, set<FunctionId>>
  type Reached = map<ModuleRef, Reachability>

  function SeedNodes(roots: Roots): set<Node> {
    set m, f | m in roots && f in roots[m] :: Node(m, f)
  }

  /** Every seeded module exists, and nothing reached from the seeds is defective. */
  ghost predicate Clean(p: View, start: Roots, facade: bool) {
    && (forall m | m in start :: m in p.modules)
    && (forall n | ReachableFrom(WholeGraph(p), SeedNodes(start), n) :: Sound(p, n, facade))
  }

  /** Every reached function's blocks are recorded under the function itself, as their producer records them. */
  ghost predicate Filed(p: View, start: Roots) {
    forall n | ReachableFrom(WholeGraph(p), SeedNodes(start), n) && n.m in p.modules && n.f in p.modules[n.m] ::
      p.modules[n.m][n.f].filed
  }

  ghost predicate In(reached: Reached, n: Node) {
    n.m in reached && n.f in reached[n.m].functions
  }

  /** The per-module results are the least fixpoint of whole-program reachability from the seeds. */
  ghost predicate LeastFixpoint(p: View, start: Roots, reached: Reached) {
    && (forall n :: In(reached, n) <==> ReachableFrom(WholeGraph(p), SeedNodes(start), n))
    && (forall m | m in start :: m in reached)
    && (forall m | m in reached :: m in p.modules && Merged(p.modules[m], reached[m]))
    && (forall m | m in reached :: m in start || reached[m].functions != {})
  }

  lemma SameModules(p: View, start: Roots, a: Reached, b: Reached, m: ModuleRef)
    requires LeastFixpoint(p, start, a) && LeastFixpoint(p, start, b) && m in a
    ensures m in b && a[m].functions == b[m].functions
  {
    if m !in start {
      var f :| f in a[m].functions;
      assert In(a, Node(m, f)) && In(b, Node(m, f));
    }
    forall f ensures f in a[m].functions <==> f in b[m].functions {
      assert In(a, Node(m, f)) <==> In(b, Node(m, f));
    }
  }

  /** Two correct results are equal, so no queue or iteration order can show through. */
  lemma LeastFixpointUnique(p: View, start: Roots, a: Reached, b: Reached)
    requires LeastFixpoint(p, start, a) && LeastFixpoint(p, start, b)
    ensures a == b
  {
    forall m | m in a ensures m in b && a[m] == b[m] {
      SameModules(p, start, a, b, m);
    }
    forall m | m in b ensures m in a {
      SameModules(p, start, b, a, m);
    }
  }

  // ----- one module inside the program

  lemma {:induction false} IntraPath(p: View, m: ModuleRef, path: seq<FunctionId>, i: nat)
    requires m in p.modules && IsPath(CallGraph(p.modules[m]), path) && i < |path|
    ensures Reaches(WholeGraph(p), Node(m, path[0]), Node(m, path[i]))
  {
    if i == 0 {
      ReachesRefl(WholeGraph(p), Node(m, path[0]));
    } else {
      IntraPath(p, m, path, i - 1);
      assert path[i - 1] in CallGraph(p.modules[m]) && path[i] in CallGraph(p.modules[m])[path[i - 1]];
      ReachesStep(WholeGraph(p), Node(m, path[i - 1]), Node(m, path[i]));
      ReachesTrans(WholeGraph(p), Node(m, path[0]), Node(m, path[i - 1]), Node(m, path[i]));
    }
  }

  /** What a module's own closure reaches from reachable roots, the whole program reaches too. */
  lemma IntraIsReachable(p: View, seeds: set<Node>, m: ModuleRef, roots: set<FunctionId>, f: FunctionId)
    requires m in p.modules && ReachableFrom(CallGraph(p.modules[m]), roots, f)
    requires forall r | r in roots :: ReachableFrom(WholeGraph(p), seeds, Node(m, r))
    ensures ReachableFrom(WholeGraph(p), seeds, Node(m, f))
  {
    var r :| r in roots && Reaches(CallGraph(p.modules[m]), r, f);
    var path :| PathBetween(CallGraph(p.modules[m]), path, r, f);
    IntraPath(p, m, path, |path| - 1);
    var s :| s in seeds && Reaches(WholeGraph(p), s, Node(m, r));
    ReachesTrans(WholeGraph(p), s, Node(m, r), Node(m, f));
  }

  /** `n` owns one of the identities a module refers to. */
  ghost predicate IsTarget(o: OwnerMaps, m: ModuleRef, outgoing: set<Identity>, n: Node) {
    exists id :: id in outgoing && OwnerOf(o, m, id) == Some(n)
  }

  lemma TargetIsReachable(p: View, seeds: set<Node>, m: ModuleRef, roots: set<FunctionId>, r: Reachability, n: Node)
    requires m in p.modules && Describes(p.modules[m], roots, r) && IsTarget(p.owners, m, r.outgoing, n)
    requires forall x | x in roots :: ReachableFrom(WholeGraph(p), seeds, Node(m, x))
    ensures ReachableFrom(WholeGraph(p), seeds, n)
  {
    var id :| id in r.outgoing && OwnerOf(p.owners, m, id) == Some(n);
    var f :| f in r.functions && id in p.modules[m][f].outgoing;
    IntraIsReachable(p, seeds, m, roots, f);
    ReachableStep(WholeGraph(p), seeds, Node(m, f), n);
  }

  // ----- the work list

  datatype Work = Work(roots: Roots, pending: seq<ModuleRef>)

  function RootsAt(roots: Roots, m: ModuleRef): set<FunctionId> {
    if m in roots then roots[m] else {}
  }

  predicate HasRoot(roots: Roots, n: Node) {
    n.f in RootsAt(roots, n.m)
  }

  function AddRoot(w: Work, n: Node): Work {
    if HasRoot(w.roots, n) then w
    else Work(w.roots[n.m := RootsAt(w.roots, n.m) + {n.f}], w.pending + [n.m])
  }

  /** `after` has every root of `before`; any module whose roots changed is queued again. */
  ghost predicate Requeues(before: Work, after: Work) {
    && (forall m | m in before.pending :: m in after.pending)
    && (forall m | m in after.pending :: m in before.pending || m in after.roots)
    && (forall m | m in before.roots :: m in after.roots && before.roots[m] <= after.roots[m])
    && (forall m | m in after.roots :: m in after.pending || (m in before.roots && after.roots[m] == before.roots[m]))
    && (forall m | m in after.roots :: m in before.roots || after.roots[m] != {})
  }

  lemma AddRootRequeues(before: Work, w: Work, n: Node)
    ensures Requeues(before, w) ==> Requeues(before, AddRoot(w, n))
    ensures forall x :: HasRoot(AddRoot(w, n).roots, x) <==> HasRoot(w.roots, x) || x == n
  {
  }

  lemma TargetsGrow(o: OwnerMaps, m: ModuleRef, ids: set<Identity>, id: Identity)
    ensures forall n :: IsTarget(o, m, ids + {id}, n) <==> IsTarget(o, m, ids, n) || OwnerOf(o, m, id) == Some(n)
  {
    assert id in ids + {id};
  }

  /** Some new root was added, and it is one of the targets. */
  ghost predicate Gained(o: OwnerMaps, m: ModuleRef, outgoing: set<Identity>, before: Roots, after: Roots) {
    exists n :: HasRoot(after, n) && !HasRoot(before, n) && IsTarget(o, m, outgoing, n)
  }

  /** Resolve every outgoing identity of one module and queue the owners that gained a root. */
  method AddTargets(o: OwnerMaps, start: Work, m: ModuleRef, outgoing: set<Identity>) returns (ok: bool, w: Work)
    ensures ok <==> forall id | id in outgoing :: OwnerOf(o, m, id).Some?
    ensures ok ==> Requeues(start, w)
    ensures ok ==> forall n :: HasRoot(w.roots, n) <==> HasRoot(start.roots, n) || IsTarget(o, m, outgoing, n)
    ensures ok ==> w == start || Gained(o, m, outgoing, start.roots, w.roots)
  {
    w := start;
    var todo := outgoing;
    while todo != {}
      invariant todo <= outgoing && Requeues(start, w)
      invariant forall id | id in outgoing - todo :: OwnerOf(o, m, id).Some?
      invariant forall n :: HasRoot(w.roots, n) <==> HasRoot(start.roots, n) || IsTarget(o, m, outgoing - todo, n)
      invariant w == start || Gained(o, m, outgoing, start.roots, w.roots)
      decreases todo
    {
      var id :| id in todo;
      var owner := OwnerOf(o, m, id);
      if owner.None? {
        return false, w;
      }
      AddRootRequeues(start, w, owner.value);
      w := AddRoot(w, owner.value);
      TargetsGrow(o, m, outgoing - todo, id);
      assert outgoing - (todo - {id}) == (outgoing - todo) + {id};
      todo := todo - {id};
      assert IsTarget(o, m, outgoing, owner.value);
    }
    assert outgoing - todo == outgoing;
    ok := true;
  }

  /** The roots hold the seeds and nothing that is not reachable from them. */
  ghost predicate RootsExact(p: View, start: Roots, roots: Roots) {
    && (forall m | m in start :: m in roots) && (forall m | m in roots :: m in start || roots[m] != {})
    && (forall n | n in SeedNodes(start) :: HasRoot(roots, n))
    && (forall n | HasRoot(roots, n) :: ReachableFrom(WholeGraph(p), SeedNodes(start), n))
  }

  /** A module's stored result is current unless the module is queued. */
  ghost predicate Queued(p: View, w: Work, reached: Reached) {
    && (forall m | m in w.pending || m in reached :: m in w.roots)
    && (forall m | m in w.roots :: m in w.pending || Current(p, w.roots[m], reached, m))
  }

  /** Nothing stored is defective, and every owner it leads to is a root. */
  ghost predicate AllStored(p: View, facade: bool, roots: Roots, reached: Reached) {
    forall m | m in reached :: Stored(p, facade, roots, reached[m], m)
  }

  ghost predicate WorkInvariant(p: View, start: Roots, facade: bool, w: Work, reached: Reached) {
    RootsExact(p, start, w.roots) && Queued(p, w, reached) && AllStored(p, facade, w.roots, reached)
  }

  ghost predicate Current(p: View, roots: set<FunctionId>, reached: Reached, m: ModuleRef) {
    m in reached && m in p.modules && Describes(p.modules[m], roots, reached[m])
  }

  ghost predicate Stored(p: View, facade: bool, roots: Roots, r: Reachability, m: ModuleRef) {
    && m in p.modules && (facade ==> !r.reachesContext)
    && (forall id | id in r.outgoing ::
          OwnerOf(p.owners, m, id).Some? && HasRoot(roots, OwnerOf(p.owners, m, id).value))
  }

  lemma RootsReachable(p: View, start: Roots, roots: Roots, m: ModuleRef)
    requires RootsExact(p, start, roots) && m in roots
    ensures forall x | x in roots[m] :: ReachableFrom(WholeGraph(p), SeedNodes(start), Node(m, x))
  {
    assert forall x | x in roots[m] :: HasRoot(roots, Node(m, x));
  }

  /** Re-visiting a module with its present roots and queueing what it gained keeps the invariant. */
  lemma VisitKeepsInvariant(p: View, start: Roots, facade: bool, w: Work, reached: Reached,
                            m: ModuleRef, r: Reachability, after: Work)
    requires WorkInvariant(p, start, facade, w, reached) && w.pending != [] && w.pending[0] == m && m in p.modules
    requires Describes(p.modules[m], w.roots[m], r) && (facade ==> !r.reachesContext)
    requires forall id | id in r.outgoing :: OwnerOf(p.owners, m, id).Some?
    requires Requeues(w.(pending := w.pending[1..]), after)
    requires forall n :: HasRoot(after.roots, n) <==> HasRoot(w.roots, n) || IsTarget(p.owners, m, r.outgoing, n)
    ensures WorkInvariant(p, start, facade, after, reached[m := r])
  {
    RootsAfter(p, start, w.roots, after.roots, m, r);
  }

  lemma RootsAfter(p: View, start: Roots, before: Roots, after: Roots, m: ModuleRef, r: Reachability)
    requires RootsExact(p, start, before) && m in before && m in p.modules && Describes(p.modules[m], before[m], r)
    requires forall k | k in before :: k in after && before[k] <= after[k]
    requires forall k | k in after :: k in before || after[k] != {}
    requires forall n :: HasRoot(after, n) <==> HasRoot(before, n) || IsTarget(p.owners, m, r.outgoing, n)
    ensures RootsExact(p, start, after)
  {
    RootsReachable(p, start, before, m);
    forall n | HasRoot(after, n) ensures ReachableFrom(WholeGraph(p), SeedNodes(start), n) {
      if !HasRoot(before, n) {
        TargetIsReachable(p, SeedNodes(start), m, before[m], r, n);
      }
    }
  }

  /** With the queue empty, a reached node is sound and everything it leads to is reached too. */
  lemma NodeClosed(p: View, start: Roots, facade: bool, w: Work, reached: Reached, n: Node)
    requires WorkInvariant(p, start, facade, w, reached) && w.pending == [] && In(reached, n)
    ensures Sound(p, n, facade) && n in WholeGraph(p)
    ensures forall x | x in WholeGraph(p)[n] :: In(reached, x)
    ensures ReachableFrom(WholeGraph(p), SeedNodes(start), n)
  {
    var m, r, roots := n.m, reached[n.m], w.roots[n.m];
    assert Current(p, roots, reached, m) && Stored(p, facade, w.roots, r, m);
    RootsReachable(p, start, w.roots, m);
    IntraIsReachable(p, SeedNodes(start), m, roots, n.f);
    forall x | x in WholeGraph(p)[n] ensures In(reached, x) {
      SuccessorReached(p, facade, w, reached, n, x);
    }
  }

  lemma SuccessorReached(p: View, facade: bool, w: Work, reached: Reached, n: Node, x: Node)
    requires w.pending == [] && In(reached, n) && n.m in w.roots
    requires forall m | m in w.roots :: Current(p, w.roots[m], reached, m)
    requires Stored(p, facade, w.roots, reached[n.m], n.m)
    requires n.m in p.modules && n.f in p.modules[n.m] && x in NodeSuccessors(p, n)
    ensures In(reached, x)
  {
    assert Current(p, w.roots[n.m], reached, n.m);
    var facts := p.modules[n.m][n.f];
    if f :| f in facts.calls && x == Node(n.m, f) {
      ReachableStep(CallGraph(p.modules[n.m]), w.roots[n.m], n.f, f);
    } else {
      var id :| id in facts.outgoing && OwnerOf(p.owners, n.m, id) == Some(x);
      assert id in reached[n.m].outgoing;
      RootReached(p, w, reached, x);
    }
  }

  lemma RootReached(p: View, w: Work, reached: Reached, n: Node)
    requires HasRoot(w.roots, n) && forall m | m in w.roots :: Current(p, w.roots[m], reached, m)
    ensures In(reached, n)
  {
    assert Current(p, w.roots[n.m], reached, n.m);
    ReachesRefl(CallGraph(p.modules[n.m]), n.f);
  }

  /** An empty queue means the roots are closed, so the stored results are exactly what is reachable. */
  lemma EmptyQueueIsFixpoint(p: View, start: Roots, facade: bool, w: Work, reached: Reached)
    requires WorkInvariant(p, start, facade, w, reached) && w.pending == []
    ensures LeastFixpoint(p, start, reached) && Clean(p, start, facade)
  {
    var closed := set m, f | m in reached && f in reached[m].functions :: Node(m, f);
    forall n | n in closed
      ensures Sound(p, n, facade) && (n in WholeGraph(p) ==> WholeGraph(p)[n] <= closed) &&
              ReachableFrom(WholeGraph(p), SeedNodes(start), n)
    {
      NodeClosed(p, start, facade, w, reached, n);
      forall x | x in WholeGraph(p)[n] ensures x in closed {
        assert In(reached, x);
      }
    }
    forall n | n in SeedNodes(start) ensures n in closed {
      RootReached(p, w, reached, n);
    }
    forall n ensures In(reached, n) <==> ReachableFrom(WholeGraph(p), SeedNodes(start), n) {
      assert In(reached, n) <==> n in closed;
      if ReachableFrom(WholeGraph(p), SeedNodes(start), n) {
        ClosedHoldsReachable(WholeGraph(p), SeedNodes(start), closed, n);
      }
    }
    forall m | m in reached ensures m in p.modules && Merged(p.modules[m], reached[m]) &&
        (m in start || reached[m].functions != {}) {
      assert Current(p, w.roots[m], reached, m);
      if m !in start {
        var f :| f in w.roots[m];
        RootReached(p, w, reached, Node(m, f));
      }
    }
    forall m | m in start ensures m in reached && m in p.modules {
      assert Current(p, w.roots[m], reached, m);
    }
  }

  /** Owners that are not yet roots; every re-queue uses one up. */
  ghost function Spare(o: OwnerMaps, roots: Roots): set<Node> {
    set n | n in OwnerNodes(o) && !HasRoot(roots, n)
  }

  lemma GainedUsesSpare(o: OwnerMaps, m: ModuleRef, outgoing: set<Identity>, before: Roots, after: Roots)
    requires Gained(o, m, outgoing, before, after) && forall n | HasRoot(before, n) :: HasRoot(after, n)
    ensures Spare(o, after) < Spare(o, before)
  {
    var n :| HasRoot(after, n) && !HasRoot(before, n) && IsTarget(o, m, outgoing, n);
    assert n in OwnerNodes(o);
    assert n in Spare(o, before) && n !in Spare(o, after);
  }

  /**
   Grow per-module root sets until no module is queued. `facade` rejects reached project-context functions,
   which entry assembly does not.
   */
  method CollectReachabilityByModule(program: Program, start: Roots, facade: bool) returns (r: Result<Reached>)
    ensures r.Ok? ==> Clean(ViewOf(program), start, facade) && LeastFixpoint(ViewOf(program), start, r.value)
    ensures Clean(ViewOf(program), start, facade) && Filed(ViewOf(program), start) ==> r.Ok?
  {
    ghost var p := ViewOf(program);
    var queue := ListSet(start.Keys);
    var w := Work(start, queue);
    var reached: Reached := map[];
    StartInvariant(p, start, facade, queue);
    while w.pending != []
      invariant WorkInvariant(p, start, facade, w, reached)
      decreases Spare(p.owners, w.roots), |w.pending|
    {
      var m := w.pending[0];
      var one := VisitModule(program, p, start, facade, w, reached, m);
      if one.Err? {
        return Err;
      }
      var after := AddTargetsOf(program.owners, p, start, facade, w, reached, m, one.value);
      if after.Err? {
        return Err;
      }
      w, reached := after.value, reached[m := one.value];
    }
    EmptyQueueIsFixpoint(p, start, facade, w, reached);
    r := Ok(reached);
  }

  lemma StartInvariant(p: View, start: Roots, facade: bool, queue: seq<ModuleRef>)
    requires SeqSet(queue) == start.Keys
    ensures WorkInvariant(p, start, facade, Work(start, queue), map[])
  {
    forall m ensures m in queue <==> m in start {
      assert m in queue <==> m in SeqSet(queue);
    }
    forall n | HasRoot(start, n) ensures ReachableFrom(WholeGraph(p), SeedNodes(start), n) {
      assert n == Node(n.m, n.f) && n in SeedNodes(start);
      ReachesRefl(WholeGraph(p), n);
    }
  }

  lemma ReachedIsSound(p: View, start: Roots, facade: bool, n: Node)
    ensures Clean(p, start, facade) && ReachableFrom(WholeGraph(p), SeedNodes(start), n) ==> Sound(p, n, facade)
  {
  }

  /** Link facts produced one function at a time are always filed. */
  lemma ProducedTablesAreFiled(program: Program, start: Roots)
    requires forall m | m in program.modules :: Owned(program.modules[m])
    ensures Filed(ViewOf(program), start)
  {
    var p := ViewOf(program);
    forall m, f | m in p.modules && f in p.modules[m] ensures p.modules[m][f].filed {
      OwnedIsFiled(program.modules[m], f);
    }
  }

  /** A reached function without complete facts is a defect; one filed elsewhere breaks the filing. */
  lemma DeficientReached(p: View, start: Roots, facade: bool, m: ModuleRef, roots: set<FunctionId>, f: FunctionId)
    requires m in p.modules && ReachableFrom(CallGraph(p.modules[m]), roots, f) && Deficient(p.modules[m], f)
    requires forall x | x in roots :: ReachableFrom(WholeGraph(p), SeedNodes(start), Node(m, x))
    ensures !(Clean(p, start, facade) && Filed(p, start))
  {
    IntraIsReachable(p, SeedNodes(start), m, roots, f);
    if f !in p.modules[m] || !p.modules[m][f].complete {
      ReachedIsSound(p, start, facade, Node(m, f));
    }
  }

  /** Recompute one queued module from its present roots. */
  method VisitModule(program: Program, ghost p: View, ghost start: Roots, facade: bool, w: Work,
                     ghost reached: Reached, m: ModuleRef)
    returns (r: Result<Reachability>)
    requires p == ViewOf(program)
    requires WorkInvariant(p, start, facade, w, reached) && m in w.roots
    ensures r.Ok? ==> m in p.modules && Describes(p.modules[m], w.roots[m], r.value)
    ensures r.Ok? && facade ==> !r.value.reachesContext
    ensures r.Err? ==> !(Clean(p, start, facade) && Filed(p, start))
  {
    RootsReachable(p, start, w.roots, m);
    if m !in program.modules {
      MissingModule(p, start, facade, w.roots, m);
      return Err;
    }
    var rootList := ListSet(w.roots[m]);
    var one := CollectReachability(program.modules[m], rootList, p.modules[m]);
    if one.Err? {
      ghost var f :| ReachableFrom(CallGraph(p.modules[m]), w.roots[m], f) && Deficient(p.modules[m], f);
      DeficientReached(p, start, facade, m, w.roots[m], f);
      return Err;
    }
    var selected := one.value.reached;
    if facade && selected.reachesContext {
      ghost var f :| f in selected.functions && p.modules[m][f].projectContext;
      IntraIsReachable(p, SeedNodes(start), m, w.roots[m], f);
      ReachedIsSound(p, start, facade, Node(m, f));
      return Err;
    }
    r := Ok(selected);
  }

  lemma MissingModule(p: View, start: Roots, facade: bool, roots: Roots, m: ModuleRef)
    requires RootsExact(p, start, roots) && m in roots && m !in p.modules
    ensures !Clean(p, start, facade)
  {
    if m !in start {
      var f :| f in roots[m];
      assert HasRoot(roots, Node(m, f));
      ReachedIsSound(p, start, facade, Node(m, f));
    }
  }

  /** Queue what the module's result leads to, or fail on an identity that no owner provides. */
  method AddTargetsOf(o: OwnerMaps, ghost p: View, ghost start: Roots, ghost facade: bool, w: Work,
                      ghost reached: Reached,
                      m: ModuleRef, r: Reachability) returns (after: Result<Work>)
    requires o == p.owners && WorkInvariant(p, start, facade, w, reached) && w.pending != [] && w.pending[0] == m &&
             m in p.modules
    requires Describes(p.modules[m], w.roots[m], r) && (facade ==> !r.reachesContext)
    ensures after.Ok? ==> WorkInvariant(p, start, facade, after.value, reached[m := r])
    ensures after.Ok? ==>
              after.value == w.(pending := w.pending[1..]) || Spare(o, after.value.roots) < Spare(o, w.roots)
    ensures after.Err? ==> !Clean(p, start, facade)
  {
    var ok, next := AddTargets(o, w.(pending := w.pending[1..]), m, r.outgoing);
    if !ok {
      RootsReachable(p, start, w.roots, m);
      ghost var id :| id in r.outgoing && OwnerOf(p.owners, m, id).None?;
      ghost var f :| f in r.functions && id in p.modules[m][f].outgoing;
      IntraIsReachable(p, SeedNodes(start), m, w.roots[m], f);
      ReachedIsSound(p, start, facade, Node(m, f));
      return Err;
    }
    VisitKeepsInvariant(p, start, facade, w, reached, m, r, next);
    if Gained(o, m, r.outgoing, w.roots, next.roots) {
      GainedUsesSpare(o, m, r.outgoing, w.roots, next.roots);
    }
    after := Ok(next);
  }
}
