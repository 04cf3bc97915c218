/** Memoised, cycle-tolerant type facts used by the backend feature gates. */
module BackendTypes {
  import opened Collections

  type TypeId = nat

  datatype BuiltinKey = FixedScalar | Number | OtherBuiltin

  datatype VariantPayload = Unit | Record(fields: seq<TypeId>)

  datatype TypeDefinition =
    | Builtin(key: BuiltinKey)
    | Struct(fields: seq<TypeId>)
    | Choice(variants: seq<VariantPayload>)
    | Constructed(arguments: seq<TypeId>)
    | Function(parameters: seq<TypeId>, returns_: seq<TypeId>, errorReturn: Option<TypeId>)
    | GenericInstance(arguments: seq<TypeId>, base: Option<TypeId>)
    | External
    | GenericParameter
    | AnonymousConstRecordMarker

  /** The type environment together with the designated canonical Error type of one gate. */
  datatype Environment = Environment(types: map<TypeId, TypeDefinition>, errorType: Option<TypeId>)

  datatype Fact = ContainsError | ContainsFixedScalar | ContainsNumber

  /** The definition of `t` mentions `c`; the designated Error struct is a leaf. */
  ghost predicate Mentions(env: Environment, t: TypeId, c: TypeId) {
    t in env.types &&
    match env.types[t]
    case Struct(fields) => env.errorType != Some(t) && c in fields
    case Choice(variants) => PayloadMentions(variants, c)
    case Constructed(arguments) => c in arguments
    case Function(parameters, rs, errorReturn) => c in parameters || c in rs || errorReturn == Some(c)
    case GenericInstance(arguments, base) => c in arguments || base == Some(c)
    case _ => false
  }

  /** Some variant carries a record with a field of that type. */
  ghost predicate PayloadMentions(variants: seq<VariantPayload>, c: TypeId) {
    exists i :: 0 <= i < |variants| && variants[i].Record? && c in variants[i].fields
  }

  /** Whether `t` itself, ignoring its structure, carries a fact. */
  ghost predicate Own(env: Environment, t: TypeId, f: Fact) {
    t in env.types &&
    match f
    case ContainsError => env.errorType == Some(t)
    case ContainsFixedScalar => env.types[t] == Builtin(FixedScalar)
    case ContainsNumber => env.types[t] == Builtin(Number)
  }

  /** A chain of types, each mentioned by the one before. */
  ghost predicate Chain(env: Environment, p: seq<TypeId>) {
    |p| > 0 && forall i | 0 <= i < |p| - 1 :: Mentions(env, p[i], p[i + 1])
  }

  ghost predicate ChainTo(env: Environment, p: seq<TypeId>, t: TypeId, u: TypeId) {
    Chain(env, p) && p[0] == t && p[|p| - 1] == u
  }

  /** The reference meaning of a query: a chain of mentions from `t` ends in a type with that own fact. */
  ghost predicate Contains(env: Environment, t: TypeId, f: Fact) {
    exists p, u :: ChainTo(env, p, t, u) && Own(env, u, f)
  }

  // ----- path avoidance

  ghost predicate AvoidingChain(env: Environment, hidden: set<TypeId>, p: seq<TypeId>, t: TypeId, u: TypeId) {
    ChainTo(env, p, t, u) && forall i | 0 <= i < |p| :: p[i] !in hidden
  }

  /** What a walk that treats `hidden` as provisional can see from `t`. */
  ghost predicate Sees(env: Environment, hidden: set<TypeId>, t: TypeId, f: Fact) {
    exists p, u :: AvoidingChain(env, hidden, p, t, u) && Own(env, u, f)
  }

  /** Something `t` mentions sees the fact. */
  ghost predicate MentionedSees(env: Environment, hidden: set<TypeId>, t: TypeId, f: Fact) {
    exists c :: Mentions(env, t, c) && Sees(env, hidden, c, f)
  }

  lemma SeesNothingHiddenIsContains(env: Environment, t: TypeId, f: Fact)
    ensures Sees(env, {}, t, f) <==> Contains(env, t, f)
  {
    if Contains(env, t, f) {
      var p, u :| ChainTo(env, p, t, u) && Own(env, u, f);
      assert AvoidingChain(env, {}, p, t, u);
    }
  }

  /** Cutting a path at the last visit to its start hides the start from the rest of the path. */
  lemma {:induction false} LastVisit(env: Environment, hidden: set<TypeId>, p: seq<TypeId>, t: TypeId, u: TypeId)
    requires AvoidingChain(env, hidden, p, t, u) && t != u
    ensures exists c, q :: Mentions(env, t, c) && AvoidingChain(env, hidden + {t}, q, c, u)
    decreases |p|
  {
    assert |p| > 1 && Mentions(env, p[0], p[1]);
    if i :| 1 <= i < |p| && p[i] == t {
      assert AvoidingChain(env, hidden, p[i..], t, u);
      LastVisit(env, hidden, p[i..], t, u);
    } else {
      assert AvoidingChain(env, hidden + {t}, p[1..], p[1], u);
    }
  }

  /** One step of the walk: own facts, plus what each mentioned type sees once `t` is provisional. */
  lemma SeesUnfold(env: Environment, hidden: set<TypeId>, t: TypeId, f: Fact)
    requires t !in hidden
    ensures Sees(env, hidden, t, f) <==> Own(env, t, f) || MentionedSees(env, hidden + {t}, t, f)
  {
    if Sees(env, hidden, t, f) {
      var p, u :| AvoidingChain(env, hidden, p, t, u) && Own(env, u, f);
      if t != u {
        LastVisit(env, hidden, p, t, u);
      }
    }
    if Own(env, t, f) {
      assert AvoidingChain(env, hidden, [t], t, t);
    }
    if c :| Mentions(env, t, c) && Sees(env, hidden + {t}, c, f) {
      var q, u :| AvoidingChain(env, hidden + {t}, q, c, u) && Own(env, u, f);
      assert AvoidingChain(env, hidden, [t] + q, t, u);
    }
  }

  /** A chain that starts in a set closed under mentions never leaves it. */
  lemma {:induction false} ClosedChain(env: Environment, closed: set<TypeId>, p: seq<TypeId>, i: nat)
    requires Chain(env, p) && p[0] in closed && i < |p|
    requires forall a, c | a in closed && Mentions(env, a, c) :: c in closed
    ensures p[i] in closed
  {
    if i > 0 {
      ClosedChain(env, closed, p, i - 1);
      assert Mentions(env, p[i - 1], p[i - 1 + 1]);
    }
  }

  /** Hiding types that a closed set never meets hides nothing from its members. */
  lemma ClosedSetSeesAll(env: Environment, closed: set<TypeId>, hidden: set<TypeId>, t: TypeId, f: Fact)
    requires t in closed && closed !! hidden
    requires forall a, c | a in closed && Mentions(env, a, c) :: c in closed
    ensures Sees(env, hidden, t, f) <==> Sees(env, {}, t, f)
  {
    if Sees(env, {}, t, f) {
      var p, u :| AvoidingChain(env, {}, p, t, u) && Own(env, u, f);
      forall i | 0 <= i < |p| ensures p[i] !in hidden {
        ClosedChain(env, closed, p, i);
      }
      assert AvoidingChain(env, hidden, p, t, u);
    }
    if Sees(env, hidden, t, f) {
      var p, u :| AvoidingChain(env, hidden, p, t, u) && Own(env, u, f);
      assert AvoidingChain(env, {}, p, t, u);
    }
  }

  // ----- the memoised walk

  datatype TypeVisit = TypeVisit(error: bool, fixedScalar: bool, number: bool, openCycle: bool) {
    predicate Has(f: Fact) {
      match f
      case ContainsError => error
      case ContainsFixedScalar => fixedScalar
      case ContainsNumber => number
    }

    function Merge(other: TypeVisit): (r: TypeVisit)
      ensures forall f :: r.Has(f) == (Has(f) || other.Has(f))
    {
      TypeVisit(error || other.error, fixedScalar || other.fixedScalar, number || other.number,
                openCycle || other.openCycle)
    }
  }

  const EMPTY_VISIT := TypeVisit(false, false, false, false)

  /** What `v` reports: everything `start` does, and what the listed types see. */
  ghost predicate Merges(env: Environment, hidden: set<TypeId>, start: TypeVisit, cs: seq<TypeId>, v: TypeVisit) {
    forall f :: v.Has(f) == (start.Has(f) || SomeSees(env, hidden, cs, f))
  }

  ghost predicate SomeSees(env: Environment, hidden: set<TypeId>, cs: seq<TypeId>, f: Fact) {
    exists c :: c in cs && Sees(env, hidden, c, f)
  }

  /** Visiting one more list merges what it sees. */
  lemma MergesAppend(env: Environment, hidden: set<TypeId>, start: TypeVisit, a: seq<TypeId>, v: TypeVisit,
                     b: seq<TypeId>, w: TypeVisit)
    requires Merges(env, hidden, start, a, v) && Merges(env, hidden, v, b, w)
    ensures Merges(env, hidden, start, a + b, w)
  {
    forall f ensures SomeSees(env, hidden, a + b, f) <==> SomeSees(env, hidden, a, f) || SomeSees(env, hidden, b, f) {
      if c :| c in a && Sees(env, hidden, c, f) {
        assert c in a + b;
      }
      if c :| c in b && Sees(env, hidden, c, f) {
        assert c in a + b;
      }
    }
  }

  lemma MergesOne(env: Environment, hidden: set<TypeId>, v: TypeVisit, c: TypeId, child: TypeVisit)
    requires forall f :: child.Has(f) == Sees(env, hidden, c, f)
    ensures Merges(env, hidden, v, [c], v.Merge(child))
  {
    forall f ensures SomeSees(env, hidden, [c], f) <==> Sees(env, hidden, c, f) {
      assert c in [c];
    }
  }

  /** With everything mentioned merged into the type's own facts, the report is what the type itself sees. */
  lemma MergedAll(env: Environment, hidden: set<TypeId>, t: TypeId, own: TypeVisit, met: seq<TypeId>, v: TypeVisit)
    requires t in hidden && (forall f :: own.Has(f) == Own(env, t, f)) && Merges(env, hidden, own, met, v)
    requires forall c :: c in met <==> Mentions(env, t, c)
    ensures forall f :: v.Has(f) == Sees(env, hidden - {t}, t, f)
  {
    var outer := hidden - {t};
    assert outer + {t} == hidden;
    forall f ensures v.Has(f) == Sees(env, outer, t, f) {
      SeesUnfold(env, outer, t, f);
      if c :| Mentions(env, t, c) && Sees(env, hidden, c, f) {
        assert c in met;
        assert SomeSees(env, hidden, met, f);
      }
    }
  }

  lemma PayloadsNext(variants: seq<VariantPayload>, i: nat)
    requires i < |variants|
    ensures forall c :: PayloadMentions(variants[..i + 1], c) <==>
                        PayloadMentions(variants[..i], c) || (variants[i].Record? && c in variants[i].fields)
  {
    var next := variants[..i + 1];
    assert next == variants[..i] + [variants[i]];
    forall c ensures PayloadMentions(next, c) <==>
                     PayloadMentions(variants[..i], c) || (variants[i].Record? && c in variants[i].fields) {
      if k :| 0 <= k < i && variants[..i][k].Record? && c in variants[..i][k].fields {
        assert next[k] == variants[..i][k];
      }
      if variants[i].Record? && c in variants[i].fields {
        assert next[i] == variants[i];
      }
      if k :| 0 <= k <= i && next[k].Record? && c in next[k].fields {
        assert k < i ==> variants[..i][k] == next[k];
      }
    }
  }

  /** Marking a defined type leaves fewer types unmarked. */
  lemma WalkShrinks(env: Environment, visiting: set<TypeId>, t: TypeId)
    requires t in visiting && t in env.types
    ensures |env.types.Keys - visiting| < |env.types.Keys - (visiting - {t})|
  {
    assert t in env.types.Keys - (visiting - {t});
    CardinalityShrinks(env.types.Keys - visiting, env.types.Keys - (visiting - {t}));
  }

  class BackendTypeFacts {
    const env: Environment
    var memo: map<TypeId, TypeVisit>
    var visiting: set<TypeId>

    constructor (env: Environment)
      ensures this.env == env && Valid() && visiting == {}
    {
      this.env := env;
      memo := map[];
      visiting := {};
    }

    /** The memo is closed under mentions, never meets the active walk, and holds only exact answers. */
    ghost predicate Valid()
      reads this
    {
      memo.Keys !! visiting && forall t :: Remembered(memo, t)
    }

    ghost predicate Remembered(memo: map<TypeId, TypeVisit>, t: TypeId) {
      t in memo ==> ExactVisit(t, memo[t]) && forall c | Mentions(env, t, c) :: c in memo
    }

    lemma MemoClosed()
      requires Valid()
      ensures forall t, c | t in memo && Mentions(env, t, c) :: c in memo
    {
      forall t, c | t in memo && Mentions(env, t, c) ensures c in memo {
        assert Remembered(memo, t);
      }
    }

    /** Adding an exact answer whose mentions are remembered keeps the memo. */
    lemma RememberOne(t: TypeId, v: TypeVisit, next: map<TypeId, TypeVisit>)
      requires Valid() && ExactVisit(t, v) && (forall c | Mentions(env, t, c) :: c in memo) && next == memo[t := v]
      ensures forall u :: Remembered(next, u)
    {
      forall u ensures Remembered(next, u) {
        assert Remembered(memo, u);
      }
    }

    ghost predicate ExactVisit(t: TypeId, v: TypeVisit) {
      !v.openCycle && forall f :: v.Has(f) == Contains(env, t, f)
    }

    /** What `v` must report for `t` while `hidden` is provisional. */
    ghost predicate ReportsSeen(hidden: set<TypeId>, t: TypeId, v: TypeVisit) {
      forall f :: v.Has(f) == Sees(env, hidden, t, f)
    }

    lemma MemoHit(t: TypeId)
      requires Valid() && t in memo
      ensures ReportsSeen(visiting, t, memo[t])
    {
      MemoClosed();
      assert Remembered(memo, t);
      forall f ensures memo[t].Has(f) == Sees(env, visiting, t, f) {
        ClosedSetSeesAll(env, memo.Keys, visiting, t, f);
        SeesNothingHiddenIsContains(env, t, f);
      }
    }

    /** A walk that met no provisional type may be memoised as exact. */
    lemma ClosedWalkIsExact(t: TypeId, v: TypeVisit)
      requires Valid() && t !in visiting && !v.openCycle
      requires ReportsSeen(visiting, t, v)
      requires forall c | Mentions(env, t, c) :: c in memo
      ensures ExactVisit(t, v)
    {
      MemoClosed();
      forall f ensures v.Has(f) == Contains(env, t, f) {
        ClosedSetSeesAll(env, memo.Keys + {t}, visiting, t, f);
        SeesNothingHiddenIsContains(env, t, f);
      }
    }

    method Visit(t: TypeId) returns (v: TypeVisit)
      requires Valid()
      modifies this
      ensures Valid() && visiting == old(visiting) && old(memo.Keys) <= memo.Keys
      ensures ReportsSeen(visiting, t, v)
      ensures !v.openCycle ==> t in memo
      decreases |env.types.Keys - visiting|, 2
    {
      if t in memo {
        MemoHit(t);
        return memo[t];
      }
      if t in visiting {
        return EMPTY_VISIT.(openCycle := true);
      }
      visiting := visiting + {t};
      assert env.types.Keys - (visiting - {t}) == env.types.Keys - old(visiting);
      v := Walk(t);
      visiting := visiting - {t};
      assert visiting == old(visiting);
      if !v.openCycle {
        ClosedWalkIsExact(t, v);
        RememberOne(t, v, memo[t := v]);
        memo := memo[t := v];
      }
    }

    method Walk(t: TypeId) returns (v: TypeVisit)
      requires Valid() && t in visiting
      modifies this
      ensures Valid() && visiting == old(visiting) && old(memo.Keys) <= memo.Keys
      ensures ReportsSeen(visiting - {t}, t, v)
      ensures !v.openCycle ==> forall c | Mentions(env, t, c) :: c in memo
      decreases |env.types.Keys - (visiting - {t})|, 1
    {
      if t !in env.types {
        MergedAll(env, visiting, t, EMPTY_VISIT, [], EMPTY_VISIT);
        return EMPTY_VISIT;
      }
      WalkShrinks(env, visiting, t);
      v := TypeVisit(env.errorType == Some(t), false, env.types[t] == Builtin(Number), false);
      ghost var own, met := v, [];
      match env.types[t] {
        case Builtin(key) =>
          if key == FixedScalar {
            v := v.(fixedScalar := true);
            own := v;
          }
        case Struct(fields) =>
          if env.errorType != Some(t) {
            met := fields;
            v := VisitAll(fields, v);
          }
        case Choice(variants) =>
          v, met := VisitVariants(variants, v);
        case Constructed(arguments) =>
          met := arguments;
          v := VisitAll(arguments, v);
        case Function(parameters, rs, errorReturn) =>
          v := VisitAll(parameters, v);
          v := VisitAfter(own, parameters, v, rs);
          met := parameters + rs;
          if errorReturn.Some? {
            v := VisitAfter(own, met, v, [errorReturn.value]);
            met := met + [errorReturn.value];
          }
        case GenericInstance(arguments, base) =>
          v := VisitAll(arguments, v);
          met := arguments;
          if base.Some? {
            v := VisitAfter(own, met, v, [base.value]);
            met := met + [base.value];
          }
        case External | GenericParameter | AnonymousConstRecordMarker =>
      }
      MergedAll(env, visiting, t, own, met, v);
    }

    /** Merge the answers of a list of types into `start`. */
    method VisitAll(types: seq<TypeId>, start: TypeVisit) returns (v: TypeVisit)
      requires Valid()
      modifies this
      ensures Valid() && visiting == old(visiting) && old(memo.Keys) <= memo.Keys
      ensures Merges(env, visiting, start, types, v)
      ensures !v.openCycle ==> !start.openCycle && forall c | c in types :: c in memo
      decreases |env.types.Keys - visiting|, 3
    {
      v := start;
      for i := 0 to |types|
        invariant Valid() && visiting == old(visiting) && old(memo.Keys) <= memo.Keys
        invariant Merges(env, visiting, start, types[..i], v)
        invariant !v.openCycle ==> !start.openCycle && forall c | c in types[..i] :: c in memo
      {
        var child := Visit(types[i]);
        MergesOne(env, visiting, v, types[i], child);
        MergesAppend(env, visiting, start, types[..i], v, [types[i]], v.Merge(child));
        assert types[..i + 1] == types[..i] + [types[i]];
        v := v.Merge(child);
      }
      assert types[..|types|] == types;
    }

    /** Visit one more list after those in `met`. */
    method VisitAfter(ghost start: TypeVisit, ghost met: seq<TypeId>, before: TypeVisit, types: seq<TypeId>)
        returns (v: TypeVisit)
      requires Valid() && Merges(env, visiting, start, met, before)
      requires !before.openCycle ==> forall c | c in met :: c in memo
      modifies this
      ensures Valid() && visiting == old(visiting) && old(memo.Keys) <= memo.Keys
      ensures Merges(env, visiting, start, met + types, v)
      ensures !v.openCycle ==> !before.openCycle && forall c | c in met + types :: c in memo
      decreases |env.types.Keys - visiting|, 4
    {
      v := VisitAll(types, before);
      MergesAppend(env, visiting, start, met, before, types, v);
    }

    /** Visit the fields of every record payload. */
    method VisitVariants(variants: seq<VariantPayload>, start: TypeVisit)
        returns (v: TypeVisit, ghost met: seq<TypeId>)
      requires Valid() && !start.openCycle
      modifies this
      ensures Valid() && visiting == old(visiting) && old(memo.Keys) <= memo.Keys
      ensures Merges(env, visiting, start, met, v) && forall c :: c in met <==> PayloadMentions(variants, c)
      ensures !v.openCycle ==> forall c | c in met :: c in memo
      decreases |env.types.Keys - visiting|, 5
    {
      v, met := start, [];
      for i := 0 to |variants|
        invariant Valid() && visiting == old(visiting) && old(memo.Keys) <= memo.Keys
        invariant Merges(env, visiting, start, met, v)
        invariant forall c :: c in met <==> PayloadMentions(variants[..i], c)
        invariant !v.openCycle ==> forall c | c in met :: c in memo
      {
        PayloadsNext(variants, i);
        match variants[i] {
          case Unit =>
          case Record(fields) =>
            v := VisitAfter(start, met, v, fields);
            met := met + fields;
        }
      }
      assert variants[..|variants|] == variants;
    }

    /** Every query is exact whatever was asked before, because queries start and end quiescent. */
    method Query(t: TypeId, f: Fact) returns (holds: bool)
      requires Valid() && visiting == {}
      modifies this
      ensures Valid() && visiting == {}
      ensures holds <==> Contains(env, t, f)
    {
      var v := Visit(t);
      SeesNothingHiddenIsContains(env, t, f);
      holds := v.Has(f);
    }

    /** The fixed-scalar shape gate: a bare scalar is supported, an aggregate holding one is not. */
    method IsUnsupportedFixedScalarShape(t: TypeId) returns (unsupported: bool)
      requires Valid() && visiting == {}
      modifies this
      ensures Valid() && visiting == {}
      ensures unsupported <==> !Own(env, t, ContainsFixedScalar) && Contains(env, t, ContainsFixedScalar)
    {
      if t in env.types && env.types[t] == Builtin(FixedScalar) {
        return false;
      }
      unsupported := Query(t, ContainsFixedScalar);
    }
  }

  lemma CardinalityShrinks<T>(a: set<T>, b: set<T>)
    requires a < b
    ensures |a| < |b|
  {
    var x :| x in b && x !in a;
    assert a <= b - {x};
    SubsetCardinality(a, b - {x});
  }

  lemma {:induction false} SubsetCardinality<T>(a: set<T>, b: set<T>)
    requires a <= b
    ensures |a| <= |b|
  {
    if a != {} {
      var x :| x in a;
      SubsetCardinality(a - {x}, b - {x});
    }
  }
}
