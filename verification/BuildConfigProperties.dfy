/** What every successful build-config resolution guarantees, and what fact order cannot change. */
module BuildConfigProperties {
  import opened Collections
  import opened Ordering
  import opened BuildConfig
  import opened BuildConfigResolver
  import opened BuildConfigEquivalence

  // ----- exact types, exact keys, no required absence

  ghost predicate TypedValue(v: Option<Value>, contract: Contract) {
    v.Some? ==> HasType(v.value, contract.primitive)
  }

  /** Values selected while config folding ran already have their contract's type. */
  ghost predicate ProvidersTyped(direct: seq<Fact>) {
    forall f | f in direct && f.provider.Some? :: TypedValue(f.provider.value.value, f.contract)
  }

  /** No conflict was found, so every collected source fact is compatible with the project lanes. */
  lemma {:induction false} CompatibleEverywhere(facts: seq<Fact>, seen: set<Text>, source: Facts, fixed: Facts,
                                                direct: Facts)
    requires forall n | NamedIn(facts, n) :: n in source
    ensures Compatibility(facts, seen, source, fixed, direct).None? <==>
            forall n | NamedIn(facts, n) && n !in seen :: CompatibilityError(source[n], fixed, direct).None?
    decreases |facts|
  {
    if facts != [] {
      var n := facts[0].name;
      CompatibleEverywhere(facts[1..], if n in seen then seen else seen + {n}, source, fixed, direct);
    }
  }

  /** A fixed field takes a name over only where a source contract has the same name. */
  predicate FixedOwned(b: Boundary, n: Text) {
    n in b.source && n in b.fixed
  }

  /** The contract a resolved name answers to. */
  function GoverningContract(b: Boundary, n: Text): Contract
    requires n in b.Names()
  {
    if n in b.source then b.source[n].contract else b.direct[n].contract
  }

  /** The fact a resolved name is declared by. */
  function GoverningFact(b: Boundary, n: Text): Fact
    requires n in b.Names()
  {
    if n in b.source && (n in b.fixed || n !in b.direct) then b.source[n] else b.direct[n]
  }

  /** The location is the one span there is, if there is one. */
  ghost predicate LocatedAt(location: Option<Location>, span: Option<Span>) {
    (location.None? <==> span.None?) && forall s :: span == Some(s) ==> location == Some(Source(s))
  }

  /** A declaration-owned name carries its provider's value, origin and fingerprint; every other one is stamped. */
  ghost predicate FromItsLane(b: Boundary, n: Text, v: Resolved) {
    if FixedOwned(b, n) then
      && v.value == b.fixed[n].default_ && v.origin == FixedProjectField && LocatedAt(v.location, b.fixed[n].span)
      && v.fingerprint == b.services.fingerprint(n, v.contract, v.value)
    else if n in b.direct then
      && b.direct[n].provider.Some?
      && var p := b.direct[n].provider.value;
         v.value == p.value && v.origin == p.origin && v.fingerprint == p.fingerprint && v.location == p.location
    else
      && v.fingerprint == b.services.fingerprint(n, v.contract, v.value)
      && v.origin == (if n in b.inputs then ExplicitInput else if n in b.services.globals then BuilderGlobal
                      else DeclarationDefault)
      && (v.origin == ExplicitInput ==>
            v.value.Some? && Becomes(b.inputs[n].value, v.contract.primitive, v.value.value) &&
            v.location == Some(b.inputs[n].location))
      && (v.origin == BuilderGlobal ==> v.value == Some(b.services.globals[n]) && v.location == None)
      && (v.origin == DeclarationDefault ==>
            n in b.source && v.value == b.source[n].default_ &&
            LocatedAt(v.location, if v.value.Some? then b.source[n].span else None))
  }

  /** What one resolved name must satisfy. */
  ghost predicate WellResolved(b: Boundary, n: Text, v: Resolved)
    requires n in b.Names()
  {
    && v.name == n && v.contract == GoverningContract(b, n) && TypedValue(v.value, v.contract)
    && FromItsLane(b, n, v)
    && (var f := GoverningFact(b, n); v.required == f.required && v.default_ == f.default_ && v.span == f.span)
    && (n !in b.fixed && n !in b.direct && b.source[n].required ==> v.value.Some?)
  }

  lemma {:induction false} NameWellResolved(b: Boundary, n: Text)
    requires n in b.Names() && b.At(n).Ok? && Keyed(b.source) && Keyed(b.direct)
    requires n in b.source ==> DefaultError(b.source[n]).None?
    requires n in b.source ==> CompatibilityError(b.source[n], b.fixed, b.direct).None?
    requires n in b.fixed ==> DefaultError(b.fixed[n]).None?
    requires n in b.direct && b.direct[n].provider.Some? ==>
               TypedValue(b.direct[n].provider.value.value, b.direct[n].contract)
    ensures WellResolved(b, n, b.At(n).value)
  {
    if FixedOwned(b, n) {
      ConflictIsDifference(b.fixed[n], b.source[n]);
    } else if n in b.source && n in b.direct {
      ConflictIsDifference(b.direct[n], b.source[n]);
    }
  }

  /**
   Every resolved name answers to its source contract, or to its direct one where no source fact exists; its
   value has exactly that contract's primitive type and comes from the lane that owns the name; the keys are
   exactly the source and direct names; and a required source-only contract is never absent.
   */
  lemma {:induction false} ResolutionIsWellTyped(source: seq<Fact>, fixed: seq<Fact>, direct: seq<Fact>,
                                                 inputs: Inputs, services: Services, values: Values)
    returns (b: Boundary)
    requires Canonical(source, fixed, direct, inputs, services, values) && ProvidersTyped(direct)
    ensures CollectSource(map[], source) == Ok(b.source) && CollectProject(map[], fixed) == Ok(b.fixed) &&
            CollectProject(map[], direct) == Ok(b.direct)
    ensures forall n :: n in values <==> NamedIn(source, n) || NamedIn(direct, n)
    ensures forall n | n in values :: n in b.Names() && WellResolved(b, n, values[n])
  {
    b := CanonicalFacts(source, fixed, direct, inputs, services, values);
    SelectedIsTotal(b, values);
    ProjectKeys(map[], fixed);
    ProjectKeys(map[], direct);
    ProjectFacts(map[], direct);
    CompatibleEverywhere(source, {}, b.source, b.fixed, b.direct);
    FirstInNone(b.source.Keys, DefaultCheck(b.source));
    FirstInNone(b.fixed.Keys, DefaultCheck(b.fixed));
    forall n | n in values ensures n in b.Names() && WellResolved(b, n, values[n]) {
      assert n in b.source ==> DefaultCheck(b.source)(n).None?;
      assert n in b.fixed ==> DefaultCheck(b.fixed)(n).None?;
      assert n in b.direct ==> b.direct[n] in direct;
      NameWellResolved(b, n);
    }
  }

  // ----- source order

  ghost predicate SameFacts(a: seq<Fact>, b: seq<Fact>) {
    forall f :: f in a <==> f in b
  }

  /** Equal up to where the contract and its value were written. */
  predicate Alike(a: Resolved, b: Resolved) {
    && a.name == b.name && a.contract == b.contract && a.required == b.required && a.default_ == b.default_
    && a.value == b.value && a.origin == b.origin && a.fingerprint == b.fingerprint
  }

  ghost predicate Coherent(seen: Facts, facts: seq<Fact>) {
    && (forall f, g | f in facts && g in facts && f.name == g.name :: SameContract(f, g))
    && (forall f | f in facts && f.name in seen :: SameContract(seen[f.name], f))
  }

  /** Collection succeeds exactly when facts that share a name share a contract. */
  lemma {:induction false} CollectsIffCoherent(seen: Facts, facts: seq<Fact>)
    ensures CollectSource(seen, facts).Ok? <==> Coherent(seen, facts)
    decreases |facts|
  {
    if facts != [] {
      var f := facts[0];
      var next := if f.name in seen then seen else seen[f.name := f];
      CollectsIffCoherent(next, facts[1..]);
      assert facts == [f] + facts[1..];
      if f.name in seen {
        ConflictIsDifference(seen[f.name], f);
      } else {
        assert Coherent(seen, facts) <==> Coherent(next, facts) by {
          if Coherent(seen, facts) {
            forall g | g in facts && g.name in next ensures SameContract(next[g.name], g) {
              assert g.name == f.name ==> SameContract(f, g);
            }
          }
          if Coherent(next, facts) {
            forall g | g in facts && g.name in seen ensures SameContract(seen[g.name], g) {
              assert next[g.name] == seen[g.name];
            }
          }
        }
      }
    }
  }

  /** Two collections of the same facts: same names, same contracts. */
  ghost predicate AlikeFacts(a: Facts, b: Facts) {
    a.Keys == b.Keys && Keyed(a) && Keyed(b) && forall n | n in a :: SameContract(a[n], b[n])
  }

  lemma {:induction false} CollectionsAlike(a: seq<Fact>, b: seq<Fact>)
    requires SameFacts(a, b) && CollectSource(map[], a).Ok?
    ensures exists m :: CollectSource(map[], b) == Ok(m) && AlikeFacts(CollectSource(map[], a).value, m)
  {
    CollectsIffCoherent(map[], a);
    CollectsIffCoherent(map[], b);
    assert Coherent(map[], b);
    CollectKeys(map[], a);
    CollectKeys(map[], b);
    SameNames(a, b);
    var sa, sb := CollectSource(map[], a).value, CollectSource(map[], b).value;
    assert sa.Keys == sb.Keys;
    forall n | n in sa ensures SameContract(sa[n], sb[n]) {
      assert sa[n] in a && sb[n] in b && sb[n] in a;
    }
  }

  lemma SameNames(a: seq<Fact>, b: seq<Fact>)
    requires SameFacts(a, b)
    ensures forall n :: NamedIn(a, n) <==> NamedIn(b, n)
  {
    forall n | NamedIn(a, n) ensures NamedIn(b, n) {
      var i :| 0 <= i < |a| && a[i].name == n;
      assert a[i] in b;
    }
    forall n | NamedIn(b, n) ensures NamedIn(a, n) {
      var i :| 0 <= i < |b| && b[i].name == n;
      assert b[i] in a;
    }
  }

  /** Selecting one name depends on its contract, never on where the contract was declared. */
  lemma {:induction false} NameAlike(x: Boundary, y: Boundary, n: Text)
    requires AlikeFacts(x.source, y.source) && y == x.(source := y.source)
    ensures AlikeResults(x.At(n), y.At(n))
  {
    if n in x.source {
      OneAlike(n, Get(x.fixed, n), Get(x.direct, n), x.source[n], y.source[n], Get(x.inputs, n), x.services);
    } else {
      assert x.At(n) == y.At(n);
    }
  }

  ghost predicate AlikeResults(a: Result<Resolved>, b: Result<Resolved>) {
    (a.Ok? <==> b.Ok?) && (a.Ok? ==> Alike(a.value, b.value))
  }

  lemma OneAlike(n: Text, fixed: Option<Fact>, direct: Option<Fact>, a: Fact, b: Fact, input: Option<Input>,
                 services: Services)
    ensures a.name == b.name && SameContract(a, b) ==>
              AlikeResults(ResolveOne(n, fixed, direct, Some(a), input, services),
                           ResolveOne(n, fixed, direct, Some(b), input, services))
  {
  }

  lemma {:induction false} SelectAlike(x: Boundary, y: Boundary, values: Values)
    requires AlikeFacts(x.source, y.source) && y == x.(source := y.source) && Select(x) == Ok(values)
    ensures Select(y).Ok? && Select(y).value.Keys == values.Keys
    ensures forall n | n in values :: Alike(values[n], Select(y).value[n])
  {
    SelectedIsTotal(x, values);
    forall n | n in y.Names() ensures Errors(y.Lookup())(n).None? {
      NameAlike(x, y, n);
      assert y.Lookup()(n) == y.At(n);
    }
    FirstInNone(y.Names(), Errors(y.Lookup()));
    ResolvedKeys(map[], y.Names(), y.Lookup());
    ResolvedKeys(map[], x.Names(), x.Lookup());
    assert x.Names() == y.Names();
    assert (map[] + ValuesAt(y.Names(), y.Lookup())).Keys == values.Keys;
    SelectedIsTotal(y, Select(y).value);
    forall n | n in values ensures Alike(values[n], Select(y).value[n]) {
      NameAlike(x, y, n);
    }
  }

  lemma {:induction false} ChecksAlike(a: seq<Fact>, b: seq<Fact>, x: Facts, y: Facts, fixed: Facts, direct: Facts)
    requires SameFacts(a, b) && AlikeFacts(x, y) && (forall n :: n in x <==> NamedIn(a, n))
    requires FirstIn(x.Keys, DefaultCheck(x)).None? && Compatibility(a, {}, x, fixed, direct).None?
    ensures FirstIn(y.Keys, DefaultCheck(y)).None? && Compatibility(b, {}, y, fixed, direct).None?
  {
    SameNames(a, b);
    FirstInNone(x.Keys, DefaultCheck(x));
    FirstInNone(y.Keys, DefaultCheck(y));
    forall n | n in y.Keys ensures DefaultCheck(y)(n).None? {
      assert DefaultCheck(x)(n).None?;
    }
    CompatibleEverywhere(a, {}, x, fixed, direct);
    CompatibleEverywhere(b, {}, y, fixed, direct);
    forall n | NamedIn(b, n) && n !in {} ensures CompatibilityError(y[n], fixed, direct).None? {
      SameContractSameCompatibility(x[n], y[n], fixed, direct);
    }
  }

  /**
   Permuting the source facts never changes whether resolution succeeds, and on success the maps agree on
   every type, value, origin and fingerprint.
   */
  lemma {:induction false} SourceOrderIrrelevant(a: seq<Fact>, b: seq<Fact>, fixed: seq<Fact>, direct: seq<Fact>,
                                                 inputs: Inputs, services: Services, values: Values)
    requires SameFacts(a, b) && FullResolve(a, fixed, direct, inputs, services) == Ok(values)
    ensures var other := FullResolve(b, fixed, direct, inputs, services);
            && other.Ok? && other.value.Keys == values.Keys
            && forall n | n in values :: Alike(values[n], other.value[n])
  {
    var x := CanonicalFacts(a, fixed, direct, inputs, services, values);
    CollectionsAlike(a, b);
    var y := x.(source := CollectSource(map[], b).value);
    ChecksAlike(a, b, x.source, y.source, x.fixed, x.direct);
    SelectAlike(x, y, values);
    assert FullResolve(b, fixed, direct, inputs, services) == Settle(b, y);
    assert Settle(b, y) == Select(y);
  }
}
