/** Resolving a transient unit through the canonical index gives the full resolver's answer. */
module BuildConfigEquivalence {
  import opened Collections
  import opened Ordering
  import opened BuildConfig
  import opened BuildConfigResolver

  ghost predicate Keyed(m: Facts) {
    forall n | n in m :: m[n].name == n
  }

  predicate NamedIn(facts: seq<Fact>, n: Text) {
    exists i :: 0 <= i < |facts| && facts[i].name == n
  }

  // ----- collection

  lemma {:induction false} CollectAppend(seen: Facts, a: seq<Fact>, b: seq<Fact>)
    ensures CollectSource(seen, a + b) ==
            match CollectSource(seen, a) case Err(e) => Err(e) case Ok(m) => CollectSource(m, b)
    decreases |a|
  {
    if a == [] {
      assert a + b == b;
    } else {
      assert (a + b)[1..] == a[1..] + b;
      var f := a[0];
      CollectAppend(if f.name in seen then seen else seen[f.name := f], a[1..], b);
    }
  }

  lemma {:induction false} CollectKeys(seen: Facts, facts: seq<Fact>)
    requires Keyed(seen) && CollectSource(seen, facts).Ok?
    ensures var m := CollectSource(seen, facts).value;
            && Keyed(m) && (forall n | n in seen :: n in m && m[n] == seen[n])
            && (forall n :: n in m <==> n in seen || NamedIn(facts, n))
            && (forall n | n in m && n !in seen :: m[n] in facts)
    decreases |facts|
  {
    if facts != [] {
      var f := facts[0];
      CollectKeys(if f.name in seen then seen else seen[f.name := f], facts[1..]);
    }
  }

  /** After a successful collection the index's first-occurrence map is the collected one. */
  lemma {:induction false} FirstFactsMatchSource(seen: Facts, facts: seq<Fact>)
    requires CollectSource(seen, facts).Ok?
    ensures FirstFacts(seen, facts) == CollectSource(seen, facts).value
    decreases |facts|
  {
    if facts != [] {
      var f := facts[0];
      FirstFactsMatchSource(if f.name in seen then seen else seen[f.name := f], facts[1..]);
    }
  }

  lemma {:induction false} FirstFactsMatchProject(seen: Facts, facts: seq<Fact>)
    requires CollectProject(seen, facts).Ok?
    ensures FirstFacts(seen, facts) == CollectProject(seen, facts).value
    decreases |facts|
  {
    if facts != [] {
      FirstFactsMatchProject(seen[facts[0].name := facts[0]], facts[1..]);
    }
  }

  /** Collecting transient facts beside the canonical map is collecting them after it. */
  lemma {:induction false} TransientIsSuffix(canonical: Facts, seen: Facts, facts: seq<Fact>)
    requires canonical.Keys !! seen.Keys
    ensures match CollectTransient(canonical, seen, facts)
            case Err(e) => CollectSource(canonical + seen, facts) == Err(e)
            case Ok(t) => CollectSource(canonical + seen, facts) == Ok(canonical + t) && canonical.Keys !! t.Keys
                          && (forall n | n in seen :: n in t && t[n] == seen[n])
    decreases |facts|
  {
    if facts != [] {
      var f := facts[0];
      if f.name in canonical || f.name in seen {
        TransientIsSuffix(canonical, seen, facts[1..]);
      } else {
        var next := seen[f.name := f];
        assert (canonical + seen)[f.name := f] == canonical + next;
        TransientIsSuffix(canonical, next, facts[1..]);
      }
    }
  }

  // ----- compatibility

  lemma SameContractSameCompatibility(a: Fact, b: Fact, fixed: Facts, direct: Facts)
    ensures a.name == b.name && SameContract(a, b) ==>
              (CompatibilityError(a, fixed, direct).None? <==> CompatibilityError(b, fixed, direct).None?)
  {
  }

  /** `after` adds the names of `facts` to `seen`. */
  ghost predicate Marks(after: set<Text>, seen: set<Text>, facts: seq<Fact>) {
    forall n :: n in after <==> n in seen || NamedIn(facts, n)
  }

  lemma {:induction false} CompatibilityAppend(a: seq<Fact>, b: seq<Fact>, seen: set<Text>, source: Facts,
                                               fixed: Facts, direct: Facts)
    requires Compatibility(a, seen, source, fixed, direct).None?
    ensures exists after :: Marks(after, seen, a) &&
                            Compatibility(a + b, seen, source, fixed, direct) ==
                                Compatibility(b, after, source, fixed, direct)
    decreases |a|
  {
    if a == [] {
      assert a + b == b;
      assert Marks(seen, seen, a);
    } else {
      assert (a + b)[1..] == a[1..] + b;
      var next := if a[0].name in seen then seen else seen + {a[0].name};
      CompatibilityAppend(a[1..], b, next, source, fixed, direct);
      var after :| Marks(after, next, a[1..]) &&
                   Compatibility(a[1..] + b, next, source, fixed, direct) ==
                       Compatibility(b, after, source, fixed, direct);
      assert Marks(after, seen, a);
    }
  }

  /** Compatibility only consults the first fact of each listed name. */
  lemma {:induction false} CompatibilityLocal(facts: seq<Fact>, seen: set<Text>, s: Facts, s': Facts, fixed: Facts,
                                              direct: Facts)
    requires forall n | NamedIn(facts, n) :: n in s && n in s' && s[n] == s'[n]
    ensures Compatibility(facts, seen, s, fixed, direct) == Compatibility(facts, seen, s', fixed, direct)
    decreases |facts|
  {
    if facts != [] {
      var next := if facts[0].name in seen then seen else seen + {facts[0].name};
      CompatibilityLocal(facts[1..], next, s, s', fixed, direct);
    }
  }

  /** Checking every transient fact finds the same first conflict as checking each new name once. */
  lemma {:induction false} TransientCompatibilityMatches(facts: seq<Fact>, canonical: Facts, seen: Facts, t: Facts,
                                                        names: set<Text>, fixed: Facts, direct: Facts)
    requires CollectTransient(canonical, seen, facts) == Ok(t) && canonical.Keys !! seen.Keys && Keyed(seen)
    requires forall n :: n in names <==> n in canonical || n in seen
    requires forall n | n in seen :: CompatibilityError(seen[n], fixed, direct).None?
    ensures Compatibility(facts, names, canonical + t, fixed, direct) ==
            TransientCompatibility(facts, canonical, fixed, direct)
    decreases |facts|
  {
    if facts != [] {
      var f := facts[0];
      TransientIsSuffix(canonical, seen, facts);
      if f.name in canonical {
        TransientCompatibilityMatches(facts[1..], canonical, seen, t, names, fixed, direct);
      } else if f.name in seen {
        ConflictIsDifference(seen[f.name], f);
        SameContractSameCompatibility(seen[f.name], f, fixed, direct);
        TransientCompatibilityMatches(facts[1..], canonical, seen, t, names, fixed, direct);
      } else {
        var next := seen[f.name := f];
        TransientIsSuffix(canonical, next, facts[1..]);
        assert (canonical + t)[f.name] == f;
        if CompatibilityError(f, fixed, direct).None? {
          TransientCompatibilityMatches(facts[1..], canonical, next, t, names + {f.name}, fixed, direct);
        }
      }
    }
  }

  // ----- the comparison

  /** Everything a successful canonical resolution established, plus one collected transient unit. */
  ghost predicate Setting(canonical: Boundary, values: Values, t: Facts, inputs: Inputs) {
    && (forall n | n in canonical.Names() :: canonical.At(n).Ok?)
    && values.Keys == canonical.Names() && (forall n | n in values :: values[n] == canonical.At(n).value)
    && canonical.source.Keys !! t.Keys
    && (forall n | n in canonical.source :: Get(inputs, n) == Get(canonical.inputs, n))
  }

  ghost function Extended(canonical: Boundary, t: Facts, inputs: Inputs): Boundary {
    Boundary(canonical.source + t, canonical.fixed, canonical.direct, inputs, canonical.services)
  }

  ghost function Indexed(canonical: Boundary, values: Values): Index {
    Index(values, canonical.source, canonical.fixed, canonical.direct)
  }

  /** Transient names that a fixed field and a declaration-owned contract both claim. */
  ghost function Overlap(canonical: Boundary, t: Facts): set<Text> {
    set n | n in t && n in canonical.fixed && n in canonical.direct
  }

  lemma {:induction false} CanonicalNameKept(canonical: Boundary, t: Facts, inputs: Inputs, n: Text)
    ensures n in canonical.source && n !in t && Get(inputs, n) == Get(canonical.inputs, n) ==>
              Extended(canonical, t, inputs).At(n) == canonical.At(n)
  {
  }

  /** A declaration-owned name keeps its provider unless a fixed field and a new source fact take it over. */
  lemma {:induction false} DirectNameKept(canonical: Boundary, t: Facts, inputs: Inputs, n: Text)
    requires n in canonical.direct && n !in canonical.source && canonical.At(n).Ok?
    ensures canonical.direct[n].provider.Some?
    ensures canonical.At(n) == Ok(FromProvider(canonical.direct[n], canonical.direct[n].provider.value))
    ensures Extended(canonical, t, inputs).At(n) ==
            if n in Overlap(canonical, t) then Ok(FixedResolved(canonical.services, t[n], canonical.fixed[n]))
            else canonical.At(n)
  {
  }

  /** One name at a time: canonical names keep their value, introduced names resolve alike. */
  lemma {:induction false} NameByName(canonical: Boundary, values: Values, t: Facts, inputs: Inputs, n: Text)
    requires Setting(canonical, values, t, inputs) && n in Extended(canonical, t, inputs).Names()
    ensures var ix, full := Indexed(canonical, values), Extended(canonical, t, inputs).At(n);
            if n in Introduced(ix, t) then n !in values && full == IntroducedAt(ix, t, inputs, canonical.services, n)
            else
              && n in values
              && (n !in Overlap(canonical, t) ==> full == Ok(values[n]))
              && (n in Overlap(canonical, t) ==>
                    full == Ok(FixedResolved(canonical.services, t[n], canonical.fixed[n])) &&
                        canonical.direct[n].provider.Some?
                    && values[n] == FromProvider(canonical.direct[n], canonical.direct[n].provider.value))
  {
    if n in canonical.source {
      CanonicalNameKept(canonical, t, inputs, n);
    } else if n in canonical.direct {
      DirectNameKept(canonical, t, inputs, n);
    }
  }

  lemma {:induction false} ResolvedKeys(base: Values, names: set<Text>, at: Text -> Result<Resolved>)
    requires FirstIn(names, Errors(at)).None?
    ensures (forall n | n in names :: at(n).Ok?) && (base + ValuesAt(names, at)).Keys == base.Keys + names
  {
    FirstInNone(names, Errors(at));
    forall n | n in names ensures at(n).Ok? {
      assert Errors(at)(n).None?;
    }
  }

  /** A failed name comes before any unknown input. */
  function SelectionError(failure: Option<Error>, inputs: Inputs, known: set<Text>): Option<Error> {
    if failure.Some? then failure else FirstIn(inputs.Keys, UnknownCheck(inputs, known))
  }

  lemma {:induction false} SelectOverError(base: Values, names: set<Text>, at: Text -> Result<Resolved>, inputs: Inputs)
    ensures ErrorOf(SelectOver(base, names, at, inputs)) ==
            SelectionError(FirstIn(names, Errors(at)), inputs, base.Keys + names)
  {
    if FirstIn(names, Errors(at)).None? {
      ResolvedKeys(base, names, at);
    }
  }

  /** With nothing failing, selection returns the old values and the new ones. */
  lemma {:induction false} SelectOverValues(base: Values, names: set<Text>, at: Text -> Result<Resolved>,
                                            inputs: Inputs)
    requires SelectOver(base, names, at, inputs).Ok? && base.Keys !! names
    ensures var values := SelectOver(base, names, at, inputs).value;
            && values.Keys == base.Keys + names
            && (forall n | n in names :: at(n).Ok? && values[n] == at(n).value) &&
               (forall n | n in base :: values[n] == base[n])
  {
    ResolvedKeys(base, names, at);
  }

  /** The first failure of all names is the first failure of the new ones. */
  lemma {:induction false} FailuresMatch(names: set<Text>, new_: set<Text>, f: Text -> Result<Resolved>,
                                         h: Text -> Result<Resolved>)
    requires new_ <= names
    requires (forall n | n in new_ :: f(n) == h(n)) && (forall n | n in names && n !in new_ :: f(n).Ok?)
    ensures FirstIn(names, Errors(f)) == FirstIn(new_, Errors(h))
  {
    forall n | n in new_ ensures Errors(f)(n) == Errors(h)(n) {
    }
    forall n | n in names && n !in new_ ensures Errors(f)(n).None? {
    }
    FirstInSubset(names, new_, Errors(f), Errors(h));
  }

  /** Selecting all names fails exactly as selecting the new ones over values the others already have. */
  lemma {:induction false} SelectErrorsMatch(base: Values, names: set<Text>, new_: set<Text>,
                                             f: Text -> Result<Resolved>, h: Text -> Result<Resolved>, inputs: Inputs)
    requires new_ <= names && base.Keys == names - new_
    requires (forall n | n in new_ :: f(n) == h(n)) && (forall n | n in names && n !in new_ :: f(n).Ok?)
    ensures ErrorOf(SelectOver(map[], names, f, inputs)) == ErrorOf(SelectOver(base, new_, h, inputs))
  {
    FailuresMatch(names, new_, f, h);
    SelectOverError(map[], names, f, inputs);
    SelectOverError(base, new_, h, inputs);
    var none: Values := map[];
    assert none.Keys + names == base.Keys + new_;
  }

  lemma SameError<T>(a: Result<T>, b: Result<T>)
    requires ErrorOf(a) == ErrorOf(b)
    ensures (a.Err? <==> b.Err?) && (a.Err? ==> a == b)
  {
  }

  /** One name, seen through the two lookups that selection runs. */
  ghost predicate NameMatches(canonical: Boundary, values: Values, overlap: set<Text>, new_: set<Text>,
                              full: Result<Resolved>, inc: Result<Resolved>, n: Text)
    requires n in new_ || n in values
  {
    if n in new_ then full == inc
    else full.Ok? && if n in overlap then ClaimedTwice(full.value, values[n], canonical, n) else full.value == values[n]
  }

  ghost predicate LookupsMatch(canonical: Boundary, values: Values, overlap: set<Text>, names: set<Text>,
                               new_: set<Text>,
                               f: Text -> Result<Resolved>, h: Text -> Result<Resolved>) {
    && new_ <= names && values.Keys == names - new_ && overlap <= names - new_
    && (forall n | n in names :: NameMatches(canonical, values, overlap, new_, f(n), h(n), n))
  }

  lemma {:induction false} NamesSplit(canonical: Boundary, values: Values, t: Facts, inputs: Inputs)
    ensures var names, new_ := Extended(canonical, t, inputs).Names(), Introduced(Indexed(canonical, values), t);
            Setting(canonical, values, t, inputs) ==>
              new_ <= names && values.Keys == names - new_ && Overlap(canonical, t) <= names - new_
  {
  }

  lemma {:induction false} LookupsDoMatch(canonical: Boundary, values: Values, t: Facts, inputs: Inputs)
    requires Setting(canonical, values, t, inputs)
    ensures var ix, b := Indexed(canonical, values), Extended(canonical, t, inputs);
            LookupsMatch(canonical, values, Overlap(canonical, t), b.Names(), Introduced(ix, t), b.Lookup(),
                         IntroducedLookup(ix, t, inputs, canonical.services))
  {
    var ix, b := Indexed(canonical, values), Extended(canonical, t, inputs);
    var names, new_, overlap := b.Names(), Introduced(ix, t), Overlap(canonical, t);
    var f, h := b.Lookup(), IntroducedLookup(ix, t, inputs, canonical.services);
    NamesSplit(canonical, values, t, inputs);
    forall n | n in names ensures NameMatches(canonical, values, overlap, new_, f(n), h(n), n) {
      NameByName(canonical, values, t, inputs, n);
    }
  }

  /** Selection agrees on every failure, and on success everywhere outside the overlap. */
  lemma {:induction false} SelectionMatches(canonical: Boundary, values: Values, t: Facts, names: set<Text>,
                                            new_: set<Text>,
                                            f: Text -> Result<Resolved>, h: Text -> Result<Resolved>, inputs: Inputs)
    requires LookupsMatch(canonical, values, Overlap(canonical, t), names, new_, f, h)
    ensures var full, inc := SelectOver(map[], names, f, inputs), SelectOver(values, new_, h, inputs);
            && (full.Err? <==> inc.Err?) && (full.Err? ==> full == inc)
            && (full.Ok? ==> SameOutside(full.value, inc.value, canonical, t))
  {
    SelectErrorsMatch(values, names, new_, f, h, inputs);
    var full, inc := SelectOver(map[], names, f, inputs), SelectOver(values, new_, h, inputs);
    SameError(full, inc);
    if full.Ok? {
      SelectOverValues(map[], names, f, inputs);
      SelectOverValues(values, new_, h, inputs);
      ValuesAgree(canonical, values, t, names, new_, f, h, full.value, inc.value);
    }
  }

  lemma {:induction false} ValuesAgree(canonical: Boundary, values: Values, t: Facts, names: set<Text>, new_: set<Text>,
                                       f: Text -> Result<Resolved>, h: Text -> Result<Resolved>,
                                       full: Values, inc: Values)
    requires LookupsMatch(canonical, values, Overlap(canonical, t), names, new_, f, h)
    requires full.Keys == names && inc.Keys == values.Keys + new_
    requires forall n | n in names :: f(n).Ok? && full[n] == f(n).value
    requires (forall n | n in new_ :: h(n).Ok? && inc[n] == h(n).value) &&
             (forall n | n in values :: inc[n] == values[n])
    ensures SameOutside(full, inc, canonical, t)
  {
    forall n | n in names
      ensures if n in Overlap(canonical, t) then ClaimedTwice(full[n], inc[n], canonical, n) else full[n] == inc[n]
    {
      assert NameMatches(canonical, values, Overlap(canonical, t), new_, f(n), h(n), n);
    }
  }

  /** The full result took the fixed field while the index kept the direct provider. */
  ghost predicate ClaimedTwice(full: Resolved, inc: Resolved, canonical: Boundary, n: Text) {
    && full.origin == FixedProjectField && n in canonical.direct && canonical.direct[n].provider.Some?
    && inc.origin == canonical.direct[n].provider.value.origin
  }

  /** Equal keys; equal values except where a fixed field overrides a retained direct provider. */
  ghost predicate SameOutside(full: Values, inc: Values, canonical: Boundary, t: Facts) {
    && full.Keys == inc.Keys && Overlap(canonical, t) <= full.Keys
    && (forall n | n in full && n !in Overlap(canonical, t) :: full[n] == inc[n])
    && (forall n | n in full && n in Overlap(canonical, t) :: ClaimedTwice(full[n], inc[n], canonical, n))
  }

  /** A canonical boundary that resolved, as the caller of the index has one. */
  ghost predicate Canonical(source: seq<Fact>, fixed: seq<Fact>, direct: seq<Fact>, inputs: Inputs,
                            services: Services, values: Values) {
    FullResolve(source, fixed, direct, inputs, services) == Ok(values)
  }

  ghost predicate InputsAgree(source: seq<Fact>, a: Inputs, b: Inputs) {
    forall n | NamedIn(source, n) :: Get(a, n) == Get(b, n)
  }

  /** Only boundary resolution assigns the fixed-field origin; folded providers never carry it. */
  ghost predicate FoldedProviders(direct: seq<Fact>) {
    forall f | f in direct && f.provider.Some? :: f.provider.value.origin != FixedProjectField
  }

  /** Some name new to the transient unit is both a fixed project field and a declaration-owned contract. */
  ghost predicate DoublyClaimed(source: seq<Fact>, transient: seq<Fact>, fixed: seq<Fact>, direct: seq<Fact>) {
    exists n :: NamedIn(transient, n) && !NamedIn(source, n) && NamedIn(fixed, n) && NamedIn(direct, n)
  }

  lemma {:induction false} ProjectKeys(seen: Facts, facts: seq<Fact>)
    requires Keyed(seen) && CollectProject(seen, facts).Ok?
    ensures var m := CollectProject(seen, facts).value;
            Keyed(m) && forall n :: n in m <==> n in seen || NamedIn(facts, n)
    decreases |facts|
  {
    if facts != [] {
      ProjectKeys(seen[facts[0].name := facts[0]], facts[1..]);
    }
  }

  lemma {:induction false} ProjectFacts(seen: Facts, facts: seq<Fact>)
    requires CollectProject(seen, facts).Ok?
    ensures var m := CollectProject(seen, facts).value;
            && (forall n | n in seen :: n in m && m[n] == seen[n]) && (forall n | n in m && n !in seen :: m[n] in facts)
    decreases |facts|
  {
    if facts != [] {
      ProjectFacts(seen[facts[0].name := facts[0]], facts[1..]);
      assert facts == [facts[0]] + facts[1..];
    }
  }

  /** What a successful canonical run hands to the index. */
  lemma {:induction false} CanonicalFacts(source: seq<Fact>, fixed: seq<Fact>, direct: seq<Fact>, inputs: Inputs,
                                          services: Services, values: Values)
    returns (b: Boundary)
    requires Canonical(source, fixed, direct, inputs, services, values)
    ensures CollectSource(map[], source) == Ok(b.source) && CollectProject(map[], fixed) == Ok(b.fixed)
    ensures CollectProject(map[], direct) == Ok(b.direct) && b.inputs == inputs && b.services == services
    ensures Keyed(b.source) && (forall n :: n in b.source <==> NamedIn(source, n))
    ensures IndexOf(values, source, fixed, direct) == Indexed(b, values)
    ensures FirstIn(b.source.Keys, DefaultCheck(b.source)).None?
    ensures FirstIn(b.fixed.Keys, DefaultCheck(b.fixed)).None? && FirstIn(b.direct.Keys, DefaultCheck(b.direct)).None?
    ensures Compatibility(source, {}, b.source, b.fixed, b.direct).None?
    ensures Select(b) == Ok(values)
  {
    b := Boundary(CollectSource(map[], source).value, CollectProject(map[], fixed).value,
                  CollectProject(map[], direct).value, inputs, services);
    CollectKeys(map[], source);
    FirstFactsMatchSource(map[], source);
    FirstFactsMatchProject(map[], fixed);
    FirstFactsMatchProject(map[], direct);
  }

  lemma {:induction false} SelectedIsTotal(b: Boundary, values: Values)
    requires Select(b) == Ok(values)
    ensures (forall n | n in b.Names() :: b.At(n).Ok?) && values.Keys == b.Names()
    ensures forall n | n in values :: values[n] == b.At(n).value
  {
    ResolvedKeys(map[], b.Names(), b.Lookup());
    assert values == map[] + ValuesAt(b.Names(), b.Lookup());
    forall n | n in b.Names() ensures b.At(n).Ok? {
      assert b.Lookup()(n).Ok?;
    }
  }

  /** Source-lane validation of canonical then transient facts fails exactly as the transient checks do. */
  lemma {:induction false} ValidationMatches(source: seq<Fact>, facts: seq<Fact>, b: Boundary, t: Facts)
    requires CollectSource(map[], source) == Ok(b.source) && CollectTransient(b.source, map[], facts) == Ok(t)
    requires FirstIn(b.source.Keys, DefaultCheck(b.source)).None?
    requires Compatibility(source, {}, b.source, b.fixed, b.direct).None?
    ensures b.source.Keys !! t.Keys && CollectSource(map[], source + facts) == Ok(b.source + t)
    ensures FirstIn((b.source + t).Keys, DefaultCheck(b.source + t)) == FirstIn(t.Keys, DefaultCheck(t))
    ensures Compatibility(source + facts, {}, b.source + t, b.fixed, b.direct) ==
            TransientCompatibility(facts, b.source, b.fixed, b.direct)
  {
    CollectAppend(map[], source, facts);
    assert b.source + map[] == b.source;
    TransientIsSuffix(b.source, map[], facts);
    CollectKeys(map[], source);
    FirstInNone(b.source.Keys, DefaultCheck(b.source));
    forall n | n in (b.source + t).Keys
      ensures if n in t then DefaultCheck(b.source + t)(n) == DefaultCheck(t)(n)
              else DefaultCheck(b.source + t)(n).None?
    {
      assert n !in t ==> DefaultCheck(b.source)(n).None?;
    }
    FirstInSubset((b.source + t).Keys, t.Keys, DefaultCheck(b.source + t), DefaultCheck(t));
    CompatibilityLocal(source, {}, b.source, b.source + t, b.fixed, b.direct);
    CompatibilityAppend(source, facts, {}, b.source + t, b.fixed, b.direct);
    var after :| Marks(after, {}, source) &&
                 Compatibility(source + facts, {}, b.source + t, b.fixed, b.direct) ==
                     Compatibility(facts, after, b.source + t, b.fixed, b.direct);
    TransientCompatibilityMatches(facts, b.source, map[], t, after, b.fixed, b.direct);
  }

  /** Folded providers never carry the fixed origin, so any overlap shows as a difference. */
  lemma {:induction false} OverlapSeparates(full: Values, inc: Values, b: Boundary, t: Facts, direct: seq<Fact>)
    requires SameOutside(full, inc, b, t) && forall n | n in b.direct :: b.direct[n] in direct
    ensures Overlap(b, t) == {} ==> full == inc
    ensures FoldedProviders(direct) && full == inc ==> Overlap(b, t) == {}
  {
    if n :| FoldedProviders(direct) && n in Overlap(b, t) {
      assert ClaimedTwice(full[n], inc[n], b, n);
    }
  }

  /** Both resolvers report a bad default first, then a conflict, then whatever selection says. */
  function Staged(defaults: Option<Error>, conflict: Option<Error>, selected: Result<Values>): Result<Values> {
    if defaults.Some? then Err(defaults.value) else if conflict.Some? then Err(conflict.value) else selected
  }

  lemma {:induction false} FullIsStaged(source: seq<Fact>, transient: seq<Fact>, fixed: seq<Fact>, direct: seq<Fact>,
                                        b: Boundary, t: Facts, inputs: Inputs)
    requires CollectSource(map[], source) == Ok(b.source) && CollectTransient(b.source, map[], transient) == Ok(t)
    requires CollectProject(map[], fixed) == Ok(b.fixed) && CollectProject(map[], direct) == Ok(b.direct)
    requires FirstIn(b.source.Keys, DefaultCheck(b.source)).None?
    requires FirstIn(b.fixed.Keys, DefaultCheck(b.fixed)).None? && FirstIn(b.direct.Keys, DefaultCheck(b.direct)).None?
    requires Compatibility(source, {}, b.source, b.fixed, b.direct).None?
    ensures FullResolve(source + transient, fixed, direct, inputs, b.services) ==
            Staged(FirstIn(t.Keys, DefaultCheck(t)), TransientCompatibility(transient, b.source, b.fixed, b.direct),
                   Select(Extended(b, t, inputs)))
    ensures b.source.Keys !! t.Keys
  {
    ValidationMatches(source, transient, b, t);
    assert FullResolve(source + transient, fixed, direct, inputs, b.services) ==
           Settle(source + transient, Extended(b, t, inputs));
  }

  lemma IncrementalIsStaged(transient: seq<Fact>, ix: Index, t: Facts, inputs: Inputs, services: Services)
    ensures CollectTransient(ix.source, map[], transient) == Ok(t) ==>
              IncrementalResolve(ix, transient, inputs, services) ==
              Staged(FirstIn(t.Keys, DefaultCheck(t)),
                     TransientCompatibility(transient, ix.source, ix.fixed, ix.direct),
                     SelectIntroduced(ix, t, inputs, services))
  {
  }

  /** A conflict among the transient facts is the full resolver's first error too. */
  lemma {:induction false} CollectionFailureMatches(source: seq<Fact>, transient: seq<Fact>, fixed: seq<Fact>,
                                                    direct: seq<Fact>,
                                                    ix: Index, inputs: Inputs, services: Services)
    requires CollectSource(map[], source) == Ok(ix.source) && CollectTransient(ix.source, map[], transient).Err?
    ensures FullResolve(source + transient, fixed, direct, inputs, services) ==
            IncrementalResolve(ix, transient, inputs, services)
    ensures IncrementalResolve(ix, transient, inputs, services).Err?
  {
    CollectAppend(map[], source, transient);
    assert ix.source + map[] == ix.source;
    TransientIsSuffix(ix.source, map[], transient);
  }

  /** Selecting over the index agrees with selecting over the extended boundary, outside the overlap. */
  lemma {:induction false} UnitSelectionMatches(b: Boundary, inputs: Inputs, values: Values, t: Facts)
    requires Select(b) == Ok(values) && b.source.Keys !! t.Keys
    requires forall n | n in b.source :: Get(inputs, n) == Get(b.inputs, n)
    ensures Agreeing(Select(Extended(b, t, inputs)), SelectIntroduced(Indexed(b, values), t, inputs, b.services), b, t)
  {
    SelectedIsTotal(b, values);
    var ix, e := Indexed(b, values), Extended(b, t, inputs);
    LookupsDoMatch(b, values, t, inputs);
    SelectionMatches(b, values, t, e.Names(), Introduced(ix, t), e.Lookup(),
                     IntroducedLookup(ix, t, inputs, b.services), inputs);
  }

  /** Same failure, or the same values everywhere outside the overlap. */
  ghost predicate Agreeing(full: Result<Values>, inc: Result<Values>, b: Boundary, t: Facts) {
    (full.Err? <==> inc.Err?) && (full.Err? ==> full == inc) && (full.Ok? ==> SameOutside(full.value, inc.value, b, t))
  }

  /**
   The incremental resolver and the full resolver over canonical ++ transient facts fail together with the
   same first error; they return the same map exactly when no transient name is doubly claimed.
   */
  lemma {:induction false} IncrementalMatchesFull(source: seq<Fact>, transient: seq<Fact>, fixed: seq<Fact>,
                                                  direct: seq<Fact>,
                                                  canonicalInputs: Inputs, inputs: Inputs,
                                                  services: Services, values: Values)
    requires Canonical(source, fixed, direct, canonicalInputs, services, values)
    requires InputsAgree(source, canonicalInputs, inputs)
    ensures var full := FullResolve(source + transient, fixed, direct, inputs, services);
            var inc := IncrementalResolve(IndexOf(values, source, fixed, direct), transient, inputs, services);
            && (full.Err? <==> inc.Err?) && (full.Err? ==> full == inc)
            && (full.Err? || !DoublyClaimed(source, transient, fixed, direct) ==> full == inc)
            && (FoldedProviders(direct) && full == inc ==>
                full.Err? || !DoublyClaimed(source, transient, fixed, direct))
  {
    var b := CanonicalFacts(source, fixed, direct, canonicalInputs, services, values);
    var ix := Indexed(b, values);
    if CollectTransient(b.source, map[], transient).Err? {
      CollectionFailureMatches(source, transient, fixed, direct, ix, inputs, services);
    } else {
      var t := CollectTransient(b.source, map[], transient).value;
      FullIsStaged(source, transient, fixed, direct, b, t, inputs);
      IncrementalIsStaged(transient, ix, t, inputs, services);
      UnitSelectionMatches(b, inputs, values, t);
      OverlapIsDoubleClaim(source, transient, fixed, direct, b, t);
      DirectFactsKept(direct, b);
      StagesConclude(FirstIn(t.Keys, DefaultCheck(t)), TransientCompatibility(transient, b.source, b.fixed, b.direct),
                     Select(Extended(b, t, inputs)), SelectIntroduced(ix, t, inputs, services), b, t, direct);
    }
  }

  lemma DirectFactsKept(direct: seq<Fact>, b: Boundary)
    requires CollectProject(map[], direct) == Ok(b.direct)
    ensures forall n | n in b.direct :: b.direct[n] in direct
  {
    ProjectFacts(map[], direct);
  }

  lemma StagesConclude(defaults: Option<Error>, conflict: Option<Error>, full: Result<Values>, inc: Result<Values>,
                       b: Boundary, t: Facts, direct: seq<Fact>)
    requires Agreeing(full, inc, b, t) && forall n | n in b.direct :: b.direct[n] in direct
    ensures var x, y := Staged(defaults, conflict, full), Staged(defaults, conflict, inc);
            && (x.Err? <==> y.Err?) && (x.Err? ==> x == y) && (Overlap(b, t) == {} ==> x == y)
            && (FoldedProviders(direct) && x == y ==> x.Err? || Overlap(b, t) == {})
  {
    if full.Ok? {
      OverlapSeparates(full.value, inc.value, b, t, direct);
    }
  }

  lemma {:induction false} OverlapIsDoubleClaim(source: seq<Fact>, transient: seq<Fact>, fixed: seq<Fact>,
                                                direct: seq<Fact>, b: Boundary, t: Facts)
    requires CollectSource(map[], source) == Ok(b.source) && CollectTransient(b.source, map[], transient) == Ok(t)
    requires CollectProject(map[], fixed) == Ok(b.fixed) && CollectProject(map[], direct) == Ok(b.direct)
    ensures DoublyClaimed(source, transient, fixed, direct) <==> Overlap(b, t) != {}
  {
    CollectAppend(map[], source, transient);
    assert b.source + map[] == b.source;
    TransientIsSuffix(b.source, map[], transient);
    CollectKeys(map[], source);
    CollectKeys(b.source, transient);
    ProjectKeys(map[], fixed);
    ProjectKeys(map[], direct);
    if DoublyClaimed(source, transient, fixed, direct) {
      var n :| NamedIn(transient, n) && !NamedIn(source, n) && NamedIn(fixed, n) && NamedIn(direct, n);
      assert n in b.source + t && n in Overlap(b, t);
    }
    if n :| n in Overlap(b, t) {
      assert n in b.source + t && n !in b.source;
    }
  }

  // ----- filtered inputs

  /** Keep the explicit inputs that a canonical or transient contract could consume. */
  function FilterToKnown(ix: Index, inputs: Inputs, facts: seq<Fact>): Inputs {
    map n | n in inputs && Known(ix, facts, n) :: inputs[n]
  }

  predicate Known(ix: Index, facts: seq<Fact>, n: Text) {
    n in ix.source || n in ix.direct || NamedIn(facts, n)
  }

  lemma {:induction false} FirstErrorFromCheck(names: seq<Text>, check: Text -> Option<Error>)
    requires FirstError(names, check).Some?
    ensures exists n :: n in names && check(n) == FirstError(names, check)
  {
    if check(names[0]).None? {
      FirstErrorFromCheck(names[1..], check);
    }
  }

  predicate BlamesInput(e: Option<Error>) {
    e.Some? && e.value.UnknownExplicitInput?
  }

  /** A check that never blames an unknown input cannot make the first failure blame one. */
  lemma FirstInBlamesNoInput(names: set<Text>, check: Text -> Option<Error>)
    requires forall n :: !BlamesInput(check(n))
    ensures !BlamesInput(FirstIn(names, check))
  {
    if FirstIn(names, check).Some? {
      FirstErrorFromCheck(SortedNames(names), check);
    }
  }

  lemma {:induction false} CollectionBlamesNoInput(canonical: Facts, seen: Facts, facts: seq<Fact>)
    ensures !BlamesInput(ErrorOf(CollectTransient(canonical, seen, facts)))
    ensures CollectTransient(canonical, seen, facts).Ok? ==>
              forall n | n in canonical || n in seen || NamedIn(facts, n) ::
                n in canonical || n in CollectTransient(canonical, seen, facts).value
    decreases |facts|
  {
    if facts != [] {
      var f := facts[0];
      var next := if f.name in canonical || f.name in seen then seen else seen[f.name := f];
      CollectionBlamesNoInput(canonical, next, facts[1..]);
    }
  }

  lemma {:induction false} CompatibilityBlamesNoInput(facts: seq<Fact>, canonical: Facts, fixed: Facts, direct: Facts)
    ensures !BlamesInput(TransientCompatibility(facts, canonical, fixed, direct))
    decreases |facts|
  {
    if facts != [] {
      CompatibilityBlamesNoInput(facts[1..], canonical, fixed, direct);
    }
  }

  lemma SelectionBlamesNoInput(ix: Index, t: Facts, inputs: Inputs, services: Services)
    requires forall n | n in inputs :: n in ix.values || n in Introduced(ix, t)
    ensures !BlamesInput(ErrorOf(SelectIntroduced(ix, t, inputs, services)))
  {
    var names, at := Introduced(ix, t), IntroducedLookup(ix, t, inputs, services);
    forall n ensures !BlamesInput(Errors(at)(n)) {
      assert Errors(at)(n) == ErrorOf(IntroducedAt(ix, t, inputs, services, n));
    }
    FirstInBlamesNoInput(names, Errors(at));
    if FirstIn(names, Errors(at)).None? {
      ResolvedKeys(ix.values, names, at);
      var known := (ix.values + ValuesAt(names, at)).Keys;
      forall n | n in inputs.Keys ensures UnknownCheck(inputs, known)(n).None? {
      }
      FirstInNone(inputs.Keys, UnknownCheck(inputs, known));
    }
  }

  lemma KnownIsResolved(ix: Index, transient: seq<Fact>, t: Facts, n: Text)
    requires ix.values.Keys == ix.source.Keys + ix.direct.Keys && CollectTransient(ix.source, map[], transient) == Ok(t)
    requires Known(ix, transient, n)
    ensures n in ix.values || n in Introduced(ix, t)
  {
    CollectionBlamesNoInput(ix.source, map[], transient);
  }

  lemma {:induction false} KnownInputsNotBlamed(ix: Index, transient: seq<Fact>, inputs: Inputs, services: Services)
    requires ix.values.Keys == ix.source.Keys + ix.direct.Keys && forall n | n in inputs :: Known(ix, transient, n)
    ensures !BlamesInput(ErrorOf(IncrementalResolve(ix, transient, inputs, services)))
  {
    CollectionBlamesNoInput(ix.source, map[], transient);
    if CollectTransient(ix.source, map[], transient).Ok? {
      var t := CollectTransient(ix.source, map[], transient).value;
      FirstInBlamesNoInput(t.Keys, DefaultCheck(t));
      CompatibilityBlamesNoInput(transient, ix.source, ix.fixed, ix.direct);
      forall n | n in inputs ensures n in ix.values || n in Introduced(ix, t) {
        KnownIsResolved(ix, transient, t, n);
      }
      SelectionBlamesNoInput(ix, t, inputs, services);
      IncrementalIsStaged(transient, ix, t, inputs, services);
    }
  }

  /** Filtering keeps agreement on canonical names, and no filtered input is ever reported as unknown. */
  lemma {:induction false} FilteredInputsAreKnown(source: seq<Fact>, transient: seq<Fact>, fixed: seq<Fact>,
                                                  direct: seq<Fact>,
                                                  canonicalInputs: Inputs, all: Inputs,
                                                  services: Services, values: Values)
    requires Canonical(source, fixed, direct, canonicalInputs, services, values)
    ensures var ix := IndexOf(values, source, fixed, direct);
            var kept := FilterToKnown(ix, all, transient);
            && !BlamesInput(ErrorOf(IncrementalResolve(ix, transient, kept, services)))
            && (InputsAgree(source, canonicalInputs, all) ==> InputsAgree(source, canonicalInputs, kept))
  {
    var b := CanonicalFacts(source, fixed, direct, canonicalInputs, services, values);
    SelectedIsTotal(b, values);
    var ix := Indexed(b, values);
    KnownInputsNotBlamed(ix, transient, FilterToKnown(ix, all, transient), services);
  }
}
